/**
  The byte ranges that the loader notes for the tensors of a GGML file. Lengths are computed in
  64-bit arithmetic without a check, so a record can lead backwards in the file.
  */
module GgmlRanges {
  import opened Base
  import opened GgmlRecords
  import opened GgmlFiles

  // ---------------------------------------------------------------- sizes

  /** Bytes before the division by the block size, as a number. */
  function Blocks(t: TensorInfo): nat
    requires QuantSizes(t.dtype).Some?
  {
    Product(t.dims) * QuantSizes(t.dtype).value.1
  }

  /** The bytes that the dimensions of a tensor call for. */
  function TrueSize(t: TensorInfo): nat
    requires QuantSizes(t.dtype).Some?
  {
    Blocks(t) / QuantSizes(t.dtype).value.0
  }

  /** Guard on a record: its sizes are 64-bit numbers. */
  predicate Fits(t: TensorInfo) {
    QuantSizes(t.dtype).Some? && Blocks(t) < TWO63 && t.start + TrueSize(t) < TWO63
  }

  /** Reading goes on behind as many bytes as the dimensions call for. */
  predicate EndsTrue(t: TensorInfo) {
    QuantSizes(t.dtype).Some? && t.End() == t.start + TrueSize(t)
  }

  predicate Sized(t: TensorInfo) {
    QuantSizes(t.dtype).Some? && t.len == ByteLength(t.dims, t.dtype)
  }

  lemma BlockSizes(dtype: nat)
    requires QuantSizes(dtype).Some?
    ensures QuantSizes(dtype).value.0 in {1, 32, 256}
  {
  }

  /** Wrapping a factor first makes no difference. */
  lemma WrapProduct(a: nat, b: nat) returns (k: int)
    ensures Wrap64(Wrap64(a) * b) == a * b + k * TWO64
    ensures Wrap64(Wrap64(a) * b) == Wrap64(a * b)
  {
    var i := (a + TWO63) / TWO64;
    assert Wrap64(a) == a - i * TWO64;
    assert Wrap64(a) * b == a * b - (i * b) * TWO64;
    WrapShift(a * b, 0 - i * b);
    k := 0 - (a * b + TWO63) / TWO64;
  }

  lemma WrapShift(x: int, k: int)
    ensures Wrap64(x + k * TWO64) == Wrap64(x)
  {
  }

  lemma WrappedQuotient(x: nat, k: int, block: nat)
    requires block in {1, 32, 256} && 0 - TWO63 <= x + k * TWO64 < TWO63
    ensures (x + k * TWO64) / block == x / block <==> x < TWO63
    ensures 0 - TWO63 <= (x + k * TWO64) / block < TWO63
  {
    if x >= TWO63 {
      assert k <= 0 - 1;
      assert x + k * TWO64 <= x - TWO64;
    } else {
      assert k == 0;
    }
  }

  /** The length is the true number of bytes exactly if that number, counted in whole blocks, is
      below 2^63. */
  lemma SizeIsTrueIff(t: TensorInfo)
    requires Sized(t)
    ensures t.len == TrueSize(t) <==> Blocks(t) < TWO63
    ensures 0 - TWO63 <= t.len < TWO63
  {
    hide QuantSizes, Product, Wrap64;
    var (block, size) := QuantSizes(t.dtype).value;
    BlockSizes(t.dtype);
    var k := WrapProduct(Product(t.dims), size);
    WrappedQuotient(Product(t.dims) * size, k, block);
  }

  lemma WrapsToSum(start: nat, len: int, size: nat)
    requires 0 - TWO63 <= len < TWO63
    ensures Wrap64(start + len) == start + size <==> len == size && start + size < TWO63
  {
    var k := (start + len + TWO63) / TWO64;
    assert Wrap64(start + len) == start + len - k * TWO64;
  }

  /** Reading goes on right behind the data that the dimensions call for exactly if the record meets
      the guard. */
  lemma GoesOnBehindIff(t: TensorInfo)
    requires Sized(t) && t.start >= 0
    ensures EndsTrue(t) <==> Fits(t)
  {
    hide QuantSizes, Blocks, TrueSize, Wrap64, ByteLength;
    SizeIsTrueIff(t);
    WrapsToSum(t.start, t.len, TrueSize(t));
  }

  lemma FitsForward(t: TensorInfo)
    requires Sized(t) && Fits(t)
    ensures t.Forward()
  {
    hide QuantSizes, Blocks, TrueSize;
    SizeIsTrueIff(t);
  }

  /** Going on at the start of the data or behind it is the same as `Forward`. */
  lemma ForwardIff(t: TensorInfo)
    requires t.start >= 0 && 0 - TWO63 <= t.len < TWO63
    ensures t.start <= t.End() <==> t.Forward()
  {
  }

  // ---------------------------------------------------------------- order

  lemma {:induction false} AllSized(data: Bytes, offset: int, padding: bool, fuel: nat)
    requires ReadTensors(data, offset, padding, fuel).Ok?
    ensures forall t :: t in ReadTensors(data, offset, padding, fuel).value.0 ==> Sized(t)
    decreases fuel
  {
    hide ReadTensor, ReadTensors, Wrap64, ByteLength, QuantSizes;
    var ts := ReadTensors(data, offset, padding, fuel).value.0;
    if ts != [] {
      TensorsCons(data, offset, padding, fuel);
      AllSized(data, ts[0].End(), padding, fuel - 1);
      assert ts == [ts[0]] + ts[1..];
    }
  }

  /** The byte range of every tensor starts behind its record's head, aligned in GGJT files; the last
      one ends where reading ends. */
  lemma {:induction false} EachRange(data: Bytes, offset: nat, padding: bool, fuel: nat, i: nat)
    requires ReadTensors(data, offset, padding, fuel).Ok? && i < |ReadTensors(data, offset, padding, fuel).value.0|
    requires AllForward(ReadTensors(data, offset, padding, fuel).value.0)
    ensures var (ts, end) := ReadTensors(data, offset, padding, fuel).value;
            && offset < |data| && offset + 12 <= ts[i].start <= ts[i].End() == ts[i].start + ts[i].len <= end
            && (padding ==> ts[i].start % 32 == 0)
            && (i == |ts| - 1 ==> ts[i].End() == end)
    decreases i
  {
    hide ReadTensor, ReadTensors, Wrap64, AllForward;
    TensorsCons(data, offset, padding, fuel);
    var ts := ReadTensors(data, offset, padding, fuel).value.0;
    ForwardEnd(ts[0]);
    EndBeyond(data, ts[0].End(), padding, fuel - 1);
    if i > 0 { EachRange(data, ts[0].End(), padding, fuel - 1, i - 1); }
    if i == 0 && |ts| == 1 { NoneLeft(data, ts[0].End(), padding, fuel - 1); }
  }

  /** The byte ranges of the tensors are in file order, apart by at least a record's head; all but the
      last end inside the file. */
  lemma {:induction false} RangesInOrder(data: Bytes, offset: nat, padding: bool, fuel: nat, i: nat, j: nat)
    requires ReadTensors(data, offset, padding, fuel).Ok? &&
             AllForward(ReadTensors(data, offset, padding, fuel).value.0)
    requires i < j < |ReadTensors(data, offset, padding, fuel).value.0|
    ensures var ts := ReadTensors(data, offset, padding, fuel).value.0;
            ts[i].End() + 12 <= ts[j].start && ts[i].End() < |data|
    decreases i
  {
    hide ReadTensor, ReadTensors, Wrap64, AllForward;
    TensorsCons(data, offset, padding, fuel);
    var ts := ReadTensors(data, offset, padding, fuel).value.0;
    ForwardEnd(ts[0]);
    if i > 0 {
      RangesInOrder(data, ts[0].End(), padding, fuel - 1, i - 1, j - 1);
    } else {
      EachRange(data, ts[0].End(), padding, fuel - 1, j - 1);
    }
  }

  /** Ranges that start in the file, do not end before they start, and follow each other. */
  predicate InOrder(ts: seq<TensorInfo>) {
    && (forall i :: 0 <= i < |ts| ==> 0 <= ts[i].start <= ts[i].End())
    && (forall i, j :: 0 <= i < j < |ts| ==> ts[i].End() <= ts[j].start)
  }

  /** The ranges that were read are in file order, and so disjoint, exactly if every tensor's length
      is not negative and ends below 2^63. */
  lemma InOrderIff(data: Bytes, offset: nat, padding: bool, fuel: nat)
    requires ReadTensors(data, offset, padding, fuel).Ok?
    ensures var ts := ReadTensors(data, offset, padding, fuel).value.0;
            InOrder(ts) <==> AllForward(ts)
  {
    hide ReadTensors, Wrap64, QuantSizes, ByteLength;
    var ts := ReadTensors(data, offset, padding, fuel).value.0;
    AllSized(data, offset, padding, fuel);
    if InOrder(ts) {
      forall i | 0 <= i < |ts| ensures ts[i].Forward() {
        SizeIsTrueIff(ts[i]);
        ForwardIff(ts[i]);
      }
    }
    if AllForward(ts) {
      forall i | 0 <= i < |ts| ensures 0 <= ts[i].start <= ts[i].End() {
        EachRange(data, offset, padding, fuel, i);
      }
      forall i, j | 0 <= i < j < |ts| ensures ts[i].End() <= ts[j].start {
        RangesInOrder(data, offset, padding, fuel, i, j);
      }
    }
  }

  predicate AllFit(ts: seq<TensorInfo>) {
    forall i :: 0 <= i < |ts| ==> Fits(ts[i])
  }

  predicate TrueSizes(ts: seq<TensorInfo>) {
    forall i :: 0 <= i < |ts| ==> EndsTrue(ts[i])
  }

  lemma FitEnd(t: TensorInfo)
    requires Sized(t) && Fits(t)
    ensures t.Forward() && (t.start >= 0 ==> EndsTrue(t))
  {
    hide TrueSize, QuantSizes, Blocks, Wrap64, ByteLength;
    FitsForward(t);
    if t.start >= 0 { GoesOnBehindIff(t); }
  }

  lemma AllFitForward(ts: seq<TensorInfo>)
    requires AllFit(ts) && forall t :: t in ts ==> Sized(t)
    ensures AllForward(ts) && (InOrder(ts) ==> TrueSizes(ts))
  {
    hide Fits, EndsTrue, Sized;
    forall i | 0 <= i < |ts| ensures ts[i].Forward() && (ts[i].start >= 0 ==> EndsTrue(ts[i])) {
      FitEnd(ts[i]);
    }
  }

  /** Records that meet the guard have disjoint ranges of the sizes that their dimensions call for. */
  lemma GuardedInOrder(data: Bytes, offset: nat, padding: bool, fuel: nat)
    requires ReadTensors(data, offset, padding, fuel).Ok? && AllFit(ReadTensors(data, offset, padding, fuel).value.0)
    ensures var ts := ReadTensors(data, offset, padding, fuel).value.0; InOrder(ts) && TrueSizes(ts)
  {
    hide *;
    AllSized(data, offset, padding, fuel);
    InOrderIff(data, offset, padding, fuel);
    AllFitForward(ReadTensors(data, offset, padding, fuel).value.0);
  }

  // ---------------------------------------------------------------- ending

  /** No record met in `fuel` rounds of the loop leads backwards. */
  predicate GoesForward(data: Bytes, offset: int, padding: bool, fuel: nat)
    decreases fuel
  {
    offset >= |data| || fuel == 0 ||
    (var t := ReadTensor(data, offset, padding);
     t.Err? || (t.value.Forward() && GoesForward(data, t.value.End(), padding, fuel - 1)))
  }

  /** The loop ends if no record leads backwards. */
  lemma {:induction false} ForwardEnds(data: Bytes, offset: nat, padding: bool, fuel: nat)
    requires offset + fuel >= |data| && GoesForward(data, offset, padding, fuel)
    ensures ReadTensors(data, offset, padding, fuel) != Err(Unfinished)
    decreases fuel
  {
    hide Wrap64, ReadTensor;
    NotUnfinished(data, offset, padding);
    if offset < |data| && ReadTensor(data, offset, padding).Ok? {
      ForwardEnd(ReadTensor(data, offset, padding).value);
      ForwardEnds(data, ReadTensor(data, offset, padding).value.End(), padding, fuel - 1);
    }
  }

  lemma NotUnfinished(data: Bytes, offset: int, padding: bool)
    ensures ReadTensor(data, offset, padding) != Err(Unfinished)
    ensures var t := ReadTensor(data, offset, padding); t.Ok? ==> t.value.start >= offset + 12
  {
    hide ReadWords, QuantSizes, Slice, AlignUp;
  }

  /** A loop that ends takes no more rounds than it needs. */
  lemma {:induction false} FuelAgrees(data: Bytes, offset: int, padding: bool, fuel: nat, more: nat)
    requires fuel <= more && ReadTensors(data, offset, padding, fuel) != Err(Unfinished)
    ensures ReadTensors(data, offset, padding, more) == ReadTensors(data, offset, padding, fuel)
    decreases fuel
  {
    var t := ReadTensor(data, offset, padding);
    hide ReadTensor;
    if offset < |data| && t.Ok? { FuelAgrees(data, t.value.End(), padding, fuel - 1, more - 1); }
  }

  /** A record that leads back to itself is read forever. */
  lemma {:induction false} StaysForever(data: Bytes, offset: int, padding: bool, fuel: nat)
    requires offset < |data| && ReadTensor(data, offset, padding).Ok?
    requires ReadTensor(data, offset, padding).value.End() == offset
    ensures ReadTensors(data, offset, padding, fuel) == Err(Unfinished)
    decreases fuel
  {
    hide ReadTensor;
    if fuel > 0 { StaysForever(data, offset, padding, fuel - 1); }
  }

  // ---------------------------------------------------------------- a record that steps back

  /** Their product is 2^64 - 256. */
  const BACK_DIMS: seq<nat> := [256, 268435455, 268435457]

  const INT8 := 24

  lemma BackLength()
    ensures ByteLength(BACK_DIMS, INT8) == -256
  {
    assert BACK_DIMS[1..] == [268435455, 268435457] && BACK_DIMS[1..][1..] == [268435457];
    assert Product([268435457]) == 268435457;
    assert Product([268435455, 268435457]) == 268435455 * 268435457;
    assert Product(BACK_DIMS) == 256 * (268435455 * 268435457) == TWO64 - 256;
  }

  /** A record of bytes with these dimensions sends the loader 256 bytes back. */
  lemma StepsBack(data: Bytes, offset: nat, padding: bool, nameLen: nat)
    requires nameLen < 4096 && offset + 24 <= |data| < TWO63 - 10000
    requires Holds(data, offset, PrintWords([3, nameLen, INT8])) && Holds(data, offset + 12, PrintWords(BACK_DIMS))
    ensures ReadTensor(data, offset, padding).Ok?
    ensures var t := ReadTensor(data, offset, padding).value;
            && t.len == -256 && t.End() == t.start - 256 && !Fits(t)
            && t.start == (if padding then AlignUp(offset + 24 + nameLen) else offset + 24 + nameLen)
  {
    BackLength();
    HeadRead(data, offset, [3, nameLen, INT8], BACK_DIMS);
    hide ReadTensorHead, Product, PrintWords, ByteLength, Holds, Slice;
    BackRead(data, offset, padding, nameLen);
  }

  lemma BackRead(data: Bytes, offset: nat, padding: bool, nameLen: nat)
    requires ReadTensorHead(data, offset) == Ok((BACK_DIMS, nameLen, INT8)) && ByteLength(BACK_DIMS, INT8) == -256
    requires nameLen < 4096 && offset < TWO63 - 10000
    ensures ReadTensor(data, offset, padding).Ok?
    ensures var t := ReadTensor(data, offset, padding).value;
            && t.len == -256 && t.End() == t.start - 256 && !Fits(t)
            && t.start == (if padding then AlignUp(offset + 24 + nameLen) else offset + 24 + nameLen)
  {
    hide ReadTensorHead, Product, ByteLength, Slice, QuantSizes, Blocks, TrueSize;
    var t := ReadTensor(data, offset, padding).value;
    assert |BACK_DIMS| == 3;
    GoesOnBehindIff(t);
  }

  /** With a name of 232 bytes the loader comes back to the same record, and never ends. */
  lemma NeverEnds(data: Bytes, offset: nat, fuel: nat)
    requires offset + 24 <= |data| < TWO63 - 10000
    requires Holds(data, offset, PrintWords([3, 232, INT8])) && Holds(data, offset + 12, PrintWords(BACK_DIMS))
    ensures ReadTensors(data, offset, false, fuel) == Err(Unfinished)
  {
    hide ReadTensor, ReadTensors, Holds, PrintWords, Fits, Wrap64;
    StepsBack(data, offset, false, 232);
    StaysForever(data, offset, false, fuel);
  }
}
