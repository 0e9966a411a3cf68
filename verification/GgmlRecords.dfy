/**
  Legacy GGML model files (convert_llama_ggml_to_gguf.py): what each record of a file says, read at
  an offset of the file's bytes.
  */
module GgmlRecords {
  import opened Base

  type Byte = b: int | 0 <= b < 256
  type Bytes = seq<Byte>

  const TWO32: nat := 0x1_0000_0000
  const TWO63: nat := 0x8000_0000_0000_0000
  const TWO64: nat := 0x1_0000_0000_0000_0000

  datatype Format = GGML | GGMF | GGJT

  /** Why a file is refused; `Unfinished` says that the loop over the tensors is still running. */
  datatype LoadError =
    | Truncated | AlreadyGguf | BadMagic | BadVersion | BadFtype | NotEligible
    | AbsurdLength | BadDims | UnknownType | NoFeedForward | Unfinished

  // ---------------------------------------------------------------- little-endian words

  function Word(a: Byte, b: Byte, c: Byte, d: Byte): (n: nat)
    ensures n < TWO32 && n == a + 0x100 * b + 0x1_0000 * c + 0x100_0000 * d
  {
    a + 0x100 * (b + 0x100 * (c + 0x100 * d))
  }

  function Digits(n: nat): (r: Bytes)
    requires n < TWO32
    ensures |r| == 4 && Word(r[0], r[1], r[2], r[3]) == n
  {
    var q := n / 0x100;
    var p := q / 0x100;
    [n % 0x100, q % 0x100, p % 0x100, p / 0x100]
  }

  lemma DigitsOfWord(a: Byte, b: Byte, c: Byte, d: Byte)
    ensures Digits(Word(a, b, c, d)) == [a, b, c, d]
  {
    var q := b + 0x100 * (c + 0x100 * d);
    var p := c + 0x100 * d;
    var n := Word(a, b, c, d);
    assert n / 0x100 == q && n % 0x100 == a;
    assert q / 0x100 == p && q % 0x100 == b;
    assert p / 0x100 == d && p % 0x100 == c;
  }

  /** `data[offset:offset + len]`. */
  function Slice(data: Bytes, offset: int, len: nat): (r: Bytes)
    ensures |r| <= len
  {
    var lo, hi := Clamp(offset, |data|), Clamp(offset + len, |data|);
    if lo <= hi then data[lo..hi] else []
  }

  function WordsOf(b: Bytes): (r: seq<nat>)
    requires |b| % 4 == 0
    ensures |r| == |b| / 4 && forall i :: 0 <= i < |r| ==> r[i] < TWO32
  {
    if b == [] then [] else [Word(b[0], b[1], b[2], b[3])] + WordsOf(b[4..])
  }

  /** `struct.unpack` of `n` words: an error unless the slice has the right length. */
  function ReadWords(data: Bytes, offset: int, n: nat): (r: Result<seq<nat>, LoadError>)
    ensures r.Ok? ==> |r.value| == n && forall i :: 0 <= i < n ==> r.value[i] < TWO32
  {
    var b := Slice(data, offset, 4 * n);
    if |b| != 4 * n then Err(Truncated) else Ok(WordsOf(b))
  }

  function ReadWord(data: Bytes, offset: int): (r: Result<nat, LoadError>)
    ensures r.Ok? ==> r.value < TWO32
  {
    var w := ReadWords(data, offset, 1);
    if w.Err? then Err(w.error) else Ok(w.value[0])
  }

  // ---------------------------------------------------------------- header

  const MAGIC_GGUF: Bytes := [71, 71, 85, 70]
  const MAGIC_GGML: Bytes := [108, 109, 103, 103]
  const MAGIC_GGMF: Bytes := [102, 109, 103, 103]
  const MAGIC_GGJT: Bytes := [116, 106, 103, 103]

  datatype Header = Header(format: Format, version: nat) {
    /** Bytes that the header takes. */
    function Size(): nat { if format == GGML then 4 else 8 }
  }

  function ReadHeader(data: Bytes, offset: nat): Result<Header, LoadError> {
    var magic := Slice(data, offset, 4);
    if magic == MAGIC_GGUF then Err(AlreadyGguf)
    else if magic == MAGIC_GGML then Ok(Header(GGML, 1))
    else
      var version := ReadWord(data, offset + 4);
      if version.Err? then Err(Truncated)
      else if magic == MAGIC_GGMF then
        if version.value != 1 then Err(BadVersion) else Ok(Header(GGMF, 1))
      else if magic == MAGIC_GGJT then
        if version.value < 1 || version.value > 3 then Err(BadVersion) else Ok(Header(GGJT, version.value))
      else Err(BadMagic)
  }

  // ---------------------------------------------------------------- hyperparameters

  datatype Params = Params(nVocab: nat, nEmbd: nat, nMult: nat, nHead: nat, nLayer: nat, nRot: nat, ftype: nat)

  const ALL_F32 := 0
  const MOSTLY_F16 := 1
  const MOSTLY_Q4_0 := 2
  const MOSTLY_Q4_1 := 3
  const MOSTLY_Q4_1_SOME_F16 := 4
  const MOSTLY_Q8_0 := 7

  /** The values of `GGMLFType`. */
  predicate KnownFtype(ftype: nat) { ftype <= 4 || 7 <= ftype <= 18 }

  function ReadParams(data: Bytes, offset: nat): Result<Params, LoadError> {
    var w := ReadWords(data, offset, 7);
    if w.Err? then Err(Truncated)
    else if !KnownFtype(w.value[6]) then Err(BadFtype)
    else Ok(Params(w.value[0], w.value[1], w.value[2], w.value[3], w.value[4], w.value[5], w.value[6]))
  }

  /** Files of a kind that can be converted: the quantized formats changed twice. */
  predicate Eligible(h: Header, ftype: nat) {
    if h.format != GGJT || h.version < 2 then ftype in {ALL_F32, MOSTLY_F16}
    else if h.version == 2 then ftype !in {MOSTLY_Q4_0, MOSTLY_Q4_1, MOSTLY_Q4_1_SOME_F16, MOSTLY_Q8_0}
    else true
  }

  // ---------------------------------------------------------------- vocabulary

  /** An entry; without scores in the file its score is 0.0, here no bytes. */
  datatype Item = Item(text: Bytes, score: Bytes)

  function ReadItem(data: Bytes, offset: nat, scores: bool): Result<(Item, nat), LoadError> {
    var len := ReadWord(data, offset);
    if len.Err? then Err(Truncated)
    else if len.value >= 4096 then Err(AbsurdLength)
    else
      var text, end := Slice(data, offset + 4, len.value), offset + 4 + len.value;
      if !scores then Ok((Item(text, []), end))
      else if end + 4 > |data| then Err(Truncated)
      else Ok((Item(text, data[end..end + 4]), end + 4))
  }

  /** `n` entries from `offset` on, and where they end. */
  function ReadItems(data: Bytes, offset: nat, n: nat, scores: bool): (r: Result<(seq<Item>, nat), LoadError>)
    ensures r.Ok? ==> |r.value.0| == n && r.value.1 >= offset
    decreases n
  {
    if n == 0 then Ok(([], offset))
    else
      var first := ReadItem(data, offset, scores);
      if first.Err? then Err(first.error)
      else
        var rest := ReadItems(data, first.value.1, n - 1, scores);
        if rest.Err? then Err(rest.error) else Ok(([first.value.0] + rest.value.0, rest.value.1))
  }

  // ---------------------------------------------------------------- tensors

  const QK_K := 256

  /** `GGML_QUANT_SIZES`: block size and bytes per block. */
  function QuantSizes(dtype: nat): (r: Option<(nat, nat)>)
    ensures r.Some? ==> r.value.0 > 0 && r.value.1 > 0
  {
    match dtype
    case 0 => Some((1, 4))
    case 1 => Some((1, 2))
    case 2 => Some((32, 2 + 16))
    case 3 => Some((32, 2 + 2 + 16))
    case 6 => Some((32, 2 + 4 + 16))
    case 7 => Some((32, 2 + 2 + 4 + 16))
    case 8 => Some((32, 2 + 32))
    case 9 => Some((32, 4 + 4 + 32))
    case 10 => Some((256, 2 + 2 + QK_K / 16 + QK_K / 4))
    case 11 => Some((256, 2 + QK_K / 4 + QK_K / 8 + 12))
    case 12 => Some((256, 2 + 2 + QK_K / 2 + 12))
    case 13 => Some((256, 2 + 2 + QK_K / 2 + QK_K / 8 + 12))
    case 14 => Some((256, 2 + QK_K / 2 + QK_K / 4 + QK_K / 16))
    case 15 => Some((256, 4 + QK_K + QK_K / 8))
    case 16 => Some((256, 2 + QK_K / 4))
    case 17 => Some((256, 2 + QK_K / 4 + QK_K / 32))
    case 18 => Some((256, 2 + QK_K / 4 + QK_K / 8))
    case 19 => Some((256, 2 + QK_K / 8 + QK_K / 16))
    case 20 => Some((32, 2 + 16))
    case 21 => Some((256, 2 + QK_K / 4 + QK_K / 8 + QK_K / 32 + 4))
    case 22 => Some((256, 2 + QK_K / 4 + QK_K / 16))
    case 23 => Some((256, 2 + 2 + QK_K / 2 + QK_K / 64))
    case 24 => Some((1, 1))
    case 25 => Some((1, 2))
    case 26 => Some((1, 4))
    case 27 => Some((1, 8))
    case 28 => Some((1, 8))
    case 29 => Some((256, QK_K / 8 + QK_K / 16 + QK_K / 32))
    case 30 => Some((1, 2))
    case 34 => Some((256, 2 + 4 * 13))
    case 35 => Some((256, 2 + 64))
    case 39 => Some((32, 1 + 16))
    case _ => None
  }

  /** Signed 64-bit arithmetic wraps around. */
  function Wrap64(x: int): (r: int)
    ensures 0 - TWO63 <= r < TWO63
  {
    (x + TWO63) % TWO64 - TWO63
  }

  datatype TensorInfo = TensorInfo(name: Bytes, dims: seq<nat>, dtype: nat, start: int, len: int) {
    /** Where reading goes on. */
    function End(): int { Wrap64(start + len) }

    /** The data lies behind its start and ends below 2^63. */
    predicate Forward() { 0 <= len && start + len < TWO63 }
  }

  function Product(dims: seq<nat>): nat {
    if dims == [] then 1 else dims[0] * Product(dims[1..])
  }

  /** The length of a tensor's data as it is computed, in 64-bit arithmetic. */
  function ByteLength(dims: seq<nat>, dtype: nat): int
    requires QuantSizes(dtype).Some?
  {
    var (block, size) := QuantSizes(dtype).value;
    Wrap64(Wrap64(Product(dims)) * size) / block
  }

  /** `(offset + 31) & ~31`: the next multiple of 32. */
  function AlignUp(offset: int): (r: int)
    ensures offset <= r < offset + 32 && r % 32 == 0
  {
    (offset + 31) / 32 * 32
  }

  /** A record's fields before its data. */
  function ReadTensorHead(data: Bytes, offset: int): (r: Result<(seq<nat>, nat, nat), LoadError>)
    ensures r.Ok? ==> |r.value.0| <= 4 && QuantSizes(r.value.2).Some?
  {
    var w := ReadWords(data, offset, 3);
    if w.Err? then Err(Truncated)
    else if w.value[0] > 4 then Err(BadDims)
    else if w.value[1] >= 4096 then Err(AbsurdLength)
    else if QuantSizes(w.value[2]).None? then Err(UnknownType)
    else
      var dims := ReadWords(data, offset + 12, w.value[0]);
      if dims.Err? then Err(Truncated) else Ok((dims.value, w.value[1], w.value[2]))
  }

  function ReadTensor(data: Bytes, offset: int, padding: bool): (r: Result<TensorInfo, LoadError>)
    ensures r.Ok? ==> offset + 12 <= r.value.start && (padding ==> r.value.start % 32 == 0)
    ensures r.Ok? ==> QuantSizes(r.value.dtype).Some? && r.value.len == ByteLength(r.value.dims, r.value.dtype)
  {
    var head := ReadTensorHead(data, offset);
    if head.Err? then Err(head.error)
    else
      var (dims, nameLen, dtype) := head.value;
      var nameAt := offset + 12 + 4 * |dims|;
      var end := nameAt + nameLen;
      var start := if padding then AlignUp(end) else end;
      Ok(TensorInfo(Slice(data, nameAt, nameLen), dims, dtype, start, ByteLength(dims, dtype)))
  }

  /** The tensors that the loop reads, and where it ends; the loop is followed for `fuel` rounds. */
  function ReadTensors(
    data: Bytes, offset: int, padding: bool, fuel: nat): (r: Result<(seq<TensorInfo>, int), LoadError>)
    decreases fuel
  {
    if offset >= |data| then Ok(([], offset))
    else if fuel == 0 then Err(Unfinished)
    else
      var first := ReadTensor(data, offset, padding);
      if first.Err? then Err(first.error)
      else
        var rest := ReadTensors(data, first.value.End(), padding, fuel - 1);
        if rest.Err? then Err(rest.error) else Ok(([first.value] + rest.value.0, rest.value.1))
  }

  /** The position of the last tensor of each name. */
  function IndexMap(ts: seq<TensorInfo>): map<Bytes, nat>
    decreases |ts|
  {
    if ts == [] then map[]
    else
      var last := |ts| - 1;
      IndexMap(ts[..last])[ts[last].name := last]
  }

  lemma IndexSnoc(ts: seq<TensorInfo>, t: TensorInfo)
    ensures IndexMap(ts + [t]) == IndexMap(ts)[t.name := |ts|]
  {
    assert (ts + [t])[..|ts|] == ts;
  }

  /** A name leads to the last tensor that carries it, and only to that one. */
  lemma {:induction false} IndexIsLast(ts: seq<TensorInfo>, name: Bytes, k: nat)
    ensures name in IndexMap(ts) && IndexMap(ts)[name] == k <==>
            k < |ts| && ts[k].name == name && forall i :: k < i < |ts| ==> ts[i].name != name
    decreases |ts|
  {
    if ts != [] {
      var init := ts[..|ts| - 1];
      IndexIsLast(init, name, k);
      assert forall i :: 0 <= i < |init| ==> init[i] == ts[i];
    }
  }

  /** `layers.0.feed_forward.w1.weight`. */
  const FEED_FORWARD: Bytes := [
    108, 97, 121, 101, 114, 115, 46, 48, 46, 102, 101, 101, 100, 95, 102, 111, 114, 119, 97, 114, 100, 46,
    119, 49, 46, 119, 101, 105, 103, 104, 116]

  function FeedForwardSize(ts: seq<TensorInfo>): Result<nat, LoadError> {
    if FEED_FORWARD !in IndexMap(ts) then Err(NoFeedForward)
    else
      var i := IndexMap(ts)[FEED_FORWARD];
      IndexIsLast(ts, FEED_FORWARD, i);
      if |ts[i].dims| < 2 then Err(NoFeedForward) else Ok(ts[i].dims[1])
  }

  // ---------------------------------------------------------------- the file

  datatype Model = Model(header: Header, params: Params, nFf: nat, items: seq<Item>, tensors: seq<TensorInfo>, end: int)

  function ReadModel(data: Bytes, offset: nat, fuel: nat): Result<Model, LoadError> {
    var header := ReadHeader(data, offset);
    if header.Err? then Err(header.error) else
    var paramsAt := offset + header.value.Size();
    var params := ReadParams(data, paramsAt);
    if params.Err? then Err(params.error)
    else if !Eligible(header.value, params.value.ftype) then Err(NotEligible)
    else
      var items := ReadItems(data, paramsAt + 28, params.value.nVocab, header.value.format != GGML);
      if items.Err? then Err(items.error)
      else
        var tensors := ReadTensors(data, items.value.1, header.value.format == GGJT, fuel);
        if tensors.Err? then Err(tensors.error)
        else
          var ff := FeedForwardSize(tensors.value.0);
          if ff.Err? then Err(ff.error)
          else Ok(Model(header.value, params.value, ff.value, items.value.0, tensors.value.0, tensors.value.1))
  }
}
