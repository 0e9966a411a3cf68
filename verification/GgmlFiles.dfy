/**
  The layout of legacy GGML files as a printer, and what the loader makes of printed files: it reads
  back what was printed, and it accepts nothing else up to the end of the file.
  */
module GgmlFiles {
  import opened Base
  import opened GgmlRecords

  // ---------------------------------------------------------------- places in a file

  predicate Holds(data: Bytes, offset: nat, bytes: Bytes) {
    offset + |bytes| <= |data| && data[offset..offset + |bytes|] == bytes
  }

  lemma HoldsBoth(data: Bytes, offset: nat, a: Bytes, b: Bytes)
    ensures Holds(data, offset, a + b) <==> Holds(data, offset, a) && Holds(data, offset + |a|, b)
  {
    if offset + |a| + |b| <= |data| {
      var whole := data[offset..offset + |a + b|];
      assert whole == data[offset..offset + |a|] + data[offset + |a|..offset + |a| + |b|];
      if Holds(data, offset, a + b) {
        assert whole[..|a|] == a && whole[|a|..] == b;
      }
    }
  }

  lemma HoldsAll(data: Bytes)
    ensures Holds(data, 0, data)
  {
  }

  lemma SliceHolds(data: Bytes, offset: nat, len: nat)
    requires offset + len <= |data|
    ensures |Slice(data, offset, len)| == len && Holds(data, offset, Slice(data, offset, len))
    ensures forall b: Bytes :: |b| == len && Holds(data, offset, b) ==> Slice(data, offset, len) == b
  {
    if len == 0 && offset >= |data| { assert data[offset..offset] == []; }
  }

  lemma SliceFits(data: Bytes, offset: nat, len: nat)
    requires |Slice(data, offset, len)| == len > 0
    ensures offset + len <= |data|
  {
  }

  // ---------------------------------------------------------------- words

  function PrintWords(ws: seq<nat>): (r: Bytes)
    requires forall i :: 0 <= i < |ws| ==> ws[i] < TWO32
    ensures |r| == 4 * |ws|
  {
    if ws == [] then [] else Digits(ws[0]) + PrintWords(ws[1..])
  }

  lemma {:induction false} WordsInverse(b: Bytes, ws: seq<nat>)
    requires |b| == 4 * |ws| && forall i :: 0 <= i < |ws| ==> ws[i] < TWO32
    ensures WordsOf(b) == ws <==> b == PrintWords(ws)
  {
    if ws != [] {
      hide Digits, Word;
      var word := Word(b[0], b[1], b[2], b[3]);
      DigitsOfWord(b[0], b[1], b[2], b[3]);
      WordsInverse(b[4..], ws[1..]);
      assert b == [b[0], b[1], b[2], b[3]] + b[4..];
      assert ws == [ws[0]] + ws[1..];
      if b == PrintWords(ws) {
        assert b[..4] == Digits(ws[0]) && b[4..] == PrintWords(ws[1..]);
        assert word == ws[0];
      }
      if WordsOf(b) == ws {
        assert WordsOf(b)[0] == word && WordsOf(b)[1..] == WordsOf(b[4..]);
      }
    }
  }

  /** Words are read exactly if they stand there. */
  lemma WordsIff(data: Bytes, offset: nat, ws: seq<nat>)
    requires forall i :: 0 <= i < |ws| ==> ws[i] < TWO32
    requires offset <= |data|
    ensures ReadWords(data, offset, |ws|) == Ok(ws) <==> Holds(data, offset, PrintWords(ws))
  {
    var len := 4 * |ws|;
    hide Slice, WordsOf, PrintWords;
    if offset + len <= |data| {
      SliceHolds(data, offset, len);
      WordsInverse(Slice(data, offset, len), ws);
    } else if |Slice(data, offset, len)| == len {
      SliceFits(data, offset, len);
      assert false;
    }
  }

  lemma WordsFit(data: Bytes, offset: nat, n: nat)
    requires n > 0 && ReadWords(data, offset, n).Ok?
    ensures offset + 4 * n <= |data|
  {
    SliceFits(data, offset, 4 * n);
  }

  lemma OneWord(n: nat)
    requires n < TWO32
    ensures PrintWords([n]) == Digits(n)
  {
    hide Digits;
  }

  /** A word is read exactly if its digits stand there. */
  lemma WordIff(data: Bytes, offset: nat, n: nat)
    requires n < TWO32
    ensures ReadWord(data, offset) == Ok(n) <==> Holds(data, offset, Digits(n))
    ensures ReadWord(data, offset).Ok? ==> offset + 4 <= |data|
  {
    hide ReadWords, PrintWords, Digits;
    var w := ReadWords(data, offset, 1);
    if w.Ok? {
      WordsFit(data, offset, 1);
      assert w.value == [w.value[0]];
    }
    OneWord(n);
    if offset <= |data| { WordsIff(data, offset, [n]); }
  }

  // ---------------------------------------------------------------- header

  predicate ValidHeader(h: Header) {
    match h.format
    case GGML => h.version == 1
    case GGMF => h.version == 1
    case GGJT => 1 <= h.version <= 3
  }

  function Magic(f: Format): (r: Bytes)
    ensures |r| == 4
  {
    match f case GGML => MAGIC_GGML case GGMF => MAGIC_GGMF case GGJT => MAGIC_GGJT
  }

  function PrintHeader(h: Header): (r: Bytes)
    requires ValidHeader(h)
    ensures |r| == h.Size()
  {
    if h.format == GGML then Magic(GGML) else Magic(h.format) + Digits(h.version)
  }

  lemma DifferentMagic()
    ensures MAGIC_GGUF[0] == 71 && MAGIC_GGML[0] == 108 && MAGIC_GGMF[0] == 102 && MAGIC_GGJT[0] == 116
  {
  }

  lemma MagicStands(data: Bytes, offset: nat, f: Format)
    ensures Slice(data, offset, 4) == Magic(f) <==> Holds(data, offset, Magic(f))
  {
    if |Slice(data, offset, 4)| == 4 { SliceFits(data, offset, 4); }
    if offset + 4 <= |data| { SliceHolds(data, offset, 4); }
  }

  /** A header is read exactly if it stands there. */
  lemma HeaderIff(data: Bytes, offset: nat, h: Header)
    ensures ReadHeader(data, offset) == Ok(h) <==> ValidHeader(h) && Holds(data, offset, PrintHeader(h))
  {
    hide Slice, ReadWord, Digits, Holds;
    DifferentMagic();
    MagicStands(data, offset, h.format);
    if ReadHeader(data, offset) == Ok(h) { WordIff(data, offset + 4, h.version); }
    if ValidHeader(h) {
      HoldsBoth(data, offset, Magic(h.format), Digits(h.version));
      WordIff(data, offset + 4, h.version);
    }
  }

  // ---------------------------------------------------------------- hyperparameters

  function ParamWords(p: Params): (r: seq<nat>)
    ensures |r| == 7
  {
    [p.nVocab, p.nEmbd, p.nMult, p.nHead, p.nLayer, p.nRot, p.ftype]
  }

  predicate ValidParams(p: Params) {
    KnownFtype(p.ftype) && forall i :: 0 <= i < 7 ==> ParamWords(p)[i] < TWO32
  }

  /** Hyperparameters are read exactly if they stand there. */
  lemma ParamsIff(data: Bytes, offset: nat, p: Params)
    requires offset <= |data|
    ensures ReadParams(data, offset) == Ok(p) <==> ValidParams(p) && Holds(data, offset, PrintWords(ParamWords(p)))
  {
    var ws := ReadWords(data, offset, 7);
    hide PrintWords, Digits, Word, ReadWords;
    if ReadParams(data, offset) == Ok(p) {
      assert ws.value == ParamWords(p);
      WordsIff(data, offset, ParamWords(p));
    }
    if ValidParams(p) { WordsIff(data, offset, ParamWords(p)); }
  }

  // ---------------------------------------------------------------- vocabulary

  predicate ValidItem(item: Item, scores: bool) {
    |item.text| < 4096 && |item.score| == if scores then 4 else 0
  }

  function PrintItem(item: Item): Bytes
    requires |item.text| < 4096
  {
    Digits(|item.text|) + (item.text + item.score)
  }

  predicate ValidItems(items: seq<Item>, scores: bool) {
    forall i :: 0 <= i < |items| ==> ValidItem(items[i], scores)
  }

  function PrintItems(items: seq<Item>): Bytes
    requires forall i :: 0 <= i < |items| ==> |items[i].text| < 4096
  {
    if items == [] then [] else PrintItem(items[0]) + PrintItems(items[1..])
  }

  lemma ItemParts(data: Bytes, offset: nat, item: Item)
    requires |item.text| < 4096
    ensures Holds(data, offset, PrintItem(item)) <==>
            && Holds(data, offset, Digits(|item.text|)) && Holds(data, offset + 4, item.text)
            && Holds(data, offset + 4 + |item.text|, item.score)
    ensures |PrintItem(item)| == 4 + |item.text| + |item.score|
  {
    hide Holds, Digits;
    HoldsBoth(data, offset, Digits(|item.text|), item.text + item.score);
    HoldsBoth(data, offset + 4, item.text, item.score);
  }

  lemma ReadItemStands(data: Bytes, offset: nat, scores: bool, item: Item, end: nat)
    requires end <= |data| && ReadItem(data, offset, scores) == Ok((item, end))
    ensures ValidItem(item, scores) && Holds(data, offset, PrintItem(item)) && end == offset + |PrintItem(item)|
  {
    hide Slice, Digits, PrintItem, ReadWord;
    var n := ReadWord(data, offset).value;
    SliceHolds(data, offset + 4, n);
    assert |item.text| == n && ReadWord(data, offset) == Ok(n);
    WordIff(data, offset, n);
    ItemParts(data, offset, item);
  }

  lemma ItemFrom(data: Bytes, offset: nat, scores: bool, item: Item, end: nat)
    requires ReadWord(data, offset) == Ok(|item.text|) && |item.text| < 4096
    requires Slice(data, offset + 4, |item.text|) == item.text &&
             end == offset + 4 + |item.text| + |item.score| <= |data|
    requires |item.score| == (if scores then 4 else 0) && (scores ==> data[end - 4..end] == item.score)
    ensures ReadItem(data, offset, scores) == Ok((item, end))
  {
    hide ReadWord, Slice;
  }

  lemma StandingItemReads(data: Bytes, offset: nat, scores: bool, item: Item, end: nat)
    requires ValidItem(item, scores) && Holds(data, offset, PrintItem(item)) && end == offset + |PrintItem(item)|
    ensures ReadItem(data, offset, scores) == Ok((item, end))
  {
    hide Slice, Digits, PrintItem, ReadWord, ReadItem, Holds;
    var n := |item.text|;
    HoldsInside(data, offset, PrintItem(item));
    ItemParts(data, offset, item);
    WordIff(data, offset, n);
    SliceHolds(data, offset + 4, n);
    ScoreHolds(data, offset + 4 + n, item.score);
    ItemFrom(data, offset, scores, item, end);
  }

  lemma HoldsInside(data: Bytes, offset: nat, bytes: Bytes)
    requires Holds(data, offset, bytes)
    ensures offset + |bytes| <= |data|
  {
  }

  lemma NothingHolds(data: Bytes, offset: nat)
    requires offset <= |data|
    ensures Holds(data, offset, [])
  {
    assert data[offset..offset] == [];
  }

  lemma ScoreHolds(data: Bytes, at: nat, score: Bytes)
    requires Holds(data, at, score)
    ensures at + |score| <= |data| && data[at..at + |score|] == score
  {
  }

  /** An entry that ends in the file is read exactly if it stands there. */
  lemma ItemIff(data: Bytes, offset: nat, scores: bool, item: Item, end: nat)
    requires end <= |data|
    ensures ReadItem(data, offset, scores) == Ok((item, end)) <==>
            ValidItem(item, scores) && Holds(data, offset, PrintItem(item)) && end == offset + |PrintItem(item)|
  {
    hide ReadItem, PrintItem, Holds;
    if ReadItem(data, offset, scores) == Ok((item, end)) { ReadItemStands(data, offset, scores, item, end); }
    if ValidItem(item, scores) && Holds(data, offset, PrintItem(item)) && end == offset + |PrintItem(item)| {
      StandingItemReads(data, offset, scores, item, end);
    }
  }

  lemma ItemsCons(items: seq<Item>, scores: bool)
    requires items != []
    ensures ValidItems(items, scores) <==> ValidItem(items[0], scores) && ValidItems(items[1..], scores)
    ensures items == [items[0]] + items[1..]
  {
    assert forall i :: 1 <= i < |items| ==> items[i] == items[1..][i - 1];
  }

  lemma ItemsGlue(data: Bytes, offset: nat, scores: bool, item: Item, rest: seq<Item>)
    requires ValidItem(item, scores) && ValidItems(rest, scores)
    requires Holds(data, offset, PrintItem(item)) && Holds(data, offset + |PrintItem(item)|, PrintItems(rest))
    ensures ValidItems([item] + rest, scores) && Holds(data, offset, PrintItems([item] + rest))
    ensures |PrintItems([item] + rest)| == |PrintItem(item)| + |PrintItems(rest)|
  {
    var items := [item] + rest;
    assert items[1..] == rest;
    ItemsCons(items, scores);
    hide Holds, PrintItem, ValidItem, ValidItems;
    HoldsBoth(data, offset, PrintItem(item), PrintItems(rest));
  }

  lemma ReadItemsCons(data: Bytes, offset: nat, scores: bool, items: seq<Item>, end: nat) returns (mid: nat)
    requires items != [] && ReadItems(data, offset, |items|, scores) == Ok((items, end))
    ensures ReadItem(data, offset, scores) == Ok((items[0], mid)) && mid <= end
    ensures |items[1..]| == |items| - 1 && ReadItems(data, mid, |items[1..]|, scores) == Ok((items[1..], end))
    ensures items == [items[0]] + items[1..]
  {
    hide ReadItem;
    mid := ReadItem(data, offset, scores).value.1;
  }

  lemma {:induction false} ReadItemsStand(data: Bytes, offset: nat, scores: bool, items: seq<Item>, end: nat)
    requires offset <= |data| && end <= |data| && ReadItems(data, offset, |items|, scores) == Ok((items, end))
    ensures ValidItems(items, scores) && Holds(data, offset, PrintItems(items)) && end == offset + |PrintItems(items)|
    decreases |items|
  {
    hide PrintItem, ReadItem, ReadItems, ValidItem, Holds, PrintItems;
    if items == [] {
      NoItemsRead(data, offset, scores);
      NothingHolds(data, offset);
    } else {
      var mid := ReadItemsCons(data, offset, scores, items, end);
      ItemIff(data, offset, scores, items[0], mid);
      ReadItemsStand(data, mid, scores, items[1..], end);
      ItemsGlue(data, offset, scores, items[0], items[1..]);
    }
  }

  lemma ReadGlue(data: Bytes, offset: nat, scores: bool, item: Item, mid: nat, rest: seq<Item>, end: nat)
    requires ReadItem(data, offset, scores) == Ok((item, mid)) &&
             ReadItems(data, mid, |rest|, scores) == Ok((rest, end))
    ensures ReadItems(data, offset, |rest| + 1, scores) == Ok(([item] + rest, end))
  {
    hide ReadItem;
  }

  lemma ItemsSplit(data: Bytes, offset: nat, scores: bool, items: seq<Item>)
    requires items != [] && ValidItems(items, scores) && Holds(data, offset, PrintItems(items))
    ensures ValidItem(items[0], scores) && ValidItems(items[1..], scores)
    ensures Holds(data, offset, PrintItem(items[0])) &&
            Holds(data, offset + |PrintItem(items[0])|, PrintItems(items[1..]))
    ensures |PrintItems(items)| == |PrintItem(items[0])| + |PrintItems(items[1..])|
    ensures offset + |PrintItem(items[0])| <= |data| && |items[1..]| + 1 == |items|
  {
    hide PrintItem, Holds;
    ItemsCons(items, scores);
    HoldsBoth(data, offset, PrintItem(items[0]), PrintItems(items[1..]));
    HoldsInside(data, offset, PrintItem(items[0]));
  }

  lemma NoItemsRead(data: Bytes, offset: nat, scores: bool)
    ensures PrintItems([]) == [] && ReadItems(data, offset, 0, scores) == Ok(([], offset))
  {
  }

  lemma {:induction false} StandingItemsRead(data: Bytes, offset: nat, scores: bool, items: seq<Item>, end: nat)
    requires offset <= |data| && ValidItems(items, scores) && Holds(data, offset, PrintItems(items))
    requires end == offset + |PrintItems(items)|
    ensures ReadItems(data, offset, |items|, scores) == Ok((items, end))
    decreases |items|
  {
    hide PrintItem, PrintItems, ReadItem, ReadItems, Holds, Digits;
    if items == [] {
      NoItemsRead(data, offset, scores);
    } else {
      var item, rest := items[0], items[1..];
      assert items == [item] + rest;
      ItemsSplit(data, offset, scores, items);
      var mid := offset + |PrintItem(item)|;
      ItemIff(data, offset, scores, item, mid);
      StandingItemsRead(data, mid, scores, rest, end);
      ReadGlue(data, offset, scores, item, mid, rest, end);
    }
  }

  /** Entries that end in the file are read exactly if they stand there. */
  lemma ItemsIff(data: Bytes, offset: nat, scores: bool, items: seq<Item>, end: nat)
    requires offset <= |data| && end <= |data|
    ensures ReadItems(data, offset, |items|, scores) == Ok((items, end)) <==>
            ValidItems(items, scores) && Holds(data, offset, PrintItems(items)) && end == offset + |PrintItems(items)|
  {
    hide ReadItems, PrintItems;
    if ReadItems(data, offset, |items|, scores) == Ok((items, end)) {
      ReadItemsStand(data, offset, scores, items, end);
    }
    if ValidItems(items, scores) && Holds(data, offset, PrintItems(items)) {
      StandingItemsRead(data, offset, scores, items, offset + |PrintItems(items)|);
    }
  }

  // ---------------------------------------------------------------- tensors

  /** A tensor in a file; `pad` are the bytes skipped for alignment. */
  datatype Stored = Stored(name: Bytes, dims: seq<nat>, dtype: nat, pad: Bytes, payload: Bytes)

  /** Where the data of a record at `offset` starts. */
  function DataStart(t: Stored, offset: nat, padding: bool): nat {
    var end := offset + 12 + 4 * |t.dims| + |t.name|;
    if padding then AlignUp(end) else end
  }

  /** The numbers of a record fit their fields. */
  predicate Printable(t: Stored) {
    |t.dims| <= 4 && |t.name| < 4096 && t.dtype < TWO32 && forall i :: 0 <= i < |t.dims| ==> t.dims[i] < TWO32
  }

  predicate ValidStored(t: Stored, offset: nat, padding: bool) {
    && Printable(t) && QuantSizes(t.dtype).Some?
    && ByteLength(t.dims, t.dtype) == |t.payload| && DataStart(t, offset, padding) + |t.payload| < TWO63
    && offset + 12 + 4 * |t.dims| + |t.name| + |t.pad| == DataStart(t, offset, padding)
  }

  function HeadWords(t: Stored): (r: seq<nat>)
    ensures |r| == 3
  {
    [|t.dims|, |t.name|, t.dtype]
  }

  function PrintTensor(t: Stored): Bytes
    requires Printable(t)
  {
    PrintWords(HeadWords(t)) + (PrintWords(t.dims) + (t.name + (t.pad + t.payload)))
  }

  /** What the loader notes for a record at `offset`. */
  function InfoOf(t: Stored, offset: nat, padding: bool): TensorInfo {
    TensorInfo(t.name, t.dims, t.dtype, DataStart(t, offset, padding), |t.payload|)
  }

  /** Where the record ends. */
  function EndOf(t: Stored, offset: nat, padding: bool): (r: nat)
    ensures r >= offset + 12
  {
    DataStart(t, offset, padding) + |t.payload|
  }

  lemma WrapInside(x: nat)
    requires x < TWO63
    ensures Wrap64(x) == x
  {
  }

  lemma PrintedSize(t: Stored, offset: nat, padding: bool)
    requires ValidStored(t, offset, padding)
    ensures Printable(t) &&
            offset + |PrintTensor(t)| == EndOf(t, offset, padding) == InfoOf(t, offset, padding).End() < TWO63
  {
    hide QuantSizes, ByteLength, PrintWords, Wrap64;
    WrapInside(EndOf(t, offset, padding));
  }

  lemma TensorParts(data: Bytes, offset: nat, t: Stored)
    requires Printable(t)
    ensures var o := offset + 12 + 4 * |t.dims|;
            Holds(data, offset, PrintTensor(t)) <==>
            && Holds(data, offset, PrintWords(HeadWords(t))) && Holds(data, offset + 12, PrintWords(t.dims))
            && Holds(data, o, t.name) && Holds(data, o + |t.name|, t.pad) &&
               Holds(data, o + |t.name| + |t.pad|, t.payload)
  {
    hide Holds, PrintWords;
    var o := offset + 12 + 4 * |t.dims|;
    HoldsBoth(data, offset, PrintWords(HeadWords(t)), PrintWords(t.dims) + (t.name + (t.pad + t.payload)));
    HoldsBoth(data, offset + 12, PrintWords(t.dims), t.name + (t.pad + t.payload));
    HoldsBoth(data, o, t.name, t.pad + t.payload);
    HoldsBoth(data, o + |t.name|, t.pad, t.payload);
  }

  lemma HeadFrom(data: Bytes, offset: nat, w: seq<nat>, dims: seq<nat>)
    requires |w| == 3 && ReadWords(data, offset, 3) == Ok(w) && w[0] <= 4 && w[1] < 4096 && QuantSizes(w[2]).Some?
    requires ReadWords(data, offset + 12, w[0]) == Ok(dims)
    ensures ReadTensorHead(data, offset) == Ok((dims, w[1], w[2]))
  {
    hide ReadWords, QuantSizes;
  }

  lemma HeadRead(data: Bytes, offset: nat, w: seq<nat>, dims: seq<nat>)
    requires |w| == 3 && w[0] == |dims| <= 4 && w[1] < 4096 && w[2] < TWO32 && QuantSizes(w[2]).Some?
    requires offset + 12 <= |data| && (forall i :: 0 <= i < |dims| ==> dims[i] < TWO32)
    requires (forall i :: 0 <= i < 3 ==> w[i] < TWO32)
    requires Holds(data, offset, PrintWords(w)) && Holds(data, offset + 12, PrintWords(dims))
    ensures ReadTensorHead(data, offset) == Ok((dims, w[1], w[2]))
  {
    hide QuantSizes, PrintWords, Holds, ReadWords, ReadTensorHead;
    WordsIff(data, offset, w);
    WordsIff(data, offset + 12, dims);
    HeadFrom(data, offset, w, dims);
  }

  lemma HeadStands(data: Bytes, offset: nat)
    requires offset <= |data| && ReadTensorHead(data, offset).Ok?
    ensures var (dims, nameLen, dtype) := ReadTensorHead(data, offset).value;
            && offset + 12 <= |data| && |dims| <= 4 && nameLen < 4096 && dtype < TWO32
            && (forall i :: 0 <= i < |dims| ==> dims[i] < TWO32)
            && Holds(data, offset, PrintWords([|dims|, nameLen, dtype])) && Holds(data, offset + 12, PrintWords(dims))
  {
    hide QuantSizes, PrintWords, Holds;
    var (dims, nameLen, dtype) := ReadTensorHead(data, offset).value;
    var w := ReadWords(data, offset, 3).value;
    assert w == [|dims|, nameLen, dtype];
    hide ReadWords;
    WordsIff(data, offset, w);
    WordsIff(data, offset + 12, dims);
  }

  lemma StandingPieces(data: Bytes, offset: nat, t: Stored)
    requires Printable(t) && QuantSizes(t.dtype).Some? && Holds(data, offset, PrintTensor(t))
    ensures var o := offset + 12 + 4 * |t.dims|;
            && ReadTensorHead(data, offset) == Ok((t.dims, |t.name|, t.dtype)) && Slice(data, o, |t.name|) == t.name
            && Holds(data, o + |t.name| + |t.pad|, t.payload)
  {
    var o := offset + 12 + 4 * |t.dims|;
    assert offset + |PrintTensor(t)| <= |data|;
    assert offset + |PrintTensor(t)| == o + |t.name| + |t.pad| + |t.payload|;
    hide QuantSizes, PrintTensor, PrintWords, ReadTensorHead, Holds, Slice;
    TensorParts(data, offset, t);
    HeadRead(data, offset, HeadWords(t), t.dims);
    SliceHolds(data, o, |t.name|);
  }

  lemma StandingParts(data: Bytes, offset: nat, padding: bool, t: Stored)
    requires offset <= |data| && ValidStored(t, offset, padding) && Holds(data, offset, PrintTensor(t))
    ensures ReadTensorHead(data, offset) == Ok((t.dims, |t.name|, t.dtype))
    ensures Slice(data, offset + 12 + 4 * |t.dims|, |t.name|) == t.name
    ensures Holds(data, InfoOf(t, offset, padding).start, t.payload)
  {
    hide ByteLength, PrintTensor, ReadTensorHead, Holds, AlignUp, Slice;
    StandingPieces(data, offset, t);
  }

  /** A printed record is read as what it says. */
  lemma StandingTensorReads(data: Bytes, offset: nat, padding: bool, t: Stored)
    requires offset <= |data| && ValidStored(t, offset, padding) && Holds(data, offset, PrintTensor(t))
    ensures ReadTensor(data, offset, padding) == Ok(InfoOf(t, offset, padding))
    ensures Holds(data, InfoOf(t, offset, padding).start, t.payload)
  {
    hide QuantSizes, ByteLength, PrintTensor, ReadTensorHead, Holds, AlignUp, Slice;
    StandingParts(data, offset, padding, t);
  }

  lemma ReadParts(data: Bytes, offset: nat, padding: bool, info: TensorInfo)
    requires ReadTensor(data, offset, padding) == Ok(info)
    ensures ReadTensorHead(data, offset).Ok?
    ensures var (dims, nameLen, dtype) := ReadTensorHead(data, offset).value;
            var o := offset + 12 + 4 * |dims|;
            && info.dims == dims && info.dtype == dtype && info.name == Slice(data, o, nameLen)
            && info.start == (if padding then AlignUp(o + nameLen) else o + nameLen)
            && info.len == ByteLength(dims, dtype)
  {
    hide ByteLength, ReadTensorHead, AlignUp, Slice;
  }

  /** The record at `offset` that was read as `info`. */
  function StoredAt(data: Bytes, offset: nat, info: TensorInfo): Stored
    requires offset + 12 + 4 * |info.dims| + |info.name| <= info.start <= info.start + info.len <= |data|
  {
    Stored(info.name, info.dims, info.dtype,
           data[offset + 12 + 4 * |info.dims| + |info.name|..info.start], data[info.start..info.start + info.len])
  }

  lemma NameComplete(data: Bytes, offset: nat, padding: bool, info: TensorInfo)
    requires offset <= |data| < TWO63 && ReadTensor(data, offset, padding) == Ok(info) && info.len >= 0 &&
             info.start + info.len <= |data|
    ensures ReadTensorHead(data, offset) == Ok((info.dims, |info.name|, info.dtype))
    ensures Holds(data, offset + 12 + 4 * |info.dims|, info.name)
    ensures var end := offset + 12 + 4 * |info.dims| + |info.name|;
            end <= info.start == if padding then AlignUp(end) else end
    ensures ByteLength(info.dims, info.dtype) == info.len
  {
    hide ReadTensor, ByteLength, ReadTensorHead, AlignUp, Slice, Holds, QuantSizes;
    ReadParts(data, offset, padding, info);
    SliceHolds(data, offset + 12 + 4 * |info.dims|, ReadTensorHead(data, offset).value.1);
  }

  lemma StoredValid(data: Bytes, offset: nat, padding: bool, info: TensorInfo)
    requires offset + 12 + 4 * |info.dims| + |info.name| <= info.start <= info.start + info.len <= |data|
    requires |info.dims| <= 4 && (forall i :: 0 <= i < |info.dims| ==> info.dims[i] < TWO32)
    requires |info.name| < 4096 && info.dtype < TWO32 && QuantSizes(info.dtype).Some?
    requires var end := offset + 12 + 4 * |info.dims| + |info.name|; info.start == if padding then AlignUp(end) else end
    requires ByteLength(info.dims, info.dtype) == info.len && |data| < TWO63
    ensures Printable(StoredAt(data, offset, info))
    ensures ValidStored(StoredAt(data, offset, info), offset, padding) &&
            info == InfoOf(StoredAt(data, offset, info), offset, padding)
  {
    hide ByteLength, AlignUp, QuantSizes;
  }

  /** The bytes cut out of the file for the padding and the data stand where they were. */
  lemma StoredPieces(data: Bytes, offset: nat, info: TensorInfo)
    requires offset + 12 + 4 * |info.dims| + |info.name| <= info.start <= info.start + info.len <= |data|
    ensures var t := StoredAt(data, offset, info);
            && t.name == info.name && t.dims == info.dims && HeadWords(t) == [|info.dims|, |info.name|, info.dtype]
            && offset + 12 + 4 * |info.dims| + |info.name| + |t.pad| == info.start
            && Holds(data, offset + 12 + 4 * |info.dims| + |info.name|, t.pad) && Holds(data, info.start, t.payload)
  {
  }

  /** A record that ends in the file stands there as printed. */
  lemma ReadTensorStands(data: Bytes, offset: nat, padding: bool, info: TensorInfo)
    requires offset <= |data| < TWO63 && ReadTensor(data, offset, padding) == Ok(info) && info.len >= 0 &&
             info.start + info.len <= |data|
    ensures offset + 12 + 4 * |info.dims| + |info.name| <= info.start
    ensures var t := StoredAt(data, offset, info);
            ValidStored(t, offset, padding) && Holds(data, offset, PrintTensor(t)) && info == InfoOf(t, offset, padding)
  {
    hide ReadTensor, ByteLength, QuantSizes, ReadTensorHead, AlignUp, Slice, Holds, PrintTensor, PrintWords, StoredAt,
        HeadWords, Printable, ValidStored, InfoOf, DataStart;
    NameComplete(data, offset, padding, info);
    HeadStands(data, offset);
    StoredValid(data, offset, padding, info);
    StoredPieces(data, offset, info);
    TensorParts(data, offset, StoredAt(data, offset, info));
  }

  // ---------------------------------------------------------------- all tensors

  /** Records back to back, each valid at its place. */
  predicate ValidAll(ts: seq<Stored>, offset: nat, padding: bool) {
    ts == [] || (ValidStored(ts[0], offset, padding) && ValidAll(ts[1..], EndOf(ts[0], offset, padding), padding))
  }

  function PrintAll(ts: seq<Stored>): Bytes
    requires forall i :: 0 <= i < |ts| ==> Printable(ts[i])
  {
    if ts == [] then []
    else
      assert Printable(ts[0]);
      PrintTensor(ts[0]) + PrintAll(ts[1..])
  }

  function InfosOf(ts: seq<Stored>, offset: nat, padding: bool): (r: seq<TensorInfo>)
    ensures |r| == |ts|
  {
    if ts == [] then []
    else [InfoOf(ts[0], offset, padding)] + InfosOf(ts[1..], EndOf(ts[0], offset, padding), padding)
  }

  lemma {:induction false} AllPrintable(ts: seq<Stored>, offset: nat, padding: bool)
    requires ValidAll(ts, offset, padding)
    ensures forall i :: 0 <= i < |ts| ==> Printable(ts[i])
  {
    if ts != [] {
      AllPrintable(ts[1..], EndOf(ts[0], offset, padding), padding);
      assert forall i :: 1 <= i < |ts| ==> ts[i] == ts[1..][i - 1];
    }
  }

  lemma NoTensorsRead(data: Bytes, offset: nat, padding: bool, fuel: nat)
    ensures PrintAll([]) == [] && ReadTensors(data, |data|, padding, fuel) == Ok(([], |data|))
    ensures InfosOf([], offset, padding) == [] && PayloadsHold(data, [], [])
  {
  }

  lemma ValidSplit(ts: seq<Stored>, offset: nat, padding: bool)
    requires ts != [] && ValidAll(ts, offset, padding)
    ensures ValidStored(ts[0], offset, padding) && ValidAll(ts[1..], EndOf(ts[0], offset, padding), padding)
  {
    hide ValidStored;
  }

  lemma RestHolds(data: Bytes, offset: nat, a: Bytes, b: Bytes)
    requires offset <= |data| && data[offset..] == a + b
    ensures Holds(data, offset, a) && offset + |a| <= |data| && data[offset + |a|..] == b
  {
    assert (a + b)[..|a|] == a && (a + b)[|a|..] == b;
  }

  lemma PrintSplit(data: Bytes, offset: nat, ts: seq<Stored>)
    requires ts != [] && forall i :: 0 <= i < |ts| ==> Printable(ts[i])
    requires offset <= |data| && data[offset..] == PrintAll(ts)
    ensures var mid := offset + |PrintTensor(ts[0])|;
            Holds(data, offset, PrintTensor(ts[0])) && mid <= |data| && data[mid..] == PrintAll(ts[1..])
  {
    hide PrintTensor, Holds, Printable;
    RestHolds(data, offset, PrintTensor(ts[0]), PrintAll(ts[1..]));
  }

  lemma TensorsGlue(
    data: Bytes, offset: int, padding: bool, fuel: nat, first: TensorInfo, rest: seq<TensorInfo>, end: int)
    requires offset < |data| && ReadTensor(data, offset, padding) == Ok(first)
    requires fuel > 0 && ReadTensors(data, first.End(), padding, fuel - 1) == Ok((rest, end))
    ensures ReadTensors(data, offset, padding, fuel) == Ok(([first] + rest, end))
  {
    hide ReadTensor;
  }

  lemma InfosCons(ts: seq<Stored>, offset: nat, padding: bool)
    requires ts != []
    ensures var rest := InfosOf(ts[1..], EndOf(ts[0], offset, padding), padding);
            && InfosOf(ts, offset, padding) == [InfoOf(ts[0], offset, padding)] + rest
            && (forall i :: 1 <= i < |ts| ==> ts[i] == ts[1..][i - 1] && InfosOf(ts, offset, padding)[i] == rest[i - 1])
  {
    hide InfoOf, EndOf;
  }

  /** The data of every tensor stands where it is said to start. */
  predicate PayloadsHold(data: Bytes, infos: seq<TensorInfo>, ts: seq<Stored>) {
    |infos| == |ts| &&
    forall i :: 0 <= i < |ts| ==> infos[i].start >= 0 && Holds(data, infos[i].start, ts[i].payload)
  }

  lemma PayloadsCons(data: Bytes, info: TensorInfo, rest: seq<TensorInfo>, ts: seq<Stored>)
    requires ts != [] && info.start >= 0 && Holds(data, info.start, ts[0].payload) && PayloadsHold(data, rest, ts[1..])
    ensures PayloadsHold(data, [info] + rest, ts)
  {
    hide Holds;
    forall i | 1 <= i < |ts|
      ensures ([info] + rest)[i].start >= 0 && Holds(data, ([info] + rest)[i].start, ts[i].payload)
    {
      assert ts[i] == ts[1..][i - 1] && ([info] + rest)[i] == rest[i - 1];
    }
  }

  /** Records printed back to back up to the end of the file are read as what they say. */
  lemma {:induction false} StandingTensorsRead(data: Bytes, offset: nat, padding: bool, ts: seq<Stored>, fuel: nat)
    requires ValidAll(ts, offset, padding) && forall i :: 0 <= i < |ts| ==> Printable(ts[i])
    requires offset <= |data| <= offset + fuel && data[offset..] == PrintAll(ts)
    ensures ReadTensors(data, offset, padding, fuel) == Ok((InfosOf(ts, offset, padding), |data|))
    ensures PayloadsHold(data, InfosOf(ts, offset, padding), ts)
    decreases |ts|
  {
    hide ReadTensors, ReadTensor, PrintTensor, PrintAll, ValidStored, ValidAll, Holds, DataStart, EndOf, InfosOf,
        PayloadsHold,
         InfoOf;
    if ts == [] {
      NoTensorsRead(data, offset, padding, fuel);
      assert |data[offset..]| == 0;
    } else {
      var first, rest, mid := InfoOf(ts[0], offset, padding), ts[1..], EndOf(ts[0], offset, padding);
      ValidSplit(ts, offset, padding);
      PrintSplit(data, offset, ts);
      PrintedSize(ts[0], offset, padding);
      StandingTensorReads(data, offset, padding, ts[0]);
      StandingTensorsRead(data, mid, padding, rest, fuel - 1);
      TensorsGlue(data, offset, padding, fuel, first, InfosOf(rest, mid, padding), |data|);
      InfosCons(ts, offset, padding);
      InfoStart(ts[0], offset, padding);
      PayloadsCons(data, first, InfosOf(rest, mid, padding), ts);
    }
  }

  lemma InfoStart(t: Stored, offset: nat, padding: bool)
    ensures InfoOf(t, offset, padding).start >= 0
  {
  }

  // ---------------------------------------------------------------- reading ends with the file

  /** Every tensor's data lies behind its start, below 2^63. */
  predicate AllForward(ts: seq<TensorInfo>) {
    forall i :: 0 <= i < |ts| ==> ts[i].Forward()
  }

  lemma ForwardEnd(t: TensorInfo)
    requires t.start >= 0 && t.Forward()
    ensures t.End() == t.start + t.len
  {
    WrapInside(t.start + t.len);
  }

  /** The first tensor that is read, and the others. */
  lemma TensorsCons(data: Bytes, offset: int, padding: bool, fuel: nat)
    requires ReadTensors(data, offset, padding, fuel).Ok? && ReadTensors(data, offset, padding, fuel).value.0 != []
    ensures offset < |data| && fuel > 0 && ReadTensor(data, offset, padding).Ok?
    ensures var (ts, end) := ReadTensors(data, offset, padding, fuel).value;
            && ReadTensor(data, offset, padding) == Ok(ts[0])
            && ReadTensors(data, ts[0].End(), padding, fuel - 1) == Ok((ts[1..], end))
            && offset + 12 <= ts[0].start && (padding ==> ts[0].start % 32 == 0)
            && (AllForward(ts) ==> AllForward(ts[1..]) && ts[0].Forward())
  {
    hide ReadTensor;
  }

  lemma NoneLeft(data: Bytes, offset: int, padding: bool, fuel: nat)
    requires ReadTensors(data, offset, padding, fuel).Ok? && ReadTensors(data, offset, padding, fuel).value.0 == []
    ensures ReadTensors(data, offset, padding, fuel).value.1 == offset >= |data|
  {
  }

  lemma {:induction false} EndBeyond(data: Bytes, offset: nat, padding: bool, fuel: nat)
    requires ReadTensors(data, offset, padding, fuel).Ok? &&
             AllForward(ReadTensors(data, offset, padding, fuel).value.0)
    ensures ReadTensors(data, offset, padding, fuel).value.1 >= offset
    ensures ReadTensors(data, offset, padding, fuel).value.1 >= |data|
    decreases fuel
  {
    hide ReadTensor, ReadTensors, AllForward, Wrap64;
    var ts := ReadTensors(data, offset, padding, fuel).value.0;
    if ts == [] {
      NoneLeft(data, offset, padding, fuel);
    } else {
      TensorsCons(data, offset, padding, fuel);
      ForwardEnd(ts[0]);
      EndBeyond(data, ts[0].End(), padding, fuel - 1);
    }
  }

  lemma {:induction false} ReadTensorsStand(data: Bytes, offset: nat, padding: bool, fuel: nat)
    returns (ts: seq<Stored>)
    requires offset <= |data| < TWO63 && ReadTensors(data, offset, padding, fuel).Ok?
    requires ReadTensors(data, offset, padding, fuel).value.1 == |data|
    requires AllForward(ReadTensors(data, offset, padding, fuel).value.0)
    ensures ValidAll(ts, offset, padding) && forall i :: 0 <= i < |ts| ==> Printable(ts[i])
    ensures Holds(data, offset, PrintAll(ts)) && offset + |PrintAll(ts)| == |data|
    ensures InfosOf(ts, offset, padding) == ReadTensors(data, offset, padding, fuel).value.0
    decreases fuel
  {
    hide ReadTensors, ReadTensor, PrintTensor, PrintAll, ValidStored, ValidAll, Holds, InfoOf, InfosOf, StoredAt,
        EndOf, AllForward, Wrap64;
    var infos := ReadTensors(data, offset, padding, fuel).value.0;
    if infos == [] {
      NoneLeft(data, offset, padding, fuel);
      ts := [];
      NothingStands(data, padding);
    } else {
      TensorsCons(data, offset, padding, fuel);
      var info := infos[0];
      ForwardEnd(info);
      EndBeyond(data, info.End(), padding, fuel - 1);
      ReadTensorStands(data, offset, padding, info);
      var rest := ReadTensorsStand(data, info.End(), padding, fuel - 1);
      var t := StoredAt(data, offset, info);
      ts := [t] + rest;
      PrintedSize(t, offset, padding);
      StandGlue(data, offset, padding, t, rest);
      InfosCons(ts, offset, padding);
      assert ts[1..] == rest;
      assert infos == [info] + infos[1..];
    }
  }

  lemma NothingStands(data: Bytes, padding: bool)
    ensures ValidAll([], |data|, padding) && InfosOf([], |data|, padding) == []
    ensures PrintAll([]) == [] && Holds(data, |data|, PrintAll([]))
  {
  }

  lemma StandGlue(data: Bytes, offset: nat, padding: bool, t: Stored, rest: seq<Stored>)
    requires ValidStored(t, offset, padding) && Holds(data, offset, PrintTensor(t))
    requires var mid := EndOf(t, offset, padding);
             && ValidAll(rest, mid, padding) && (forall i :: 0 <= i < |rest| ==> Printable(rest[i]))
             && Holds(data, mid, PrintAll(rest)) && mid + |PrintAll(rest)| == |data|
    ensures ValidAll([t] + rest, offset, padding) && forall i :: 0 <= i < |[t] + rest| ==> Printable(([t] + rest)[i])
    ensures Holds(data, offset, PrintAll([t] + rest)) && offset + |PrintAll([t] + rest)| == |data|
  {
    hide PrintTensor, Holds, ValidStored, Printable, EndOf, InfoOf;
    PrintedSize(t, offset, padding);
    assert ([t] + rest)[1..] == rest;
    HoldsBoth(data, offset, PrintTensor(t), PrintAll(rest));
  }

  // ---------------------------------------------------------------- whole files

  datatype File = File(header: Header, params: Params, items: seq<Item>, tensors: seq<Stored>)

  predicate ValidFront(f: File) {
    && ValidHeader(f.header) && ValidParams(f.params) && Eligible(f.header, f.params.ftype)
    && |f.items| == f.params.nVocab && ValidItems(f.items, f.header.format != GGML)
  }

  function PrintFront(f: File): Bytes
    requires ValidFront(f)
  {
    PrintHeader(f.header) + (PrintWords(ParamWords(f.params)) + PrintItems(f.items))
  }

  predicate ValidFile(f: File) {
    ValidFront(f) && ValidAll(f.tensors, |PrintFront(f)|, f.header.format == GGJT)
  }

  function PrintFile(f: File): Bytes
    requires ValidFile(f)
  {
    AllPrintable(f.tensors, |PrintFront(f)|, f.header.format == GGJT);
    PrintFront(f) + PrintAll(f.tensors)
  }

  /** What the loader should make of a file. */
  function ModelOf(f: File): Result<Model, LoadError>
    requires ValidFile(f)
  {
    var infos := InfosOf(f.tensors, |PrintFront(f)|, f.header.format == GGJT);
    var ff := FeedForwardSize(infos);
    if ff.Err? then Err(ff.error)
    else Ok(Model(f.header, f.params, ff.value, f.items, infos, |PrintFile(f)|))
  }

  lemma FrontHolds(data: Bytes, f: File)
    requires ValidFront(f)
    ensures var h, p := f.header.Size(), f.header.Size() + 28;
            Holds(data, 0, PrintFront(f)) <==>
            && Holds(data, 0, PrintHeader(f.header)) && Holds(data, h, PrintWords(ParamWords(f.params)))
            && Holds(data, p, PrintItems(f.items))
    ensures |PrintFront(f)| == f.header.Size() + 28 + |PrintItems(f.items)|
  {
    hide PrintHeader, PrintWords, PrintItems, Holds;
    HoldsBoth(data, 0, PrintHeader(f.header), PrintWords(ParamWords(f.params)) + PrintItems(f.items));
    HoldsBoth(data, f.header.Size(), PrintWords(ParamWords(f.params)), PrintItems(f.items));
  }

  lemma FrontReads(data: Bytes, f: File)
    requires ValidFront(f) && Holds(data, 0, PrintFront(f))
    ensures ReadHeader(data, 0) == Ok(f.header)
    ensures ReadParams(data, f.header.Size()) == Ok(f.params)
    ensures ReadItems(data, f.header.Size() + 28, f.params.nVocab, f.header.format != GGML) ==
            Ok((f.items, |PrintFront(f)|))
  {
    FrontHolds(data, f);
    assert |PrintFront(f)| <= |data|;
    hide PrintHeader, PrintWords, PrintItems, Holds, ReadHeader, ReadParams, ReadItems, PrintFront;
    HeaderIff(data, 0, f.header);
    ParamsIff(data, f.header.Size(), f.params);
    ItemsIff(data, f.header.Size() + 28, f.header.format != GGML, f.items, |PrintFront(f)|);
  }

  lemma ModelReads(
    data: Bytes, fuel: nat, h: Header, p: Params, items: seq<Item>, mid: nat, infos: seq<TensorInfo>, end: int)
    requires ReadHeader(data, 0) == Ok(h) && ReadParams(data, h.Size()) == Ok(p) && Eligible(h, p.ftype)
    requires ReadItems(data, h.Size() + 28, p.nVocab, h.format != GGML) == Ok((items, mid))
    requires ReadTensors(data, mid, h.format == GGJT, fuel) == Ok((infos, end))
    ensures var ff := FeedForwardSize(infos);
            ReadModel(data, 0, fuel) == if ff.Err? then Err(ff.error) else Ok(Model(h, p, ff.value, items, infos, end))
  {
    hide ReadHeader, ReadParams, ReadItems, ReadTensors, FeedForwardSize, Eligible;
  }

  /** The parts of a printed file are read where they were put. */
  lemma PartsRead(f: File, data: Bytes, fuel: nat, mid: nat, padding: bool, infos: seq<TensorInfo>)
    requires ValidFile(f) && data == PrintFile(f) && mid == |PrintFront(f)| && padding == (f.header.format == GGJT)
    requires infos == InfosOf(f.tensors, mid, padding) && fuel >= |data|
    ensures ReadHeader(data, 0) == Ok(f.header) && ReadParams(data, f.header.Size()) == Ok(f.params)
    ensures ReadItems(data, f.header.Size() + 28, f.params.nVocab, f.header.format != GGML) == Ok((f.items, mid))
    ensures ReadTensors(data, mid, padding, fuel) == Ok((infos, |data|))
    ensures PayloadsHold(data, infos, f.tensors)
  {
    hide ValidFront, PrintFront, PrintAll, ValidAll, Holds, Printable, PayloadsHold, InfosOf, ReadHeader, ReadParams,
        ReadItems, ReadTensors,
         ValidHeader, ValidParams, ValidItems, Eligible;
    AllPrintable(f.tensors, mid, padding);
    assert data[0..] == data;
    RestHolds(data, 0, PrintFront(f), PrintAll(f.tensors));
    FrontReads(data, f);
    StandingTensorsRead(data, mid, padding, f.tensors, fuel);
  }

  /** Loading a printed file ends, and gives back every record. */
  lemma PrintedFileLoads(f: File, fuel: nat)
    requires ValidFile(f) && fuel >= |PrintFile(f)|
    ensures ReadModel(PrintFile(f), 0, fuel) == ModelOf(f)
  {
    var data, mid, padding := PrintFile(f), |PrintFront(f)|, f.header.format == GGJT;
    var infos := InfosOf(f.tensors, mid, padding);
    hide PrintFront, InfosOf, FeedForwardSize, ReadModel, ReadHeader, ReadParams, ReadItems, ReadTensors, PrintFile,
        ValidAll, Holds,
         Eligible, ValidItems, ValidParams, ValidHeader;
    PartsRead(f, data, fuel, mid, padding, infos);
    ModelReads(data, fuel, f.header, f.params, f.items, mid, infos, |data|);
  }

  /** The loader finds the data of every tensor of a printed file. */
  lemma PayloadsFound(f: File, i: nat)
    requires ValidFile(f) && i < |f.tensors|
    ensures var info := InfosOf(f.tensors, |PrintFront(f)|, f.header.format == GGJT)[i];
            && 0 <= info.start <= info.start + info.len <= |PrintFile(f)|
            && PrintFile(f)[info.start..info.start + info.len] == f.tensors[i].payload
  {
    hide InfosOf, PrintFront, PrintFile, ValidAll, ValidFront, PayloadsHold, Holds;
    var data, mid, padding := PrintFile(f), |PrintFront(f)|, f.header.format == GGJT;
    var infos := InfosOf(f.tensors, mid, padding);
    PartsRead(f, data, |data|, mid, padding, infos);
    PayloadAt(data, infos, f.tensors, i);
    InfoLength(f.tensors, mid, padding, i);
    HoldsAt(data, infos[i], f.tensors[i].payload);
  }

  lemma PayloadAt(data: Bytes, infos: seq<TensorInfo>, ts: seq<Stored>, i: nat)
    requires PayloadsHold(data, infos, ts) && i < |ts|
    ensures |infos| == |ts| && infos[i].start >= 0 && Holds(data, infos[i].start, ts[i].payload)
  {
  }

  lemma HoldsAt(data: Bytes, info: TensorInfo, bytes: Bytes)
    requires info.start >= 0 && Holds(data, info.start, bytes) && info.len == |bytes|
    ensures info.start + info.len <= |data| && data[info.start..info.start + info.len] == bytes
  {
  }

  lemma {:induction false} InfoLength(ts: seq<Stored>, offset: nat, padding: bool, i: nat)
    requires i < |ts|
    ensures InfosOf(ts, offset, padding)[i].len == |ts[i].payload|
    decreases i
  {
    if i > 0 { InfoLength(ts[1..], EndOf(ts[0], offset, padding), padding, i - 1); }
  }

  lemma ReadFront(data: Bytes, h: Header, p: Params, items: seq<Item>, end: nat)
    requires ReadHeader(data, 0) == Ok(h) && ReadParams(data, h.Size()) == Ok(p) && Eligible(h, p.ftype) &&
             end <= |data|
    requires ReadItems(data, h.Size() + 28, p.nVocab, h.format != GGML) == Ok((items, end))
    ensures var f := File(h, p, items, []);
            ValidFront(f) && Holds(data, 0, PrintFront(f)) && end == |PrintFront(f)|
  {
    var f := File(h, p, items, []);
    hide PrintHeader, PrintWords, PrintItems, Holds, ReadHeader, ReadParams, ReadItems, PrintFront, Eligible;
    HeaderIff(data, 0, h);
    assert h.Size() <= |data|;
    ParamsIff(data, h.Size(), p);
    assert |items| == p.nVocab && h.Size() + 28 <= end;
    ItemsIff(data, h.Size() + 28, h.format != GGML, items, end);
    FrontHolds(data, f);
  }

  /** Loads without running past the end of the file and without stepping back in it. */
  predicate LoadsInOrder(data: Bytes, fuel: nat) {
    var m := ReadModel(data, 0, fuel);
    m.Ok? && m.value.end == |data| && AllForward(m.value.tensors)
  }

  /** What the loader has read when it accepts. */
  lemma ModelParts(data: Bytes, fuel: nat) returns (mid: nat)
    requires ReadModel(data, 0, fuel).Ok?
    ensures var m := ReadModel(data, 0, fuel).value;
            && ReadHeader(data, 0) == Ok(m.header) && ReadParams(data, m.header.Size()) == Ok(m.params)
            && Eligible(m.header, m.params.ftype)
            && ReadItems(data, m.header.Size() + 28, m.params.nVocab, m.header.format != GGML) == Ok((m.items, mid))
            && ReadTensors(data, mid, m.header.format == GGJT, fuel) == Ok((m.tensors, m.end))
            && FeedForwardSize(m.tensors) == Ok(m.nFf)
  {
    hide ReadHeader, ReadParams, ReadItems, ReadTensors, FeedForwardSize, Eligible;
    var m := ReadModel(data, 0, fuel).value;
    mid := ReadItems(data, m.header.Size() + 28, m.params.nVocab, m.header.format != GGML).value.1;
  }

  /** A file that is accepted and ends with its last tensor is a printed file, if no tensor steps back. */
  lemma LoadedFileIsPrinted(data: Bytes, fuel: nat) returns (f: File)
    requires |data| < TWO63 && LoadsInOrder(data, fuel)
    ensures ValidFile(f) && PrintFile(f) == data &&
            AllForward(InfosOf(f.tensors, |PrintFront(f)|, f.header.format == GGJT))
  {
    hide ReadHeader, ReadParams, ReadItems, ReadTensors, ReadModel, FeedForwardSize, Eligible, PrintFront, PrintAll,
        ValidFront,
         ValidAll, Holds, Printable, InfosOf, AllForward;
    var m := ReadModel(data, 0, fuel).value;
    var padding := m.header.format == GGJT;
    var mid := ModelParts(data, fuel);
    EndBeyond(data, mid, padding, fuel);
    ReadFront(data, m.header, m.params, m.items, mid);
    var ts := ReadTensorsStand(data, mid, padding, fuel);
    f := File(m.header, m.params, m.items, ts);
    SameFront(f, ts);
    HoldsBoth(data, 0, PrintFront(f), PrintAll(ts));
    WholeHolds(data, PrintFront(f) + PrintAll(ts));
  }

  lemma SameFront(f: File, ts: seq<Stored>)
    requires f.tensors == ts
    ensures ValidFront(f) == ValidFront(f.(tensors := [])) &&
            (ValidFront(f) ==> PrintFront(f) == PrintFront(f.(tensors := [])))
  {
  }

  lemma WholeHolds(data: Bytes, bytes: Bytes)
    requires Holds(data, 0, bytes) && |bytes| == |data|
    ensures data == bytes
  {
  }

  /** The files that load in order up to their end are exactly the printed ones that name a
      feed-forward tensor. */
  lemma ExactlyPrintedFiles(data: Bytes, fuel: nat)
    requires |data| < TWO63 && fuel >= |data|
    ensures LoadsInOrder(data, fuel) <==> exists f :: ValidFile(f) && PrintFile(f) == data && ModelOf(f).Ok?
  {
    hide ReadModel, ModelOf, ValidFile, PrintFile, AllForward, InfosOf;
    if LoadsInOrder(data, fuel) {
      var f := LoadedFileIsPrinted(data, fuel);
      PrintedFileLoads(f, fuel);
    }
    if f :| ValidFile(f) && PrintFile(f) == data && ModelOf(f).Ok? {
      PrintedFileLoads(f, fuel);
      ModelEnd(f);
    }
  }

  lemma ModelEnd(f: File)
    requires ValidFile(f) && ModelOf(f).Ok?
    ensures ModelOf(f).value.end == |PrintFile(f)| && AllForward(ModelOf(f).value.tensors)
  {
    hide PrintFront, PrintAll, InfosOf, AllForward, FeedForwardSize, ValidAll, ValidFront;
    PrintedForward(f.tensors, |PrintFront(f)|, f.header.format == GGJT);
  }

  lemma {:induction false} PrintedForward(ts: seq<Stored>, offset: nat, padding: bool)
    requires ValidAll(ts, offset, padding)
    ensures AllForward(InfosOf(ts, offset, padding))
  {
    if ts != [] {
      PrintedForward(ts[1..], EndOf(ts[0], offset, padding), padding);
      InfosCons(ts, offset, padding);
    }
  }

  // ---------------------------------------------------------------- the feed-forward size

  /** The bytes of a text. */
  function Ascii(s: string): (r: Bytes)
    requires forall i :: 0 <= i < |s| ==> s[i] < 128 as char
  {
    seq(|s|, i requires 0 <= i < |s| => s[i] as int)
  }

  const NAME := "layers.0.feed_forward.w1.weight"

  lemma NameBytes()
    ensures (forall i :: 0 <= i < |NAME| ==> NAME[i] < 128 as char) && FEED_FORWARD == Ascii(NAME)
  {
    assert |FEED_FORWARD| == |NAME|;
  }

  /** The last record with the name of the first layer's feed-forward tensor. */
  ghost predicate IsFeedForward(ts: seq<Stored>, i: nat) {
    && NamesFeedForward(ts, i)
    && forall k :: i < k < |ts| ==> !NamesFeedForward(ts, k)
  }

  ghost predicate NamesFeedForward(ts: seq<Stored>, i: nat) {
    (forall k :: 0 <= k < |NAME| ==> NAME[k] < 128 as char) && i < |ts| && ts[i].name == Ascii(NAME)
  }

  lemma {:induction false} InfoNames(ts: seq<Stored>, offset: nat, padding: bool, i: nat)
    requires i < |ts|
    ensures var info := InfosOf(ts, offset, padding)[i]; info.name == ts[i].name && info.dims == ts[i].dims
    decreases i
  {
    if i > 0 { InfoNames(ts[1..], EndOf(ts[0], offset, padding), padding, i - 1); }
  }

  lemma SizeFound(ts: seq<Stored>, offset: nat, padding: bool)
    ensures var r := FeedForwardSize(InfosOf(ts, offset, padding));
            && (forall i: nat :: IsFeedForward(ts, i) && |ts[i].dims| >= 2 ==> r == Ok(ts[i].dims[1]))
            && (r == Err(NoFeedForward) <==> forall i: nat :: IsFeedForward(ts, i) ==> |ts[i].dims| < 2)
  {
    hide InfosOf, Ascii;
    var infos := InfosOf(ts, offset, padding);
    NameBytes();
    forall i | 0 <= i < |ts| ensures infos[i].name == ts[i].name && infos[i].dims == ts[i].dims {
      InfoNames(ts, offset, padding, i);
    }
    assert forall k: nat :: NamesFeedForward(ts, k) <==> k < |infos| && infos[k].name == FEED_FORWARD;
    forall i: nat ensures FEED_FORWARD in IndexMap(infos) && IndexMap(infos)[FEED_FORWARD] == i <==>
        IsFeedForward(ts, i) {
      IndexIsLast(infos, FEED_FORWARD, i);
    }
    if FEED_FORWARD in IndexMap(infos) { assert IsFeedForward(ts, IndexMap(infos)[FEED_FORWARD]); }
  }

  /** The feed-forward size of a printed file is the second dimension of the last record with that name;
      without one, loading fails for that reason. */
  lemma FeedForwardLoaded(f: File, fuel: nat)
    requires ValidFile(f) && fuel >= |PrintFile(f)|
    ensures var r := ReadModel(PrintFile(f), 0, fuel);
            && (forall i: nat :: IsFeedForward(f.tensors, i) && |f.tensors[i].dims| >= 2 ==>
                  r.Ok? && r.value.nFf == f.tensors[i].dims[1])
            && (r == Err(NoFeedForward) <==>
                  forall i: nat :: IsFeedForward(f.tensors, i) ==> |f.tensors[i].dims| < 2)
            && (r.Ok? || r == Err(NoFeedForward))
  {
    hide ReadModel, IsFeedForward, FeedForwardSize, InfosOf, PrintFront, PrintFile, ValidFront, ValidAll;
    PrintedFileLoads(f, fuel);
    SizeFound(f.tensors, |PrintFront(f)|, f.header.format == GGJT);
    SizeOrNone(InfosOf(f.tensors, |PrintFront(f)|, f.header.format == GGJT));
  }

  lemma SizeOrNone(infos: seq<TensorInfo>)
    ensures FeedForwardSize(infos).Ok? || FeedForwardSize(infos) == Err(NoFeedForward)
  {
  }

  // ---------------------------------------------------------------- which kinds of files are taken

  /** The four letters at the start of a file. */
  lemma MagicLetters()
    ensures MAGIC_GGUF == Ascii("GGUF") && Magic(GGML) == Ascii("lmgg")
    ensures Magic(GGMF) == Ascii("fmgg") && Magic(GGJT) == Ascii("tjgg")
  {
  }

  /** Formats by age: GGML, GGMF, and the three versions of GGJT. */
  function Age(h: Header): nat { if h.format == GGML then 1 else if h.format == GGMF then 2 else h.version + 2 }

  /** The age since which a kind of data has been stored in its present form. */
  function Since(ftype: nat): nat {
    if ftype == ALL_F32 || ftype == MOSTLY_F16 then 1
    else if MOSTLY_Q4_0 <= ftype <= MOSTLY_Q4_1_SOME_F16 || ftype == MOSTLY_Q8_0 then 5
    else 4
  }

  /** A file is eligible exactly if its data has been stored in the same form ever since its format. */
  lemma EligibleIff(h: Header, ftype: nat)
    requires ValidHeader(h)
    ensures Eligible(h, ftype) <==> Since(ftype) <= Age(h)
  {
  }

  // ---------------------------------------------------------------- why a file is refused

  /** The errors that reading entries and tensors can end in. */
  predicate InRecords(e: LoadError) {
    e in {Truncated, AbsurdLength, BadDims, UnknownType, Unfinished}
  }

  lemma {:induction false} ItemErrors(data: Bytes, offset: nat, n: nat, scores: bool)
    ensures var r := ReadItems(data, offset, n, scores); r.Err? ==> InRecords(r.error)
    decreases n
  {
    hide ReadItem;
    if n > 0 {
      OneItemError(data, offset, scores);
      var first := ReadItem(data, offset, scores);
      if first.Ok? { ItemErrors(data, first.value.1, n - 1, scores); }
    }
  }

  lemma OneItemError(data: Bytes, offset: nat, scores: bool)
    ensures var r := ReadItem(data, offset, scores); r.Err? ==> InRecords(r.error)
  {
    hide ReadWord, Slice;
  }

  lemma {:induction false} TensorErrors(data: Bytes, offset: int, padding: bool, fuel: nat)
    ensures var r := ReadTensors(data, offset, padding, fuel); r.Err? ==> InRecords(r.error)
    decreases fuel
  {
    hide ReadTensor;
    if offset < |data| && fuel > 0 {
      OneTensorError(data, offset, padding);
      var first := ReadTensor(data, offset, padding);
      if first.Ok? { TensorErrors(data, first.value.End(), padding, fuel - 1); }
    }
  }

  lemma OneTensorError(data: Bytes, offset: int, padding: bool)
    ensures var r := ReadTensor(data, offset, padding); r.Err? ==> InRecords(r.error)
  {
    hide ReadWords, Slice, AlignUp, ByteLength, QuantSizes;
  }

  /** A header and parameters stand at the start. */
  ghost predicate Starts(data: Bytes, h: Header, p: Params) {
    && ValidHeader(h) && Holds(data, 0, PrintHeader(h))
    && ValidParams(p) && Holds(data, h.Size(), PrintWords(ParamWords(p)))
  }

  lemma GgufStands(data: Bytes)
    ensures Slice(data, 0, 4) == MAGIC_GGUF <==> Holds(data, 0, MAGIC_GGUF)
  {
    if |Slice(data, 0, 4)| == 4 { SliceFits(data, 0, 4); }
    if 4 <= |data| { SliceHolds(data, 0, 4); }
  }

  lemma HeaderErrors(data: Bytes)
    ensures var r := ReadHeader(data, 0);
            && (r == Err(AlreadyGguf) <==> Holds(data, 0, MAGIC_GGUF))
            && (r.Err? ==> r.error in {AlreadyGguf, Truncated, BadVersion, BadMagic})
  {
    hide Slice, ReadWord, Holds;
    GgufStands(data);
    DifferentMagic();
  }

  lemma FrontErrors(data: Bytes, fuel: nat)
    ensures var r, h := ReadModel(data, 0, fuel), ReadHeader(data, 0);
            && (h.Err? ==> r == Err(h.error))
            && (h.Ok? ==> var p := ReadParams(data, h.value.Size());
                  && (p.Err? ==> r == Err(p.error) && r.error in {Truncated, BadFtype})
                  && (p.Ok? && !Eligible(h.value, p.value.ftype) ==> r == Err(NotEligible))
                  && (p.Ok? && Eligible(h.value, p.value.ftype) && r.Err? ==>
                        InRecords(r.error) || r.error == NoFeedForward))
  {
    hide ReadHeader, ReadItems, ReadTensors, Eligible, FeedForwardSize, KnownFtype, ReadWords;
    var h := ReadHeader(data, 0);
    if h.Ok? {
      var p := ReadParams(data, h.value.Size());
      if p.Ok? {
        var scores := h.value.format != GGML;
        ItemErrors(data, h.value.Size() + 28, p.value.nVocab, scores);
        var items := ReadItems(data, h.value.Size() + 28, p.value.nVocab, scores);
        if items.Ok? {
          TensorErrors(data, items.value.1, h.value.format == GGJT, fuel);
          var tensors := ReadTensors(data, items.value.1, h.value.format == GGJT, fuel);
          if tensors.Ok? { SizeOrNone(tensors.value.0); }
        }
      }
    }
  }

  lemma HeaderSizeFits(data: Bytes, h: Header)
    requires ValidHeader(h) && Holds(data, 0, PrintHeader(h))
    ensures h.Size() <= |data|
  {
  }

  /** A file is refused as converted already exactly if it begins with `GGUF`, and as not eligible exactly if a
      header and parameters stand at its start whose kind of data was stored differently then. */
  lemma RefusedIff(data: Bytes, fuel: nat)
    ensures ReadModel(data, 0, fuel) == Err(AlreadyGguf) <==> Holds(data, 0, MAGIC_GGUF)
    ensures ReadModel(data, 0, fuel) == Err(NotEligible) <==>
            exists h, p :: Starts(data, h, p) && Age(h) < Since(p.ftype)
  {
    hide ReadModel, ReadHeader, ReadParams, Eligible, Holds, PrintHeader, PrintWords, ValidHeader, ValidParams, Age,
        Since, ParamWords, Header.Size;
    HeaderErrors(data);
    FrontErrors(data, fuel);
    forall h | ValidHeader(h) && Holds(data, 0, PrintHeader(h)) ensures ReadHeader(data, 0) == Ok(h) {
      HeaderIff(data, 0, h);
    }
    forall h, p | Starts(data, h, p)
      ensures ReadHeader(data, 0) == Ok(h) && ReadParams(data, h.Size()) == Ok(p)
              && (Eligible(h, p.ftype) <==> Since(p.ftype) <= Age(h))
    {
      HeaderIff(data, 0, h);
      HeaderSizeFits(data, h);
      ParamsIff(data, h.Size(), p);
      EligibleIff(h, p.ftype);
    }
    if ReadModel(data, 0, fuel) == Err(NotEligible) {
      var h := ReadHeader(data, 0).value;
      var p := ReadParams(data, h.Size()).value;
      HeaderIff(data, 0, h);
      HeaderSizeFits(data, h);
      ParamsIff(data, h.Size(), p);
      assert Starts(data, h, p);
    }
  }
}
