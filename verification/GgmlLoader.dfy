/**
  The loader objects of convert_llama_ggml_to_gguf.py. Each `Load` sets the fields of its object and
  returns the number of bytes it has read.
  */
module GgmlLoader {
  import opened Base
  import opened GgmlRecords

  /** Values read so far, with the outcome of reading the rest. */
  function Onto<T, O>(done: seq<T>, rest: Result<(seq<T>, O), LoadError>): Result<(seq<T>, O), LoadError> {
    if rest.Ok? then Ok((done + rest.value.0, rest.value.1)) else rest
  }

  lemma OntoNothing<T, O>(rest: Result<(seq<T>, O), LoadError>)
    ensures Onto([], rest) == rest
  {
    if rest.Ok? { assert [] + rest.value.0 == rest.value.0; }
  }

  lemma NoItems(data: Bytes, offset: nat, scores: bool, done: seq<Item>)
    ensures Onto(done, ReadItems(data, offset, 0, scores)) == Ok((done, offset))
  {
    assert done + [] == done;
  }

  lemma NoIndex()
    ensures IndexMap([]) == map[]
  {
  }

  lemma NoTensors(data: Bytes, offset: int, padding: bool, fuel: nat, done: seq<TensorInfo>)
    requires offset >= |data|
    ensures Onto(done, ReadTensors(data, offset, padding, fuel)) == Ok((done, offset))
  {
    assert done + [] == done;
  }

  lemma ItemsStep(data: Bytes, offset: nat, n: nat, scores: bool, done: seq<Item>)
    requires n > 0
    ensures var first := ReadItem(data, offset, scores);
            Onto(done, ReadItems(data, offset, n, scores)) ==
            if first.Ok? then Onto(done + [first.value.0], ReadItems(data, first.value.1, n - 1, scores))
                else Err(first.error)
  {
    hide ReadItem;
    var first := ReadItem(data, offset, scores);
    if first.Ok? && ReadItems(data, first.value.1, n - 1, scores).Ok? {
      var rest := ReadItems(data, first.value.1, n - 1, scores).value.0;
      assert done + ([first.value.0] + rest) == done + [first.value.0] + rest;
    }
  }

  lemma TensorsStep(data: Bytes, offset: int, padding: bool, fuel: nat, done: seq<TensorInfo>)
    requires offset < |data|
    ensures var first := ReadTensor(data, offset, padding);
            Onto(done, ReadTensors(data, offset, padding, fuel)) ==
            if fuel == 0 then Err(Unfinished)
            else if first.Ok? then Onto(done + [first.value], ReadTensors(data, first.value.End(), padding, fuel - 1))
            else Err(first.error)
  {
    hide ReadTensor;
    var first := ReadTensor(data, offset, padding);
    if fuel > 0 && first.Ok? && ReadTensors(data, first.value.End(), padding, fuel - 1).Ok? {
      var rest := ReadTensors(data, first.value.End(), padding, fuel - 1).value.0;
      assert done + ([first.value] + rest) == done + [first.value] + rest;
    }
  }

  /** Adding the returned difference leads to the end, if the end is a 64-bit number. */
  lemma WrappedDifference(offset: int, end: int)
    requires 0 - TWO63 <= end < TWO63
    ensures Wrap64(offset + Wrap64(end - offset)) == end
  {
    var x := end - offset + TWO63;
    var k := x / TWO64;
    assert Wrap64(end - offset) == end - offset - k * TWO64;
    WrapMultiple(end, 0 - k);
  }

  lemma WrapMultiple(x: int, k: int)
    ensures Wrap64(x + k * TWO64) == Wrap64(x)
  {
  }

  class Hyperparameters {
    var nVocab: nat
    var nEmbd: nat
    var nMult: nat
    var nHead: nat
    var nLayer: nat
    var nRot: nat
    var nFf: nat
    var ftype: nat

    constructor ()
      ensures nFf == 0
    {
      nVocab, nEmbd, nMult, nHead, nLayer, nRot, nFf, ftype := 0, 0, 0, 0, 0, 0, 0, ALL_F32;
    }

    function Contents(): Params
      reads this
    {
      Params(nVocab, nEmbd, nMult, nHead, nLayer, nRot, ftype)
    }

    method Load(data: Bytes, offset: nat) returns (r: Result<nat, LoadError>)
      modifies this
      ensures nFf == old(nFf)
      ensures r == if ReadParams(data, offset).Ok? then Ok(28) else Err(ReadParams(data, offset).error)
      ensures r.Ok? ==> Contents() == ReadParams(data, offset).value
    {
      var w := ReadWords(data, offset, 7);
      if w.Err? { return Err(Truncated); }
      nVocab, nEmbd, nMult, nHead, nLayer, nRot :=
        w.value[0], w.value[1], w.value[2], w.value[3], w.value[4], w.value[5];
      if !KnownFtype(w.value[6]) { return Err(BadFtype); }
      ftype := w.value[6];
      return Ok(28);
    }
  
    /** The feed-forward size is the second dimension of the first layer's tensor. */
    method SetNFf(model: GgmlModel) returns (r: Result<(), LoadError>)
      requires model.tensorMap == IndexMap(model.Infos())
      modifies this`nFf
      ensures var spec := FeedForwardSize(model.Infos());
              && r == (if spec.Ok? then Ok(()) else Err(spec.error))
              && (spec.Ok? ==> nFf == spec.value)
    {
      if FEED_FORWARD !in model.tensorMap { return Err(NoFeedForward); }
      var i := model.tensorMap[FEED_FORWARD];
      IndexIsLast(model.Infos(), FEED_FORWARD, i);
      var tensor := model.tensors[i];
      if |tensor.dims| < 2 { return Err(NoFeedForward); }
      nFf := tensor.dims[1];
      return Ok(());
    }
  }

  class Vocab {
    var items: seq<Item>
    const loadScores: bool

    constructor (loadScores: bool)
      ensures items == [] && this.loadScores == loadScores
    {
      items := [];
      this.loadScores := loadScores;
    }

    method Load(data: Bytes, offset: nat, nVocab: nat) returns (r: Result<nat, LoadError>)
      modifies this`items
      ensures var spec := ReadItems(data, offset, nVocab, loadScores);
              && r == (if spec.Ok? then Ok(spec.value.1 - offset) else Err(spec.error))
              && (r.Ok? ==> items == old(items) + spec.value.0)
    {
      hide ReadItems, Onto, ReadWord, Slice;
      var end := offset;
      ghost var done: seq<Item>, spec := [], ReadItems(data, offset, nVocab, loadScores);
      OntoNothing(spec);
      for i := 0 to nVocab
        invariant end >= offset && items == old(items) + done
        invariant Onto(done, ReadItems(data, end, nVocab - i, loadScores)) == spec
      {
        ItemsStep(data, end, nVocab - i, loadScores, done);
        ghost var first := ReadItem(data, end, loadScores);
        var len := ReadWord(data, end);
        if len.Err? { return Err(Truncated); }
        if len.value >= 4096 { return Err(AbsurdLength); }
        end := end + 4;
        var text := Slice(data, end, len.value);
        end := end + len.value;
        var score: Bytes := [];
        if loadScores {
          if end + 4 > |data| { return Err(Truncated); }
          score := data[end..end + 4];
          end := end + 4;
        }
        items := items + [Item(text, score)];
        done := done + [Item(text, score)];
        assert first == Ok((Item(text, score), end));
      }
      NoItems(data, end, loadScores, done);
      return Ok(end - offset);
    }
  }

  class Tensor {
    var name: Bytes
    var dims: seq<nat>
    var dtype: nat
    var startOffset: int
    var lenBytes: int
    const usePadding: bool

    constructor (usePadding: bool)
      ensures this.usePadding == usePadding
    {
      name, dims, dtype, startOffset, lenBytes := [], [], 0, 0, 0;
      this.usePadding := usePadding;
    }

    function Info(): TensorInfo
      reads this
    {
      TensorInfo(name, dims, dtype, startOffset, lenBytes)
    }

    /** All offsets are 64-bit numbers: the difference that is returned wraps around. */
    method Load(data: Bytes, offset: int) returns (r: Result<int, LoadError>)
      modifies this
      ensures var spec := ReadTensor(data, offset, usePadding);
              && r == (if spec.Ok? then Ok(Wrap64(spec.value.End() - offset)) else Err(spec.error))
              && (r.Ok? ==> Info() == spec.value)
    {
      hide QuantSizes, ByteLength, Slice, AlignUp, ReadWords, Wrap64;
      var end := offset;
      var w := ReadWords(data, end, 3);
      if w.Err? { return Err(Truncated); }
      var nDims, nameLen := w.value[0], w.value[1];
      if nDims > 4 { return Err(BadDims); }
      if nameLen >= 4096 { return Err(AbsurdLength); }
      if QuantSizes(w.value[2]).None? { return Err(UnknownType); }
      end := end + 12;
      dtype := w.value[2];
      var ds := ReadWords(data, end, nDims);
      if ds.Err? { return Err(Truncated); }
      dims := ds.value;
      end := end + 4 * nDims;
      name := Slice(data, end, nameLen);
      end := end + nameLen;
      var pad := if usePadding then AlignUp(end) - end else 0;
      end := end + pad;
      startOffset := end;
      lenBytes := ByteLength(dims, dtype);
      end := Wrap64(end + lenBytes);
      return Ok(Wrap64(end - offset));
    }
  }

  class GgmlModel {
    var fileFormat: Format
    var formatVersion: nat
    var hyperparameters: Hyperparameters?
    var vocab: Vocab?
    var tensors: seq<Tensor>
    var tensorMap: map<Bytes, nat>

    constructor ()
    {
      fileFormat, formatVersion := GGML, 0;
      hyperparameters, vocab, tensors, tensorMap := null, null, [], map[];
    }

    function Infos(): (r: seq<TensorInfo>)
      reads this, tensors
      ensures |r| == |tensors| && forall i :: 0 <= i < |r| ==> r[i] == tensors[i].Info()
    {
      var ts := tensors;
      seq(|ts|, i requires 0 <= i < |ts| reads ts => ts[i].Info())
    }

    lemma InfosAre(infos: seq<TensorInfo>)
      requires |infos| == |tensors| && forall i :: 0 <= i < |tensors| ==> tensors[i].Info() == infos[i]
      ensures Infos() == infos
    {
    }

    method ValidateHeader(data: Bytes, offset: nat) returns (r: Result<nat, LoadError>)
      modifies this`fileFormat, this`formatVersion
      ensures var spec := ReadHeader(data, offset);
              && r == (if spec.Ok? then Ok(spec.value.Size()) else Err(spec.error))
              && (r.Ok? ==> Header(fileFormat, formatVersion) == spec.value)
    {
      var magic := Slice(data, offset, 4);
      if magic == MAGIC_GGUF { return Err(AlreadyGguf); }
      if magic == MAGIC_GGML {
        fileFormat, formatVersion := GGML, 1;
        return Ok(4);
      }
      var version := ReadWord(data, offset + 4);
      if version.Err? { return Err(Truncated); }
      if magic == MAGIC_GGMF {
        if version.value != 1 { return Err(BadVersion); }
        fileFormat, formatVersion := GGMF, version.value;
        return Ok(8);
      }
      if magic == MAGIC_GGJT {
        if version.value < 1 || version.value > 3 { return Err(BadVersion); }
        fileFormat, formatVersion := GGJT, version.value;
        return Ok(8);
      }
      return Err(BadMagic);
    }

    method ValidateConversion(ftype: nat) returns (ok: bool)
      ensures ok == Eligible(Header(fileFormat, formatVersion), ftype)
    {
      ok := true;
      if fileFormat != GGJT || formatVersion < 2 {
        if ftype !in {ALL_F32, MOSTLY_F16} { ok := false; }
      } else if fileFormat == GGJT && formatVersion == 2 {
        if ftype in {MOSTLY_Q4_0, MOSTLY_Q4_1, MOSTLY_Q4_1_SOME_F16, MOSTLY_Q8_0} { ok := false; }
      }
    }

    /** The loaded values behind the objects. */
    function Contents(end: int): Model
      requires hyperparameters != null && vocab != null
      reads this, hyperparameters, vocab, tensors
    {
      var header := Header(fileFormat, formatVersion);
      Model(header, hyperparameters.Contents(), hyperparameters.nFf, vocab.items, Infos(), end)
    }
  
    /** The end of `Load`: stores what was read and looks up the feed-forward size. */
    method Finish(hp: Hyperparameters, v: Vocab, ts: seq<Tensor>, index: map<Bytes, nat>, ghost infos: seq<TensorInfo>)
      returns (r: Result<(), LoadError>)
      requires |infos| == |ts| && (forall i :: 0 <= i < |ts| ==> ts[i].Info() == infos[i]) && index == IndexMap(infos)
      modifies this, hp`nFf
      ensures fileFormat == old(fileFormat) && formatVersion == old(formatVersion)
      ensures hyperparameters == hp && vocab == v && tensors == ts && tensorMap == index && Infos() == infos
      ensures var spec := FeedForwardSize(infos);
              && r == (if spec.Ok? then Ok(()) else Err(spec.error))
              && (spec.Ok? ==> hp.nFf == spec.value)
    {
      hide FeedForwardSize, IndexMap, Infos;
      hyperparameters := hp;
      vocab := v;
      tensors := ts;
      tensorMap := index;
      InfosAre(infos);
      r := hp.SetNFf(this);
      InfosAre(infos);
    }

    /** The loop over the tensors is followed for `fuel` rounds; it need not end. */
    method Load(data: Bytes, offset: nat, fuel: nat) returns (r: Result<int, LoadError>)
      modifies this
      ensures var spec := ReadModel(data, offset, fuel);
              && r == (if spec.Ok? then Ok(spec.value.end) else Err(spec.error))
              && (r.Ok? ==>
                    && hyperparameters != null && vocab != null
                    && Contents(r.value) == spec.value && tensorMap == IndexMap(spec.value.tensors))
    {
      hide ReadHeader, ReadParams, ReadItems, ReadTensors, FeedForwardSize, IndexMap, Eligible, Infos;
      var end := offset;
      var header := ValidateHeader(data, end);
      if header.Err? { return Err(header.error); }
      end := end + header.value;
      var hp := new Hyperparameters();
      var params := hp.Load(data, end);
      if params.Err? { return Err(params.error); }
      end := end + params.value;
      var ok := ValidateConversion(hp.ftype);
      if !ok { return Err(NotEligible); }
      var v := new Vocab(fileFormat != GGML);
      var items := v.Load(data, end, hp.nVocab);
      if items.Err? { return Err(items.error); }
      end := end + items.value;
      var size, ts, index := LoadTensors(data, end, fileFormat == GGJT, fuel);
      if size.Err? { return Err(size.error); }
      var ff := Finish(hp, v, ts, index, ReadTensors(data, end, fileFormat == GGJT, fuel).value.0);
      if ff.Err? { return Err(ff.error); }
      return Ok(size.value);
    }
  }

  /** The loop over the tensors of a file, for at most `fuel` rounds. */
  method LoadTensors(data: Bytes, offset: nat, padding: bool, fuel: nat)
    returns (r: Result<int, LoadError>, tensors: seq<Tensor>, index: map<Bytes, nat>)
    ensures forall t :: t in tensors ==> fresh(t)
    ensures var spec := ReadTensors(data, offset, padding, fuel);
            && r == (if spec.Ok? then Ok(spec.value.1) else Err(spec.error))
            && (r.Ok? ==>
                  && |tensors| == |spec.value.0|
                  && (forall i :: 0 <= i < |tensors| ==> tensors[i].Info() == spec.value.0[i])
                  && index == IndexMap(spec.value.0))
  {
    hide ReadTensor, ReadTensors, Onto, IndexMap, Wrap64;
    var end: int, rounds := offset, fuel;
    tensors, index := [], map[];
    r := Ok(offset);
    ghost var infos: seq<TensorInfo>, spec := [], ReadTensors(data, offset, padding, fuel);
    NoIndex();
    OntoNothing(spec);
    while end < |data|
      invariant forall t :: t in tensors ==> fresh(t)
      invariant |infos| == |tensors| && (forall i :: 0 <= i < |tensors| ==> tensors[i].Info() == infos[i])
      invariant index == IndexMap(infos)
      invariant Onto(infos, ReadTensors(data, end, padding, rounds)) == spec
      decreases rounds
    {
      TensorsStep(data, end, padding, rounds, infos);
      if rounds == 0 { return Err(Unfinished), tensors, index; }
      rounds := rounds - 1;
      var tensor := new Tensor(padding);
      var size := tensor.Load(data, end);
      if size.Err? { return Err(size.error), tensors, index; }
      WrappedDifference(end, tensor.Info().End());
      end := Wrap64(end + size.value);
      index := index[tensor.name := |tensors|];
      tensors := tensors + [tensor];
      IndexSnoc(infos, tensor.Info());
      infos := infos + [tensor.Info()];
    }
    NoTensors(data, end, padding, rounds, infos);
    r := Ok(end);
  }
}
