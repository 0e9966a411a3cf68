/**
  Permuting the factors of a LoRA tensor, and chains of reshape, permute and transpose as the
  model converters apply them to weights.
  */
module LoraChains {
  import opened Base
  import opened Tensors
  import opened LoraTensors

  // ---------------------------------------------------------------- permute

  /** Nonnegative dimensions become negative ones. */
  function Normalized(n: nat, dims: seq<int>): (r: seq<int>)
    ensures |r| == |dims| && forall a :: 0 <= a < |dims| ==> r[a] == if dims[a] >= 0 then dims[a] - n else dims[a]
  {
    seq(|dims|, a requires 0 <= a < |dims| => if dims[a] >= 0 then dims[a] - n else dims[a])
  }

  /** `LoraTorchTensor.permute`. */
  function PermuteLora(l: Lora, dims: seq<int>): Result<Lora, Failure>
    requires l.Fits()
  {
    var nd := Normalized(l.Dims(), dims);
    if nd == [] then Err(Failed)
    else if Last(nd) == -1 then
      if !l.LeadingOnes() then Err(Failed) else
      match Permute(l.B, nd)
      case Err(e) => Err(e)
      case Ok(B) => Make(l.A, B)
    else if l.Dims() == 2 && |nd| >= 2 && Last(nd) == -2 && nd[|nd| - 2] == -1 then
      match Permute(l.B, nd)
      case Err(e) => Err(e)
      case Ok(A) =>
        match Permute(l.A, nd)
        case Err(e) => Err(e)
        case Ok(B) => Make(A, B)
    else Err(Failed)
  }

  lemma NormalizedIsSame(n: nat, dims: seq<int>)
    requires IsPermutation(n, dims)
    ensures IsPermutation(n, Normalized(n, dims))
    ensures forall a :: 0 <= a < n ==> Axis(n, Normalized(n, dims)[a]) == Axis(n, dims[a])
  {
  }

  /** An index of the permuted dense tensor, followed back, and the same with a rank as last position. */
  lemma MovesWithRank(n: nat, dims: seq<int>, nd: seq<int>, from: Index, to: Index, r: nat)
    requires n > 0 && IsPermutation(n, dims) && nd == Normalized(n, dims) && IsPermutation(n, nd)
    requires Moves(n, dims, from, to) && Axis(n, Last(dims)) == n - 1
    ensures Last(from) == Last(to) && Moves(n, nd, Init(from) + [r], Init(to) + [r])
  {
    NormalizedIsSame(n, dims);
    assert from[Axis(n, dims[n - 1])] == to[n - 1];
    var f, t := Init(from) + [r], Init(to) + [r];
    forall a | 0 <= a < n ensures f[Axis(n, nd[a])] == t[a] {
      assert from[Axis(n, dims[a])] == to[a];
      if a < n - 1 { assert Axis(n, dims[a]) != Axis(n, dims[n - 1]); }
    }
  }

  /** The leading axes permuted: the products are the same. */
  lemma TermMoves(l: Lora, l': Lora, dims: seq<int>, nd: seq<int>, from: Index, to: Index, r: nat)
    requires l.Fits() && l'.Fits() && l.LeadingOnes() && l'.A == l.A && l'.Rank() == l.Rank() && r < l.Rank()
    requires IsPermutation(l.Dims(), dims) && nd == Normalized(l.Dims(), dims) && IsPermutation(l.Dims(), nd)
    requires Axis(l.Dims(), Last(dims)) == l.Dims() - 1 && l'.B == Permuted(l.B, nd)
    requires Moves(l.Dims(), dims, from, to) && InRange(l'.Shape(), to) && InRange(l.Shape(), from)
    ensures l'.Term(to, r) == l.Term(from, r)
  {
    hide Tensor.At, Prod, Ravel, Permuted, Times, SourceIndex;
    MovesWithRank(l.Dims(), dims, nd, from, to, r);
    l'.IndicesInRange(to, r);
    l.IndicesInRange(from, r);
    PermutedAt(l.B, nd, Init(from) + [r], Init(to) + [r]);
    assert l'.IndexA(to, r) == l.IndexA(from, r);
  }

  lemma DotMoves(l: Lora, l': Lora, dims: seq<int>, nd: seq<int>, from: Index, to: Index)
    requires l.Fits() && l'.Fits() && l.LeadingOnes() && l'.A == l.A && l'.Rank() == l.Rank()
    requires IsPermutation(l.Dims(), dims) && nd == Normalized(l.Dims(), dims) && IsPermutation(l.Dims(), nd)
    requires Axis(l.Dims(), Last(dims)) == l.Dims() - 1 && l'.B == Permuted(l.B, nd)
    requires Moves(l.Dims(), dims, from, to) && InRange(l'.Shape(), to) && InRange(l.Shape(), from)
    ensures l'.Dot(to, l.Rank()) == l.Dot(from, l.Rank())
  {
    forall r | 0 <= r < l.Rank() ensures l.Term(from, r) == l'.Term(to, r) { TermMoves(l, l', dims, nd, from, to, r); }
    SameTerms(l, from, l', to, l.Rank());
  }

  lemma LastFixedCommutes(l: Lora, dims: seq<int>)
    requires l.Fits() && IsPermutation(l.Dims(), dims) && Axis(l.Dims(), Last(dims)) == l.Dims() - 1
    requires PermuteLora(l, dims).Ok?
    ensures var l' := PermuteLora(l, dims).value; l'.Fits() && l'.Dense() == Permuted(l.Dense(), dims)
  {
    var n := l.Dims();
    var nd := Normalized(n, dims);
    NormalizedIsSame(n, dims);
    assert Last(nd) == -1;
    var l' := PermuteLora(l, dims).value;
    assert l' == Lora(l.A, Permuted(l.B, nd));
    assert Last(l'.B.shape) == Last(l.B.shape);
    var d := Permuted(l.Dense(), dims);
    ShapeMoves(l, l', dims, nd);
    hide PermuteLora, Normalized, Permuted;
    forall to | InRange(d.shape, to) ensures l'.Dense().At(to) == d.At(to) {
      var from := SourceIndex(n, dims, to);
      PermutedAt(l.Dense(), dims, from, to);
      DotMoves(l, l', dims, nd, from, to);
      l.DenseAt(from);
      l'.DenseAt(to);
    }
    SameElements(l'.Dense(), d);
  }

  /** Permuting all axes but the last one, and putting another size behind them. */
  lemma MovedShape(s: Shape, m: nat, dims: seq<int>, nd: seq<int>)
    requires s != [] && IsPermutation(|s|, dims) && IsPermutation(|s|, nd)
    requires forall a :: 0 <= a < |s| ==> Axis(|s|, nd[a]) == Axis(|s|, dims[a])
    requires Axis(|s|, Last(dims)) == |s| - 1
    ensures Init(PermutedShape(s, nd)) + [m] == PermutedShape(Init(s) + [m], dims)
  {
    var n := |s|;
    var x, y := Init(PermutedShape(s, nd)) + [m], PermutedShape(Init(s) + [m], dims);
    forall a | 0 <= a < n ensures x[a] == y[a] {
      var from := Axis(n, dims[a]);
      if a < n - 1 {
        assert from != Axis(n, dims[n - 1]);
        assert (Init(s) + [m])[from] == s[from];
      }
    }
  }

  lemma ShapeMoves(l: Lora, l': Lora, dims: seq<int>, nd: seq<int>)
    requires l.Fits() && l'.Fits() && l'.A == l.A
    requires IsPermutation(l.Dims(), dims) && nd == Normalized(l.Dims(), dims) && IsPermutation(l.Dims(), nd)
    requires Axis(l.Dims(), Last(dims)) == l.Dims() - 1 && l'.B == Permuted(l.B, nd)
    ensures l'.Shape() == PermutedShape(l.Shape(), dims)
  {
    assert l'.B.shape == PermutedShape(l.B.shape, nd);
    NormalizedIsSame(l.Dims(), dims);
    hide Prod, Permuted, SourceIndex, IsPermutation, Normalized, PermutedShape, Axis;
    MovedShape(l.B.shape, l.RowSize(), dims, nd);
  }

  lemma SwapMoves(dims: seq<int>, i: nat, j: nat)
    requires IsPermutation(2, dims) && Axis(2, dims[1]) == 0
    ensures Moves(2, dims, [j, i], [i, j])
  {
    assert Axis(2, dims[0]) != Axis(2, dims[1]);
  }

  lemma IndexOfTwo(l: Lora, i: nat, j: nat, r: nat)
    requires |l.A.shape| == 2
    ensures Init([i, j]) + [r] == [i, r] && l.IndexA([i, j], r) == [r, j]
  {
  }

  /** The matrix transposed: the factors change places. */
  lemma TermTransposed(l: Lora, l': Lora, dims: seq<int>, i: nat, j: nat, r: nat)
    requires l.Fits() && l'.Fits() && l.Dims() == 2 == l'.Dims() && l'.Rank() == l.Rank() && r < l.Rank()
    requires IsPermutation(2, dims) && Axis(2, dims[1]) == 0
    requires l'.A == Permuted(l.B, dims) && l'.B == Permuted(l.A, dims)
    requires InRange(l'.Shape(), [i, j]) && InRange(l.Shape(), [j, i])
    ensures l'.Term([i, j], r) == l.Term([j, i], r)
  {
    hide Tensor.At, Prod, Ravel, Permuted, SourceIndex, Lora.IndexA, IsPermutation, PermutedShape, Axis, Moves;
    l'.IndicesInRange([i, j], r);
    l.IndicesInRange([j, i], r);
    IndexOfTwo(l', i, j, r);
    IndexOfTwo(l, j, i, r);
    SwapMoves(dims, i, r);
    SwapMoves(dims, r, j);
    PermutedAt(l.A, dims, [r, i], [i, r]);
    PermutedAt(l.B, dims, [j, r], [r, j]);
  }

  lemma DotTransposed(l: Lora, l': Lora, dims: seq<int>, i: nat, j: nat)
    requires l.Fits() && l'.Fits() && l.Dims() == 2 == l'.Dims() && l'.Rank() == l.Rank()
    requires IsPermutation(2, dims) && Axis(2, dims[1]) == 0
    requires l'.A == Permuted(l.B, dims) && l'.B == Permuted(l.A, dims)
    requires InRange(l'.Shape(), [i, j]) && InRange(l.Shape(), [j, i])
    ensures l'.Dot([i, j], l.Rank()) == l.Dot([j, i], l.Rank())
  {
    forall r | 0 <= r < l.Rank() ensures l.Term([j, i], r) == l'.Term([i, j], r) {
      TermTransposed(l, l', dims, i, j, r);
    }
    SameTerms(l, [j, i], l', [i, j], l.Rank());
  }

  lemma SwappedShape(t: Tensor, dims: seq<int>)
    requires t.Valid() && IsPermutation(2, dims) && Axis(2, dims[1]) == 0 && |t.shape| == 2
    ensures Permuted(t, dims).shape == [t.shape[1], t.shape[0]]
  {
    assert Axis(2, dims[0]) != Axis(2, dims[1]);
  }

  /** The result of transposing a matrix LoRA. */
  lemma TransposedParts(l: Lora, dims: seq<int>)
    requires l.Fits() && l.Dims() == 2 && IsPermutation(2, dims) && Axis(2, dims[1]) == 0
    ensures var nd := [-1, -2];
            && IsPermutation(2, nd)
            && var l' := Lora(Permuted(l.B, nd), Permuted(l.A, nd));
               && PermuteLora(l, dims) == Ok(l') && l'.Fits() && l'.Dims() == 2
               && l'.Rank() == l.Rank() && l'.Shape() == [l.Shape()[1], l.Shape()[0]]
  {
    hide Tensor.At, Prod, Ravel, Permuted, SourceIndex, Tabulate;
    NormalizedIsSame(2, dims);
    assert Axis(2, dims[0]) != Axis(2, dims[1]);
    assert Normalized(2, dims) == [-1, -2];
    SwappedShape(l.A, [-1, -2]);
    SwappedShape(l.B, [-1, -2]);
  }

  lemma TransposeCommutes(l: Lora, dims: seq<int>)
    requires l.Fits() && l.Dims() == 2 && IsPermutation(2, dims) && Axis(2, dims[1]) == 0
    ensures PermuteLora(l, dims).Ok?
    ensures var l' := PermuteLora(l, dims).value; l'.Fits() && l'.Dense() == Permuted(l.Dense(), dims)
  {
    TransposedParts(l, dims);
    SwappedShape(l.Dense(), dims);
    var l', d := PermuteLora(l, dims).value, Permuted(l.Dense(), dims);
    hide PermuteLora, Permuted;
    forall to | InRange(d.shape, to) ensures l'.Dense().At(to) == d.At(to) {
      var i, j := to[0], to[1];
      assert to == [i, j];
      SwapMoves(dims, i, j);
      PermutedAt(l.Dense(), dims, [j, i], [i, j]);
      DotTransposed(l, l', [-1, -2], i, j);
      l.DenseAt([j, i]);
      l'.DenseAt([i, j]);
    }
    SameElements(l'.Dense(), d);
  }

  lemma AcceptedKinds(l: Lora, dims: seq<int>)
    requires l.Fits() && IsPermutation(l.Dims(), dims)
    ensures PermuteLora(l, dims).Ok? ==>
              Axis(l.Dims(), Last(dims)) == l.Dims() - 1 || (l.Dims() == 2 && Axis(2, dims[1]) == 0)
    ensures Axis(l.Dims(), Last(dims)) == l.Dims() - 1 ==> (PermuteLora(l, dims).Ok? <==> l.LeadingOnes())
  {
    hide Permuted, Lora.Fits;
    NormalizedIsSame(l.Dims(), dims);
    FitsShapes(l);
    var nd := Normalized(l.Dims(), dims);
    if Axis(l.Dims(), Last(dims)) == l.Dims() - 1 {
      assert Last(Permuted(l.B, nd).shape) == Last(l.B.shape);
    }
  }

  lemma FitsShapes(l: Lora)
    requires l.Fits()
    ensures l.Dims() >= 2 && |l.A.shape| == |l.B.shape| && l.A.shape[|l.A.shape| - 2] == Last(l.B.shape)
    ensures l.A.Valid() && l.B.Valid()
  {
  }

  /** Permuting the factors permutes the dense tensor, whenever both are defined. */
  lemma PermuteCommutes(l: Lora, dims: seq<int>)
    requires l.Fits() && PermuteLora(l, dims).Ok? && Permute(l.Dense(), dims).Ok?
    ensures PermuteLora(l, dims).value.Fits() && PermuteLora(l, dims).value.Dense() == Permute(l.Dense(), dims).value
  {
    hide PermuteLora, Permuted, Lora.Dense;
    AcceptedKinds(l, dims);
    if Axis(l.Dims(), Last(dims)) == l.Dims() - 1 {
      LastFixedCommutes(l, dims);
    } else {
      TransposeCommutes(l, dims);
    }
  }

  /** Of the permutations a dense tensor accepts, the factors accept those that keep the last axis,
      if the leading axes of A have size 1, and the transposition of a matrix. */
  lemma PermuteAcceptedIff(l: Lora, dims: seq<int>)
    requires l.Fits() && Permute(l.Dense(), dims).Ok?
    ensures PermuteLora(l, dims).Ok? <==>
            (Axis(l.Dims(), Last(dims)) == l.Dims() - 1 && l.LeadingOnes()) ||
                (l.Dims() == 2 && Axis(2, Last(dims)) == 0)
  {
    hide PermuteLora, Permuted, Lora.Dense;
    AcceptedKinds(l, dims);
    if l.Dims() == 2 && Axis(2, Last(dims)) == 0 { TransposeCommutes(l, dims); }
  }

  /** What the factors accept the dense tensor accepts exactly if no dimension number is beyond its
      axes: the factors take a number once more than there are axes. */
  lemma DenseAcceptsIff(l: Lora, dims: seq<int>)
    requires l.Fits() && PermuteLora(l, dims).Ok?
    ensures Permute(l.Dense(), dims).Ok? <==> forall a :: 0 <= a < |dims| ==> dims[a] < l.Dims()
  {
    hide Permuted, Lora.Dense, Prod, Lora.Fits;
    FitsShapes(l);
    var n, nd := l.Dims(), Normalized(l.Dims(), dims);
    assert IsPermutation(n, nd);
    assert |l.Dense().shape| == n;
    if forall a :: 0 <= a < |dims| ==> dims[a] < n {
      forall a | 0 <= a < n ensures Axis(n, dims[a]) == Axis(n, nd[a]) {
      }
      assert IsPermutation(n, dims);
    }
    if IsPermutation(n, dims) {
      forall a | 0 <= a < n ensures dims[a] < n {
        assert Axis(n, dims[a]) < n;
      }
    }
  }

  /** A dimension number that no dense tensor of three axes knows is accepted for the factors. */
  lemma UnknownDimensionAccepted(l: Lora)
    requires l.Fits() && l.Dims() == 3 && l.LeadingOnes()
    ensures PermuteLora(l, [3, 1, 2]).Ok? && Permute(l.Dense(), [3, 1, 2]).Err?
  {
    hide Permuted, Lora.Dense, Prod, Tensor.At;
    assert Normalized(3, [3, 1, 2]) == [0, -2, -1];
    assert IsPermutation(3, [0, -2, -1]);
    assert Axis(3, [3, 1, 2][0]) == 3;
    var B := Permuted(l.B, [0, -2, -1]);
    assert B.shape[2] == l.B.shape[2];
  }

  // ---------------------------------------------------------------- chains

  /** `transpose` and `swapaxes`: the dimension list with two entries exchanged. */
  function TransposeDims(n: nat, d0: int, d1: int): (r: Result<seq<int>, Failure>) {
    if 0 <= Axis(n, d0) < n && 0 <= Axis(n, d1) < n then
      Ok(seq(n, a => if a == Axis(n, d0) then Axis(n, d1) else if a == Axis(n, d1) then Axis(n, d0) else a))
    else Err(Failed)
  }

  datatype Op = DoReshape(shape: seq<int>) | DoPermute(dims: seq<int>) | DoTranspose(d0: int, d1: int)

  function ApplyLora(l: Lora, op: Op): Result<Lora, Failure>
    requires l.Fits()
  {
    match op
    case DoReshape(s) => ReshapeLora(l, s)
    case DoPermute(dims) => PermuteLora(l, dims)
    case DoTranspose(d0, d1) =>
      match TransposeDims(l.Dims(), d0, d1)
      case Err(e) => Err(e)
      case Ok(dims) => PermuteLora(l, dims)
  }

  function ApplyDense(t: Tensor, op: Op): (r: Result<Tensor, Failure>)
    requires t.Valid()
    ensures r.Ok? ==> r.value.Valid()
  {
    match op
    case DoReshape(s) => DenseReshape(t, s)
    case DoPermute(dims) => Permute(t, dims)
    case DoTranspose(d0, d1) =>
      match TransposeDims(|t.shape|, d0, d1)
      case Err(e) => Err(e)
      case Ok(dims) => Permute(t, dims)
  }

  lemma ApplyCommutes(l: Lora, op: Op)
    requires l.Fits() && ApplyLora(l, op).Ok? && ApplyDense(l.Dense(), op).Ok?
    ensures ApplyLora(l, op).value.Fits() && ApplyLora(l, op).value.Dense() == ApplyDense(l.Dense(), op).value
  {
    hide ReshapeLora, PermuteLora, DenseReshape, Permute, Lora.Dense, TransposeDims;
    match op
    case DoReshape(s) => ReshapeCommutes(l, s);
    case DoPermute(dims) => PermuteCommutes(l, dims);
    case DoTranspose(d0, d1) => PermuteCommutes(l, TransposeDims(l.Dims(), d0, d1).value);
  }

  function RunDense(t: Tensor, ops: seq<Op>): (r: Result<Tensor, Failure>)
    requires t.Valid()
    decreases |ops|
  {
    if ops == [] then Ok(t) else
    match ApplyDense(t, ops[0])
    case Err(e) => Err(e)
    case Ok(u) => RunDense(u, ops[1..])
  }

  /** No operation leaves factors that do not fit. */
  lemma ApplyFits(l: Lora, op: Op)
    requires l.Fits() && ApplyLora(l, op).Ok?
    ensures ApplyLora(l, op).value.Fits()
  {
    match op
    case DoReshape(s) => ReshapeParts(l, s, Expand(s, Prod(l.Shape())).value);
    case DoPermute(dims) => PermuteFits(l, dims);
    case DoTranspose(d0, d1) => PermuteFits(l, TransposeDims(l.Dims(), d0, d1).value);
  }

  lemma PermuteFits(l: Lora, dims: seq<int>)
    requires l.Fits() && PermuteLora(l, dims).Ok?
    ensures PermuteLora(l, dims).value.Fits()
  {
    hide Tensor.At, Prod, Permuted, SourceIndex;
    var nd := Normalized(l.Dims(), dims);
    if Last(nd) == -1 {
      assert Last(Permuted(l.B, nd).shape) == Last(l.B.shape);
    } else {
      assert nd == [-1, -2];
    }
  }

  function RunLora(l: Lora, ops: seq<Op>): (r: Result<Lora, Failure>)
    requires l.Fits()
    ensures r.Ok? ==> r.value.Fits()
    decreases |ops|
  {
    if ops == [] then Ok(l) else
    match ApplyLora(l, ops[0])
    case Err(e) => Err(e)
    case Ok(m) =>
      ApplyFits(l, ops[0]);
      RunLora(m, ops[1..])
  }

  /** Any chain on the factors ends with factors of what the same chain makes of the dense tensor. */
  lemma {:induction false} ChainCommutes(l: Lora, ops: seq<Op>)
    requires l.Fits() && RunLora(l, ops).Ok? && RunDense(l.Dense(), ops).Ok?
    ensures RunLora(l, ops).value.Fits() && RunLora(l, ops).value.Dense() == RunDense(l.Dense(), ops).value
    decreases |ops|
  {
    hide ApplyLora, ApplyDense, Lora.Fits, Lora.Dense;
    if ops != [] {
      ApplyCommutes(l, ops[0]);
      ChainCommutes(ApplyLora(l, ops[0]).value, ops[1..]);
    }
  }

  // ---------------------------------------------------------------- the permutation of attention heads

  lemma {:induction false} NothingFree(s: seq<int>)
    requires AllNat(s)
    ensures CountFree(s) == 0
    decreases |s|
  {
    if s != [] { NothingFree(Init(s)); }
  }

  lemma PlainReshape(t: Tensor, s: Shape)
    requires t.Valid() && Prod(s) == |t.data|
    ensures DenseReshape(t, s) == Ok(Tensor(s, t.data))
  {
    NothingFree(s);
    assert ToShape(s) == s;
  }

  lemma ProdOfMatrix(s: Shape)
    requires |s| == 2
    ensures Prod(s) == s[0] * s[1]
  {
    assert Init(s) == [s[0]] && Init([s[0]]) == [];
    assert Prod([s[0]]) == Prod([]) * s[0];
  }

  lemma ProdOfHeads(h: nat, a: nat, b: nat, m: nat)
    ensures Prod([h, a, b, m]) == h * a * b * m
  {
    assert Init([h, a, b, m]) == [h, a, b] && Init([h, a, b]) == [h, a];
    ProdOfMatrix([h, a]);
  }

  /** `permute` of the model converters: split the rows by heads, swap the halves, join again. */
  function HeadOps(h: nat, k: nat, rows: nat, m: nat): seq<Op> {
    [DoReshape([h, 2, k, m]), DoTranspose(1, 2), DoReshape([rows, m])]
  }

  lemma SwapMiddle()
    ensures TransposeDims(4, 1, 2) == Ok([0, 2, 1, 3])
  {
    var r := TransposeDims(4, 1, 2).value;
    assert |r| == 4 && r[0] == 0 && r[1] == 2 && r[2] == 1 && r[3] == 3;
    assert r == [0, 2, 1, 3];
  }

  /** The chain is defined on both sides and means the same. */
  predicate ChainAgrees(l: Lora, ops: seq<Op>)
    requires l.Fits()
  {
    RunLora(l, ops).Ok? && RunDense(l.Dense(), ops).Ok? &&
        RunLora(l, ops).value.Dense() == RunDense(l.Dense(), ops).value
  }

  /** The first two steps. */
  lemma SplitAndSwap(l: Lora, h: nat, k: nat) returns (l1: Lora, l2: Lora)
    requires l.Fits() && l.Dims() == 2 && l.Rank() > 0 && l.RowSize() > 0 && l.Shape()[0] == h * 2 * k
    ensures var s := [h, 2, k, l.RowSize()];
            && ReshapeLora(l, s) == Ok(l1) && l1.Fits() && DenseReshape(l.Dense(), s) == Ok(l1.Dense()) &&
               l1.Dims() == 4
    ensures PermuteLora(l1, [0, 2, 1, 3]) == Ok(l2) && l2.Fits() && Permute(l1.Dense(), [0, 2, 1, 3]) == Ok(l2.Dense())
    ensures l2.Shape() == [h, k, 2, l.RowSize()] && l2.LeadingOnes() && l2.Rank() > 0 && l2.RowSize() == l.RowSize()
  {
    hide Tensor.At, SourceIndex, Prod, ReshapeLora, DenseReshape, PermuteLora, Permuted, Lora.Dense;
    var m := l.RowSize();
    var s := [h, 2, k, m];
    ProdOfMatrix(l.Shape());
    ProdOfHeads(h, 2, k, m);
    PlainReshape(l.Dense(), s);
    ReshapeAcceptedIff(l, s);
    l1 := ReshapeLora(l, s).value;
    ReshapeCommutes(l, s);
    ReshapeParts(l, s, s);
    assert ToShape(s) == s;
    var dims := [0, 2, 1, 3];
    PermuteAcceptedIff(l1, dims);
    l2 := PermuteLora(l1, dims).value;
    PermuteCommutes(l1, dims);
    assert l2.Shape() == PermutedShape(s, dims) == [h, k, 2, m];
    PermuteKeepsFactors(l1, dims);
  }

  /** Of a matrix LoRA the head permutation is accepted, and yields that of the dense matrix. */
  lemma HeadPermutation(l: Lora, h: nat, k: nat)
    requires l.Fits() && l.Dims() == 2 && l.Rank() > 0 && l.RowSize() > 0 && l.Shape()[0] == h * 2 * k
    ensures ChainAgrees(l, HeadOps(h, k, l.Shape()[0], l.RowSize()))
  {
    hide Tensor.At, SourceIndex, Prod, ReshapeLora, DenseReshape, PermuteLora, Permuted, Permute, Lora.Dense;
    var rows, m := l.Shape()[0], l.RowSize();
    var l1, l2 := SplitAndSwap(l, h, k);
    ProdOfHeads(h, k, 2, m);
    assert h * k * 2 == h * 2 * k;
    ProdOfMatrix([rows, m]);
    PlainReshape(l2.Dense(), [rows, m]);
    ReshapeAcceptedIff(l2, [rows, m]);
    HeadChain(l, h, k, rows, l1, l2);
  }

  lemma FirstRuns(l: Lora, m: Lora, op: Op, more: seq<Op>)
    requires l.Fits() && m.Fits() && ApplyLora(l, op) == Ok(m) && ApplyDense(l.Dense(), op) == Ok(m.Dense())
    requires RunLora(m, more).Ok? && RunDense(m.Dense(), more).Ok?
    ensures RunLora(l, [op] + more).Ok? && RunDense(l.Dense(), [op] + more).Ok?
  {
    hide ApplyLora, ApplyDense, Lora.Dense, Lora.Fits;
    assert ([op] + more)[1..] == more;
  }

  lemma LastRuns(l: Lora, op: Op)
    requires l.Fits() && ApplyLora(l, op).Ok? && ApplyDense(l.Dense(), op).Ok?
    ensures RunLora(l, [op]).Ok? && RunDense(l.Dense(), [op]).Ok?
  {
    ApplyFits(l, op);
    hide ApplyLora, ApplyDense, Lora.Dense, Lora.Fits;
    assert [op][1..] == [];
  }

  lemma HeadChain(l: Lora, h: nat, k: nat, rows: nat, l1: Lora, l2: Lora)
    requires l.Fits() && l1.Fits() && l2.Fits() && l1.Dims() == 4
    requires ReshapeLora(l, [h, 2, k, l.RowSize()]) == Ok(l1) &&
             DenseReshape(l.Dense(), [h, 2, k, l.RowSize()]) == Ok(l1.Dense())
    requires PermuteLora(l1, [0, 2, 1, 3]) == Ok(l2) && Permute(l1.Dense(), [0, 2, 1, 3]) == Ok(l2.Dense())
    requires ReshapeLora(l2, [rows, l.RowSize()]).Ok? && DenseReshape(l2.Dense(), [rows, l.RowSize()]).Ok?
    ensures ChainAgrees(l, HeadOps(h, k, rows, l.RowSize()))
  {
    hide Tensor.At, SourceIndex, Prod, ReshapeLora, DenseReshape, PermuteLora, Permuted, Permute, Lora.Dense,
        TransposeDims;
    SwapMiddle();
    var ops := HeadOps(h, k, rows, l.RowSize());
    assert ops == [ops[0]] + ([ops[1]] + [ops[2]]) && [ops[2]] == [ops[2]] + [];
    assert ApplyLora(l, ops[0]) == Ok(l1) && ApplyLora(l1, ops[1]) == Ok(l2);
    assert ApplyDense(l.Dense(), ops[0]) == Ok(l1.Dense()) && ApplyDense(l1.Dense(), ops[1]) == Ok(l2.Dense());
    LastRuns(l2, ops[2]);
    FirstRuns(l1, l2, ops[1], [ops[2]]);
    FirstRuns(l, l1, ops[0], [ops[1]] + [ops[2]]);
    ChainCommutes(l, ops);
  }

  lemma PermuteKeepsFactors(l: Lora, dims: seq<int>)
    requires l.Fits() && PermuteLora(l, dims).Ok? && IsPermutation(l.Dims(), dims) &&
             Axis(l.Dims(), Last(dims)) == l.Dims() - 1
    ensures var l' := PermuteLora(l, dims).value; l'.A == l.A && l'.LeadingOnes() && l'.Rank() == l.Rank()
  {
    hide Tensor.At, SourceIndex, Permuted;
    NormalizedIsSame(l.Dims(), dims);
    assert Last(Permuted(l.B, Normalized(l.Dims(), dims)).shape) == Last(l.B.shape);
  }
}
