/**
  `LoraTorchTensor` (convert_lora_to_gguf.py): a pair (A, B) that stands for the dense tensor B·A.
  Every operation is carried out on the factors only.
  */
module LoraTensors {
  import opened Base
  import opened Tensors

  function Times(x: real, y: real): real { x * y }

  datatype Lora = Lora(A: Tensor, B: Tensor) {
    /** Number of dimensions. */
    function Dims(): nat { |B.shape| }

    function Rank(): nat
      requires B.shape != []
    {
      Last(B.shape)
    }

    function RowSize(): nat
      requires A.shape != []
    {
      Last(A.shape)
    }

    /** The `shape` property. */
    function Shape(): Shape
      requires A.shape != [] && B.shape != []
    {
      Init(B.shape) + [Last(A.shape)]
    }

    /** The factors multiply: equal rank, and leading axes of A equal those of B or have size 1. */
    predicate Fits() {
      && A.Valid() && B.Valid()
      && |A.shape| == |B.shape| >= 2
      && A.shape[|A.shape| - 2] == Last(B.shape)
      && forall a :: 0 <= a < |B.shape| - 2 ==> A.shape[a] == B.shape[a] || A.shape[a] == 1
    }

    predicate LeadingOnes() { forall a :: 0 <= a < |A.shape| - 2 ==> A.shape[a] == 1 }

    // -------------------------------------------------------------- the dense tensor

    /** The leading index in A: broadcast axes have only position 0. */
    function Clip(lead: Index): (c: Index)
      requires |lead| <= |A.shape|
      ensures |c| == |lead| && forall a :: 0 <= a < |lead| ==> c[a] == if A.shape[a] == 1 then 0 else lead[a]
    {
      seq(|lead|, a requires 0 <= a < |lead| => if A.shape[a] == 1 then 0 else lead[a])
    }

    function IndexA(idx: Index, r: nat): (i: Index)
      requires |A.shape| == |idx| >= 2
    {
      Clip(Init(Init(idx))) + [r, Last(idx)]
    }

    lemma IndicesInRange(idx: Index, r: nat)
      requires Fits() && InRange(Shape(), idx) && r < Rank()
      ensures InRange(B.shape, Init(idx) + [r]) && InRange(A.shape, IndexA(idx, r))
    {
      assert forall a :: 0 <= a < |idx| - 1 ==> idx[a] < Shape()[a] == B.shape[a];
    }

    /** The product at rank position `r` for the element at `idx` of B·A. */
    function Term(idx: Index, r: nat): real
      requires Fits() && InRange(Shape(), idx) && r < Rank()
    {
      IndicesInRange(idx, r);
      Times(B.At(Init(idx) + [r]), A.At(IndexA(idx, r)))
    }

    /** The sum of the first `k` products. */
    function Dot(idx: Index, k: nat): real
      requires Fits() && InRange(Shape(), idx) && k <= Rank()
    {
      if k == 0 then 0.0 else Dot(idx, k - 1) + Term(idx, k - 1)
    }

    /** B·A, multiplied with broadcasting over the leading axes. */
    function Dense(): (t: Tensor)
      requires Fits()
      ensures t.Valid() && t.shape == Shape()
    {
      Tabulate(Shape(), idx requires InRange(Shape(), idx) => Dot(idx, Rank()))
    }

    lemma DenseAt(idx: Index)
      requires Fits() && InRange(Shape(), idx)
      ensures Dense().At(idx) == Dot(idx, Rank())
    {
      TabulateAt(Shape(), idx requires InRange(Shape(), idx) => Dot(idx, Rank()), idx);
    }
  }

  /** Equal products give equal elements. */
  lemma {:induction false} SameTerms(l: Lora, idx: Index, l': Lora, idx': Index, k: nat)
    requires l.Fits() && InRange(l.Shape(), idx) && l'.Fits() && InRange(l'.Shape(), idx')
    requires k <= l.Rank() && k <= l'.Rank()
    requires forall r :: 0 <= r < k ==> l.Term(idx, r) == l'.Term(idx', r)
    ensures l.Dot(idx, k) == l'.Dot(idx', k)
  {
    if k > 0 { SameTerms(l, idx, l', idx', k - 1); }
  }

  /** The constructor's assertions. */
  function Make(A: Tensor, B: Tensor): Result<Lora, Failure> {
    if |A.shape| == |B.shape| && |A.shape| >= 2 && A.shape[|A.shape| - 2] == Last(B.shape) then Ok(Lora(A, B))
        else Err(Failed)
  }

  // ---------------------------------------------------------------- reshape

  function ProdInt(s: seq<int>): int {
    if s == [] then 1 else ProdInt(Init(s)) * Last(s)
  }

  function Replace(s: seq<int>, value: int): (r: seq<int>)
    ensures |r| == |s| && forall a :: 0 <= a < |s| ==> r[a] == if s[a] == -1 then value else s[a]
  {
    seq(|s|, a requires 0 <= a < |s| => if s[a] == -1 then value else s[a])
  }

  /** Free dimensions are computed from the number of elements; a division by zero is an exception. */
  function Expand(s: seq<int>, elements: nat): Result<seq<int>, Failure> {
    if -1 !in s then Ok(s)
    else
      var known := ProdInt(Replace(s, 1));
      if known == 0 || elements % known != 0 then Err(Failed) else Ok(Replace(s, elements / known))
  }

  function CountFree(s: seq<int>): nat {
    if s == [] then 0 else CountFree(Init(s)) + (if Last(s) == -1 then 1 else 0)
  }

  /** `reshape` of a dense tensor: at most one dimension may be free. */
  function DenseReshape(t: Tensor, s: seq<int>): (r: Result<Tensor, Failure>)
    requires t.Valid()
    ensures r.Ok? ==> r.value.Valid()
  {
    if CountFree(s) > 1 then Err(Failed) else
    match Expand(s, Prod(t.shape))
    case Err(e) => Err(e)
    case Ok(full) => ReshapeTensor(t, full)
  }

  function Ones(n: nat): (s: seq<int>)
    ensures |s| == n && forall a :: 0 <= a < n ==> s[a] == 1
  {
    seq(n, _ => 1)
  }

  /** `LoraTorchTensor.reshape`. */
  function ReshapeLora(l: Lora, s: seq<int>): Result<Lora, Failure>
    requires l.Fits()
  {
    if |s| < 2 then Err(Failed) else
    match Expand(s, Prod(l.Shape()))
    case Err(e) => Err(e)
    case Ok(full) =>
      if |full| < 2 || Last(full) != l.RowSize() then Err(Failed) else
      match ReshapeTensor(l.A, Ones(|full| - 2) + [l.Rank(), l.RowSize()])
      case Err(e) => Err(e)
      case Ok(A) =>
        match ReshapeTensor(l.B, Init(full) + [l.Rank()])
        case Err(e) => Err(e)
        case Ok(B) => Make(A, B)
  }

  /** The element at row `q` and column `j`, from the flat factors. */
  function FlatDot(a: seq<real>, b: seq<real>, rank: nat, row: nat, q: nat, j: nat, k: nat): real
    requires k <= rank && (k > 0 ==> q * rank + rank <= |b| && j < row && rank * row <= |a|)
  {
    if k == 0 then 0.0
    else
      BelowProduct(k - 1, rank, row, j);
      FlatDot(a, b, rank, row, q, j, k - 1) + b[q * rank + (k - 1)] * a[(k - 1) * row + j]
  }

  lemma {:induction false} RavelOnes(s: Shape, idx: Index)
    requires InRange(s, idx) && forall a :: 0 <= a < |s| ==> s[a] == 1
    ensures Ravel(s, idx) == 0
    decreases |s|
  {
    if s != [] { RavelOnes(Init(s), Init(idx)); }
  }

  /** With a single matrix A, the flat position decides; the leading shape does not matter. */
  lemma {:induction false} DotIsFlat(l: Lora, idx: Index, k: nat)
    requires l.Fits() && l.LeadingOnes() && InRange(l.Shape(), idx) && k <= l.Rank()
    ensures var q := Ravel(Init(l.B.shape), Init(idx));
            && (k > 0 ==>
                  && q * l.Rank() + l.Rank() <= |l.B.data| && Last(idx) < l.RowSize()
                  && l.Rank() * l.RowSize() <= |l.A.data|)
            && l.Dot(idx, k) == FlatDot(l.A.data, l.B.data, l.Rank(), l.RowSize(), q, Last(idx), k)
  {
    hide Ravel, Prod, Tensor.At, Lora.IndexA, InRange, Lora.LeadingOnes;
    if k > 0 {
      DotIsFlat(l, idx, k - 1);
      l.IndicesInRange(idx, k - 1);
      ElementB(l, idx, k - 1);
      ElementA(l, idx, k - 1);
    }
  }

  lemma ElementB(l: Lora, idx: Index, r: nat)
    requires l.Fits() && InRange(l.Shape(), idx) && r < l.Rank() && InRange(l.B.shape, Init(idx) + [r])
    ensures var q := Ravel(Init(l.B.shape), Init(idx));
            q * l.Rank() + l.Rank() <= |l.B.data| && l.B.At(Init(idx) + [r]) == l.B.data[q * l.Rank() + r]
  {
    var i := Init(idx) + [r];
    assert Init(i) == Init(idx) && Last(i) == r;
    RavelInRange(Init(l.B.shape), Init(idx));
    RowFits(Ravel(Init(l.B.shape), Init(idx)), Prod(Init(l.B.shape)), l.Rank());
  }

  lemma ElementA(l: Lora, idx: Index, r: nat)
    requires l.Fits() && l.LeadingOnes() && InRange(l.Shape(), idx) && r < l.Rank() &&
             InRange(l.A.shape, l.IndexA(idx, r))
    ensures l.Rank() * l.RowSize() <= |l.A.data| && Last(idx) < l.RowSize() && r * l.RowSize() + Last(idx) < |l.A.data|
    ensures l.A.At(l.IndexA(idx, r)) == l.A.data[r * l.RowSize() + Last(idx)]
  {
    var i := l.IndexA(idx, r);
    var s := l.A.shape;
    var lead := l.Clip(Init(Init(idx)));
    assert Init(i) == lead + [r] && Init(Init(i)) == lead && Last(Init(i)) == r && Last(i) == Last(idx);
    assert Last(Init(s)) == l.Rank();
    assert forall a :: 0 <= a < |Init(Init(s))| ==> Init(Init(s))[a] == s[a];
    RavelOnes(Init(Init(s)), lead);
    ProdOnes(Init(Init(s)));
    RavelInRange(s, i);
  }

  lemma {:induction false} ProdOnes(s: Shape)
    ensures (forall a :: 0 <= a < |s| ==> s[a] == 1) <==> Prod(s) == 1
    decreases |s|
  {
    if s != [] {
      ProdOnes(Init(s));
      ProductOne(Prod(Init(s)), Last(s));
      if Prod(s) == 1 {
        forall a | 0 <= a < |s| ensures s[a] == 1 { if a < |s| - 1 { assert s[a] == Init(s)[a]; } }
      }
    }
  }

  lemma ProductOne(p: nat, q: nat)
    ensures p * q == 1 <==> p == 1 && q == 1
  {
    if p > 1 && q > 0 { assert p * q >= p; }
  }

  lemma DenseDataFlat(l: Lora, n: nat)
    requires l.Fits() && (l.LeadingOnes() || l.Rank() == 0) && n < Prod(l.Shape())
    ensures var r, m := l.Rank(), l.RowSize();
            && m > 0
            && (r > 0 ==> (n / m) * r + r <= |l.B.data| && n % m < m && r * m <= |l.A.data|)
            && l.Dense().data[n] == FlatDot(l.A.data, l.B.data, r, m, n / m, n % m, r)
  {
    hide FlatDot, Prod, Ravel, Unravel, Lora.Dense, Lora.Dot, Lora.LeadingOnes, InRange, Tensor.At;
    var s := l.Shape();
    var idx := Unravel(s, n);
    DenseElement(l, n);
    ShapeParts(l);
    UnravelParts(s, n);
    if l.Rank() == 0 {
      NoProducts(l, idx, n);
    } else {
      DotIsFlat(l, idx, l.Rank());
      RavelUnravel(Init(s), n / Last(s));
    }
  }

  lemma ShapeParts(l: Lora)
    requires l.Fits()
    ensures l.Shape() != [] && Init(l.Shape()) == Init(l.B.shape) && Last(l.Shape()) == l.RowSize()
  {
  }

  lemma DenseElement(l: Lora, n: nat)
    requires l.Fits() && n < Prod(l.Shape())
    ensures InRange(l.Shape(), Unravel(l.Shape(), n)) && n < |l.Dense().data|
    ensures l.Dense().data[n] == l.Dot(Unravel(l.Shape(), n), l.Rank())
  {
    hide Lora.Dense, Lora.Dot, Prod, Ravel, Unravel, Lora.Shape;
    RavelUnravel(l.Shape(), n);
    l.DenseAt(Unravel(l.Shape(), n));
  }

  lemma NoProducts(l: Lora, idx: Index, n: nat)
    requires l.Fits() && l.Rank() == 0 && InRange(l.Shape(), idx) && l.RowSize() > 0
    ensures l.Dot(idx, 0) == FlatDot(l.A.data, l.B.data, 0, l.RowSize(), n / l.RowSize(), n % l.RowSize(), 0)
  {
  }

  lemma Associates(p: nat, q: nat, m: nat)
    ensures p * q * m == p * (q * m)
  {
  }

  /** A has the elements of one matrix exactly if its leading axes have size 1. */
  lemma OneMatrix(l: Lora)
    requires l.Fits() && l.Rank() > 0 && l.RowSize() > 0
    ensures |l.A.data| == l.Rank() * l.RowSize() <==> l.LeadingOnes()
  {
    var s := l.A.shape;
    var lead := Init(Init(s));
    var p, rm := Prod(lead), l.Rank() * l.RowSize();
    assert Last(Init(s)) == l.Rank() && Last(s) == l.RowSize();
    assert Prod(s) == Prod(Init(s)) * l.RowSize() && Prod(Init(s)) == p * l.Rank();
    Associates(p, l.Rank(), l.RowSize());
    ProdOnes(lead);
    assert forall a :: 0 <= a < |lead| ==> lead[a] == s[a];
    assert rm >= 1 by { RowFits(0, l.Rank(), l.RowSize()); }
    if p * rm == rm { Cancel(p, 1, rm); }
  }

  lemma OnesMatrixSize(n: nat, r: nat, m: nat)
    ensures AllNat(Ones(n) + [r, m]) && Prod(ToShape(Ones(n) + [r, m])) == r * m
  {
    var s := ToShape(Ones(n) + [r, m]);
    assert Last(s) == m && Last(Init(s)) == r;
    ProdOnes(Init(Init(s)));
  }

  lemma SnocSize(s: seq<int>, r: nat)
    requires AllNat(s)
    ensures AllNat(s + [r]) && ToShape(s + [r]) == ToShape(s) + [r] && Prod(ToShape(s + [r])) == Prod(ToShape(s)) * r
  {
    var t := ToShape(s) + [r];
    assert Init(t) == ToShape(s);
  }

  lemma FullSize(full: seq<int>)
    requires AllNat(full) && full != []
    ensures AllNat(Init(full)) && ToShape(full) == ToShape(Init(full)) + [Last(full)]
    ensures Prod(ToShape(full)) == Prod(ToShape(Init(full))) * Last(full)
  {
    assert full == Init(full) + [Last(full)];
    SnocSize(Init(full), Last(full));
  }

  /** What a successful reshape of the factors looks like. */
  lemma ReshapeParts(l: Lora, s: seq<int>, full: seq<int>)
    requires l.Fits() && ReshapeLora(l, s).Ok? && Expand(s, Prod(l.Shape())) == Ok(full)
    ensures var l', r, m := ReshapeLora(l, s).value, l.Rank(), l.RowSize();
            && |full| >= 2 && AllNat(full) && Last(full) == m
            && l'.A.data == l.A.data && l'.B.data == l.B.data && |l.A.data| == r * m
            && l'.A.shape == ToShape(Ones(|full| - 2) + [r, m])
            && l'.B.shape == ToShape(Init(full)) + [r]
            && l'.Fits() && l'.LeadingOnes() && l'.Rank() == r && l'.RowSize() == m && l'.Shape() == ToShape(full)
  {
    hide Prod;
    var r, m := l.Rank(), l.RowSize();
    OnesMatrixSize(|full| - 2, r, m);
    assert AllNat(Init(full) + [r]);
    assert forall a :: 0 <= a < |full| - 1 ==> full[a] == (Init(full) + [r])[a] >= 0;
    FullSize(full);
    SnocSize(Init(full), r);
  }

  /** Reshaping the factors reshapes the dense tensor, whenever both are defined. */
  lemma ReshapeCommutes(l: Lora, s: seq<int>)
    requires l.Fits() && ReshapeLora(l, s).Ok? && DenseReshape(l.Dense(), s).Ok?
    ensures ReshapeLora(l, s).value.Fits() && ReshapeLora(l, s).value.Dense() == DenseReshape(l.Dense(), s).value
  {
    var full := Expand(s, Prod(l.Shape())).value;
    ReshapeParts(l, s, full);
    var l', d := ReshapeLora(l, s).value, DenseReshape(l.Dense(), s).value;
    assert d == Tensor(ToShape(full), l.Dense().data);
    hide ReshapeLora, DenseReshape, Expand, FlatDot, Prod;
    forall n | 0 <= n < |d.data| ensures l'.Dense().data[n] == d.data[n] {
      DenseDataSame(l, l', n);
    }
    assert l'.Dense().data == d.data;
  }

  lemma DenseDataSame(l: Lora, l': Lora, n: nat)
    requires l.Fits() && l'.Fits() && l'.LeadingOnes() && l'.Rank() == l.Rank() && l'.RowSize() == l.RowSize()
    requires l'.A.data == l.A.data && l'.B.data == l.B.data && |l.A.data| == l.Rank() * l.RowSize()
    requires n < Prod(l.Shape()) && n < Prod(l'.Shape())
    ensures l'.Dense().data[n] == l.Dense().data[n]
  {
    assert Last(l.Shape()) == l.RowSize();
    QuotientInRange(n, Prod(Init(l.Shape())), l.RowSize());
    if l.Rank() > 0 { OneMatrix(l); }
    DenseDataFlat(l, n);
    DenseDataFlat(l', n);
  }

  /** Of the reshapes a dense tensor accepts, the factors accept exactly those to two or more axes
      that keep the row size, if the leading axes of A have size 1. */
  lemma ReshapeAcceptedIff(l: Lora, s: seq<int>)
    requires l.Fits() && l.Rank() > 0 && l.RowSize() > 0 && DenseReshape(l.Dense(), s).Ok?
    ensures ReshapeLora(l, s).Ok? <==>
            |s| >= 2 && Last(DenseReshape(l.Dense(), s).value.shape) == l.RowSize() && l.LeadingOnes()
  {
    var full := Expand(s, Prod(l.Shape())).value;
    var r, m := l.Rank(), l.RowSize();
    assert |full| == |s|;
    OneMatrix(l);
    if |s| >= 2 && Last(full) == m {
      FullSize(full);
      SnocSize(Init(full), r);
      OnesMatrixSize(|full| - 2, r, m);
      assert Init(l.Shape()) == Init(l.B.shape) && Last(l.Shape()) == m;
      Cancel(Prod(ToShape(Init(full))), Prod(Init(l.B.shape)), m);
    }
  }
}
