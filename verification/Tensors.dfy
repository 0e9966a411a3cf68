/**
  Dense tensors as PyTorch sees them: a shape and its elements in row-major order, with the
  operations that the LoRA converter applies. An error result stands for an exception.
  */
module Tensors {
  import opened Base

  type Shape = seq<nat>
  type Index = seq<nat>

  datatype Failure = Failed

  // ---------------------------------------------------------------- shapes and positions

  function Last<T>(s: seq<T>): T
    requires s != []
  {
    s[|s| - 1]
  }

  function Init<T>(s: seq<T>): seq<T>
    requires s != []
  {
    s[..|s| - 1]
  }

  function Prod(s: Shape): nat {
    if s == [] then 1 else Prod(Init(s)) * Last(s)
  }

  predicate InRange(s: Shape, idx: Index) {
    |idx| == |s| && forall a :: 0 <= a < |s| ==> idx[a] < s[a]
  }

  /** The row-major position of an index. */
  function Ravel(s: Shape, idx: Index): nat
    requires |idx| == |s|
  {
    if s == [] then 0 else Ravel(Init(s), Init(idx)) * Last(s) + Last(idx)
  }

  function Unravel(s: Shape, n: nat): (idx: Index)
    requires n < Prod(s)
    ensures InRange(s, idx)
  {
    if s == [] then []
    else
      QuotientInRange(n, Prod(Init(s)), Last(s));
      Unravel(Init(s), n / Last(s)) + [n % Last(s)]
  }

  /** A multiple of `m` is 0 or at least `m` away from it. */
  lemma Multiples(k: int, m: nat)
    ensures k >= 1 ==> k * m >= m
    ensures k <= -1 ==> k * m <= 0 - m
  {
    if k >= 1 { assert k * m == (k - 1) * m + m; }
    if k <= -1 { assert k * m == (k + 1) * m - m; }
  }

  lemma Cancel(p: nat, q: nat, m: nat)
    requires p * m == q * m && m > 0
    ensures p == q
  {
    assert (p - q) * m == p * m - q * m;
    Multiples(p - q, m);
  }

  lemma QuotientInRange(n: nat, p: nat, m: nat)
    requires n < p * m
    ensures m > 0 && n / m < p && n % m < m
  {
    var k := n / m - p;
    assert k * m == (n / m) * m - p * m;
    Multiples(k, m);
  }

  lemma DivModOf(q: nat, m: nat, r: nat)
    requires r < m
    ensures (q * m + r) / m == q && (q * m + r) % m == r
  {
    var n := q * m + r;
    var d, e := n / m, n % m;
    assert n == d * m + e;
    assert (d - q) * m == d * m - q * m == r - e;
    Multiples(d - q, m);
  }

  lemma RowFits(q: nat, p: nat, m: nat)
    requires q < p
    ensures q * m + m <= p * m
  {
    assert q * m + m == (q + 1) * m <= p * m;
  }

  lemma BelowProduct(q: nat, p: nat, m: nat, r: nat)
    requires q < p && r < m
    ensures q * m + r < p * m
  {
    RowFits(q, p, m);
  }

  lemma {:induction false} RavelInRange(s: Shape, idx: Index)
    requires InRange(s, idx)
    ensures Ravel(s, idx) < Prod(s)
    decreases |s|
  {
    if s != [] {
      RavelInRange(Init(s), Init(idx));
      BelowProduct(Ravel(Init(s), Init(idx)), Prod(Init(s)), Last(s), Last(idx));
    }
  }

  lemma {:induction false} UnravelRavel(s: Shape, idx: Index)
    requires InRange(s, idx)
    ensures Ravel(s, idx) < Prod(s) && Unravel(s, Ravel(s, idx)) == idx
    decreases |s|
  {
    RavelInRange(s, idx);
    if s != [] {
      UnravelRavel(Init(s), Init(idx));
      DivModOf(Ravel(Init(s), Init(idx)), Last(s), Last(idx));
      assert idx == Init(idx) + [Last(idx)];
    }
  }

  lemma DivMod(n: nat, m: nat)
    requires m > 0
    ensures n == (n / m) * m + n % m
  {
  }

  lemma UnravelParts(s: Shape, n: nat)
    requires n < Prod(s) && s != []
    ensures Last(s) > 0 && n / Last(s) < Prod(Init(s)) && |Unravel(s, n)| == |s|
    ensures Init(Unravel(s, n)) == Unravel(Init(s), n / Last(s)) && Last(Unravel(s, n)) == n % Last(s)
  {
    QuotientInRange(n, Prod(Init(s)), Last(s));
    var head, last := Unravel(Init(s), n / Last(s)), n % Last(s);
    assert Unravel(s, n) == head + [last];
    hide *;
    InitLast(head, last);
  }

  lemma InitLast(head: Index, last: nat)
    ensures Init(head + [last]) == head && Last(head + [last]) == last
  {
  }

  lemma {:induction false} RavelUnravel(s: Shape, n: nat)
    requires n < Prod(s)
    ensures Ravel(s, Unravel(s, n)) == n
    decreases |s|
  {
    if s != [] {
      UnravelParts(s, n);
      hide Unravel, Prod;
      RavelUnravel(Init(s), n / Last(s));
      DivMod(n, Last(s));
    }
  }

  // ---------------------------------------------------------------- tensors

  datatype Tensor = Tensor(shape: Shape, data: seq<real>) {
    predicate Valid() { |data| == Prod(shape) }

    function At(idx: Index): real
      requires Valid() && InRange(shape, idx)
    {
      RavelInRange(shape, idx);
      data[Ravel(shape, idx)]
    }
  }

  /** The tensor with given elements. */
  function Tabulate(s: Shape, f: Index --> real): (t: Tensor)
    requires forall idx :: InRange(s, idx) ==> f.requires(idx)
    ensures t.shape == s && t.Valid()
  {
    Tensor(s, seq(Prod(s), n requires 0 <= n < Prod(s) => f(Unravel(s, n))))
  }

  lemma TabulateAt(s: Shape, f: Index --> real, idx: Index)
    requires (forall i :: InRange(s, i) ==> f.requires(i)) && InRange(s, idx)
    ensures Tabulate(s, f).At(idx) == f(idx)
  {
    UnravelRavel(s, idx);
  }

  /** Tensors with equal shapes and elements are equal. */
  lemma SameElements(t: Tensor, u: Tensor)
    requires t.Valid() && u.Valid() && t.shape == u.shape
    requires forall idx :: InRange(t.shape, idx) ==> t.At(idx) == u.At(idx)
    ensures t == u
  {
    forall n | 0 <= n < |t.data| ensures t.data[n] == u.data[n] {
      RavelUnravel(t.shape, n);
      assert t.At(Unravel(t.shape, n)) == u.At(Unravel(t.shape, n));
    }
  }

  // ---------------------------------------------------------------- reshape

  predicate AllNat(s: seq<int>) { forall a :: 0 <= a < |s| ==> s[a] >= 0 }

  function ToShape(s: seq<int>): (r: Shape)
    requires AllNat(s)
    ensures |r| == |s| && forall a :: 0 <= a < |s| ==> r[a] == s[a]
  {
    seq(|s|, a requires 0 <= a < |s| => s[a])
  }

  /** `reshape` to a shape without free dimensions: the same elements in the same order. */
  function ReshapeTensor(t: Tensor, s: seq<int>): (r: Result<Tensor, Failure>)
    requires t.Valid()
    ensures r.Ok? ==> r.value.Valid()
  {
    if AllNat(s) && Prod(ToShape(s)) == |t.data| then Ok(Tensor(ToShape(s), t.data)) else Err(Failed)
  }

  // ---------------------------------------------------------------- permute

  /** A dimension as an axis number; negative ones count from the end. */
  function Axis(n: nat, d: int): int { if d < 0 then d + n else d }

  predicate IsPermutation(n: nat, dims: seq<int>) {
    && |dims| == n
    && (forall a :: 0 <= a < n ==> 0 <= Axis(n, dims[a]) < n)
    && (forall a, b :: 0 <= a < b < n ==> Axis(n, dims[a]) != Axis(n, dims[b]))
  }

  /** The index of the source element: axis `Axis(dims[a])` is where axis `a` of the result comes from. */
  ghost predicate Moves(n: nat, dims: seq<int>, from: Index, to: Index)
    requires IsPermutation(n, dims)
  {
    |from| == n && |to| == n && forall a :: 0 <= a < n ==> from[Axis(n, dims[a])] == to[a]
  }

  function PositionOf(n: nat, dims: seq<int>, axis: nat, from: nat): (a: nat)
    requires |dims| == n && from <= n
    ensures a <= n && (a < n ==> Axis(n, dims[a]) == axis)
    ensures a == n ==> forall b :: from <= b < n ==> Axis(n, dims[b]) != axis
    decreases n - from
  {
    if from == n then n else if Axis(n, dims[from]) == axis then from else PositionOf(n, dims, axis, from + 1)
  }

  function Axes(n: nat): (s: set<int>)
    ensures |s| == n && forall x :: x in s <==> 0 <= x < n
  {
    if n == 0 then {} else Axes(n - 1) + {n - 1}
  }

  function Hit(n: nat, dims: seq<int>, k: nat): (s: set<int>)
    requires IsPermutation(n, dims) && k <= n
    ensures |s| == k && forall x :: x in s <==> exists a :: 0 <= a < k && Axis(n, dims[a]) == x
  {
    if k == 0 then {}
    else
      var s := Hit(n, dims, k - 1);
      assert Axis(n, dims[k - 1]) !in s;
      s + {Axis(n, dims[k - 1])}
  }

  /** A permutation reaches every axis: as many different axes are hit as there are. */
  lemma EveryAxisMoved(n: nat, dims: seq<int>, axis: nat)
    requires IsPermutation(n, dims) && axis < n
    ensures PositionOf(n, dims, axis, 0) < n
  {
    if PositionOf(n, dims, axis, 0) == n {
      SubsetSize(Hit(n, dims, n), Axes(n) - {axis});
    }
  }

  lemma {:induction false} SubsetSize<T>(a: set<T>, b: set<T>)
    requires a <= b
    ensures |a| <= |b|
  {
    if a != {} {
      var x :| x in a;
      SubsetSize(a - {x}, b - {x});
    }
  }

  /** Where the element at `to` of the permuted tensor comes from. */
  function SourceIndex(n: nat, dims: seq<int>, to: Index): (from: Index)
    requires IsPermutation(n, dims) && |to| == n
    ensures Moves(n, dims, from, to)
  {
    assert forall axis :: 0 <= axis < n ==> PositionOf(n, dims, axis, 0) < n by {
      forall axis | 0 <= axis < n ensures PositionOf(n, dims, axis, 0) < n { EveryAxisMoved(n, dims, axis); }
    }
    var from := seq(n, axis requires 0 <= axis < n => to[PositionOf(n, dims, axis, 0)]);
    assert forall a :: 0 <= a < n ==> PositionOf(n, dims, Axis(n, dims[a]), 0) == a;
    from
  }

  lemma MovesUnique(n: nat, dims: seq<int>, f: Index, g: Index, to: Index)
    requires IsPermutation(n, dims) && Moves(n, dims, f, to) && Moves(n, dims, g, to)
    ensures f == g
  {
    forall axis | 0 <= axis < n ensures f[axis] == g[axis] {
      EveryAxisMoved(n, dims, axis);
      var a := PositionOf(n, dims, axis, 0);
      assert Axis(n, dims[a]) == axis;
    }
  }

  function PermutedShape(s: Shape, dims: seq<int>): (r: Shape)
    requires IsPermutation(|s|, dims)
    ensures |r| == |s| && forall a :: 0 <= a < |s| ==> r[a] == s[Axis(|s|, dims[a])]
  {
    seq(|s|, a requires 0 <= a < |s| => s[Axis(|s|, dims[a])])
  }

  lemma SourceInRange(s: Shape, dims: seq<int>, from: Index, to: Index)
    requires IsPermutation(|s|, dims) && Moves(|s|, dims, from, to)
    ensures InRange(PermutedShape(s, dims), to) ==> InRange(s, from)
  {
    if InRange(PermutedShape(s, dims), to) {
      forall axis | 0 <= axis < |s| ensures from[axis] < s[axis] {
        EveryAxisMoved(|s|, dims, axis);
        var a := PositionOf(|s|, dims, axis, 0);
        assert Axis(|s|, dims[a]) == axis && to[a] < PermutedShape(s, dims)[a];
      }
    }
  }

  lemma SourcesInRange(s: Shape, dims: seq<int>)
    requires IsPermutation(|s|, dims)
    ensures forall to :: InRange(PermutedShape(s, dims), to) ==> InRange(s, SourceIndex(|s|, dims, to))
  {
    forall to | InRange(PermutedShape(s, dims), to) ensures InRange(s, SourceIndex(|s|, dims, to)) {
      SourceInRange(s, dims, SourceIndex(|s|, dims, to), to);
    }
  }

  function Permuted(t: Tensor, dims: seq<int>): (r: Tensor)
    requires t.Valid() && IsPermutation(|t.shape|, dims)
    ensures r.Valid() && r.shape == PermutedShape(t.shape, dims)
  {
    SourcesInRange(t.shape, dims);
    Tabulate(PermutedShape(t.shape, dims),
             to requires InRange(PermutedShape(t.shape, dims), to) => t.At(SourceIndex(|t.shape|, dims, to)))
  }

  lemma PermutedAt(t: Tensor, dims: seq<int>, from: Index, to: Index)
    requires t.Valid() && IsPermutation(|t.shape|, dims)
    requires Moves(|t.shape|, dims, from, to) && InRange(PermutedShape(t.shape, dims), to)
    ensures InRange(t.shape, from) && Permuted(t, dims).At(to) == t.At(from)
  {
    SourceInRange(t.shape, dims, from, to);
    MovesUnique(|t.shape|, dims, from, SourceIndex(|t.shape|, dims, to), to);
    SourcesInRange(t.shape, dims);
    TabulateAt(PermutedShape(t.shape, dims),
               to requires InRange(PermutedShape(t.shape, dims), to) => t.At(SourceIndex(|t.shape|, dims, to)), to);
  }

  function Permute(t: Tensor, dims: seq<int>): (r: Result<Tensor, Failure>)
    requires t.Valid()
    ensures r.Ok? ==> r.value.Valid()
  {
    if IsPermutation(|t.shape|, dims) then Ok(Permuted(t, dims)) else Err(Failed)
  }
}
