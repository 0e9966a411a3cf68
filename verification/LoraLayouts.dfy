/**
  Where the operations of LoraChains put the elements of a dense tensor: which shapes a reshape gives,
  what a transposition exchanges, and how the converter reorders the rows of attention heads.
  */
module LoraLayouts {
  import opened Base
  import opened Tensors
  import opened LoraTensors
  import opened LoraChains

  // ---------------------------------------------------------------- reshape

  predicate AtMostOneFree(s: seq<int>) { forall a, b :: 0 <= a < b < |s| ==> !(s[a] == -1 && s[b] == -1) }

  lemma {:induction false} CountsFree(s: seq<int>)
    ensures CountFree(s) <= 1 <==> AtMostOneFree(s)
    ensures CountFree(s) == 0 <==> -1 !in s
    decreases |s|
  {
    if s != [] {
      CountsFree(Init(s));
      assert s == Init(s) + [Last(s)];
      assert forall a :: 0 <= a < |s| - 1 ==> s[a] == Init(s)[a];
    }
  }

  /** The product with a value for the one free dimension. */
  lemma {:induction false} FreeProduct(s: seq<int>, v: int)
    requires CountFree(s) <= 1
    ensures ProdInt(Replace(s, v)) == ProdInt(Replace(s, 1)) * if CountFree(s) == 1 then v else 1
    decreases |s|
  {
    if s != [] {
      FreeProduct(Init(s), v);
      assert Init(Replace(s, v)) == Replace(Init(s), v) && Init(Replace(s, 1)) == Replace(Init(s), 1);
      var p := ProdInt(Replace(Init(s), 1));
      if Last(s) == -1 {
        assert ProdInt(Replace(s, v)) == p * v && ProdInt(Replace(s, 1)) == p * 1;
      } else if CountFree(Init(s)) == 1 {
        assert p * v * Last(s) == p * Last(s) * v;
      }
    }
  }

  lemma {:induction false} ProdsAgree(s: seq<int>)
    requires AllNat(s)
    ensures Prod(ToShape(s)) == ProdInt(s)
    decreases |s|
  {
    if s != [] {
      assert Init(ToShape(s)) == ToShape(Init(s));
      ProdsAgree(Init(s));
    }
  }

  /** The shape `r` is `s` with the free dimension, if any, filled in. */
  predicate Fills(s: seq<int>, r: Shape) {
    |r| == |s| && forall a :: 0 <= a < |s| ==> s[a] == -1 || s[a] == r[a]
  }

  /** The value that the free dimension has in `r`. */
  lemma FilledIs(s: seq<int>, r: Shape) returns (v: nat)
    requires AtMostOneFree(s) && Fills(s, r)
    ensures AllNat(Replace(s, v)) && ToShape(Replace(s, v)) == r
  {
    if k :| 0 <= k < |s| && s[k] == -1 {
      v := r[k];
      assert forall a :: 0 <= a < |s| && a != k ==> s[a] != -1;
    } else {
      v := 0;
    }
  }

  lemma Quotient(e: nat, p: int, v: int)
    requires p != 0
    ensures p * v == e <==> e % p == 0 && v == e / p
  {
    var q, r := e / p, e % p;
    assert e == q * p + r;
    var d := v - q;
    assert p * v == d * p + q * p by { assert (d + q) * p == d * p + q * p; }
    if p > 0 {
      Multiples(d, p);
    } else {
      assert d * p == (0 - d) * (0 - p);
      Multiples(0 - d, 0 - p);
    }
  }

  /**
    A dense tensor is reshaped to `u` exactly if at most one dimension is free, `u` has the other ones and the
    same elements in the same order, and a free one can be told from the others.
    */
  lemma ReshapeIff(t: Tensor, s: seq<int>, u: Tensor)
    requires t.Valid()
    ensures DenseReshape(t, s) == Ok(u) <==>
            && AtMostOneFree(s) && Fills(s, u.shape) && Prod(u.shape) == |t.data| && u.data == t.data
            && (-1 in s ==> ProdInt(Replace(s, 1)) != 0)
  {
    hide Prod, ProdInt, CountFree;
    CountsFree(s);
    if AtMostOneFree(s) {
      if Fills(s, u.shape) {
        var v := FilledIs(s, u.shape);
        ProdsAgree(Replace(s, v));
        FreeProduct(s, v);
        if -1 !in s {
          assert Replace(s, v) == s;
        } else if ProdInt(Replace(s, 1)) != 0 {
          Quotient(|t.data|, ProdInt(Replace(s, 1)), v);
        }
      }
      if DenseReshape(t, s).Ok? && -1 in s {
        ProdsAgree(Replace(s, |t.data| / ProdInt(Replace(s, 1))));
      }
    }
  }

  // ---------------------------------------------------------------- transposition

  /** `idx` with the entries of two axes exchanged. */
  function Exchanged(idx: Index, i: nat, j: nat): (r: Index)
    requires i < |idx| && j < |idx|
    ensures |r| == |idx|
  {
    idx[i := idx[j]][j := idx[i]]
  }

  /** A transposition is refused for unknown axes, and exchanges two axes otherwise. */
  lemma TransposedAt(t: Tensor, d0: int, d1: int, idx: Index)
    requires t.Valid() && InRange(t.shape, idx)
    ensures var n, r := |t.shape|, ApplyDense(t, DoTranspose(d0, d1));
            if -n <= d0 < n && -n <= d1 < n then
              var i, j := Axis(n, d0), Axis(n, d1);
              && r.Ok? && r.value.shape == Exchanged(t.shape, i, j)
              && InRange(r.value.shape, Exchanged(idx, i, j)) && r.value.At(Exchanged(idx, i, j)) == t.At(idx)
            else r.Err?
  {
    var n := |t.shape|;
    hide Tensor.At, Prod, Permuted;
    if -n <= d0 < n && -n <= d1 < n {
      var i, j := Axis(n, d0), Axis(n, d1);
      var dims := TransposeDims(n, d0, d1).value;
      assert IsPermutation(n, dims);
      assert PermutedShape(t.shape, dims) == Exchanged(t.shape, i, j);
      assert Moves(n, dims, idx, Exchanged(idx, i, j));
      PermutedAt(t, dims, idx, Exchanged(idx, i, j));
    }
  }

  // ---------------------------------------------------------------- the rows of attention heads

  lemma RavelTwo(s: Shape, idx: Index)
    requires |s| == 2 && |idx| == 2
    ensures Ravel(s, idx) == idx[0] * s[1] + idx[1]
  {
    assert Init(s) == [s[0]] && Init(idx) == [idx[0]];
    assert Init([s[0]]) == [] && Init([idx[0]]) == [];
    assert Ravel([s[0]], [idx[0]]) == Ravel([], []) * s[0] + idx[0];
  }

  lemma RavelFour(s: Shape, idx: Index)
    requires |s| == 4 && |idx| == 4
    ensures Ravel(s, idx) == ((idx[0] * s[1] + idx[1]) * s[2] + idx[2]) * s[3] + idx[3]
  {
    var s3, i3 := Init(s), Init(idx);
    RavelTwo(Init(s3), Init(i3));
    assert Ravel(s3, i3) == Ravel(Init(s3), Init(i3)) * s[2] + idx[2];
  }

  /** Rows split by two more axes: the element stays, its row number is put together. */
  lemma SplitRows(
    t: Tensor, u: Tensor, rows: nat, x: nat, y: nat, z: nat, m: nat, i: nat, a: nat, j: nat, c: nat, row: nat)
    requires t.Valid() && u.Valid() && t.data == u.data && t.shape == [rows, m] && u.shape == [x, y, z, m]
    requires rows == x * y * z && i < x && a < y && j < z && c < m && row == (i * y + a) * z + j
    ensures InRange(t.shape, [row, c]) && InRange(u.shape, [i, a, j, c]) && t.At([row, c]) == u.At([i, a, j, c])
  {
    BelowProduct(i, x, y, a);
    BelowProduct(i * y + a, x * y, z, j);
    RavelFour(u.shape, [i, a, j, c]);
    RavelTwo(t.shape, [row, c]);
  }

  lemma HeadSteps(t: Tensor, h: nat, k: nat, rows: nat, m: nat)
    returns (t1: Tensor, t2: Tensor, t3: Tensor)
    requires t.Valid() && t.shape == [rows, m] && rows == h * 2 * k
    ensures RunDense(t, HeadOps(h, k, rows, m)) == Ok(t3)
    ensures t1 == Tensor([h, 2, k, m], t.data) && t1.Valid()
    ensures t2 == Permuted(t1, [0, 2, 1, 3]) && IsPermutation(4, [0, 2, 1, 3]) && t2.shape == [h, k, 2, m]
    ensures t3 == Tensor([rows, m], t2.data) && t2.Valid() && t3.Valid()
  {
    hide Tensor.At, SourceIndex, Prod, Permuted, TransposeDims;
    ProdOfMatrix([rows, m]);
    ProdOfHeads(h, 2, k, m);
    ProdOfHeads(h, k, 2, m);
    assert h * k * 2 == h * 2 * k;
    SwapMiddle();
    var dims := [0, 2, 1, 3];
    var ops := HeadOps(h, k, rows, m);
    PlainReshape(t, [h, 2, k, m]);
    t1 := Tensor([h, 2, k, m], t.data);
    t2 := Permuted(t1, dims);
    assert PermutedShape([h, 2, k, m], dims) == [h, k, 2, m];
    PlainReshape(t2, [rows, m]);
    t3 := Tensor([rows, m], t2.data);
    assert ops[1..] == [ops[1], ops[2]] && ops[1..][1..] == [ops[2]] && ops[1..][1..][1..] == [];
    assert ApplyDense(t, ops[0]) == Ok(t1) && ApplyDense(t1, ops[1]) == Ok(t2) && ApplyDense(t2, ops[2]) == Ok(t3);
    ThreeRuns(t, t1, t2, t3, ops[0], ops[1], ops[2]);
  }

  lemma ThreeRuns(t: Tensor, t1: Tensor, t2: Tensor, t3: Tensor, a: Op, b: Op, c: Op)
    requires t.Valid() && t1.Valid() && t2.Valid()
    requires ApplyDense(t, a) == Ok(t1) && ApplyDense(t1, b) == Ok(t2) && ApplyDense(t2, c) == Ok(t3)
    ensures RunDense(t, [a, b, c]) == Ok(t3)
  {
    hide ApplyDense;
    assert [a, b, c][1..] == [b, c] && [b, c][1..] == [c] && [c][1..] == [];
    assert RunDense(t2, [c]) == Ok(t3);
    assert RunDense(t1, [b, c]) == Ok(t3);
  }

  lemma MiddleSwapped(t: Tensor, h: nat, k: nat, m: nat, i: nat, a: nat, j: nat, c: nat)
    requires t.Valid() && t.shape == [h, 2, k, m] && IsPermutation(4, [0, 2, 1, 3])
    requires i < h && a < 2 && j < k && c < m
    ensures var u := Permuted(t, [0, 2, 1, 3]);
            && u.shape == [h, k, 2, m] && InRange(t.shape, [i, a, j, c]) && InRange(u.shape, [i, j, a, c])
            && u.At([i, j, a, c]) == t.At([i, a, j, c])
  {
    hide Tensor.At, SourceIndex, Prod, Permuted;
    assert PermutedShape([h, 2, k, m], [0, 2, 1, 3]) == [h, k, 2, m];
    assert Moves(4, [0, 2, 1, 3], [i, a, j, c], [i, j, a, c]);
    PermutedAt(t, [0, 2, 1, 3], [i, a, j, c], [i, j, a, c]);
  }

  lemma SameRows(h: nat, k: nat)
    ensures h * k * 2 == h * 2 * k
  {
  }

  lemma RowMoves(
    t: Tensor, t1: Tensor, t2: Tensor, t3: Tensor, h: nat, k: nat, rows: nat, m: nat, i: nat, a: nat, j: nat, c: nat,
    from: nat, to: nat)
    requires t.Valid() && t.shape == [rows, m] && rows == h * 2 * k && i < h && a < 2 && j < k && c < m
    requires t1 == Tensor([h, 2, k, m], t.data) && t1.Valid() && IsPermutation(4, [0, 2, 1, 3])
    requires t2 == Permuted(t1, [0, 2, 1, 3]) && t3 == Tensor([rows, m], t2.data) && t3.Valid()
    requires from == (i * 2 + a) * k + j && to == (i * k + j) * 2 + a
    ensures InRange(t.shape, [from, c]) && InRange(t3.shape, [to, c]) && t3.At([to, c]) == t.At([from, c])
  {
    hide *;
    SameRows(h, k);
    MiddleSwapped(t1, h, k, m, i, a, j, c);
    SplitRows(t, t1, rows, h, 2, k, m, i, a, j, c, from);
    SplitRows(t3, t2, rows, h, k, 2, m, i, j, a, c, to);
  }

  /** Row `j` of half `a` of head `i` goes to row `a` of pair `j` of that head. */
  lemma HeadRows(t: Tensor, h: nat, k: nat, rows: nat, m: nat, i: nat, a: nat, j: nat, c: nat, from: nat, to: nat)
    requires t.Valid() && t.shape == [rows, m] && rows == h * 2 * k
    requires i < h && a < 2 && j < k && c < m
    requires from == (i * 2 + a) * k + j && to == (i * k + j) * 2 + a
    ensures var r := RunDense(t, HeadOps(h, k, rows, m));
            && r.Ok? && r.value.Valid() && r.value.shape == [rows, m]
            && InRange([rows, m], [from, c]) && InRange([rows, m], [to, c])
            && r.value.At([to, c]) == t.At([from, c])
  {
    hide *;
    var t1, t2, t3 := HeadSteps(t, h, k, rows, m);
    RowMoves(t, t1, t2, t3, h, k, rows, m, i, a, j, c, from, to);
  }

  /** The same for the factors: their dense tensor has its rows reordered in this way. */
  lemma HeadRowsOfFactors(l: Lora, h: nat, k: nat, i: nat, a: nat, j: nat, c: nat, from: nat, to: nat)
    requires l.Fits() && l.Dims() == 2 && l.Rank() > 0 && l.RowSize() > 0 && l.Shape()[0] == h * 2 * k
    requires i < h && a < 2 && j < k && c < l.RowSize()
    requires from == (i * 2 + a) * k + j && to == (i * k + j) * 2 + a
    ensures var r := RunLora(l, HeadOps(h, k, l.Shape()[0], l.RowSize()));
            && r.Ok? && r.value.Shape() == l.Shape() && InRange(l.Shape(), [from, c]) && InRange(l.Shape(), [to, c])
            && r.value.Dense().At([to, c]) == l.Dense().At([from, c])
  {
    assert l.Shape() == [l.Shape()[0], l.RowSize()];
    hide Tensor.At, Lora.Dense, RunLora, RunDense, HeadOps, InRange;
    HeadPermutation(l, h, k);
    HeadRows(l.Dense(), h, k, l.Shape()[0], l.RowSize(), i, a, j, c, from, to);
  }
}
