/**
  Indexing LoRA tensors: `__getitem__` against the selection of the dense tensor.
  */
module LoraSlices {
  import opened Base
  import opened Tensors
  import opened LoraTensors

  // ---------------------------------------------------------------- indexing dense tensors

  /** One entry of an index: an integer, or a slice `start:stop`. */
  datatype Sel = Pick(i: int) | Range(start: Option<int>, stop: Option<int>)

  const FULL := Range(None, None)

  function Low(n: nat, sel: Sel): (r: nat)
    requires sel.Range?
    ensures r <= n
  {
    if sel.start.None? then 0 else Clamp(sel.start.value, n)
  }

  function Count(n: nat, sel: Sel): (r: nat)
    requires sel.Range?
    ensures Low(n, sel) + r <= n || r == 0
    ensures sel == FULL ==> r == n
  {
    var high := if sel.stop.None? then n else Clamp(sel.stop.value, n);
    if high <= Low(n, sel) then 0 else high - Low(n, sel)
  }

  predicate PickOk(n: nat, sel: Sel) { sel.Pick? ==> 0 - n <= sel.i < n }

  predicate PicksOk(s: Shape, sels: seq<Sel>) {
    |sels| == |s| && forall a :: 0 <= a < |s| ==> PickOk(s[a], sels[a])
  }

  function SelShape(s: Shape, sels: seq<Sel>): (r: Shape)
    requires |sels| == |s|
  {
    if s == [] then []
    else
      var r := SelShape(Init(s), Init(sels));
      if Last(sels).Pick? then r else r + [Count(Last(s), Last(sels))]
  }

  /** The index of the source element. */
  function SelIndex(s: Shape, sels: seq<Sel>, idx: Index): (r: Index)
    requires PicksOk(s, sels) && InRange(SelShape(s, sels), idx)
    ensures InRange(s, r)
  {
    if s == [] then []
    else if Last(sels).Pick? then SelIndex(Init(s), Init(sels), idx) + [Axis(Last(s), Last(sels).i)]
    else
      assert Init(SelShape(s, sels)) == SelShape(Init(s), Init(sels));
      SelIndex(Init(s), Init(sels), Init(idx)) + [Low(Last(s), Last(sels)) + Last(idx)]
  }

  lemma ShapeSnoc(s: Shape, n: nat, sels: seq<Sel>, sel: Sel)
    requires |s| == |sels|
    ensures SelShape(s + [n], sels + [sel]) == if sel.Pick? then SelShape(s, sels)
            else SelShape(s, sels) + [Count(n, sel)]
  {
    assert Init(s + [n]) == s && Init(sels + [sel]) == sels;
  }

  lemma PicksSnoc(s: Shape, n: nat, sels: seq<Sel>, sel: Sel)
    requires |s| == |sels|
    ensures PicksOk(s + [n], sels + [sel]) <==> PicksOk(s, sels) && PickOk(n, sel)
  {
    assert (s + [n])[|s|] == n && (sels + [sel])[|s|] == sel;
    assert forall a :: 0 <= a < |s| ==> (s + [n])[a] == s[a] && (sels + [sel])[a] == sels[a];
  }

  lemma IndexSnocPick(s: Shape, n: nat, sels: seq<Sel>, sel: Sel, idx: Index)
    requires PicksOk(s, sels) && PickOk(n, sel) && sel.Pick? && InRange(SelShape(s, sels), idx)
    ensures PicksOk(s + [n], sels + [sel]) && InRange(SelShape(s + [n], sels + [sel]), idx)
    ensures SelIndex(s + [n], sels + [sel], idx) == SelIndex(s, sels, idx) + [Axis(n, sel.i)]
  {
    ShapeSnoc(s, n, sels, sel);
    PicksSnoc(s, n, sels, sel);
    assert Init(s + [n]) == s && Init(sels + [sel]) == sels;
  }

  lemma IndexSnocRange(s: Shape, n: nat, sels: seq<Sel>, sel: Sel, idx: Index, i: nat)
    requires PicksOk(s, sels) && sel.Range? && InRange(SelShape(s, sels), idx) && i < Count(n, sel)
    ensures PicksOk(s + [n], sels + [sel]) && InRange(SelShape(s + [n], sels + [sel]), idx + [i])
    ensures SelIndex(s + [n], sels + [sel], idx + [i]) == SelIndex(s, sels, idx) + [Low(n, sel) + i]
  {
    ShapeSnoc(s, n, sels, sel);
    PicksSnoc(s, n, sels, sel);
    assert Init(s + [n]) == s && Init(sels + [sel]) == sels && Init(idx + [i]) == idx;
  }

  /** `t[sels]` with one entry per axis. */
  function Select(t: Tensor, sels: seq<Sel>): (r: Result<Tensor, Failure>)
    requires t.Valid()
    ensures r.Ok? ==> r.value.Valid() && PicksOk(t.shape, sels) && r.value.shape == SelShape(t.shape, sels)
  {
    if !PicksOk(t.shape, sels) then Err(Failed)
    else Ok(Tabulate(SelShape(t.shape, sels),
                     idx requires InRange(SelShape(t.shape, sels), idx) => t.At(SelIndex(t.shape, sels, idx))))
  }

  lemma SelectAt(t: Tensor, sels: seq<Sel>, idx: Index)
    requires t.Valid() && PicksOk(t.shape, sels) && InRange(SelShape(t.shape, sels), idx)
    ensures Select(t, sels).value.At(idx) == t.At(SelIndex(t.shape, sels, idx))
  {
    TabulateAt(SelShape(t.shape, sels),
               i requires InRange(SelShape(t.shape, sels), i) => t.At(SelIndex(t.shape, sels, i)), idx);
  }

  function Fulls(n: nat): (r: seq<Sel>)
    ensures |r| == n && forall a :: 0 <= a < n ==> r[a] == FULL
  {
    seq(n, _ => FULL)
  }

  /** Missing entries select whole axes. */
  function Padded(sels: seq<Sel>, n: nat): seq<Sel> {
    if |sels| < n then sels + Fulls(n - |sels|) else sels
  }

  // ---------------------------------------------------------------- indexing the factors

  /** Position `i` of an axis in A: broadcast axes have only position 0. */
  function ClipOne(n: nat, i: nat): nat { if n == 1 then 0 else i }

  /** Selecting with `selA` on an axis of A fits selecting with `sel` on the axis of B. */
  predicate AxisAgrees(nA: nat, selA: Sel, nB: nat, sel: Sel) {
    && (nA == nB || nA == 1)
    && (sel.Pick? <==> selA.Pick?)
    && PickOk(nA, selA) && PickOk(nB, sel)
    && (sel.Pick? ==> Axis(nA, selA.i) == ClipOne(nA, Axis(nB, sel.i)))
    && (sel.Range? ==> forall i: nat :: i < Count(nB, sel) ==>
          Low(nA, selA) + ClipOne(Count(nA, selA), i) == ClipOne(nA, Low(nB, sel) + i)
          && ClipOne(Count(nA, selA), i) < Count(nA, selA))
  }

  ghost predicate AxesAgree(sA: Shape, selsA: seq<Sel>, sB: Shape, sels: seq<Sel>) {
    && |sA| == |selsA| == |sB| == |sels|
    && forall a :: 0 <= a < |sA| ==> AxisAgrees(sA[a], selsA[a], sB[a], sels[a])
  }

  function ClipIndex(s: Shape, lead: Index): (c: Index)
    requires |lead| == |s|
    ensures |c| == |lead| && forall a :: 0 <= a < |lead| ==> c[a] == ClipOne(s[a], lead[a])
  {
    seq(|lead|, a requires 0 <= a < |lead| => ClipOne(s[a], lead[a]))
  }

  lemma {:induction false} SelShapesAlike(sA: Shape, selsA: seq<Sel>, sB: Shape, sels: seq<Sel>)
    requires AxesAgree(sA, selsA, sB, sels)
    ensures |SelShape(sA, selsA)| == |SelShape(sB, sels)| && PicksOk(sA, selsA) && PicksOk(sB, sels)
    decreases |sA|
  {
    if sA != [] { SelShapesAlike(Init(sA), Init(selsA), Init(sB), Init(sels)); }
  }

  lemma SameLengths(sA: Shape, selsA: seq<Sel>, sB: Shape, sels: seq<Sel>)
    requires AxesAgree(sA, selsA, sB, sels)
    ensures |sA| == |selsA| == |sB| == |sels|
  {
  }

  /** The last axis and the ones in front of it. */
  lemma AxesSnoc(sA: Shape, selsA: seq<Sel>, sB: Shape, sels: seq<Sel>)
    requires AxesAgree(sA, selsA, sB, sels) && |sA| == |selsA| == |sB| == |sels| > 0
    ensures AxesAgree(Init(sA), Init(selsA), Init(sB), Init(sels)) &&
            AxisAgrees(Last(sA), Last(selsA), Last(sB), Last(sels))
    ensures Last(sels).Pick? <==> Last(selsA).Pick?
    ensures sA == Init(sA) + [Last(sA)] && selsA == Init(selsA) + [Last(selsA)]
    ensures sB == Init(sB) + [Last(sB)] && sels == Init(sels) + [Last(sels)]
    ensures |Init(sA)| == |Init(selsA)| == |Init(sB)| == |Init(sels)| == |sA| - 1
  {
  }

  lemma InSnoc(s: Shape, n: nat, idx: Index)
    requires InRange(s + [n], idx)
    ensures idx != [] && idx == Init(idx) + [Last(idx)] && InRange(s, Init(idx)) && Last(idx) < n
  {
    assert (s + [n])[|s|] == n;
    assert forall a :: 0 <= a < |s| ==> (s + [n])[a] == s[a];
  }

  lemma SplitLast(s: Shape, n: nat, idx: Index) returns (init: Index, last: nat)
    requires InRange(s + [n], idx)
    ensures idx == init + [last] && InRange(s, init) && last < n
  {
    InSnoc(s, n, idx);
    init, last := Init(idx), Last(idx);
  }

  lemma LeadNothing(sA: Shape, selsA: seq<Sel>, sB: Shape, sels: seq<Sel>, lead: Index)
    requires |sA| == |selsA| == |sB| == |sels| == 0 && PicksOk(sA, selsA) && PicksOk(sB, sels) &&
             InRange(SelShape(sB, sels), lead)
    ensures |SelShape(sA, selsA)| == |lead|
    ensures var c := ClipIndex(SelShape(sA, selsA), lead);
            && InRange(SelShape(sA, selsA), c)
            && SelIndex(sA, selsA, c) == ClipIndex(sA, SelIndex(sB, sels, lead))
  {
  }

  lemma SelectedLength(s: Shape, sels: seq<Sel>, idx: Index)
    requires PicksOk(s, sels) && InRange(SelShape(s, sels), idx)
    ensures |SelIndex(s, sels, idx)| == |s| && |idx| == |SelShape(s, sels)|
  {
  }

  /** Clipping and selecting commute on the leading axes. */
  lemma {:induction false} LeadAgrees(sA: Shape, selsA: seq<Sel>, sB: Shape, sels: seq<Sel>, lead: Index)
    requires AxesAgree(sA, selsA, sB, sels) && PicksOk(sA, selsA) && PicksOk(sB, sels)
    requires |SelShape(sA, selsA)| == |SelShape(sB, sels)| && InRange(SelShape(sB, sels), lead)
    ensures |lead| == |SelShape(sA, selsA)| && |SelIndex(sB, sels, lead)| == |sA|
    ensures var c := ClipIndex(SelShape(sA, selsA), lead);
            && InRange(SelShape(sA, selsA), c)
            && SelIndex(sA, selsA, c) == ClipIndex(sA, SelIndex(sB, sels, lead))
    decreases |sA|
  {
    hide *;
    SameLengths(sA, selsA, sB, sels);
    SelectedLength(sB, sels, lead);
    if |sA| == 0 {
      LeadNothing(sA, selsA, sB, sels, lead);
    } else {
      AxesSnoc(sA, selsA, sB, sels);
      var sA', selsA', sB', sels' := Init(sA), Init(selsA), Init(sB), Init(sels);
      var nA, selA, nB, sel := Last(sA), Last(selsA), Last(sB), Last(sels);
      SelShapesAlike(sA', selsA', sB', sels');
      ShapeSnoc(sA', nA, selsA', selA);
      ShapeSnoc(sB', nB, sels', sel);
      if sel.Pick? {
        LeadAgrees(sA', selsA', sB', sels', lead);
        PickAgrees(sA', nA, selsA', selA, sB', nB, sels', sel, lead);
      } else {
        var lead', i := SplitLast(SelShape(sB', sels'), Count(nB, sel), lead);
        LeadAgrees(sA', selsA', sB', sels', lead');
        RangeAgrees(sA', nA, selsA', selA, sB', nB, sels', sel, lead', i);
      }
    }
  }

  lemma PickAgrees(
    sA: Shape, nA: nat, selsA: seq<Sel>, selA: Sel, sB: Shape, nB: nat, sels: seq<Sel>, sel: Sel, lead: Index)
    requires PicksOk(sA, selsA) && PicksOk(sB, sels) && |SelShape(sA, selsA)| == |SelShape(sB, sels)| && |sA| == |sB|
    requires InRange(SelShape(sB, sels), lead) && InRange(SelShape(sA, selsA), ClipIndex(SelShape(sA, selsA), lead))
    requires SelIndex(sA, selsA, ClipIndex(SelShape(sA, selsA), lead)) == ClipIndex(sA, SelIndex(sB, sels, lead))
    requires AxisAgrees(nA, selA, nB, sel) && sel.Pick?
    requires PicksOk(sA + [nA], selsA + [selA]) && PicksOk(sB + [nB], sels + [sel])
    requires SelShape(sA + [nA], selsA + [selA]) == SelShape(sA, selsA) &&
             SelShape(sB + [nB], sels + [sel]) == SelShape(sB, sels)
    ensures SelIndex(sA + [nA], selsA + [selA], ClipIndex(SelShape(sA, selsA), lead))
            == ClipIndex(sA + [nA], SelIndex(sB + [nB], sels + [sel], lead))
  {
    IndexSnocPick(sB, nB, sels, sel, lead);
    IndexSnocPick(sA, nA, selsA, selA, ClipIndex(SelShape(sA, selsA), lead));
    hide SelShape, SelIndex;
  }

  lemma RangeAgrees(
    sA: Shape, nA: nat, selsA: seq<Sel>, selA: Sel, sB: Shape, nB: nat, sels: seq<Sel>, sel: Sel, lead: Index, i: nat)
    requires PicksOk(sA, selsA) && PicksOk(sB, sels) && |SelShape(sA, selsA)| == |SelShape(sB, sels)| && |sA| == |sB|
    requires InRange(SelShape(sB, sels), lead) && InRange(SelShape(sA, selsA), ClipIndex(SelShape(sA, selsA), lead))
    requires SelIndex(sA, selsA, ClipIndex(SelShape(sA, selsA), lead)) == ClipIndex(sA, SelIndex(sB, sels, lead))
    requires AxisAgrees(nA, selA, nB, sel) && sel.Range? && i < Count(nB, sel)
    requires PicksOk(sA + [nA], selsA + [selA]) && PicksOk(sB + [nB], sels + [sel])
    requires SelShape(sA + [nA], selsA + [selA]) == SelShape(sA, selsA) + [Count(nA, selA)]
    requires SelShape(sB + [nB], sels + [sel]) == SelShape(sB, sels) + [Count(nB, sel)]
    ensures var c := ClipIndex(SelShape(sA, selsA) + [Count(nA, selA)], lead + [i]);
            && InRange(SelShape(sA + [nA], selsA + [selA]), c) && InRange(SelShape(sB + [nB], sels + [sel]), lead + [i])
            && SelIndex(sA + [nA], selsA + [selA], c) ==
               ClipIndex(sA + [nA], SelIndex(sB + [nB], sels + [sel], lead + [i]))
  {
    hide SelShape, SelIndex, PicksOk, InRange, AxisAgrees, Count, Low, ClipOne, ClipIndex;
    SameRank(sA, selsA, sB, sels, lead);
    RangeAt(nA, selA, nB, sel, i);
    var c := ClipIndex(SelShape(sA, selsA), lead);
    var j := ClipOne(Count(nA, selA), i);
    IndexSnocRange(sB, nB, sels, sel, lead, i);
    IndexSnocRange(sA, nA, selsA, selA, c, j);
    ClipSnoc(SelShape(sA, selsA), Count(nA, selA), lead, i);
    ClipSnoc(sA, nA, SelIndex(sB, sels, lead), Low(nB, sel) + i);
  }

  /** One position of a sliced axis. */
  lemma RangeAt(nA: nat, selA: Sel, nB: nat, sel: Sel, i: nat)
    requires AxisAgrees(nA, selA, nB, sel) && sel.Range? && i < Count(nB, sel)
    ensures selA.Range? && ClipOne(Count(nA, selA), i) < Count(nA, selA)
    ensures Low(nA, selA) + ClipOne(Count(nA, selA), i) == ClipOne(nA, Low(nB, sel) + i)
  {
    hide Count, Low;
  }

  lemma SameRank(sA: Shape, selsA: seq<Sel>, sB: Shape, sels: seq<Sel>, lead: Index)
    requires PicksOk(sA, selsA) && PicksOk(sB, sels) && |SelShape(sA, selsA)| == |SelShape(sB, sels)| && |sA| == |sB|
    requires InRange(SelShape(sB, sels), lead)
    ensures |sA| == |selsA| == |sB| == |sels|
    ensures |lead| == |SelShape(sA, selsA)| && |SelIndex(sB, sels, lead)| == |sA|
  {
    hide SelShape, SelIndex;
  }

  lemma ClipSnoc(s: Shape, n: nat, lead: Index, i: nat)
    requires |lead| == |s|
    ensures ClipIndex(s + [n], lead + [i]) == ClipIndex(s, lead) + [ClipOne(n, i)]
  {
    hide ClipOne;
  }

  // ---------------------------------------------------------------- one matrix per leading position

  lemma ShapeSnocTwo(s: Shape, n: nat, m: nat, sels: seq<Sel>, row: Sel, last: Sel)
    requires |s| == |sels| && row.Range? && last.Range?
    ensures SelShape(s + [n, m], sels + [row, last]) == SelShape(s, sels) + [Count(n, row), Count(m, last)]
    ensures PicksOk(s + [n, m], sels + [row, last]) <==> PicksOk(s, sels)
  {
    assert s + [n, m] == (s + [n]) + [m] && sels + [row, last] == (sels + [row]) + [last];
    ShapeSnoc(s, n, sels, row);
    ShapeSnoc(s + [n], m, sels + [row], last);
    PicksSnoc(s, n, sels, row);
    PicksSnoc(s + [n], m, sels + [row], last);
    hide SelShape, PicksOk;
  }

  lemma IndexSnocTwo(s: Shape, n: nat, m: nat, sels: seq<Sel>, row: Sel, last: Sel, idx: Index, i: nat, x: nat)
    requires PicksOk(s, sels) && row.Range? && last.Range? && InRange(SelShape(s, sels), idx)
    requires i < Count(n, row) && x < Count(m, last)
    ensures PicksOk(s + [n, m], sels + [row, last]) && InRange(SelShape(s + [n, m], sels + [row, last]), idx + [i, x])
    ensures SelIndex(s + [n, m], sels + [row, last], idx + [i, x])
            == SelIndex(s, sels, idx) + [Low(n, row) + i, Low(m, last) + x]
  {
    assert s + [n, m] == (s + [n]) + [m] && sels + [row, last] == (sels + [row]) + [last];
    assert idx + [i, x] == (idx + [i]) + [x];
    IndexSnocRange(s, n, sels, row, idx, i);
    IndexSnocRange(s + [n], m, sels + [row], last, idx + [i], x);
    hide SelShape, PicksOk, SelIndex;
  }

  /** Entries for all axes but the last two, and one slice for each of those. */
  datatype Cut = Cut(leadA: seq<Sel>, lead: seq<Sel>, row: Sel, last: Sel) {
    ghost predicate Suits(l: Lora) {
      && l.Fits() && row.Range? && last.Range?
      && AxesAgree(LeadAxes(l.A.shape), leadA, LeadAxes(l.B.shape), lead)
    }
    function OfA(): seq<Sel> { leadA + [FULL, last] }
    function OfB(): seq<Sel> { lead + [row, FULL] }
    function OfDense(): seq<Sel> { lead + [row, last] }
  }

  function LeadAxes(s: Shape): Shape
    requires |s| >= 2
  {
    s[..|s| - 2]
  }

  /** The three shapes, split into leading axes and the last two. */
  lemma SplitShapes(l: Lora)
    requires l.Fits()
    ensures l.A.shape == LeadAxes(l.A.shape) + [l.Rank(), l.RowSize()]
    ensures l.B.shape == LeadAxes(l.B.shape) + [Last(Init(l.B.shape)), l.Rank()]
    ensures l.Shape() == LeadAxes(l.B.shape) + [Last(Init(l.B.shape)), l.RowSize()]
  {
  }

  /** The shapes after the cut. */
  lemma CutShapes(l: Lora, c: Cut)
    requires l.Fits() && c.row.Range? && c.last.Range?
    requires PicksOk(LeadAxes(l.A.shape), c.leadA) && PicksOk(LeadAxes(l.B.shape), c.lead)
    ensures var n := Count(Last(Init(l.B.shape)), c.row);
            && PicksOk(l.A.shape, c.OfA()) && PicksOk(l.B.shape, c.OfB()) && PicksOk(l.Shape(), c.OfDense())
            && SelShape(l.A.shape, c.OfA()) ==
               SelShape(LeadAxes(l.A.shape), c.leadA) + [l.Rank(), Count(l.RowSize(), c.last)]
            && SelShape(l.B.shape, c.OfB()) == SelShape(LeadAxes(l.B.shape), c.lead) + [n, l.Rank()]
            && SelShape(l.Shape(), c.OfDense()) ==
               SelShape(LeadAxes(l.B.shape), c.lead) + [n, Count(l.RowSize(), c.last)]
  {
    SplitShapes(l);
    var sA, sB, n := LeadAxes(l.A.shape), LeadAxes(l.B.shape), Last(Init(l.B.shape));
    hide SelShape;
    ShapeSnocTwo(sA, l.Rank(), l.RowSize(), c.leadA, FULL, c.last);
    ShapeSnocTwo(sB, n, l.Rank(), c.lead, c.row, FULL);
    ShapeSnocTwo(sB, n, l.RowSize(), c.lead, c.row, c.last);
  }

  /** The factors that a product is made of. */
  lemma TermAt(l: Lora, idx: Index, r: nat, b: Index, a: Index)
    requires l.Fits() && InRange(l.Shape(), idx) && r < l.Rank()
    requires b == Init(idx) + [r] && a == ClipIndex(LeadAxes(l.A.shape), Init(Init(idx))) + [r, Last(idx)]
    ensures InRange(l.B.shape, b) && InRange(l.A.shape, a) && l.Term(idx, r) == Times(l.B.At(b), l.A.At(a))
  {
    l.IndicesInRange(idx, r);
    assert l.IndexA(idx, r) == a;
  }

  /** The element at `at` of a selection is the one at `from`. */
  ghost predicate Chosen(s: Shape, sels: seq<Sel>, at: Index, from: Index) {
    PicksOk(s, sels) && InRange(SelShape(s, sels), at) && SelIndex(s, sels, at) == from
  }

  /** Two more entries at the end. */
  function Ext(s: Index, x: nat, y: nat): Index { s + [x, y] }

  function ExtSels(s: seq<Sel>, x: Sel, y: Sel): seq<Sel> { s + [x, y] }

  lemma ChosenTwo(
    s: Shape, n: nat, m: nat, sels: seq<Sel>, row: Sel, last: Sel, lead: Index, i: nat, x: nat, from: Index)
    requires Chosen(s, sels, lead, from) && row.Range? && last.Range? && i < Count(n, row) && x < Count(m, last)
    ensures Chosen(Ext(s, n, m), ExtSels(sels, row, last), Ext(lead, i, x),
            Ext(from, Low(n, row) + i, Low(m, last) + x))
  {
    hide SelShape, SelIndex, InRange, PicksOk, Count, Low;
    IndexSnocTwo(s, n, m, sels, row, last, lead, i, x);
  }

  /** Clipping keeps what is chosen on the leading axes. */
  lemma ChosenLead(sA: Shape, selsA: seq<Sel>, sB: Shape, sels: seq<Sel>, lead: Index, from: Index)
    requires AxesAgree(sA, selsA, sB, sels) && PicksOk(sA, selsA) && Chosen(sB, sels, lead, from)
    requires |SelShape(sA, selsA)| == |SelShape(sB, sels)|
    ensures |lead| == |SelShape(sA, selsA)| && |from| == |sA|
    ensures Chosen(sA, selsA, ClipIndex(SelShape(sA, selsA), lead), ClipIndex(sA, from))
  {
    LeadAgrees(sA, selsA, sB, sels, lead);
    hide SelShape, SelIndex, AxesAgree, PicksOk, ClipIndex;
  }

  lemma FullRange(n: nat)
    ensures FULL.Range? && Low(n, FULL) == 0 && Count(n, FULL) == n
  {
  }

  /** Where an element of the dense tensor finds its factors. */
  ghost predicate Places(l: Lora, idx: Index, r: nat, b: Index, a: Index) {
    && l.Fits() && InRange(l.Shape(), idx) && r < l.Rank()
    && b == Init(idx) + [r] && a == ClipIndex(LeadAxes(l.A.shape), Init(Init(idx))) + [r, Last(idx)]
  }

  /** Selected factors give the same product. */
  lemma SameProduct(l: Lora, l': Lora, selsA: seq<Sel>, selsB: seq<Sel>, idx: Index, j: Index, r: nat,
                    b: Index, a: Index, fromB: Index, fromA: Index)
    requires Places(l', idx, r, b, a) && Places(l, j, r, fromB, fromA)
    requires Chosen(l.A.shape, selsA, a, fromA) && Chosen(l.B.shape, selsB, b, fromB)
    requires Select(l.A, selsA) == Ok(l'.A) && Select(l.B, selsB) == Ok(l'.B)
    ensures l'.Term(idx, r) == l.Term(j, r)
  {
    assert l.A.Valid() && l.B.Valid();
    SelectAt(l.B, selsB, b);
    SelectAt(l.A, selsA, a);
    hide Select, SelShape, SelIndex, Tensor.At, InRange, PicksOk, Lora.Fits, Lora.Term;
    TermAt(l', idx, r, b, a);
    TermAt(l, j, r, fromB, fromA);
  }

  lemma PlacesOf(l: Lora, sA: Shape, lead: Index, i: nat, x: nat, r: nat)
    requires l.Fits() && InRange(l.Shape(), Ext(lead, i, x)) && r < l.Rank() && |lead| == |sA|
    requires |l.A.shape| == |sA| + 2 && l.A.shape[..|sA|] == sA
    ensures Places(l, Ext(lead, i, x), r, Ext(lead, i, r), Ext(ClipIndex(sA, lead), r, x))
  {
    hide Lora.Fits, Lora.Shape, InRange;
    var idx := lead + [i, x];
    assert Init(idx) == lead + [i] && Init(Init(idx)) == lead && lead + [i] + [r] == lead + [i, r];
  }

  lemma CutEntries(c: Cut)
    ensures c.OfA() == ExtSels(c.leadA, FULL, c.last) && c.OfB() == ExtSels(c.lead, c.row, FULL)
    ensures c.OfDense() == ExtSels(c.lead, c.row, c.last)
  {
  }

  lemma TakeExt(t: Shape, s: Shape, n: nat, m: nat)
    requires t == Ext(s, n, m)
    ensures |t| == |s| + 2 && t[..|s|] == s
  {
  }

  /** A product of the cut factors is a product of the factors. */
  lemma CutTerm(
      l: Lora, c: Cut, l': Lora, sA: Shape, sB: Shape, n: nat, m: nat, rank: nat, lead: Index, i: nat, x: nat, r: nat,
                from: Index)
    requires l.Fits() && l.A.shape == Ext(sA, rank, m) && l.B.shape == Ext(sB, n, rank)
    requires c.row.Range? && c.last.Range? && AxesAgree(sA, c.leadA, sB, c.lead) && PicksOk(sA, c.leadA)
    requires Chosen(sB, c.lead, lead, from) && |SelShape(sA, c.leadA)| == |SelShape(sB, c.lead)|
    requires Select(l.A, c.OfA()) == Ok(l'.A) && Select(l.B, c.OfB()) == Ok(l'.B) && l'.Fits()
    requires l'.A.shape == Ext(SelShape(sA, c.leadA), rank, Count(m, c.last)) && l'.Rank() == l.Rank() == rank
    requires i < Count(n, c.row) && x < Count(m, c.last) && r < rank && InRange(l'.Shape(), Ext(lead, i, x))
    requires InRange(l.Shape(), Ext(from, Low(n, c.row) + i, Low(m, c.last) + x))
    ensures l'.Term(Ext(lead, i, x), r) == l.Term(Ext(from, Low(n, c.row) + i, Low(m, c.last) + x), r)
  {
    hide *;
    CutEntries(c);
    SameLengths(sA, c.leadA, sB, c.lead);
    FullRange(rank);
    ChosenLead(sA, c.leadA, sB, c.lead, lead, from);
    var clipped := ClipIndex(SelShape(sA, c.leadA), lead);
    ChosenTwo(sA, rank, m, c.leadA, FULL, c.last, clipped, r, x, ClipIndex(sA, from));
    ChosenTwo(sB, n, rank, c.lead, c.row, FULL, lead, i, r, from);
    TakeExt(l'.A.shape, SelShape(sA, c.leadA), rank, Count(m, c.last));
    TakeExt(l.A.shape, sA, rank, m);
    PlacesOf(l', SelShape(sA, c.leadA), lead, i, x, r);
    PlacesOf(l, sA, from, Low(n, c.row) + i, Low(m, c.last) + x, r);
    SameProduct(l, l', c.OfA(), c.OfB(), Ext(lead, i, x), Ext(from, Low(n, c.row) + i, Low(m, c.last) + x), r,
                Ext(lead, i, r), Ext(clipped, r, x), Ext(from, Low(n, c.row) + i, r),
                    Ext(ClipIndex(sA, from), r, Low(m, c.last) + x));
  }

  /** What `Make` and `Select` give for a cut of the factors. */
  ghost predicate IsCut(l: Lora, c: Cut, l': Lora) {
    c.Suits(l) && Select(l.A, c.OfA()) == Ok(l'.A) && Select(l.B, c.OfB()) == Ok(l'.B) && l'.Fits()
  }

  lemma CutDot(l: Lora, c: Cut, l': Lora, sA: Shape, sB: Shape, n: nat, m: nat, rank: nat, lead: Index, i: nat, x: nat,
               idx: Index, j: Index, from: Index)
    requires l.Fits() && l.A.shape == Ext(sA, rank, m) && l.B.shape == Ext(sB, n, rank)
    requires c.row.Range? && c.last.Range? && AxesAgree(sA, c.leadA, sB, c.lead) && PicksOk(sA, c.leadA)
    requires Chosen(sB, c.lead, lead, from) && |SelShape(sA, c.leadA)| == |SelShape(sB, c.lead)|
    requires Select(l.A, c.OfA()) == Ok(l'.A) && Select(l.B, c.OfB()) == Ok(l'.B) && l'.Fits()
    requires l'.A.shape == Ext(SelShape(sA, c.leadA), rank, Count(m, c.last)) && l'.Rank() == l.Rank() == rank
    requires i < Count(n, c.row) && x < Count(m, c.last) && idx == Ext(lead, i, x) && InRange(l'.Shape(), idx)
    requires j == Ext(from, Low(n, c.row) + i, Low(m, c.last) + x) && InRange(l.Shape(), j)
    ensures l'.Dense().At(idx) == l.Dense().At(j)
  {
    hide *;
    forall r | 0 <= r < rank ensures l'.Term(idx, r) == l.Term(j, r) {
      CutTerm(l, c, l', sA, sB, n, m, rank, lead, i, x, r, from);
    }
    SameTerms(l', idx, l, j, rank);
    l'.DenseAt(idx);
    l.DenseAt(j);
  }

  lemma LastTwo(idx: Index)
    requires |idx| >= 2
    ensures idx == Ext(Init(Init(idx)), Last(Init(idx)), Last(idx))
  {
  }

  lemma InExt(s: Shape, n: nat, m: nat, lead: Index, i: nat, x: nat)
    requires InRange(Ext(s, n, m), Ext(lead, i, x)) && |lead| == |s|
    ensures InRange(s, lead) && i < n && x < m
  {
    assert (s + [n, m])[|s|] == n && (s + [n, m])[|s| + 1] == m;
    assert (lead + [i, x])[|s|] == i && (lead + [i, x])[|s| + 1] == x;
    assert forall a :: 0 <= a < |s| ==> lead[a] == (lead + [i, x])[a] && s[a] == (s + [n, m])[a];
  }

  /** All shapes as leading axes and two more. */
  ghost predicate Framed(l: Lora, c: Cut, l': Lora, sA: Shape, sB: Shape, n: nat, m: nat, rank: nat) {
    && l.Fits() && l'.Fits() && c.row.Range? && c.last.Range?
    && AxesAgree(sA, c.leadA, sB, c.lead) && PicksOk(sA, c.leadA) && PicksOk(sB, c.lead)
    && |c.lead| == |sB| && |c.leadA| == |sA| && |SelShape(sA, c.leadA)| == |SelShape(sB, c.lead)|
    && l.A.shape == Ext(sA, rank, m) && l.B.shape == Ext(sB, n, rank) && l.Shape() == Ext(sB, n, m)
    && l'.A.shape == Ext(SelShape(sA, c.leadA), rank, Count(m, c.last)) && l'.Rank() == l.Rank() == rank
    && l'.Shape() == Ext(SelShape(sB, c.lead), Count(n, c.row), Count(m, c.last))
    && c.OfDense() == ExtSels(c.lead, c.row, c.last)
  }

  lemma ShapeOfParts(l: Lora, sA: Shape, sB: Shape, n: nat, m: nat, rank: nat)
    requires l.A.shape == Ext(sA, rank, m) && l.B.shape == Ext(sB, n, rank)
    ensures l.A.shape != [] && l.B.shape != [] && l.Shape() == Ext(sB, n, m) && l.Rank() == rank
  {
  }

  lemma FrameOfFactors(l: Lora)
    requires l.Fits()
    ensures l.A.shape == Ext(LeadAxes(l.A.shape), l.Rank(), l.RowSize())
    ensures l.B.shape == Ext(LeadAxes(l.B.shape), Last(Init(l.B.shape)), l.Rank())
  {
    SplitShapes(l);
  }

  lemma FrameOfCut(l: Lora, c: Cut, l': Lora)
    requires IsCut(l, c, l') && PicksOk(LeadAxes(l.A.shape), c.leadA) && PicksOk(LeadAxes(l.B.shape), c.lead)
    ensures l'.A.shape == Ext(SelShape(LeadAxes(l.A.shape), c.leadA), l.Rank(), Count(l.RowSize(), c.last))
    ensures l'.B.shape == Ext(SelShape(LeadAxes(l.B.shape), c.lead), Count(Last(Init(l.B.shape)), c.row), l.Rank())
  {
    CutShapes(l, c);
    hide SelShape, PicksOk, Count;
  }

  lemma CutOk(l: Lora, c: Cut)
    requires c.Suits(l)
    ensures var sA, sB := LeadAxes(l.A.shape), LeadAxes(l.B.shape);
            && AxesAgree(sA, c.leadA, sB, c.lead) && PicksOk(sA, c.leadA) && PicksOk(sB, c.lead)
            && |c.lead| == |sB| && |c.leadA| == |sA| && |SelShape(sA, c.leadA)| == |SelShape(sB, c.lead)|
            && c.OfDense() == ExtSels(c.lead, c.row, c.last)
  {
    SelShapesAlike(LeadAxes(l.A.shape), c.leadA, LeadAxes(l.B.shape), c.lead);
    hide SelShape;
  }

  lemma Frame(l: Lora, c: Cut, l': Lora)
    requires IsCut(l, c, l')
    ensures Framed(l, c, l', LeadAxes(l.A.shape), LeadAxes(l.B.shape), Last(Init(l.B.shape)), l.RowSize(), l.Rank())
  {
    var sA, sB, n, m, rank := LeadAxes(l.A.shape), LeadAxes(l.B.shape), Last(Init(l.B.shape)), l.RowSize(), l.Rank();
    CutOk(l, c);
    hide SelShape, PicksOk, Count, Ext, ExtSels, LeadAxes, AxesAgree, Lora.Rank, Lora.RowSize, Lora.Shape, Select,
        Lora.Fits, Low;
    FrameOfFactors(l);
    FrameOfCut(l, c, l');
    ShapeOfParts(l, sA, sB, n, m, rank);
    ShapeOfParts(l', SelShape(sA, c.leadA), SelShape(sB, c.lead), Count(n, c.row), Count(m, c.last), rank);
  }

  lemma CutElement(l: Lora, c: Cut, l': Lora, idx: Index)
    requires IsCut(l, c, l') && InRange(l'.Shape(), idx)
    requires PicksOk(l.Shape(), c.OfDense()) && l'.Shape() == SelShape(l.Shape(), c.OfDense())
    ensures l'.Dense().At(idx) == l.Dense().At(SelIndex(l.Shape(), c.OfDense(), idx))
  {
    Frame(l, c, l');
    var sA, sB, n, m, rank := LeadAxes(l.A.shape), LeadAxes(l.B.shape), Last(Init(l.B.shape)), l.RowSize(), l.Rank();
    assert |idx| == |l'.Shape()| == |SelShape(sB, c.lead)| + 2;
    var lead, i, x := Init(Init(idx)), Last(Init(idx)), Last(idx);
    hide SelShape, SelIndex, PicksOk, InRange, AxesAgree, Count, Low, Select, Lora.Shape, Lora.Dense, Tensor.At,
        Lora.Fits, Ext, ExtSels,
         Lora.Rank, LeadAxes;
    LastTwo(idx);
    ElementOf(l, c, l', sA, sB, n, m, rank, lead, i, x, idx);
  }

  lemma NotScalar(l: Lora)
    requires l.Fits()
    ensures l.A.shape != [] && l.B.shape != []
  {
  }

  lemma ElementOf(
    l: Lora, c: Cut, l': Lora, sA: Shape, sB: Shape, n: nat, m: nat, rank: nat, lead: Index, i: nat, x: nat, idx: Index)
    requires IsCut(l, c, l') && Framed(l, c, l', sA, sB, n, m, rank) && idx == Ext(lead, i, x) &&
             InRange(l'.Shape(), idx)
    requires |lead| == |SelShape(sB, c.lead)|
    requires PicksOk(l.Shape(), c.OfDense()) && InRange(SelShape(l.Shape(), c.OfDense()), idx)
    ensures l'.Dense().At(idx) == l.Dense().At(SelIndex(l.Shape(), c.OfDense(), idx))
  {
    hide SelShape, SelIndex, PicksOk, InRange, AxesAgree, Count, Low, Select, Lora.Shape, Lora.Dense, Tensor.At,
        Lora.Fits, Ext, ExtSels,
         Lora.Rank;
    NotScalar(l);
    InExt(SelShape(sB, c.lead), Count(n, c.row), Count(m, c.last), lead, i, x);
    var from := SelIndex(sB, c.lead, lead);
    assert Chosen(sB, c.lead, lead, from);
    ChosenTwo(sB, n, m, c.lead, c.row, c.last, lead, i, x, from);
    CutDot(l, c, l', sA, sB, n, m, rank, lead, i, x, idx, SelIndex(l.Shape(), c.OfDense(), idx), from);
  }

  lemma CutShape(l: Lora, c: Cut, l': Lora)
    requires IsCut(l, c, l')
    ensures PicksOk(l.Shape(), c.OfDense()) && l'.Shape() == SelShape(l.Shape(), c.OfDense())
  {
    hide SelShape, PicksOk, Count, Ext, ExtSels, LeadAxes, AxesAgree, Lora.Rank, Lora.RowSize, Lora.Shape, Select,
        Lora.Fits, Low;
    Frame(l, c, l');
    CutOk(l, c);
    CutDenseShape(l, c);
  }

  lemma CutDenseShape(l: Lora, c: Cut)
    requires l.Fits() && c.row.Range? && c.last.Range?
    requires PicksOk(LeadAxes(l.A.shape), c.leadA) && PicksOk(LeadAxes(l.B.shape), c.lead)
    ensures PicksOk(l.Shape(), c.OfDense())
    ensures SelShape(l.Shape(), c.OfDense())
            == Ext(SelShape(LeadAxes(l.B.shape), c.lead), Count(Last(Init(l.B.shape)), c.row),
                Count(l.RowSize(), c.last))
  {
    hide SelShape, PicksOk, Count;
    CutShapes(l, c);
  }

  /** Cutting the factors cuts the dense tensor. */
  lemma CutCommutes(l: Lora, c: Cut, l': Lora)
    requires IsCut(l, c, l')
    ensures Select(l.Dense(), c.OfDense()) == Ok(l'.Dense())
  {
    CutShape(l, c, l');
    var d := Select(l.Dense(), c.OfDense()).value;
    hide Select, SelShape, SelIndex, PicksOk, Lora.Shape, Lora.Fits, Lora.Dense, Tensor.At, Count;
    forall idx | InRange(d.shape, idx) ensures d.At(idx) == l'.Dense().At(idx) {
      CutElement(l, c, l', idx);
      SelectAt(l.Dense(), c.OfDense(), idx);
    }
    SameElements(d, l'.Dense());
  }

  // ---------------------------------------------------------------- __getitem__

  /** `t[sel]` and `t[sels]`. */
  datatype Key = Single(sel: Sel) | Entries(sels: seq<Sel>) {
    function For(n: nat): seq<Sel> { Padded(if Single? then [sel] else sels, n) }
  }

  function PairOf(a: Result<Tensor, Failure>, b: Result<Tensor, Failure>): Result<Lora, Failure> {
    if a.Ok? && b.Ok? then Make(a.value, b.value) else Err(Failed)
  }

  /** The leading entries that a tuple index uses on A: integers modulo the axis size, slices dropped. */
  function LeadOfA(s: Shape, lead: seq<Sel>): (r: Result<seq<Sel>, Failure>)
    ensures r.Ok? ==> |r.value| == |lead|
  {
    if exists a :: 0 <= a < |lead| && lead[a].Pick? && (a >= |s| || s[a] == 0) then Err(Failed)
    else Ok(seq(|lead|, a requires 0 <= a < |lead| => if lead[a].Pick? then Pick(lead[a].i % s[a]) else FULL))
  }

  function GetItem(l: Lora, key: Key): Result<Lora, Failure>
    requires l.Fits()
  {
    var full := key.For(l.Dims());
    if key.Single? then
      if l.Dims() > 2 then PairOf(Select(l.A, full), Select(l.B, full))
      else if key.sel.Pick? then Err(Failed)
      else PairOf(Ok(l.A), Select(l.B, full))
    else if key.sels == [] then Err(Failed)
    else
      var leadA := LeadOfA(l.A.shape, Init(Init(full)));
      if leadA.Err? then Err(Failed)
      else PairOf(Select(l.A, leadA.value + [FULL, Last(full)]), Select(l.B, Padded(Init(full), l.Dims())))
  }

  predicate TwoSlices(full: seq<Sel>) { |full| >= 2 && Last(full).Range? && Last(Init(full)).Range? }

  /** The entry that `__getitem__` uses on an axis of A, for an entry on the same axis of B. */
  predicate Corresponds(nA: nat, selA: Sel, nB: nat, sel: Sel) {
    && (nA == nB || nA == 1) && PickOk(nA, selA) && PickOk(nB, sel)
    && (if sel.Pick? then selA == sel || (nA > 0 && selA == Pick(sel.i % nA)) else selA == sel || selA == FULL)
  }

  ghost predicate AllCorrespond(sA: Shape, selsA: seq<Sel>, sB: Shape, sels: seq<Sel>) {
    && |sA| == |selsA| == |sB| == |sels|
    && forall a :: 0 <= a < |sA| ==> Corresponds(sA[a], selsA[a], sB[a], sels[a])
  }

  /** What is left of an axis of A has the size left of B's, or size 1. */
  predicate SizesAgree(nA: nat, selA: Sel, nB: nat, sel: Sel) {
    sel.Range? && selA.Range? ==> Count(nA, selA) == Count(nB, sel) || Count(nA, selA) == 1
  }

  ghost predicate AllSizesAgree(sA: Shape, selsA: seq<Sel>, sB: Shape, sels: seq<Sel>)
    requires |sA| == |selsA| == |sB| == |sels|
  {
    forall a :: 0 <= a < |sA| ==> SizesAgree(sA[a], selsA[a], sB[a], sels[a])
  }

  ghost predicate Broadcasts(s: Shape, t: Shape) {
    |s| == |t| && forall a :: 0 <= a < |s| ==> s[a] == t[a] || s[a] == 1
  }

  lemma CorrespondingAgrees(nA: nat, selA: Sel, nB: nat, sel: Sel)
    requires Corresponds(nA, selA, nB, sel) && SizesAgree(nA, selA, nB, sel)
    ensures AxisAgrees(nA, selA, nB, sel)
  {
    if sel.Pick? {
      if nA == nB { RemainderIsAxis(nA, sel.i); } else { assert sel.i % 1 == 0; }
    }
  }

  lemma RemainderIsAxis(n: nat, i: int)
    requires 0 - n <= i < n
    ensures i % n == Axis(n, i)
  {
    if i < 0 { DivModOf(0, n, i + n); assert (i + n) % n == i % n; }
  }

  lemma CorrespondSnoc(sA: Shape, selsA: seq<Sel>, sB: Shape, sels: seq<Sel>)
    requires AllCorrespond(sA, selsA, sB, sels) && sA != []
    ensures |sA| == |selsA| == |sB| == |sels|
    ensures sA == Init(sA) + [Last(sA)] && selsA == Init(selsA) + [Last(selsA)]
    ensures sB == Init(sB) + [Last(sB)] && sels == Init(sels) + [Last(sels)]
    ensures AllCorrespond(Init(sA), Init(selsA), Init(sB), Init(sels))
    ensures Corresponds(Last(sA), Last(selsA), Last(sB), Last(sels))
    ensures AllSizesAgree(sA, selsA, sB, sels) <==>
            AllSizesAgree(Init(sA), Init(selsA), Init(sB), Init(sels)) &&
            SizesAgree(Last(sA), Last(selsA), Last(sB), Last(sels))
  {
    hide Corresponds, SizesAgree;
  }

  lemma CorrespondKinds(nA: nat, selA: Sel, nB: nat, sel: Sel)
    requires Corresponds(nA, selA, nB, sel)
    ensures (sel.Pick? <==> selA.Pick?) && PickOk(nA, selA) && PickOk(nB, sel)
    ensures sel.Pick? ==> SizesAgree(nA, selA, nB, sel)
    ensures sel.Range? ==>
            (SizesAgree(nA, selA, nB, sel) <==> Count(nA, selA) == Count(nB, sel) || Count(nA, selA) == 1)
  {
    hide Count;
  }

  lemma NothingBroadcasts()
    ensures PicksOk([], []) && SelShape([], []) == [] && Broadcasts([], []) && AllSizesAgree([], [], [], [])
  {
  }

  /** The selected leading shapes still broadcast exactly if the sizes agree axis by axis. */
  lemma {:induction false} BroadcastsIff(sA: Shape, selsA: seq<Sel>, sB: Shape, sels: seq<Sel>)
    requires AllCorrespond(sA, selsA, sB, sels)
    ensures PicksOk(sA, selsA) && PicksOk(sB, sels)
    ensures |SelShape(sA, selsA)| == |SelShape(sB, sels)|
    ensures Broadcasts(SelShape(sA, selsA), SelShape(sB, sels)) <==> AllSizesAgree(sA, selsA, sB, sels)
    decreases |sA|
  {
    hide SelShape, AllSizesAgree, Corresponds, SizesAgree, Broadcasts, PicksOk, PickOk, Count, Init, Last;
    if sA == [] {
      NothingBroadcasts();
    } else {
      CorrespondSnoc(sA, selsA, sB, sels);
      var sA', selsA', sB', sels' := Init(sA), Init(selsA), Init(sB), Init(sels);
      var nA, selA, nB, sel := Last(sA), Last(selsA), Last(sB), Last(sels);
      CorrespondKinds(nA, selA, nB, sel);
      BroadcastsIff(sA', selsA', sB', sels');
      PicksSnoc(sA', nA, selsA', selA);
      PicksSnoc(sB', nB, sels', sel);
      ShapeSnoc(sA', nA, selsA', selA);
      ShapeSnoc(sB', nB, sels', sel);
      if sel.Range? {
        BroadcastsSnoc(SelShape(sA', selsA'), SelShape(sB', sels'), Count(nA, selA), Count(nB, sel));
      }
    }
  }

  lemma BroadcastsSnoc(s: Shape, t: Shape, n: nat, m: nat)
    ensures Broadcasts(s + [n], t + [m]) <==> Broadcasts(s, t) && (n == m || n == 1)
  {
    if Broadcasts(s + [n], t + [m]) {
      assert (s + [n])[|s|] == n && (t + [m])[|s|] == m;
      assert forall a :: 0 <= a < |s| ==> (s + [n])[a] == s[a] && (t + [m])[a] == t[a];
    }
  }

  lemma FullsSnoc(n: nat)
    ensures Fulls(n + 1) == Fulls(n) + [FULL]
  {
  }

  lemma {:induction false} FullShape(s: Shape)
    ensures PicksOk(s, Fulls(|s|)) && SelShape(s, Fulls(|s|)) == s
    decreases |s|
  {
    if s != [] {
      var s', n := Init(s), Last(s);
      assert s == s' + [n];
      FullShape(s');
      FullsSnoc(|s'|);
      hide Fulls;
      ShapeSnoc(s', n, Fulls(|s'|), FULL);
      hide SelShape;
    }
  }

  lemma {:induction false} FullIndex(s: Shape, idx: Index)
    requires InRange(s, idx) && PicksOk(s, Fulls(|s|)) && SelShape(s, Fulls(|s|)) == s
    ensures SelIndex(s, Fulls(|s|), idx) == idx
    decreases |s|
  {
    if s != [] {
      hide Fulls, SelShape, SelIndex, PicksOk, InRange, Low, Count;
      var s', n := Init(s), Last(s);
      assert s == s' + [n];
      InSnoc(s', n, idx);
      FullShape(s');
      FullIndex(s', Init(idx));
      FullsSnoc(|s'|);
      FullRange(n);
      IndexSnocRange(s', n, Fulls(|s'|), FULL, Init(idx), Last(idx));
    }
  }

  lemma SelectFull(t: Tensor)
    requires t.Valid()
    ensures Select(t, Fulls(|t.shape|)) == Ok(t)
  {
    var sels := Fulls(|t.shape|);
    FullShape(t.shape);
    hide SelShape, SelIndex, Tensor.At, PicksOk;
    forall idx | InRange(t.shape, idx) ensures Select(t, sels).value.At(idx) == t.At(idx) {
      FullIndex(t.shape, idx);
      SelectAt(t, sels, idx);
    }
    SameElements(Select(t, sels).value, t);
  }

  /** The entries that an index amounts to on the factors. */
  function CutOf(l: Lora, key: Key): (c: Cut)
    requires l.Fits() && |key.For(l.Dims())| == l.Dims()
  {
    var full := key.For(l.Dims());
    var lead := Init(Init(full));
    var leadA := LeadOfA(l.A.shape, lead);
    Cut(if key.Single? || leadA.Err? then lead else leadA.value, lead, Last(Init(full)), Last(full))
  }

  lemma EntriesAreCut(l: Lora, key: Key)
    requires l.Fits() && GetItem(l, key).Ok? && TwoSlices(key.For(l.Dims())) && key.Entries?
    ensures |key.For(l.Dims())| == l.Dims() && CutOf(l, key).OfDense() == key.For(l.Dims())
    ensures Select(l.A, CutOf(l, key).OfA()) == Ok(GetItem(l, key).value.A)
    ensures Select(l.B, CutOf(l, key).OfB()) == Ok(GetItem(l, key).value.B)
  {
    var n, full := l.Dims(), key.For(l.Dims());
    assert |l.A.shape| == n;
    hide SelShape, SelIndex, Select, Lora.Fits;
    LastSlices(full);
    assert |full| == n;
    assert Padded(Init(full), n) == Init(Init(full)) + [Last(Init(full)), FULL];
  }

  lemma BatchIsCut(l: Lora, key: Key)
    requires l.Fits() && GetItem(l, key).Ok? && TwoSlices(key.For(l.Dims())) && key.Single? && l.Dims() > 2
    ensures |key.For(l.Dims())| == l.Dims() && CutOf(l, key).OfDense() == key.For(l.Dims())
    ensures Select(l.A, CutOf(l, key).OfA()) == Ok(GetItem(l, key).value.A)
    ensures Select(l.B, CutOf(l, key).OfB()) == Ok(GetItem(l, key).value.B)
  {
    var full := key.For(l.Dims());
    hide SelShape, SelIndex, Select, Lora.Fits;
    LastSlices(full);
    assert Last(full) == FULL && Last(Init(full)) == FULL;
  }

  lemma RowEntries(l: Lora, key: Key)
    requires l.Fits() && key.Single? && l.Dims() == 2
    ensures var c := CutOf(l, key);
            key.For(2) == [key.sel, FULL] && c.OfDense() == [key.sel, FULL] && c.OfA() == [FULL, FULL] &&
                c.OfB() == [key.sel, FULL]
  {
    hide Lora.Fits;
    assert key.For(2) == [key.sel, FULL];
    hide Key.For;
    assert Init(Init(key.For(2))) == [];
  }

  lemma RowsAreCut(l: Lora, key: Key)
    requires l.Fits() && GetItem(l, key).Ok? && TwoSlices(key.For(l.Dims())) && key.Single? && l.Dims() == 2
    ensures |key.For(l.Dims())| == l.Dims() && CutOf(l, key).OfDense() == key.For(l.Dims())
    ensures Select(l.A, CutOf(l, key).OfA()) == Ok(GetItem(l, key).value.A)
    ensures Select(l.B, CutOf(l, key).OfB()) == Ok(GetItem(l, key).value.B)
  {
    assert l.A.Valid() && |l.A.shape| == 2;
    hide SelShape, SelIndex, Select, Lora.Fits;
    RowEntries(l, key);
    SelectFull(l.A);
    assert Fulls(2) == [FULL, FULL];
  }

  lemma LastSlices(full: seq<Sel>)
    requires |full| >= 2
    ensures full == Init(Init(full)) + [Last(Init(full)), Last(full)]
  {
  }

  /** Indexing the factors selects from each of them. */
  lemma ItemIsCut(l: Lora, key: Key)
    requires l.Fits() && GetItem(l, key).Ok? && TwoSlices(key.For(l.Dims()))
    ensures |key.For(l.Dims())| == l.Dims() && CutOf(l, key).OfDense() == key.For(l.Dims())
    ensures Select(l.A, CutOf(l, key).OfA()) == Ok(GetItem(l, key).value.A)
    ensures Select(l.B, CutOf(l, key).OfB()) == Ok(GetItem(l, key).value.B)
  {
    assert l.Dims() >= 2;
    hide *;
    if key.Entries? { EntriesAreCut(l, key); } else if l.Dims() > 2 { BatchIsCut(l, key); } else { RowsAreCut(l, key); }
  }

  lemma EntriesCorrespond(l: Lora, key: Key)
    requires l.Fits() && GetItem(l, key).Ok? && TwoSlices(key.For(l.Dims()))
    ensures |key.For(l.Dims())| == l.Dims() && CutOf(l, key).row.Range? && CutOf(l, key).last.Range?
    ensures AllCorrespond(LeadAxes(l.A.shape), CutOf(l, key).leadA, LeadAxes(l.B.shape), CutOf(l, key).lead)
  {
    ItemIsCut(l, key);
    var c, sA, sB := CutOf(l, key), LeadAxes(l.A.shape), LeadAxes(l.B.shape);
    assert PicksOk(l.A.shape, c.OfA()) && PicksOk(l.B.shape, c.OfB());
    forall a | 0 <= a < |sA| ensures Corresponds(sA[a], c.leadA[a], sB[a], c.lead[a]) {
      assert c.OfA()[a] == c.leadA[a] && c.OfB()[a] == c.lead[a];
    }
  }

  /** Indexing the factors indexes the dense tensor. The result stands for a dense tensor exactly if
      every leading axis that is sliced keeps size 1 in A or is left with the same size in A and B. */
  lemma GetItemCommutes(l: Lora, key: Key)
    requires l.Fits() && GetItem(l, key).Ok? && TwoSlices(key.For(l.Dims()))
    ensures var l', c := GetItem(l, key).value, CutOf(l, key);
            && (l'.Fits() <==> AllSizesAgree(LeadAxes(l.A.shape), c.leadA, LeadAxes(l.B.shape), c.lead))
            && (l'.Fits() ==> Select(l.Dense(), key.For(l.Dims())) == Ok(l'.Dense()))
  {
    var l', c := GetItem(l, key).value, CutOf(l, key);
    var sA, sB := LeadAxes(l.A.shape), LeadAxes(l.B.shape);
    ItemIsCut(l, key);
    EntriesCorrespond(l, key);
    BroadcastsIff(sA, c.leadA, sB, c.lead);
    CutShapes(l, c);
    FitsIffBroadcasts(l', SelShape(sA, c.leadA), SelShape(sB, c.lead));
    hide GetItem, CutOf, Select, SelShape, PicksOk, Key.For;
    if l'.Fits() {
      forall a | 0 <= a < |sA| ensures AxisAgrees(sA[a], c.leadA[a], sB[a], c.lead[a]) {
        CorrespondingAgrees(sA[a], c.leadA[a], sB[a], c.lead[a]);
      }
      CutCommutes(l, c, l');
    }
  }

  lemma FitsIffBroadcasts(l: Lora, sA: Shape, sB: Shape)
    requires l.A.Valid() && l.B.Valid() && |l.A.shape| == |sA| + 2 && |l.B.shape| == |sB| + 2
    requires l.A.shape[..|sA|] == sA && l.B.shape[..|sB|] == sB && l.A.shape[|sA|] == l.B.shape[|sB| + 1]
    requires |sA| == |sB|
    ensures l.Fits() <==> Broadcasts(sA, sB)
  {
    assert forall a :: 0 <= a < |sA| ==> l.A.shape[a] == sA[a] && l.B.shape[a] == sB[a];
  }

  // ---------------------------------------------------------------- which indices are accepted

  /** What is left of the last two axes. */
  function Kept(row: Sel, last: Sel): nat { (if row.Pick? then 0 else 1) + (if last.Pick? then 0 else 1) }

  lemma KeptAxes(s: Shape, full: seq<Sel>)
    requires |s| == |full| >= 2
    ensures |SelShape(s, full)| == |SelShape(LeadAxes(s), Init(Init(full)))| + Kept(Last(Init(full)), Last(full))
  {
    var n, m := Last(Init(s)), Last(s);
    assert s == LeadAxes(s) + [n, m];
    LastSlices(full);
    assert s == (LeadAxes(s) + [n]) + [m] && full == (Init(Init(full)) + [Last(Init(full))]) + [Last(full)];
    ShapeSnoc(LeadAxes(s), n, Init(Init(full)), Last(Init(full)));
    ShapeSnoc(LeadAxes(s) + [n], m, Init(Init(full)) + [Last(Init(full))], Last(full));
    hide SelShape;
  }

  lemma {:induction false} SameKinds(s: Shape, selsA: seq<Sel>, t: Shape, sels: seq<Sel>)
    requires |s| == |selsA| == |t| == |sels| && forall a :: 0 <= a < |s| ==> (selsA[a].Pick? <==> sels[a].Pick?)
    ensures |SelShape(s, selsA)| == |SelShape(t, sels)|
    decreases |s|
  {
    if s != [] { SameKinds(Init(s), Init(selsA), Init(t), Init(sels)); }
  }

  /** The numbers of axes that a tuple index leaves in A and in B. */
  lemma TupleAxes(l: Lora, sels: seq<Sel>)
    requires l.Fits() && GetItem(l, Entries(sels)).Ok?
    ensures var l', full := GetItem(l, Entries(sels)).value, Padded(sels, l.Dims());
            && |full| == l.Dims()
            && var lead := |SelShape(LeadAxes(l.B.shape), Init(Init(full)))|;
            && |l'.A.shape| == lead + Kept(FULL, Last(full))
            && |l'.B.shape| == lead + Kept(Last(Init(full)), FULL)
  {
    var l', full, n := GetItem(l, Entries(sels)).value, Padded(sels, l.Dims()), l.Dims();
    var leadA := LeadOfA(l.A.shape, Init(Init(full))).value;
    var selsA, selsB := leadA + [FULL, Last(full)], Padded(Init(full), n);
    assert |l.A.shape| == n && |selsA| == n && |full| == n;
    assert selsB == Init(full) + [FULL];
    assert Init(Init(selsA)) == leadA && Last(Init(selsA)) == FULL && Last(selsA) == Last(full);
    assert Init(Init(selsB)) == Init(Init(full)) && Last(Init(selsB)) == Last(Init(full)) && Last(selsB) == FULL;
    SameKinds(LeadAxes(l.A.shape), leadA, LeadAxes(l.B.shape), Init(Init(full)));
    hide SelShape, SelIndex, PicksOk;
    KeptAxes(l.A.shape, selsA);
    KeptAxes(l.B.shape, selsB);
  }

  /** An accepted index leaves both of the last two axes, or takes an integer on both. */
  lemma AcceptedKeeps(l: Lora, key: Key)
    requires l.Fits() && GetItem(l, key).Ok?
    ensures var full := key.For(l.Dims());
            |full| == l.Dims() && (Last(full).Pick? <==> Last(Init(full)).Pick?)
  {
    if key.Entries? {
      TupleAxes(l, key.sels);
    } else {
      assert l.Dims() >= 2;
      hide Lora.Fits, Select;
    }
  }

  /** An integer on both of the last two axes is accepted when the sizes happen to agree; the result
      then has one axis more than the dense tensor. */
  lemma IntegersOnBoth(l: Lora, key: Key)
    requires l.Fits() && GetItem(l, key).Ok? && Last(key.For(l.Dims())).Pick? && |key.For(l.Dims())| >= 2
    ensures |key.For(l.Dims())| == l.Dims()
    ensures |GetItem(l, key).value.Shape()| == |SelShape(l.Shape(), key.For(l.Dims()))| + 1
  {
    AcceptedKeeps(l, key);
    var full := key.For(l.Dims());
    if key.Entries? {
      TupleAxes(l, key.sels);
      KeptAxes(l.Shape(), full);
      assert LeadAxes(l.Shape()) == LeadAxes(l.B.shape);
    }
  }

  /** Indexing the dense tensor with the same entries works, and on a stack of matrices A has the axis too. */
  ghost predicate Indexable(l: Lora, key: Key)
    requires l.Fits()
  {
    && key != Entries([]) && PicksOk(l.Shape(), key.For(l.Dims()))
    && (key.Single? ==> PickOk(l.A.shape[0], key.sel))
  }

  /** Of the indices that slice the last two axes, the factors accept exactly those the dense tensor
      accepts, except for an integer beyond a broadcast axis and the empty tuple. */
  lemma GetItemAcceptedIff(l: Lora, key: Key)
    requires l.Fits() && TwoSlices(key.For(l.Dims()))
    ensures GetItem(l, key).Ok? <==> Indexable(l, key)
  {
    if GetItem(l, key).Ok? { AcceptedIsIndexable(l, key); }
    if Indexable(l, key) {
      if key.Single? { SingleAccepted(l, key); } else { TupleAccepted(l, key); }
    }
  }

  lemma AcceptedIsIndexable(l: Lora, key: Key)
    requires l.Fits() && TwoSlices(key.For(l.Dims())) && GetItem(l, key).Ok?
    ensures Indexable(l, key)
  {
    var c, sA, sB := CutOf(l, key), LeadAxes(l.A.shape), LeadAxes(l.B.shape);
    ItemIsCut(l, key);
    EntriesCorrespond(l, key);
    BroadcastsIff(sA, c.leadA, sB, c.lead);
    CutShapes(l, c);
    if key.Single? && key.sel.Pick? {
      assert key.For(l.Dims())[0] == key.sel;
      assert l.Dims() > 2 && PicksOk(l.A.shape, key.For(l.Dims()));
    }
  }

  lemma LeadEntriesCorrespond(l: Lora, key: Key)
    requires l.Fits() && TwoSlices(key.For(l.Dims())) && Indexable(l, key)
    ensures |key.For(l.Dims())| == l.Dims() && CutOf(l, key).row.Range? && CutOf(l, key).last.Range?
    ensures LeadOfA(l.A.shape, Init(Init(key.For(l.Dims())))).Ok?
    ensures AllCorrespond(LeadAxes(l.A.shape), CutOf(l, key).leadA, LeadAxes(l.B.shape), CutOf(l, key).lead)
  {
    var full, c, sA, sB := key.For(l.Dims()), CutOf(l, key), LeadAxes(l.A.shape), LeadAxes(l.B.shape);
    forall a | 0 <= a < |sA| ensures PickOk(sB[a], full[a]) && (full[a].Pick? ==> sA[a] > 0) {
      assert l.Shape()[a] == sB[a] && PickOk(l.Shape()[a], full[a]);
    }
    forall a | 0 <= a < |sA| ensures Corresponds(sA[a], c.leadA[a], sB[a], c.lead[a]) {
      assert c.lead[a] == full[a];
    }
  }

  /** The cut of an indexable key selects from both factors, and the results fit as factors. */
  lemma IndexableCut(l: Lora, key: Key)
    requires l.Fits() && TwoSlices(key.For(l.Dims())) && Indexable(l, key)
    ensures |key.For(l.Dims())| == l.Dims()
    ensures var c := CutOf(l, key); PairOf(Select(l.A, c.OfA()), Select(l.B, c.OfB())).Ok?
    ensures LeadOfA(l.A.shape, Init(Init(key.For(l.Dims())))).Ok?
  {
    hide Indexable, TwoSlices, AllCorrespond, SelShape, PicksOk, CutOf, LeadOfA, Count;
    LeadEntriesCorrespond(l, key);
    var c := CutOf(l, key);
    BroadcastsIff(LeadAxes(l.A.shape), c.leadA, LeadAxes(l.B.shape), c.lead);
    CutShapes(l, c);
    PairFits(l, c);
  }

  lemma PairFits(l: Lora, c: Cut)
    requires l.Fits() && PicksOk(l.A.shape, c.OfA()) && PicksOk(l.B.shape, c.OfB())
    requires exists x: Shape, y: Shape, n: nat, m: nat {:trigger x + [l.Rank(), m], y + [n, l.Rank()]} ::
               |x| == |y| && SelShape(l.A.shape, c.OfA()) == x + [l.Rank(), m] &&
                   SelShape(l.B.shape, c.OfB()) == y + [n, l.Rank()]
    ensures PairOf(Select(l.A, c.OfA()), Select(l.B, c.OfB())).Ok?
  {
    hide SelShape, PicksOk;
  }

  lemma TupleEntries(full: seq<Sel>, n: nat)
    requires TwoSlices(full) && |full| == n
    ensures Padded(Init(full), n) == Init(Init(full)) + [Last(Init(full)), FULL]
  {
  }

  lemma TupleAccepted(l: Lora, key: Key)
    requires l.Fits() && TwoSlices(key.For(l.Dims())) && Indexable(l, key) && key.Entries?
    ensures GetItem(l, key).Ok?
  {
    hide SelShape, PicksOk, Padded, LeadOfA, Select, Lora.Fits, TwoSlices;
    IndexableCut(l, key);
    TupleEntries(key.For(l.Dims()), l.Dims());
  }

  lemma BatchEntries(l: Lora, key: Key)
    requires l.Fits() && key.Single? && l.Dims() > 2
    ensures |key.For(l.Dims())| == l.Dims()
    ensures CutOf(l, key).OfA() == key.For(l.Dims()) && CutOf(l, key).OfB() == key.For(l.Dims())
  {
    hide Lora.Fits;
    LastSlices(key.For(l.Dims()));
  }

  lemma SingleAccepted(l: Lora, key: Key)
    requires l.Fits() && TwoSlices(key.For(l.Dims())) && Indexable(l, key) && key.Single?
    ensures GetItem(l, key).Ok?
  {
    hide SelShape, PicksOk, Padded, CutOf, Select, Indexable;
    IndexableCut(l, key);
    if l.Dims() > 2 {
      BatchEntries(l, key);
    } else {
      RowEntries(l, key);
      RowIsSlice(key);
      SelectFull(l.A);
      FullsTwo();
    }
  }

  lemma FullsTwo()
    ensures Fulls(2) == [FULL, FULL]
  {
  }

  lemma RowIsSlice(key: Key)
    requires key.Single? && key.For(2) == [key.sel, FULL] && TwoSlices(key.For(2))
    ensures key.sel.Range?
  {
  }
}
