/**
  Stacking and concatenating LoRA tensors along the first axis: the `stack` and `cat` branches of
  `__torch_function__`, against the same operations on dense tensors.
  */
module LoraJoins {
  import opened Base
  import opened Tensors
  import opened LoraTensors
  import opened LoraSlices

  // ---------------------------------------------------------------- dense tensors

  /** `torch.stack` along a new first axis. */
  function Stack(ts: seq<Tensor>): (r: Result<Tensor, Failure>)
    requires forall t :: t in ts ==> t.Valid()
    ensures r.Ok? ==> r.value.Valid() && ts != [] && r.value.shape == [|ts|] + ts[0].shape
    ensures r.Ok? <==> ts != [] && forall i :: 0 <= i < |ts| ==> ts[i].shape == ts[0].shape
  {
    if ts == [] || exists i :: 0 <= i < |ts| && ts[i].shape != ts[0].shape then Err(Failed)
    else Ok(Tabulate([|ts|] + ts[0].shape,
                     idx requires InRange([|ts|] + ts[0].shape, idx) => InStack(ts, idx); ts[idx[0]].At(idx[1..])))
  }

  lemma InStack(ts: seq<Tensor>, idx: Index)
    requires ts != [] && (forall i :: 0 <= i < |ts| ==> ts[i].shape == ts[0].shape) &&
             InRange([|ts|] + ts[0].shape, idx)
    ensures idx[0] < |ts| && InRange(ts[idx[0]].shape, idx[1..])
  {
    assert idx[0] < ([|ts|] + ts[0].shape)[0];
    forall a | 0 <= a < |ts[0].shape| ensures idx[1..][a] < ts[0].shape[a] {
      assert ([|ts|] + ts[0].shape)[a + 1] == ts[0].shape[a];
    }
  }

  lemma StackAt(ts: seq<Tensor>, i: nat, idx: Index)
    requires (forall t :: t in ts ==> t.Valid()) && Stack(ts).Ok? && i < |ts| && InRange(ts[0].shape, idx)
    ensures InRange(Stack(ts).value.shape, [i] + idx) && ts[i].shape == ts[0].shape
    ensures Stack(ts).value.At([i] + idx) == ts[i].At(idx)
  {
    TabulateAt([|ts|] + ts[0].shape,
               j requires InRange([|ts|] + ts[0].shape, j) => InStack(ts, j); ts[j[0]].At(j[1..]), [i] + idx);
    assert ([i] + idx)[1..] == idx;
  }

  function Sum(sizes: seq<nat>): nat {
    if sizes == [] then 0 else sizes[0] + Sum(sizes[1..])
  }

  /** The part that position `k` of the joined axis falls into, and the position in that part. */
  function Locate(sizes: seq<nat>, k: nat): (p: (nat, nat))
    requires k < Sum(sizes)
    ensures p.0 < |sizes| && p.1 < sizes[p.0] && k == Sum(sizes[..p.0]) + p.1
  {
    if k < sizes[0] then (0, k)
    else
      var p := Locate(sizes[1..], k - sizes[0]);
      assert sizes[..p.0 + 1][1..] == sizes[1..][..p.0];
      (p.0 + 1, p.1)
  }

  function Sizes(ts: seq<Tensor>): (r: seq<nat>)
    requires forall t :: t in ts ==> t.shape != []
    ensures |r| == |ts| && forall i :: 0 <= i < |ts| ==> r[i] == ts[i].shape[0]
  {
    seq(|ts|, i requires 0 <= i < |ts| => ts[i].shape[0])
  }

  predicate Joinable(ts: seq<Tensor>) {
    && ts != [] && (forall t :: t in ts ==> t.Valid() && t.shape != [])
    && forall i :: 0 <= i < |ts| ==> ts[i].shape[1..] == ts[0].shape[1..]
  }

  function JoinedShape(ts: seq<Tensor>): Shape
    requires Joinable(ts)
  {
    [Sum(Sizes(ts))] + ts[0].shape[1..]
  }

  lemma InJoined(ts: seq<Tensor>, idx: Index)
    requires Joinable(ts) && InRange(JoinedShape(ts), idx)
    ensures idx[0] < Sum(Sizes(ts))
    ensures var (i, k) := Locate(Sizes(ts), idx[0]); InRange(ts[i].shape, [k] + idx[1..])
  {
    assert idx[0] < JoinedShape(ts)[0];
    var (i, k) := Locate(Sizes(ts), idx[0]);
    forall a | 0 <= a < |ts[i].shape| ensures |ts[i].shape| == |idx| && ([k] + idx[1..])[a] < ts[i].shape[a] {
      assert |ts[i].shape[1..]| == |ts[0].shape[1..]|;
      if a > 0 { assert ts[i].shape[a] == ts[i].shape[1..][a - 1] == JoinedShape(ts)[a]; }
    }
    assert |ts[i].shape[1..]| == |ts[0].shape[1..]|;
  }

  /** `torch.cat` along the first axis. */
  function Cat(ts: seq<Tensor>): (r: Result<Tensor, Failure>)
    requires forall t :: t in ts ==> t.Valid()
    ensures r.Ok? <==> Joinable(ts)
    ensures r.Ok? ==> r.value.Valid() && r.value.shape == JoinedShape(ts)
  {
    if !Joinable(ts) then Err(Failed)
    else Ok(Tabulate(JoinedShape(ts), idx requires InRange(JoinedShape(ts), idx) => JoinedElement(ts, idx)))
  }

  function JoinedElement(ts: seq<Tensor>, idx: Index): real
    requires Joinable(ts) && InRange(JoinedShape(ts), idx)
  {
    InJoined(ts, idx);
    var (i, k) := Locate(Sizes(ts), idx[0]);
    ts[i].At([k] + idx[1..])
  }

  lemma CatAt(ts: seq<Tensor>, idx: Index)
    requires Joinable(ts) && InRange(JoinedShape(ts), idx)
    ensures Cat(ts).value.At(idx) == JoinedElement(ts, idx)
  {
    TabulateAt(JoinedShape(ts), i requires InRange(JoinedShape(ts), i) => JoinedElement(ts, i), idx);
  }

  // ---------------------------------------------------------------- the factors

  ghost predicate AllFit(ls: seq<Lora>) { forall i :: 0 <= i < |ls| ==> ls[i].Fits() }

  function As(ls: seq<Lora>): (r: seq<Tensor>)
    ensures |r| == |ls| && forall i :: 0 <= i < |ls| ==> r[i] == ls[i].A
  {
    seq(|ls|, i requires 0 <= i < |ls| => ls[i].A)
  }

  function Bs(ls: seq<Lora>): (r: seq<Tensor>)
    ensures |r| == |ls| && forall i :: 0 <= i < |ls| ==> r[i] == ls[i].B
  {
    seq(|ls|, i requires 0 <= i < |ls| => ls[i].B)
  }

  function Denses(ls: seq<Lora>): (r: seq<Tensor>)
    requires AllFit(ls)
    ensures |r| == |ls| && forall i :: 0 <= i < |ls| ==> r[i] == ls[i].Dense()
  {
    seq(|ls|, i requires 0 <= i < |ls| => ls[i].Dense())
  }

  function StackLora(ls: seq<Lora>): Result<Lora, Failure>
    requires AllFit(ls)
  {
    PairOf(Stack(As(ls)), Stack(Bs(ls)))
  }

  function CatLora(ls: seq<Lora>): Result<Lora, Failure>
    requires AllFit(ls)
  {
    if ls == [] then Err(Failed)
    else if ls[0].Dims() > 2 then PairOf(Cat(As(ls)), Cat(Bs(ls)))
    else if forall i :: 0 <= i < |ls| ==> ls[i].A == ls[0].A then PairOf(Ok(ls[0].A), Cat(Bs(ls)))
    else Err(Failed)
  }

  // ---------------------------------------------------------------- stack

  /** `l'` has the shapes of `n` stacked copies of `l`. */
  ghost predicate StackedShapes(l': Lora, l: Lora, n: nat) {
    l.Fits() && l'.A.Valid() && l'.B.Valid() && l'.A.shape == [n] + l.A.shape && l'.B.shape == [n] + l.B.shape
  }

  lemma StackedFits(l': Lora, l: Lora, n: nat)
    requires StackedShapes(l', l, n)
    ensures l'.Fits() && l'.Shape() == [n] + l.Shape() && l'.Rank() == l.Rank()
  {
    forall a | 0 <= a < |l'.B.shape| - 2 ensures l'.A.shape[a] == l'.B.shape[a] || l'.A.shape[a] == 1 {
      if a > 0 { assert l'.A.shape[a] == l.A.shape[a - 1] && l'.B.shape[a] == l.B.shape[a - 1]; }
    }
    assert Init(l'.B.shape) == [n] + Init(l.B.shape);
  }

  lemma StackParts(ls: seq<Lora>, i: nat)
    requires AllFit(ls) && StackLora(ls).Ok? && i < |ls|
    ensures StackLora(ls).value == Lora(Stack(As(ls)).value, Stack(Bs(ls)).value) && Stack(As(ls)).Ok? &&
            Stack(Bs(ls)).Ok?
    ensures ls[i].A.shape == As(ls)[0].shape && ls[i].B.shape == Bs(ls)[0].shape
    ensures StackedShapes(StackLora(ls).value, ls[i], |ls|)
  {
    assert As(ls)[i] == ls[i].A && Bs(ls)[i] == ls[i].B;
  }

  lemma StackPlaces(l': Lora, l: Lora, n: nat, i: nat, idx: Index, r: nat, b: Index, a: Index)
    requires StackedShapes(l', l, n) && i < n && Places(l, idx, r, b, a)
    ensures Places(l', [i] + idx, r, [i] + b, [i] + a)
  {
    StackedFits(l', l, n);
    var lead, s := Init(Init(idx)), LeadAxes(l.A.shape);
    var idx' := [i] + idx;
    assert Init(idx') == [i] + Init(idx) && Init(Init(idx')) == [i] + lead && LeadAxes(l'.A.shape) == [n] + s;
    assert ClipIndex([n] + s, [i] + lead) == [i] + ClipIndex(s, lead);
    assert InRange(l'.Shape(), idx') by { InRangeCons(l.Shape(), idx, n, i); }
    hide Lora.Fits, Lora.Shape, InRange;
    assert Init(idx') + [r] == [i] + b;
    assert ClipIndex(LeadAxes(l'.A.shape), Init(Init(idx'))) + [r, Last(idx')] == [i] + a;
  }

  lemma InRangeCons(s: Shape, idx: Index, n: nat, i: nat)
    requires InRange(s, idx) && i < n
    ensures InRange([n] + s, [i] + idx)
  {
  }

  lemma StackTerm(ls: seq<Lora>, i: nat, idx: Index, r: nat)
    requires AllFit(ls) && StackLora(ls).Ok? && i < |ls| && InRange(ls[i].Shape(), idx) && r < ls[i].Rank()
    ensures StackLora(ls).value.Fits() && InRange(StackLora(ls).value.Shape(), [i] + idx) &&
            r < StackLora(ls).value.Rank()
    ensures StackLora(ls).value.Term([i] + idx, r) == ls[i].Term(idx, r)
  {
    var l', l := StackLora(ls).value, ls[i];
    StackParts(ls, i);
    StackedFits(l', l, |ls|);
    InRangeCons(l.Shape(), idx, |ls|, i);
    var b, a := Init(idx) + [r], ClipIndex(LeadAxes(l.A.shape), Init(Init(idx))) + [r, Last(idx)];
    hide Stack, Lora.Term, Tensor.At, Lora.Shape;
    StackPlaces(l', l, |ls|, i, idx, r, b, a);
    hide Lora.Fits;
    TermAt(l, idx, r, b, a);
    StackAt(As(ls), i, a);
    StackAt(Bs(ls), i, b);
    TermAt(l', [i] + idx, r, [i] + b, [i] + a);
  }

  lemma StackElement(ls: seq<Lora>, i: nat, idx: Index)
    requires AllFit(ls) && StackLora(ls).Ok? && i < |ls| && InRange(ls[i].Shape(), idx)
    ensures StackLora(ls).value.Fits() && InRange(StackLora(ls).value.Shape(), [i] + idx)
    ensures StackLora(ls).value.Dense().At([i] + idx) == ls[i].Dense().At(idx)
  {
    var l', l := StackLora(ls).value, ls[i];
    StackParts(ls, i);
    StackedFits(l', l, |ls|);
    InRangeCons(l.Shape(), idx, |ls|, i);
    hide StackLora, Lora.Term, Lora.Dense, Tensor.At, Lora.Shape, Lora.Fits, Stack;
    forall r | 0 <= r < l.Rank() ensures l'.Term([i] + idx, r) == l.Term(idx, r) { StackTerm(ls, i, idx, r); }
    SameTerms(l', [i] + idx, l, idx, l.Rank());
    l'.DenseAt([i] + idx);
    l.DenseAt(idx);
  }

  lemma StackShapes(ls: seq<Lora>)
    requires AllFit(ls) && StackLora(ls).Ok?
    ensures ls != [] && StackLora(ls).value.Fits() && Stack(Denses(ls)).Ok?
    ensures StackLora(ls).value.Shape() == [|ls|] + ls[0].Shape()
    ensures forall i :: 0 <= i < |ls| ==> ls[i].Shape() == ls[0].Shape()
  {
    forall i | 0 <= i < |ls| ensures Denses(ls)[i].shape == ls[i].Shape() == ls[0].Shape() {
      StackParts(ls, i);
      StackParts(ls, 0);
    }
    StackParts(ls, 0);
    StackedFits(StackLora(ls).value, ls[0], |ls|);
  }

  /** Stacking the factors stacks the dense tensors. */
  lemma StackCommutes(ls: seq<Lora>)
    requires AllFit(ls) && StackLora(ls).Ok?
    ensures StackLora(ls).value.Fits() && Stack(Denses(ls)) == Ok(StackLora(ls).value.Dense())
  {
    hide StackLora, Lora.Dense, Tensor.At, Lora.Shape, Lora.Fits, Stack;
    StackShapes(ls);
    var l', ds := StackLora(ls).value, Denses(ls);
    var d := Stack(ds).value;
    forall idx | InRange(d.shape, idx) ensures d.At(idx) == l'.Dense().At(idx) {
      var i, rest := idx[0], idx[1..];
      InStack(ds, idx);
      assert idx == [i] + rest;
      StackElement(ls, i, rest);
      StackAt(ds, i, rest);
    }
    SameElements(d, l'.Dense());
  }

  /** Equal ranks, and equal leading axes of A. */
  ghost predicate Alike(ls: seq<Lora>)
    requires AllFit(ls)
  {
    forall i :: 0 <= i < |ls| ==> ls[i].Rank() == ls[0].Rank() && LeadAxes(ls[i].A.shape) == LeadAxes(ls[0].A.shape)
  }

  /** The factors can be stacked exactly if the dense tensors can, the ranks are equal, and A has the
      same leading axes everywhere. */
  lemma StackAcceptedIff(ls: seq<Lora>)
    requires AllFit(ls)
    ensures StackLora(ls).Ok? <==> Stack(Denses(ls)).Ok? && Alike(ls)
  {
    if StackLora(ls).Ok? { StackShapes(ls); StackedAlike(ls); }
    if Stack(Denses(ls)).Ok? && Alike(ls) { AlikeStacks(ls); }
  }

  lemma StackedAlike(ls: seq<Lora>)
    requires AllFit(ls) && StackLora(ls).Ok?
    ensures Alike(ls)
  {
    forall i | 0 <= i < |ls|
      ensures ls[i].Rank() == ls[0].Rank() && LeadAxes(ls[i].A.shape) == LeadAxes(ls[0].A.shape)
    {
      StackParts(ls, i);
      StackParts(ls, 0);
    }
  }

  lemma AlikeStacks(ls: seq<Lora>)
    requires AllFit(ls) && Stack(Denses(ls)).Ok? && Alike(ls)
    ensures StackLora(ls).Ok?
  {
    forall i | 0 <= i < |ls| ensures As(ls)[i].shape == As(ls)[0].shape && Bs(ls)[i].shape == Bs(ls)[0].shape {
      assert Denses(ls)[i].shape == Denses(ls)[0].shape;
      assert ls[i].Shape() == ls[0].Shape();
      SameFactorShapes(ls[i], ls[0]);
    }
    var l := ls[0];
    var A, B := Stack(As(ls)).value, Stack(Bs(ls)).value;
    assert A.shape[|A.shape| - 2] == l.A.shape[|l.A.shape| - 2] && Last(B.shape) == Last(l.B.shape);
  }

  lemma SameFactorShapes(l: Lora, l': Lora)
    requires l.Fits() && l'.Fits() && l.Shape() == l'.Shape()
    requires l.Rank() == l'.Rank() && LeadAxes(l.A.shape) == LeadAxes(l'.A.shape)
    ensures l.A.shape == l'.A.shape && l.B.shape == l'.B.shape
  {
    var n := |l.Shape()|;
    assert |l'.Shape()| == n;
    forall a | 0 <= a < n - 1 ensures l.B.shape[a] == l'.B.shape[a] {
      assert l.Shape()[a] == l.B.shape[a] && l'.Shape()[a] == l'.B.shape[a];
    }
    forall a | 0 <= a < n - 2 ensures l.A.shape[a] == l'.A.shape[a] {
      assert LeadAxes(l.A.shape)[a] == l.A.shape[a] && LeadAxes(l'.A.shape)[a] == l'.A.shape[a];
    }
    assert Last(l.Shape()) == Last(l.A.shape) && Last(l'.Shape()) == Last(l'.A.shape);
  }

  // ---------------------------------------------------------------- cat

  lemma CatOne(t: Tensor)
    requires t.Valid() && t.shape != []
    ensures Cat([t]) == Ok(t)
  {
    var ts := [t];
    assert Sizes(ts) == [t.shape[0]] && Sum([t.shape[0]][1..]) == 0;
    var d := Cat(ts).value;
    assert d.shape == t.shape;
    forall idx | InRange(t.shape, idx) ensures d.At(idx) == t.At(idx) {
      CatAt(ts, idx);
      assert [idx[0]] + idx[1..] == idx;
    }
    SameElements(d, t);
  }

  /** `l` is one of the parts that were joined to `l'`. */
  ghost predicate PartShapes(l': Lora, l: Lora) {
    && l.Fits() && l'.Fits() && |l.A.shape| == |l'.A.shape|
    && l.A.shape[1..] == l'.A.shape[1..] && l.B.shape[1..] == l'.B.shape[1..]
    && l.A.shape[0] == l.B.shape[0] && l'.A.shape[0] == l'.B.shape[0]
  }

  lemma ClipTail(s: Shape, s': Shape, lead: Index, k: nat)
    requires s != [] && s' != [] && s[1..] == s'[1..] && |lead| == |s'| && k < s[0]
    ensures |[k] + lead[1..]| == |s| && ClipIndex(s, [k] + lead[1..]) == [k] + ClipIndex(s', lead)[1..]
  {
    assert |s| == |s[1..]| + 1 && |s'| == |s'[1..]| + 1;
    assert forall j :: 1 <= j < |s| ==> s[j] == s[1..][j - 1] == s'[j];
  }

  lemma TailOfLead(s: Shape, s': Shape)
    requires |s| == |s'| >= 3 && s[1..] == s'[1..]
    ensures LeadAxes(s)[1..] == LeadAxes(s')[1..]
  {
    assert LeadAxes(s)[1..] == s[1..][..|s| - 3] && LeadAxes(s')[1..] == s'[1..][..|s| - 3];
  }

  lemma NewHead(idx: Index, k: nat)
    requires |idx| >= 3
    ensures var idx' := [k] + idx[1..];
            Init(idx') == [k] + Init(idx)[1..] && Init(Init(idx')) == [k] + Init(Init(idx))[1..] &&
                Last(idx') == Last(idx)
  {
  }

  lemma SameTailPlaces(l: Lora, idx: Index, r: nat, lead: Index, clipped: Index, init: Index)
    requires l.Fits() && InRange(l.Shape(), idx) && r < l.Rank()
    requires init == Init(idx) && lead == Init(Init(idx)) && clipped == ClipIndex(LeadAxes(l.A.shape), lead)
    ensures Places(l, idx, r, init + [r], clipped + [r, Last(idx)])
  {
  }

  lemma BatchPlaces(l': Lora, l: Lora, idx: Index, k: nat, r: nat, b: Index, a: Index)
    requires PartShapes(l', l) && l.Dims() > 2 && Places(l', idx, r, b, a) && k < l.B.shape[0]
    ensures a[0] == b[0] == idx[0]
    ensures Places(l, [k] + idx[1..], r, [k] + b[1..], [k] + a[1..])
  {
    var idx', lead, s, s' := [k] + idx[1..], Init(Init(idx)), LeadAxes(l.A.shape), LeadAxes(l'.A.shape);
    var clipped := ClipIndex(s', lead);
    assert idx[0] < l'.Shape()[0] == l'.A.shape[0] && s'[0] == l'.A.shape[0];
    assert l.Shape() != [] && l'.Shape() != [] && l.Shape()[0] == l.B.shape[0] && |lead| == |s'| &&
           l.Rank() == l'.Rank() by {
      assert Last(l.B.shape) == Last(l.B.shape[1..]) && Last(l'.B.shape) == Last(l'.B.shape[1..]);
    }
    PartTail(l', l);
    TailOfLead(l.A.shape, l'.A.shape);
    NewHead(idx, k);
    ClipTail(s, s', lead, k);
    InPart(l'.Shape(), l.Shape(), idx, k);
    hide Lora.Fits, Lora.Shape, InRange, ClipIndex, LeadAxes;
    SameTailPlaces(l, idx', r, [k] + lead[1..], [k] + clipped[1..], [k] + Init(idx)[1..]);
    assert [k] + b[1..] == [k] + Init(idx)[1..] + [r];
    assert [k] + a[1..] == [k] + clipped[1..] + [r, Last(idx)];
  }

  lemma InPart(s': Shape, s: Shape, idx: Index, k: nat)
    requires InRange(s', idx) && s != [] && s' != [] && s[1..] == s'[1..] && k < s[0]
    ensures InRange(s, [k] + idx[1..])
  {
    forall j | 0 <= j < |s| ensures |idx| == |s| && ([k] + idx[1..])[j] < s[j] {
      assert |s[1..]| == |s'[1..]|;
      if j > 0 { assert s[j] == s[1..][j - 1] == s'[j]; }
    }
    assert |s[1..]| == |s'[1..]|;
  }

  /** The leading axis has the same size in A and B. */
  ghost predicate EqualLead(ls: seq<Lora>)
    requires AllFit(ls)
  {
    forall i :: 0 <= i < |ls| ==> ls[i].A.shape[0] == ls[i].B.shape[0]
  }

  lemma BatchFits(ls: seq<Lora>)
    requires AllFit(ls) && CatLora(ls).Ok? && ls[0].Dims() > 2 && EqualLead(ls)
    ensures CatLora(ls).value == Lora(Cat(As(ls)).value, Cat(Bs(ls)).value) && Joinable(As(ls)) && Joinable(Bs(ls))
    ensures Sizes(As(ls)) == Sizes(Bs(ls)) && CatLora(ls).value.Fits()
  {
    var l', l := CatLora(ls).value, ls[0];
    assert As(ls)[0] == l.A && Bs(ls)[0] == l.B;
    forall i | 0 <= i < |ls| ensures Sizes(As(ls))[i] == Sizes(Bs(ls))[i] {
      assert As(ls)[i] == ls[i].A && Bs(ls)[i] == ls[i].B;
    }
    assert Sizes(As(ls)) == Sizes(Bs(ls));
    assert l'.A.shape[1..] == l.A.shape[1..] && l'.B.shape[1..] == l.B.shape[1..];
    assert |l'.A.shape| == |l.A.shape| && |l'.B.shape| == |l.B.shape|;
    assert forall a :: 1 <= a < |l.A.shape| ==>
           l'.A.shape[a] == l'.A.shape[1..][a - 1] && l.A.shape[a] == l.A.shape[1..][a - 1];
    assert forall a :: 1 <= a < |l.B.shape| ==>
           l'.B.shape[a] == l'.B.shape[1..][a - 1] && l.B.shape[a] == l.B.shape[1..][a - 1];
  }

  lemma BatchPart(ls: seq<Lora>, i: nat)
    requires AllFit(ls) && CatLora(ls).Ok? && ls[0].Dims() > 2 && EqualLead(ls) && i < |ls|
    ensures CatLora(ls).value.Fits() && PartShapes(CatLora(ls).value, ls[i]) && As(ls)[i] == ls[i].A &&
            Bs(ls)[i] == ls[i].B
    ensures ls[i].Dims() > 2 && CatLora(ls).value.Rank() == ls[i].Rank()
  {
    BatchFits(ls);
    var l', l := CatLora(ls).value, ls[i];
    assert l.A.shape[1..] == As(ls)[0].shape[1..] && l.B.shape[1..] == Bs(ls)[0].shape[1..];
    assert l'.A.shape[1..] == l.A.shape[1..] && l'.B.shape[1..] == l.B.shape[1..];
    assert |l'.A.shape| == |l'.A.shape[1..]| + 1 && |l.A.shape| == |l.A.shape[1..]| + 1;
    assert Last(l'.B.shape) == Last(l'.B.shape[1..]) && Last(l.B.shape) == Last(l.B.shape[1..]);
  }

  /** A product of concatenated factors is a product of the part that the position falls into. */
  lemma BatchTerm(ls: seq<Lora>, idx: Index, r: nat)
    requires AllFit(ls) && CatLora(ls).Ok? && ls[0].Dims() > 2 && EqualLead(ls)
    requires CatLora(ls).value.Fits() && InRange(CatLora(ls).value.Shape(), idx) && r < CatLora(ls).value.Rank()
    ensures idx[0] < Sum(Sizes(Bs(ls)))
    ensures var (i, k) := Locate(Sizes(Bs(ls)), idx[0]);
            && InRange(ls[i].Shape(), [k] + idx[1..]) && r < ls[i].Rank()
            && CatLora(ls).value.Term(idx, r) == ls[i].Term([k] + idx[1..], r)
  {
    BatchFits(ls);
    var l' := CatLora(ls).value;
    var b, a := Init(idx) + [r], ClipIndex(LeadAxes(l'.A.shape), Init(Init(idx))) + [r, Last(idx)];
    TermAt(l', idx, r, b, a);
    assert idx[0] < l'.Shape()[0] == l'.B.shape[0];
    var (i, k) := Locate(Sizes(Bs(ls)), idx[0]);
    BatchPart(ls, i);
    var l := ls[i];
    BatchPlaces(l', l, idx, k, r, b, a);
    CatAt(As(ls), a);
    CatAt(Bs(ls), b);
    hide CatLora, Cat, Lora.Term, Lora.Fits, Lora.Shape, Tensor.At, Locate, InRange;
    TermAt(l, [k] + idx[1..], r, [k] + b[1..], [k] + a[1..]);
  }

  /** The element of `l'` at `idx` is made of the products of one part. */
  ghost predicate TermsOfPart(ls: seq<Lora>, l': Lora, idx: Index)
    requires AllFit(ls) && l'.Fits() && InRange(l'.Shape(), idx)
  {
    && idx[0] < Sum(Sizes(Bs(ls)))
    && var (i, k) := Locate(Sizes(Bs(ls)), idx[0]);
    && InRange(ls[i].Shape(), [k] + idx[1..]) && ls[i].Rank() == l'.Rank()
    && forall r :: 0 <= r < l'.Rank() ==> l'.Term(idx, r) == ls[i].Term([k] + idx[1..], r)
  }

  lemma DenseSizes(ls: seq<Lora>)
    requires AllFit(ls)
    ensures Sizes(Denses(ls)) == Sizes(Bs(ls))
  {
    forall i | 0 <= i < |ls| ensures Sizes(Denses(ls))[i] == Sizes(Bs(ls))[i] {
      assert Denses(ls)[i].shape == ls[i].Shape() && Bs(ls)[i] == ls[i].B && ls[i].Shape()[0] == ls[i].B.shape[0];
    }
  }

  lemma PartElement(ls: seq<Lora>, l': Lora, idx: Index)
    requires AllFit(ls) && l'.Fits() && InRange(l'.Shape(), idx) && TermsOfPart(ls, l', idx)
    ensures var (i, k) := Locate(Sizes(Bs(ls)), idx[0]); l'.Dense().At(idx) == ls[i].Dense().At([k] + idx[1..])
  {
    var (i, k) := Locate(Sizes(Bs(ls)), idx[0]);
    hide Lora.Dense, Tensor.At, Lora.Term, Lora.Shape;
    SameTerms(l', idx, ls[i], [k] + idx[1..], l'.Rank());
    l'.DenseAt(idx);
    ls[i].DenseAt([k] + idx[1..]);
  }

  lemma JoinedDense(ls: seq<Lora>, l': Lora)
    requires AllFit(ls) && l'.Fits() && Joinable(Denses(ls)) && l'.Shape() == JoinedShape(Denses(ls))
    requires forall idx :: InRange(l'.Shape(), idx) ==> TermsOfPart(ls, l', idx)
    ensures Cat(Denses(ls)) == Ok(l'.Dense())
  {
    var ds := Denses(ls);
    var d := Cat(ds).value;
    DenseSizes(ls);
    hide Lora.Dense, Tensor.At, Lora.Fits, Lora.Shape, Joinable;
    forall idx | InRange(d.shape, idx) ensures d.At(idx) == l'.Dense().At(idx) {
      CatAt(ds, idx);
      InJoined(ds, idx);
      PartElement(ls, l', idx);
    }
    SameElements(d, l'.Dense());
  }

  lemma JoinableDenses(ls: seq<Lora>, l': Lora)
    requires AllFit(ls) && ls != [] && l'.Fits()
    requires forall i :: 0 <= i < |ls| ==> ls[i].Shape()[1..] == l'.Shape()[1..]
    requires l'.B.shape[0] == Sum(Sizes(Bs(ls)))
    ensures Joinable(Denses(ls)) && l'.Shape() == JoinedShape(Denses(ls))
  {
    DenseSizes(ls);
    hide Lora.Dense, Lora.Fits, Sum, Sizes;
    forall i | 0 <= i < |ls| ensures Denses(ls)[i].shape[1..] == l'.Shape()[1..] {
      assert Denses(ls)[i].shape == ls[i].Shape();
    }
    assert l'.Shape() == [l'.Shape()[0]] + l'.Shape()[1..];
    assert l'.Shape()[0] == l'.B.shape[0];
  }

  lemma PartTail(l': Lora, l: Lora)
    requires l'.Fits() && l.Fits() && |l.A.shape| == |l'.A.shape|
    requires l.A.shape[1..] == l'.A.shape[1..] && l.B.shape[1..] == l'.B.shape[1..]
    ensures l.Shape()[1..] == l'.Shape()[1..]
  {
    forall a | 1 <= a < |l.Shape()| - 1 ensures |l.Shape()| == |l'.Shape()| && l.Shape()[a] == l'.Shape()[a] {
      assert l.B.shape[a] == l.B.shape[1..][a - 1] == l'.B.shape[a];
    }
    assert Last(l.A.shape) == Last(l.A.shape[1..]) && Last(l'.A.shape) == Last(l'.A.shape[1..]);
  }

  /** Concatenating stacks of matrices whose leading axes have equal sizes in A and B concatenates the
      dense tensors. */
  lemma CatBatchesCommutes(ls: seq<Lora>)
    requires AllFit(ls) && CatLora(ls).Ok? && ls[0].Dims() > 2 && EqualLead(ls)
    ensures CatLora(ls).value.Fits() && Cat(Denses(ls)) == Ok(CatLora(ls).value.Dense())
  {
    var l' := CatLora(ls).value;
    BatchFits(ls);
    forall i | 0 <= i < |ls| ensures ls[i].Shape()[1..] == l'.Shape()[1..] {
      BatchPart(ls, i);
      PartTail(l', ls[i]);
    }
    assert l'.B.shape[0] == Sum(Sizes(Bs(ls)));
    hide CatLora, Cat, Lora.Fits, Lora.Term, Lora.Shape, Lora.Dense, EqualLead;
    JoinableDenses(ls, l');
    forall idx | InRange(l'.Shape(), idx) ensures TermsOfPart(ls, l', idx) { BatchTerms(ls, idx); }
    JoinedDense(ls, l');
  }

  lemma BatchTerms(ls: seq<Lora>, idx: Index)
    requires AllFit(ls) && CatLora(ls).Ok? && ls[0].Dims() > 2 && EqualLead(ls)
    requires CatLora(ls).value.Fits() && InRange(CatLora(ls).value.Shape(), idx)
    ensures TermsOfPart(ls, CatLora(ls).value, idx)
  {
    var l' := CatLora(ls).value;
    BatchFits(ls);
    assert idx[0] < l'.Shape()[0] == l'.B.shape[0];
    var (i, k) := Locate(Sizes(Bs(ls)), idx[0]);
    BatchPart(ls, i);
    PartTail(l', ls[i]);
    hide CatLora, Cat, Lora.Term, EqualLead, Locate;
    InPart(l'.Shape(), ls[i].Shape(), idx, k);
    forall r | 0 <= r < l'.Rank() ensures l'.Term(idx, r) == ls[i].Term([k] + idx[1..], r) { BatchTerm(ls, idx, r); }
  }

  lemma CatSingle(ls: seq<Lora>)
    requires AllFit(ls) && |ls| == 1 && ls[0].Dims() > 2
    ensures CatLora(ls) == Ok(ls[0]) && Cat(Denses(ls)) == Ok(ls[0].Dense())
  {
    var l := ls[0];
    assert As(ls) == [l.A] && Bs(ls) == [l.B] && Denses(ls) == [l.Dense()];
    hide Cat, Lora.Dense;
    CatOne(l.A);
    CatOne(l.B);
    CatOne(l.Dense());
  }

  lemma {:induction false} SumAtLeast(xs: seq<nat>)
    requires forall i :: 0 <= i < |xs| ==> xs[i] >= 1
    ensures Sum(xs) >= |xs|
  {
    if xs != [] { SumAtLeast(xs[1..]); }
  }

  lemma {:induction false} SumsEqual(xs: seq<nat>, ys: seq<nat>)
    requires |xs| == |ys| && forall i :: 0 <= i < |xs| ==> xs[i] <= ys[i]
    ensures Sum(xs) <= Sum(ys) && (Sum(xs) == Sum(ys) ==> xs == ys)
  {
    if xs != [] {
      SumsEqual(xs[1..], ys[1..]);
      if Sum(xs) == Sum(ys) { assert xs == [xs[0]] + xs[1..] && ys == [ys[0]] + ys[1..]; }
    }
  }

  /** Concatenated stacks of matrices still fit together, if none of them is empty, exactly if there
      is only one or each has leading axes of equal sizes in A and B. */
  lemma CatBatchesFitIff(ls: seq<Lora>)
    requires AllFit(ls) && CatLora(ls).Ok? && ls[0].Dims() > 2
    requires forall i :: 0 <= i < |ls| ==> ls[i].B.shape[0] > 0
    ensures CatLora(ls).value.Fits() <==> |ls| == 1 || EqualLead(ls)
  {
    if |ls| == 1 {
      CatSingle(ls);
    } else if EqualLead(ls) {
      BatchFits(ls);
    } else {
      var l', xs, ys := CatLora(ls).value, Sizes(As(ls)), Sizes(Bs(ls));
      forall i | 0 <= i < |ls| ensures 1 <= xs[i] <= ys[i] && xs[i] == ls[i].A.shape[0] && ys[i] == ls[i].B.shape[0] {
        assert As(ls)[i] == ls[i].A && Bs(ls)[i] == ls[i].B && ls[i].Dims() == ls[0].Dims() by { SameDims(ls, i); }
      }
      SumAtLeast(xs);
      SumsEqual(xs, ys);
      assert l'.A.shape[0] == Sum(xs) && l'.B.shape[0] == Sum(ys) && Sum(xs) != Sum(ys);
    }
  }

  lemma SameDims(ls: seq<Lora>, i: nat)
    requires AllFit(ls) && CatLora(ls).Ok? && ls[0].Dims() > 2 && i < |ls|
    ensures ls[i].Dims() == ls[0].Dims()
  {
    assert Bs(ls)[i].shape[1..] == Bs(ls)[0].shape[1..];
    assert |Bs(ls)[i].shape| == |Bs(ls)[i].shape[1..]| + 1 && |Bs(ls)[0].shape| == |Bs(ls)[0].shape[1..]| + 1;
  }

  // ---------------------------------------------------------------- cat of single matrices

  lemma RowParts(ls: seq<Lora>)
    requires AllFit(ls) && CatLora(ls).Ok? && ls[0].Dims() == 2
    ensures var l' := CatLora(ls).value;
            && l' == Lora(ls[0].A, Cat(Bs(ls)).value) && l'.Fits() && Joinable(Bs(ls)) && l'.Rank() == ls[0].Rank()
            && l'.B.shape == [Sum(Sizes(Bs(ls))), ls[0].Rank()]
  {
    assert Bs(ls)[0] == ls[0].B;
    var B := Cat(Bs(ls)).value;
    assert B.shape == [Sum(Sizes(Bs(ls)))] + ls[0].B.shape[1..];
    assert ls[0].B.shape[1..] == [ls[0].Rank()];
    assert Last(B.shape) == ls[0].Rank();
  }

  lemma RowPart(ls: seq<Lora>, i: nat)
    requires AllFit(ls) && CatLora(ls).Ok? && ls[0].Dims() == 2 && i < |ls|
    ensures ls[i].A == ls[0].A && |ls[i].B.shape| == 2 && ls[i].Rank() == ls[0].Rank() && Bs(ls)[i] == ls[i].B
  {
  }

  lemma MatrixIndex(l: Lora, idx: Index)
    requires l.Fits() && |l.B.shape| == 2 && InRange(l.Shape(), idx)
    ensures |idx| == 2 && idx == [idx[0], idx[1]] && idx[1..] == [idx[1]] && idx[0] < l.B.shape[0] &&
            idx[1] < Last(l.A.shape)
  {
    assert l.Shape()[0] == l.B.shape[0] && l.Shape()[1] == Last(l.A.shape);
  }

  lemma MatrixShape(l: Lora, k: nat, x: nat, l': Lora)
    requires |l.B.shape| == 2 && l.A == l'.A && l.A.shape != [] && k < l.B.shape[0] && x < Last(l'.A.shape)
    ensures InRange(l.Shape(), [k, x])
  {
  }

  lemma RowIndex(ls: seq<Lora>, idx: Index)
    requires AllFit(ls) && CatLora(ls).Ok? && ls[0].Dims() == 2
    requires CatLora(ls).value.Fits() && InRange(CatLora(ls).value.Shape(), idx)
    ensures |idx| == 2 && idx == [idx[0], idx[1]] && idx[0] < Sum(Sizes(Bs(ls)))
    ensures var (i, k) := Locate(Sizes(Bs(ls)), idx[0]);
            [k] + idx[1..] == [k, idx[1]] && InRange(ls[i].Shape(), [k, idx[1]]) &&
                ls[i].Rank() == CatLora(ls).value.Rank()
  {
    hide CatLora, AllFit, Locate, Sum, Sizes, Lora.Fits;
    RowParts(ls);
    var l' := CatLora(ls).value;
    MatrixIndex(l', idx);
    var (i, k) := Locate(Sizes(Bs(ls)), idx[0]);
    RowPart(ls, i);
    MatrixShape(ls[i], k, idx[1], l');
  }

  lemma JoinedRow(ts: seq<Tensor>, q: nat, r: nat)
    requires Joinable(ts) && InRange(JoinedShape(ts), [q, r])
    ensures q < Sum(Sizes(ts))
    ensures var (i, k) := Locate(Sizes(ts), q);
            && ts[i].Valid() && InRange(ts[i].shape, [k, r]) && Cat(ts).value.At([q, r]) == ts[i].At([k, r])
  {
    CatAt(ts, [q, r]);
    InJoined(ts, [q, r]);
    assert [q, r][1..] == [r] && forall k: nat :: [k] + [r] == [k, r];
  }

  lemma RowTerm(ls: seq<Lora>, q: nat, x: nat, r: nat)
    requires AllFit(ls) && CatLora(ls).Ok? && ls[0].Dims() == 2
    requires CatLora(ls).value.Fits() && InRange(CatLora(ls).value.Shape(), [q, x]) && r < CatLora(ls).value.Rank()
    requires q < Sum(Sizes(Bs(ls)))
    requires var (i, k) := Locate(Sizes(Bs(ls)), q); InRange(ls[i].Shape(), [k, x]) && r < ls[i].Rank()
    ensures var (i, k) := Locate(Sizes(Bs(ls)), q); CatLora(ls).value.Term([q, x], r) == ls[i].Term([k, x], r)
  {
    RowParts(ls);
    var l' := CatLora(ls).value;
    var (i, k) := Locate(Sizes(Bs(ls)), q);
    RowPart(ls, i);
    var l := ls[i];
    hide CatLora, Cat, Lora.Term, Lora.Shape, Tensor.At, Locate;
    MatrixTerm(l', q, x, r);
    MatrixTerm(l, k, x, r);
    hide Lora.Fits;
    JoinedRow(Bs(ls), q, r);
  }

  lemma MatrixTerm(l: Lora, k: nat, x: nat, r: nat)
    requires l.Fits() && l.Dims() == 2 && InRange(l.Shape(), [k, x]) && r < l.Rank()
    ensures InRange(l.B.shape, [k, r]) && InRange(l.A.shape, [r, x]) &&
            l.Term([k, x], r) == Times(l.B.At([k, r]), l.A.At([r, x]))
  {
    var idx: Index := [k, x];
    assert Init(Init(idx)) == [] && Init(idx) == [k] && Last(idx) == x;
    var c := ClipIndex(LeadAxes(l.A.shape), Init(Init(idx)));
    assert c == [];
    assert c + [r, Last(idx)] == [r, x] && Init(idx) + [r] == [k, r];
    TermAt(l, idx, r, [k, r], [r, x]);
  }

  lemma RowTerms(ls: seq<Lora>, idx: Index)
    requires AllFit(ls) && CatLora(ls).Ok? && ls[0].Dims() == 2
    requires CatLora(ls).value.Fits() && InRange(CatLora(ls).value.Shape(), idx)
    ensures TermsOfPart(ls, CatLora(ls).value, idx)
  {
    var l' := CatLora(ls).value;
    RowIndex(ls, idx);
    var (i, k) := Locate(Sizes(Bs(ls)), idx[0]);
    hide CatLora, Cat, Lora.Term, Locate;
    forall r | 0 <= r < l'.Rank() ensures l'.Term(idx, r) == ls[i].Term([k] + idx[1..], r) {
      RowTerm(ls, idx[0], idx[1], r);
    }
  }

  /** Concatenating the rows of B under one A concatenates the dense matrices. */
  lemma CatRowsCommutes(ls: seq<Lora>)
    requires AllFit(ls) && CatLora(ls).Ok? && ls[0].Dims() == 2
    ensures CatLora(ls).value.Fits() && Cat(Denses(ls)) == Ok(CatLora(ls).value.Dense())
  {
    var l' := CatLora(ls).value;
    RowParts(ls);
    forall i | 0 <= i < |ls| ensures ls[i].Shape()[1..] == l'.Shape()[1..] {
      RowPart(ls, i);
      assert ls[i].Shape()[1..] == [Last(ls[0].A.shape)] && l'.Shape()[1..] == [Last(ls[0].A.shape)];
    }
    hide CatLora, Cat, Lora.Fits, Lora.Term, Lora.Shape, Lora.Dense;
    JoinableDenses(ls, l');
    forall idx | InRange(l'.Shape(), idx) ensures TermsOfPart(ls, l', idx) { RowTerms(ls, idx); }
    JoinedDense(ls, l');
  }

  /** Single matrices are accepted exactly if all have the same A. */
  lemma CatRowsAcceptedIff(ls: seq<Lora>)
    requires AllFit(ls) && ls != [] && ls[0].Dims() == 2
    ensures CatLora(ls).Ok? <==> forall i :: 0 <= i < |ls| ==> ls[i].A == ls[0].A
  {
    if forall i :: 0 <= i < |ls| ==> ls[i].A == ls[0].A {
      forall i | 0 <= i < |ls|
        ensures Bs(ls)[i].Valid() && Bs(ls)[i].shape[1..] == [ls[0].Rank()] && Bs(ls)[i].shape != []
      {
        assert Bs(ls)[i] == ls[i].B;
      }
      assert Joinable(Bs(ls));
      var B := Cat(Bs(ls)).value;
      assert B.shape == [Sum(Sizes(Bs(ls)))] + [ls[0].Rank()];
    }
  }

  /** Two batches with one matrix A each and two matrices B are joined to factors that do not fit. */
  lemma CatExample(l: Lora, rank: nat, n: nat, m: nat)
    requires l.Fits() && l.A.shape == [1, rank, m] && l.B.shape == [2, n, rank]
    ensures AllFit([l, l]) && CatLora([l, l]).Ok? && !CatLora([l, l]).value.Fits()
  {
    var ls := [l, l];
    hide Lora.Fits, CatLora;
    assert ls[0] == l && ls[1] == l;
    TwoJoin(l, rank, n, m);
    CatBatchesFitIff(ls);
  }

  lemma TwoJoin(l: Lora, rank: nat, n: nat, m: nat)
    requires l.Fits() && l.A.shape == [1, rank, m] && l.B.shape == [2, n, rank]
    ensures AllFit([l, l]) && CatLora([l, l]).Ok?
  {
    var ls := [l, l];
    assert As(ls) == [l.A, l.A] && Bs(ls) == [l.B, l.B];
    assert Joinable(As(ls)) && Joinable(Bs(ls));
    var A, B := Cat(As(ls)).value, Cat(Bs(ls)).value;
    assert A.shape[1..] == l.A.shape[1..] && B.shape[1..] == l.B.shape[1..];
    assert A.shape[1] == A.shape[1..][0] && B.shape[2] == B.shape[1..][1];
  }
}
