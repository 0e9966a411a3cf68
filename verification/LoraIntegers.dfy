/**
  Indexing LoRA tensors with integers on the last two axes, and when an accepted index gives the
  selection of the dense tensor.
  */
module LoraIntegers {
  import opened Base
  import opened Tensors
  import opened LoraTensors
  import opened LoraSlices

  /** Integers on both of the last two axes. */
  predicate TwoIntegers(full: seq<Sel>) { |full| >= 2 && Last(full).Pick? && Last(Init(full)).Pick? }

  /** The last sliced entry is on an axis of size `n`. */
  predicate LastSliced(s: Shape, sels: seq<Sel>, n: nat)
    requires |s| == |sels|
  {
    exists a :: 0 <= a < |s| && sels[a].Range? && s[a] == n && forall b :: a < b < |s| ==> sels[b].Pick?
  }

  lemma LastSlicedSnoc(s: Shape, m: nat, sels: seq<Sel>, sel: Sel, n: nat)
    requires |s| == |sels|
    ensures LastSliced(s + [m], sels + [sel], n) <==> if sel.Range? then m == n else LastSliced(s, sels, n)
  {
    var s', sels' := s + [m], sels + [sel];
    assert s'[|s|] == m && sels'[|s|] == sel;
    assert forall a :: 0 <= a < |s| ==> s'[a] == s[a] && sels'[a] == sels[a];
  }

  /** The size of the last axis that is left, if all slices are whole. */
  lemma {:induction false} LastLeft(s: Shape, selsA: seq<Sel>, sels: seq<Sel>, n: nat)
    requires |s| == |selsA| == |sels|
    requires forall a :: 0 <= a < |s| ==> if sels[a].Pick? then selsA[a].Pick? else selsA[a] == FULL
    ensures SelShape(s, selsA) != [] && Last(SelShape(s, selsA)) == n <==> LastSliced(s, sels, n)
    decreases |s|
  {
    if s != [] {
      var k := |s| - 1;
      var s', selsA', sels' := s[..k], selsA[..k], sels[..k];
      assert s == s' + [s[k]] && selsA == selsA' + [selsA[k]] && sels == sels' + [sels[k]];
      LastLeft(s', selsA', sels', n);
      LastSlicedSnoc(s', s[k], sels', sels[k], n);
      ShapeSnoc(s', s[k], selsA', selsA[k]);
      hide SelShape, LastSliced;
    }
  }

  /** The leading entries of a tuple. */
  function Leading(full: seq<Sel>): seq<Sel>
    requires |full| >= 2
  {
    Init(Init(full))
  }

  lemma LeadAccepted(l: Lora, full: seq<Sel>)
    requires l.Fits() && |full| == l.Dims() && PicksOk(l.Shape(), full)
    ensures LeadOfA(l.A.shape, Leading(full)).Ok?
    ensures PicksOk(LeadAxes(l.A.shape), LeadOfA(l.A.shape, Leading(full)).value)
  {
    var sA, lead := l.A.shape, Leading(full);
    forall a | 0 <= a < |lead| && lead[a].Pick? ensures sA[a] > 0 {
      assert l.Shape()[a] == l.B.shape[a] && PickOk(l.Shape()[a], full[a]) && lead[a] == full[a];
    }
  }

  lemma LeadKinds(s: Shape, lead: seq<Sel>)
    requires LeadOfA(s, lead).Ok?
    ensures forall a :: 0 <= a < |lead| ==>
              if lead[a].Pick? then LeadOfA(s, lead).value[a].Pick? else LeadOfA(s, lead).value[a] == FULL
  {
  }

  /** The entries used on the factors. */
  lemma TwoIntegerShapes(l: Lora, full: seq<Sel>, leadA: seq<Sel>)
    requires l.Fits() && |full| == l.Dims() && TwoIntegers(full) && |leadA| == |Leading(full)|
    ensures var selsA, selsB := leadA + [FULL, Last(full)], Init(full) + [FULL];
            && |selsA| == l.Dims() == |selsB|
            && SelShape(l.A.shape, selsA) == SelShape(LeadAxes(l.A.shape), leadA) + [l.Rank()]
            && SelShape(l.B.shape, selsB) == SelShape(LeadAxes(l.B.shape), Leading(full)) + [l.Rank()]
            && (PicksOk(l.A.shape, selsA) <==> PicksOk(LeadAxes(l.A.shape), leadA) && PickOk(l.RowSize(), Last(full)))
            && (PicksOk(l.B.shape, selsB) <==>
                  PicksOk(LeadAxes(l.B.shape), Leading(full)) && PickOk(Last(Init(l.B.shape)), Last(Init(full))))
            && (PicksOk(l.Shape(), full) <==>
                  && PicksOk(LeadAxes(l.B.shape), Leading(full)) && PickOk(Last(Init(l.B.shape)), Last(Init(full)))
                  && PickOk(l.RowSize(), Last(full)))
  {
    SplitShapes(l);
    var sA, sB, n := LeadAxes(l.A.shape), LeadAxes(l.B.shape), Last(Init(l.B.shape));
    var row, last := Last(Init(full)), Last(full);
    assert full == Leading(full) + [row, last] && Init(full) + [FULL] == Leading(full) + [row, FULL];
    hide SelShape, PicksOk, Lora.Fits;
    TwoEntries(sA, l.Rank(), l.RowSize(), leadA, FULL, last);
    TwoEntries(sB, n, l.Rank(), Leading(full), row, FULL);
    TwoEntries(sB, n, l.RowSize(), Leading(full), row, last);
  }

  lemma TwoEntries(s: Shape, n: nat, m: nat, sels: seq<Sel>, row: Sel, last: Sel)
    requires |s| == |sels|
    ensures PicksOk(s + [n, m], sels + [row, last]) <==> PicksOk(s, sels) && PickOk(n, row) && PickOk(m, last)
    ensures row == FULL && last.Pick? ==> SelShape(s + [n, m], sels + [row, last]) == SelShape(s, sels) + [n]
    ensures last == FULL && row.Pick? ==> SelShape(s + [n, m], sels + [row, last]) == SelShape(s, sels) + [m]
  {
    assert s + [n, m] == (s + [n]) + [m] && sels + [row, last] == (sels + [row]) + [last];
    hide SelShape, PicksOk;
    PicksSnoc(s, n, sels, row);
    PicksSnoc(s + [n], m, sels + [row], last);
    ShapeSnoc(s, n, sels, row);
    ShapeSnoc(s + [n], m, sels + [row], last);
  }

  /** `Make` on two shapes that end in the rank. */
  lemma MakeIff(A: Tensor, B: Tensor, x: Shape, y: Shape, rank: nat)
    requires A.shape == x + [rank] && B.shape == y + [rank] && |x| == |y|
    ensures Make(A, B).Ok? <==> x != [] && Last(x) == rank
  {
    if x != [] { assert A.shape[|A.shape| - 2] == Last(x); }
  }

  lemma TupleOk(l: Lora, sels: seq<Sel>, leadA: seq<Sel>)
    requires l.Fits() && sels != [] && TwoIntegers(Padded(sels, l.Dims())) && |Padded(sels, l.Dims())| == l.Dims()
    requires LeadOfA(l.A.shape, Leading(Padded(sels, l.Dims()))) == Ok(leadA)
    ensures var full := Padded(sels, l.Dims());
            GetItem(l, Entries(sels)) ==
                PairOf(Select(l.A, leadA + [FULL, Last(full)]), Select(l.B, Init(full) + [FULL]))
  {
    var full := Padded(sels, l.Dims());
    hide Select, Lora.Fits, LeadOfA;
    assert Padded(Init(full), l.Dims()) == Init(full) + [FULL];
  }

  lemma TupleRefused(l: Lora, sels: seq<Sel>)
    requires l.Fits() && |Padded(sels, l.Dims())| >= 2
    requires sels == [] || LeadOfA(l.A.shape, Leading(Padded(sels, l.Dims()))).Err?
    ensures GetItem(l, Entries(sels)).Err?
  {
    hide Select, LeadOfA;
  }

  /** Integers on both of the last two axes are accepted exactly if the dense tensor accepts the index
      and the last sliced axis of A happens to have the size of the rank. */
  lemma IntegersAcceptedIff(l: Lora, sels: seq<Sel>)
    requires l.Fits() && |Padded(sels, l.Dims())| == l.Dims() && TwoIntegers(Padded(sels, l.Dims()))
    ensures var full := Padded(sels, l.Dims());
            GetItem(l, Entries(sels)).Ok? <==>
            PicksOk(l.Shape(), full) && LastSliced(LeadAxes(l.A.shape), Leading(full), l.Rank())
  {
    hide SelShape, PicksOk, Padded, LeadOfA, Select, LastSliced, GetItem, TwoIntegers;
    var full := Padded(sels, l.Dims());
    TwoIntegersThere(sels, l.Dims());
    var lead := LeadOfA(l.A.shape, Leading(full));
    if PicksOk(l.Shape(), full) { LeadAccepted(l, full); }
    if lead.Err? {
      TupleRefused(l, sels);
    } else {
      TupleOk(l, sels, lead.value);
      TwoIntegerShapes(l, full, lead.value);
      LeadKinds(l.A.shape, Leading(full));
      LastLeft(LeadAxes(l.A.shape), lead.value, Leading(full), l.Rank());
      SameKinds(LeadAxes(l.A.shape), lead.value, LeadAxes(l.B.shape), Leading(full));
      PairIff(l, lead.value + [FULL, Last(full)], Init(full) + [FULL],
              SelShape(LeadAxes(l.A.shape), lead.value), SelShape(LeadAxes(l.B.shape), Leading(full)));
    }
  }

  lemma TwoIntegersThere(sels: seq<Sel>, n: nat)
    requires TwoIntegers(Padded(sels, n))
    ensures sels != [] && |Padded(sels, n)| >= 2
  {
    assert Padded([], n) == Fulls(n);
  }

  lemma PairIff(l: Lora, selsA: seq<Sel>, selsB: seq<Sel>, x: Shape, y: Shape)
    requires l.Fits() && |selsA| == l.Dims() == |selsB| && |x| == |y|
    requires SelShape(l.A.shape, selsA) == x + [l.Rank()] && SelShape(l.B.shape, selsB) == y + [l.Rank()]
    ensures PairOf(Select(l.A, selsA), Select(l.B, selsB)).Ok? <==>
            PicksOk(l.A.shape, selsA) && PicksOk(l.B.shape, selsB) && x != [] && Last(x) == l.Rank()
  {
    hide SelShape, PicksOk;
    if PicksOk(l.A.shape, selsA) && PicksOk(l.B.shape, selsB) {
      MakeIff(Select(l.A, selsA).value, Select(l.B, selsB).value, x, y, l.Rank());
    }
  }

  /** All indices that are accepted. */
  lemma AcceptedIff(l: Lora, key: Key)
    requires l.Fits()
    ensures var full := key.For(l.Dims());
            GetItem(l, key).Ok? <==>
            && |full| == l.Dims() && key != Entries([])
            && ((TwoSlices(full) && Indexable(l, key)) ||
                (TwoIntegers(full) && PicksOk(l.Shape(), full) &&
                    LastSliced(LeadAxes(l.A.shape), Leading(full), l.Rank())))
  {
    hide GetItem, PicksOk, LastSliced, Indexable, Select, Lora.Fits, Padded;
    AtLeastTwo(l);
    var full := key.For(l.Dims());
    if GetItem(l, key).Ok? { AcceptedKeeps(l, key); }
    if TwoSlices(full) { GetItemAcceptedIff(l, key); }
    if TwoSlices(full) && Indexable(l, key) { IndexableCut(l, key); IndexableNonempty(l, key); }
    if key.Single? {
      SingleSlices(key.sel, l.Dims());
    } else if TwoIntegers(full) && |full| == l.Dims() {
      IntegersAcceptedIff(l, key.sels);
      TwoIntegersThere(key.sels, l.Dims());
    }
  }

  lemma AtLeastTwo(l: Lora)
    requires l.Fits()
    ensures l.Dims() >= 2
  {
  }

  lemma IndexableNonempty(l: Lora, key: Key)
    requires l.Fits() && Indexable(l, key)
    ensures key != Entries([])
  {
  }

  lemma SingleSlices(sel: Sel, n: nat)
    requires n >= 2
    ensures Last(Padded([sel], n)) == FULL && |Padded([sel], n)| == n
  {
  }

  /** An accepted index gives the selection of the dense tensor exactly if it slices the last axis and
      every leading axis that is sliced keeps size 1 in A or is left with the same size in A and B. */
  lemma GivesSelectionIff(l: Lora, key: Key)
    requires l.Fits() && GetItem(l, key).Ok?
    ensures var l', full, c := GetItem(l, key).value, key.For(l.Dims()), CutOf(l, key);
            && |full| == l.Dims()
            && ((l'.Fits() && Select(l.Dense(), full) == Ok(l'.Dense())) <==>
                Last(full).Range? && AllSizesAgree(LeadAxes(l.A.shape), c.leadA, LeadAxes(l.B.shape), c.lead))
  {
    hide GetItem, PicksOk, Select, Lora.Fits, CutOf, Key.For, AllSizesAgree, SelShape, Lora.Dense;
    AtLeastTwo(l);
    AcceptedKeeps(l, key);
    var full := key.For(l.Dims());
    if Last(full).Range? {
      GetItemCommutes(l, key);
    } else {
      IntegersOnBoth(l, key);
      if GetItem(l, key).value.Fits() && Select(l.Dense(), full) == Ok(GetItem(l, key).value.Dense()) {
        OtherAxes(l, full, GetItem(l, key).value);
        assert false;
      }
    }
  }

  lemma OtherAxes(l: Lora, full: seq<Sel>, l': Lora)
    requires l.Fits() && l'.Fits() && |full| == l.Dims() && Select(l.Dense(), full) == Ok(l'.Dense())
    ensures l.Shape() != [] && |l'.Shape()| == |SelShape(l.Shape(), full)|
  {
    hide SelShape, PicksOk;
  }

  /** Factors with rank 2 and a leading axis of size 2 accept integers on both of the last axes. */
  lemma IntegersExample(l: Lora)
    requires l.Fits() && l.A.shape == [2, 2, 3] && l.B.shape == [2, 4, 2]
    ensures GetItem(l, Entries([FULL, Pick(0), Pick(0)])).Ok?
  {
    hide GetItem, SelShape, Lora.Fits;
    var full := [FULL, Pick(0), Pick(0)];
    assert Padded(full, 3) == full && Leading(full) == [FULL] && l.Shape() == [2, 4, 3];
    assert LeadAxes(l.A.shape) == [2] && l.Rank() == 2 && TwoIntegers(full) && PicksOk([2, 4, 3], full);
    LastSlicedSnoc([], 2, [], FULL, 2);
    assert [] + [2] == [2] && [] + [FULL] == [FULL];
    IntegersAcceptedIff(l, full);
  }

  /** A slice of the leading axis is not applied to A, so that the factors may no longer fit. */
  lemma SliceExample(l: Lora, rank: nat, n: nat, m: nat)
    requires l.Fits() && l.A.shape == [2, rank, m] && l.B.shape == [2, n, rank]
    ensures var key := Entries([Range(Some(0), Some(1)), FULL, FULL]);
            GetItem(l, key).Ok? && !GetItem(l, key).value.Fits()
  {
    hide GetItem, SelShape, Lora.Fits, PicksOk, AllSizesAgree;
    var first := Range(Some(0), Some(1));
    var sels := [first, FULL, FULL];
    var key := Entries(sels);
    assert Padded(sels, 3) == sels && key.For(3) == sels && TwoSlices(sels);
    SliceIsIndexable(l, key, sels);
    GetItemAcceptedIff(l, key);
    GetItemCommutes(l, key);
    SliceSizes(l, key, sels);
  }

  lemma SliceIsIndexable(l: Lora, key: Key, sels: seq<Sel>)
    requires l.Fits() && l.Dims() == 3 && key == Entries(sels) && key.For(3) == sels
    requires |sels| == 3 && forall a :: 0 <= a < 3 ==> sels[a].Range?
    ensures Indexable(l, key)
  {
  }

  lemma SliceSizes(l: Lora, key: Key, sels: seq<Sel>)
    requires l.Fits() && l.Dims() == 3 && key == Entries(sels) && key.For(3) == sels
    requires sels == [Range(Some(0), Some(1)), FULL, FULL] && l.A.shape[0] == 2 && l.B.shape[0] == 2
    ensures var c := CutOf(l, key);
            && |LeadAxes(l.A.shape)| == |c.leadA| == |LeadAxes(l.B.shape)| == |c.lead|
            && !AllSizesAgree(LeadAxes(l.A.shape), c.leadA, LeadAxes(l.B.shape), c.lead)
  {
    var c := CutOf(l, key);
    assert Init(Init(sels)) == [Range(Some(0), Some(1))];
    assert c.lead == [Range(Some(0), Some(1))] && c.leadA == [FULL];
    assert LeadAxes(l.A.shape)[0] == 2 && LeadAxes(l.B.shape)[0] == 2;
    assert Count(2, FULL) == 2 && Count(2, Range(Some(0), Some(1))) == 1;
    assert !SizesAgree(LeadAxes(l.A.shape)[0], c.leadA[0], LeadAxes(l.B.shape)[0], c.lead[0]);
  }
}
