/**
  The dump of a completed text: in front of the marker stands what the kept text was built to, and the
  dump marker, unless the escape that the marker fills up is printed as a character.
  */
module JsonKept {
  import opened Base
  import opened JsonText
  import opened JsonSax
  import opened JsonDump
  import B = JsonBuilder
  import opened JsonDumping
  import opened JsonOpen
  import G = JsonGrammar

  // ---------------------------------------------------------------- around a value

  /** Every text followed by a comma. */
  function Pre(xs: seq<string>): string {
    if xs == [] then "" else Pre(xs[..|xs| - 1]) + xs[|xs| - 1] + [',']
  }

  /** Every text behind a comma. */
  function Post(xs: seq<string>): string {
    if xs == [] then "" else Post(xs[..|xs| - 1]) + [','] + xs[|xs| - 1]
  }

  lemma {:induction false} JoinPre(xs: seq<string>)
    requires xs != []
    ensures Pre(xs) == Join(xs) + [',']
    decreases |xs|
  {
    if |xs| == 1 {
      assert Pre(xs[..0]) == "" && "" + xs[0] == xs[0];
    } else {
      JoinPre(xs[..|xs| - 1]);
    }
  }

  lemma {:induction false} JoinSplit(xs: seq<string>, p: nat)
    requires p < |xs|
    ensures Join(xs) == Pre(xs[..p]) + xs[p] + Post(xs[p + 1..])
    decreases |xs|
  {
    var k := |xs| - 1;
    var init, last := xs[..k], xs[k];
    if p < k {
      JoinSplit(init, p);
      assert init[..p] == xs[..p] && init[p + 1..] == xs[p + 1..][..k - p - 1];
      assert Post(xs[p + 1..]) == Post(init[p + 1..]) + [','] + last;
    } else {
      assert xs[p + 1..] == [] && xs[..p] == init;
      if k > 0 { JoinPre(init); } else { assert Pre(init) == ""; }
    }
  }

  /** In front of a value that is due in a container, and behind it. */
  function LevelFront(l: B.Level): string {
    match l
    case ArrayLevel(items) => ['['] + Pre(items)
    case ObjectLevel(entries, key) => ['{'] + Pre(EntryTexts(entries[..Place(entries, key)])) + (Quoted(key) + [':'])
  }

  function LevelBack(l: B.Level): string {
    match l
    case ArrayLevel(_) => "]"
    case ObjectLevel(entries, key) =>
      var p := Place(entries, key);
      (if p < |entries| then Post(EntryTexts(entries[p + 1..])) else "") + ['}']
  }

  lemma ArrayParts(items: seq<string>, t: string)
    ensures ArrayText(items + [t]) == ['['] + Pre(items) + t + "]"
  {
    var xs := items + [t];
    JoinSplit(xs, |items|);
    assert xs[..|items|] == items && xs[|items| + 1..] == [];
  }

  lemma PutSplit(es: seq<Entry>, key: seq<Code>, t: string)
    ensures var p, es' := Place(es, key), Put(es, key, t);
            && p < |es'| && EntryTexts(es')[p] == EntryText(Entry(key, t))
            && EntryTexts(es')[..p] == EntryTexts(es[..p])
            && EntryTexts(es')[p + 1..] == if p < |es| then EntryTexts(es[p + 1..]) else []
  {
    hide EntryText, Place;
  }

  lemma ObjectParts(es: seq<Entry>, key: seq<Code>, t: string)
    ensures ObjectText(Put(es, key, t)) == LevelFront(B.ObjectLevel(es, key)) + t + LevelBack(B.ObjectLevel(es, key))
  {
    hide Put, EntryTexts, Place, Join, Pre, Post, Quoted;
    var p, xs := Place(es, key), EntryTexts(Put(es, key, t));
    PutSplit(es, key, t);
    JoinSplit(xs, p);
    assert xs[p] == Quoted(key) + [':'] + t;
    NoPost();
    Regrouped(['{'], Pre(xs[..p]), Quoted(key) + [':'], t, Post(xs[p + 1..]), ['}']);
  }

  lemma NoPost()
    ensures Post([]) == ""
  {
  }

  lemma Regrouped(a: string, b: string, c: string, t: string, d: string, e: string)
    ensures a + (b + (c + t) + d) + e == a + b + c + t + (d + e)
  {
  }

  lemma LevelParts(l: B.Level, t: string)
    ensures B.LevelText(B.WithValue(l, t)) == LevelFront(l) + t + LevelBack(l)
  {
    hide LevelFront, LevelBack;
    if l.ArrayLevel? {
      ArrayParts(l.items, t);
      ArrayAround(l);
    } else {
      ObjectParts(l.entries, l.key, t);
    }
  }

  lemma ArrayAround(l: B.Level)
    requires l.ArrayLevel?
    ensures LevelFront(l) == ['['] + Pre(l.items) && LevelBack(l) == "]"
  {
  }

  /** A value put into open containers that are then closed. */
  function Wrap(levels: seq<B.Level>, t: string): string {
    if levels == [] then t else Wrap(Enclosing(levels), B.LevelText(B.WithValue(Innermost(levels), t)))
  }

  function Front(levels: seq<B.Level>): string {
    if levels == [] then "" else Front(Enclosing(levels)) + LevelFront(Innermost(levels))
  }

  function Back(levels: seq<B.Level>): string {
    if levels == [] then "" else LevelBack(Innermost(levels)) + Back(Enclosing(levels))
  }

  lemma {:induction false} WrapParts(levels: seq<B.Level>, t: string)
    ensures Wrap(levels, t) == Front(levels) + t + Back(levels)
    decreases |levels|
  {
    if levels != [] {
      hide LevelFront, LevelBack, B.LevelText, B.WithValue;
      var l := Innermost(levels);
      LevelParts(l, t);
      WrapParts(Enclosing(levels), B.LevelText(B.WithValue(l, t)));
      Associated(Front(Enclosing(levels)), LevelFront(l), t, LevelBack(l), Back(Enclosing(levels)));
    } else {
      assert "" + t + "" == t;
    }
  }

  lemma Associated(a: string, b: string, t: string, c: string, d: string)
    ensures a + (b + t + c) + d == a + b + t + (c + d)
  {
  }

  /** The containers from one on are a value in those outside of it. */
  lemma {:induction false} WrapInner(levels: seq<B.Level>, n: nat, t: string)
    requires n <= |levels|
    ensures Wrap(levels, t) == Wrap(levels[..n], Wrap(levels[n..], t))
    decreases |levels|
  {
    if n == |levels| {
      assert levels[..n] == levels && levels[n..] == [];
    } else {
      hide B.LevelText, B.WithValue;
      assert Enclosing(levels)[..n] == levels[..n] && Enclosing(levels)[n..] == Enclosing(levels[n..]);
      assert Innermost(levels[n..]) == Innermost(levels);
      WrapInner(Enclosing(levels), n, B.LevelText(B.WithValue(Innermost(levels), t)));
    }
  }

  // ---------------------------------------------------------------- closing

  /** The closing brackets print the value and everything around it. */
  lemma {:induction false} CloseBuilds(
    f: Printer, stack: seq<Frame>, st: State, b: B.Parts, levels: seq<B.Level>, t: string)
    requires Shaped(stack, levels) && G.Ended(stack, st) && B.Settled(f, st, b) == B.HandleValue(levels, t)
    ensures var s := CloseText(stack);
            && G.Ended([], Run(st, s))
            && B.Settled(f, Run(st, s), B.Build(f, st, b, s)) == B.Ready([], Some(Wrap(levels, t)))
    decreases |stack|
  {
    hide Step, Run, B.Add, B.Build, B.Settled, B.LevelText, B.WithValue, B.HandleValue;
    if stack == [] {
      NothingBuilt(f, st, b);
      FinishRoot(t);
    } else {
      var frame, l := Top(stack), Innermost(levels);
      var c := if frame == InObject then '}' else ']';
      assert stack == Pop(stack) + [frame];
      FinishLevel(levels, t);
      CloseStep(f, Pop(stack), frame, st, b, Enclosing(levels), B.WithValue(l, t));
      G.LastStep(Pop(stack), frame, st, c);
      var b' := B.HandleValue(Enclosing(levels), B.LevelText(B.WithValue(l, t)));
      var st' := At(Pop(stack), After);
      RunCons(st, c, CloseText(Pop(stack)));
      B.BuildCons(f, st, b, c, CloseText(Pop(stack)));
      SettledAfter(f, Pop(stack), b');
      CloseBuilds(f, Pop(stack), st', b', Enclosing(levels), B.LevelText(B.WithValue(l, t)));
    }
  }

  lemma FinishRoot(t: string)
    ensures B.HandleValue([], t) == B.Ready([], Some(Wrap([], t)))
  {
  }

  lemma FinishLevel(levels: seq<B.Level>, t: string)
    requires levels != []
    ensures B.HandleValue(levels, t) == B.Ready(Enclosing(levels) + [B.WithValue(Innermost(levels), t)], None)
  {
    hide B.WithValue;
  }
}
