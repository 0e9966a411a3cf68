/**
  `make_gbnf_excluding` (chat-parser-xml-toolcall.cpp): forbidden strings are sorted and walked as a
  trie; the result is a repeated expression whose units lead out of the trie by one character.

  Forbidden strings are ASCII: the builder walks bytes and the grammar reads code points, and only
  for ASCII are they the same. The result is the expression itself; how it is written down as grammar
  text, with its escapes, is not modelled.
  */
module GbnfExcluding {
  import opened Base
  import opened Text

  /** The grammar expressions that are generated; `alts` are joined by `|`. */
  datatype Expr = NotIn(chars: seq<char>) | Then(c: char, rest: Expr) | Alt(alts: seq<Expr>)

  predicate Matches(e: Expr, w: string)
    decreases e
  {
    match e
    case NotIn(chars) => |w| == 1 && w[0] !in chars
    case Then(c, rest) => w != "" && w[0] == c && Matches(rest, w[1..])
    case Alt(alts) => exists i :: 0 <= i < |alts| && Matches(alts[i], w)
  }

  /** The words of a repeated expression, split into its units. */
  function Flatten(us: seq<string>): string {
    if us == [] then "" else us[0] + Flatten(us[1..])
  }

  ghost predicate StarMatches(e: Expr, w: string) {
    exists us: seq<string> :: Flatten(us) == w && forall i :: 0 <= i < |us| ==> Matches(e, us[i])
  }

  // ---------------------------------------------------------------- the reference language

  /**
    A unit: a proper prefix of a forbidden string and one more character, so that the whole is a
    prefix of none.
    */
  ghost predicate IsUnit(forbids: set<string>, w: string) {
    && w != ""
    && (exists f :: f in forbids && w[..|w| - 1] < f)
    && (forall f :: f in forbids ==> !(w <= f))
  }

  /** What is left of the strings that start with `c`. */
  ghost function Quotient(forbids: set<string>, c: char): set<string> {
    set f | f in forbids && f != "" && f[0] == c :: f[1..]
  }

  lemma PrefixByHead(w: string, f: string)
    requires w != ""
    ensures w <= f <==> f != "" && f[0] == w[0] && w[1..] <= f[1..]
    ensures |w| > 1 ==> (w[..|w| - 1] < f <==> f != "" && f[0] == w[0] && w[1..][..|w| - 2] < f[1..])
  {
    assert |w| > 1 ==> w[1..][..|w| - 2] == w[..|w| - 1][1..];
    if f != "" && f[0] == w[0] {
      assert f == [w[0]] + f[1..] && w == [w[0]] + w[1..];
    }
  }

  lemma InTrieByHead(forbids: set<string>, w: string)
    requires |w| > 1
    ensures (exists f :: f in forbids && w[..|w| - 1] < f)
            <==> (exists g :: g in Quotient(forbids, w[0]) && w[1..][..|w| - 2] < g)
  {
    if f :| f in forbids && w[..|w| - 1] < f {
      PrefixByHead(w, f);
      assert f[1..] in Quotient(forbids, w[0]);
    }
    if g :| g in Quotient(forbids, w[0]) && w[1..][..|w| - 2] < g {
      var f :| f in forbids && f != "" && f[0] == w[0] && f[1..] == g;
      PrefixByHead(w, f);
    }
  }

  lemma OutOfTrieByHead(forbids: set<string>, w: string)
    requires w != ""
    ensures (forall f :: f in forbids ==> !(w <= f)) <==> (forall g :: g in Quotient(forbids, w[0]) ==> !(w[1..] <= g))
  {
    if f :| f in forbids && w <= f {
      PrefixByHead(w, f);
      assert f[1..] in Quotient(forbids, w[0]);
    }
    if g :| g in Quotient(forbids, w[0]) && w[1..] <= g {
      var f :| f in forbids && f != "" && f[0] == w[0] && f[1..] == g;
      PrefixByHead(w, f);
    }
  }

  /** A unit leads out of the trie at once, or enters a branch and is a unit there. */
  lemma UnitByHead(forbids: set<string>, w: string)
    requires w != ""
    ensures IsUnit(forbids, w) <==>
            (|w| == 1 && (exists f :: f in forbids && f != "") && forall f :: f in forbids && f != "" ==> f[0] != w[0])
            || IsUnit(Quotient(forbids, w[0]), w[1..])
  {
    if |w| == 1 {
      assert w[..0] == "" && w[1..] == "";
      forall f | f in forbids ensures w <= f <==> f != "" && f[0] == w[0] { PrefixByHead(w, f); }
    } else {
      InTrieByHead(forbids, w);
      OutOfTrieByHead(forbids, w);
    }
  }

  // ---------------------------------------------------------------- sorting

  /** `operator<=` of strings: lexicographic by unsigned characters. */
  predicate LexLeq(s: string, t: string) {
    s == "" || (t != "" && (s[0] < t[0] || (s[0] == t[0] && LexLeq(s[1..], t[1..]))))
  }

  lemma {:induction false} LexTotal(s: string, t: string)
    ensures LexLeq(s, t) || LexLeq(t, s)
  {
    if s != "" && t != "" { LexTotal(s[1..], t[1..]); }
  }

  lemma {:induction false} LexTransitive(s: string, t: string, u: string)
    requires LexLeq(s, t) && LexLeq(t, u)
    ensures LexLeq(s, u)
  {
    if s != "" && s[0] == t[0] == u[0] { LexTransitive(s[1..], t[1..], u[1..]); }
  }

  predicate Ascending(a: seq<string>) { forall i, j :: 0 <= i < j < |a| ==> LexLeq(a[i], a[j]) }

  function Insert(s: string, a: seq<string>): (r: seq<string>)
    requires Ascending(a)
    ensures Ascending(r) && |r| == |a| + 1 && forall x :: x in r <==> x == s || x in a
  {
    if a == [] then [s]
    else if LexLeq(s, a[0]) then
      PutFront(s, a);
      [s] + a
    else
      LexTotal(s, a[0]);
      assert a == [a[0]] + a[1..];
      PutFront(a[0], Insert(s, a[1..]));
      [a[0]] + Insert(s, a[1..])
  }

  lemma PutFront(s: string, a: seq<string>)
    requires Ascending(a)
    requires (a != [] && LexLeq(s, a[0])) || forall x :: x in a ==> LexLeq(s, x)
    ensures Ascending([s] + a)
  {
    forall j | 0 <= j < |a| ensures LexLeq(s, a[j]) {
      assert a[j] in a;
      if j > 0 && LexLeq(s, a[0]) { LexTransitive(s, a[0], a[j]); }
    }
  }

  /** `std::sort`. */
  function Sort(a: seq<string>): (r: seq<string>)
    ensures Ascending(r) && |r| == |a| && forall x :: x in r <==> x in a
  {
    if a == [] then []
    else
      assert a == [a[0]] + a[1..];
      Insert(a[0], Sort(a[1..]))
  }

  // ---------------------------------------------------------------- building the expression

  /** What is left of the strings in a range behind the first `depth` characters. */
  ghost function Tails(forbids: seq<string>, l: nat, r: nat, depth: nat): set<string>
    requires l <= r <= |forbids| && forall k :: l <= k < r ==> |forbids[k]| >= depth
  {
    set k | l <= k < r :: forbids[k][depth..]
  }

  /** The range is sorted by what follows the first `depth` characters. */
  predicate AscendingTails(forbids: seq<string>, l: nat, r: nat, depth: nat)
    requires l <= r <= |forbids|
  {
    && (forall k :: l <= k < r ==> |forbids[k]| >= depth)
    && (forall i, j :: l <= i < j < r ==> LexLeq(forbids[i][depth..], forbids[j][depth..]))
  }

  datatype Child = Child(c: char, from: nat, to: nat)

  /** The strings `from..to` go on with `c`. */
  predicate IsGroup(forbids: seq<string>, depth: nat, ch: Child) {
    && ch.from < ch.to <= |forbids|
    && forall k :: ch.from <= k < ch.to ==> |forbids[k]| > depth && forbids[k][depth] == ch.c
  }

  /** Every longer string of `l..i` is in a group, and no two groups go on with the same character. */
  predicate Grouped(forbids: seq<string>, l: nat, i: nat, depth: nat, children: seq<Child>)
    requires l <= i <= |forbids|
  {
    && (forall n :: 0 <= n < |children| ==>
       IsGroup(forbids, depth, children[n]) && l <= children[n].from && children[n].to <= i)
    && (forall m, n :: 0 <= m < n < |children| ==> children[m].c < children[n].c)
    && (forall k :: l <= k < i && |forbids[k]| > depth ==> exists n ::
       0 <= n < |children| && children[n].from <= k < children[n].to)
  }

  /** The tails in a group are those of the range that start with its character, without it. */
  lemma GroupIsQuotient(forbids: seq<string>, l: nat, r: nat, depth: nat, children: seq<Child>, n: nat)
    requires l <= r <= |forbids| && (forall i :: l <= i < r ==> |forbids[i]| >= depth)
    requires Grouped(forbids, l, r, depth, children) && n < |children|
    ensures IsGroup(forbids, depth, children[n])
    ensures Tails(forbids, children[n].from, children[n].to, depth + 1) ==
            Quotient(Tails(forbids, l, r, depth), children[n].c)
  {
    var ch := children[n];
    assert IsGroup(forbids, depth, ch);
    var t, u := Tails(forbids, l, r, depth), Tails(forbids, ch.from, ch.to, depth + 1);
    forall g | g in u ensures g in Quotient(t, ch.c) {
      var k :| ch.from <= k < ch.to && g == forbids[k][depth + 1..];
      assert forbids[k][depth..] in t && forbids[k][depth..][1..] == g;
    }
    forall g | g in Quotient(t, ch.c) ensures g in u {
      var f :| f in t && f != "" && f[0] == ch.c && f[1..] == g;
      var k := GroupOfTail(forbids, l, r, depth, children, f, n);
      assert forbids[k][depth..][1..] == forbids[k][depth + 1..];
    }
  }

  lemma GroupOfTail(forbids: seq<string>, l: nat, r: nat, depth: nat, children: seq<Child>, f: string, n: nat)
    returns (k: nat)
    requires l <= r <= |forbids| && (forall i :: l <= i < r ==> |forbids[i]| >= depth)
    requires Grouped(forbids, l, r, depth, children) && n < |children|
    requires f in Tails(forbids, l, r, depth) && f != "" && f[0] == children[n].c
    ensures children[n].from <= k < children[n].to && forbids[k][depth..] == f
  {
    k :| l <= k < r && f == forbids[k][depth..];
    var n' :| 0 <= n' < |children| && children[n'].from <= k < children[n'].to;
    assert IsGroup(forbids, depth, children[n']) && forbids[k][depth] == f[0];
  }

  function Heads(children: seq<Child>): (cs: seq<char>)
    ensures |cs| == |children| && forall n :: 0 <= n < |cs| ==> cs[n] == children[n].c
  {
    seq(|children|, n requires 0 <= n < |children| => children[n].c)
  }

  lemma TailOfHead(forbids: seq<string>, l: nat, r: nat, depth: nat, children: seq<Child>, n: nat)
    requires l <= r <= |forbids| && (forall i :: l <= i < r ==> |forbids[i]| >= depth)
    requires Grouped(forbids, l, r, depth, children) && n < |children|
    ensures exists f :: f in Tails(forbids, l, r, depth) && f != "" && f[0] == children[n].c
  {
    assert IsGroup(forbids, depth, children[n]);
    var f := forbids[children[n].from][depth..];
    assert f in Tails(forbids, l, r, depth) && f != "" && f[0] == children[n].c;
  }

  lemma HeadOfTail(forbids: seq<string>, l: nat, r: nat, depth: nat, children: seq<Child>, f: string)
    requires l <= r <= |forbids| && (forall i :: l <= i < r ==> |forbids[i]| >= depth)
    requires Grouped(forbids, l, r, depth, children) && f in Tails(forbids, l, r, depth) && f != ""
    ensures children != [] && f[0] in Heads(children)
  {
    var k :| l <= k < r && f == forbids[k][depth..];
    var n :| 0 <= n < |children| && children[n].from <= k < children[n].to;
    assert IsGroup(forbids, depth, children[n]);
    assert Heads(children)[n] == f[0];
  }

  /** Some group goes on with `c` exactly when some tail starts with it. */
  lemma HeadsAreFirsts(forbids: seq<string>, l: nat, r: nat, depth: nat, children: seq<Child>, c: char)
    requires l <= r <= |forbids| && (forall i :: l <= i < r ==> |forbids[i]| >= depth)
    requires Grouped(forbids, l, r, depth, children)
    ensures c in Heads(children) <==> exists f :: f in Tails(forbids, l, r, depth) && f != "" && f[0] == c
    ensures children != [] <==> exists f :: f in Tails(forbids, l, r, depth) && f != ""
  {
    hide Grouped;
    if children != [] { TailOfHead(forbids, l, r, depth, children, 0); }
    if c in Heads(children) {
      var n :| 0 <= n < |children| && Heads(children)[n] == c;
      TailOfHead(forbids, l, r, depth, children, n);
    }
    if f :| f in Tails(forbids, l, r, depth) && f != "" { HeadOfTail(forbids, l, r, depth, children, f); }
    if f :| f in Tails(forbids, l, r, depth) && f != "" && f[0] == c { HeadOfTail(forbids, l, r, depth, children, f); }
  }

  /** In a sorted range the exhausted strings come first and the next characters ascend. */
  lemma NextChars(forbids: seq<string>, l: nat, r: nat, depth: nat, i: nat, j: nat)
    requires l <= i < j < r <= |forbids| && AscendingTails(forbids, l, r, depth) && |forbids[i]| > depth
    ensures |forbids[j]| > depth && forbids[i][depth] <= forbids[j][depth]
    ensures forbids[i][depth] == forbids[j][depth] ==> LexLeq(forbids[i][depth + 1..], forbids[j][depth + 1..])
  {
    assert forbids[i][depth..][1..] == forbids[i][depth + 1..];
    assert |forbids[j]| > depth ==> forbids[j][depth..][1..] == forbids[j][depth + 1..];
    assert LexLeq(forbids[i][depth..], forbids[j][depth..]);
  }

  /** The first loops of `build_expr`: skip exhausted strings, collect runs of equal next characters. */
  method CollectChildren(forbids: seq<string>, l: nat, r: nat, depth: nat) returns (children: seq<Child>)
    requires l <= r <= |forbids| && AscendingTails(forbids, l, r, depth)
    ensures Grouped(forbids, l, r, depth, children)
    ensures forall n :: 0 <= n < |children| ==> AscendingTails(forbids, children[n].from, children[n].to, depth + 1)
  {
    hide LexLeq;
    children := [];
    var i := l;
    while i < r
      invariant l <= i <= r && Grouped(forbids, l, i, depth, children)
      invariant forall n, k ::
                0 <= n < |children| && i <= k < r && |forbids[k]| > depth ==> children[n].c < forbids[k][depth]
    {
      var s := forbids[i];
      if |s| == depth {
        i := i + 1;
        continue;
      }
      var c := s[depth];
      var j := i;
      while j < r && |forbids[j]| > depth && forbids[j][depth] == c
        invariant i <= j <= r
        invariant forall k :: i <= k < j ==> |forbids[k]| > depth && forbids[k][depth] == c
        decreases r - j
      {
        j := j + 1;
      }
      forall k | j <= k < r && |forbids[k]| > depth ensures c < forbids[k][depth] {
        NextChars(forbids, l, r, depth, i, k);
        NextChars(forbids, l, r, depth, i, j);
        if j < k { NextChars(forbids, l, r, depth, j, k); }
      }
      AddGroup(forbids, l, i, depth, children, Child(c, i, j));
      children := children + [Child(c, i, j)];
      i := j;
    }
    GroupsAscend(forbids, l, r, depth, children);
  }

  lemma GroupsAscend(forbids: seq<string>, l: nat, r: nat, depth: nat, children: seq<Child>)
    requires l <= r <= |forbids| && AscendingTails(forbids, l, r, depth) && Grouped(forbids, l, r, depth, children)
    ensures forall n :: 0 <= n < |children| ==> AscendingTails(forbids, children[n].from, children[n].to, depth + 1)
  {
    hide LexLeq;
    forall n | 0 <= n < |children| ensures AscendingTails(forbids, children[n].from, children[n].to, depth + 1) {
      var ch := children[n];
      assert IsGroup(forbids, depth, ch);
      forall a, b | ch.from <= a < b < ch.to ensures LexLeq(forbids[a][depth + 1..], forbids[b][depth + 1..]) {
        NextChars(forbids, l, r, depth, a, b);
      }
    }
  }

  lemma AddGroup(forbids: seq<string>, l: nat, i: nat, depth: nat, children: seq<Child>, ch: Child)
    requires l <= i == ch.from && i <= |forbids| && Grouped(forbids, l, i, depth, children) &&
             IsGroup(forbids, depth, ch)
    requires forall n :: 0 <= n < |children| ==> children[n].c < ch.c
    ensures Grouped(forbids, l, ch.to, depth, children + [ch])
  {
    var cs := children + [ch];
    forall k | l <= k < ch.to && |forbids[k]| > depth ensures exists n :: 0 <= n < |cs| && cs[n].from <= k < cs[n].to {
      if k < i {
        var n :| 0 <= n < |children| && children[n].from <= k < children[n].to;
        assert cs[n].from <= k < cs[n].to;
      } else {
        assert cs[|children|].from <= k < cs[|children|].to;
      }
    }
  }

  /** The words of the alternatives built so far. */
  ghost predicate SomeMatches(alts: seq<Expr>, w: string) { exists i :: 0 <= i < |alts| && Matches(alts[i], w) }

  lemma OneMore(alts: seq<Expr>, e: Expr, w: string)
    ensures SomeMatches(alts + [e], w) <==> SomeMatches(alts, w) || Matches(e, w)
  {
    if i :| 0 <= i < |alts| && Matches(alts[i], w) { assert Matches((alts + [e])[i], w); }
    if Matches(e, w) { assert Matches((alts + [e])[|alts|], w); }
  }

  /** Branches `0..n` of the children. */
  ghost predicate InBranches(tails: set<string>, children: seq<Child>, n: nat, w: string)
    requires n <= |children|
  {
    w != "" && exists m :: 0 <= m < n && w[0] == children[m].c && IsUnit(Quotient(tails, children[m].c), w[1..])
  }

  /** Some string is not exhausted. */
  ghost predicate SomeLeft(tails: set<string>) { exists f :: f in tails && f != "" }

  /** The expression accepts exactly the units. */
  ghost predicate AcceptsUnits(e: Expr, forbids: set<string>) { forall w :: Matches(e, w) <==> IsUnit(forbids, w) }

  /** The alternatives so far accept the characters that lead out, and the first `n` branches. */
  ghost predicate AcceptsSoFar(alts: seq<Expr>, first: Expr, tails: set<string>, children: seq<Child>, n: nat)
    requires n <= |children|
  {
    forall w :: SomeMatches(alts, w) <==> Matches(first, w) || InBranches(tails, children, n, w)
  }

  lemma FirstOnly(first: Expr, tails: set<string>, children: seq<Child>)
    ensures AcceptsSoFar([] + [first], first, tails, children, 0)
  {
    hide IsUnit, Quotient, SomeMatches, Matches;
    forall w ensures SomeMatches([] + [first], w) <==> Matches(first, w) || InBranches(tails, children, 0, w) {
      OneMore([], first, w);
      NoneMatches(w);
    }
  }

  lemma NoneMatches(w: string)
    ensures !SomeMatches([], w)
  {
  }

  lemma NextAlternatives(
    tails: set<string>, children: seq<Child>, n: nat, first: Expr, alts: seq<Expr>, child: Option<Expr>)
    requires n < |children| && AcceptsSoFar(alts, first, tails, children, n)
    requires var q := Quotient(tails, children[n].c);
             && (child.Some? ==> AcceptsUnits(child.value, q)) && (child.None? ==> !SomeLeft(q))
    ensures var more := if child.Some? then alts + [Then(children[n].c, child.value)] else alts;
            AcceptsSoFar(more, first, tails, children, n + 1)
  {
    hide SomeMatches, InBranches, Matches, IsUnit, Quotient;
    var more := if child.Some? then alts + [Then(children[n].c, child.value)] else alts;
    forall w ensures SomeMatches(more, w) <==> Matches(first, w) || InBranches(tails, children, n + 1, w) {
      NextBranch(tails, children, n, child, w);
      if child.Some? { OneMore(alts, Then(children[n].c, child.value), w); }
    }
  }

  lemma AltMatches(alts: seq<Expr>, w: string)
    ensures Matches(Alt(alts), w) <==> SomeMatches(alts, w)
  {
  }

  /**
    `build_expr`: for the strings `l..r`, which agree in their first `depth` characters, an expression
    for exactly the units of their tails; none if all of them are exhausted.
    */
  method BuildExpr(forbids: seq<string>, l: nat, r: nat, depth: nat, ghost limit: nat) returns (e: Option<Expr>)
    requires l <= r <= |forbids| && AscendingTails(forbids, l, r, depth)
    requires forall k :: l <= k < r ==> |forbids[k]| <= limit
    ensures e.Some? <==> SomeLeft(Tails(forbids, l, r, depth))
    ensures e.Some? ==> AcceptsUnits(e.value, Tails(forbids, l, r, depth))
    decreases limit - depth
  {
    hide LexLeq, Tails, Quotient, AscendingTails, Grouped, AcceptsSoFar, SomeLeft, AcceptsUnits;
    LongEnough(forbids, l, r, depth);
    ghost var tails := Tails(forbids, l, r, depth);
    var children := CollectChildren(forbids, l, r, depth);
    ChildrenLeft(forbids, l, r, depth, children);
    if children == [] { return None; }
    var first := NotIn(Heads(children));
    var alts := [] + [first];
    FirstOnly(first, tails, children);
    for n := 0 to |children|
      invariant AcceptsSoFar(alts, first, tails, children, n)
    {
      var ch := children[n];
      GroupInside(forbids, l, r, depth, children, n, limit);
      var child := BuildExpr(forbids, ch.from, ch.to, depth + 1, limit);
      NextAlternatives(tails, children, n, first, alts, child);
      if child.Some? { alts := alts + [Then(ch.c, child.value)]; }
    }
    AllAlternatives(forbids, l, r, depth, children, first, alts);
    return Some(Alt(alts));
  }

  lemma LongEnough(forbids: seq<string>, l: nat, r: nat, depth: nat)
    requires l <= r <= |forbids| && AscendingTails(forbids, l, r, depth)
    ensures forall k :: l <= k < r ==> |forbids[k]| >= depth
  {
  }

  /** A group lies in the range, and its strings are longer than the depth. */
  lemma GroupInside(forbids: seq<string>, l: nat, r: nat, depth: nat, children: seq<Child>, n: nat, limit: nat)
    requires l <= r <= |forbids| && AscendingTails(forbids, l, r, depth) && Grouped(forbids, l, r, depth, children)
    requires n < |children| && forall k :: l <= k < r ==> |forbids[k]| <= limit
    ensures l <= children[n].from < children[n].to <= r && depth < limit
    ensures Tails(forbids, children[n].from, children[n].to, depth + 1) ==
            Quotient(Tails(forbids, l, r, depth), children[n].c)
  {
    hide LexLeq, Tails, Quotient;
    GroupIsQuotient(forbids, l, r, depth, children, n);
    assert |forbids[children[n].from]| > depth;
  }

  lemma ChildrenLeft(forbids: seq<string>, l: nat, r: nat, depth: nat, children: seq<Child>)
    requires l <= r <= |forbids| && AscendingTails(forbids, l, r, depth) && Grouped(forbids, l, r, depth, children)
    ensures children != [] <==> SomeLeft(Tails(forbids, l, r, depth))
  {
    hide LexLeq, Tails, Grouped;
    HeadsAreFirsts(forbids, l, r, depth, children, 'x');
  }

  lemma AllAlternatives(
    forbids: seq<string>, l: nat, r: nat, depth: nat, children: seq<Child>, first: Expr, alts: seq<Expr>)
    requires l <= r <= |forbids| && AscendingTails(forbids, l, r, depth) && Grouped(forbids, l, r, depth, children)
    requires children != [] && first == NotIn(Heads(children))
    requires AcceptsSoFar(alts, first, Tails(forbids, l, r, depth), children, |children|)
    ensures AcceptsUnits(Alt(alts), Tails(forbids, l, r, depth))
  {
    hide LexLeq, Tails, Grouped, SomeMatches, InBranches, Matches, IsUnit;
    forall w ensures Matches(Alt(alts), w) <==> IsUnit(Tails(forbids, l, r, depth), w) {
      AltMatches(alts, w);
      BranchesAreUnits(forbids, l, r, depth, children, w);
    }
  }

  /** The expression of one more child adds exactly its branch; a child without one has no units. */
  lemma NextBranch(tails: set<string>, children: seq<Child>, n: nat, child: Option<Expr>, w: string)
    requires n < |children|
    requires var q := Quotient(tails, children[n].c);
             && (child.Some? ==> forall v :: Matches(child.value, v) <==> IsUnit(q, v))
             && (child.None? ==> !exists f :: f in q && f != "")
    ensures InBranches(tails, children, n + 1, w)
            <==> InBranches(tails, children, n, w) || (child.Some? && Matches(Then(children[n].c, child.value), w))
  {
    hide IsUnit;
    if child.None? && w != "" { NothingLeft(Quotient(tails, children[n].c), w[1..]); }
  }

  lemma NothingLeft(forbids: set<string>, w: string)
    requires !exists f :: f in forbids && f != ""
    ensures !IsUnit(forbids, w)
  {
  }

  lemma BranchesAreUnits(forbids: seq<string>, l: nat, r: nat, depth: nat, children: seq<Child>, w: string)
    requires l <= r <= |forbids| && (forall i :: l <= i < r ==> |forbids[i]| >= depth)
    requires Grouped(forbids, l, r, depth, children) && children != []
    ensures IsUnit(Tails(forbids, l, r, depth), w)
            <==> Matches(NotIn(Heads(children)), w) || InBranches(Tails(forbids, l, r, depth), children, |children|, w)
  {
    if w != "" {
      var t := Tails(forbids, l, r, depth);
      UnitByHead(t, w);
      HeadsAreFirsts(forbids, l, r, depth, children, w[0]);
      if IsUnit(Quotient(t, w[0]), w[1..]) {
        var g :| g in Quotient(t, w[0]);
        assert w[0] in Heads(children);
        var m :| 0 <= m < |children| && Heads(children)[m] == w[0];
        assert w[0] == children[m].c;
      }
    }
  }

  ghost function AsSet(forbids: seq<string>): set<string> { set f | f in forbids }

  function FirstChars(forbids: seq<string>): seq<char> {
    if forbids == [] then []
    else (if forbids[0] == "" then [] else [forbids[0][0]]) + FirstChars(forbids[1..])
  }

  lemma FirstCharsOfEmpty(forbids: seq<string>)
    requires forall f :: f in forbids ==> f == ""
    ensures FirstChars(forbids) == []
  {
    if forbids != [] {
      assert forall f :: f in forbids[1..] ==> f in forbids;
      assert forbids[0] in forbids;
      FirstCharsOfEmpty(forbids[1..]);
    }
  }

  ghost function MaxLength(forbids: seq<string>): (n: nat)
    ensures forall f :: f in forbids ==> |f| <= n
  {
    if forbids == [] then 0
    else
      var n := MaxLength(forbids[1..]);
      assert forall f :: f in forbids ==> f == forbids[0] || f in forbids[1..];
      if |forbids[0]| > n then |forbids[0]| else n
  }

  /**
    `make_gbnf_excluding`: the generated grammar is the repetition of the returned expression, which
    matches exactly the units of the forbidden strings; without any, each single character.
    */
  method MakeExcluding(forbids: seq<string>) returns (unit: Expr)
    ensures (exists f :: f in forbids && f != "") ==> forall w :: Matches(unit, w) <==> IsUnit(AsSet(forbids), w)
    ensures !(exists f :: f in forbids && f != "") ==> forall w :: Matches(unit, w) <==> |w| == 1
  {
    if forbids == [] { return NotIn([]); }
    var sorted := Sort(forbids);
    forall i, j | 0 <= i < j < |sorted| ensures LexLeq(sorted[i][0..], sorted[j][0..]) {
      assert sorted[i][0..] == sorted[i] && sorted[j][0..] == sorted[j];
    }
    ghost var tails := Tails(sorted, 0, |sorted|, 0);
    assert tails == AsSet(forbids) by {
      forall k | 0 <= k < |sorted| ensures sorted[k][0..] == sorted[k] && sorted[k] in forbids {
        assert sorted[k] in sorted;
      }
      forall f | f in forbids ensures f in tails {
        var k :| 0 <= k < |sorted| && sorted[k] == f;
        assert sorted[k][0..] == f;
      }
    }
    assert forall f :: f in AsSet(forbids) <==> f in forbids;
    var e := BuildExpr(sorted, 0, |sorted|, 0, MaxLength(sorted));
    if e.None? {
      FirstCharsOfEmpty(sorted);
      return NotIn(FirstChars(sorted));
    }
    return e.value;
  }

  // ---------------------------------------------------------------- the language of repeated units

  /** No forbidden string is the beginning of another one. */
  ghost predicate PrefixFree(forbids: set<string>) { forall f, g :: f in forbids && g in forbids ==> !(f < g) }

  ghost predicate AllUnits(forbids: set<string>, us: seq<string>) {
    forall i :: 0 <= i < |us| ==> IsUnit(forbids, us[i])
  }

  ghost predicate Contains(w: string, f: string) { exists i :: OccursAt(w, f, i) }

  ghost predicate Free(forbids: set<string>, w: string) { forall f :: f in forbids ==> !Contains(w, f) }

  /** A unit is never the beginning of another unit. */
  lemma UnitsArePrefixFree(forbids: set<string>, u: string, v: string)
    requires IsUnit(forbids, u) && IsUnit(forbids, v) && u <= v
    ensures u == v
  {
    var f :| f in forbids && v[..|v| - 1] < f;
    var p := v[..|v| - 1];
    assert |u| < |v| ==> u <= p;
    assert u <= p ==> u <= f;
  }

  lemma FlattenIsLonger(forbids: set<string>, us: seq<string>)
    requires AllUnits(forbids, us) && us != []
    ensures Flatten(us) != "" && us[0] <= Flatten(us) && Flatten(us[1..]) == Flatten(us)[|us[0]|..]
    ensures IsUnit(forbids, us[0]) && AllUnits(forbids, us[1..])
  {
    assert IsUnit(forbids, us[0]);
  }

  lemma BothPrefixes(f: string, u: string, x: string)
    requires u <= x
    ensures f <= x ==> if |f| < |u| then f <= u[..|u| - 1] else u <= f
  {
    if f <= x && |f| < |u| { assert f == x[..|f|] == u[..|u| - 1][..|f|]; }
  }

  /** So a word of the grammar splits into units in one way only. */
  lemma {:induction false} SplitIsUnique(forbids: set<string>, us: seq<string>, vs: seq<string>)
    requires AllUnits(forbids, us) && AllUnits(forbids, vs) && Flatten(us) == Flatten(vs)
    ensures us == vs
    decreases |us|
  {
    if us != [] { FlattenIsLonger(forbids, us); }
    if vs != [] { FlattenIsLonger(forbids, vs); }
    if us != [] && vs != [] {
      hide Flatten, IsUnit;
      BothPrefixes(us[0], vs[0], Flatten(us));
      BothPrefixes(vs[0], us[0], Flatten(us));
      if us[0] <= vs[0] {
        UnitsArePrefixFree(forbids, us[0], vs[0]);
      } else {
        UnitsArePrefixFree(forbids, vs[0], us[0]);
      }
      SplitIsUnique(forbids, us[1..], vs[1..]);
    }
  }

  /** With prefix-free forbidden strings, none of them starts where a unit starts. */
  lemma NoneAtBoundary(forbids: set<string>, us: seq<string>, i: nat, f: string)
    requires AllUnits(forbids, us) && PrefixFree(forbids) && i <= |us| && f in forbids && f != ""
    ensures !(f <= Flatten(us[i..]))
  {
    if i < |us| {
      var u, x := us[i], Flatten(us[i..]);
      FlattenIsLonger(forbids, us[i..]);
      var g :| g in forbids && u[..|u| - 1] < g;
      BothPrefixes(f, u, x);
      assert f <= u[..|u| - 1] ==> f < g;
    }
  }

  /** The longest beginning of `w` that also begins a forbidden string. */
  lemma {:induction false} LongestInTrie(forbids: set<string>, w: string, n: nat) returns (k: nat)
    requires n <= |w| && exists f :: f in forbids && w[..n] <= f
    ensures n <= k <= |w| && (exists f :: f in forbids && w[..k] <= f)
    ensures k < |w| ==> forall f :: f in forbids ==> !(w[..k + 1] <= f)
    decreases |w| - n
  {
    if n < |w| && exists f :: f in forbids && w[..n + 1] <= f {
      k := LongestInTrie(forbids, w, n + 1);
    } else {
      k := n;
    }
  }

  /** Every text free of forbidden strings is a run of units and the beginning of a forbidden string. */
  lemma {:induction false} FreeTextSplits(forbids: set<string>, w: string) returns (us: seq<string>, rest: string)
    requires forbids != {} && Free(forbids, w)
    ensures w == Flatten(us) + rest && AllUnits(forbids, us)
    ensures exists f :: f in forbids && rest < f
    decreases |w|
  {
    var f0 :| f0 in forbids;
    assert w[..0] <= f0;
    var k := LongestInTrie(forbids, w, 0);
    var f :| f in forbids && w[..k] <= f;
    NotWhole(forbids, w, k, f);
    if k == |w| {
      us, rest := [], w;
      assert w[..k] == w;
    } else {
      var u := w[..k + 1];
      assert u[..|u| - 1] == w[..k];
      FreeTail(forbids, w, k + 1);
      us, rest := FreeTextSplits(forbids, w[k + 1..]);
      us := [u] + us;
      assert us[1..] == us[1..] && Flatten(us) == u + Flatten(us[1..]);
      assert w == u + w[k + 1..];
    }
  }

  lemma NotWhole(forbids: set<string>, w: string, k: nat, f: string)
    requires k <= |w| && f in forbids && w[..k] <= f && Free(forbids, w)
    ensures w[..k] < f
  {
    assert w[0..0 + k] == w[..k];
    assert w[..k] == f ==> OccursAt(w, f, 0);
  }

  lemma FreeTail(forbids: set<string>, w: string, k: nat)
    requires k <= |w| && Free(forbids, w)
    ensures Free(forbids, w[k..])
  {
    forall f, i | f in forbids ensures OccursAt(w[k..], f, i) ==> OccursAt(w, f, k + i) {
      if OccursAt(w[k..], f, i) { assert w[k + i..k + i + |f|] == w[k..][i..i + |f|]; }
    }
    assert forall f :: f in forbids ==> !Contains(w, f);
  }

  /** A character that no forbidden string holds; with ASCII strings, any other character is one. */
  ghost predicate Spares(forbids: set<string>, c: char) { forall f :: f in forbids ==> c !in f }

  /**
    The comment at the source promises that exactly the texts without forbidden strings match. That is
    so exactly if all forbidden strings are single characters. Where one begins another, it takes a
    character outside of all of them to show it.
    */
  lemma ExcludesExactlyIff(forbids: set<string>, e: Expr)
    requires forbids != {} && (PrefixFree(forbids) || exists c :: Spares(forbids, c))
    requires forall w :: Matches(e, w) <==> IsUnit(forbids, w)
    ensures (forall w :: StarMatches(e, w) <==> Free(forbids, w)) <==> (forall f :: f in forbids ==> |f| == 1)
  {
    if forall f :: f in forbids ==> |f| == 1 {
      forall w ensures StarMatches(e, w) <==> Free(forbids, w) { SingleCharacters(forbids, e, w); }
    } else if "" in forbids {
      EmptyIsMatched(forbids, e);
    } else {
      var f :| f in forbids && |f| != 1;
      if f[..1] in forbids {
        assert f[..1] < f;
        var c :| Spares(forbids, c);
        LeavesAtOnce(forbids, e, f, c);
      } else {
        StartIsStuck(forbids, e, f);
      }
    }
  }

  lemma EmptyIsMatched(forbids: set<string>, e: Expr)
    requires "" in forbids
    ensures StarMatches(e, "") && !Free(forbids, "")
  {
    var us: seq<string> := [];
    assert Flatten(us) == "";
    assert OccursAt("", "", 0);
  }

  /** Behind a forbidden character that begins a longer string, a unit leaves with any other one. */
  lemma LeavesAtOnce(forbids: set<string>, e: Expr, f: string, c: char)
    requires f in forbids && |f| > 1 && f[..1] in forbids && Spares(forbids, c)
    requires forall w :: Matches(e, w) <==> IsUnit(forbids, w)
    ensures var w := f[..1] + [c]; StarMatches(e, w) && !Free(forbids, w)
  {
    var w := f[..1] + [c];
    assert w[..1] == f[..1] < f;
    assert forall g :: g in forbids && w <= g ==> g[1] == c;
    var us := [w];
    assert Flatten(us) == w + Flatten(us[1..]) == w;
    assert OccursAt(w, f[..1], 0);
  }

  lemma SingleCharacters(forbids: set<string>, e: Expr, w: string)
    requires forbids != {} && (forall f :: f in forbids ==> |f| == 1)
    requires forall v :: Matches(e, v) <==> IsUnit(forbids, v)
    ensures StarMatches(e, w) <==> Free(forbids, w)
  {
    if StarMatches(e, w) {
      var us: seq<string> :| Flatten(us) == w && forall i :: 0 <= i < |us| ==> Matches(e, us[i]);
      assert AllUnits(forbids, us);
      SingleUnitsAreFree(forbids, us);
    }
    if Free(forbids, w) {
      var us, rest := FreeTextSplits(forbids, w);
      assert rest == "" && Flatten(us) + "" == Flatten(us);
      assert forall i :: 0 <= i < |us| ==> IsUnit(forbids, us[i]);
    }
  }

  lemma {:induction false} SingleUnitsAreFree(forbids: set<string>, us: seq<string>)
    requires (forall f :: f in forbids ==> |f| == 1) && AllUnits(forbids, us)
    ensures Free(forbids, Flatten(us))
    decreases |us|
  {
    if us != [] {
      var u, w, v := us[0], Flatten(us), Flatten(us[1..]);
      FlattenIsLonger(forbids, us);
      SingleUnitsAreFree(forbids, us[1..]);
      assert |u| == 1;
      forall f, i | f in forbids ensures !OccursAt(w, f, i) {
        assert !Contains(v, f);
        assert i > 0 && i + 1 <= |w| ==> w[i..i + 1] == v[i - 1..i - 1 + 1];
        assert !OccursAt(v, f, i - 1);
        assert i == 0 ==> w[0..0 + 1] == u;
        assert !(u <= f);
      }
    }
  }

  /** The first character of a longer forbidden string is free of forbidden strings but does not match. */
  lemma StartIsStuck(forbids: set<string>, e: Expr, f: string)
    requires "" !in forbids && f in forbids && |f| > 1 && f[..1] !in forbids
    requires forall v :: Matches(e, v) <==> IsUnit(forbids, v)
    ensures Free(forbids, f[..1]) && !StarMatches(e, f[..1])
  {
    var w := f[..1];
    forall g, i | g in forbids ensures !OccursAt(w, g, i) { OccursInOne(w, g, i); }
    StarBegins(forbids, e, w);
    assert forall u: string :: u <= w && IsUnit(forbids, u) ==> u <= f;
  }

  lemma OccursInOne(w: string, g: string, i: int)
    requires |w| == 1 && g != ""
    ensures OccursAt(w, g, i) ==> g == w
  {
    assert w[0..1] == w;
  }

  lemma StarBegins(forbids: set<string>, e: Expr, w: string)
    requires (forall v :: Matches(e, v) <==> IsUnit(forbids, v)) && w != ""
    ensures StarMatches(e, w) ==> exists u: string :: u <= w && IsUnit(forbids, u)
  {
    if StarMatches(e, w) {
      var us: seq<string> :| Flatten(us) == w && forall i :: 0 <= i < |us| ==> Matches(e, us[i]);
      assert AllUnits(forbids, us);
      FlattenIsLonger(forbids, us);
    }
  }

  /** A text that matches although it contains the forbidden string: `aab` is the units `aa` and `b`. */
  lemma MatchesForbidden()
    ensures var us := ["aa", "b"];
            AllUnits({"ab"}, us) && Flatten(us) == "aab" && Contains("aab", "ab")
  {
    var us := ["aa", "b"];
    assert "aa"[..1] < "ab" && "b"[..0] < "ab";
    assert "aa"[1] != "ab"[1] && "b"[0] != "ab"[0];
    assert us[1..] == ["b"] && us[1..][1..] == [];
    assert OccursAt("aab", "ab", 1);
  }

  /** Without prefix-freeness a unit may begin with a forbidden string: `ac` under `a` and `ab`. */
  lemma UnitBeginsForbidden()
    ensures IsUnit({"a", "ab"}, "ac") && "a" <= "ac" && !PrefixFree({"a", "ab"})
  {
    assert "ac"[..1] == "a" < "ab";
    assert "ac"[1] != "ab"[1];
  }
}
