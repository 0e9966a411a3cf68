/**
  What streaming clients rely on: a parse of a shorter output never shows text that a parse of
  a longer output takes back, and no piece of a tag is shown as content.
  */
module StreamSafety {
  import opened Base
  import opened Text
  import opened StreamParser

  // ---------------------------------------------------------------- reasoning

  lemma BlockGrows(syn: Syntax, tags: Tags, pending: string, x: string, y: string, closedX: bool, closedY: bool)
    requires x <= y
    requires syn.inContent && closedX ==> x == y && closedY
    ensures Block(syn, tags, pending, x, closedX).PrefixOf(Block(syn, tags, pending, y, closedY))
  {
    StripMonotone(x, y);
    if Strip(x) != "" && syn.inContent {
      var head := OpenTag(syn, tags) + Strip(x);
      assert head <= OpenTag(syn, tags) + Strip(y);
    }
  }

  lemma CutAtOverlap(s: string, tags: Tags, cursor: nat)
    requires cursor <= |s| && OpenEnd(s, tags, cursor) < |s|
    ensures IsOverlap(s, tags.end, OpenEnd(s, tags, cursor))
  {
    OverlapOfTail(s, tags.end, cursor, OpenEnd(s, tags, cursor));
  }

  lemma CutBeforeOverlap(s: string, tags: Tags, cursor: nat, k: nat)
    requires cursor <= k < |s| && IsOverlap(s, tags.end, k)
    ensures OpenEnd(s, tags, cursor) <= k
  {
    OverlapOfTail(s, tags.end, cursor, k);
  }

  /** An end tag of the longer text lies at or behind the cut made in the shorter one. */
  lemma CutBeforeTag(s: string, t: string, tags: Tags, cursor: nat, k: nat)
    requires s <= t && cursor <= |s| && Find(s, tags.end, cursor).None?
    requires cursor <= k && OccursAt(t, tags.end, k)
    ensures OpenEnd(s, tags, cursor) <= k
  {
    if k < |s| {
      if k + |tags.end| <= |s| {
        OccursInExtension(s, t, tags.end, k);
      } else {
        UnfinishedIsOverlap(s, t, tags.end, k);
        CutBeforeOverlap(s, tags, cursor, k);
      }
    }
  }

  lemma CutGrows(s: string, t: string, tags: Tags, cursor: nat)
    requires s <= t && cursor <= |s|
    ensures OpenEnd(s, tags, cursor) <= OpenEnd(t, tags, cursor)
  {
    var cut := OpenEnd(t, tags, cursor);
    if cut < |s| {
      CutAtOverlap(t, tags, cursor);
      OverlapShrinks(s, t, tags.end, cut);
      CutBeforeOverlap(s, tags, cursor, cut);
    }
  }

  /** A closing tag found in the shorter text is found at the same place in the longer one. */
  lemma FoundStays(s: string, t: string, p: string, from: nat)
    requires s <= t && Find(s, p, from).Some?
    ensures Find(t, p, from) == Find(s, p, from)
  {
    var k := Find(s, p, from).value;
    forall i | from <= i <= k ensures OccursAt(t, p, i) == OccursAt(s, p, i) {
      OccursInExtension(s, t, p, i);
    }
    FindIs(t, p, from, k);
  }

  lemma MatchStays(s: string, t: string, tags: Tags, at: nat)
    requires s <= t && at <= |s|
    ensures MatchTag(s, tags, at) != CutTag ==> MatchTag(t, tags, at) == MatchTag(s, tags, at)
  {
    if at + |tags.start| <= |s| {
      OccursInExtension(s, t, tags.start, at);
    }
    if MatchTag(t, tags, at).CutTag? {
      assert s[at..] <= t[at..];
    }
    if MatchTag(t, tags, at).WholeTag? && !MatchTag(s, tags, at).WholeTag? {
      assert s[at..] == t[at..at + |tags.start|][..|s| - at];
    }
  }

  /** A section still open in the shorter text. */
  lemma OpenRoundGrows(s: string, t: string, syn: Syntax, tags: Tags, p: bool, q: bool, cursor: nat, pending: string)
    requires s <= t && cursor < |s| && (p || !syn.inContent) && Find(s, tags.end, cursor).None?
    ensures var shorter := NextRound(s, syn, tags, p, cursor, pending);
            shorter.delta.PrefixOf(NextRound(t, syn, tags, q, cursor, pending).delta)
  {
    var cut, found := OpenEnd(s, tags, cursor), Find(t, tags.end, cursor);
    var x, closed := s[cursor..cut], cut == |s| && !p;
    if found.None? {
      CutGrows(s, t, tags, cursor);
      var cut' := OpenEnd(t, tags, cursor);
      assert x <= t[cursor..cut'];
      BlockGrows(syn, tags, pending, x, t[cursor..cut'], closed, cut' == |t| && !q);
    } else {
      CutBeforeTag(s, t, tags, cursor, found.value);
      assert x <= t[cursor..found.value];
      BlockGrows(syn, tags, pending, x, t[cursor..found.value], closed, true);
    }
  }

  lemma BehindBlockGrows(s: string, t: string, tags: Tags, next: nat, next': nat, pending: string, d: Delta)
    requires s <= t && next <= |s| && next' <= |t| && (next < |s| ==> next' == next)
    ensures var r, r' := BehindBlock(s, tags, next, pending, d), BehindBlock(t, tags, next', pending, d);
            r.Again? || r.pos < |s| ==> r' == r
  {
    MatchStays(s, t, tags, next);
  }

  /** A round whose section is closed, in terms of what follows the end tag. */
  lemma ClosedRound(
    s: string, syn: Syntax, tags: Tags, p: bool, cursor: nat, pending: string, found: nat, text: string, next: nat)
    requires cursor < |s| && Find(s, tags.end, cursor) == Some(found) && cursor <= found && found + |tags.end| <= |s|
    requires text == s[cursor..found] && next == SkipSpaces(s, found + |tags.end|)
    ensures NextRound(s, syn, tags, p, cursor, pending)
            == BehindBlock(s, tags, next, PendingAtTag(syn, tags, PendingAfterBlock(syn, pending, text)),
                           Block(syn, tags, pending, text, true))
  {
    hide Find, SkipSpaces, OpenEnd, Block, PendingAtTag, PendingAfterBlock, BehindBlock;
  }

  lemma SameText(s: string, t: string, i: nat, j: nat)
    requires s <= t && i <= j <= |s|
    ensures j <= |t| && s[i..j] == t[i..j]
  {
  }

  lemma OccursWithin(s: string, p: string, i: nat)
    requires OccursAt(s, p, i)
    ensures i + |p| <= |s|
  {
  }

  /** A section closed in the shorter text. */
  lemma ClosedRoundGrows(s: string, t: string, syn: Syntax, tags: Tags, p: bool, q: bool, cursor: nat, pending: string)
    requires s <= t && cursor < |s| && Find(s, tags.end, cursor).Some?
    ensures var r := NextRound(s, syn, tags, p, cursor, pending);
            var r' := NextRound(t, syn, tags, q, cursor, pending);
            r.delta == r'.delta && (r.Again? || r.pos < |s| ==> r' == r)
  {
    hide Find, SkipSpaces, OpenEnd, Block, PendingAtTag, PendingAfterBlock, BehindBlock, OccursAt, NextRound;
    var found := Find(s, tags.end, cursor).value;
    OccursWithin(s, tags.end, found);
    FoundStays(s, t, tags.end, cursor);
    SameText(s, t, cursor, found);
    var text := s[cursor..found];
    var next, next' := SkipSpaces(s, found + |tags.end|), SkipSpaces(t, found + |tags.end|);
    SkipSpacesInExtension(s, t, found + |tags.end|);
    ClosedRound(s, syn, tags, p, cursor, pending, found, text, next);
    ClosedRound(t, syn, tags, q, cursor, pending, found, text, next');
    BehindBlockGrows(s, t, tags, next, next', PendingAtTag(syn, tags, PendingAfterBlock(syn, pending, text)),
                     Block(syn, tags, pending, text, true));
  }

  /** One round on the shorter text against the same round on the longer text. */
  lemma RoundGrows(s: string, t: string, syn: Syntax, tags: Tags, p: bool, q: bool, cursor: nat, pending: string)
    requires s <= t && cursor <= |s| && (p || !syn.inContent)
    ensures var r := NextRound(s, syn, tags, p, cursor, pending);
            var r' := NextRound(t, syn, tags, q, cursor, pending);
            r.delta.PrefixOf(r'.delta) && (r.Again? || r.pos < |s| ==> r' == r)
  {
    if cursor < |s| {
      if Find(s, tags.end, cursor).None? {
        OpenRoundGrows(s, t, syn, tags, p, q, cursor, pending);
      } else {
        ClosedRoundGrows(s, t, syn, tags, p, q, cursor, pending);
      }
    }
  }

  lemma {:induction false} BlocksGrow(
    s: string, t: string, syn: Syntax, tags: Tags, p: bool, q: bool, cursor: nat, pending: string)
    requires s <= t && cursor <= |s| && |tags.start| + |tags.end| > 0 && (p || !syn.inContent)
    ensures var o := Blocks(s, syn, tags, p, cursor, pending);
            var o' := Blocks(t, syn, tags, q, cursor, pending);
            o.delta.PrefixOf(o'.delta) && (o.pos < |s| ==> o' == o)
    decreases |s| - cursor
  {
    RoundGrows(s, t, syn, tags, p, q, cursor, pending);
    var r := NextRound(s, syn, tags, p, cursor, pending);
    if r.Again? {
      BlocksGrow(s, t, syn, tags, p, q, r.cursor, r.pending);
    }
  }

  /**
    Reasoning is never taken back. For every extension of the input, content and reasoning read
    from a partial input are prefixes of what is read later, from partial or final input alike;
    with reasoning kept out of the content this even holds for an input parsed as final. Once
    the position stands in front of unread text, nothing that follows changes the outcome.
    */
  lemma ReasoningGrows(s: string, t: string, syn: Syntax, tags: Tags, p: bool, q: bool, pos: nat)
    requires s <= t && pos <= |s| && |tags.start| + |tags.end| > 0 && (p || !syn.inContent)
    ensures var o := Reasoning(s, syn, tags, p, pos);
            var o' := Reasoning(t, syn, tags, q, pos);
            && o.delta.PrefixOf(o'.delta)
            && (o.ok && o.pos < |s| ==> o' == o)
            && (!o.ok && SkipSpaces(s, pos) < |s| ==> o' == o)
  {
    hide ReasoningWith, SkipSpaces, MatchTag, Delta.PrefixOf;
    SkipSpacesInExtension(s, t, pos);
    var first := SkipSpaces(s, pos);
    if syn.format == NoReasoning {
      NothingGrows(s, t, syn, tags, p, q, pos);
    } else if first == |s| {
      BlankGrows(s, t, syn, tags, p, q, pos);
    } else {
      VisibleGrows(s, t, syn, tags, p, q, pos, first);
    }
  }

  lemma NothingGrows(s: string, t: string, syn: Syntax, tags: Tags, p: bool, q: bool, pos: nat)
    requires s <= t && pos <= |s| && |tags.start| + |tags.end| > 0 && syn.format == NoReasoning
    ensures var o := ReasoningWith(s, syn, tags, p, pos, "");
            !o.ok && o.delta == NOTHING && ReasoningWith(t, syn, tags, q, pos, "") == o
    ensures forall d: Delta :: NOTHING.PrefixOf(d)
  {
  }

  /** Only white space so far: nothing has been shown yet. */
  lemma BlankGrows(s: string, t: string, syn: Syntax, tags: Tags, p: bool, q: bool, pos: nat)
    requires s <= t && pos <= |s| && |tags.start| + |tags.end| > 0 && SkipSpaces(s, pos) == |s| &&
             syn.format != NoReasoning
    ensures var o := ReasoningWith(s, syn, tags, p, pos, "");
            var o' := ReasoningWith(t, syn, tags, q, pos, "");
            o.delta.PrefixOf(o'.delta) && (o.ok ==> o.pos == |s|)
  {
    hide SkipSpaces, Strip, Tagged, Blocks, MatchTag;
    BlanksAre(s, pos);
    BlankStrips(s[pos..]);
  }

  lemma BlanksAre(s: string, pos: nat)
    requires pos <= |s| && SkipSpaces(s, pos) == |s|
    ensures forall k :: 0 <= k < |s[pos..]| ==> IsSpace(s[pos..][k])
  {
  }

  /** Visible text at `first`: the same branch is taken on the longer text, unless the tag is cut. */
  lemma VisibleGrows(s: string, t: string, syn: Syntax, tags: Tags, p: bool, q: bool, pos: nat, first: nat)
    requires s <= t && pos <= first < |s| && |tags.start| + |tags.end| > 0 && (p || !syn.inContent) &&
             syn.format != NoReasoning
    requires SkipSpaces(s, pos) == first == SkipSpaces(t, pos)
    ensures var o := ReasoningWith(s, syn, tags, p, pos, "");
            var o' := ReasoningWith(t, syn, tags, q, pos, "");
            && o.delta.PrefixOf(o'.delta)
            && (o.ok && o.pos < |s| ==> o' == o)
            && (!o.ok ==> o' == o)
  {
    hide SkipSpaces, Tagged, Blocks, MatchTag;
    MatchStays(s, t, tags, first);
    var m := MatchTag(s, tags, first);
    if m == WholeTag {
      TaggedGrows(s, t, syn, tags, p, q, pos, first, "");
    } else if m == NoTag && syn.forcedOpen {
      BlocksGrow(s, t, syn, tags, p, q, first, "");
    }
  }

  lemma TaggedGrows(s: string, t: string, syn: Syntax, tags: Tags, p: bool, q: bool, pos: nat, at: nat, pending: string)
    requires s <= t && pos <= at && OccursAt(s, tags.start, at) && OccursAt(t, tags.start, at)
    requires |tags.start| + |tags.end| > 0 && (p || !syn.inContent)
    ensures var o := Tagged(s, syn, tags, p, pos, at, pending);
            var o' := Tagged(t, syn, tags, q, pos, at, pending);
            o.delta.PrefixOf(o'.delta) && (o.pos < |s| ==> o' == o)
  {
    hide Blocks;
    assert s[pos..at] == t[pos..at];
    var pending' := PendingAtTag(syn, tags, pending);
    BlocksGrow(s, t, syn, tags, p, q, at + |tags.start|, pending');
    ThenGrows(Delta(s[pos..at], ""), Blocks(s, syn, tags, p, at + |tags.start|, pending').delta,
              Blocks(t, syn, tags, q, at + |tags.start|, pending').delta);
  }

  lemma ThenGrows(d: Delta, e: Delta, e': Delta)
    requires e.PrefixOf(e')
    ensures d.Then(e).PrefixOf(d.Then(e'))
  {
    assert d.Then(e).content <= d.Then(e').content;
  }

  lemma {:induction false} BlankStrips(x: string)
    requires forall k :: 0 <= k < |x| ==> IsSpace(x[k])
    ensures Strip(x) == ""
  {
    if x != "" { BlankStrips(x[1..]); }
  }
}
