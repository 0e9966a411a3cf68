/**
  What the message parser makes of reasoning in its tags. Every text has a layout of sections and an
  ending, and for every layout this module says what is shown as content and as reasoning, and where
  the parser stops.
  */
module StreamReading {
  import opened Base
  import opened Text
  import opened StreamParser
  import opened StreamSafety

  // ---------------------------------------------------------------- layouts

  /** A closed section, with the white space behind its end tag. */
  datatype Section = Section(text: string, gap: string)

  /** What comes behind the closed sections. */
  datatype Ending =
    | Tail(text: string)      // other text, or nothing
    | CutStart(text: string)  // the beginning of another start tag
    | Unclosed(text: string)  // a section without its end tag

  /** The tags can be told from white space. */
  predicate Visible(tags: Tags) { tags.start != "" && tags.end != "" && !IsSpace(tags.start[0]) }

  /** `text` and the start tag differ in a character. */
  ghost predicate Unlike(text: string, start: string) {
    exists k :: 0 <= k < Min(|text|, |start|) && text[k] != start[k]
  }

  /** The first end tag behind the text is the one that closes it. */
  ghost predicate Clean(tags: Tags, section: Section) {
    && Find(section.text + tags.end, tags.end, 0) == Some(|section.text|)
    && forall k :: 0 <= k < |section.gap| ==> IsSpace(section.gap[k])
  }

  ghost predicate Ends(tags: Tags, ending: Ending) {
    match ending
    case Tail(text) => text != "" ==> !IsSpace(text[0]) && Unlike(text, tags.start)
    case CutStart(text) => text != "" && text < tags.start
    case Unclosed(text) => Find(text, tags.end, 0).None?
  }

  /** The text from behind a start tag on. */
  function Inside(tags: Tags, sections: seq<Section>, ending: Ending): string
    decreases |sections|, 0
  {
    if sections == [] then ending.text
    else sections[0].text + (tags.end + (sections[0].gap + Behind(tags, sections[1..], ending)))
  }

  /** The text from behind a section on: another section, or the ending. */
  function Behind(tags: Tags, sections: seq<Section>, ending: Ending): string
    decreases |sections|, 1
  {
    if sections == [] && !ending.Unclosed? then ending.text else tags.start + Inside(tags, sections, ending)
  }

  ghost predicate Valid(tags: Tags, sections: seq<Section>, ending: Ending) {
    && Visible(tags) && Ends(tags, ending) && (sections == [] ==> ending.Unclosed?)
    && forall k :: 0 <= k < |sections| ==> Clean(tags, sections[k])
  }

  // ---------------------------------------------------------------- what is shown

  /** The part of an unclosed section that cannot become an end tag. */
  function Settled(text: string, end: string): string {
    match PartialStop(text, end)
    case None => text
    case Some(k) => text[..k]
  }

  /** The text of the last section, if that is still open. */
  function Last(tags: Tags, ending: Ending): string {
    if ending.Unclosed? then Settled(ending.text, tags.end) else ""
  }

  /** Stripped text between two others, or nothing at all if it is blank. */
  function Framed(open: string, text: string, close: string): string {
    if Strip(text) == "" then "" else open + Strip(text) + close
  }

  /** All sections in their tags; the last one, still open, has `lastClose` behind it. */
  function Shown(open: string, close: string, sections: seq<Section>, last: string, lastClose: string): string {
    if sections == [] then Framed(open, last, lastClose)
    else Framed(open, sections[0].text, close) + Shown(open, close, sections[1..], last, lastClose)
  }

  /** All texts; the first is led by `lead`, the others by `next`. */
  function Told(lead: string, next: string, sections: seq<Section>, last: string): string
    decreases |sections|
  {
    if sections == [] then Framed(lead, last, "")
    else Framed(lead, sections[0].text, "") + Told(next, next, sections[1..], last)
  }

  /** What is shown of sections whose first one is led by `lead` when reasoning is kept apart. */
  function Read(syn: Syntax, tags: Tags, p: bool, lead: string, sections: seq<Section>, ending: Ending): Delta {
    var open := if syn.format == Deepseek then "<think>" else tags.start;
    var close := if syn.format == Deepseek then "</think>" else tags.end;
    var last := Last(tags, ending);
    if syn.inContent
    then Delta(Shown(open, close, sections, last, if last == ending.text && !p then close else ""), "")
    else Delta("", Told(lead, if syn.forcedOpen then tags.start else "", sections, last))
  }

  lemma BlockIs(syn: Syntax, tags: Tags, pending: string, text: string, closed: bool)
    ensures var open := if syn.format == Deepseek then "<think>" else tags.start;
            var close := if syn.format == Deepseek then "</think>" else tags.end;
            Block(syn, tags, pending, text, closed)
            == if syn.inContent then Delta(Framed(open, text, if closed then close else ""), "")
               else Delta("", Framed(pending, text, ""))
  {
    hide Strip;
    assert pending + Strip(text) + "" == pending + Strip(text);
  }

  /** The text that leads the next section. */
  lemma PendingIs(syn: Syntax, tags: Tags, pending: string, text: string)
    requires syn.inContent || syn.forcedOpen || pending == ""
    ensures var next := PendingAtTag(syn, tags, PendingAfterBlock(syn, pending, text));
            !syn.inContent ==> next == if syn.forcedOpen then tags.start else ""
  {
    hide Strip;
  }

  // ---------------------------------------------------------------- one round

  lemma FindBehind(pre: string, text: string, p: string, rest: string)
    requires Find(text + p, p, 0) == Some(|text|)
    ensures Find(pre + (text + (p + rest)), p, |pre|) == Some(|pre| + |text|)
  {
    var s := pre + (text + (p + rest));
    assert s[|pre| + |text|..|pre| + |text| + |p|] == p;
    forall i | |pre| <= i < |pre| + |text| ensures !OccursAt(s, p, i) {
      assert !OccursAt(text + p, p, i - |pre|);
      assert s[i..i + |p|] == (text + p)[i - |pre|..i - |pre| + |p|];
    }
    FindIs(s, p, |pre|, |pre| + |text|);
  }

  lemma OccursInside(pre: string, text: string, p: string, k: nat)
    requires |pre| <= k && OccursAt(pre + text, p, k)
    ensures OccursAt(text, p, k - |pre|)
  {
    assert text[k - |pre|..k - |pre| + |p|] == (pre + text)[k..k + |p|];
  }

  lemma FindNone(pre: string, text: string, p: string)
    requires Find(text, p, 0).None?
    ensures Find(pre + text, p, |pre|).None?
  {
    hide Find, OccursAt;
    if Find(pre + text, p, |pre|).Some? { OccursInside(pre, text, p, Find(pre + text, p, |pre|).value); }
  }

  lemma SkipGap(pre: string, gap: string, rest: string)
    requires forall k :: 0 <= k < |gap| ==> IsSpace(gap[k])
    requires rest != "" ==> !IsSpace(rest[0])
    ensures SkipSpaces(pre + (gap + rest), |pre|) == |pre| + |gap|
  {
    var s := pre + (gap + rest);
    var r := SkipSpaces(s, |pre|);
    forall k | |pre| <= k < |pre| + |gap| ensures IsSpace(s[k]) {
      assert s[k] == gap[k - |pre|];
    }
    assert rest != "" ==> s[|pre| + |gap|] == rest[0];
  }

  /** A literal that stands in the text agrees with it in every position. */
  lemma MismatchEnds(s: string, literal: string, at: nat, i: nat)
    requires i < |literal|
    ensures OccursAt(s, literal, at) ==> at + i < |s| && s[at + i] == literal[i]
  {
    if OccursAt(s, literal, at) {
      assert s[at..at + |literal|][i] == s[at + i];
    }
  }

  lemma MatchWhole(pre: string, tags: Tags, rest: string)
    ensures MatchTag(pre + (tags.start + rest), tags, |pre|) == WholeTag
  {
    var s := pre + (tags.start + rest);
    assert s[|pre|..|pre| + |tags.start|] == tags.start;
  }

  lemma MatchUnlike(pre: string, tags: Tags, rest: string)
    requires Unlike(rest, tags.start)
    ensures MatchTag(pre + rest, tags, |pre|) == NoTag
  {
    var k :| 0 <= k < Min(|rest|, |tags.start|) && rest[k] != tags.start[k];
    assert (pre + rest)[|pre|..] == rest;
    assert (pre + rest)[|pre| + k] == rest[k];
    MismatchEnds(pre + rest, tags.start, |pre|, k);
  }

  lemma MatchCut(pre: string, tags: Tags, rest: string)
    requires rest < tags.start
    ensures MatchTag(pre + rest, tags, |pre|) == CutTag
  {
    assert (pre + rest)[|pre|..] == rest;
  }

  lemma BehindStartsVisibly(tags: Tags, sections: seq<Section>, ending: Ending)
    requires Visible(tags) && Ends(tags, ending)
    ensures var rest := Behind(tags, sections, ending); rest != "" ==> !IsSpace(rest[0])
  {
  }

  lemma Layout(a: string, text: string, end: string, gap: string, rest: string, s: string)
    requires s == a + (text + (end + (gap + rest)))
    ensures s == a + text + end + (gap + rest) && s == a + text + end + gap + rest
    ensures |a| + |text| <= |s| && s[|a|..|a| + |text|] == text
  {
  }

  /** The round that reads one closed section, up to the text behind its gap. */
  lemma SectionRound(
    a: string, sec: Section, rest: string, syn: Syntax, tags: Tags, p: bool, pending: string, s: string)
    returns (c: string)
    requires Clean(tags, sec) && tags.end != "" && (rest != "" ==> !IsSpace(rest[0]))
    requires s == a + (sec.text + (tags.end + (sec.gap + rest)))
    ensures s == c + rest && |a| < |s|
    ensures NextRound(s, syn, tags, p, |a|, pending)
            == BehindBlock(s, tags, |c|, PendingAtTag(syn, tags, PendingAfterBlock(syn, pending, sec.text)),
                           Block(syn, tags, pending, sec.text, true))
  {
    hide SkipSpaces, Find, BehindBlock, Strip, NextRound, Block, PendingAtTag, PendingAfterBlock;
    FindBehind(a, sec.text, tags.end, sec.gap + rest);
    Layout(a, sec.text, tags.end, sec.gap, rest, s);
    SkipGap(a + sec.text + tags.end, sec.gap, rest);
    c := a + sec.text + tags.end + sec.gap;
    ClosedRound(s, syn, tags, p, |a|, pending, |a| + |sec.text|, sec.text, |c|);
  }

  /** What follows a closed section ends the reading, or starts another section. */
  lemma BehindRound(c: string, tags: Tags, more: seq<Section>, ending: Ending, pending: string, d: Delta, s: string)
    requires Visible(tags) && Ends(tags, ending) && s == c + Behind(tags, more, ending)
    ensures more == [] && !ending.Unclosed? ==> BehindBlock(s, tags, |c|, pending, d) == Stop(StopOf(s, ending), d)
    ensures more != [] || ending.Unclosed? ==>
              s == c + tags.start + Inside(tags, more, ending) &&
              BehindBlock(s, tags, |c|, pending, d) == Again(|c| + |tags.start|, pending, d)
  {
    hide MatchTag, Inside;
    var rest := Behind(tags, more, ending);
    if more != [] || ending.Unclosed? {
      MatchWhole(c, tags, Inside(tags, more, ending));
      assert |rest| >= |tags.start|;
    } else if ending.Tail? {
      if rest != "" { MatchUnlike(c, tags, rest); }
    } else {
      MatchCut(c, tags, rest);
    }
  }

  /** Other text is left unread. */
  function StopOf(s: string, ending: Ending): (n: int) {
    if ending.Tail? then |s| - |ending.text| else |s|
  }

  lemma OpenRound(
    a: string, syn: Syntax, tags: Tags, p: bool, pending: string, ending: Ending, s: string)
    requires ending.Unclosed? && Ends(tags, ending) && tags.end != "" && s == a + ending.text
    ensures NextRound(s, syn, tags, p, |a|, pending) == Stop(|s|, Read(syn, tags, p, pending, [], ending))
  {
    hide Find, Strip, PartialStop;
    var text := ending.text;
    FindNone(a, text, tags.end);
    assert s[|a|..] == text;
    var stop := OpenEnd(s, tags, |a|);
    assert s[|a|..stop] == Settled(text, tags.end) by { SettledIs(a, tags, text, s); }
    assert stop == |s| <==> Settled(text, tags.end) == text by { SettledIs(a, tags, text, s); }
    BlockIs(syn, tags, pending, Settled(text, tags.end), stop == |s| && !p);
    if text == "" { NothingStrips(); }
  }

  lemma NothingStrips()
    ensures Strip("") == ""
  {
  }

  lemma SettledIs(a: string, tags: Tags, text: string, s: string)
    requires s == a + text
    ensures var stop := OpenEnd(s, tags, |a|);
            s[|a|..stop] == Settled(text, tags.end) && (stop == |s| <==> Settled(text, tags.end) == text)
  {
    assert s[|a|..] == text;
    match PartialStop(text, tags.end)
    case None => assert s[|a|..|s|] == text;
    case Some(k) => assert s[|a|..|a| + k] == text[..k] && |text[..k]| < |text|;
  }

  // ---------------------------------------------------------------- the loop

  lemma ReadCons(syn: Syntax, tags: Tags, p: bool, lead: string, sections: seq<Section>, ending: Ending)
    requires sections != []
    ensures Read(syn, tags, p, lead, sections, ending)
            == Block(syn, tags, lead, sections[0].text, true).Then(
                 Read(syn, tags, p, if syn.forcedOpen then tags.start else "", sections[1..], ending))
  {
    hide Framed;
    BlockIs(syn, tags, lead, sections[0].text, true);
  }

  lemma ThenNothing(d: Delta)
    ensures d.Then(NOTHING) == d
  {
    assert d.content + "" == d.content && d.reasoning + "" == d.reasoning;
  }

  lemma EndsAtEnd(s: string, ending: Ending)
    ensures ending.Unclosed? ==> StopOf(s, ending) == |s|
  {
  }

  lemma ReadNone(syn: Syntax, tags: Tags, p: bool, lead: string, ending: Ending)
    requires !ending.Unclosed?
    ensures Read(syn, tags, p, lead, [], ending) == NOTHING
  {
    NothingStrips();
  }

  lemma LeadsAlike(syn: Syntax, tags: Tags, p: bool, a: string, b: string, sections: seq<Section>, ending: Ending)
    requires syn.inContent || a == b
    ensures Read(syn, tags, p, a, sections, ending) == Read(syn, tags, p, b, sections, ending)
  {
  }

  /** The loop reads all sections and stops in front of other text. */
  lemma {:induction false} SectionsRead(
    pre: string, sections: seq<Section>, ending: Ending, syn: Syntax, tags: Tags, p: bool, pending: string, s: string)
    requires Valid(tags, sections, ending) && s == pre + Inside(tags, sections, ending)
    requires syn.inContent || syn.forcedOpen || pending == ""
    ensures 0 <= StopOf(s, ending)
    ensures Blocks(s, syn, tags, p, |pre|, pending)
            == Outcome(true, StopOf(s, ending), Read(syn, tags, p, pending, sections, ending))
    decreases |sections|
  {
    hide NextRound, Read, Block, PendingAtTag, PendingAfterBlock, BehindBlock, Behind, Unlike, Ends, Clean, StopOf;
    if sections == [] {
      OpenRound(pre, syn, tags, p, pending, ending, s);
      EndsAtEnd(s, ending);
    } else {
      var sec, more := sections[0], sections[1..];
      var rest := Behind(tags, more, ending);
      BehindStartsVisibly(tags, more, ending);
      var c := SectionRound(pre, sec, rest, syn, tags, p, pending, s);
      var next := PendingAtTag(syn, tags, PendingAfterBlock(syn, pending, sec.text));
      PendingIs(syn, tags, pending, sec.text);
      BehindRound(c, tags, more, ending, next, Block(syn, tags, pending, sec.text, true), s);
      ReadCons(syn, tags, p, pending, sections, ending);
      LeadsAlike(syn, tags, p, next, if syn.forcedOpen then tags.start else "", more, ending);
      if more == [] && !ending.Unclosed? {
        ReadNone(syn, tags, p, if syn.forcedOpen then tags.start else "", ending);
        ThenNothing(Block(syn, tags, pending, sec.text, true));
      } else {
        SectionsRead(c + tags.start, more, ending, syn, tags, p, next, s);
      }
    }
  }

  // ---------------------------------------------------------------- whole answers

  /** What a text holds behind the white space at its start. */
  datatype Body =
    | Empty
    | Begun(text: string)                                 // the beginning of a start tag
    | WithTag(sections: seq<Section>, ending: Ending)     // a start tag and what follows
    | WithoutTag(sections: seq<Section>, ending: Ending)  // something else, with end tags or without

  datatype Answer = Answer(blank: string, body: Body)

  function BodyText(tags: Tags, body: Body): string {
    match body
    case Empty => ""
    case Begun(text) => text
    case WithTag(sections, ending) => tags.start + Inside(tags, sections, ending)
    case WithoutTag(sections, ending) => Inside(tags, sections, ending)
  }

  ghost predicate ValidAnswer(tags: Tags, a: Answer) {
    && Visible(tags) && (forall k :: 0 <= k < |a.blank| ==> IsSpace(a.blank[k]))
    && match a.body
       case Empty => true
       case Begun(text) => text != "" && text < tags.start
       case WithTag(sections, ending) => Valid(tags, sections, ending)
       case WithoutTag(sections, ending) =>
         var text := Inside(tags, sections, ending);
         Valid(tags, sections, ending) && text != "" && !IsSpace(text[0]) && Unlike(text, tags.start)
  }

  /** What is read of an answer that begins at `pos`: whether there is reasoning, where reading stops in `s`,
      and what is shown. */
  function Meaning(s: string, pos: nat, a: Answer, syn: Syntax, tags: Tags, p: bool): (bool, int, Delta) {
    var refused := (false, pos as int, NOTHING);
    if syn.format == NoReasoning then refused
    else
      match a.body
      case Empty => if syn.forcedOpen then (true, |s|, NOTHING) else refused
      case Begun(_) => (true, |s|, NOTHING)
      case WithTag(sections, ending) =>
        var lead := if syn.forcedOpen then tags.start else "";
        (true, StopOf(s, ending), Delta(a.blank, "").Then(Read(syn, tags, p, lead, sections, ending)))
      case WithoutTag(sections, ending) =>
        if syn.forcedOpen then (true, StopOf(s, ending), Read(syn, tags, p, "", sections, ending)) else refused
  }

  lemma BodyStartsVisibly(tags: Tags, a: Answer)
    requires ValidAnswer(tags, a)
    ensures BodyText(tags, a.body) != "" ==> !IsSpace(BodyText(tags, a.body)[0])
    ensures BodyText(tags, a.body) == "" <==> a.body.Empty?
  {
    hide Valid, Inside, Unlike;
  }

  /** How the text behind the white space compares with the start tag. */
  lemma BodyMatches(pre: string, tags: Tags, a: Answer)
    requires ValidAnswer(tags, a)
    ensures var m := MatchTag(pre + BodyText(tags, a.body), tags, |pre|);
            && (a.body.Begun? ==> m == CutTag) && (a.body.WithTag? ==> m == WholeTag)
            && (a.body.WithoutTag? ==> m == NoTag)
  {
    hide MatchTag, Unlike, Valid, Inside;
    match a.body
    case Empty =>
    case Begun(text) => MatchCut(pre, tags, text);
    case WithTag(sections, ending) => MatchWhole(pre, tags, Inside(tags, sections, ending));
    case WithoutTag(sections, ending) => MatchUnlike(pre, tags, Inside(tags, sections, ending));
  }

  lemma TaggedIsRead(pre: string, sections: seq<Section>, ending: Ending, syn: Syntax, tags: Tags, p: bool, pos: nat)
    requires Valid(tags, sections, ending) && pos <= |pre|
    ensures var s := pre + (tags.start + Inside(tags, sections, ending));
            var lead := if syn.forcedOpen then tags.start else "";
            && OccursAt(s, tags.start, |pre|) && StopOf(s, ending) >= 0
            && Tagged(s, syn, tags, p, pos, |pre|, "")
               == Outcome(true, StopOf(s, ending),
                    Delta(s[pos..|pre|], "").Then(Read(syn, tags, p, lead, sections, ending)))
  {
    hide Blocks, Read, Valid, Inside, StopOf;
    var s := pre + (tags.start + Inside(tags, sections, ending));
    assert s[|pre|..|pre| + |tags.start|] == tags.start;
    assert s == pre + tags.start + Inside(tags, sections, ending);
    var pending := PendingAtTag(syn, tags, "");
    SectionsRead(pre + tags.start, sections, ending, syn, tags, p, pending, s);
    LeadsAlike(syn, tags, p, pending, if syn.forcedOpen then tags.start else "", sections, ending);
  }

  /** From any position: what is read of the rest of the text, whatever its layout. */
  lemma AnswerIsRead(before: string, a: Answer, syn: Syntax, tags: Tags, p: bool)
    requires ValidAnswer(tags, a)
    ensures var s := before + (a.blank + BodyText(tags, a.body));
            var o := Reasoning(s, syn, tags, p, |before|);
            (o.ok, o.pos as int, o.delta) == Meaning(s, |before|, a, syn, tags, p)
  {
    hide Blocks, Tagged, Read, Valid, Inside, StopOf, SkipSpaces, MatchTag, Strip, Unlike;
    var body := BodyText(tags, a.body);
    var s, pre := before + (a.blank + body), before + a.blank;
    assert s == pre + body;
    BodyStartsVisibly(tags, a);
    SkipGap(before, a.blank, body);
    BodyMatches(pre, tags, a);
    match a.body
    case Empty => BlankIsNothing(a.blank, syn, tags, p);
      assert s[|before|..] == a.blank;
    case Begun(_) =>
    case WithTag(sections, ending) =>
      TaggedIsRead(pre, sections, ending, syn, tags, p, |before|);
      assert s[|before|..|pre|] == a.blank;
    case WithoutTag(sections, ending) =>
      if syn.forcedOpen { SectionsRead(pre, sections, ending, syn, tags, p, "", s); }
  }

  /**
    Reading undoes writing: blanks, closed sections and other text, as a model writes them. Inside the content
    the sections stand stripped between their tags; kept apart, their texts follow each other, each led by the
    start tag if the template forces it open.
    */
  lemma RenderedReasoningIsRead(blank: string, sections: seq<Section>, tail: string, syn: Syntax, tags: Tags, p: bool)
    requires sections != [] && Valid(tags, sections, Tail(tail)) && syn.format != NoReasoning
    requires forall k :: 0 <= k < |blank| ==> IsSpace(blank[k])
    ensures var s := blank + (tags.start + Inside(tags, sections, Tail(tail)));
            var open := if syn.format == Deepseek then "<think>" else tags.start;
            var close := if syn.format == Deepseek then "</think>" else tags.end;
            var lead := if syn.forcedOpen then tags.start else "";
            var o := Reasoning(s, syn, tags, p, 0);
            && o.ok && o.pos == |s| - |tail|
            && o.delta == if syn.inContent then Delta(blank + Shown(open, close, sections, "", ""), "")
                          else Delta(blank, Told(lead, lead, sections, ""))
  {
    hide Reasoning, Valid, Inside, Shown, Told;
    var a := Answer(blank, WithTag(sections, Tail(tail)));
    var s := blank + (tags.start + Inside(tags, sections, Tail(tail)));
    ValidVisible(tags, sections, Tail(tail));
    AnswerIsRead("", a, syn, tags, p);
    assert "" + (a.blank + BodyText(tags, a.body)) == s;
    var open := if syn.format == Deepseek then "<think>" else tags.start;
    var close := if syn.format == Deepseek then "</think>" else tags.end;
    LastCloseIdle(open, close, sections, if "" == tail && !p then close else "");
    assert blank + "" == blank;
    assert "" + Told(if syn.forcedOpen then tags.start else "", if syn.forcedOpen then tags.start else "", sections, "")
           == Told(if syn.forcedOpen then tags.start else "", if syn.forcedOpen then tags.start else "", sections, "");
  }

  lemma ValidVisible(tags: Tags, sections: seq<Section>, ending: Ending)
    requires Valid(tags, sections, ending)
    ensures Visible(tags)
  {
  }

  /** Without an open section it does not matter what would stand behind it. */
  lemma {:induction false} LastCloseIdle(open: string, close: string, sections: seq<Section>, lastClose: string)
    ensures Shown(open, close, sections, "", lastClose) == Shown(open, close, sections, "", "")
  {
    hide Strip;
    if sections == [] { NothingStrips(); } else { LastCloseIdle(open, close, sections[1..], lastClose); }
  }

  lemma BlankIsNothing(blank: string, syn: Syntax, tags: Tags, p: bool)
    requires forall k :: 0 <= k < |blank| ==> IsSpace(blank[k])
    ensures Block(syn, tags, "", blank, !p) == NOTHING
  {
    BlankStrips(blank);
  }

  // ---------------------------------------------------------------- every text has a layout

  lemma CleanFrom(tags: Tags, t: string, k: nat, gap: string)
    requires Find(t, tags.end, 0) == Some(k) && forall i :: 0 <= i < |gap| ==> IsSpace(gap[i])
    ensures Clean(tags, Section(t[..k], gap))
  {
    var x := t[..k] + tags.end;
    assert x[k..k + |tags.end|] == tags.end;
    forall i | 0 <= i < k ensures !OccursAt(x, tags.end, i) {
      if OccursAt(x, tags.end, i) {
        assert x == t[..k + |tags.end|];
        assert t[i..i + |tags.end|] == x[i..i + |tags.end|];
        assert OccursAt(t, tags.end, i);
      }
    }
    FindIs(x, tags.end, 0, k);
  }

  /** Two texts differ somewhere, or one begins the other. */
  lemma {:induction false} UnlikeOr(a: string, b: string)
    ensures Unlike(a, b) || a <= b || b <= a
  {
    var n := Min(|a|, |b|);
    if !Unlike(a, b) { assert a[..n] == b[..n]; }
  }

  /** The text behind a section, other than a whole start tag. */
  lemma EndingOf(tags: Tags, rest: string) returns (ending: Ending)
    requires Visible(tags) && !(tags.start <= rest) && (rest != "" ==> !IsSpace(rest[0]))
    ensures Ends(tags, ending) && ending.text == rest && !ending.Unclosed?
  {
    UnlikeOr(rest, tags.start);
    ending := if rest != "" && rest <= tags.start then CutStart(rest) else Tail(rest);
  }

  lemma AddSection(tags: Tags, sec: Section, more: seq<Section>, ending: Ending)
    requires Clean(tags, sec) && Visible(tags) && Ends(tags, ending)
    requires (more == [] && !ending.Unclosed?) || Valid(tags, more, ending)
    ensures Valid(tags, [sec] + more, ending)
    ensures Inside(tags, [sec] + more, ending) == sec.text + (tags.end + (sec.gap + Behind(tags, more, ending)))
  {
    hide Clean, Ends;
    assert ([sec] + more)[1..] == more;
    assert forall k :: 1 <= k < |[sec] + more| ==> ([sec] + more)[k] == more[k - 1];
  }

  /** The first section of a text that has an end tag, and what is behind it. */
  lemma FirstSection(tags: Tags, t: string) returns (sec: Section, rest: string)
    requires Visible(tags) && Find(t, tags.end, 0).Some?
    ensures Clean(tags, sec) && t == sec.text + (tags.end + (sec.gap + rest))
    ensures |rest| < |t| && (rest != "" ==> !IsSpace(rest[0]))
  {
    hide Find, OccursAt, Clean, SkipSpaces;
    var k := Find(t, tags.end, 0).value;
    OccursWithin(t, tags.end, k);
    var next := SkipSpaces(t, k + |tags.end|);
    sec, rest := Section(t[..k], t[k + |tags.end|..next]), t[next..];
    CleanFrom(tags, t, k, sec.gap);
    Pieces(t, tags.end, k, next);
  }

  /** A text from behind a start tag on is a number of closed sections and an ending. */
  lemma {:induction false} EveryInside(tags: Tags, t: string) returns (sections: seq<Section>, ending: Ending)
    requires Visible(tags)
    ensures Valid(tags, sections, ending) && Inside(tags, sections, ending) == t
    decreases |t|
  {
    hide Find, Unlike, Clean, Valid, Inside;
    if Find(t, tags.end, 0).None? {
      sections, ending := [], Unclosed(t);
      OnlyEnding(tags, ending);
    } else {
      var sec, rest := FirstSection(tags, t);
      if tags.start <= rest {
        var more: seq<Section>;
        more, ending := EveryInside(tags, rest[|tags.start|..]);
        OfValid(tags, more, ending);
        AddSection(tags, sec, more, ending);
        sections := [sec] + more;
      } else {
        ending := EndingOf(tags, rest);
        AddSection(tags, sec, [], ending);
        sections := [sec] + [];
      }
    }
  }

  lemma OnlyEnding(tags: Tags, ending: Ending)
    requires Visible(tags) && ending.Unclosed? && Ends(tags, ending)
    ensures Valid(tags, [], ending) && Inside(tags, [], ending) == ending.text
  {
  }

  lemma OfValid(tags: Tags, sections: seq<Section>, ending: Ending)
    requires Valid(tags, sections, ending)
    ensures Ends(tags, ending) && (sections != [] || ending.Unclosed?)
  {
  }

  lemma Pieces(t: string, end: string, k: nat, next: nat)
    requires OccursAt(t, end, k) && k + |end| <= next <= |t|
    ensures t == t[..k] + (end + (t[k + |end|..next] + t[next..]))
  {
  }

  /** Every text is an answer of one of these layouts, so that `AnswerIsRead` says what is read of it. */
  lemma EveryAnswer(tags: Tags, t: string) returns (a: Answer)
    requires Visible(tags)
    ensures ValidAnswer(tags, a) && t == a.blank + BodyText(tags, a.body)
  {
    hide SkipSpaces, Inside, Valid;
    var first := SkipSpaces(t, 0);
    var blank, rest := t[..first], t[first..];
    assert t == blank + rest;
    UnlikeOr(rest, tags.start);
    if rest == "" {
      a := Answer(blank, Empty);
    } else if tags.start <= rest {
      var sections, ending := EveryInside(tags, rest[|tags.start|..]);
      a := Answer(blank, WithTag(sections, ending));
    } else if rest <= tags.start {
      a := Answer(blank, Begun(rest));
    } else {
      var sections, ending := EveryInside(tags, rest);
      a := Answer(blank, WithoutTag(sections, ending));
    }
  }
}
