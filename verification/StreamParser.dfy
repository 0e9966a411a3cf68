/**
  The message parser of chat-parser.cpp: it is run again on every longer prefix of a model's
  output, so what it reports for a prefix must never have to be taken back.
  */
module StreamParser {
  import opened Base
  import opened Text
  import opened ChatMessage

  datatype ReasoningFormat = NoReasoning | Auto | DeepseekLegacy | Deepseek

  /** The fields of `common_chat_parser_params` that the parser below looks at. */
  datatype Syntax = Syntax(format: ReasoningFormat, inContent: bool, forcedOpen: bool)

  datatype Tags = Tags(start: string, end: string)

  /** Text appended to the content and to the reasoning of the message. */
  datatype Delta = Delta(content: string, reasoning: string) {
    function Then(d: Delta): Delta { Delta(content + d.content, reasoning + d.reasoning) }

    predicate PrefixOf(d: Delta) { content <= d.content && reasoning <= d.reasoning }
  }

  const NOTHING := Delta("", "")

  datatype Outcome = Outcome(ok: bool, pos: nat, delta: Delta)

  // ---------------------------------------------------------------- reasoning: specification

  function OpenTag(syn: Syntax, tags: Tags): string {
    if syn.format == Deepseek then "<think>" else tags.start
  }

  function CloseTag(syn: Syntax, tags: Tags): string {
    if syn.format == Deepseek then "</think>" else tags.end
  }

  /** One stretch of reasoning, with the opening literal still to be surfaced in `pending`. */
  function Block(syn: Syntax, tags: Tags, pending: string, text: string, closed: bool): Delta {
    if Strip(text) == "" then NOTHING
    else if syn.inContent then
      Delta(OpenTag(syn, tags) + Strip(text) + (if closed then CloseTag(syn, tags) else ""), "")
    else Delta("", pending + Strip(text))
  }

  function PendingAfterBlock(syn: Syntax, pending: string, text: string): string {
    if Strip(text) == "" || syn.inContent then pending else ""
  }

  function PendingAtTag(syn: Syntax, tags: Tags, pending: string): string {
    if !syn.forcedOpen || syn.inContent then pending else tags.start
  }

  /** How far the text at a position agrees with the start tag before tag or input end. */
  datatype TagMatch = NoTag | CutTag | WholeTag

  function MatchTag(s: string, tags: Tags, at: nat): (m: TagMatch)
    requires at <= |s|
    ensures m.WholeTag? <==> OccursAt(s, tags.start, at)
    ensures m.CutTag? <==> |s| - at < |tags.start| && s[at..] <= tags.start
  {
    var room := Min(|tags.start|, |s| - at);
    if s[at..at + room] != tags.start[..room] then NoTag
    else if room < |tags.start| then CutTag
    else WholeTag
  }

  /** Where unterminated reasoning starting at `cursor` is cut: before a possible end tag. */
  function OpenEnd(s: string, tags: Tags, cursor: nat): (r: nat)
    requires cursor <= |s|
    ensures cursor <= r <= |s|
  {
    match PartialStop(s[cursor..], tags.end)
    case None => |s|
    case Some(off) => cursor + off
  }

  /** One round of the loop: it ends the reading, or goes on behind another start tag. */
  datatype Round = Stop(pos: nat, delta: Delta) | Again(cursor: nat, pending: string, delta: Delta)

  function NextRound(s: string, syn: Syntax, tags: Tags, isPartial: bool, cursor: nat, pending: string): (r: Round)
    requires cursor <= |s|
    ensures r.Stop? ==> cursor <= r.pos <= |s|
    ensures r.Again? ==> cursor + |tags.end| + |tags.start| <= r.cursor <= |s|
  {
    if cursor == |s| then Stop(|s|, NOTHING) else
    match Find(s, tags.end, cursor)
    case None =>
      var stop := OpenEnd(s, tags, cursor);
      Stop(|s|, Block(syn, tags, pending, s[cursor..stop], stop == |s| && !isPartial))
    case Some(endPos) =>
      var text := s[cursor..endPos];
      var d := Block(syn, tags, pending, text, true);
      var next := SkipSpaces(s, endPos + |tags.end|);
      BehindBlock(s, tags, next, PendingAtTag(syn, tags, PendingAfterBlock(syn, pending, text)), d)
  }

  /** Behind an end tag and white space: another section may begin. */
  function BehindBlock(s: string, tags: Tags, next: nat, pending: string, d: Delta): (r: Round)
    requires next <= |s|
    ensures r.Stop? ==> next <= r.pos <= |s|
    ensures r.Again? ==> next + |tags.start| <= r.cursor <= |s|
    ensures r.delta == d
  {
    if next == |s| then Stop(next, d) else
    match MatchTag(s, tags, next)
    case NoTag => Stop(next, d)
    case CutTag => Stop(|s|, d)
    case WholeTag => Again(next + |tags.start|, pending, d)
  }

  /** Everything read from `cursor`, which stands inside a reasoning section. */
  function Blocks(s: string, syn: Syntax, tags: Tags, isPartial: bool, cursor: nat, pending: string): (o: Outcome)
    requires cursor <= |s| && |tags.start| + |tags.end| > 0
    ensures o.ok && cursor <= o.pos <= |s|
    decreases |s| - cursor
  {
    match NextRound(s, syn, tags, isPartial, cursor, pending)
    case Stop(pos, delta) => Outcome(true, pos, delta)
    case Again(cursor', pending', delta) =>
      var rest := Blocks(s, syn, tags, isPartial, cursor', pending');
      rest.(delta := delta.Then(rest.delta))
  }

  /** The first start tag stands at `at`; white space in front of it is kept as content. */
  function Tagged(s: string, syn: Syntax, tags: Tags, isPartial: bool, pos: nat, at: nat, pending: string): (o: Outcome)
    requires pos <= at && OccursAt(s, tags.start, at) && |tags.start| + |tags.end| > 0
    ensures o.ok && at <= o.pos <= |s|
  {
    var rest := Blocks(s, syn, tags, isPartial, at + |tags.start|, PendingAtTag(syn, tags, pending));
    rest.(delta := Delta(s[pos..at], "").Then(rest.delta))
  }

  /** What `try_parse_reasoning` does from position `pos` with the given pending prefix. */
  function ReasoningWith(s: string, syn: Syntax, tags: Tags, isPartial: bool, pos: nat, pending: string): (o: Outcome)
    requires pos <= |s| && |tags.start| + |tags.end| > 0
    ensures pos <= o.pos <= |s|
    ensures !o.ok ==> o.pos == pos && o.delta == NOTHING
  {
    var first := SkipSpaces(s, pos);
    if syn.format == NoReasoning then Outcome(false, pos, NOTHING)
    else if first == |s| then
      if syn.forcedOpen then Outcome(true, |s|, Block(syn, tags, pending, s[pos..], !isPartial))
      else Outcome(false, pos, NOTHING)
    else
      match MatchTag(s, tags, first)
      case CutTag => Outcome(true, |s|, NOTHING)
      case WholeTag => Tagged(s, syn, tags, isPartial, pos, first, pending)
      case NoTag =>
        if syn.forcedOpen then Blocks(s, syn, tags, isPartial, first, pending) else Outcome(false, pos, NOTHING)
  }

  /** The prefix is empty when the reading begins. */
  function Reasoning(s: string, syn: Syntax, tags: Tags, isPartial: bool, pos: nat): (o: Outcome)
    requires pos <= |s| && |tags.start| + |tags.end| > 0
    ensures pos <= o.pos <= |s|
  {
    ReasoningWith(s, syn, tags, isPartial, pos, "")
  }

  // ---------------------------------------------------------------- literals: specification

  datatype Found = Found(prelude: string, begin: nat, end: nat)

  function FindLiteral(s: string, isPartial: bool, pos: nat, literal: string): (r: Option<Found>)
    requires pos <= |s|
    ensures r.Some? ==> pos <= r.value.begin <= r.value.end <= |s|
    ensures r.Some? ==> r.value.prelude == s[pos..r.value.begin]
    ensures r.Some? && OccursAt(s, literal, r.value.begin) ==>
              r.value.end == r.value.begin + |literal| &&
              forall k :: pos <= k < r.value.begin ==> !OccursAt(s, literal, k)
    ensures r.Some? && !OccursAt(s, literal, r.value.begin) ==>
              isPartial && r.value.end == |s| && IsOverlap(s, literal, r.value.begin) &&
              (forall k :: 0 <= k < r.value.begin ==> !IsOverlap(s, literal, k)) &&
              (forall k :: pos <= k ==> !OccursAt(s, literal, k))
    ensures r.None? ==> forall k :: pos <= k ==> !OccursAt(s, literal, k)
    ensures r.None? && isPartial && PartialStop(s, literal).Some? ==> PartialStop(s, literal).value < pos
  {
    var idx := Find(s, literal, pos);
    if idx.Some? then Some(Found(s[pos..idx.value], idx.value, idx.value + |literal|))
    else if !isPartial then None
    else
      var stop := PartialStop(s, literal);
      if stop.Some? && stop.value >= pos then Some(Found(s[pos..stop.value], stop.value, |s|)) else None
  }

  // ---------------------------------------------------------------- the parser

  /** `m` with more content and reasoning. */
  function Extended(m: Message, d: Delta): Message {
    m.(content := m.content + d.content, reasoning := m.reasoning + d.reasoning)
  }

  lemma ExtendedByNothing(m: Message)
    ensures Extended(m, NOTHING) == m
  {
    assert m.content + "" == m.content && m.reasoning + "" == m.reasoning;
  }

  lemma ExtendedTwice(m: Message, d: Delta, e: Delta)
    ensures Extended(Extended(m, d), e) == Extended(m, d.Then(e))
  {
    assert m.content + d.content + e.content == m.content + (d.content + e.content);
    assert m.reasoning + d.reasoning + e.reasoning == m.reasoning + (d.reasoning + e.reasoning);
  }

  class MsgParser {
    const input: string
    const isPartial: bool
    const syntax: Syntax
    var pos: nat
    var result: Message

    constructor (input: string, isPartial: bool, syntax: Syntax)
      ensures this.input == input && this.isPartial == isPartial && this.syntax == syntax
      ensures Valid() && pos == 0
      ensures result == Message("assistant", "", [], [], "", "", "")
    {
      this.input, this.isPartial, this.syntax := input, isPartial, syntax;
      pos, result := 0, Message("assistant", "", [], [], "", "", "");
    }

    ghost predicate Valid()
      reads this
    {
      pos <= |input|
    }

    method AddContent(text: string)
      modifies this`result
      ensures result == old(result).(content := old(result.content) + text)
    {
      result := result.(content := result.content + text);
    }

    method AddReasoning(text: string)
      modifies this`result
      ensures result == old(result).(reasoning := old(result.reasoning) + text)
    {
      result := result.(reasoning := result.reasoning + text);
    }

    method TryFindLiteral(literal: string) returns (res: Option<Found>)
      requires Valid()
      modifies this`pos
      ensures Valid() && res == FindLiteral(input, isPartial, old(pos), literal)
      ensures pos == if res.Some? then res.value.end else old(pos)
    {
      var idx := Find(input, literal, pos);
      if idx.Some? {
        res := Some(Found(input[pos..idx.value], idx.value, idx.value + |literal|));
        pos := idx.value + |literal|;
        return;
      }
      if isPartial {
        idx := FindPartialStop(input, literal);
        if idx.Some? && idx.value >= pos {
          res := Some(Found(input[pos..idx.value], idx.value, |input|));
          pos := |input|;
          return;
        }
      }
      return None;
    }

    /** The white-space loops of `try_parse_reasoning`. */
    method SpacesEnd(from: nat) returns (i: nat)
      requires from <= |input|
      ensures i == SkipSpaces(input, from)
    {
      i := from;
      while i < |input| && IsSpace(input[i])
        invariant from <= i <= |input|
        invariant SkipSpaces(input, i) == SkipSpaces(input, from)
      {
        i := i + 1;
      }
    }

    /** Compares the start tag with the text at `at`, as far as both reach. */
    method CompareTag(tags: Tags, at: nat) returns (m: TagMatch)
      requires at <= |input|
      ensures m == MatchTag(input, tags, at)
    {
      var prefix := Min(|tags.start|, |input| - at);
      if input[at..at + prefix] == tags.start[..prefix] {
        return if prefix < |tags.start| then CutTag else WholeTag;
      }
      return NoTag;
    }

    /** The local `handle_reasoning`; the pending prefix it captures is passed in and out. */
    method HandleReasoning(tags: Tags, pending: string, text: string, closed: bool) returns (pending': string)
      modifies this`result
      ensures result == Extended(old(result), Block(syntax, tags, pending, text, closed))
      ensures pending' == PendingAfterBlock(syntax, pending, text)
    {
      pending' := pending;
      var stripped := StripLoop(text);
      if stripped == "" {
        ExtendedByNothing(result);
        return;
      }
      if syntax.inContent {
        var c := result.content;
        AddContent(if syntax.format == Deepseek then "<think>" else tags.start);
        AddContent(stripped);
        assert result.content == c + (OpenTag(syntax, tags) + stripped);
        if closed {
          AddContent(if syntax.format == Deepseek then "</think>" else tags.end);
          assert result.content == c + (OpenTag(syntax, tags) + stripped + CloseTag(syntax, tags));
        } else {
          assert result.content == c + (OpenTag(syntax, tags) + stripped + "");
        }
        assert result.reasoning == result.reasoning + "";
      } else {
        var r := result.reasoning;
        if pending' != "" {
          AddReasoning(pending');
          pending' := "";
        }
        AddReasoning(stripped);
        assert result.reasoning == r + (pending + stripped);
        assert result.content == result.content + "";
      }
    }

    /** The local `set_reasoning_prefix`. */
    method SetReasoningPrefix(tags: Tags, pending: string, at: nat) returns (pending': string)
      ensures OccursAt(input, tags.start, at) ==> pending' == PendingAtTag(syntax, tags, pending)
    {
      if !syntax.forcedOpen || syntax.inContent { return pending; }
      if at + |tags.start| > |input| { return ""; }
      return input[at..at + |tags.start|];
    }

    /** Nothing but white space under a template that has already opened the reasoning. */
    method ReadBlankRest(tags: Tags, pending: string)
      requires Valid()
      modifies this
      ensures pos == |input|
      ensures result == Extended(old(result), Block(syntax, tags, pending, input[old(pos)..], !isPartial))
    {
      var rest := input[pos..];
      if rest != "" {
        var _ := HandleReasoning(tags, pending, rest, !isPartial);
      } else {
        ExtendedByNothing(result);
      }
      pos := |input|;
    }

    method ReadLeadingSpaces(end: nat)
      requires pos <= end <= |input|
      modifies this`result
      ensures result == Extended(old(result), Delta(input[pos..end], ""))
    {
      ExtendedByNothing(result);
      if end > pos {
        AddContent(input[pos..end]);
      }
    }

    /** The local `restore_state`: undoes everything appended since the sizes were taken. */
    method RestoreState(savedPos: nat, contentSize: nat, reasoningSize: nat)
      requires savedPos <= |input| && contentSize <= |result.content| && reasoningSize <= |result.reasoning|
      modifies this
      ensures Valid() && pos == savedPos
      ensures result == old(result).(content := old(result.content)[..contentSize],
                                     reasoning := old(result.reasoning)[..reasoningSize])
      ensures contentSize == |old(result.content)| && reasoningSize == |old(result.reasoning)| ==>
        result == old(result) && result == Extended(old(result), NOTHING)
    {
      ExtendedByNothing(result);
      assert result.content[..|result.content|] == result.content;
      assert result.reasoning[..|result.reasoning|] == result.reasoning;
      pos := savedPos;
      result := result.(content := result.content[..contentSize], reasoning := result.reasoning[..reasoningSize]);
    }

    /** Reasoning whose end tag has not arrived: all but a possible beginning of that tag. */
    method ReadOpenBlock(tags: Tags, cursor: nat, pending: string)
      requires cursor < |input| && Find(input, tags.end, cursor).None?
      modifies this
      ensures pos == |input|
      ensures result == Extended(old(result), NextRound(input, syntax, tags, isPartial, cursor, pending).delta)
    {
      var partialOff := FindPartialStop(input[cursor..], tags.end);
      var reasoningEnd := if partialOff.None? then |input| else cursor + partialOff.value;
      if reasoningEnd > cursor {
        var _ := HandleReasoning(tags, pending, input[cursor..reasoningEnd], partialOff.None? && !isPartial);
      } else {
        ExtendedByNothing(result);
      }
      pos := |input|;
    }

    method ReadClosedBlock(tags: Tags, cursor: nat, endPos: nat, pending: string) returns (pending': string)
      requires cursor <= endPos <= |input|
      modifies this
      ensures result == Extended(old(result), Block(syntax, tags, pending, input[cursor..endPos], true))
      ensures pending' == PendingAfterBlock(syntax, pending, input[cursor..endPos])
    {
      if endPos > cursor {
        pending' := HandleReasoning(tags, pending, input[cursor..endPos], true);
      } else {
        pending' := HandleReasoning(tags, pending, "", true);
      }
    }

    /** The body of the loop of `try_parse_reasoning`; `again` says whether the loop goes on. */
    method ReadRound(tags: Tags, start: nat, pending: string) returns (again: bool, cursor: nat, pending': string)
      requires start <= |input|
      modifies this
      ensures var r := NextRound(input, syntax, tags, isPartial, start, pending);
              && again == r.Again?
              && result == Extended(old(result), r.delta)
              && (if again then cursor == r.cursor && pending' == r.pending else pos == r.pos)
    {
      again, cursor, pending' := false, start, pending;
      if cursor >= |input| {
        ExtendedByNothing(result);
        pos := |input|;
        return;
      }
      var endPos := Find(input, tags.end, cursor);
      if endPos.None? {
        ReadOpenBlock(tags, cursor, pending');
        return;
      }
      pending' := ReadClosedBlock(tags, cursor, endPos.value, pending');
      cursor := SpacesEnd(endPos.value + |tags.end|);
      var nextRemaining := |input| - cursor;
      if nextRemaining == 0 {
        pos := cursor;
        return;
      }
      var here := CompareTag(tags, cursor);
      if here != NoTag {
        if here == CutTag {
          pos := |input|;
          return;
        }
        pending' := SetReasoningPrefix(tags, pending', cursor);
        cursor := cursor + |tags.start|;
        again := true;
        return;
      }
      pos := cursor;
    }

    /** The loop of `try_parse_reasoning`. */
    method ReadBlocks(tags: Tags, start: nat, pending: string)
      requires start <= |input| && |tags.start| + |tags.end| > 0
      modifies this
      ensures pos == Blocks(input, syntax, tags, isPartial, start, pending).pos
      ensures result == Extended(old(result), Blocks(input, syntax, tags, isPartial, start, pending).delta)
    {
      var again, cursor, pending' := true, start, pending;
      while again
        invariant again ==> cursor <= |input|
        invariant !again ==> pos == Blocks(input, syntax, tags, isPartial, start, pending).pos
        invariant again ==>
          Blocks(input, syntax, tags, isPartial, cursor, pending').pos
          == Blocks(input, syntax, tags, isPartial, start, pending).pos
        invariant Extended(old(result), Blocks(input, syntax, tags, isPartial, start, pending).delta)
               == if again then Extended(result, Blocks(input, syntax, tags, isPartial, cursor, pending').delta)
                   else result
        decreases again, |input| - cursor
      {
        ghost var r := NextRound(input, syntax, tags, isPartial, cursor, pending');
        ghost var m := result;
        again, cursor, pending' := ReadRound(tags, cursor, pending');
        if again {
          ExtendedTwice(m, r.delta, Blocks(input, syntax, tags, isPartial, cursor, pending').delta);
        }
      }
    }

    method ReadTagged(tags: Tags, at: nat, pending: string)
      requires pos <= at && OccursAt(input, tags.start, at) && |tags.start| + |tags.end| > 0
      modifies this
      ensures var o := Tagged(input, syntax, tags, isPartial, old(pos), at, pending);
              pos == o.pos && result == Extended(old(result), o.delta)
    {
      hide Blocks;
      ghost var m, spaces := result, Delta(input[pos..at], "");
      ReadLeadingSpaces(at);
      var pending' := SetReasoningPrefix(tags, pending, at);
      ghost var rest := Blocks(input, syntax, tags, isPartial, at + |tags.start|, pending');
      ReadBlocks(tags, at + |tags.start|, pending');
      ExtendedTwice(m, spaces, rest.delta);
    }

    /** The body of `try_parse_reasoning` behind the declaration of the pending prefix. */
    method ReadReasoning(tags: Tags, pending: string) returns (ok: bool)
      requires Valid() && |tags.start| + |tags.end| > 0
      modifies this
      ensures var o := ReasoningWith(input, syntax, tags, isPartial, old(pos), pending);
              ok == o.ok && pos == o.pos && result == Extended(old(result), o.delta)
      ensures !ok ==> result == old(result)
    {
      if syntax.format == NoReasoning {
        ExtendedByNothing(result);
        return false;
      }
      var savedPos := pos;
      var savedContentSize, savedReasoningSize := |result.content|, |result.reasoning|;
      var whitespaceEnd := SpacesEnd(pos);
      if whitespaceEnd >= |input| {
        RestoreState(savedPos, savedContentSize, savedReasoningSize);
        if syntax.forcedOpen {
          ReadBlankRest(tags, pending);
        }
        return syntax.forcedOpen;
      }
      var here := CompareTag(tags, whitespaceEnd);
      if here == CutTag {
        ExtendedByNothing(result);
        pos := |input|;
        return true;
      }
      if here == WholeTag {
        ReadTagged(tags, whitespaceEnd, pending);
        return true;
      }
      if syntax.forcedOpen {
        ReadBlocks(tags, whitespaceEnd, pending);
        return true;
      }
      RestoreState(savedPos, savedContentSize, savedReasoningSize);
      return false;
    }

    /**
      Reads the reasoning sections at the current position. A false answer leaves the parser as it
      was; otherwise position, content and reasoning are those of the specification.
      */
    method TryParseReasoning(tags: Tags) returns (ok: bool)
      requires Valid() && |tags.start| + |tags.end| > 0
      modifies this
      ensures var o := Reasoning(input, syntax, tags, isPartial, old(pos));
              Valid() && ok == o.ok && pos == o.pos && result == Extended(old(result), o.delta)
      ensures !ok ==> pos == old(pos) && result == old(result)
    {
      ok := ReadReasoning(tags, "");
    }
  }
}
