/** Streaming deltas between successive parses of one message (`compute_diffs` in chat.cpp). */
module MessageDiffs {
  import opened Base
  import opened ChatMessage

  datatype Diff = Diff(
    reasoningDelta: string, contentDelta: string, toolCallIndex: Option<nat>, toolCallDelta: ToolCall)

  const NO_CALL := ToolCall("", "", "")

  datatype DiffError = NotAtStart | FewerCalls | CallMismatch

  /** `string_diff`: what `current` adds; nothing when it lost an unerased stop word. */
  function StringDiff(last: string, current: string): Result<string, DiffError> {
    if last == "" then Ok(current)
    else if !(last <= current) then (if current <= last then Ok("") else Err(NotAtStart))
    else Ok(current[|last|..])
  }

  /** Appending a difference rebuilds the text exactly when the text only grew. */
  lemma StringDiffIff(last: string, current: string)
    ensures (StringDiff(last, current).Ok? && last + StringDiff(last, current).value == current) <==> last <= current
  {
    if last <= current { assert last + current[|last|..] == current; }
  }

  // ---------------------------------------------------------------- the receiver

  /** What a client does with a tool-call delta for a call it already has. */
  function Merge(call: ToolCall, delta: ToolCall): ToolCall {
    ToolCall(
      if delta.name == "" then call.name else delta.name,
      call.arguments + delta.arguments,
      if delta.id == "" then call.id else delta.id)
  }

  function ApplyCall(calls: seq<ToolCall>, index: nat, delta: ToolCall): seq<ToolCall> {
    if index < |calls| then calls[index := Merge(calls[index], delta)]
    else if index == |calls| then calls + [delta]
    else calls
  }

  function Apply(m: Message, d: Diff): Message {
    m.(reasoning := m.reasoning + d.reasoningDelta,
       content := m.content + d.contentDelta,
       toolCalls := if d.toolCallIndex.None? then m.toolCalls
                    else ApplyCall(m.toolCalls, d.toolCallIndex.value, d.toolCallDelta))
  }

  function Fold(m: Message, ds: seq<Diff>): Message
    decreases |ds|
  {
    if ds == [] then m else Fold(Apply(m, ds[0]), ds[1..])
  }

  lemma {:induction false} FoldAppend(m: Message, a: seq<Diff>, b: seq<Diff>)
    ensures Fold(m, a + b) == Fold(Fold(m, a), b)
    decreases |a|
  {
    if a == [] {
      assert a + b == b;
    } else {
      assert (a + b)[1..] == a[1..] + b;
      FoldAppend(Apply(m, a[0]), a[1..], b);
    }
  }

  // ---------------------------------------------------------------- the sender

  function ReasoningDiffs(prv: Message, cur: Message): Result<seq<Diff>, DiffError> {
    if prv.reasoning == cur.reasoning then Ok([]) else
    match StringDiff(prv.reasoning, cur.reasoning)
    case Err(e) => Err(e)
    case Ok(d) => Ok([Diff(d, "", None, NO_CALL)])
  }

  function ContentDiffs(prv: Message, cur: Message): Result<seq<Diff>, DiffError> {
    if prv.content == cur.content then Ok([]) else
    match StringDiff(prv.content, cur.content)
    case Err(e) => Err(e)
    case Ok(d) => Ok([Diff("", d, None, NO_CALL)])
  }

  /** The last call known before: only its arguments and id may have changed. */
  function LastCallDiffs(prv: Message, cur: Message): Result<seq<Diff>, DiffError>
    requires |prv.toolCalls| <= |cur.toolCalls|
  {
    if prv.toolCalls == [] then Ok([]) else
    var idx := |prv.toolCalls| - 1;
    var old_, new_ := prv.toolCalls[idx], cur.toolCalls[idx];
    if old_.name != new_.name then Err(CallMismatch) else
    match StringDiff(old_.arguments, new_.arguments)
    case Err(e) => Err(e)
    case Ok(args) =>
      if args == "" && old_.id == new_.id then Ok([])
      else Ok([Diff("", "", Some(idx),
                    if old_.id != new_.id then ToolCall(new_.name, args, new_.id) else ToolCall("", args, ""))])
  }

  function NewCallDiffs(calls: seq<ToolCall>, from: nat): (ds: seq<Diff>)
    requires from <= |calls|
    decreases |calls| - from
  {
    if from == |calls| then [] else [Diff("", "", Some(from), calls[from])] + NewCallDiffs(calls, from + 1)
  }

  function Diffs(prv: Message, cur: Message): Result<seq<Diff>, DiffError> {
    match ReasoningDiffs(prv, cur)
    case Err(e) => Err(e)
    case Ok(a) =>
      match ContentDiffs(prv, cur)
      case Err(e) => Err(e)
      case Ok(b) =>
        if |cur.toolCalls| < |prv.toolCalls| then Err(FewerCalls) else
        match LastCallDiffs(prv, cur)
        case Err(e) => Err(e)
        case Ok(c) => Ok(a + b + c + NewCallDiffs(cur.toolCalls, |prv.toolCalls|))
  }

  /** `compute_diffs`: appends to the list step by step; an exception becomes an error result. */
  method ComputeDiffs(prv: Message, cur: Message) returns (r: Result<seq<Diff>, DiffError>)
    ensures r == Diffs(prv, cur)
  {
    var diffs: seq<Diff> := [];
    if prv.reasoning != cur.reasoning {
      var d := StringDiff(prv.reasoning, cur.reasoning);
      if d.Err? { return Err(d.error); }
      diffs := diffs + [Diff(d.value, "", None, NO_CALL)];
    }
    if prv.content != cur.content {
      var d := StringDiff(prv.content, cur.content);
      if d.Err? { return Err(d.error); }
      diffs := diffs + [Diff("", d.value, None, NO_CALL)];
    }
    ghost var ab := diffs;
    assert ab == ReasoningDiffs(prv, cur).value + ContentDiffs(prv, cur).value;
    if |cur.toolCalls| < |prv.toolCalls| { return Err(FewerCalls); }
    if prv.toolCalls != [] {
      var idx := |prv.toolCalls| - 1;
      var old_, new_ := prv.toolCalls[idx], cur.toolCalls[idx];
      if old_.name != new_.name { return Err(CallMismatch); }
      var args := StringDiff(old_.arguments, new_.arguments);
      if args.Err? { return Err(args.error); }
      if args.value != "" || old_.id != new_.id {
        var call := NO_CALL;
        if old_.id != new_.id {
          call := call.(id := new_.id, name := new_.name);
        }
        diffs := diffs + [Diff("", "", Some(idx), call.(arguments := args.value))];
      }
    }
    assert diffs == ab + LastCallDiffs(prv, cur).value;
    ghost var head := diffs;
    for idx := |prv.toolCalls| to |cur.toolCalls|
      invariant diffs + NewCallDiffs(cur.toolCalls, idx) == head + NewCallDiffs(cur.toolCalls, |prv.toolCalls|)
    {
      assert diffs + [Diff("", "", Some(idx), cur.toolCalls[idx])] + NewCallDiffs(cur.toolCalls, idx + 1)
             == diffs + NewCallDiffs(cur.toolCalls, idx);
      diffs := diffs + [Diff("", "", Some(idx), cur.toolCalls[idx])];
    }
    assert diffs + [] == diffs;
    return Ok(diffs);
  }

  // ---------------------------------------------------------------- when the receiver ends up right

  /**
    `cur` continues `prv`: texts only grow, calls are only appended, and of the calls known before
    only the last one's arguments grow and its id may be set.
    */
  predicate Continues(prv: Message, cur: Message) {
    && prv.reasoning <= cur.reasoning
    && prv.content <= cur.content
    && cur == prv.(reasoning := cur.reasoning, content := cur.content, toolCalls := cur.toolCalls)
    && |prv.toolCalls| <= |cur.toolCalls|
    && CallsContinue(prv.toolCalls, cur.toolCalls)
  }

  predicate CallsContinue(old_: seq<ToolCall>, new_: seq<ToolCall>)
    requires |old_| <= |new_|
  {
    old_ != [] ==>
      var last := |old_| - 1;
      old_[..last] == new_[..last] && CallContinues(old_[last], new_[last])
  }

  predicate CallContinues(old_: ToolCall, new_: ToolCall) {
    && old_.name == new_.name
    && old_.arguments <= new_.arguments
    && (old_.id == new_.id || new_.id != "")
  }

  lemma FoldOne(m: Message, d: Diff)
    ensures Fold(m, [d]) == Apply(m, d)
  {
    assert [d][1..] == [];
  }

  lemma ApplyToCall(m: Message, i: nat, delta: ToolCall)
    ensures Apply(m, Diff("", "", Some(i), delta)) == m.(toolCalls := ApplyCall(m.toolCalls, i, delta))
  {
    assert m.content + "" == m.content && m.reasoning + "" == m.reasoning;
  }

  /** The new calls are appended as they are, whatever the client holds before them. */
  lemma {:induction false} FoldNewCalls(m: Message, calls: seq<ToolCall>, from: nat)
    requires from <= |calls| && |m.toolCalls| == from
    ensures Fold(m, NewCallDiffs(calls, from)) == m.(toolCalls := m.toolCalls + calls[from..])
    decreases |calls| - from
  {
    if from == |calls| {
      assert m.toolCalls + calls[from..] == m.toolCalls;
    } else {
      var d := Diff("", "", Some(from), calls[from]);
      ApplyToCall(m, from, calls[from]);
      var m' := Apply(m, d);
      assert (([d] + NewCallDiffs(calls, from + 1))[1..]) == NewCallDiffs(calls, from + 1);
      FoldNewCalls(m', calls, from + 1);
      assert m.toolCalls + [calls[from]] + calls[from + 1..] == m.toolCalls + calls[from..];
    }
  }

  lemma SplitAtLast(old_: seq<ToolCall>, c: ToolCall, new_: seq<ToolCall>)
    requires 0 < |old_| <= |new_|
    ensures var n := |old_| - 1;
            old_[n := c] + new_[n + 1..] == new_ <==> old_[..n] == new_[..n] && c == new_[n]
  {
    var n := |old_| - 1;
    assert old_[n := c] + new_[n + 1..] == old_[..n] + [c] + new_[n + 1..];
    assert new_ == new_[..n] + [new_[n]] + new_[n + 1..];
    assert (old_[..n] + [c] + new_[n + 1..])[..n] == old_[..n];
    assert (old_[..n] + [c] + new_[n + 1..])[n] == c;
  }

  // ---------------------------------------------------------------- what the receiver ends up with

  /** What a client holds behind a delta: the longer of the two texts. */
  function Longer(last: string, current: string): string { if |last| < |current| then current else last }

  /** A delta exists exactly if one text begins the other. It never repeats what the client has: behind it
      the client holds the longer text. */
  lemma DeltaIff(last: string, current: string)
    ensures StringDiff(last, current).Ok? <==> last <= current || current <= last
    ensures StringDiff(last, current).Ok? ==> last + StringDiff(last, current).value == Longer(last, current)
  {
    if last <= current { assert last + current[|last|..] == current; }
    assert last + "" == last && "" + current == current;
  }

  predicate Comparable(a: string, b: string) { a <= b || b <= a }

  /** The known call that may still change keeps its name, and its arguments begin or continue the new ones. */
  predicate LastCallComparable(prv: Message, cur: Message)
    requires |prv.toolCalls| <= |cur.toolCalls|
  {
    prv.toolCalls != [] ==>
      var i := |prv.toolCalls| - 1;
      prv.toolCalls[i].name == cur.toolCalls[i].name &&
      Comparable(prv.toolCalls[i].arguments, cur.toolCalls[i].arguments)
  }

  /** What the last known call becomes. */
  function LastCall(old_: ToolCall, new_: ToolCall): ToolCall {
    ToolCall(old_.name, Longer(old_.arguments, new_.arguments), if new_.id == "" then old_.id else new_.id)
  }

  /** What a client holds behind all deltas between two messages. */
  function Received(prv: Message, cur: Message): Message
    requires |prv.toolCalls| <= |cur.toolCalls|
  {
    var n := |prv.toolCalls|;
    var known :=
      if n == 0 then [] else prv.toolCalls[n - 1 := LastCall(prv.toolCalls[n - 1], cur.toolCalls[n - 1])];
    prv.(reasoning := Longer(prv.reasoning, cur.reasoning), content := Longer(prv.content, cur.content),
         toolCalls := known + cur.toolCalls[n..])
  }

  /** Deltas exist exactly if no text was changed in the middle, no call was lost, and the last known call
      kept its name. */
  lemma DiffsExistIff(prv: Message, cur: Message)
    ensures Diffs(prv, cur).Ok? <==>
            && Comparable(prv.reasoning, cur.reasoning) && Comparable(prv.content, cur.content)
            && |prv.toolCalls| <= |cur.toolCalls| && LastCallComparable(prv, cur)
    ensures Comparable(prv.reasoning, cur.reasoning) && Comparable(prv.content, cur.content) ==>
              && (Diffs(prv, cur) == Err(FewerCalls) <==> |cur.toolCalls| < |prv.toolCalls|)
              && (Diffs(prv, cur) == Err(CallMismatch) <==>
                    0 < |prv.toolCalls| <= |cur.toolCalls| &&
                    prv.toolCalls[|prv.toolCalls| - 1].name != cur.toolCalls[|prv.toolCalls| - 1].name)
  {
    hide NewCallDiffs;
    DeltaIff(prv.reasoning, cur.reasoning);
    DeltaIff(prv.content, cur.content);
    if 0 < |prv.toolCalls| <= |cur.toolCalls| {
      var i := |prv.toolCalls| - 1;
      DeltaIff(prv.toolCalls[i].arguments, cur.toolCalls[i].arguments);
    }
  }

  lemma ReceivedReasoning(m: Message, prv: Message, cur: Message)
    requires m.reasoning == prv.reasoning && ReasoningDiffs(prv, cur).Ok?
    ensures Fold(m, ReasoningDiffs(prv, cur).value) == m.(reasoning := Longer(prv.reasoning, cur.reasoning))
  {
    DeltaIff(prv.reasoning, cur.reasoning);
    if prv.reasoning != cur.reasoning {
      FoldOne(m, Diff(StringDiff(prv.reasoning, cur.reasoning).value, "", None, NO_CALL));
      assert m.content + "" == m.content;
    }
  }

  lemma ReceivedContent(m: Message, prv: Message, cur: Message)
    requires m.content == prv.content && ContentDiffs(prv, cur).Ok?
    ensures Fold(m, ContentDiffs(prv, cur).value) == m.(content := Longer(prv.content, cur.content))
  {
    DeltaIff(prv.content, cur.content);
    if prv.content != cur.content {
      FoldOne(m, Diff("", StringDiff(prv.content, cur.content).value, None, NO_CALL));
      assert m.reasoning + "" == m.reasoning;
    }
  }

  lemma ReceivedLastCall(m: Message, prv: Message, cur: Message)
    requires m.toolCalls == prv.toolCalls && 0 < |prv.toolCalls| <= |cur.toolCalls| && LastCallDiffs(prv, cur).Ok?
    ensures var n := |prv.toolCalls| - 1;
            Fold(m, LastCallDiffs(prv, cur).value)
            == m.(toolCalls := prv.toolCalls[n := LastCall(prv.toolCalls[n], cur.toolCalls[n])])
  {
    var n := |prv.toolCalls| - 1;
    var old_, new_ := prv.toolCalls[n], cur.toolCalls[n];
    var args := StringDiff(old_.arguments, new_.arguments).value;
    DeltaIff(old_.arguments, new_.arguments);
    if args == "" && old_.id == new_.id {
      assert old_.arguments + args == old_.arguments;
      assert LastCall(old_, new_) == old_ && prv.toolCalls[n := old_] == prv.toolCalls;
    } else {
      var delta := if old_.id != new_.id then ToolCall(new_.name, args, new_.id) else ToolCall("", args, "");
      FoldOne(m, Diff("", "", Some(n), delta));
      ApplyToCall(m, n, delta);
      assert Merge(old_, delta) == LastCall(old_, new_);
    }
  }

  lemma ReceivedCalls(m: Message, prv: Message, cur: Message)
    requires m.toolCalls == prv.toolCalls && |prv.toolCalls| <= |cur.toolCalls| && LastCallDiffs(prv, cur).Ok?
    ensures Fold(Fold(m, LastCallDiffs(prv, cur).value), NewCallDiffs(cur.toolCalls, |prv.toolCalls|))
            == m.(toolCalls := Received(prv, cur).toolCalls)
  {
    var n := |prv.toolCalls|;
    if n == 0 {
      FoldNewCalls(m, cur.toolCalls, 0);
      assert Fold(m, []) == m;
    } else {
      ReceivedLastCall(m, prv, cur);
      var kept := prv.toolCalls[n - 1 := LastCall(prv.toolCalls[n - 1], cur.toolCalls[n - 1])];
      FoldNewCalls(m.(toolCalls := kept), cur.toolCalls, n);
    }
  }

  /** Whatever two messages have deltas: a client that applies them holds the longer of the two texts in each
      place, the last known call with its new id, and the new calls. */
  lemma DiffsGive(prv: Message, cur: Message)
    requires Diffs(prv, cur).Ok?
    ensures |prv.toolCalls| <= |cur.toolCalls| && Fold(prv, Diffs(prv, cur).value) == Received(prv, cur)
  {
    hide Fold, NewCallDiffs, LastCallDiffs, ContentDiffs, ReasoningDiffs, StringDiff;
    var a, b, c := ReasoningDiffs(prv, cur).value, ContentDiffs(prv, cur).value, LastCallDiffs(prv, cur).value;
    var d := NewCallDiffs(cur.toolCalls, |prv.toolCalls|);
    FoldAppend(prv, a + b + c, d);
    FoldAppend(prv, a + b, c);
    FoldAppend(prv, a, b);
    ReceivedReasoning(prv, prv, cur);
    var m := prv.(reasoning := Longer(prv.reasoning, cur.reasoning));
    ReceivedContent(m, prv, cur);
    ReceivedCalls(m.(content := Longer(prv.content, cur.content)), prv, cur);
  }

  /** Nothing is sent exactly if the texts are the same, there is no new call, and the last known call keeps its
      id and adds nothing to its arguments. */
  lemma SilentIff(prv: Message, cur: Message)
    requires Diffs(prv, cur).Ok?
    ensures Diffs(prv, cur).value == [] <==>
            && prv.reasoning == cur.reasoning && prv.content == cur.content && |prv.toolCalls| == |cur.toolCalls|
            && (prv.toolCalls != [] ==>
                  var i := |prv.toolCalls| - 1;
                  prv.toolCalls[i].id == cur.toolCalls[i].id &&
                  Longer(prv.toolCalls[i].arguments, cur.toolCalls[i].arguments) == prv.toolCalls[i].arguments)
  {
    hide StringDiff;
    if prv.toolCalls != [] {
      var i := |prv.toolCalls| - 1;
      DeltaIff(prv.toolCalls[i].arguments, cur.toolCalls[i].arguments);
    }
  }

  /** What is received is the second message exactly if that continues the first. */
  lemma ReceivedIff(prv: Message, cur: Message)
    requires |prv.toolCalls| <= |cur.toolCalls|
    requires Comparable(prv.reasoning, cur.reasoning) && Comparable(prv.content, cur.content)
    requires LastCallComparable(prv, cur)
    ensures Received(prv, cur) == cur <==> Continues(prv, cur)
  {
    var n := |prv.toolCalls|;
    if n == 0 {
      assert [] + cur.toolCalls[0..] == cur.toolCalls;
    } else {
      var old_, new_ := prv.toolCalls[n - 1], cur.toolCalls[n - 1];
      SplitAtLast(prv.toolCalls, LastCall(old_, new_), cur.toolCalls);
    }
  }

  /**
    The deltas between two parses exist and rebuild the second parse from the first exactly when
    the second continues the first.
    */
  lemma DiffsRebuild(prv: Message, cur: Message)
    ensures Diffs(prv, cur).Ok? && Fold(prv, Diffs(prv, cur).value) == cur <==> Continues(prv, cur)
  {
    hide Diffs, Fold, Received;
    DiffsExistIff(prv, cur);
    if Diffs(prv, cur).Ok? {
      DiffsGive(prv, cur);
      ReceivedIff(prv, cur);
    }
  }

  /** All deltas of a run of messages, in the order in which they are sent. */
  function RunDiffs(run: seq<Message>): Result<seq<Diff>, DiffError>
    requires run != []
    decreases |run|
  {
    if |run| == 1 then Ok([]) else
    match Diffs(run[0], run[1])
    case Err(e) => Err(e)
    case Ok(a) =>
      match RunDiffs(run[1..])
      case Err(e) => Err(e)
      case Ok(b) => Ok(a + b)
  }

  /** A client that starts from the first message of a run and applies every delta holds the last one. */
  lemma {:induction false} RunRebuilds(run: seq<Message>)
    requires run != []
    requires forall i :: 0 <= i < |run| - 1 ==> Continues(run[i], run[i + 1])
    ensures RunDiffs(run).Ok? && Fold(run[0], RunDiffs(run).value) == run[|run| - 1]
    decreases |run|
  {
    if |run| > 1 {
      DiffsRebuild(run[0], run[1]);
      RunRebuilds(run[1..]);
      FoldAppend(run[0], Diffs(run[0], run[1]).value, RunDiffs(run[1..]).value);
    }
  }
}
