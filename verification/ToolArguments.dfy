/**
  What the constructed mapper writes for whole tool calls, and while they are still arriving.
  */
module ToolArguments {
  import opened Base
  import opened Text
  import opened ChatMessage
  import opened JsonStrings
  import opened ToolCallMapper
  import J = JsonText
  import G = JsonGrammar

  /** An argument as the model wrote it; the closing tag is optional. */
  datatype Arg =
    | StringArg(name: string, text: string, closed: bool)
    | JsonArg(name: string, text: string, closed: bool)

  datatype Call = Call(name: string, args: seq<Arg>)

  // ---------------------------------------------------------------- the intended text

  function ValueText(a: Arg): string { if a.StringArg? then Dump(RStrip(a.text)) else RStrip(a.text) }

  function Member(a: Arg): string { Dump(RStrip(a.name)) + ":" + ValueText(a) }

  /** What separates an argument from the `n` before it. */
  function Comma(n: nat): string { if n > 0 then "," else "" }

  /** Comma-joined `"name":value` pairs. */
  function Members(args: seq<Arg>): string
    decreases |args|
  {
    if args == [] then ""
    else Members(args[..|args| - 1]) + (Comma(|args| - 1) + Member(args[|args| - 1]))
  }

  /** The arguments of a call as one JSON object. */
  function ObjectText(args: seq<Arg>): string { "{" + Members(args) + "}" }

  /** Every string argument but possibly the last argument is closed. */
  predicate ClosedButLast(args: seq<Arg>) {
    forall i :: 0 <= i < |args| - 1 ==> args[i].StringArg? ==> args[i].closed
  }

  // ---------------------------------------------------------------- events

  function ValueEvent(a: Arg): Event { if a.StringArg? then ArgString(a.text) else ArgJson(a.text) }

  function ArgEvents(a: Arg): seq<Event> {
    [ArgOpen, ArgName(a.name), ValueEvent(a)] + if a.closed then [ArgClose] else []
  }

  function ArgsEvents(args: seq<Arg>): seq<Event>
    decreases |args|
  {
    if args == [] then [] else ArgsEvents(args[..|args| - 1]) + ArgEvents(args[|args| - 1])
  }

  function CallEvents(c: Call): seq<Event> {
    [ToolOpen, ToolName(c.name)] + ArgsEvents(c.args) + [ToolClose]
  }

  function CallsEvents(cs: seq<Call>): seq<Event>
    decreases |cs|
  {
    if cs == [] then [] else CallsEvents(cs[..|cs| - 1]) + CallEvents(cs[|cs| - 1])
  }

  /** Tool names only behind the opening of a call. */
  predicate Possible(st: State, es: seq<Event>) {
    st.Valid() && (st.current.Some? || forall i :: 0 <= i < |es| && es[i].ToolName? ==> exists j ::
        0 <= j < i && es[j].ToolOpen?)
  }

  function Run(st: State, es: seq<Event>): (r: State)
    requires Possible(st, es)
    ensures r.Valid() && (r.current.Some? <==> st.current.Some? || exists i :: 0 <= i < |es| && es[i].ToolOpen?)
    decreases |es|
  {
    if es == [] then st
    else
      assert forall i :: 0 <= i < |es| - 1 ==> es[i] == es[..|es| - 1][i];
      Step(Run(st, es[..|es| - 1]), es[|es| - 1])
  }

  lemma PossibleAppend(st: State, a: seq<Event>, b: seq<Event>)
    requires Possible(st, a) && Possible(Run(st, a), b)
    ensures Possible(st, a + b)
  {
    if st.current.None? {
      forall i | 0 <= i < |a + b| && (a + b)[i].ToolName? ensures exists j :: 0 <= j < i && (a + b)[j].ToolOpen? {
        if i < |a| {
          var j :| 0 <= j < i && a[j].ToolOpen?;
          assert (a + b)[j] == a[j];
        } else if Run(st, a).current.Some? {
          var j :| 0 <= j < |a| && a[j].ToolOpen?;
          assert (a + b)[j] == a[j];
        } else {
          assert b[i - |a|].ToolName?;
          var j :| 0 <= j < i - |a| && b[j].ToolOpen?;
          assert (a + b)[|a| + j] == b[j];
        }
      }
    }
  }

  lemma {:induction false} RunAppend(st: State, a: seq<Event>, b: seq<Event>)
    requires Possible(st, a) && Possible(Run(st, a), b)
    ensures Possible(st, a + b) && Run(st, a + b) == Run(Run(st, a), b)
    decreases |b|
  {
    PossibleAppend(st, a, b);
    hide Step;
    if b == [] {
      assert a + b == a;
    } else {
      var b' := b[..|b| - 1];
      assert (a + b)[..|a + b| - 1] == a + b';
      assert forall i :: 0 <= i < |b'| ==> b[i] == b'[i];
      RunAppend(st, a, b');
    }
  }

  lemma RunOne(st: State, e: Event)
    requires Ready(st, e)
    ensures Possible(st, [e]) && Run(st, [e]) == Step(st, e)
  {
    assert [e][..0] == [];
  }

  lemma RunCons(st: State, e: Event, es: seq<Event>)
    requires Ready(st, e) && Possible(Step(st, e), es)
    ensures Possible(st, [e] + es) && Run(st, [e] + es) == Run(Step(st, e), es)
  {
    RunOne(st, e);
    RunAppend(st, [e], es);
  }

  lemma NextNode(st: State, nodes: seq<Event>, i: nat)
    requires i < |nodes| && Possible(st, nodes) && Possible(st, nodes[..i])
    ensures Ready(Run(st, nodes[..i]), nodes[i]) && Possible(st, nodes[..i + 1])
    ensures Run(st, nodes[..i + 1]) == Step(Run(st, nodes[..i]), nodes[i])
  {
    hide Step, Run;
    if nodes[i].ToolName? && st.current.None? {
      var j :| 0 <= j < i && nodes[j].ToolOpen?;
      assert nodes[..i][j].ToolOpen?;
    }
    RunOne(Run(st, nodes[..i]), nodes[i]);
    RunAppend(st, nodes[..i], [nodes[i]]);
    assert nodes[..i] + [nodes[i]] == nodes[..i + 1];
  }

  /** `from_ast`: visits the nodes in order. */
  method FromAst(mapper: ConstructedMapper, nodes: seq<Event>)
    requires Possible(mapper.St(), nodes)
    modifies mapper
    ensures mapper.St() == Run(old(mapper.St()), nodes)
  {
    hide Step;
    ghost var st := mapper.St();
    NoNodes(st, nodes);
    for i := 0 to |nodes|
      invariant Possible(st, nodes[..i]) && mapper.St() == Run(st, nodes[..i])
    {
      NextNode(st, nodes, i);
      mapper.Map(nodes[i]);
    }
    assert nodes[..|nodes|] == nodes;
  }

  lemma NoNodes(st: State, nodes: seq<Event>)
    requires st.Valid()
    ensures Possible(st, nodes[..0]) && Run(st, nodes[..0]) == st
  {
  }

  // ---------------------------------------------------------------- one call

  /** What the mapper writes for an argument: an open string lacks its closing quote. */
  function Written(a: Arg): string {
    Dump(RStrip(a.name)) + ":" + if a.StringArg? && !a.closed then DumpOpen(RStrip(a.text)) else ValueText(a)
  }

  function AllWritten(args: seq<Arg>): string
    decreases |args|
  {
    if args == [] then ""
    else AllWritten(args[..|args| - 1]) + (Comma(|args| - 1) + Written(args[|args| - 1]))
  }

  predicate LastOpen(args: seq<Arg>) {
    args != [] && args[|args| - 1].StringArg? && !args[|args| - 1].closed
  }

  lemma PutTwice(st: State, a: string, b: string)
    requires st.Valid() && st.current.Some?
    ensures st.Put(a).Valid() && st.Put(a).current.Some? && st.Put(a).Put(b) == st.Put(a + b)
  {
    var args := st.Arguments();
    assert args + a + b == args + (a + b);
    assert st.Put(a).Put(b).calls == st.Put(a + b).calls;
  }

  /** `st` with more text in its current call. */
  function Having(st: State, text: string, count: nat, pending: bool): State
    requires st.Valid() && st.current.Some?
  {
    st.Put(text).(argCount := count, needsClosingQuote := pending)
  }

  function Head(st: State, a: Arg): string { Comma(st.argCount) + Dump(RStrip(a.name)) + ":" }

  function OpenValue(a: Arg): string { if a.StringArg? then DumpOpen(RStrip(a.text)) else RStrip(a.text) }

  /** The state behind an argument's name and value. */
  lemma ValueStep(st: State, a: Arg)
    requires st.Valid() && st.current.Some?
    ensures Step(Step(Step(st, ArgOpen), ArgName(a.name)), ValueEvent(a))
            == Having(st, Head(st, a) + OpenValue(a), st.argCount + 1, a.StringArg?)
  {
    hide Dump, DumpOpen, RStrip;
    PutTwice(st, Head(st, a), OpenValue(a));
  }

  /** ... and behind its closing tag, if there is one. */
  lemma CloseStep(st: State, a: Arg, text: string, count: nat)
    requires st.Valid() && st.current.Some?
    ensures var r := Having(st, text, count, a.StringArg?);
            (if a.closed then Step(r, ArgClose) else r)
            == Having(st, if a.StringArg? && a.closed then text + "\"" else text, count, a.StringArg? && !a.closed)
  {
    PutTwice(st, text, "\"");
  }

  lemma AlwaysPossible(st: State, es: seq<Event>)
    requires st.Valid() && st.current.Some?
    ensures Possible(st, es)
  {
  }

  lemma RunThree(st: State, e: Event, f: Event, g: Event, rest: seq<Event>)
    requires st.Valid() && st.current.Some?
    ensures Possible(st, [e] + ([f] + ([g] + rest)))
    ensures Run(st, [e] + ([f] + ([g] + rest))) == Run(Step(Step(Step(st, e), f), g), rest)
  {
    hide Step, Run, Possible;
    var s1 := Step(st, e);
    var s2 := Step(s1, f);
    var s3 := Step(s2, g);
    AlwaysPossible(s3, rest);
    RunCons(s2, g, rest);
    RunCons(s1, f, [g] + rest);
    RunCons(st, e, [f] + ([g] + rest));
  }

  function CloseEvents(a: Arg): seq<Event> { if a.closed then [ArgClose] else [] }

  lemma CloseRun(st: State, a: Arg)
    requires st.Valid() && st.current.Some?
    ensures Possible(st, CloseEvents(a)) && Run(st, CloseEvents(a)) == if a.closed then Step(st, ArgClose) else st
  {
    hide Step, Run, Possible;
    if a.closed { RunOne(st, ArgClose); } else { RunNothing(st); AlwaysPossible(st, []); }
  }

  lemma ArgEventsAre(a: Arg)
    ensures ArgEvents(a) == [ArgOpen] + ([ArgName(a.name)] + ([ValueEvent(a)] + CloseEvents(a)))
  {
  }

  lemma ArgSteps(st: State, a: Arg)
    requires st.Valid() && st.current.Some?
    ensures Run(st, ArgEvents(a)) ==
            var r := Step(Step(Step(st, ArgOpen), ArgName(a.name)), ValueEvent(a));
            if a.closed then Step(r, ArgClose) else r
  {
    hide Step, Run, ArgEvents, ValueEvent, CloseEvents;
    ArgEventsAre(a);
    RunThree(st, ArgOpen, ArgName(a.name), ValueEvent(a), CloseEvents(a));
    CloseRun(Step(Step(Step(st, ArgOpen), ArgName(a.name)), ValueEvent(a)), a);
  }

  lemma WrittenParts(st: State, a: Arg)
    ensures Comma(st.argCount) + Written(a)
            == (if a.StringArg? && a.closed then Head(st, a) + OpenValue(a) + "\"" else Head(st, a) + OpenValue(a))
  {
    hide DumpOpen, RStrip;
  }

  lemma ArgRun(st: State, a: Arg)
    requires st.Valid() && st.current.Some?
    ensures Run(st, ArgEvents(a))
            == Having(st, Comma(st.argCount) + Written(a), st.argCount + 1, a.StringArg? && !a.closed)
  {
    hide Step, Run, Having, Head, OpenValue, Written;
    ArgSteps(st, a);
    ValueStep(st, a);
    CloseStep(st, a, Head(st, a) + OpenValue(a), st.argCount + 1);
    WrittenParts(st, a);
  }

  lemma HavingTwice(st: State, s: string, t: string, n: nat, m: nat, p: bool, q: bool)
    requires st.Valid() && st.current.Some?
    ensures Having(st, s, n, p).Valid() && Having(st, s, n, p).current.Some?
    ensures Having(Having(st, s, n, p), t, m, q) == Having(st, s + t, m, q)
  {
    PutTwice(st, s, t);
  }

  lemma Snoc(init: seq<Arg>, last: Arg)
    ensures ArgsEvents(init + [last]) == ArgsEvents(init) + ArgEvents(last)
    ensures AllWritten(init + [last]) == AllWritten(init) + (Comma(|init|) + Written(last))
    ensures LastOpen(init + [last]) == (last.StringArg? && !last.closed)
    ensures Members(init + [last]) == Members(init) + (Comma(|init|) + Member(last))
  {
    hide ArgEvents, Written, Member, Comma;
    assert (init + [last])[..|init|] == init;
  }

  lemma ArgsSnoc(st: State, before: seq<Event>, last: Arg, mid: State, text: string, n: nat, pending: bool)
    requires st.Valid() && st.current.Some?
    requires Run(st, before) == mid == Having(st, text, n, pending)
    ensures Run(st, before + ArgEvents(last))
            == Having(st, text + (Comma(n) + Written(last)), n + 1, last.StringArg? && !last.closed)
  {
    assert mid.argCount == n;
    hide *;
    RunAppend(st, before, ArgEvents(last));
    ArgRun(mid, last);
    HavingTwice(st, text, Comma(n) + Written(last), n, n + 1, pending, last.StringArg? && !last.closed);
  }

  lemma {:induction false} ArgsRun(st: State, args: seq<Arg>)
    requires st.Valid() && st.current.Some? && st.argCount == 0 && !st.needsClosingQuote
    ensures Run(st, ArgsEvents(args)) == Having(st, AllWritten(args), |args|, LastOpen(args))
    decreases |args|
  {
    if args == [] {
      assert st.Arguments() + "" == st.Arguments();
    } else {
      var init, last := args[..|args| - 1], args[|args| - 1];
      assert args == init + [last];
      hide *;
      ArgsRun(st, init);
      ArgsSnoc(st, ArgsEvents(init), last, Run(st, ArgsEvents(init)), AllWritten(init), |init|, LastOpen(init));
      Snoc(init, last);
    }
  }

  /** What the mapper writes for a whole call. */
  function Printed(args: seq<Arg>): string {
    "{" + (AllWritten(args) + ((if LastOpen(args) then "\"" else "") + "}"))
  }

  lemma FinishCall(st: State, text: string, n: nat, pending: bool)
    requires st.Valid() && st.current.Some?
    ensures Step(Having(st, text, n, pending), ToolClose) ==
            Having(st, text + ((if pending then "\"" else "") + "}"), n, false)
  {
    PutTwice(st, text, "\"");
    PutTwice(st, text + "\"", "}");
    PutTwice(st, text, "}");
    assert text + "\"" + "}" == text + ("\"" + "}");
    assert "" + "}" == "}";
  }

  lemma OpenedCall(st: State, name: string, text: string, n: nat)
    requires st.Valid() && !st.needsClosingQuote
    ensures var s := Step(Step(st, ToolOpen), ToolName(name));
            && s.argCount == 0 && !s.needsClosingQuote && s.current.Some?
            && Having(s, text, n, false)
               == st.(calls := st.calls + [ToolCall(name, "{" + text, "")], current := Some(|st.calls|), argCount := n)
  {
  }

  /** Opening, naming and closing a call around other events. */
  lemma FramedRun(st: State, s1: State, s2: State, name: string, mid: seq<Event>)
    requires st.Valid() && s1 == Step(st, ToolOpen) && s1.current.Some? && s2 == Step(s1, ToolName(name)) &&
             s2.current.Some?
    ensures Possible(st, [ToolOpen, ToolName(name)] + mid + [ToolClose])
    ensures Run(st, [ToolOpen, ToolName(name)] + mid + [ToolClose]) == Step(Run(s2, mid), ToolClose)
  {
    assert [ToolOpen, ToolName(name)] + mid + [ToolClose] == [ToolOpen] + ([ToolName(name)] + (mid + [ToolClose]));
    hide Step, Run;
    RunOne(Run(s2, mid), ToolClose);
    RunAppend(s2, mid, [ToolClose]);
    RunCons(s1, ToolName(name), mid + [ToolClose]);
    RunCons(st, ToolOpen, [ToolName(name)] + (mid + [ToolClose]));
  }

  /** A whole call adds one entry and leaves the others alone. */
  lemma CallRun(st: State, c: Call)
    requires st.Valid() && !st.needsClosingQuote
    ensures Possible(st, CallEvents(c))
    ensures Run(st, CallEvents(c))
            == st.(calls := st.calls + [ToolCall(c.name, Printed(c.args), "")], current := Some(|st.calls|),
                argCount := |c.args|)
  {
    var s1 := Step(st, ToolOpen);
    var s2 := Step(s1, ToolName(c.name));
    OpenedCall(st, c.name, AllWritten(c.args) + ((if LastOpen(c.args) then "\"" else "") + "}"), |c.args|);
    hide Step, Run, Having, AllWritten, LastOpen, ArgsEvents;
    ArgsRun(s2, c.args);
    FinishCall(s2, AllWritten(c.args), |c.args|, LastOpen(c.args));
    FramedRun(st, s1, s2, c.name, ArgsEvents(c.args));
  }

  // ---------------------------------------------------------------- when the text is the intended one

  predicate IsOpen(a: Arg) { a.StringArg? && !a.closed }

  function OpenCount(args: seq<Arg>): nat
    decreases |args|
  {
    if args == [] then 0 else OpenCount(args[..|args| - 1]) + if IsOpen(args[|args| - 1]) then 1 else 0
  }

  lemma WrittenMember(a: Arg)
    ensures Member(a) == if IsOpen(a) then Written(a) + "\"" else Written(a)
  {
    hide DumpOpen, RStrip;
    if IsOpen(a) { assert Member(a) == Dump(RStrip(a.name)) + ":" + (DumpOpen(RStrip(a.text)) + "\""); }
  }

  /** Every open string costs one character. */
  lemma {:induction false} MissingQuotes(args: seq<Arg>)
    ensures |Members(args)| == |AllWritten(args)| + OpenCount(args)
    ensures OpenCount(args) == 0 ==> Members(args) == AllWritten(args)
    decreases |args|
  {
    hide Member, Written;
    if args != [] {
      MissingQuotes(args[..|args| - 1]);
      WrittenMember(args[|args| - 1]);
    }
  }

  lemma {:induction false} NoneOpen(args: seq<Arg>)
    ensures OpenCount(args) == 0 <==> forall i :: 0 <= i < |args| ==> !IsOpen(args[i])
    decreases |args|
  {
    if args != [] {
      var init := args[..|args| - 1];
      NoneOpen(init);
      assert forall i :: 0 <= i < |init| ==> init[i] == args[i];
    }
  }

  lemma WrittenLast(init: seq<Arg>, last: Arg)
    ensures OpenCount(init) == 0 ==> Members(init + [last]) == AllWritten(init + [last]) + if IsOpen(last) then "\""
            else ""
    ensures |Members(init + [last])| == |AllWritten(init + [last])| + OpenCount(init) + if IsOpen(last) then 1 else 0
  {
    MissingQuotes(init);
    Snoc(init, last);
    WrittenMember(last);
    hide Members, AllWritten, Member, Written, Comma, OpenCount;
    assert OpenCount(init) == 0 ==>
           AllWritten(init) + (Comma(|init|) + (Written(last) + "\"")) ==
           AllWritten(init) + (Comma(|init|) + Written(last)) + "\"";
  }

  lemma ClosedIffNoneOpen(init: seq<Arg>, last: Arg)
    ensures ClosedButLast(init + [last]) <==> OpenCount(init) == 0
  {
    var args := init + [last];
    NoneOpen(init);
    assert forall i :: 0 <= i < |init| ==> init[i] == args[i];
    if !ClosedButLast(args) {
      var i :| 0 <= i < |args| - 1 && !(args[i].StringArg? ==> args[i].closed);
      assert IsOpen(init[i]);
    }
    if OpenCount(init) != 0 {
      var i :| 0 <= i < |init| && IsOpen(init[i]);
      assert !(args[i].StringArg? ==> args[i].closed);
    }
  }

  lemma BracedIff(w: string, m: string, quote: string, n: nat)
    requires |m| == |w| + n + |quote| && (n == 0 ==> m == w + quote)
    ensures "{" + (w + (quote + "}")) == "{" + m + "}" <==> n == 0
  {
    if n == 0 { assert w + quote + "}" == w + (quote + "}"); }
  }

  /** The mapper writes the intended object exactly if every string argument but possibly the last
      argument is closed. */
  lemma PrintedIff(args: seq<Arg>)
    ensures Printed(args) == ObjectText(args) <==> ClosedButLast(args)
  {
    if args == [] {
      BracedIff("", "", "", 0);
    } else {
      var init, last := args[..|args| - 1], args[|args| - 1];
      assert args == init + [last];
      hide Members, AllWritten, OpenCount, ClosedButLast;
      WrittenLast(init, last);
      ClosedIffNoneOpen(init, last);
      BracedIff(AllWritten(args), Members(args), if IsOpen(last) then "\"" else "", OpenCount(init));
    }
  }

  function Mapped(cs: seq<Call>): (r: seq<ToolCall>)
    ensures |r| == |cs| && forall i :: 0 <= i < |cs| ==> r[i] == ToolCall(cs[i].name, Printed(cs[i].args), "")
    decreases |cs|
  {
    if cs == [] then []
    else Mapped(cs[..|cs| - 1]) + [ToolCall(cs[|cs| - 1].name, Printed(cs[|cs| - 1].args), "")]
  }

  /** Whole runs: one entry for each call, in order. */
  lemma {:induction false} CallsRun(st: State, cs: seq<Call>)
    requires st.Valid() && !st.needsClosingQuote
    ensures Possible(st, CallsEvents(cs)) && !Run(st, CallsEvents(cs)).needsClosingQuote
    ensures Run(st, CallsEvents(cs)).calls == st.calls + Mapped(cs)
    ensures Run(st, CallsEvents(cs)).content == st.content && Run(st, CallsEvents(cs)).reasoning == st.reasoning
    decreases |cs|
  {
    hide CallEvents, Run, Printed;
    if cs == [] {
      RunNothing(st);
    } else {
      var init, last := cs[..|cs| - 1], cs[|cs| - 1];
      CallsRun(st, init);
      CallRun(Run(st, CallsEvents(init)), last);
      RunAppend(st, CallsEvents(init), CallEvents(last));
    }
  }

  lemma RunNothing(st: State)
    requires st.Valid()
    ensures Run(st, []) == st
  {
  }

  // ---------------------------------------------------------------- content, reasoning and calls apart

  /** The last node of a run is a step behind the others. */
  lemma RunLast(st: State, es: seq<Event>)
    requires es != [] && Possible(st, es)
    ensures var init := es[..|es| - 1];
            Possible(st, init) && Ready(Run(st, init), es[|es| - 1]) && Run(st, es) == Step(Run(st, init), es[|es| - 1])
  {
    assert forall i :: 0 <= i < |es| - 1 ==> es[i] == es[..|es| - 1][i];
  }

  lemma PossibleStarts(st: State, es: seq<Event>)
    requires Possible(st, es)
    ensures st.Valid()
  {
  }

  /** `es[k]` is the last content node. */
  ghost predicate LastContent(es: seq<Event>, k: nat) {
    k < |es| && es[k].Content? && forall i :: k < i < |es| ==> !es[i].Content?
  }

  ghost predicate NoContent(es: seq<Event>) { forall i :: 0 <= i < |es| ==> !es[i].Content? }

  ghost predicate LastReasoning(es: seq<Event>, k: nat) {
    k < |es| && es[k].Reasoning? && forall i :: k < i < |es| ==> !es[i].Reasoning?
  }

  ghost predicate NoReasoning(es: seq<Event>) { forall i :: 0 <= i < |es| ==> !es[i].Reasoning? }

  lemma TextStep(st: State, e: Event)
    requires Ready(st, e)
    ensures Step(st, e).content == if e.Content? then RStrip(e.text) else st.content
    ensures Step(st, e).reasoning == if e.Reasoning? then RStrip(e.text) else st.reasoning
  {
    hide RStrip, Dump, DumpOpen;
  }

  /** The last node is the last of its kind, or it does not matter. */
  lemma LastContentSnoc(es: seq<Event>)
    requires es != []
    ensures var init, last := es[..|es| - 1], es[|es| - 1];
            && (forall k: nat :: LastContent(es, k) <==>
                  if last.Content? then k == |es| - 1 else LastContent(init, k))
            && (forall k: nat :: LastContent(init, k) ==> k < |init| && init[k] == es[k])
            && (NoContent(es) <==> !last.Content? && NoContent(init))
  {
    var init := es[..|es| - 1];
    assert forall i :: 0 <= i < |init| ==> init[i] == es[i];
  }

  lemma NoneContent()
    ensures NoContent([]) && forall k: nat :: !LastContent([], k)
  {
  }

  lemma LastReasoningSnoc(es: seq<Event>)
    requires es != []
    ensures var init, last := es[..|es| - 1], es[|es| - 1];
            && (forall k: nat :: LastReasoning(es, k) <==>
                  if last.Reasoning? then k == |es| - 1 else LastReasoning(init, k))
            && (forall k: nat :: LastReasoning(init, k) ==> k < |init| && init[k] == es[k])
            && (NoReasoning(es) <==> !last.Reasoning? && NoReasoning(init))
  {
    var init := es[..|es| - 1];
    assert forall i :: 0 <= i < |init| ==> init[i] == es[i];
  }

  lemma NoneReasoning()
    ensures NoReasoning([]) && forall k: nat :: !LastReasoning([], k)
  {
  }

  /** Behind any run the content is the text of the last content node without the white space at its end. */
  lemma {:induction false} ContentIsLast(st: State, es: seq<Event>)
    requires Possible(st, es)
    ensures forall k: nat :: LastContent(es, k) ==> Run(st, es).content == RStrip(es[k].text)
    ensures NoContent(es) ==> Run(st, es).content == st.content
    decreases |es|
  {
    hide Run, Possible, Step, LastContent, NoContent;
    PossibleStarts(st, es);
    if es == [] {
      RunNothing(st);
      NoneContent();
    } else {
      var init, last := es[..|es| - 1], es[|es| - 1];
      RunLast(st, es);
      ContentIsLast(st, init);
      TextStep(Run(st, init), last);
      LastContentSnoc(es);
    }
  }

  /** The same for reasoning. */
  lemma {:induction false} ReasoningIsLast(st: State, es: seq<Event>)
    requires Possible(st, es)
    ensures forall k: nat :: LastReasoning(es, k) ==> Run(st, es).reasoning == RStrip(es[k].text)
    ensures NoReasoning(es) ==> Run(st, es).reasoning == st.reasoning
    decreases |es|
  {
    hide Run, Possible, Step, LastReasoning, NoReasoning;
    PossibleStarts(st, es);
    if es == [] {
      RunNothing(st);
      NoneReasoning();
    } else {
      var init, last := es[..|es| - 1], es[|es| - 1];
      RunLast(st, es);
      ReasoningIsLast(st, init);
      TextStep(Run(st, init), last);
      LastReasoningSnoc(es);
    }
  }

  /** The nodes of tool calls. */
  function ToolNodes(es: seq<Event>): seq<Event>
    decreases |es|
  {
    if es == [] then []
    else
      var last := es[|es| - 1];
      ToolNodes(es[..|es| - 1]) + if last.Content? || last.Reasoning? then [] else [last]
  }

  lemma ToolNodesStep(st: State, done: seq<Event>, full: State, e: Event)
    requires Possible(st, done) && Ready(full, e)
    requires Run(st, done) == full.(content := st.content, reasoning := st.reasoning)
    ensures Ready(Run(st, done), e) && Possible(st, done + [e])
    ensures !e.Content? && !e.Reasoning? ==>
              Run(st, done + [e]) == Step(full, e).(content := st.content, reasoning := st.reasoning)
    ensures e.Content? || e.Reasoning? ==>
              Run(st, done) == Step(full, e).(content := st.content, reasoning := st.reasoning)
  {
    hide Run, Possible, RStrip, Dump, DumpOpen;
    RunOne(Run(st, done), e);
    RunAppend(st, done, [e]);
    StepApart(full, st.content, st.reasoning, e);
  }

  lemma StepApart(full: State, content: string, reasoning: string, e: Event)
    requires Ready(full, e)
    ensures var st := full.(content := content, reasoning := reasoning);
            && Ready(st, e)
            && (if e.Content? || e.Reasoning?
                then Step(full, e).(content := content, reasoning := reasoning) == st
                else Step(st, e) == Step(full, e).(content := content, reasoning := reasoning))
  {
    hide RStrip, Dump, DumpOpen;
  }

  /** Content and reasoning nodes between the others change nothing about the calls. */
  lemma {:induction false} CallsIgnoreTexts(st: State, es: seq<Event>)
    requires Possible(st, es)
    ensures Possible(st, ToolNodes(es))
    ensures Run(st, ToolNodes(es)) == Run(st, es).(content := st.content, reasoning := st.reasoning)
    decreases |es|
  {
    hide Run, Possible, Step;
    PossibleStarts(st, es);
    if es == [] {
      RunNothing(st);
    } else {
      var init, last := es[..|es| - 1], es[|es| - 1];
      RunLast(st, es);
      CallsIgnoreTexts(st, init);
      ToolNodesStep(st, ToolNodes(init), Run(st, init), last);
      assert ToolNodes(init) + [] == ToolNodes(init);
    }
  }

  /** Nodes of arguments in front of the first call are lost. */
  lemma {:induction false} NoCallNoEffect(st: State, es: seq<Event>)
    requires Possible(st, es) && st.current.None? && forall i :: 0 <= i < |es| ==> !es[i].ToolOpen?
    ensures var r := Run(st, es); r.calls == st.calls && r.current == st.current && r.argCount == st.argCount
    ensures Run(st, es).needsClosingQuote <==> st.needsClosingQuote && forall i :: 0 <= i < |es| ==> !es[i].ArgOpen?
    decreases |es|
  {
    hide Possible, RStrip, Dump, DumpOpen;
    if es == [] {
      RunNothing(st);
    } else {
      RunLast(st, es);
      NoCallNoEffect(st, es[..|es| - 1]);
    }
  }

  /** A string that an unfinished call leaves open is closed in the next call, if that has no arguments. */
  lemma QuoteIsCarriedOver(st: State, name: string)
    requires st.Valid()
    ensures var es := [ToolOpen, ToolName(name), ToolClose];
            && Possible(st, es)
            && Run(st, es).calls == st.calls + [ToolCall(name, if st.needsClosingQuote then "{\"}" else "{}", "")]
  {
    var s1 := Step(st, ToolOpen);
    var s2 := Step(s1, ToolName(name));
    EmptyCall(st, name);
    assert [ToolOpen, ToolName(name)] + [] + [ToolClose] == [ToolOpen, ToolName(name), ToolClose];
    hide Run, Step;
    RunNothing(s2);
    AlwaysPossible(s2, []);
    FramedRun(st, s1, s2, name, []);
  }

  lemma EmptyCall(st: State, name: string)
    requires st.Valid()
    ensures Step(st, ToolOpen).current.Some?
    ensures var s2 := Step(Step(st, ToolOpen), ToolName(name));
            && s2.current.Some?
            && Step(s2, ToolClose).calls
               == st.calls + [ToolCall(name, if st.needsClosingQuote then "{\"}" else "{}", "")]
  {
    assert "{" + "}" == "{}" && "{" + "\"" + "}" == "{\"}";
  }

  // ---------------------------------------------------------------- while a call is arriving

  /** `t` has the calls of `s`, and perhaps a longer text in the last one. */
  predicate OnlyAppends(s: State, t: State)
    requires s.Valid() && s.current.Some?
  {
    && t.Valid() && t.current == s.current && |t.calls| == |s.calls|
    && t.calls[..|t.calls| - 1] == s.calls[..|s.calls| - 1] && s.Arguments() <= t.Arguments()
  }

  lemma StepAppends(st: State, e: Event)
    requires st.Valid() && st.current.Some? && !e.ToolOpen? && !e.ToolName?
    ensures OnlyAppends(st, Step(st, e))
  {
    hide RStrip, Dump, DumpOpen;
  }

  lemma {:induction false} RunAppends(st: State, es: seq<Event>)
    requires st.Valid() && st.current.Some? && forall i :: 0 <= i < |es| ==> !es[i].ToolOpen? && !es[i].ToolName?
    ensures OnlyAppends(st, Run(st, es))
    decreases |es|
  {
    if es == [] {
      RunNothing(st);
    } else {
      var init := es[..|es| - 1];
      assert forall i :: 0 <= i < |init| ==> init[i] == es[i];
      RunAppends(st, init);
      StepAppends(Run(st, init), es[|es| - 1]);
    }
  }

  lemma NamedRun(st: State, s1: State, s2: State, name: string, es: seq<Event>)
    requires st.Valid() && s1 == Step(st, ToolOpen) && s1.current.Some? && s2 == Step(s1, ToolName(name)) &&
             s2.current.Some?
    ensures Possible(st, [ToolOpen, ToolName(name)] + es) && Run(st, [ToolOpen, ToolName(name)] + es) == Run(s2, es)
  {
    assert [ToolOpen, ToolName(name)] + es == [ToolOpen] + ([ToolName(name)] + es);
    hide Step, Run;
    RunCons(s1, ToolName(name), es);
    RunCons(st, ToolOpen, [ToolName(name)] + es);
  }

  lemma TextGrows(st: State, es: seq<Event>, k: nat)
    requires st.Valid() && st.current.Some? && k <= |es|
    requires forall i :: 0 <= i < |es| ==> !es[i].ToolOpen? && !es[i].ToolName?
    ensures OnlyAppends(st, Run(st, es[..k])) && OnlyAppends(Run(st, es[..k]), Run(st, es))
  {
    assert es == es[..k] + es[k..];
    RunAppends(st, es[..k]);
    RunAppend(st, es[..k], es[k..]);
    hide Run, OnlyAppends;
    RunAppends(Run(st, es[..k]), es[k..]);
  }

  lemma FinalArguments(st: State, c: Call)
    requires st.Valid() && !st.needsClosingQuote
    ensures Possible(st, CallEvents(c)) && Run(st, CallEvents(c)).current.Some?
    ensures Run(st, CallEvents(c)).Arguments() == Printed(c.args)
  {
    CallRun(st, c);
  }

  /** The state behind the name of a new call. */
  function Named(st: State, name: string): (s: State)
    requires st.Valid()
    ensures s.Valid() && s.current == Some(|st.calls|) && s.calls[..|s.calls| - 1] == st.calls
  {
    Step(Step(st, ToolOpen), ToolName(name))
  }

  lemma CallSplit(st: State, c: Call, k: nat)
    requires st.Valid() && 2 <= k <= |CallEvents(c)|
    ensures |ArgsEvents(c.args) + [ToolClose]| == |CallEvents(c)| - 2
    ensures Possible(st, CallEvents(c)[..k])
    ensures Run(st, CallEvents(c)[..k]) == Run(Named(st, c.name), (ArgsEvents(c.args) + [ToolClose])[..k - 2])
  {
    var es, rest := CallEvents(c), ArgsEvents(c.args) + [ToolClose];
    assert es == [ToolOpen, ToolName(c.name)] + rest;
    assert es[..k] == [ToolOpen, ToolName(c.name)] + rest[..k - 2];
    hide ArgsEvents, CallEvents, Run;
    NamedRun(st, Step(st, ToolOpen), Named(st, c.name), c.name, rest[..k - 2]);
  }

  /** `s` has one call more than `st`, with a beginning of `text` as its arguments. */
  predicate Arriving(st: State, s: State, text: string) {
    s.Valid() && s.current.Some? && s.calls[..|s.calls| - 1] == st.calls && s.Arguments() <= text
  }

  lemma ArrivingFrom(st: State, named: State, s: State, last: State)
    requires named.Valid() && named.current.Some? && named.calls[..|named.calls| - 1] == st.calls
    requires OnlyAppends(named, s) && OnlyAppends(s, last)
    ensures Arriving(st, s, last.Arguments())
  {
  }

  lemma PrefixNamed(st: State, c: Call, k: nat)
    requires st.Valid() && !st.needsClosingQuote && 2 <= k <= |CallEvents(c)|
    ensures Possible(st, CallEvents(c)[..k]) && Arriving(st, Run(st, CallEvents(c)[..k]), Printed(c.args))
  {
    hide Run, CallEvents, ArgsEvents, Named, Printed, Arriving, OnlyAppends, State.Valid, State.Arguments;
    var n, rest := |CallEvents(c)|, ArgsEvents(c.args) + [ToolClose];
    var named := Named(st, c.name);
    ArgEventsOnly(c.args);
    FinalArguments(st, c);
    CallSplit(st, c, k);
    CallSplit(st, c, n);
    assert CallEvents(c)[..n] == CallEvents(c) && rest[..n - 2] == rest;
    TextGrows(named, rest, k - 2);
    ArrivingFrom(st, named, Run(named, rest[..k - 2]), Run(named, rest));
  }

  lemma PrefixOpened(st: State, c: Call)
    requires st.Valid()
    ensures Possible(st, CallEvents(c)[..1]) && Arriving(st, Run(st, CallEvents(c)[..1]), Printed(c.args))
  {
    assert CallEvents(c)[..1] == [ToolOpen];
    RunOne(st, ToolOpen);
    hide Run, Printed, CallEvents;
  }

  /** After every event of a call, its arguments so far are a beginning of the final text. */
  lemma EveryPrefix(st: State, c: Call, k: nat)
    requires st.Valid() && !st.needsClosingQuote && 1 <= k <= |CallEvents(c)|
    ensures Possible(st, CallEvents(c)[..k])
    ensures Arriving(st, Run(st, CallEvents(c)[..k]), Printed(c.args))
    ensures ClosedButLast(c.args) ==> Arriving(st, Run(st, CallEvents(c)[..k]), ObjectText(c.args))
  {
    hide *;
    PrintedIff(c.args);
    if k == 1 { PrefixOpened(st, c); } else { PrefixNamed(st, c, k); }
  }

  lemma {:induction false} ArgEventsOnly(args: seq<Arg>)
    ensures forall i :: 0 <= i < |ArgsEvents(args)| ==> !ArgsEvents(args)[i].ToolOpen? && !ArgsEvents(args)[i].ToolName?
    decreases |args|
  {
    if args != [] { ArgEventsOnly(args[..|args| - 1]); }
  }

  predicate Grows(value: Event, longer: Event) {
    ((value.ArgString? && longer.ArgString?) || (value.ArgJson? && longer.ArgJson?)) && value.text <= longer.text
  }

  lemma ValueGrows(st: State, value: Event, longer: Event)
    requires st.Valid() && st.current.Some? && Grows(value, longer)
    ensures OnlyAppends(Step(st, value), Step(st, longer)) && Step(st, longer).current.Some?
  {
    hide RStrip, Escaped, State.Put;
    RStripMonotone(value.text, longer.text);
    EscapedPrefix(RStrip(value.text), RStrip(longer.text));
    if value.ArgString? {
      PutGrows(st, DumpOpen(RStrip(value.text)), DumpOpen(RStrip(longer.text)), true);
    } else {
      PutGrows(st, RStrip(value.text), RStrip(longer.text), st.needsClosingQuote);
    }
  }

  lemma PutGrows(st: State, a: string, b: string, pending: bool)
    requires st.Valid() && st.current.Some? && a <= b
    ensures var s, t := st.Put(a).(needsClosingQuote := pending), st.Put(b).(needsClosingQuote := pending);
            s.Valid() && s.current.Some? && OnlyAppends(s, t)
    ensures st.Put(a).(needsClosingQuote := st.needsClosingQuote) == st.Put(a)
    ensures st.Put(b).(needsClosingQuote := st.needsClosingQuote) == st.Put(b)
  {
  }

  /** A value that has grown since an earlier parse, whatever follows it in the call, only lengthens
      the text written in the earlier parse. */
  lemma GrowingValue(st: State, before: seq<Event>, value: Event, longer: Event, after: seq<Event>)
    requires Possible(st, before) && Run(st, before).current.Some? && Grows(value, longer)
    requires forall i :: 0 <= i < |after| ==> !after[i].ToolOpen? && !after[i].ToolName?
    ensures Possible(st, before + [value]) && Possible(st, before + [longer] + after)
    ensures Run(st, before + [value]).current.Some?
    ensures OnlyAppends(Run(st, before + [value]), Run(st, before + [longer] + after))
  {
    var mid := Run(st, before);
    hide Run, Step;
    RunOne(mid, value);
    RunAppend(st, before, [value]);
    RunOne(mid, longer);
    RunAppend(st, before, [longer]);
    RunAppend(st, before + [longer], after);
    ValueGrows(mid, value, longer);
    RunAppends(Run(st, before + [longer]), after);
  }

  // ---------------------------------------------------------------- the text is JSON

  /** The automaton state with more containers open around it. */
  function Around(base: seq<J.Frame>, st: J.State): J.State {
    if st.At? then J.At(base + st.stack, st.mode) else st
  }

  lemma StackAround(base: seq<J.Frame>, stack: seq<J.Frame>)
    ensures stack != [] ==> J.Top(base + stack) == J.Top(stack) && J.Pop(base + stack) == base + J.Pop(stack)
  {
  }

  lemma AfterAround(base: seq<J.Frame>, stack: seq<J.Frame>, c: char)
    requires J.StepAfter(stack, c).At?
    ensures J.StepAfter(base + stack, c) == Around(base, J.StepAfter(stack, c))
  {
    StackAround(base, stack);
  }

  lemma BeginAround(base: seq<J.Frame>, stack: seq<J.Frame>, c: char)
    requires J.BeginValue(stack, c).At?
    ensures J.BeginValue(base + stack, c) == Around(base, J.BeginValue(stack, c))
  {
    assert forall f: J.Frame :: base + (stack + [f]) == base + stack + [f];
  }

  lemma StringAround(base: seq<J.Frame>, stack: seq<J.Frame>, isKey: bool, lex: J.Lex, needLow: bool, c: char)
    ensures J.StepString(base + stack, isKey, lex, needLow, c) ==
            Around(base, J.StepString(stack, isKey, lex, needLow, c))
  {
  }

  lemma NumberAround(base: seq<J.Frame>, stack: seq<J.Frame>, n: J.Number, c: char)
    requires J.StepNumber(stack, n, c).At?
    ensures J.StepNumber(base + stack, n, c) == Around(base, J.StepNumber(stack, n, c))
  {
    if J.StepAfter(stack, c).At? { AfterAround(base, stack, c); }
    hide J.StepAfter;
  }

  lemma StepAround(base: seq<J.Frame>, st: J.State, c: char)
    requires J.Step(st, c).At?
    ensures J.Step(Around(base, st), c) == Around(base, J.Step(st, c))
  {
    var stack := st.stack;
    StackAround(base, stack);
    if st.mode.After? { AfterAround(base, stack, c); }
    if J.BeginValue(stack, c).At? { BeginAround(base, stack, c); }
    if st.mode.Str? { StringAround(base, stack, st.mode.isKey, st.mode.lex, st.mode.needLow, c); }
    if st.mode.Num? { NumberAround(base, stack, st.mode.num, c); }
    hide J.StepAfter, J.BeginValue, J.StepString, J.StepNumber, J.Top, J.Pop;
  }

  lemma {:induction false} RunAround(base: seq<J.Frame>, st: J.State, s: string)
    requires J.Run(st, s).At?
    ensures J.Run(Around(base, st), s) == Around(base, J.Run(st, s))
    decreases |s|
  {
    if s != "" {
      var init := s[..|s| - 1];
      hide J.Step;
      StepNotFail(J.Run(st, init), s[|s| - 1]);
      RunAround(base, st, init);
      StepAround(base, J.Run(st, init), s[|s| - 1]);
    }
  }

  lemma StepNotFail(st: J.State, c: char)
    requires J.Step(st, c).At?
    ensures st.At?
  {
  }

  /** A well-formed text is a value in any place where one is due. */
  lemma ValueReads(base: seq<J.Frame>, v: string)
    requires J.WellFormed(v)
    ensures G.Ended(base, J.Run(J.At(base, J.Value), v))
  {
    RunAround(base, J.START, v);
    hide J.Run;
    assert base + [] == base;
  }

  lemma CharReads(base: seq<J.Frame>, isKey: bool, c: char)
    ensures var st := J.At(base, J.Str(isKey, J.Plain, false)); J.Run(st, EscapeChar(c)) == st
  {
    var st := J.At(base, J.Str(isKey, J.Plain, false));
    var e := EscapeChar(c);
    if c < ' ' && |e| == 6 {
      ControlReads(base, isKey, c);
    } else if |e| == 2 {
      assert e == [e[0]] + [e[1]];
      J.RunCons(st, e[0], [e[1]]);
      J.RunOne(J.Step(st, e[0]), e[1]);
    } else {
      J.RunOne(st, c);
    }
  }

  lemma ControlReads(base: seq<J.Frame>, isKey: bool, c: char)
    requires c < ' '
    ensures var st := J.At(base, J.Str(isKey, J.Plain, false));
            J.Run(st, "\\u00" + [HexDigit(c as int / 16), HexDigit(c as int % 16)]) == st
  {
    hide J.Run, J.Step;
    var h := "00" + [HexDigit(c as int / 16), HexDigit(c as int % 16)];
    assert G.AllHex(h) && h[0] == '0';
    assert "\\u00" + [HexDigit(c as int / 16), HexDigit(c as int % 16)] == ['\\'] + (['u'] + h);
    G.HexRun(base, isKey, false, h);
  }

  lemma {:induction false} BodyReads(base: seq<J.Frame>, isKey: bool, s: string)
    ensures var st := J.At(base, J.Str(isKey, J.Plain, false)); J.Run(st, Escaped(s)) == st
    decreases |s|
  {
    var st := J.At(base, J.Str(isKey, J.Plain, false));
    if s != "" {
      BodyReads(base, isKey, s[..|s| - 1]);
      CharReads(base, isKey, s[|s| - 1]);
      J.RunAppend(st, Escaped(s[..|s| - 1]), EscapeChar(s[|s| - 1]));
    }
  }

  lemma QuoteSteps(base: seq<J.Frame>, mode: J.Mode)
    requires mode in {J.Value, J.Key, J.KeyOrEnd}
    ensures var st := J.At(base, J.Str(mode != J.Value, J.Plain, false));
            J.Step(J.At(base, mode), '"') == st &&
                J.Step(st, '"') == J.At(base, if mode == J.Value then J.After else J.Colon)
  {
  }

  /** A printed string is a JSON string. */
  lemma DumpReads(base: seq<J.Frame>, mode: J.Mode, s: string)
    requires mode in {J.Value, J.Key, J.KeyOrEnd}
    ensures J.Run(J.At(base, mode), Dump(s)) == J.At(base, if mode == J.Value then J.After else J.Colon)
  {
    hide J.Run, J.Step, Escaped;
    var isKey := mode != J.Value;
    var st := J.At(base, J.Str(isKey, J.Plain, false));
    assert Dump(s) == ['"'] + (Escaped(s) + ['"']);
    QuoteSteps(base, mode);
    J.RunCons(J.At(base, mode), '"', Escaped(s) + ['"']);
    BodyReads(base, isKey, s);
    J.RunAppend(st, Escaped(s), ['"']);
    J.RunOne(st, '"');
  }

  /** Trimming keeps a text well-formed. */
  lemma {:induction false} TrimWellFormed(s: string)
    requires J.WellFormed(s)
    ensures J.WellFormed(RStrip(s))
    decreases |s|
  {
    if s != "" && IsSpace(s[|s| - 1]) {
      var st := J.Run(J.START, s[..|s| - 1]);
      if st.At? && st.mode.Lit? { LiteralLetters(s[..|s| - 1]); }
      SpaceAccepted(J.Run(J.START, s[..|s| - 1]), s[|s| - 1]);
      TrimWellFormed(s[..|s| - 1]);
    }
  }

  predicate Letters(s: string) { forall i :: 0 <= i < |s| ==> 'a' <= s[i] <= 'z' }

  lemma {:induction false} LiteralLetters(s: string)
    requires J.Run(J.START, s).At? && J.Run(J.START, s).mode.Lit?
    ensures Letters(J.Run(J.START, s).mode.rest)
    decreases |s|
  {
    if s != "" {
      var st := J.Run(J.START, s[..|s| - 1]);
      if st.At? && st.mode.Lit? { LiteralLetters(s[..|s| - 1]); }
      LetterStep(st, s[|s| - 1]);
    }
  }

  lemma LetterStep(st: J.State, c: char)
    requires st.At? && st.mode.Lit? ==> Letters(st.mode.rest)
    ensures J.Step(st, c).At? && J.Step(st, c).mode.Lit? ==> Letters(J.Step(st, c).mode.rest)
  {
    if st.At? && st.mode.Lit? && st.mode.rest != "" {
      assert forall i :: 0 <= i < |st.mode.rest| - 1 ==> st.mode.rest[1..][i] == st.mode.rest[i + 1];
    }
  }

  lemma SpaceAccepted(st: J.State, c: char)
    requires IsSpace(c) && J.Accepting(J.Step(st, c))
    requires st.At? && st.mode.Lit? ==> Letters(st.mode.rest)
    ensures J.Accepting(st)
  {
  }

  /** JSON arguments hold JSON. */
  predicate JsonValues(args: seq<Arg>) {
    forall i :: 0 <= i < |args| && args[i].JsonArg? ==> J.WellFormed(args[i].text)
  }

  lemma ValueTextReads(base: seq<J.Frame>, a: Arg)
    requires a.JsonArg? ==> J.WellFormed(a.text)
    ensures G.Ended(base, J.Run(J.At(base, J.Value), ValueText(a)))
  {
    hide Dump, RStrip, J.Run, J.WellFormed;
    if a.StringArg? {
      DumpReads(base, J.Value, RStrip(a.text));
    } else {
      TrimWellFormed(a.text);
      ValueReads(base, RStrip(a.text));
    }
  }

  lemma ColonStep(base: seq<J.Frame>)
    ensures J.Step(J.At(base, J.Colon), ':') == J.At(base, J.Value)
  {
  }

  lemma MemberText(a: Arg)
    ensures Member(a) == Dump(RStrip(a.name)) + ([':'] + ValueText(a))
  {
    hide Dump, RStrip, ValueText;
  }

  lemma MemberReads(base: seq<J.Frame>, mode: J.Mode, a: Arg)
    requires mode in {J.Key, J.KeyOrEnd} && (a.JsonArg? ==> J.WellFormed(a.text))
    ensures G.Ended(base, J.Run(J.At(base, mode), Member(a)))
  {
    hide *;
    var name, value := Dump(RStrip(a.name)), ValueText(a);
    MemberText(a);
    ColonStep(base);
    DumpReads(base, mode, RStrip(a.name));
    J.RunAppend(J.At(base, mode), name, [':'] + value);
    J.RunCons(J.At(base, J.Colon), ':', value);
    ValueTextReads(base, a);
  }

  lemma CommaReads(st: J.State)
    requires G.Ended([J.InObject], st)
    ensures J.Step(st, ',') == J.At([J.InObject], J.Key) && J.Step(st, '}') == J.At([], J.After)
  {
  }

  lemma {:induction false} MembersRead(args: seq<Arg>)
    requires args != [] && JsonValues(args)
    ensures G.Ended([J.InObject], J.Run(J.At([J.InObject], J.KeyOrEnd), Members(args)))
    decreases |args|
  {
    var st, init, last := J.At([J.InObject], J.KeyOrEnd), args[..|args| - 1], args[|args| - 1];
    hide J.Run, J.Step, J.WellFormed, G.Ended, Member;
    if init == [] {
      assert Members(args) == Member(last);
      MemberReads([J.InObject], J.KeyOrEnd, last);
    } else {
      MembersRead(init);
      var mid := J.Run(st, Members(init));
      assert Members(args) == Members(init) + ([','] + Member(last));
      J.RunAppend(st, Members(init), [','] + Member(last));
      CommaReads(mid);
      J.RunCons(mid, ',', Member(last));
      MemberReads([J.InObject], J.Key, last);
    }
  }

  /** The intended text is well-formed JSON, so every prefix of it that is shown can be completed. */
  lemma ObjectIsJson(args: seq<Arg>)
    requires JsonValues(args)
    ensures J.WellFormed(ObjectText(args))
  {
    var open, members := J.At([J.InObject], J.KeyOrEnd), Members(args);
    assert ObjectText(args) == ['{'] + (members + ['}']);
    if args == [] {
      assert members == "" && J.Run(open, members) == open;
      hide ObjectText, Members, J.Run;
      BracesRead(members, open);
    } else {
      hide ObjectText, Members, J.Run;
      MembersRead(args);
      BracesRead(members, J.Run(open, members));
    }
  }

  lemma BracesRead(members: string, st: J.State)
    requires J.Run(J.At([J.InObject], J.KeyOrEnd), members) == st
    requires G.Ended([J.InObject], st) || st == J.At([J.InObject], J.KeyOrEnd)
    ensures J.WellFormed(['{'] + (members + ['}']))
  {
    var open := J.At([J.InObject], J.KeyOrEnd);
    assert J.Step(J.START, '{') == open;
    assert J.Step(st, '}') == J.At([], J.After) by {
      if G.Ended([J.InObject], st) { CommaReads(st); }
    }
    hide J.Run, J.Step;
    J.RunCons(J.START, '{', members + ['}']);
    J.RunAppend(open, members, ['}']);
    J.RunOne(st, '}');
  }
}
