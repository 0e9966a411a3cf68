/**
  `common_chat_peg_constructed_mapper` (chat-peg-parser.cpp): turns the tagged nodes of a parse into
  a message, writing the JSON text of each tool call's arguments piece by piece.
  */
module ToolCallMapper {
  import opened Base
  import opened Text
  import opened ChatMessage
  import opened JsonStrings

  /** A node of the syntax tree, in the order of the visit. */
  datatype Event =
    | Reasoning(text: string)
    | Content(text: string)
    | ToolOpen
    | ToolName(text: string)
    | ToolClose
    | ArgOpen
    | ArgName(text: string)
    | ArgString(text: string)
    | ArgJson(text: string)
    | ArgClose

  // ---------------------------------------------------------------- trimming

  /** `trim_trailing_space`: with a limit of 0 or more it stops before the first removal. */
  method TrimTrailingSpace(sv: string, max: int) returns (r: string)
    ensures r == if max >= 0 then sv else RStrip(sv)
  {
    r := sv;
    var count := 0;
    while r != "" && IsSpace(r[|r| - 1])
      invariant count >= 0 && RStrip(r) == RStrip(sv) && (max >= 0 ==> r == sv && count == 0)
      decreases |r|
    {
      if max != -1 && count <= max { break; }
      r := r[..|r| - 1];
      count := count + 1;
    }
  }

  // ---------------------------------------------------------------- the mapper

  datatype State = State(
    content: string,
    reasoning: string,
    calls: seq<ToolCall>,
    current: Option<nat>,
    argCount: nat,
    needsClosingQuote: bool)
  {
    /** The current call is the last one. */
    predicate Valid() { current.Some? ==> current.value + 1 == |calls| }

    function Arguments(): string
      requires Valid() && current.Some?
    {
      calls[|calls| - 1].arguments
    }

    function Put(text: string): State
      requires Valid() && current.Some?
    {
      var last := |calls| - 1;
      this.(calls := calls[last := calls[last].(arguments := calls[last].arguments + text)])
    }
  }

  /** A tool name is only met behind the opening of a call. */
  predicate Ready(st: State, e: Event) { st.Valid() && (e.ToolName? ==> st.current.Some?) }

  function Step(st: State, e: Event): (r: State)
    requires Ready(st, e)
    ensures r.Valid() && (st.current.Some? ==> r.current.Some?)
  {
    match e
    case Reasoning(text) => st.(reasoning := RStrip(text))
    case Content(text) => st.(content := RStrip(text))
    case ToolOpen => st.(calls := st.calls + [ToolCall("", "", "")], current := Some(|st.calls|), argCount := 0)
    case ToolName(text) =>
      var last := |st.calls| - 1;
      st.(calls := st.calls[last := ToolCall(text, "{", st.calls[last].id)])
    case ArgOpen => st.(needsClosingQuote := false)
    case ArgName(text) =>
      if st.current.None? then st
      else st.Put((if st.argCount > 0 then "," else "") + Dump(RStrip(text)) + ":").(argCount := st.argCount + 1)
    case ArgString(text) =>
      if st.current.None? then st else st.Put(DumpOpen(RStrip(text))).(needsClosingQuote := true)
    case ArgClose =>
      if st.current.None? || !st.needsClosingQuote then st else st.Put("\"").(needsClosingQuote := false)
    case ArgJson(text) => if st.current.None? then st else st.Put(RStrip(text))
    case ToolClose =>
      if st.current.None? then st
      else if st.needsClosingQuote then st.Put("\"").Put("}").(needsClosingQuote := false)
      else st.Put("}")
  }

  /** `json(...).dump()` for a string. */
  method DumpString(s: string) returns (r: string)
    ensures r == Dump(s)
  {
    r := "\"";
    for i := 0 to |s|
      invariant r == DumpOpen(s[..i])
    {
      assert s[..i + 1][..i] == s[..i];
      r := r + EscapeChar(s[i]);
    }
    assert s[..|s|] == s;
    r := r + "\"";
  }

  class ConstructedMapper {
    var content: string
    var reasoning: string
    var toolCalls: seq<ToolCall>
    var currentTool: Option<nat>
    var argCount: nat
    var needsClosingQuote: bool

    function St(): State
      reads this
    {
      State(content, reasoning, toolCalls, currentTool, argCount, needsClosingQuote)
    }

    constructor ()
      ensures St() == State("", "", [], None, 0, false)
    {
      content, reasoning, toolCalls, currentTool, argCount, needsClosingQuote := "", "", [], None, 0, false;
    }

    method Append(text: string)
      requires St().Valid() && currentTool.Some?
      modifies this`toolCalls
      ensures St() == old(St()).Put(text)
    {
      var call := toolCalls[currentTool.value];
      toolCalls := toolCalls[currentTool.value := call.(arguments := call.arguments + text)];
    }

    method Map(node: Event)
      requires Ready(St(), node)
      modifies this
      ensures St() == Step(old(St()), node)
    {
      if node.Reasoning? { reasoning := TrimTrailingSpace(node.text, -1); }
      if node.Content? { content := TrimTrailingSpace(node.text, -1); }
      if node.ToolOpen? {
        toolCalls := toolCalls + [ToolCall("", "", "")];
        currentTool := Some(|toolCalls| - 1);
        argCount := 0;
      }
      if node.ToolName? {
        var call := toolCalls[currentTool.value];
        toolCalls := toolCalls[currentTool.value := call.(name := node.text, arguments := "{")];
      }
      if node.ArgOpen? { needsClosingQuote := false; }
      if node.ArgName? && currentTool.Some? {
        var comma := if argCount > 0 then "," else "";
        var name := TrimTrailingSpace(node.text, -1);
        var dumped := DumpString(name);
        Append(comma + dumped + ":");
        argCount := argCount + 1;
      }
      if node.ArgString? && currentTool.Some? {
        var value := TrimTrailingSpace(node.text, -1);
        var dumped := DumpString(value);
        assert dumped[..|dumped| - 1] == DumpOpen(value);
        Append(dumped[..|dumped| - 1]);
        needsClosingQuote := true;
      }
      if node.ArgClose? && currentTool.Some? && needsClosingQuote {
        Append("\"");
        needsClosingQuote := false;
      }
      if node.ArgJson? && currentTool.Some? {
        var value := TrimTrailingSpace(node.text, -1);
        Append(value);
      }
      if node.ToolClose? && currentTool.Some? {
        if needsClosingQuote {
          Append("\"");
          needsClosingQuote := false;
        }
        Append("}");
      }
    }
  }
}
