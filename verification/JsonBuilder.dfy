/**
  Parsing and dumping at once: the reading automaton with the handler that builds the values
  (`json_sax_dom_parser` in nlohmann's json.hpp), each complete value kept as it will be printed.
  */
module JsonBuilder {
  import opened Base
  import opened JsonText
  import opened JsonDump
  import G = JsonGrammar

  /** An open container; in an object, the key whose value is due. */
  datatype Level = ArrayLevel(items: seq<string>) | ObjectLevel(entries: seq<Entry>, key: seq<Code>)

  /** The open containers and what has been read of a string, an escape or another scalar. */
  datatype Parts = Parts(levels: seq<Level>, codes: seq<Code>, high: string, token: string, root: Option<string>)

  /** Between values. */
  function Ready(levels: seq<Level>, root: Option<string>): Parts { Parts(levels, [], "", "", root) }

  function LevelText(l: Level): string {
    match l
    case ArrayLevel(items) => ArrayText(items)
    case ObjectLevel(entries, _) => ObjectText(entries)
  }

  /** The container with one more value. */
  function WithValue(l: Level, text: string): Level {
    match l
    case ArrayLevel(items) => ArrayLevel(items + [text])
    case ObjectLevel(entries, key) => ObjectLevel(Put(entries, key, text), [])
  }

  /** `handle_value`. */
  function HandleValue(levels: seq<Level>, text: string): Parts {
    if levels == [] then Ready([], Some(text))
    else Ready(levels[..|levels| - 1] + [WithValue(levels[|levels| - 1], text)], None)
  }

  /** `end_object` and `end_array`. */
  function Close(levels: seq<Level>): Parts {
    if levels == [] then Ready([], None)
    else HandleValue(levels[..|levels| - 1], LevelText(levels[|levels| - 1]))
  }

  /** `key`. */
  function KeyRead(levels: seq<Level>, key: seq<Code>): Parts {
    if levels == [] || levels[|levels| - 1].ArrayLevel? then Ready(levels, None)
    else Ready(levels[..|levels| - 1] + [levels[|levels| - 1].(key := key)], None)
  }

  function Begin(levels: seq<Level>, c: char): Parts {
    if c == '{' then Ready(levels + [ObjectLevel([], [])], None)
    else if c == '[' then Ready(levels + [ArrayLevel([])], None)
    else if c == '"' then Ready(levels, None)
    else Parts(levels, [], "", [c], None)
  }

  /** The fourth digit of a `\u` escape. */
  function HexEnd(b: Parts, hex: string, needLow: bool): Parts {
    if !G.AllHex(hex) then b
    else if needLow then
      if G.IsHigh(b.high) && G.IsLow(hex) then b.(codes := b.codes + [PairNumber(b.high, hex)], high := "") else b
    else if G.IsHigh(hex) then b.(high := hex)
    else b.(codes := b.codes + [HexNumber(hex)])
  }

  function StringAdds(b: Parts, isKey: bool, lex: Lex, needLow: bool, c: char): Parts {
    match lex
    case Plain =>
      if c == '\\' then b
      else if c == '"' then (if isKey then KeyRead(b.levels, b.codes) else HandleValue(b.levels, Quoted(b.codes)))
      else b.(codes := b.codes + [c as int])
    case Escaped => if c == 'u' then b else b.(codes := b.codes + [ShortCode(c)])
    case Hex(digits) => if |digits| < 3 then b else HexEnd(b, digits + [c], needLow)
  }

  function BehindValue(b: Parts, c: char): Parts {
    if c == '}' || c == ']' then Close(b.levels) else b
  }

  /** What the character `c` adds in the state `st`. */
  function Add(f: Printer, st: State, b: Parts, c: char): Parts {
    if st == Fail then b else
    match st.mode
    case Value => if IsBlank(c) then b else Begin(b.levels, c)
    case ValueOrEnd => if IsBlank(c) then b else if c == ']' then Close(b.levels) else Begin(b.levels, c)
    case KeyOrEnd => if c == '}' then Close(b.levels) else b
    case Key => b
    case Colon => b
    case After => BehindValue(b, c)
    case Str(isKey, lex, needLow) => StringAdds(b, isKey, lex, needLow, c)
    case Num(_) =>
      var next := Step(st, c);
      if next.At? && next.mode.Num? then b.(token := b.token + [c])
      else BehindValue(HandleValue(b.levels, f(b.token)), c)
    case Lit(rest) => if |rest| <= 1 then HandleValue(b.levels, b.token + [c]) else b.(token := b.token + [c])
  }

  function Build(f: Printer, st: State, b: Parts, s: string): Parts
    decreases |s|
  {
    if s == "" then b
    else Add(f, Run(st, s[..|s| - 1]), Build(f, st, b, s[..|s| - 1]), s[|s| - 1])
  }

  const NOTHING := Ready([], None)

  /** What has been built of a text. */
  function Built(f: Printer, s: string): Parts { Build(f, START, NOTHING, s) }

  /** A number that may be complete is printed. */
  function Settled(f: Printer, st: State, b: Parts): Parts {
    if st.At? && st.mode.Num? then HandleValue(b.levels, f(b.token)) else b
  }

  /** Parsing a complete text and dumping it. */
  function DumpOf(f: Printer, s: string): string
    requires WellFormed(s)
  {
    var r := Settled(f, Run(START, s), Built(f, s)).root;
    if r.Some? then r.value else ""
  }

  lemma {:induction false} BuildAppend(f: Printer, st: State, b: Parts, s: string, t: string)
    ensures Build(f, st, b, s + t) == Build(f, Run(st, s), Build(f, st, b, s), t)
    decreases |t|
  {
    if t == "" {
      assert s + t == s;
    } else {
      hide Add, Step;
      var u := t[..|t| - 1];
      assert (s + t)[..|s + t| - 1] == s + u;
      BuildAppend(f, st, b, s, u);
      RunAppend(st, s, u);
    }
  }

  lemma BuildOne(f: Printer, st: State, b: Parts, c: char)
    ensures Build(f, st, b, [c]) == Add(f, st, b, c)
  {
    hide Add, Step;
    assert [c][..0] == "";
    assert Build(f, st, b, "") == b && Run(st, "") == st;
  }

  lemma BuildCons(f: Printer, st: State, b: Parts, c: char, s: string)
    ensures Build(f, st, b, [c] + s) == Build(f, Step(st, c), Add(f, st, b, c), s)
  {
    hide Add, Step;
    BuildAppend(f, st, b, [c], s);
    BuildOne(f, st, b, c);
    RunOne(st, c);
  }
}
