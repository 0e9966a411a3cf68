/**
  The texts that can still be completed are exactly the beginnings of well-formed texts. Together
  with the grammar this says what the healing theorem quantifies over.
  */
module JsonPrefixes {
  import opened JsonText
  import opened JsonSax
  import opened JsonCompletions
  import opened JsonEscapes

  /** Behind a plain position of a string: its quote, and a value if it is a key. */
  function StringTail(isKey: bool): string { if isKey then "\":0" else "\"" }

  /** What takes a text to a place where only brackets are missing. */
  function Tail(m: Mode): string
    requires m.Str? && m.lex.Hex? ==> |m.lex.digits| <= 3
  {
    match m
    case Value => "0"
    case ValueOrEnd => ""
    case KeyOrEnd => ""
    case Key => "\"\":0"
    case Colon => ":0"
    case After => ""
    case Str(isKey, lex, needLow) =>
      (match lex
       case Plain => if needLow then "\\udc00" else ""
       case Escaped => if needLow then "udc00" else "n"
       case Hex(digits) => Filling(digits, needLow)) + StringTail(isKey)
    case Num(n) => if Complete(n) then "" else "0"
    case Lit(rest) => rest
  }

  lemma StringTailCloses(stack: seq<Frame>, isKey: bool)
    ensures Closable(stack, Run(At(stack, Str(isKey, Plain, false)), StringTail(isKey)))
  {
    var st := At(stack, Str(isKey, Plain, false));
    if isKey { Run3(st, '"', ':', '0'); } else { RunOne(st, '"'); }
  }

  /** What leads out of an unfinished escape or pair. */
  function FirstTail(m: Mode): string
    requires m.Str? && (m.lex.Hex? ==> |m.lex.digits| <= 3)
  {
    match m.lex
    case Plain => if m.needLow then "\\udc00" else ""
    case Escaped => if m.needLow then "udc00" else "n"
    case Hex(digits) => Filling(digits, m.needLow)
  }

  lemma NewlineEscape(stack: seq<Frame>, isKey: bool)
    ensures Run(At(stack, Str(isKey, Escaped, false)), "n") == At(stack, Str(isKey, Plain, false))
    ensures Run(At(stack, Str(isKey, Plain, false)), "") == At(stack, Str(isKey, Plain, false))
  {
    RunOne(At(stack, Str(isKey, Escaped, false)), 'n');
  }

  lemma FirstTailLeads(stack: seq<Frame>, m: Mode)
    requires m.Str? && Fits(stack, m)
    ensures Run(At(stack, m), FirstTail(m)) == At(stack, Str(m.isKey, Plain, false))
  {
    hide Run, Step, Filling, DigitsFit;
    RunLowPair(stack, m.isKey);
    NewlineEscape(stack, m.isKey);
    if m.lex.Hex? { FillingFits(stack, m.isKey, m.lex.digits, m.needLow); }
  }

  lemma TailIs(m: Mode)
    requires m.Str? && (m.lex.Hex? ==> |m.lex.digits| <= 3)
    ensures Tail(m) == FirstTail(m) + StringTail(m.isKey)
  {
    hide Filling, StringTail;
  }

  lemma StringModeCloses(stack: seq<Frame>, m: Mode)
    requires m.Str? && Fits(stack, m)
    ensures Closable(stack, Run(At(stack, m), Tail(m)))
  {
    hide Run, Step, Tail, FirstTail, StringTail;
    FirstTailLeads(stack, m);
    TailIs(m);
    RunAppend(At(stack, m), FirstTail(m), StringTail(m.isKey));
    StringTailCloses(stack, m.isKey);
  }

  lemma {:induction false} LiteralCloses(stack: seq<Frame>, rest: string)
    requires rest != ""
    ensures Run(At(stack, Lit(rest)), rest) == At(stack, After)
    decreases |rest|
  {
    assert rest == [rest[0]] + rest[1..];
    RunCons(At(stack, Lit(rest)), rest[0], rest[1..]);
    if |rest| > 1 { LiteralCloses(stack, rest[1..]); }
  }

  lemma TailCloses(stack: seq<Frame>, m: Mode)
    requires Fits(stack, m)
    ensures Closable(stack, Run(At(stack, m), Tail(m)))
  {
    var st := At(stack, m);
    match m
    case Str(_, _, _) => StringModeCloses(stack, m);
    case Lit(rest) => LiteralCloses(stack, rest);
    case Key => Run4(st, '"', '"', ':', '0');
    case Colon => Run2(st, ':', '0');
    case Value => RunOne(st, '0');
    case Num(n) => RunOne(st, '0');
    case _ =>
  }

  lemma CompletesFrom(st: State, tail: string)
    requires st.At? && Fits(st.stack, st.mode) && Closable(st.stack, Run(st, tail))
    ensures Accepting(Run(st, tail + CloseText(st.stack)))
  {
    hide Run, Step, Fits, CloseText;
    RunKeepsConsistent(st, tail);
    RunAppend(st, tail, CloseText(st.stack));
    CloseIff(st.stack, Run(st, tail));
  }

  /** The rest of a well-formed text that begins with `s`. */
  lemma Completes(s: string) returns (t: string)
    requires Alive(s)
    ensures WellFormed(s + t)
  {
    var st := Run(START, s);
    RunConsistent(s);
    assert Fits(st.stack, st.mode);
    TailCloses(st.stack, st.mode);
    hide Run, Step, Fits, Closable;
    CompletesFrom(st, Tail(st.mode));
    t := Tail(st.mode) + CloseText(st.stack);
    RunAppend(START, s, t);
  }

  /** A text is a beginning of a well-formed text exactly if reading it does not fail. */
  lemma AliveIffPrefix(s: string)
    ensures Alive(s) <==> exists t :: WellFormed(s + t)
  {
    hide Alive, WellFormed;
    if Alive(s) { var t := Completes(s); }
    if t :| WellFormed(s + t) { PrefixOfWellFormedIsAlive(s, t); }
  }
}
