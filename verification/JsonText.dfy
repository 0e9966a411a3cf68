/**
  JSON texts (RFC 8259, sections 2 to 7) as the strict reader of the program's JSON library sees
  them: a character automaton with a stack of open containers. Escaped surrogates must pair up.
  */
module JsonText {
  import opened Base

  datatype Frame = InObject | InArray

  /** Inside a string: plain text, behind a backslash, or behind `\u` and some hex digits. */
  datatype Lex = Plain | Escaped | Hex(digits: string)

  datatype Number = Minus | Zero | Digits | Dot | Fraction | Exp | ExpSign | ExpDigits

  datatype Mode =
    | Value                                         // a value must follow
    | ValueOrEnd                                    // directly behind [
    | KeyOrEnd                                      // directly behind {
    | Key                                           // behind , in an object
    | Colon                                         // behind a key
    | After                                         // behind a complete value
    | Str(isKey: bool, lex: Lex, needLow: bool)     // needLow: a high surrogate waits for its low half
    | Num(num: Number)
    | Lit(rest: string)                             // inside true, false or null

  datatype State = Fail | At(stack: seq<Frame>, mode: Mode)

  const START := At([], Value)

  predicate IsBlank(c: char) { c == ' ' || c == '\t' || c == '\n' || c == '\r' }

  predicate IsHex(c: char) { IsDigit(c) || 'a' <= c <= 'f' || 'A' <= c <= 'F' }

  predicate IsD(c: char) { c == 'd' || c == 'D' }

  predicate IsHighDigit(c: char) { c == '8' || c == '9' || c == 'a' || c == 'b' || c == 'A' || c == 'B' }

  predicate IsLowDigit(c: char) { 'c' <= c <= 'f' || 'C' <= c <= 'F' }

  predicate Complete(n: Number) { n == Zero || n == Digits || n == Fraction || n == ExpDigits }

  function Top(stack: seq<Frame>): Frame
    requires stack != []
  {
    stack[|stack| - 1]
  }

  function Pop(stack: seq<Frame>): seq<Frame>
    requires stack != []
  {
    stack[..|stack| - 1]
  }

  function BeginValue(stack: seq<Frame>, c: char): State {
    if c == '{' then At(stack + [InObject], KeyOrEnd)
    else if c == '[' then At(stack + [InArray], ValueOrEnd)
    else if c == '"' then At(stack, Str(false, Plain, false))
    else if c == '-' then At(stack, Num(Minus))
    else if c == '0' then At(stack, Num(Zero))
    else if IsDigit(c) then At(stack, Num(Digits))
    else if c == 't' then At(stack, Lit("rue"))
    else if c == 'f' then At(stack, Lit("alse"))
    else if c == 'n' then At(stack, Lit("ull"))
    else Fail
  }

  function StepAfter(stack: seq<Frame>, c: char): State {
    if IsBlank(c) then At(stack, After)
    else if stack == [] then Fail
    else if c == ',' then At(stack, if Top(stack) == InObject then Key else Value)
    else if c == (if Top(stack) == InObject then '}' else ']') then At(Pop(stack), After)
    else Fail
  }

  /** The digits of one `\u` escape; a pair of them must be high, then low. */
  function StepHex(stack: seq<Frame>, isKey: bool, digits: string, needLow: bool, c: char): State {
    if !IsHex(c) then Fail
    else if |digits| == 0 && needLow && !IsD(c) then Fail
    else if |digits| == 1 && needLow && !IsLowDigit(c) then Fail
    else if |digits| == 1 && !needLow && IsD(digits[0]) && IsLowDigit(c) then Fail
    else if |digits| < 3 then At(stack, Str(isKey, Hex(digits + [c]), needLow))
    else At(stack, Str(isKey, Plain, !needLow && IsD(digits[0]) && IsHighDigit(digits[1])))
  }

  function StepString(stack: seq<Frame>, isKey: bool, lex: Lex, needLow: bool, c: char): State {
    match lex
    case Plain =>
      if c == '\\' then At(stack, Str(isKey, Escaped, needLow))
      else if needLow || c < ' ' then Fail
      else if c == '"' then At(stack, if isKey then Colon else After)
      else At(stack, Str(isKey, Plain, false))
    case Escaped =>
      if c == 'u' then At(stack, Str(isKey, Hex(""), needLow))
      else if !needLow && c in "\"\\/bfnrt" then At(stack, Str(isKey, Plain, false))
      else Fail
    case Hex(digits) => StepHex(stack, isKey, digits, needLow, c)
  }

  function StepNumber(stack: seq<Frame>, n: Number, c: char): State {
    if IsDigit(c) && n == Minus then At(stack, Num(if c == '0' then Zero else Digits))
    else if IsDigit(c) && n == Digits then At(stack, Num(Digits))
    else if IsDigit(c) && (n == Dot || n == Fraction) then At(stack, Num(Fraction))
    else if IsDigit(c) && (n == Exp || n == ExpSign || n == ExpDigits) then At(stack, Num(ExpDigits))
    else if c == '.' && (n == Zero || n == Digits) then At(stack, Num(Dot))
    else if (c == 'e' || c == 'E') && (n == Zero || n == Digits || n == Fraction) then At(stack, Num(Exp))
    else if (c == '+' || c == '-') && n == Exp then At(stack, Num(ExpSign))
    else if Complete(n) then StepAfter(stack, c)
    else Fail
  }

  function Step(st: State, c: char): State {
    if st == Fail then Fail else
    var stack := st.stack;
    match st.mode
    case Value => if IsBlank(c) then st else BeginValue(stack, c)
    case ValueOrEnd =>
      if IsBlank(c) then st
      else if c == ']' && stack != [] then At(Pop(stack), After)
      else BeginValue(stack, c)
    case KeyOrEnd =>
      if IsBlank(c) then st
      else if c == '"' then At(stack, Str(true, Plain, false))
      else if c == '}' && stack != [] then At(Pop(stack), After)
      else Fail
    case Key => if IsBlank(c) then st else if c == '"' then At(stack, Str(true, Plain, false)) else Fail
    case Colon => if IsBlank(c) then st else if c == ':' then At(stack, Value) else Fail
    case After => StepAfter(stack, c)
    case Str(isKey, lex, needLow) => StepString(stack, isKey, lex, needLow, c)
    case Num(n) => StepNumber(stack, n, c)
    case Lit(rest) =>
      if rest == "" || c != rest[0] then Fail
      else if |rest| == 1 then At(stack, After)
      else At(stack, Lit(rest[1..]))
  }

  function Run(st: State, s: string): State
    decreases |s|
  {
    if s == "" then st else Step(Run(st, s[..|s| - 1]), s[|s| - 1])
  }

  /** A complete text: one value, with nothing open. */
  predicate Accepting(st: State) {
    st.At? && st.stack == [] && (st.mode == After || (st.mode.Num? && Complete(st.mode.num)))
  }

  predicate WellFormed(s: string) { Accepting(Run(START, s)) }

  lemma {:induction false} RunAppend(st: State, a: string, b: string)
    ensures Run(st, a + b) == Run(Run(st, a), b)
    decreases |b|
  {
    if b == "" {
      assert a + b == a;
    } else {
      assert (a + b)[..|a + b| - 1] == a + b[..|b| - 1];
      RunAppend(st, a, b[..|b| - 1]);
    }
  }

  lemma RunOne(st: State, c: char)
    ensures Run(st, [c]) == Step(st, c)
  {
    assert [c][..0] == "";
    assert Run(st, "") == st;
  }

  lemma RunCons(st: State, c: char, s: string)
    ensures Run(st, [c] + s) == Run(Step(st, c), s)
  {
    RunAppend(st, [c], s);
    RunOne(st, c);
  }

  lemma {:induction false} RunFail(s: string)
    ensures Run(Fail, s) == Fail
    decreases |s|
  {
    if s != "" { RunFail(s[..|s| - 1]); }
  }

  /** A text that can still be completed: reading it has not failed. */
  predicate Alive(s: string) { Run(START, s).At? }

  lemma PrefixOfWellFormedIsAlive(s: string, t: string)
    requires WellFormed(s + t)
    ensures Alive(s)
  {
    RunAppend(START, s, t);
    if !Alive(s) { RunFail(t); }
  }
}
