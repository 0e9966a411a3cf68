/**
  What each probe of the healing code finds out. A probe appends a few characters and the closing
  brackets to the text and asks whether the result parses; the lemmas say in which modes it does.
  */
module JsonCompletions {
  import opened JsonText
  import opened JsonSax

  // ---------------------------------------------------------------- closing brackets

  /** All that is missing in such a state are the closing brackets. */
  predicate Closable(stack: seq<Frame>, st: State) {
    && st.At? && st.stack == stack
    && (st.mode == After || st.mode == ValueOrEnd || st.mode == KeyOrEnd || (st.mode.Num? && Complete(st.mode.num)))
  }

  predicate SameStack(stack: seq<Frame>, st: State) {
    st.At? ==> st.stack == stack && Fits(stack, st.mode)
  }

  lemma {:induction false} CloseAll(stack: seq<Frame>)
    ensures Run(At(stack, After), CloseText(stack)) == At([], After)
  {
    if stack != [] {
      var c := if Top(stack) == InObject then '}' else ']';
      RunCons(At(stack, After), c, CloseText(Pop(stack)));
      CloseAll(Pop(stack));
    }
  }

  lemma {:induction false} NoQuotesInClosing(stack: seq<Frame>)
    ensures '"' !in CloseText(stack)
  {
    if stack != [] { NoQuotesInClosing(Pop(stack)); }
  }

  predicate InString(st: State) { st.At? && st.mode.Str? }

  /** Without a quote nothing leaves a string. */
  lemma {:induction false} StaysInString(st: State, s: string)
    requires st == Fail || InString(st)
    requires '"' !in s
    ensures Run(st, s) == Fail || InString(Run(st, s))
    decreases |s|
  {
    if s != "" {
      assert s[|s| - 1] in s;
      StaysInString(st, s[..|s| - 1]);
    }
  }

  /** Without a quote nothing enters a string. */
  lemma {:induction false} StaysOutside(st: State, s: string)
    requires !InString(st) && '"' !in s
    ensures !InString(Run(st, s))
    decreases |s|
  {
    if s != "" {
      assert s[|s| - 1] in s;
      StaysOutside(st, s[..|s| - 1]);
    }
  }

  /** A closing bracket is refused where something else has to come first. */
  lemma CloseRefused(stack: seq<Frame>, m: Mode)
    requires stack != [] && Fits(stack, m) && !m.Str? && !Closable(stack, At(stack, m))
    ensures Step(At(stack, m), if Top(stack) == InObject then '}' else ']') == Fail
  {
  }

  lemma CloseAccepted(stack: seq<Frame>, m: Mode)
    requires stack != [] && Fits(stack, m) && Closable(stack, At(stack, m))
    ensures Step(At(stack, m), if Top(stack) == InObject then '}' else ']') == At(Pop(stack), After)
  {
  }

  /** The closing brackets complete the text exactly from a closable state. */
  lemma CloseIff(stack: seq<Frame>, st: State)
    requires SameStack(stack, st)
    ensures Accepting(Run(st, CloseText(stack))) <==> Closable(stack, st)
  {
    hide Step;
    NoQuotesInClosing(stack);
    if st == Fail {
      RunFail(CloseText(stack));
    } else if InString(st) {
      StaysInString(st, CloseText(stack));
    } else if stack != [] {
      var c := if Top(stack) == InObject then '}' else ']';
      RunCons(st, c, CloseText(Pop(stack)));
      if Closable(stack, st) {
        CloseAccepted(stack, st.mode);
        CloseAll(Pop(stack));
      } else {
        CloseRefused(stack, st.mode);
        RunFail(CloseText(Pop(stack)));
      }
    } else {
      assert Run(st, "") == st;
    }
  }

  /** A probe in terms of the state it leads to. */
  lemma ProbeIff(str: string, x: string, stack: seq<Frame>)
    requires SameStack(stack, Run(Run(START, str), x))
    ensures WellFormed(str + x + CloseText(stack)) <==> Closable(stack, Run(Run(START, str), x))
  {
    RunAppend(START, str, x);
    RunAppend(START, str + x, CloseText(stack));
    CloseIff(stack, Run(Run(START, str), x));
  }

  // ---------------------------------------------------------------- short strings

  lemma Run2(st: State, a: char, b: char)
    ensures Run(st, [a, b]) == Step(Step(st, a), b)
  {
    assert [a, b] == [a] + [b];
    RunCons(st, a, [b]);
    RunOne(Step(st, a), b);
  }

  lemma Run3(st: State, a: char, b: char, c: char)
    ensures Run(st, [a, b, c]) == Step(Step(Step(st, a), b), c)
  {
    assert [a, b, c] == [a] + [b, c];
    RunCons(st, a, [b, c]);
    Run2(Step(st, a), b, c);
  }

  lemma Run4(st: State, a: char, b: char, c: char, d: char)
    ensures Run(st, [a, b, c, d]) == Step(Step(Step(Step(st, a), b), c), d)
  {
    assert [a, b, c, d] == [a] + [b, c, d];
    RunCons(st, a, [b, c, d]);
    Run3(Step(st, a), b, c, d);
  }

  lemma Run5(st: State, a: char, b: char, c: char, d: char, e: char)
    ensures Run(st, [a, b, c, d, e]) == Step(Step(Step(Step(Step(st, a), b), c), d), e)
  {
    assert [a, b, c, d, e] == [a] + [b, c, d, e];
    RunCons(st, a, [b, c, d, e]);
    Run4(Step(st, a), b, c, d, e);
  }

  // ---------------------------------------------------------------- the probes

  predicate InMode(st: State, m: Mode) { st.At? && st.mode == m }

  lemma StepKeepsStack(stack: seq<Frame>, st: State, c: char)
    requires SameStack(stack, st) && c !in "{}[]"
    ensures SameStack(stack, Step(st, c))
  {
    hide DigitsFit;
    StepConsistent(st, c);
  }

  lemma {:induction false} RunKeepsStack(stack: seq<Frame>, st: State, x: string)
    requires SameStack(stack, st) && forall c :: c in "{}[]" ==> c !in x
    ensures SameStack(stack, Run(st, x))
    decreases |x|
  {
    if x != "" {
      hide Fits, Step;
      assert forall c :: c in x[..|x| - 1] ==> c in x;
      RunKeepsStack(stack, st, x[..|x| - 1]);
      assert x[|x| - 1] in x;
      StepKeepsStack(stack, Run(st, x[..|x| - 1]), x[|x| - 1]);
    }
  }

  /** The stretch `: 1` leads to a complete member exactly behind a key. */
  lemma AcrossColon(stack: seq<Frame>, st: State)
    requires SameStack(stack, st)
    ensures SameStack(stack, Run(st, ": 1"))
    ensures Closable(stack, Run(st, ": 1")) <==> InMode(st, Colon)
  {
    RunKeepsStack(stack, st, ": 1");
    if InString(st) {
      StaysInString(st, ": 1");
    } else {
      assert ": 1" == [':'] + " 1";
      RunCons(st, ':', " 1");
      if InMode(st, Colon) {
        Run2(At(stack, Value), ' ', '1');
      } else {
        ColonRefused(st);
        RunFail(" 1");
      }
    }
  }

  lemma ColonRefused(st: State)
    requires Consistent(st) && !InString(st) && !InMode(st, Colon)
    ensures Step(st, ':') == Fail
  {
  }

  lemma AcrossKeyEnd(stack: seq<Frame>, st: State)
    requires SameStack(stack, st)
    ensures SameStack(stack, Run(st, "\": 1"))
    ensures Closable(stack, Run(st, "\": 1")) <==> InMode(st, Str(true, Plain, false))
  {
    assert "\": 1" == ['"'] + ": 1";
    RunCons(st, '"', ": 1");
    StepKeepsStack(stack, st, '"');
    AcrossColon(stack, Step(st, '"'));
  }

  lemma AcrossMember(stack: seq<Frame>, st: State)
    requires SameStack(stack, st)
    ensures SameStack(stack, Run(st, "\"\": 1"))
    ensures Closable(stack, Run(st, "\"\": 1")) <==>
            InMode(st, Key) || InMode(st, KeyOrEnd) || InMode(st, Str(true, Escaped, false))
  {
    assert "\"\": 1" == ['"'] + "\": 1";
    RunCons(st, '"', "\": 1");
    StepKeepsStack(stack, st, '"');
    AcrossKeyEnd(stack, Step(st, '"'));
  }

  lemma ProbeOne(str: string, stack: seq<Frame>, m: Mode)
    requires Run(START, str) == At(stack, m) && Fits(stack, m)
    ensures WellFormed(str + "1" + CloseText(stack)) <==> m == Value || m == ValueOrEnd || (m.Num? && m.num != Zero)
  {
    var st := At(stack, m);
    RunOne(st, '1');
    StepKeepsStack(stack, st, '1');
    ProbeIff(str, "1", stack);
  }

  lemma ProbeNothing(str: string, stack: seq<Frame>, m: Mode)
    requires Run(START, str) == At(stack, m) && Fits(stack, m)
    ensures WellFormed(str + CloseText(stack)) <==> Closable(stack, At(stack, m))
  {
    assert str + "" == str;
    assert Run(At(stack, m), "") == At(stack, m);
    ProbeIff(str, "", stack);
  }

  lemma ProbeColon(str: string, stack: seq<Frame>, m: Mode)
    requires Run(START, str) == At(stack, m) && Fits(stack, m)
    ensures WellFormed(str + ": 1" + CloseText(stack)) <==> m == Colon
  {
    AcrossColon(stack, At(stack, m));
    ProbeIff(str, ": 1", stack);
  }

  lemma ProbeQuote(str: string, stack: seq<Frame>, m: Mode)
    requires Run(START, str) == At(stack, m) && Fits(stack, m)
    ensures WellFormed(str + "\"" + CloseText(stack)) <==> m == Str(false, Plain, false)
  {
    var st := At(stack, m);
    RunOne(st, '"');
    StepKeepsStack(stack, st, '"');
    ProbeIff(str, "\"", stack);
  }

  lemma BackslashStep(stack: seq<Frame>, m: Mode)
    requires Fits(stack, m)
    ensures var st := Step(At(stack, m), '\\');
            if !m.Str? then st == Fail
            else match m.lex
                 case Plain => st == At(stack, m.(lex := Escaped))
                 case Escaped => st == if m.needLow then Fail else At(stack, m.(lex := Plain))
                 case Hex(_) => st == Fail
  {
  }

  lemma BackslashQuote(stack: seq<Frame>, m: Mode)
    requires Fits(stack, m)
    ensures Closable(stack, Step(Step(At(stack, m), '\\'), '"')) <==> m == Str(false, Escaped, false)
  {
    BackslashStep(stack, m);
  }

  lemma ProbeBackslash(str: string, stack: seq<Frame>, m: Mode)
    requires Run(START, str) == At(stack, m) && Fits(stack, m)
    ensures WellFormed(str + "\\\"" + CloseText(stack)) <==> m == Str(false, Escaped, false)
  {
    hide Step, Fits, Run, WellFormed, Closable;
    var st := At(stack, m);
    Run2(st, '\\', '"');
    StepKeepsStack(stack, st, '\\');
    StepKeepsStack(stack, Step(st, '\\'), '"');
    BackslashQuote(stack, m);
    ProbeIff(str, "\\\"", stack);
  }

  lemma ProbeElement(str: string, stack: seq<Frame>, m: Mode)
    requires Run(START, str) == At(stack, m) && Fits(stack, m)
    ensures WellFormed(str + ", 1" + CloseText(stack)) <==>
            stack != [] && Top(stack) == InArray && (m == After || (m.Num? && Complete(m.num)))
  {
    var st := At(stack, m);
    RunKeepsStack(stack, st, ", 1");
    if m.Str? {
      StaysInString(st, ", 1");
    } else {
      assert ", 1" == [','] + " 1";
      RunCons(st, ',', " 1");
      Run2(Step(st, ','), ' ', '1');
      CommaLeadsTo(stack, m);
    }
    ProbeIff(str, ", 1", stack);
  }

  lemma CommaLeadsTo(stack: seq<Frame>, m: Mode)
    requires Fits(stack, m) && !m.Str?
    ensures Step(At(stack, m), ',') ==
            if stack != [] && (m == After || (m.Num? && Complete(m.num)))
            then At(stack, if Top(stack) == InObject then Key else Value)
            else Fail
  {
  }

  lemma CommaInString(stack: seq<Frame>, m: Mode)
    requires Fits(stack, m) && m.Str?
    ensures var st := Step(At(stack, m), ','); st == Fail || InMode(st, Str(m.isKey, Plain, false))
  {
  }

  lemma ProbeMember(str: string, stack: seq<Frame>, m: Mode)
    requires Run(START, str) == At(stack, m) && Fits(stack, m)
    ensures WellFormed(str + "\"\": 1" + CloseText(stack)) <==>
            m == Key || m == KeyOrEnd || m == Str(true, Escaped, false)
  {
    AcrossMember(stack, At(stack, m));
    ProbeIff(str, "\"\": 1", stack);
  }

  lemma ProbeNextMember(str: string, stack: seq<Frame>, m: Mode)
    requires Run(START, str) == At(stack, m) && Fits(stack, m)
    ensures WellFormed(str + ",\"\": 1" + CloseText(stack)) <==>
            stack != [] && Top(stack) == InObject && (m == After || (m.Num? && Complete(m.num)))
  {
    var st := At(stack, m);
    assert ",\"\": 1" == [','] + "\"\": 1";
    RunCons(st, ',', "\"\": 1");
    StepKeepsStack(stack, st, ',');
    AcrossMember(stack, Step(st, ','));
    if m.Str? { CommaInString(stack, m); } else { CommaLeadsTo(stack, m); }
    hide Step, Fits;
    ProbeIff(str, ",\"\": 1", stack);
  }

  lemma ProbeKeyQuote(str: string, stack: seq<Frame>, m: Mode)
    requires Run(START, str) == At(stack, m) && Fits(stack, m)
    ensures WellFormed(str + "\": 1" + CloseText(stack)) <==> m == Str(true, Plain, false)
  {
    AcrossKeyEnd(stack, At(stack, m));
    ProbeIff(str, "\": 1", stack);
  }

  lemma ProbeKeyBackslash(str: string, stack: seq<Frame>, m: Mode)
    requires Run(START, str) == At(stack, m) && Fits(stack, m)
    ensures WellFormed(str + "\\\": 1" + CloseText(stack)) <==> m == Str(true, Escaped, false)
  {
    hide Step, Fits, Run, WellFormed, Closable;
    var st := At(stack, m);
    assert "\\\": 1" == ['\\'] + "\": 1";
    RunCons(st, '\\', "\": 1");
    StepKeepsStack(stack, st, '\\');
    BackslashStep(stack, m);
    AcrossKeyEnd(stack, Step(st, '\\'));
    ProbeIff(str, "\\\": 1", stack);
  }
}
