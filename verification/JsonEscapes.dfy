/**
  Filling up an unfinished `\u` escape. A high surrogate must be followed by a low one, so the
  padding depends on the escape in front of the cut as well; it is found by its looks only.
  */
module JsonEscapes {
  import opened Base
  import opened JsonText
  import opened JsonSax
  import opened JsonCompletions
  import opened JsonAnchors

  /** The expression `\\u(?:[0-9a-fA-F]...)?$` matches from `i` to the end. */
  predicate EscapeAt(s: string, i: nat) {
    && i + 2 <= |s| <= i + 6
    && s[i] == '\\' && s[i + 1] == 'u'
    && forall k :: i + 2 <= k < |s| ==> IsHex(s[k])
  }

  function LastEscapeWithin(s: string, width: nat): (r: Option<nat>)
    ensures r.Some? ==> EscapeAt(s, r.value)
    ensures r.None? ==> forall i: nat :: EscapeAt(s, i) ==> |s| > i + width
  {
    if width < 2 then None
    else if width <= |s| && EscapeAt(s, |s| - width) then Some(|s| - width)
    else LastEscapeWithin(s, width - 1)
  }

  /** `regex_search` with that expression. */
  function LastEscape(s: string): (r: Option<nat>)
    ensures r.Some? ==> EscapeAt(s, r.value)
    ensures r.None? ==> forall i: nat :: !EscapeAt(s, i)
  {
    LastEscapeWithin(s, 6)
  }

  /** A match is unique: neither `u` nor a hex digit is a backslash. */
  lemma LastEscapeIs(s: string, i: nat)
    requires EscapeAt(s, i)
    ensures LastEscape(s) == Some(i)
  {
    var j := LastEscape(s).value;
    NoEscapeInside(s, i, j);
    NoEscapeInside(s, j, i);
  }

  lemma NoEscapeInside(s: string, i: nat, j: nat)
    requires EscapeAt(s, i) && EscapeAt(s, j)
    ensures i >= j
  {
  }

  predicate IsHigh(s: string) { |s| >= 4 && s[0] == '\\' && s[1] == 'u' && IsD(s[2]) && IsHighDigit(s[3]) }

  function Zeros(n: nat): (z: string)
    ensures |z| == n && forall i :: 0 <= i < n ==> z[i] == '0'
  {
    if n == 0 then "" else Zeros(n - 1) + "0"
  }

  /** `unicode_marker_padding`. */
  function Padding(s: string): string {
    match LastEscape(s)
    case None => "udc00"
    case Some(i) =>
      var len := |s| - i;
      if IsHigh(s[i..]) then Zeros(6 - len) + "\\udc00"
      else if LastEscape(s[..i]).Some? && IsHigh(s[LastEscape(s[..i]).value..i]) then
        if len == 2 then "dc00" else if len == 3 then "c00" else Zeros(6 - len)
      else Zeros(6 - len)
  }

  // ---------------------------------------------------------------- what stands before the cut

  lemma EscapedStep(prev: State, c: char)
    requires Consistent(prev) && InString(Step(prev, c)) && Step(prev, c).mode.lex == Escaped
    ensures c == '\\' && prev == At(Step(prev, c).stack, Step(prev, c).mode.(lex := Plain))
  {
    hide DigitsFit;
  }

  lemma TailOfEscaped(s: string)
    requires InString(Run(START, s)) && Run(START, s).mode.lex == Escaped
    ensures s != "" && s[|s| - 1] == '\\'
    ensures Run(START, s[..|s| - 1]) == At(Run(START, s).stack, Run(START, s).mode.(lex := Plain))
  {
    hide Step;
    LastStep(s);
    RunConsistent(s[..|s| - 1]);
    EscapedStep(Run(START, s[..|s| - 1]), s[|s| - 1]);
  }

  lemma StringHasText(s: string)
    requires InString(Run(START, s))
    ensures s != ""
  {
  }

  lemma HexStep(prev: State, c: char)
    requires Consistent(prev) && InString(Step(prev, c)) && Step(prev, c).mode.lex.Hex?
    ensures InString(prev) && prev.stack == Step(prev, c).stack
    ensures var m, m' := prev.mode, Step(prev, c).mode;
            && m == m'.(lex := m.lex)
            && (if m'.lex.digits == "" then m.lex == Escaped && c == 'u'
                else m.lex.Hex? && m'.lex.digits == m.lex.digits + [c] && IsHex(c))
  {
    hide DigitsFit;
  }

  /** The digits of an open escape stand at the end, and plain text of the same string before it. */
  lemma {:induction false} TailOfHex(s: string)
    requires InString(Run(START, s)) && Run(START, s).mode.lex.Hex?
    ensures var st := Run(START, s);
            var i := |s| - 2 - |st.mode.lex.digits|;
            && i >= 0 && EscapeAt(s, i) && s[i + 2..] == st.mode.lex.digits
            && Run(START, s[..i]) == At(st.stack, st.mode.(lex := Plain))
    decreases |s|
  {
    hide Step, Run, EscapeAt, Consistent, DigitsFit, IsHex;
    StringHasText(s);
    LastStep(s);
    var t, c := s[..|s| - 1], s[|s| - 1];
    var st, prev := Run(START, s), Run(START, t);
    RunConsistent(t);
    RunConsistent(s);
    HexStep(prev, c);
    if st.mode.lex.digits == "" {
      TailOfEscaped(t);
      BeginsEscape(s);
    } else {
      TailOfHex(t);
      ShortOpen(st);
      GrowsEscape(s, prev.mode.lex.digits);
    }
  }

  lemma BeginsEscape(s: string)
    requires |s| >= 2 && s[..|s| - 1][|s| - 2] == '\\' && s[|s| - 1] == 'u'
    ensures EscapeAt(s, |s| - 2) && s[|s|..] == "" && s[..|s| - 1][..|s| - 2] == s[..|s| - 2]
  {
  }

  lemma GrowsEscape(s: string, d: string)
    requires |s| >= |d| + 3 && |d| <= 3 && IsHex(s[|s| - 1])
    requires var t := s[..|s| - 1]; EscapeAt(t, |s| - 3 - |d|) && t[|s| - 1 - |d|..] == d
    ensures EscapeAt(s, |s| - 3 - |d|) && s[|s| - 1 - |d|..] == d + [s[|s| - 1]]
    ensures s[..|s| - 1][..|s| - 3 - |d|] == s[..|s| - 3 - |d|]
  {
    hide IsHex;
    var t := s[..|s| - 1];
    assert s[|s| - 1 - |d|..] == t[|s| - 1 - |d|..] + [s[|s| - 1]];
  }

  lemma ShortOpen(st: State)
    requires Consistent(st) && InString(st) && st.mode.lex.Hex?
    ensures |st.mode.lex.digits| <= 3
  {
  }

  lemma HighStep(prev: State, c: char)
    requires Consistent(prev) && InString(Step(prev, c)) && Step(prev, c).mode.needLow &&
             Step(prev, c).mode.lex == Plain
    ensures InString(prev) && prev.mode.lex.Hex? && IsHex(c)
    ensures |prev.mode.lex.digits| == 3 && IsD(prev.mode.lex.digits[0]) && IsHighDigit(prev.mode.lex.digits[1])
  {
  }

  lemma WholeEscape(s: string, d: string)
    requires s != "" && |s| >= 6 && |d| == 3 && IsD(d[0]) && IsHighDigit(d[1]) && IsHex(s[|s| - 1])
    requires EscapeAt(s[..|s| - 1], |s| - 6) && s[..|s| - 1][|s| - 4..] == d
    ensures EscapeAt(s, |s| - 6) && IsHigh(s[|s| - 6..])
  {
    hide IsHex, IsD, IsHighDigit;
    var t := s[..|s| - 1];
    assert s[|s| - 6..][2] == t[|s| - 4..][0] == d[0] && s[|s| - 6..][3] == t[|s| - 4..][1] == d[1];
  }

  /** A string waiting for a low surrogate ends with the six characters of the high one. */
  lemma TailOfHigh(s: string)
    requires InString(Run(START, s)) && Run(START, s).mode.needLow && Run(START, s).mode.lex == Plain
    ensures |s| >= 6 && EscapeAt(s, |s| - 6) && IsHigh(s[|s| - 6..])
  {
    hide Step, Run, EscapeAt, IsHigh, IsHex, IsD, IsHighDigit, Consistent;
    StringHasText(s);
    LastStep(s);
    var t, c := s[..|s| - 1], s[|s| - 1];
    RunConsistent(t);
    HighStep(Run(START, t), c);
    TailOfHex(t);
    WholeEscape(s, Run(START, t).mode.lex.digits);
  }

  // ---------------------------------------------------------------- what the padding leads to

  /** The padding that suits an open escape. */
  function Filling(digits: string, needLow: bool): string
    requires |digits| <= 3
  {
    if needLow then "dc00"[|digits|..]
    else if |digits| >= 2 && IsD(digits[0]) && IsHighDigit(digits[1]) then Zeros(4 - |digits|) + "\\udc00"
    else Zeros(4 - |digits|)
  }

  lemma ZerosAre(n: nat)
    requires n <= 4
    ensures Zeros(n) == "0000"[..n]
  {
  }

  lemma RunLowPair(stack: seq<Frame>, isKey: bool)
    ensures Run(At(stack, Str(isKey, Plain, true)), "\\udc00") == At(stack, Str(isKey, Plain, false))
    ensures Run(At(stack, Str(isKey, Escaped, true)), "udc00") == At(stack, Str(isKey, Plain, false))
    ensures Run(At(stack, Str(isKey, Hex(""), true)), "dc00") == At(stack, Str(isKey, Plain, false))
  {
    Run4(At(stack, Str(isKey, Hex(""), true)), 'd', 'c', '0', '0');
    assert "" + ['d'] == "d" && "d" + ['c'] == "dc" && "dc" + ['0'] == "dc0";
    assert "udc00" == ['u'] + "dc00" && "\\udc00" == ['\\'] + "udc00";
    RunCons(At(stack, Str(isKey, Escaped, true)), 'u', "dc00");
    RunCons(At(stack, Str(isKey, Plain, true)), '\\', "udc00");
  }

  lemma NoZeros(st: State)
    ensures Run(st, Zeros(0)) == st
  {
  }

  lemma ZeroStep(stack: seq<Frame>, isKey: bool, d: string)
    requires |d| <= 3
    ensures Step(At(stack, Str(isKey, Hex(d), false)), '0')
            == if |d| < 3 then At(stack, Str(isKey, Hex(d + "0"), false))
               else At(stack, Str(isKey, Plain, IsD(d[0]) && IsHighDigit(d[1])))
  {
    assert d + ['0'] == d + "0";
  }

  lemma ZerosCons(n: nat)
    requires n < 4
    ensures Zeros(n + 1) == ['0'] + Zeros(n)
  {
    ZerosAre(n);
    ZerosAre(n + 1);
  }

  lemma {:induction false} RunZeros(stack: seq<Frame>, isKey: bool, d: string)
    requires |d| <= 3
    ensures Run(At(stack, Str(isKey, Hex(d), false)), Zeros(4 - |d|))
            == At(stack, Str(isKey, Plain, |d| >= 2 && IsD(d[0]) && IsHighDigit(d[1])))
    decreases 4 - |d|
  {
    hide Step, Zeros, IsD, Run;
    var st := At(stack, Str(isKey, Hex(d), false));
    ZerosCons(3 - |d|);
    RunCons(st, '0', Zeros(3 - |d|));
    ZeroStep(stack, isKey, d);
    if |d| < 3 {
      RunZeros(stack, isKey, d + "0");
    } else {
      NoZeros(Step(st, '0'));
    }
  }

  lemma RunLowRest(stack: seq<Frame>, isKey: bool, d: string)
    requires DigitsFit(d, true)
    ensures Run(At(stack, Str(isKey, Hex(d), true)), "dc00"[|d|..]) == At(stack, Str(isKey, Plain, false))
  {
    var st := At(stack, Str(isKey, Hex(d), true));
    if |d| == 0 {
      assert "dc00"[0..] == "dc00" && d == "";
      RunLowPair(stack, isKey);
    } else if |d| == 1 {
      assert "dc00"[1..] == ['c', '0', '0'];
      assert |d + ['c']| == 2 && |d + ['c'] + ['0']| == 3;
      Run3(st, 'c', '0', '0');
    } else if |d| == 2 {
      assert "dc00"[2..] == ['0', '0'];
      assert |d + ['0']| == 3;
      Run2(st, '0', '0');
    } else {
      assert "dc00"[3..] == ['0'];
      RunOne(st, '0');
    }
  }

  /** The suitable filling completes the escape, and the surrogate pair if one was begun. */
  lemma FillingFits(stack: seq<Frame>, isKey: bool, d: string, needLow: bool)
    requires DigitsFit(d, needLow)
    ensures Run(At(stack, Str(isKey, Hex(d), needLow)), Filling(d, needLow)) == At(stack, Str(isKey, Plain, false))
  {
    if needLow {
      RunLowRest(stack, isKey, d);
    } else {
      RunZeros(stack, isKey, d);
      if |d| >= 2 && IsD(d[0]) && IsHighDigit(d[1]) {
        RunLowPair(stack, isKey);
        RunAppend(At(stack, Str(isKey, Hex(d), false)), Zeros(4 - |d|), "\\udc00");
      }
    }
  }

  /** A low-surrogate filling where no high surrogate was begun. */
  lemma WrongFilling(stack: seq<Frame>, isKey: bool, d: string)
    requires DigitsFit(d, false) && |d| <= 1
    ensures Run(At(stack, Str(isKey, Hex(d), false)), if d == "" then "dc00" else "c00")
            == if d == "" || IsD(d[0]) then Fail else At(stack, Str(isKey, Plain, false))
  {
    var st := At(stack, Str(isKey, Hex(d), false));
    if d == "" {
      assert "" + ['d'] == "d";
      Run4(st, 'd', 'c', '0', '0');
    } else {
      assert |d + ['c']| == 2 && |d + ['c'] + ['0']| == 3;
      Run3(st, 'c', '0', '0');
    }
  }

  /**
    The escape before the cut only looks like a high surrogate (its backslash is itself escaped),
    and the open escape is at most `\ud`, so that it gets filled up to a lone low surrogate.
    */
  predicate PairMistaken(s: string, m: Mode) {
    && m.Str? && !m.needLow && m.lex.Hex?
    && (m.lex.digits == "" || (|m.lex.digits| == 1 && IsD(m.lex.digits[0])))
    && |s| >= 2 + |m.lex.digits|
    && var prelude := s[..|s| - 2 - |m.lex.digits|];
       LastEscape(prelude).Some? && IsHigh(prelude[LastEscape(prelude).value..])
  }

  /** The open escape at the end of `s` has the digits `d`. */
  predicate OpenEscape(s: string, d: string, needLow: bool) {
    && |s| >= 2 + |d| && DigitsFit(d, needLow) && EscapeAt(s, |s| - 2 - |d|) && s[|s| - |d|..] == d
  }

  /** An escape that looks like a high surrogate stands in front of the open one. */
  predicate HighInFront(s: string, d: string)
    requires |s| >= 2 + |d|
  {
    var prelude := s[..|s| - 2 - |d|];
    LastEscape(prelude).Some? && IsHigh(prelude[LastEscape(prelude).value..])
  }

  lemma OpenIsHigh(s: string, d: string, needLow: bool)
    requires OpenEscape(s, d, needLow)
    ensures LastEscape(s) == Some(|s| - 2 - |d|) && |d| <= 3
    ensures IsHigh(s[|s| - 2 - |d|..]) <==> |d| >= 2 && IsD(d[0]) && IsHighDigit(d[1])
  {
    hide IsHex, IsD, IsHighDigit, LastEscape;
    var i := |s| - 2 - |d|;
    LastEscapeIs(s, i);
    assert s[|s| - |d|..] == s[i..][2..];
    assert |d| >= 2 ==> s[i..][2] == d[0] && s[i..][3] == d[1];
  }

  lemma FrontSlice(s: string, d: string)
    requires |s| >= 2 + |d| && LastEscape(s[..|s| - 2 - |d|]).Some?
    ensures var i := |s| - 2 - |d|; var k := LastEscape(s[..i]).value; k <= i && s[k..i] == s[..i][k..]
  {
  }

  /** The padding by looks: a pair is completed wherever a high surrogate seems to stand in front. */
  lemma PaddingByLooks(s: string, d: string, needLow: bool)
    requires OpenEscape(s, d, needLow) && (needLow ==> HighInFront(s, d))
    ensures |d| <= 3
    ensures Padding(s) == if !needLow && HighInFront(s, d) && |d| <= 1 then (if d == "" then "dc00" else "c00")
            else Filling(d, needLow)
  {
    hide LastEscape, IsHigh, IsD, IsHighDigit, IsHex, EscapeAt, DigitsFit;
    OpenIsHigh(s, d, needLow);
    if LastEscape(s[..|s| - 2 - |d|]).Some? { FrontSlice(s, d); }
    FitDigits(d, needLow);
    LowFilling(d);
  }

  lemma FitDigits(d: string, needLow: bool)
    requires DigitsFit(d, needLow)
    ensures needLow && |d| >= 2 ==> !IsHighDigit(d[1])
  {
  }

  lemma LowFilling(d: string)
    requires |d| <= 3
    ensures "dc00"[|d|..] == if |d| == 0 then "dc00" else if |d| == 1 then "c00" else Zeros(4 - |d|)
  {
    ZerosAre(4 - |d|);
  }

  lemma OpenTail(s: string)
    requires InString(Run(START, s)) && Run(START, s).mode.lex.Hex?
    ensures var m := Run(START, s).mode;
            OpenEscape(s, m.lex.digits, m.needLow) && (m.needLow ==> HighInFront(s, m.lex.digits))
  {
    hide Step, Run, LastEscape, IsHigh, IsHex, IsD, IsHighDigit, DigitsFit;
    RunConsistent(s);
    TailOfHex(s);
    var m := Run(START, s).mode;
    var i := |s| - 2 - |m.lex.digits|;
    var prelude := s[..i];
    if m.needLow {
      TailOfHigh(prelude);
      LastEscapeIs(prelude, i - 6);
    }
  }

  /** The padding chosen by looks, against the filling that the state asks for. */
  lemma PaddingChosen(s: string)
    requires InString(Run(START, s)) && Run(START, s).mode.lex.Hex?
    ensures var m := Run(START, s).mode;
            var d := m.lex.digits;
            |d| <= 3 &&
            (Padding(s) == Filling(d, m.needLow) ||
                (!m.needLow && |d| <= 1 && Padding(s) == if d == "" then "dc00" else "c00"))
    ensures var m := Run(START, s).mode;
            PairMistaken(s, m) ==> Padding(s) == if m.lex.digits == "" then "dc00" else "c00"
    ensures var m := Run(START, s).mode;
            !PairMistaken(s, m) && (m.lex.digits == "" || IsD(m.lex.digits[0])) ==>
                Padding(s) == Filling(m.lex.digits, m.needLow)
  {
    hide Step, Run, LastEscape, IsHigh, IsHex, IsD, IsHighDigit, DigitsFit, Padding, Filling;
    OpenTail(s);
    PaddingByLooks(s, Run(START, s).mode.lex.digits, Run(START, s).mode.needLow);
  }

  /** The padding in every place inside a string that needs one. */
  lemma PaddingIs(s: string)
    requires InString(Run(START, s)) && (Run(START, s).mode.lex.Hex? || Run(START, s).mode.needLow)
    ensures var m := Run(START, s).mode;
            match m.lex
            case Plain => Padding(s) == "\\udc00"
            case Escaped => Padding(s) == "udc00"
            case Hex(d) =>
              |d| <= 3 && (!PairMistaken(s, m) ==>
                Padding(s) == Filling(d, m.needLow) || (!m.needLow && |d| == 1 && !IsD(d[0]) && Padding(s) == "c00"))
  {
    hide Step, LastEscapeWithin, Filling;
    match Run(START, s).mode.lex {
      case Plain =>
        TailOfHigh(s);
        LastEscapeIs(s, |s| - 6);
        assert Zeros(0) + "\\udc00" == "\\udc00";
      case Escaped => TailOfEscaped(s);
      case Hex(d) => PaddingChosen(s);
    }
  }

  /** Behind the padding the string is plain text again, unless a pair was mistaken. */
  lemma PaddingLeads(s: string)
    requires InString(Run(START, s)) && (Run(START, s).mode.lex.Hex? || Run(START, s).mode.needLow)
    ensures var st := Run(START, s);
            Run(st, Padding(s)) == if PairMistaken(s, st.mode) then Fail
                else At(st.stack, Str(st.mode.isKey, Plain, false))
  {
    var st := Run(START, s);
    var m := st.mode;
    RunConsistent(s);
    RunLowPair(st.stack, m.isKey);
    hide Step, LastEscapeWithin;
    match m.lex {
      case Plain =>
        TailOfHigh(s);
        LastEscapeIs(s, |s| - 6);
        assert Zeros(0) + "\\udc00" == "\\udc00";
      case Escaped =>
        TailOfEscaped(s);
        assert Padding(s) == "udc00";
      case Hex(d) =>
        PaddingChosen(s);
        FillingFits(st.stack, m.isKey, d, m.needLow);
        if !m.needLow && |d| <= 1 { WrongFilling(st.stack, m.isKey, d); }
    }
  }
}
