/**
  What the last characters of a truncated text look like in each mode: where its last value
  starts, and how an unfinished `\u` escape can be filled up.
  */
module JsonAnchors {
  import opened Base
  import opened JsonText
  import opened JsonSax
  import opened JsonCompletions

  predicate BlankBetween(s: string, a: nat, b: nat)
    requires a <= b <= |s|
  {
    forall i :: a <= i < b ==> IsBlank(s[i])
  }

  /** Characters of numbers and of true, false and null. */
  predicate IsScalarChar(c: char) { IsDigit(c) || c in "+-.eEtrufalsn" }

  predicate ScalarFrom(s: string, k: nat)
    requires k <= |s|
  {
    forall i :: k <= i < |s| ==> IsScalarChar(s[i])
  }

  /** The last character read, and the state before it. */
  lemma LastStep(s: string)
    requires s != ""
    ensures Run(START, s) == Step(Run(START, s[..|s| - 1]), s[|s| - 1])
  {
  }

  // ---------------------------------------------------------------- where the last value starts

  /** The character in front of a value: `:` in an object, `,` or `[` in an array. */
  predicate Opens(stack: seq<Frame>, c: char, m: Mode) {
    && stack != []
    && (if Top(stack) == InObject then c == ':' && m == Value
        else (c == ',' && m == Value) || (c == '[' && m == ValueOrEnd))
  }

  /** Behind the opening character at `j - 1` there is only white space up to `k`. */
  predicate Anchored(s: string, stack: seq<Frame>, j: nat, k: nat) {
    && 0 < j <= k <= |s|
    && BlankBetween(s, j, k)
    && Run(START, s[..j]).At?
    && Run(START, s[..j]).stack == stack
    && Opens(stack, s[j - 1], Run(START, s[..j]).mode)
  }

  lemma AnchorGrows(s: string, stack: seq<Frame>, j: nat, k: nat)
    requires s != "" && Anchored(s[..|s| - 1], stack, j, k)
    ensures Anchored(s, stack, j, k)
    ensures k == |s| - 1 && IsBlank(s[|s| - 1]) ==> Anchored(s, stack, j, |s|)
  {
    var t := s[..|s| - 1];
    assert t[..j] == s[..j];
  }

  lemma {:induction false} AnchorOfValue(s: string) returns (j: nat)
    requires Run(START, s).At? && Run(START, s).stack != []
    requires Run(START, s).mode == Value || Run(START, s).mode == ValueOrEnd
    ensures Anchored(s, Run(START, s).stack, j, |s|) && Run(START, s[..j]) == Run(START, s)
    decreases |s|
  {
    LastStep(s);
    var t, c := s[..|s| - 1], s[|s| - 1];
    RunConsistent(t);
    var st, prev := Run(START, s), Run(START, t);
    ValueStep(prev, c);
    if prev == st {
      j := AnchorOfValue(t);
      AnchorGrows(s, st.stack, j, |t|);
      assert t[..j] == s[..j];
    } else {
      j := |s|;
      assert s[..j] == s;
    }
  }

  lemma ValueStep(prev: State, c: char)
    requires Consistent(prev) && Step(prev, c).At? && Step(prev, c).stack != []
    requires Step(prev, c).mode == Value || Step(prev, c).mode == ValueOrEnd
    ensures (prev == Step(prev, c) && IsBlank(c)) || Opens(Step(prev, c).stack, c, Step(prev, c).mode)
  {
    hide DigitsFit;
  }

  /** Numbers, literals, and the literals that end in `e`. */
  predicate InScalar(m: Mode) { m.Num? || m.Lit? }

  lemma {:induction false} AnchorOfScalar(s: string) returns (j: nat, k: nat)
    requires s != "" && Run(START, s).At? && Run(START, s).stack != []
    requires InScalar(Run(START, s).mode) || (Run(START, s).mode == After && s[|s| - 1] == 'e')
    ensures Anchored(s, Run(START, s).stack, j, k) && k < |s| && ScalarFrom(s, k)
    decreases |s|
  {
    hide Step;
    LastStep(s);
    var t, c := s[..|s| - 1], s[|s| - 1];
    var st, prev := Run(START, s), Run(START, t);
    RunConsistent(t);
    ScalarStep(prev, c);
    if InScalar(prev.mode) {
      assert t != "";
      j, k := AnchorOfScalar(t);
      AnchorGrows(s, st.stack, j, k);
    } else {
      j := AnchorOfValue(t);
      k := |t|;
      AnchorGrows(s, st.stack, j, k);
    }
  }

  lemma ScalarStep(prev: State, c: char)
    requires Consistent(prev) && Step(prev, c).At?
    requires InScalar(Step(prev, c).mode) || (Step(prev, c).mode == After && c == 'e')
    ensures prev.At? && prev.stack == Step(prev, c).stack && IsScalarChar(c)
    ensures InScalar(prev.mode) || prev.mode == Value || prev.mode == ValueOrEnd
  {
    hide DigitsFit;
  }

  /** From position `q + 1` on, the text is inside one string. */
  predicate StringFrom(s: string, q: nat, isKey: bool, stack: seq<Frame>) {
    && q < |s| && s[q] == '"'
    && forall i :: q < i <= |s| ==> InString(Run(START, s[..i])) && Run(START, s[..i]).stack == stack
                                    && Run(START, s[..i]).mode.isKey == isKey
  }

  lemma {:induction false} AnchorOfString(s: string) returns (j: nat, q: nat)
    requires InString(Run(START, s)) && !Run(START, s).mode.isKey && Run(START, s).stack != []
    ensures Anchored(s, Run(START, s).stack, j, q) && StringFrom(s, q, false, Run(START, s).stack)
    decreases |s|
  {
    hide Step;
    LastStep(s);
    var t, c := s[..|s| - 1], s[|s| - 1];
    var st, prev := Run(START, s), Run(START, t);
    RunConsistent(t);
    StringStep(prev, c);
    if InString(prev) {
      j, q := AnchorOfString(t);
      AnchorGrows(s, st.stack, j, q);
      forall i | q < i <= |s| ensures InString(Run(START, s[..i])) && Run(START, s[..i]).stack == st.stack
                                      && !Run(START, s[..i]).mode.isKey {
        if i < |s| { assert s[..i] == t[..i]; } else { assert s[..i] == s; }
      }
    } else {
      j := AnchorOfValue(t);
      q := |t|;
      AnchorGrows(s, st.stack, j, q);
      assert s[..|s|] == s;
    }
  }

  lemma StringStep(prev: State, c: char)
    requires Consistent(prev) && InString(Step(prev, c)) && !Step(prev, c).mode.isKey
    ensures prev.At? && prev.stack == Step(prev, c).stack
    ensures (InString(prev) && !prev.mode.isKey) || (c == '"' && (prev.mode == Value || prev.mode == ValueOrEnd))
  {
    hide DigitsFit;
  }

  // ---------------------------------------------------------------- the last visible character

  /** `find_last_not_of(" \n\r\t")`. */
  function LastVisible(s: string): (r: Option<nat>)
    ensures r.Some? ==> r.value < |s| && !IsBlank(s[r.value]) && BlankBetween(s, r.value + 1, |s|)
    ensures r.None? ==> BlankBetween(s, 0, |s|)
  {
    if s == "" then None
    else if !IsBlank(s[|s| - 1]) then Some(|s| - 1)
    else LastVisible(s[..|s| - 1])
  }

  lemma LastVisibleIs(s: string, i: nat)
    requires i < |s| && !IsBlank(s[i]) && BlankBetween(s, i + 1, |s|)
    ensures LastVisible(s) == Some(i)
  {
  }

  /** What the last visible character can be. */
  predicate VisibleFits(m: Mode, c: char) {
    match m
    case KeyOrEnd => c == '{'
    case Key => c == ','
    case Colon => c == '"'
    case After => c in "\"}]el" || IsDigit(c)
    case _ => true
  }

  lemma {:induction false} VisibleOfMode(s: string)
    requires Run(START, s).At? && Run(START, s).mode in {KeyOrEnd, Key, Colon, After}
    ensures LastVisible(s).Some? && VisibleFits(Run(START, s).mode, s[LastVisible(s).value])
    decreases |s|
  {
    hide Step;
    LastStep(s);
    var t, c := s[..|s| - 1], s[|s| - 1];
    var st, prev := Run(START, s), Run(START, t);
    RunConsistent(t);
    VisibleStep(prev, c);
    if IsBlank(c) {
      if prev.mode.Num? {
        LastCharOfNumber(t);
      } else {
        VisibleOfMode(t);
      }
    }
  }

  lemma VisibleStep(prev: State, c: char)
    requires Consistent(prev) && Step(prev, c).At? && Step(prev, c).mode in {KeyOrEnd, Key, Colon, After}
    ensures IsBlank(c) ==> prev == Step(prev, c) || (InNumber(prev) && Step(prev, c).mode == After)
    ensures !IsBlank(c) ==> VisibleFits(Step(prev, c).mode, c) && !IsDigit(c)
  {
    hide DigitsFit;
  }

  predicate InNumber(st: State) { st.At? && st.mode.Num? && Complete(st.mode.num) }

  lemma NumberStep(prev: State, c: char)
    requires Consistent(prev) && Step(prev, c).At? && Step(prev, c).mode.Num?
    ensures IsDigit(c) || c in "+-.eE"
    ensures Complete(Step(prev, c).mode.num) ==> IsDigit(c)
  {
    hide DigitsFit;
  }

  lemma LastCharOfNumber(s: string)
    requires Run(START, s).At? && Run(START, s).mode.Num?
    ensures s != "" && (IsDigit(s[|s| - 1]) || s[|s| - 1] in "+-.eE")
    ensures InNumber(Run(START, s)) ==> IsDigit(s[|s| - 1])
  {
    hide Step;
    LastStep(s);
    RunConsistent(s[..|s| - 1]);
    NumberStep(Run(START, s[..|s| - 1]), s[|s| - 1]);
  }
}
