/**
  Completing truncated JSON (`common_json_parse` in json-partial.cpp): close what is open around a
  marker, so that the result parses. Whether a search for the marker finds the place to cut again is
  the subject of JsonMarker.
  */
module JsonHealing {
  import opened Base
  import opened Text
  import opened JsonText
  import opened JsonSax
  import opened JsonCompletions
  import opened JsonAnchors
  import opened JsonEscapes

  /** The healed text is `kept + dumpMarker + tail`; cutting at the dump marker leaves `kept`. */
  datatype Healed = Healed(kept: string, dumpMarker: string, tail: string) {
    function Text(): string { kept + dumpMarker + tail }
  }

  datatype Outcome =
    | Whole                 // the input parses as it is
    | Part(length: nat)     // only so many of its characters are parsed
    | Completed(h: Healed)  // healed, and the healed text parses
    | Refused               // the function returns false
    | Threw                 // an exception: an unknown location, or a healed text that does not parse

  // ---------------------------------------------------------------- what healing promises

  /** A marker that can stand inside a JSON string as it is. */
  predicate PlainMarker(marker: string) {
    marker != "" && forall i :: 0 <= i < |marker| ==> marker[i] >= ' ' && marker[i] != '"' && marker[i] != '\\'
  }

  /** `s[k..]` is no more than the last scalar, in the place of a value, with white space before it. */
  ghost predicate OnlyLastScalar(s: string, k: nat)
    requires k <= |s|
  {
    && Run(START, s[..k]).At? && Run(START, s).At?
    && Run(START, s[..k]).stack == Run(START, s).stack
    && (Run(START, s[..k]).mode == Value || Run(START, s[..k]).mode == ValueOrEnd)
    && exists q: nat ::
         && k <= q < |s| && BlankBetween(s, k, q)
         && (ScalarFrom(s, q) || StringFrom(s, q, false, Run(START, s).stack))
  }

  /** Whether the marker becomes part of a key. */
  predicate PutsKey(st: State) {
    st.At? && (st.mode == Key || st.mode == KeyOrEnd || (st.mode.Str? && st.mode.isKey)
               || (st.mode == After && st.stack != [] && Top(st.stack) == InObject))
  }

  /** What healing puts between the kept text and the marker. */
  function Lead(kept: string): string {
    var st := Run(START, kept);
    if st == Fail then ""
    else
      match st.mode
      case Value => "\""
      case ValueOrEnd => "\""
      case Key => "\""
      case KeyOrEnd => "\""
      case Colon => ":\""
      case After => ",\""
      case Str(_, lex, needLow) =>
        if lex.Hex? || needLow then Padding(kept) else if lex == Escaped then "\\" else ""
      case Num(_) => ""
      case Lit(_) => ""
  }

  /** Behind its lead, the kept text stands inside a string and between its escapes. */
  predicate Leads(kept: string) { InPlainText(Run(Run(START, kept), Lead(kept))) }

  predicate InPlainText(st: State) { InString(st) && st.mode.lex == Plain && !st.mode.needLow }

  /** The healed text, once it is known what is kept. */
  function HealedAt(kept: string, marker: string): Healed
    requires Run(START, kept).At?
  {
    var st := Run(START, kept);
    Healed(kept, Lead(kept) + marker, (if PutsKey(st) then "\": 1" else "\"") + CloseText(st.stack))
  }

  /** The text stops directly behind `true` or `false`. */
  predicate EndsInBoolean(s: string) {
    s != "" && s[|s| - 1] == 'e' && Run(START, s).At? && Run(START, s).mode == After
  }

  /** What is dropped: the last scalar, from behind the `:`, `,` or `[` that opens its place. */
  ghost predicate DropsLastScalar(s: string, k: nat)
    requires k <= |s|
  {
    k > 0 && s[k - 1] in {':', ',', '['} && OnlyLastScalar(s, k)
  }

  /**
    The healed text parses, and it is determined by what stands before the dump marker. That is the
    whole input exactly if its lead reaches plain string text and it does not stop at `true` or
    `false`; otherwise it is the input up to the place of its last scalar.
    */
  ghost predicate GoodHealing(s: string, marker: string, r: Outcome) {
    && r.Completed?
    && WellFormed(r.h.Text())
    && Run(START, r.h.kept).At? && Leads(r.h.kept) && r.h == HealedAt(r.h.kept, marker)
    && r.h.kept <= s
    && (if Leads(s) && !EndsInBoolean(s) then r.h.kept == s else DropsLastScalar(s, |r.h.kept|))
  }

  /** `find_last_of`. */
  function LastOf(s: string, chars: set<char>): (r: Option<nat>)
    ensures r.Some? ==> r.value < |s| && s[r.value] in chars && forall i :: r.value < i < |s| ==> s[i] !in chars
    ensures r.None? ==> forall i :: 0 <= i < |s| ==> s[i] !in chars
  {
    if s == "" then None
    else if s[|s| - 1] in chars then Some(|s| - 1)
    else LastOf(s[..|s| - 1], chars)
  }

  /** The characters at which the fallback cuts back. */
  function CutChars(stack: seq<Frame>): set<char> {
    if stack != [] && Top(stack) == InArray then {'[', ','} else {':'}
  }

  /** The fallback would cut inside the string that is being written. */
  predicate CutsInside(s: string, stack: seq<Frame>) {
    match LastOf(s, CutChars(stack))
    case None => false
    case Some(p) => InString(Run(START, s[..p + 1]))
  }

  /**
    The inputs on which healing fails: a surrogate pair is mistaken, and the fallback cannot drop
    the string either, because it is a key or because a cut character stands inside it.
    */
  predicate Misread(s: string) {
    var st := Run(START, s);
    st.At? && PairMistaken(s, st.mode) && (st.mode.isKey || CutsInside(s, st.stack))
  }

  // ---------------------------------------------------------------- healed texts that parse

  lemma {:induction false} RunMarker(stack: seq<Frame>, isKey: bool, marker: string)
    requires forall i :: 0 <= i < |marker| ==> marker[i] >= ' ' && marker[i] != '"' && marker[i] != '\\'
    ensures Run(At(stack, Str(isKey, Plain, false)), marker) == At(stack, Str(isKey, Plain, false))
    decreases |marker|
  {
    if marker != "" { RunMarker(stack, isKey, marker[..|marker| - 1]); }
  }

  lemma Regroup(s: string, x: string, marker: string, end: string, closing: string)
    ensures s + (x + marker) + (end + closing) == s + x + marker + end + closing
  {
  }

  lemma LeadOf(s: string, stack: seq<Frame>, m: Mode)
    requires Run(START, s) == At(stack, m)
    ensures m == Value || m == ValueOrEnd || m == Key || m == KeyOrEnd ==> Lead(s) == "\""
    ensures m == Colon ==> Lead(s) == ":\""
    ensures m == After ==> Lead(s) == ",\""
    ensures m.Str? && !m.lex.Hex? && !m.needLow ==> Lead(s) == if m.lex == Escaped then "\\" else ""
    ensures m.Str? && (m.lex.Hex? || m.needLow) ==> Lead(s) == Padding(s)
  {
  }

  /** Inside a container the lead fails in a number, in a literal, and where a surrogate pair is mistaken. */
  lemma LeadsIff(s: string)
    requires Run(START, s).At? && Run(START, s).stack != []
    ensures Leads(s) <==> !InScalar(Run(START, s).mode) && !PairMistaken(s, Run(START, s).mode)
  {
    hide Step, Run, Padding, PairMistaken, LastEscape;
    var st := Run(START, s);
    var m := st.mode;
    LeadOf(s, st.stack, m);
    RunQuoteBehind(st.stack, m);
    OnlyOpenEscapesMislead(s, m);
    if m.Str? && (m.lex.Hex? || m.needLow) {
      PaddingLeads(s);
    } else if InScalar(m) {
      assert Lead(s) == "" by { LeadIn(s); }
    }
  }

  lemma LeadIn(s: string)
    requires Run(START, s).At? && InScalar(Run(START, s).mode)
    ensures Lead(s) == ""
  {
  }

  /** Behind `x` the text is inside a string value; marker, quote and brackets complete it. */
  lemma ValueHeals(s: string, x: string, marker: string, stack: seq<Frame>)
    requires PlainMarker(marker)
    requires Run(Run(START, s), x) == At(stack, Str(false, Plain, false)) && Fits(stack, Str(false, Plain, false))
    ensures WellFormed(Healed(s, x + marker, "\"" + CloseText(stack)).Text())
  {
    hide Run, Step, CloseText, WellFormed;
    var t := s + x + marker;
    RunAppend(START, s, x);
    RunAppend(START, s + x, marker);
    RunMarker(stack, false, marker);
    ProbeQuote(t, stack, Str(false, Plain, false));
    Regroup(s, x, marker, "\"", CloseText(stack));
  }

  /** The same inside a key. */
  lemma KeyHeals(s: string, x: string, marker: string, stack: seq<Frame>)
    requires PlainMarker(marker)
    requires Run(Run(START, s), x) == At(stack, Str(true, Plain, false)) && Fits(stack, Str(true, Plain, false))
    ensures WellFormed(Healed(s, x + marker, "\": 1" + CloseText(stack)).Text())
  {
    hide Run, Step, CloseText, WellFormed;
    var t := s + x + marker;
    RunAppend(START, s, x);
    RunAppend(START, s + x, marker);
    RunMarker(stack, true, marker);
    ProbeKeyQuote(t, stack, Str(true, Plain, false));
    Regroup(s, x, marker, "\": 1", CloseText(stack));
  }

  /** In the place of a value a quote opens the marker string. */
  lemma FreshValueHeals(s: string, marker: string, stack: seq<Frame>)
    requires PlainMarker(marker) && stack != []
    requires Run(START, s) == At(stack, Value) || Run(START, s) == At(stack, ValueOrEnd)
    ensures var h := Healed(s, "\"" + marker, "\"" + CloseText(stack));
            WellFormed(h.Text()) && Leads(s) && h == HealedAt(s, marker)
  {
    hide WellFormed;
    RunOne(Run(START, s), '"');
    LeadOf(s, stack, Run(START, s).mode);
    ValueHeals(s, "\"", marker, stack);
  }

  /** The fallback cut at a value's opening character heals and drops only that value. */
  lemma CutBackHeals(s: string, marker: string, stack: seq<Frame>, j: nat, q: nat)
    requires PlainMarker(marker) && Run(START, s).At? && Run(START, s).stack == stack
    requires Anchored(s, stack, j, q) && q < |s| && (!Leads(s) || EndsInBoolean(s))
    requires ScalarFrom(s, q) || StringFrom(s, q, false, stack)
    ensures GoodHealing(s, marker, Completed(Healed(s[..j], "\"" + marker, "\"" + CloseText(stack))))
  {
    hide Run, Step, Lead, Leads, HealedAt, CloseText, WellFormed;
    FreshValueHeals(s[..j], marker, stack);
  }

  /** The last cut character is the one in front of the last value, unless it is inside a string. */
  lemma CutIsAnchor(s: string, stack: seq<Frame>, j: nat, q: nat)
    requires Run(START, s).At? && Run(START, s).stack == stack && Anchored(s, stack, j, q) && q < |s|
    requires ScalarFrom(s, q) || (StringFrom(s, q, false, stack) && !CutsInside(s, stack))
    ensures LastOf(s, CutChars(stack)) == Some(j - 1)
  {
    hide Run, Step, LastOf;
    var chars := CutChars(stack);
    assert s[j - 1] in chars;
    var p := LastOf(s, chars).value;
    var atCut := Run(START, s[..p + 1]);
    assert j <= p < q ==> IsBlank(s[p]);
    assert StringFrom(s, q, false, stack) && p > q ==> InString(atCut);
  }

  // ---------------------------------------------------------------- the healing branches

  /** Inside a string nothing is dropped, unless a surrogate pair was mistaken; at the top level only
      between escapes. */
  predicate KeepsString(s: string, r: Outcome) {
    var st := Run(START, s);
    InString(st) && !PairMistaken(s, st.mode) && (st.stack != [] || (!st.mode.lex.Hex? && !st.mode.needLow)) ==>
      r.Completed? && r.h.kept == s
  }

  /** `json::parse` of the healed text: an exception if it does not parse. */
  function Finish(h: Healed): (r: Outcome)
    ensures r.Completed? ==> WellFormed(r.h.Text())
    ensures !r.Whole? && !r.Part? && !r.Refused?
  {
    if WellFormed(h.Text()) then Completed(h) else Threw
  }

  lemma GoodValue(s: string, x: string, marker: string, stack: seq<Frame>)
    requires PlainMarker(marker)
    requires Run(Run(START, s), x) == At(stack, Str(false, Plain, false)) && Fits(stack, Str(false, Plain, false))
    requires Run(START, s).At? && Run(START, s).stack == stack && x == Lead(s) && !PutsKey(Run(START, s))
    requires !EndsInBoolean(s)
    ensures var h := Healed(s, x + marker, "\"" + CloseText(stack));
            GoodHealing(s, marker, Finish(h)) && Finish(h) == Completed(h)
  {
    hide Run, Step, WellFormed, Lead;
    ValueHeals(s, x, marker, stack);
  }

  lemma GoodKey(s: string, x: string, marker: string, stack: seq<Frame>)
    requires PlainMarker(marker)
    requires Run(Run(START, s), x) == At(stack, Str(true, Plain, false)) && Fits(stack, Str(true, Plain, false))
    requires Run(START, s).At? && Run(START, s).stack == stack && x == Lead(s) && PutsKey(Run(START, s))
    requires !EndsInBoolean(s)
    ensures var h := Healed(s, x + marker, "\": 1" + CloseText(stack));
            GoodHealing(s, marker, Finish(h)) && Finish(h) == Completed(h)
  {
    hide Run, Step, WellFormed, Lead;
    KeyHeals(s, x, marker, stack);
  }

  /** The last branch: cut back to the last cut character and put the marker string there. */
  function Fallback(s: string, marker: string, stack: seq<Frame>): (r: Outcome)
    ensures r.Completed? ==> WellFormed(r.h.Text())
    ensures !r.Whole? && !r.Part? && !r.Refused?
  {
    match LastOf(s, CutChars(stack))
    case None => Threw
    case Some(p) => Finish(Healed(s[..p + 1], "\"" + marker, "\"" + CloseText(stack)))
  }

  lemma PlainBehindCut(prev: State, c: char)
    requires Consistent(prev) && InString(Step(prev, c)) && c in {':', ',', '['}
    ensures Step(prev, c).mode == Str(Step(prev, c).mode.isKey, Plain, false)
  {
    hide DigitsFit;
  }

  /** A cut inside a string: the quote in front of the marker ends that string, the next one opens another. */
  lemma InsideCutFails(s: string, marker: string, closing: string)
    requires s != "" && s[|s| - 1] in {':', ',', '['} && InString(Run(START, s))
    requires '"' !in marker && '"' !in closing
    ensures !WellFormed(Healed(s, "\"" + marker, "\"" + closing).Text())
  {
    var st := Run(START, s);
    LastStep(s);
    RunConsistent(s[..|s| - 1]);
    PlainBehindCut(Run(START, s[..|s| - 1]), s[|s| - 1]);
    var st1 := Step(st, '"');
    assert !InString(st1);
    RunConsistent(s);
    StepConsistent(st, '"');
    hide Step;
    RunCons(st, '"', marker);
    StaysOutside(st1, marker);
    var st2 := Run(st1, marker);
    RunKeepsConsistent(st1, marker);
    OutsideQuote(st2);
    RunCons(st2, '"', closing);
    StaysInString(Step(st2, '"'), closing);
    RunAppend(START, s, "\"" + marker);
    RunAppend(START, s + ("\"" + marker), "\"" + closing);
  }

  lemma OutsideQuote(st: State)
    requires !InString(st) && Consistent(st)
    ensures Step(st, '"') == Fail || InString(Step(st, '"'))
  {
  }

  lemma PlainMarkerHasNoQuote(marker: string)
    requires PlainMarker(marker)
    ensures '"' !in marker
  {
  }

  lemma FallbackDrops(s: string, marker: string, stack: seq<Frame>, j: nat, q: nat)
    requires PlainMarker(marker) && Run(START, s).At? && Run(START, s).stack == stack && Anchored(s, stack, j, q) &&
             q < |s| && (!Leads(s) || EndsInBoolean(s))
    requires ScalarFrom(s, q) || (StringFrom(s, q, false, stack) && !CutsInside(s, stack))
    ensures GoodHealing(s, marker, Fallback(s, marker, stack))
  {
    hide Step, Run, WellFormed, CloseText, GoodHealing, ScalarFrom, StringFrom, CutsInside, Anchored, LastOf,
        PlainMarker, Leads, EndsInBoolean;
    AnchorPlace(s, stack, j, q);
    CutIsAnchor(s, stack, j, q);
    CutBackHeals(s, marker, stack, j, q);
    GoodParses(s, marker, Healed(s[..j], "\"" + marker, "\"" + CloseText(stack)));
  }

  lemma GoodParses(s: string, marker: string, h: Healed)
    requires GoodHealing(s, marker, Completed(h))
    ensures WellFormed(h.Text())
  {
  }

  lemma AnchorPlace(s: string, stack: seq<Frame>, j: nat, q: nat)
    requires Anchored(s, stack, j, q) && q < |s|
    ensures 1 <= j <= |s|
  {
  }

  lemma FallbackInside(s: string, marker: string, stack: seq<Frame>)
    requires PlainMarker(marker) && CutsInside(s, stack)
    ensures Fallback(s, marker, stack) == Threw && !GoodHealing(s, marker, Fallback(s, marker, stack))
  {
    hide Step, Run, WellFormed, CloseText;
    var p := LastOf(s, CutChars(stack)).value;
    PlainMarkerHasNoQuote(marker);
    NoQuotesInClosing(stack);
    InsideCutFails(s[..p + 1], marker, CloseText(stack));
  }

  /** The fallback drops a number, a literal, or a string without cut characters; otherwise it fails. */
  lemma FallbackHeals(s: string, marker: string, stack: seq<Frame>)
    requires PlainMarker(marker) && s != "" && Run(START, s).At? && Run(START, s).stack == stack && stack != []
    requires var m := Run(START, s).mode;
             InScalar(m) || (m == After && s[|s| - 1] == 'e') || (m.Str? && !m.isKey && PairMistaken(s, m))
    ensures GoodHealing(s, marker, Fallback(s, marker, stack)) <==> !(InString(Run(START, s)) && CutsInside(s, stack))
  {
    hide Step, Run, WellFormed, CloseText, GoodHealing, Fallback, CutsInside, ScalarFrom, Anchored, PlainMarker,
        Leads, PairMistaken;
    var m := Run(START, s).mode;
    LeadsIff(s);
    if !m.Str? {
      var j, q := AnchorOfScalar(s);
      FallbackDrops(s, marker, stack, j, q);
    } else if !CutsInside(s, stack) {
      var j, q := AnchorOfString(s);
      FallbackDrops(s, marker, stack, j, q);
    } else {
      FallbackInside(s, marker, stack);
    }
  }

  /** A misread text has no good healing. In a value the healed text does not parse. */
  lemma MisreadFails(s: string, marker: string)
    requires PlainMarker(marker) && Misread(s) && Run(START, s).stack != []
    ensures var r := Fallback(s, marker, Run(START, s).stack);
            !GoodHealing(s, marker, r) && (!Run(START, s).mode.isKey ==> r == Threw)
  {
    hide Step, Run, WellFormed, CloseText, PairMistaken;
    var st := Run(START, s);
    OnlyOpenEscapesMislead(s, st.mode);
    if st.mode.isKey {
      KeyFallbackFails(s, marker, st.stack);
    } else {
      FallbackInside(s, marker, st.stack);
    }
  }

  lemma ScalarHasNoQuote(s: string, k: nat, q: nat)
    requires k <= q <= |s| && BlankBetween(s, k, q) && ScalarFrom(s, q)
    ensures '"' !in s[k..]
  {
    forall i | k <= i < |s| ensures s[i] != '"' {
      assert if i < q then IsBlank(s[i]) else IsScalarChar(s[i]);
    }
  }

  lemma KeyIsNoLastScalar(s: string, k: nat)
    requires k <= |s| && InString(Run(START, s)) && Run(START, s).mode.isKey
    ensures !OnlyLastScalar(s, k)
  {
    hide Run, Step, ScalarFrom, BlankBetween;
    RunAppend(START, s[..k], s[k..]);
    assert s == s[..k] + s[k..];
    if OnlyLastScalar(s, k) {
      var q: nat :| k <= q < |s| && BlankBetween(s, k, q) &&
          (ScalarFrom(s, q) || StringFrom(s, q, false, Run(START, s).stack));
      assert s[..|s|] == s;
      if ScalarFrom(s, q) {
        ScalarHasNoQuote(s, k, q);
        StaysOutside(Run(START, s[..k]), s[k..]);
      }
    }
  }

  /** Inside a key the fallback never gives a good result. */
  lemma KeyFallbackFails(s: string, marker: string, stack: seq<Frame>)
    requires InString(Run(START, s)) && Run(START, s).mode.isKey && Run(START, s).mode.lex.Hex?
    ensures !GoodHealing(s, marker, Fallback(s, marker, stack))
  {
    hide Step, Lead, Leads, HealedAt, EndsInBoolean, WellFormed, CloseText, ScalarFrom, StringFrom;
    var p := LastOf(s, CutChars(stack));
    TailOfHex(s);
    if p.Some? && p.value + 1 < |s| {
      KeyIsNoLastScalar(s, p.value + 1);
    }
  }

  // ---------------------------------------------------------------- which branch is taken

  /** What the last visible character `c` tells about the state. */
  ghost predicate VisibleFact(s: string, st: State, c: char)
    requires st.At? && s != ""
  {
    && (st.mode == Value || st.mode == ValueOrEnd ==> Opens(st.stack, c, st.mode))
    && (st.mode.Num? ==> IsDigit(c) || c in "+-.eE")
    && (InNumber(st) ==> MaybeNumber(s, c))
    && (st.mode in {KeyOrEnd, Key, Colon, After} ==> VisibleFits(st.mode, c))
    && (InString(st) && st.mode.lex == Escaped ==> c == '\\' && s[|s| - 1] == '\\')
    && (st.mode == After && MaybeNumber(s, c) ==> s[|s| - 1] == 'e')
  }

  lemma VisibleBeforeValue(s: string)
    requires Run(START, s).At? && Run(START, s).stack != [] &&
             (Run(START, s).mode == Value || Run(START, s).mode == ValueOrEnd)
    ensures LastVisible(s).Some? && VisibleFact(s, Run(START, s), s[LastVisible(s).value])
  {
    hide Step, Run, MaybeNumber, VisibleFits;
    var j := AnchorOfValue(s);
    LastVisibleIs(s, j - 1);
  }

  lemma VisibleInNumber(s: string)
    requires Run(START, s).At? && Run(START, s).stack != [] && Run(START, s).mode.Num?
    ensures LastVisible(s).Some? && VisibleFact(s, Run(START, s), s[LastVisible(s).value])
  {
    hide Step, Run, Opens, VisibleFits;
    LastCharOfNumber(s);
    LastVisibleIs(s, |s| - 1);
  }

  lemma VisibleBehind(s: string)
    requires Run(START, s).At? && Run(START, s).stack != [] && Run(START, s).mode in {KeyOrEnd, Key, Colon, After}
    ensures LastVisible(s).Some? && VisibleFact(s, Run(START, s), s[LastVisible(s).value])
  {
    hide Step, Run, Opens;
    VisibleOfMode(s);
    if Run(START, s).mode == After { LastOfAfter(s); }
  }

  lemma VisibleBackslash(s: string)
    requires InString(Run(START, s)) && Run(START, s).stack != [] && Run(START, s).mode.lex == Escaped
    ensures LastVisible(s).Some? && VisibleFact(s, Run(START, s), s[LastVisible(s).value])
  {
    hide Step, Run, Opens, VisibleFits, MaybeNumber;
    TailOfEscaped(s);
    LastVisibleIs(s, |s| - 1);
  }

  /** The last visible character in front of a value opens it; in a number it is the last character. */
  lemma VisibleFacts(s: string)
    requires Run(START, s).At? && Run(START, s).stack != []
    ensures LastVisible(s).Some? && VisibleFact(s, Run(START, s), s[LastVisible(s).value])
  {
    hide Step, Run, Opens, VisibleFits, MaybeNumber;
    var m := Run(START, s).mode;
    if m == Value || m == ValueOrEnd {
      VisibleBeforeValue(s);
    } else if m.Num? {
      VisibleInNumber(s);
    } else if m in {KeyOrEnd, Key, Colon, After} {
      VisibleBehind(s);
    } else if m.Str? && m.lex == Escaped {
      VisibleBackslash(s);
    } else {
      VisibleSomewhere(s);
    }
  }

  lemma VisibleSomewhere(s: string)
    requires Run(START, s).At? && Run(START, s).stack != []
    ensures LastVisible(s).Some?
  {
    hide Step;
    if LastVisible(s).None? { BlankKeeps(s); }
  }

  lemma {:induction false} BlankKeeps(s: string)
    requires BlankBetween(s, 0, |s|)
    ensures Run(START, s) == START
    decreases |s|
  {
    if s != "" {
      assert forall i :: 0 <= i < |s| - 1 ==> s[..|s| - 1][i] == s[i];
      BlankKeeps(s[..|s| - 1]);
      assert IsBlank(s[|s| - 1]);
    }
  }

  lemma LastOfAfter(s: string)
    requires Run(START, s).At? && Run(START, s).mode == After
    ensures s != "" && (IsBlank(s[|s| - 1]) || s[|s| - 1] in "\"}]el")
  {
    LastStep(s);
    var prev, c := Run(START, s[..|s| - 1]), s[|s| - 1];
    RunConsistent(s[..|s| - 1]);
    VisibleStep(prev, c);
    hide Step;
  }

  /** `was_maybe_number`: the text stops directly behind a character that a number can end with. */
  predicate MaybeNumber(s: string, c: char) {
    s != "" && !IsSpace(s[|s| - 1]) && (IsDigit(c) || c in ".eE-")
  }

  lemma RunQuoteBehind(stack: seq<Frame>, m: Mode)
    ensures Run(At(stack, Value), "\"") == At(stack, Str(false, Plain, false))
    ensures Run(At(stack, ValueOrEnd), "\"") == At(stack, Str(false, Plain, false))
    ensures Run(At(stack, Key), "\"") == At(stack, Str(true, Plain, false))
    ensures Run(At(stack, KeyOrEnd), "\"") == At(stack, Str(true, Plain, false))
    ensures Run(At(stack, Colon), ":\"") == At(stack, Str(false, Plain, false))
    ensures stack != [] ==> Run(At(stack, After), ",\"") == At(stack, Str(Top(stack) == InObject, Plain, false))
    ensures Run(At(stack, m), "") == At(stack, m)
    ensures Run(At(stack, Str(true, Escaped, false)), "\\") == At(stack, Str(true, Plain, false))
    ensures Run(At(stack, Str(false, Escaped, false)), "\\") == At(stack, Str(false, Plain, false))
  {
    RunOne(At(stack, Value), '"');
    RunOne(At(stack, ValueOrEnd), '"');
    RunOne(At(stack, Key), '"');
    RunOne(At(stack, KeyOrEnd), '"');
    Run2(At(stack, Colon), ':', '"');
    Run2(At(stack, After), ',', '"');
    RunOne(At(stack, Str(true, Escaped, false)), '\\');
    RunOne(At(stack, Str(false, Escaped, false)), '\\');
  }

  /** Whether a probe parses. Where this decides, its numbers are numbers of the input in front of the
      error, which were read, or 1. */
  predicate CanParse(s: string) { WellFormed(s) }

  predicate IsPadChar(c: char) { c in "0udc\\" }

  lemma ZerosArePads(n: nat)
    ensures forall i :: 0 <= i < n ==> IsPadChar(Zeros(n)[i])
  {
  }

  lemma PaddingIsPads(s: string)
    ensures forall i :: 0 <= i < |Padding(s)| ==> IsPadChar(Padding(s)[i])
  {
    if LastEscape(s).Some? { ZerosArePads(6 - (|s| - LastEscape(s).value)); }
  }

  /** Outside of strings, padding characters open nothing. */
  predicate Outside(stack: seq<Frame>, st: State) {
    st.At? ==> st.stack == stack && Fits(stack, st.mode) && (st.mode == After || InScalar(st.mode))
  }

  lemma PadStep(stack: seq<Frame>, st: State, c: char)
    requires Outside(stack, st) && IsPadChar(c)
    ensures Outside(stack, Step(st, c))
  {
    hide DigitsFit, StepString, BeginValue;
    assert c !in {',', '}', ']', ' '} && !IsBlank(c);
  }

  lemma {:induction false} PadsOutside(stack: seq<Frame>, st: State, pad: string)
    requires Outside(stack, st) && forall i :: 0 <= i < |pad| ==> IsPadChar(pad[i])
    ensures Outside(stack, Run(st, pad))
    decreases |pad|
  {
    if pad != "" {
      hide Step;
      PadsOutside(stack, st, pad[..|pad| - 1]);
      PadStep(stack, Run(st, pad[..|pad| - 1]), pad[|pad| - 1]);
    }
  }

  lemma FailedStaysFailed(t: string, x: string, y: string)
    requires Run(START, t) == Fail
    ensures !WellFormed(t + x + y)
  {
    RunAppend(START, t, x);
    RunFail(x);
    RunAppend(START, t + x, y);
    RunFail(y);
  }

  /** The text with its padding: plain string text, or no string at all. */
  lemma AcrossPadding(s: string, stack: seq<Frame>, m: Mode)
    requires Run(START, s) == At(stack, m) && Fits(stack, m)
    requires m == After || InScalar(m) || (m.Str? && (m.lex.Hex? || m.needLow))
    ensures var st := Run(START, s + Padding(s));
            && SameStack(stack, st)
            && (if m.Str? then st == if PairMistaken(s, m) then Fail else At(stack, Str(m.isKey, Plain, false))
               else !InString(st))
  {
    hide Run, Step, PairMistaken, Padding;
    RunAppend(START, s, Padding(s));
    if m.Str? {
      PaddingLeads(s);
    } else {
      PaddingIsPads(s);
      PadsOutside(stack, At(stack, m), Padding(s));
    }
  }

  /** The padding probe succeeds inside a value string whose pair was not mistaken. */
  lemma ProbePadding(s: string, stack: seq<Frame>, m: Mode)
    requires Run(START, s) == At(stack, m) && Fits(stack, m)
    requires m == After || InScalar(m) || (m.Str? && (m.lex.Hex? || m.needLow))
    ensures WellFormed(s + Padding(s) + "\"" + CloseText(stack)) <==> m.Str? && !m.isKey && !PairMistaken(s, m)
    ensures WellFormed(s + Padding(s) + "\": 1" + CloseText(stack)) <==> m.Str? && m.isKey && !PairMistaken(s, m)
  {
    hide Run, Step, WellFormed, PairMistaken, Padding;
    AcrossPadding(s, stack, m);
    var t := s + Padding(s);
    var st := Run(START, t);
    if st.At? {
      ProbeQuote(t, stack, st.mode);
      ProbeKeyQuote(t, stack, st.mode);
    } else {
      FailedStaysFailed(t, "\"", CloseText(stack));
      FailedStaysFailed(t, "\": 1", CloseText(stack));
    }
  }

  lemma GoodPadding(s: string, marker: string, stack: seq<Frame>, m: Mode)
    requires Run(START, s) == At(stack, m) && Fits(stack, m) && PlainMarker(marker)
    requires m.Str? && (m.lex.Hex? || m.needLow) && !PairMistaken(s, m)
    ensures var h := Healed(s, Padding(s) + marker, (if m.isKey then "\": 1" else "\"") + CloseText(stack));
            GoodHealing(s, marker, Finish(h)) && Finish(h) == Completed(h)
  {
    hide Run, Step, PairMistaken, Padding;
    PaddingLeads(s);
    LeadOf(s, stack, m);
    if m.isKey { GoodKey(s, Padding(s), marker, stack); } else { GoodValue(s, Padding(s), marker, stack); }
  }

  // ---------------------------------------------------------------- the branches

  /** The last `else` of a branch; an exception if there is no cut character. */
  method CutBack(str: string, ghost stack: seq<Frame>, chars: set<char>, closing: string, marker: string)
    returns (r: Outcome)
    requires chars == CutChars(stack) && closing == CloseText(stack)
    ensures r == Fallback(str, marker, stack)
  {
    hide CloseText, LastOf, Finish;
    var lastPos := LastOf(str, chars);
    if lastPos.None? { return Threw; }
    return Finish(Healed(str[..lastPos.value + 1], "\"" + marker, "\"" + closing));
  }

  lemma OnlyOpenEscapesMislead(s: string, m: Mode)
    ensures PairMistaken(s, m) ==> m.Str? && m.lex.Hex? && !m.needLow
  {
  }

  /** Inside an object, a key read and its value not complete. */
  method HealPendingValue(str: string, ghost stack: seq<Frame>, closing: string, marker: string, lastVisible: char)
    returns (r: Outcome)
    requires Run(START, str).At? && Run(START, str).stack == stack && stack != [] && Top(stack) == InObject
    requires ValuePending(Flushed(Run(START, str).mode)) || Run(START, str).mode.Num?
    requires LastVisible(str).Some? && str[LastVisible(str).value] == lastVisible
    requires closing == CloseText(stack) && PlainMarker(marker) && str != ""
    ensures GoodHealing(str, marker, r) <==> !Misread(str)
    ensures Misread(str) ==> r == Fallback(str, marker, stack)
    ensures KeepsString(str, r)
    ensures r.Completed? ==> WellFormed(r.h.Text())
    ensures !r.Whole? && !r.Part? && !r.Refused?
  {
    hide Run, Step, WellFormed, Finish, GoodHealing, LastVisible, Fallback, CutsInside, PairMistaken, Padding, Lead,
        CloseText;
    ghost var m := Run(START, str).mode;
    RunConsistent(str);
    VisibleFacts(str);
    OnlyOpenEscapesMislead(str, m);
    RunQuoteBehind(stack, m);
    LeadOf(str, stack, m);
    ProbeOne(str, stack, m);
    ProbeColon(str, stack, m);
    ProbeQuote(str, stack, m);
    ProbeBackslash(str, stack, m);
    if lastVisible == ':' && CanParse(str + "1" + closing) {
      GoodValue(str, "\"", marker, stack);
      r := Finish(Healed(str, "\"" + marker, "\"" + closing));
    } else if CanParse(str + ": 1" + closing) {
      GoodValue(str, ":\"", marker, stack);
      r := Finish(Healed(str, ":\"" + marker, "\"" + closing));
    } else if lastVisible == '{' && CanParse(str + closing) {
      ProbeNothing(str, stack, m);
      r := Finish(Healed(str, "\"" + marker, "\": 1" + closing));
    } else if CanParse(str + "\"" + closing) {
      GoodValue(str, "", marker, stack);
      assert "" + marker == marker;
      r := Finish(Healed(str, marker, "\"" + closing));
    } else if str[|str| - 1] == '\\' && CanParse(str + "\\\"" + closing) {
      GoodValue(str, "\\", marker, stack);
      r := Finish(Healed(str, "\\" + marker, "\"" + closing));
    } else {
      ProbePadding(str, stack, m);
      if CanParse(str + Padding(str) + "\"" + closing) {
        GoodPadding(str, marker, stack, m);
        r := Finish(Healed(str, Padding(str) + marker, "\"" + closing));
      } else {
        FallbackHeals(str, marker, stack);
        r := CutBack(str, stack, {':'}, closing, marker);
      }
    }
  }

  /** Directly inside an array. */
  method HealInArray(str: string, ghost stack: seq<Frame>, closing: string, marker: string, lastVisible: char)
    returns (r: Outcome)
    requires Run(START, str).At? && Run(START, str).stack == stack && stack != [] && Top(stack) == InArray
    requires LastVisible(str).Some? && str[LastVisible(str).value] == lastVisible
    requires closing == CloseText(stack) && PlainMarker(marker) && str != ""
    ensures GoodHealing(str, marker, r) <==> !Misread(str)
    ensures Misread(str) ==> r == Fallback(str, marker, stack)
    ensures KeepsString(str, r)
    ensures r.Completed? ==> WellFormed(r.h.Text())
    ensures !r.Whole? && !r.Part? && !r.Refused?
  {
    hide Run, Step, WellFormed, Finish, GoodHealing, LastVisible, Fallback, CutsInside, PairMistaken, Padding, Lead,
        CloseText;
    ghost var m := Run(START, str).mode;
    RunConsistent(str);
    VisibleFacts(str);
    OnlyOpenEscapesMislead(str, m);
    RunQuoteBehind(stack, m);
    LeadOf(str, stack, m);
    ProbeOne(str, stack, m);
    ProbeQuote(str, stack, m);
    ProbeBackslash(str, stack, m);
    if (lastVisible == ',' || lastVisible == '[') && CanParse(str + "1" + closing) {
      GoodValue(str, "\"", marker, stack);
      r := Finish(Healed(str, "\"" + marker, "\"" + closing));
    } else if CanParse(str + "\"" + closing) {
      GoodValue(str, "", marker, stack);
      assert "" + marker == marker;
      r := Finish(Healed(str, marker, "\"" + closing));
    } else if str[|str| - 1] == '\\' && CanParse(str + "\\\"" + closing) {
      GoodValue(str, "\\", marker, stack);
      r := Finish(Healed(str, "\\" + marker, "\"" + closing));
    } else {
      ProbePadding(str, stack, m);
      if CanParse(str + Padding(str) + "\"" + closing) {
        GoodPadding(str, marker, stack, m);
        r := Finish(Healed(str, Padding(str) + marker, "\"" + closing));
      } else {
        ProbeElement(str, stack, m);
        if !MaybeNumber(str, lastVisible) && CanParse(str + ", 1" + closing) {
          GoodValue(str, ",\"", marker, stack);
          r := Finish(Healed(str, ",\"" + marker, "\"" + closing));
        } else {
          FallbackHeals(str, marker, stack);
          r := CutBack(str, stack, {'[', ','}, closing, marker);
        }
      }
    }
  }

  /** Directly inside an object: at or in a key, or behind a complete member. */
  method HealInObject(str: string, ghost stack: seq<Frame>, closing: string, marker: string, lastVisible: char)
    returns (r: Outcome)
    requires Run(START, str).At? && Run(START, str).stack == stack && stack != [] && Top(stack) == InObject
    requires !ValuePending(Flushed(Run(START, str).mode))
    requires LastVisible(str).Some? && str[LastVisible(str).value] == lastVisible
    requires closing == CloseText(stack) && PlainMarker(marker) && str != ""
    ensures GoodHealing(str, marker, r) <==> !Misread(str)
    ensures Misread(str) ==> r == Fallback(str, marker, stack)
    ensures KeepsString(str, r)
    ensures r.Completed? ==> WellFormed(r.h.Text())
    ensures !r.Whole? && !r.Part? && !r.Refused?
  {
    hide Run, Step, WellFormed, Finish, GoodHealing, LastVisible, Fallback, CutsInside, PairMistaken, Padding, Lead,
        CloseText;
    ghost var m := Run(START, str).mode;
    RunConsistent(str);
    VisibleFacts(str);
    OnlyOpenEscapesMislead(str, m);
    RunQuoteBehind(stack, m);
    LeadOf(str, stack, m);
    ProbeNothing(str, stack, m);
    ProbeMember(str, stack, m);
    ProbeNextMember(str, stack, m);
    ProbeKeyQuote(str, stack, m);
    ProbeKeyBackslash(str, stack, m);
    if (lastVisible == '{' && CanParse(str + closing)) || (lastVisible == ',' && CanParse(str + "\"\": 1" + closing)) {
      GoodKey(str, "\"", marker, stack);
      r := Finish(Healed(str, "\"" + marker, "\": 1" + closing));
    } else if !MaybeNumber(str, lastVisible) && CanParse(str + ",\"\": 1" + closing) {
      GoodKey(str, ",\"", marker, stack);
      r := Finish(Healed(str, ",\"" + marker, "\": 1" + closing));
    } else if CanParse(str + "\": 1" + closing) {
      GoodKey(str, "", marker, stack);
      assert "" + marker == marker;
      r := Finish(Healed(str, marker, "\": 1" + closing));
    } else if str[|str| - 1] == '\\' && CanParse(str + "\\\": 1" + closing) {
      GoodKey(str, "\\", marker, stack);
      r := Finish(Healed(str, "\\" + marker, "\": 1" + closing));
    } else {
      ProbePadding(str, stack, m);
      if CanParse(str + Padding(str) + "\": 1" + closing) {
        GoodPadding(str, marker, stack, m);
        r := Finish(Healed(str, Padding(str) + marker, "\": 1" + closing));
      } else {
        if m.Str? { KeyFallbackFails(str, marker, stack); } else { FallbackHeals(str, marker, stack); }
        r := CutBack(str, stack, {':'}, closing, marker);
      }
    }
  }

  /** An unclosed string outside of any container; other top-level scalars are refused. */
  method HealTopLevel(str: string, marker: string) returns (r: Outcome)
    requires Run(START, str).At? && Run(START, str).stack == []
    requires PlainMarker(marker) && str != ""
    ensures var m := Run(START, str).mode;
            if m == Str(false, Plain, false) || m == Str(false, Escaped, false) then GoodHealing(str, marker, r)
                else r == Refused
    ensures KeepsString(str, r)
    ensures r.Completed? ==> WellFormed(r.h.Text())
    ensures !r.Whole? && !r.Part?
  {
    hide Run, Step, WellFormed, Finish, GoodHealing, Lead, Padding;
    ghost var m := Run(START, str).mode;
    RunConsistent(str);
    RunQuoteBehind([], m);
    LeadOf(str, [], m);
    ProbeQuote(str, [], m);
    ProbeBackslash(str, [], m);
    if m.Str? && m.lex == Escaped { TailOfEscaped(str); }
    assert str + "\"" + "" == str + "\"" && str + "\\\"" + "" == str + "\\\"" && "\"" + "" == "\"";
    if CanParse(str + "\"") {
      GoodValue(str, "", marker, []);
      assert "" + marker == marker;
      r := Finish(Healed(str, marker, "\""));
    } else if str[|str| - 1] == '\\' && CanParse(str + "\\\"") {
      GoodValue(str, "\\", marker, []);
      r := Finish(Healed(str, "\\" + marker, "\""));
    } else {
      r := Refused;
    }
  }

  lemma NotEmptyInside(s: string)
    requires Run(START, s).At? && (Run(START, s).stack != [] || Run(START, s).mode != Value)
    ensures s != ""
  {
  }

  /** Which element is on top tells where the text stopped. */
  lemma TopOfElements(stack: seq<Frame>, mode: Mode)
    requires stack != []
    ensures var els := Elements(stack, mode);
            && els != []
            && els[|els| - 1] == if Top(stack) == InArray then ARRAY else if ValuePending(mode) then KEY else OBJECT
  {
  }

  lemma EndsAreNoText(s: string)
    ensures s == "" || WellFormed(s) ==> !InString(Run(START, s))
  {
    hide Step;
  }

  // ---------------------------------------------------------------- numbers that are not read

  /** A number of one character is finite. */
  ghost predicate ShortFinite(finite: Finite) { forall t :: |t| == 1 ==> finite(t) }

  /** The text in front of the error: the refused number without its last character. */
  lemma RefusedState(finite: Finite, s: string, e: nat)
    requires ShortFinite(finite) && Alive(s) && RefusedAt(finite, s, e)
    ensures 2 <= e <= |s| && Run(START, s[..e - 1]).At? && Run(START, s[..e - 1]).mode.Num?
    ensures Run(START, s[..e]).At? && Run(START, s[..e]).mode.Num? &&
            Run(START, s[..e]).stack == Run(START, s[..e - 1]).stack
    ensures TokenStart(s[..e - 1]) == TokenStart(s[..e])
  {
    hide Run, Step, TokenStart;
    AlivePrefix(s, e - 1);
    PrefixStep(finite, s, e - 1);
    var t := s[TokenStart(s[..e])..e];
    assert |t| != 1;
    NumberKeepsStack(Run(START, s[..e - 1]), s[e - 1]);
  }

  lemma NumberKeepsStack(st: State, c: char)
    ensures st.At? && st.mode.Num? && Step(st, c).At? && Step(st, c).mode.Num? ==> Step(st, c).stack == st.stack
  {
  }

  /** What is kept of a text that ends in a number stops in front of the number. */
  lemma NumberDropped(s: string, marker: string, r: Outcome)
    requires InNumberAt(s) && GoodHealing(s, marker, r)
    ensures |r.h.kept| <= TokenStart(s)
  {
    hide Step, Run, Leads, TokenStart;
    var k := |r.h.kept|;
    assert s[..k] == r.h.kept;
    NumberLeadsNowhere(s);
    if k < |s| { StartsBehind(s, k); }
  }

  lemma NumberLeadsNowhere(s: string)
    requires InNumberAt(s)
    ensures !Leads(s)
  {
    hide Step;
    assert Lead(s) == "" && Run(Run(START, s), "") == Run(START, s);
  }

  lemma {:induction false} StartsBehind(s: string, k: nat)
    requires k < |s| && !InNumberAt(s[..k])
    ensures TokenStart(s) >= k
    decreases |s|
  {
    hide Run;
    var init := s[..|s| - 1];
    if k < |s| - 1 {
      assert init[..k] == s[..k];
      if InNumberAt(init) { StartsBehind(init, k); }
    } else {
      assert init == s[..k];
    }
  }

  /** What the function does with a text that can still be completed. */
  ghost predicate ParsedAsPromised(input: string, marker: string, r: Outcome)
    requires Alive(input)
  {
    var st := Run(START, input);
    if WellFormed(input) then r == Whole
    else if marker == "" || input == "" then r == Refused
    else if st.stack != [] then if Misread(input) then r == Fallback(input, marker, st.stack)
        else GoodHealing(input, marker, r)
    else if st.mode == Str(false, Plain, false) || st.mode == Str(false, Escaped, false)
        then GoodHealing(input, marker, r)
    else r == Refused
  }

  /** What it does when the number that ends at `e` is not read: the number is dropped, and everything
      behind it. */
  ghost predicate ParsedInFront(finite: Finite, input: string, marker: string, e: nat, r: Outcome)
    requires 0 < e <= |input|
  {
    var str := input[..e - 1];
    if WellFormed(str) && AllRead(finite, str) then r == Part(e - 1)
    else if marker == "" || (Run(START, str).At? && Run(START, str).stack == []) then r == Refused
    else GoodHealing(str, marker, r) && |r.h.kept| <= TokenStart(input[..e])
  }

  /** Healing of a text in front of an error, by the innermost open element. */
  method HealInside(str: string, ghost st: State, ghost mode: Mode, stack: seq<Element>, marker: string)
    returns (r: Outcome)
    requires st == Run(START, str) && st.At? && st.stack != [] && PlainMarker(marker)
    requires mode == Flushed(st.mode) || (mode == st.mode && mode.Num?)
    requires stack == Elements(st.stack, mode) && KeysOnObjects(stack)
    ensures GoodHealing(str, marker, r) <==> !Misread(str)
    ensures Misread(str) ==> r == Fallback(str, marker, st.stack)
    ensures KeepsString(str, r)
    ensures r.Completed? ==> WellFormed(r.h.Text())
  {
    hide Run, Step, WellFormed, GoodHealing, LastVisible, Misread, Outer, Elements, KeysOnObjects, CloseText,
        PairMistaken;
    RunConsistent(str);
    NotEmptyInside(str);
    TopOfElements(st.stack, mode);
    ClosingOfElements(st.stack, mode);
    VisibleSomewhere(str);
    var lastVisible := str[LastVisible(str).value];
    var closing := Closing(stack);
    match stack[|stack| - 1] {
      case KEY => r := HealPendingValue(str, st.stack, closing, marker, lastVisible);
      case ARRAY => r := HealInArray(str, st.stack, closing, marker, lastVisible);
      case OBJECT => r := HealInObject(str, st.stack, closing, marker, lastVisible);
    }
  }

  /**
    `common_json_parse` on a text that can still be completed. If all its numbers are finite, a
    complete text is left alone, and with a marker, a text that stops inside a container is healed
    well exactly when it is not one of the misread ones. A number that is not finite is dropped with
    everything behind it. Whatever is returned as healed parses.
    */
  method CommonJsonParse(input: string, marker: string, finite: Finite) returns (r: Outcome)
    requires Alive(input) && (marker == "" || PlainMarker(marker)) && ShortFinite(finite)
    ensures AllRead(finite, input) ==> ParsedAsPromised(input, marker, r) && (marker != "" ==> KeepsString(input, r))
    ensures !AllRead(finite, input) ==>
              exists e :: FirstRefused(finite, input, e) && ParsedInFront(finite, input, marker, e, r)
    ensures r.Completed? ==> WellFormed(r.h.Text())
  {
    hide Run, Step, WellFormed, GoodHealing, LastVisible, Misread, Outer, Elements, KeysOnObjects, AllRead, RefusedAt,
        PairMistaken;
    var errLoc := new ErrorLocator();
    errLoc.SaxParse(input, finite);
    EndsAreNoText(input);
    if !errLoc.foundError {
      return Whole;
    }
    if !AllRead(finite, input) { RefusedState(finite, input, errLoc.position + 1); }
    var str := input[..errLoc.position];
    ghost var st := Run(START, str);
    assert AllRead(finite, input) ==> str == input;
    ghost var mode := if AllRead(finite, input) then Flushed(st.mode) else st.mode;
    if !AllRead(finite, input) { NumbersPend(st.stack, Run(START, input[..errLoc.position + 1]).mode, st.mode); }
    NoElements(st.stack, mode);
    // `json::parse` of the text in front of the error.
    if WellFormed(str) && AllRead(finite, str) { return Part(errLoc.position); }
    if marker != "" && errLoc.stack != [] {
      NotEmptyInside(str);
      r := HealInside(str, st, mode, errLoc.stack, marker);
      if !AllRead(finite, input) {
        NumberIsRead(str);
        NumberDropped(str, marker, r);
      }
      return;
    }
    if errLoc.position != 0 && marker != "" && errLoc.stack == [] {
      r := HealTopLevel(str, marker);
      return;
    }
    return Refused;
  }

  lemma NumbersPend(stack: seq<Frame>, a: Mode, b: Mode)
    requires a.Num? && b.Num?
    ensures Elements(stack, a) == Elements(stack, b)
  {
  }

  lemma NoElements(stack: seq<Frame>, mode: Mode)
    ensures stack == [] <==> Elements(stack, mode) == []
  {
  }

  lemma NumberIsRead(s: string)
    requires InNumberAt(s)
    ensures !Misread(s)
  {
  }
}
