/**
  What has been built of a text that stops inside its containers, as the front part of the dump that
  a completion of the text will have.
  */
module JsonOpen {
  import opened Base
  import opened JsonText
  import opened JsonSax
  import opened JsonDump
  import opened JsonBuilder
  import opened JsonDumping
  import G = JsonGrammar

  // ---------------------------------------------------------------- printers

  /** What is known of the library's numbers: digits, signs, point and exponent. */
  ghost predicate Prints(f: Printer) {
    f("1") == "1" && forall t :: f(t) != "" && NumberChars(f(t))
  }

  /** A printed value shows by its first character whether it is a number. */
  predicate ValueText(t: string) { t != "" && (IsNumberChar(t[0]) ==> NumberChars(t)) }

  // ---------------------------------------------------------------- what building keeps

  predicate Shaped(stack: seq<Frame>, levels: seq<Level>) {
    && |stack| == |levels|
    && forall i :: 0 <= i < |stack| ==> (stack[i] == InObject <==> levels[i].ObjectLevel?)
  }

  predicate ValueTexts(levels: seq<Level>) {
    forall i, k :: 0 <= i < |levels| && levels[i].ObjectLevel? && 0 <= k < |levels[i].entries| ==>
      ValueText(levels[i].entries[k].text)
  }

  function Innermost(levels: seq<Level>): Level
    requires levels != []
  {
    levels[|levels| - 1]
  }

  function Enclosing(levels: seq<Level>): seq<Level>
    requires levels != []
  {
    levels[..|levels| - 1]
  }

  predicate Filled(l: Level) { if l.ArrayLevel? then l.items != [] else l.entries != [] }

  /** What the mode says of the innermost container. */
  predicate InnermostFits(m: Mode, levels: seq<Level>) {
    match m
    case ValueOrEnd => levels != [] && Innermost(levels) == ArrayLevel([])
    case KeyOrEnd => levels != [] && Innermost(levels) == ObjectLevel([], [])
    case Key => levels != [] && Innermost(levels).ObjectLevel? && Filled(Innermost(levels))
    case Colon => levels != [] && Innermost(levels).ObjectLevel?
    case After => levels != [] ==> Filled(Innermost(levels))
    case Value => levels != [] && Innermost(levels).ArrayLevel? ==> Filled(Innermost(levels))
    case _ => true
  }

  /** What the mode says of the scalar that is being read. */
  predicate ScalarFits(m: Mode, b: Parts) {
    match m
    case Str(isKey, _, needLow) =>
      && b == Inside(b.levels, b.codes, b.high)
      && (if needLow then G.IsHigh(b.high) else b.high == "")
      && (isKey ==> b.levels != [] && Innermost(b.levels).ObjectLevel?)
    case Num(_) => b == Parts(b.levels, [], "", b.token, None)
    case Lit(_) => b == Parts(b.levels, [], "", b.token, None) && b.token != "" && !IsNumberChar(b.token[0])
    case _ => b == Ready(b.levels, if b.levels == [] then b.root else None)
  }

  predicate Fitting(st: State, b: Parts) {
    st.At? && Shaped(st.stack, b.levels) && ValueTexts(b.levels) && InnermostFits(st.mode, b.levels) &&
        ScalarFits(st.mode, b)
  }

  /** Behind a value. */
  predicate Behind(stack: seq<Frame>, b: Parts) { Fitting(At(stack, After), b) }

  lemma PutTexts(es: seq<Entry>, key: seq<Code>, text: string)
    requires ValueText(text) && forall k :: 0 <= k < |es| ==> ValueText(es[k].text)
    ensures Put(es, key, text) != []
    ensures forall k :: 0 <= k < |Put(es, key, text)| ==> ValueText(Put(es, key, text)[k].text)
  {
    hide ValueText, Place;
  }

  lemma InnermostTexts(levels: seq<Level>)
    requires ValueTexts(levels) && levels != [] && Innermost(levels).ObjectLevel?
    ensures forall k :: 0 <= k < |Innermost(levels).entries| ==> ValueText(Innermost(levels).entries[k].text)
  {
    var last := |levels| - 1;
    forall k | 0 <= k < |Innermost(levels).entries| ensures ValueText(Innermost(levels).entries[k].text) {
      assert levels[last].ObjectLevel? && ValueText(levels[last].entries[k].text);
    }
  }

  lemma FinishFits(stack: seq<Frame>, levels: seq<Level>, text: string)
    requires Shaped(stack, levels) && ValueTexts(levels) && ValueText(text)
    ensures Behind(stack, HandleValue(levels, text))
  {
    hide ValueText, Put;
    if levels != [] {
      var l := Innermost(levels);
      if l.ObjectLevel? {
        InnermostTexts(levels);
        PutTexts(l.entries, l.key, text);
      }
    }
  }

  lemma LevelIsValueText(l: Level)
    ensures ValueText(LevelText(l))
  {
    hide Join;
  }

  lemma QuotedIsValueText(cs: seq<Code>)
    ensures ValueText(Quoted(cs))
  {
    hide DumpCodes;
  }

  lemma CloseFits(stack: seq<Frame>, levels: seq<Level>)
    requires Shaped(stack, levels) && ValueTexts(levels) && levels != []
    ensures Behind(Pop(stack), Close(levels))
  {
    hide ValueText, LevelText, HandleValue;
    LevelIsValueText(Innermost(levels));
    FinishFits(Pop(stack), Enclosing(levels), LevelText(Innermost(levels)));
  }

  lemma OpenFits(st: State, b: Parts, c: char)
    requires Fitting(st, b) && (st.mode == Value || st.mode == ValueOrEnd) && Step(st, c).At? && !IsBlank(c)
    requires c != ']'
    ensures Fitting(Step(st, c), Begin(b.levels, c))
  {
    hide ValueText, ValueTexts, Shaped, BeginValue;
    assert Step(st, c) == BeginValue(st.stack, c);
    if c == '{' || c == '[' {
      PushFits(st.stack, b.levels, c);
    } else {
      ScalarBegins(st.stack, b, c);
    }
  }

  lemma PushFits(stack: seq<Frame>, levels: seq<Level>, c: char)
    requires Shaped(stack, levels) && ValueTexts(levels) && (c == '{' || c == '[')
    ensures Fitting(BeginValue(stack, c), Begin(levels, c))
  {
    hide ValueText;
  }

  lemma ScalarBegins(stack: seq<Frame>, b: Parts, c: char)
    requires Shaped(stack, b.levels) && ValueTexts(b.levels) && BeginValue(stack, c).At? && c != '{' && c != '['
    ensures Fitting(BeginValue(stack, c), Begin(b.levels, c))
  {
    hide ValueText, ValueTexts, Shaped;
  }

  lemma NumFits(f: Printer, st: State, b: Parts, c: char)
    requires Prints(f) && Fitting(st, b) && st.mode.Num? && Step(st, c).At?
    ensures Fitting(Step(st, c), Add(f, st, b, c))
  {
    hide ValueText, HandleValue, Shaped, ValueTexts, Close, Behind, IsNumberChar;
    if Step(st, c).mode.Num? {
    } else {
      NumberText(f, b.token);
      FinishFits(st.stack, b.levels, f(b.token));
      AfterFits(f, st.stack, HandleValue(b.levels, f(b.token)), c);
    }
  }

  lemma NumberText(f: Printer, t: string)
    requires Prints(f)
    ensures ValueText(f(t))
  {
  }

  lemma AfterFits(f: Printer, stack: seq<Frame>, b: Parts, c: char)
    requires Behind(stack, b) && StepAfter(stack, c).At?
    ensures Fitting(StepAfter(stack, c), BehindValue(b, c))
  {
    hide ValueText, Close, ValueTexts;
    if (c == '}' || c == ']') && stack != [] { CloseFits(stack, b.levels); }
  }

  lemma StringFits(f: Printer, st: State, b: Parts, c: char)
    requires Fitting(st, b) && st.mode.Str? && !st.mode.lex.Hex? && Step(st, c).At?
    ensures Fitting(Step(st, c), Add(f, st, b, c))
  {
    hide ValueText, HandleValue, ValueTexts, Quoted;
    if st.mode.lex == Plain && c == '"' {
      if st.mode.isKey {
        KeyReadFits(st.stack, b.levels, b.codes);
      } else {
        QuotedIsValueText(b.codes);
        FinishFits(st.stack, b.levels, Quoted(b.codes));
      }
    }
  }

  lemma KeyReadFits(stack: seq<Frame>, levels: seq<Level>, key: seq<Code>)
    requires Shaped(stack, levels) && ValueTexts(levels) && levels != [] && Innermost(levels).ObjectLevel?
    ensures Fitting(At(stack, Colon), KeyRead(levels, key))
  {
    hide ValueText;
  }

  lemma HexFits(f: Printer, st: State, b: Parts, c: char)
    requires Fitting(st, b) && Consistent(st) && st.mode.Str? && st.mode.lex.Hex? && Step(st, c).At?
    ensures Fitting(Step(st, c), Add(f, st, b, c))
  {
    hide ValueText, ValueTexts, Shaped, PairNumber, HexNumber;
    var d := st.mode.lex.digits;
    if |d| == 3 {
      assert G.AllHex(d + [c]);
      assert st.mode.needLow ==> G.IsLow(d + [c]);
    }
  }

  lemma LitFits(f: Printer, st: State, b: Parts, c: char)
    requires Fitting(st, b) && st.mode.Lit? && Step(st, c).At?
    ensures Fitting(Step(st, c), Add(f, st, b, c))
  {
    hide ValueTexts, Shaped, HandleValue, NumberChars, IsNumberChar;
    assert (b.token + [c])[0] == b.token[0];
    if |st.mode.rest| == 1 { FinishFits(st.stack, b.levels, b.token + [c]); }
  }

  lemma AddFits(f: Printer, st: State, b: Parts, c: char)
    requires Prints(f) && Fitting(st, b) && Consistent(st) && Step(st, c).At?
    ensures Fitting(Step(st, c), Add(f, st, b, c))
  {
    match st.mode
    case Num(_) => NumFits(f, st, b, c);
    case Str(_, lex, _) => if lex.Hex? { HexFits(f, st, b, c); } else { StringFits(f, st, b, c); }
    case Lit(_) => LitFits(f, st, b, c);
    case After => AfterFits(f, st.stack, b, c);
    case _ => OtherFits(f, st, b, c);
  }

  lemma OtherFits(f: Printer, st: State, b: Parts, c: char)
    requires Fitting(st, b) && Step(st, c).At? && st.mode in {Value, ValueOrEnd, KeyOrEnd, Key, Colon}
    ensures Fitting(Step(st, c), Add(f, st, b, c))
  {
    hide ValueText, Close, ValueTexts, Begin;
    if !IsBlank(c) {
      if (st.mode == ValueOrEnd && c == ']') || (st.mode == KeyOrEnd && c == '}') {
        CloseFits(st.stack, b.levels);
      } else if st.mode == Value || st.mode == ValueOrEnd {
        OpenFits(st, b, c);
      }
    }
  }

  /** What has been built fits the state, in every text that can be completed. */
  lemma {:induction false} BuiltFits(f: Printer, s: string)
    requires Prints(f) && Alive(s)
    ensures Fitting(Run(START, s), Built(f, s))
    decreases |s|
  {
    hide Step, Add, Fitting;
    if s == "" {
      NothingFits();
    } else {
      var init := s[..|s| - 1];
      AlivePrefix(s, |s| - 1);
      BuiltFits(f, init);
      RunConsistent(init);
      AddFits(f, Run(START, init), Built(f, init), s[|s| - 1]);
    }
  }

  lemma NothingFits()
    ensures Fitting(START, NOTHING)
  {
  }
}
