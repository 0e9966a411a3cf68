/**
  The grammar of JSON texts (RFC 8259, sections 2 to 7) as syntax trees, and its agreement with the
  reading automaton: a text is read to its end exactly if it is the text of a tree.
  */
module JsonGrammar {
  import opened Base
  import opened JsonText

  // ---------------------------------------------------------------- trees

  /** Piece of a string: a character, a two-character escape, or one or two `\u` escapes. */
  datatype Unit = Char(c: char) | Short(c: char) | Code(hex: string) | Pair(high: string, low: string)

  datatype Exponent = Exponent(mark: char, sign: string, digits: string)

  datatype Value =
    | Literal(name: string)
    | Number(minus: bool, digits: string, fraction: Option<string>, exponent: Option<Exponent>)
    | Text(units: seq<Unit>)
    | Array(blank: string, elems: Elems)
    | Object(blank: string, members: Members)

  /** Elements with the blanks around them. */
  datatype Elems = NoElems | Elem(before: string, value: Value, after: string, rest: Elems)

  datatype Members =
    | NoMembers
    | Member(before: string, key: seq<Unit>, colon: string, space: string, value: Value, after: string, others: Members)

  predicate Blank(s: string) { forall i :: 0 <= i < |s| ==> IsBlank(s[i]) }

  predicate AllDigits(s: string) { forall i :: 0 <= i < |s| ==> IsDigit(s[i]) }

  predicate AllHex(s: string) { |s| == 4 && forall i :: 0 <= i < 4 ==> IsHex(s[i]) }

  predicate IsHigh(h: string) { AllHex(h) && IsD(h[0]) && IsHighDigit(h[1]) }

  predicate IsLow(h: string) { AllHex(h) && IsD(h[0]) && IsLowDigit(h[1]) }

  predicate ValidUnit(u: Unit) {
    match u
    case Char(c) => c >= ' ' && c != '"' && c != '\\'
    case Short(c) => c in "\"\\/bfnrt"
    case Code(hex) => AllHex(hex) && !IsHigh(hex) && !IsLow(hex)
    case Pair(high, low) => IsHigh(high) && IsLow(low)
  }

  predicate ValidUnits(us: seq<Unit>) { forall i :: 0 <= i < |us| ==> ValidUnit(us[i]) }

  predicate ValidExponent(e: Exponent) {
    (e.mark == 'e' || e.mark == 'E') && (e.sign == "" || e.sign == "+" || e.sign == "-") && e.digits != "" &&
        AllDigits(e.digits)
  }

  /** No leading zeros. */
  predicate ValidInt(s: string) { s != "" && AllDigits(s) && (s[0] == '0' ==> |s| == 1) }

  predicate ValidValue(v: Value) {
    match v
    case Literal(name) => name == "true" || name == "false" || name == "null"
    case Number(_, digits, fraction, exponent) =>
      && ValidInt(digits)
      && (fraction.Some? ==> fraction.value != "" && AllDigits(fraction.value))
      && (exponent.Some? ==> ValidExponent(exponent.value))
    case Text(units) => ValidUnits(units)
    case Array(blank, elems) => Blank(blank) && ValidElems(elems)
    case Object(blank, members) => Blank(blank) && ValidMembers(members)
  }

  predicate ValidElems(es: Elems) {
    es.NoElems? || (Blank(es.before) && ValidValue(es.value) && Blank(es.after) && ValidElems(es.rest))
  }

  predicate ValidMembers(ms: Members) {
    ms.NoMembers?
    || (Blank(ms.before) && ValidUnits(ms.key) && Blank(ms.colon) && Blank(ms.space)
        && ValidValue(ms.value) && Blank(ms.after) && ValidMembers(ms.others))
  }

  // ---------------------------------------------------------------- their texts

  function UnitText(u: Unit): string {
    match u
    case Char(c) => [c]
    case Short(c) => ['\\'] + [c]
    case Code(hex) => ['\\'] + (['u'] + hex)
    case Pair(high, low) => (['\\'] + (['u'] + high)) + (['\\'] + (['u'] + low))
  }

  function UnitsText(us: seq<Unit>): string {
    if us == [] then "" else UnitText(us[0]) + UnitsText(us[1..])
  }

  function ExponentText(e: Option<Exponent>): string {
    if e.None? then "" else [e.value.mark] + (e.value.sign + e.value.digits)
  }

  function FractionText(f: Option<string>): string { if f.None? then "" else ['.'] + f.value }

  function Write(v: Value): string {
    match v
    case Literal(name) => name
    case Number(minus, digits, fraction, exponent) =>
      (if minus then ['-'] else "") + (digits + (FractionText(fraction) + ExponentText(exponent)))
    case Text(units) => ['"'] + (UnitsText(units) + ['"'])
    case Array(blank, elems) => ['['] + ((if elems.NoElems? then blank else WriteElems(elems)) + [']'])
    case Object(blank, members) => ['{'] + ((if members.NoMembers? then blank else WriteMembers(members)) + ['}'])
  }

  function WriteElems(es: Elems): string {
    if es.NoElems? then ""
    else es.before + (Write(es.value) + (es.after + if es.rest.NoElems? then "" else [','] + WriteElems(es.rest)))
  }

  function WriteMembers(ms: Members): string {
    if ms.NoMembers? then ""
    else
      ms.before + (['"'] + (UnitsText(ms.key) + (['"'] + (ms.colon + ([':'] + (ms.space + (Write(ms.value) + (ms.after +
        if ms.others.NoMembers? then "" else [','] + WriteMembers(ms.others)))))))))
  }

  // ---------------------------------------------------------------- texts of trees are read

  /** A value has been read inside the containers `base`. */
  predicate Ended(base: seq<Frame>, st: State) {
    st.At? && st.stack == base && (st.mode == After || (st.mode.Num? && Complete(st.mode.num)))
  }

  /** Blanks do not change what is due. */
  predicate Idle(m: Mode) { m.Value? || m.ValueOrEnd? || m.KeyOrEnd? || m.Key? || m.Colon? || m.After? }

  lemma {:induction false} BlanksIdle(base: seq<Frame>, m: Mode, s: string)
    requires Idle(m) && Blank(s)
    ensures Run(At(base, m), s) == At(base, m)
    decreases |s|
  {
    if s != "" { BlanksIdle(base, m, s[..|s| - 1]); }
  }

  lemma BlanksAfter(base: seq<Frame>, st: State, s: string)
    requires Ended(base, st) && Blank(s)
    ensures Ended(base, Run(st, s))
  {
    if s != "" {
      assert s == [s[0]] + s[1..];
      RunCons(st, s[0], s[1..]);
      BlanksIdle(base, After, s[1..]);
    }
  }

  lemma HexRun(base: seq<Frame>, isKey: bool, needLow: bool, h: string)
    requires AllHex(h) && (if needLow then IsLow(h) else !IsLow(h))
    ensures Run(At(base, Str(isKey, Plain, needLow)), ['\\'] + (['u'] + h)) ==
            At(base, Str(isKey, Plain, !needLow && IsHigh(h)))
  {
    var st := At(base, Str(isKey, Plain, needLow));
    assert h == [h[0]] + ([h[1]] + ([h[2]] + [h[3]]));
    RunCons(st, '\\', ['u'] + h);
    RunCons(At(base, Str(isKey, Escaped, needLow)), 'u', h);
    var s0 := At(base, Str(isKey, Hex(""), needLow));
    RunCons(s0, h[0], [h[1]] + ([h[2]] + [h[3]]));
    assert "" + [h[0]] == [h[0]];
    var s1 := At(base, Str(isKey, Hex([h[0]]), needLow));
    assert Step(s0, h[0]) == s1;
    RunCons(s1, h[1], [h[2]] + [h[3]]);
    assert [h[0]] + [h[1]] == [h[0], h[1]];
    var s2 := At(base, Str(isKey, Hex([h[0], h[1]]), needLow));
    assert Step(s1, h[1]) == s2;
    RunCons(s2, h[2], [h[3]]);
    assert [h[0], h[1]] + [h[2]] == [h[0], h[1], h[2]];
    RunOne(At(base, Str(isKey, Hex([h[0], h[1], h[2]]), needLow)), h[3]);
  }

  lemma UnitRun(base: seq<Frame>, isKey: bool, u: Unit)
    requires ValidUnit(u)
    ensures var st := At(base, Str(isKey, Plain, false)); Run(st, UnitText(u)) == st
  {
    var st := At(base, Str(isKey, Plain, false));
    match u
    case Char(c) => RunOne(st, c);
    case Short(c) => RunCons(st, '\\', [c]); RunOne(At(base, Str(isKey, Escaped, false)), c);
    case Code(hex) => HexRun(base, isKey, false, hex);
    case Pair(high, low) =>
      HexRun(base, isKey, false, high);
      HexRun(base, isKey, true, low);
      RunAppend(st, ['\\'] + (['u'] + high), ['\\'] + (['u'] + low));
  }

  lemma {:induction false} UnitsRun(base: seq<Frame>, isKey: bool, us: seq<Unit>)
    requires ValidUnits(us)
    ensures var st := At(base, Str(isKey, Plain, false)); Run(st, UnitsText(us)) == st
    decreases |us|
  {
    if us != [] {
      var st := At(base, Str(isKey, Plain, false));
      hide Step, UnitText, ValidUnit;
      UnitRun(base, isKey, us[0]);
      UnitsRun(base, isKey, us[1..]);
      RunAppend(st, UnitText(us[0]), UnitsText(us[1..]));
    }
  }

  lemma {:induction false} DigitsRun(base: seq<Frame>, n: Number, s: string)
    requires AllDigits(s) && (n == Digits || n == Fraction || n == ExpDigits)
    ensures Run(At(base, Num(n)), s) == At(base, Num(n))
    decreases |s|
  {
    if s != "" { DigitsRun(base, n, s[..|s| - 1]); }
  }

  lemma FirstDigits(base: seq<Frame>, from: Number, to: Number, s: string)
    requires s != "" && AllDigits(s) && (to == Digits || to == Fraction || to == ExpDigits)
    requires Step(At(base, Num(from)), s[0]) == At(base, Num(to))
    ensures Run(At(base, Num(from)), s) == At(base, Num(to))
  {
    hide Step, Run;
    assert s == [s[0]] + s[1..];
    RunCons(At(base, Num(from)), s[0], s[1..]);
    DigitsRun(base, to, s[1..]);
  }

  /** The integer part, from the place where a value is due or behind a minus sign. */
  lemma IntRun(base: seq<Frame>, st: State, s: string)
    requires ValidInt(s)
    requires st == At(base, Num(Minus)) || (st.At? && Step(st, s[0]) == BeginValue(base, s[0]))
    ensures Run(st, s) == At(base, Num(if s == "0" then Zero else Digits))
  {
    assert s == [s[0]] + s[1..];
    RunCons(st, s[0], s[1..]);
    if s[0] == '0' {
      assert s[1..] == "" && s == "0";
    } else {
      DigitsRun(base, Digits, s[1..]);
    }
  }

  lemma FractionRun(base: seq<Frame>, n: Number, f: Option<string>)
    requires n == Zero || n == Digits
    requires f.Some? ==> f.value != "" && AllDigits(f.value)
    ensures Run(At(base, Num(n)), FractionText(f)) == At(base, Num(if f.Some? then Fraction else n))
  {
    if f.Some? {
      RunCons(At(base, Num(n)), '.', f.value);
      FirstDigits(base, Dot, Fraction, f.value);
    }
  }

  lemma NothingRun(st: State)
    ensures Run(st, "") == st
  {
  }

  lemma FirstIsDigit(s: string)
    requires s != "" && AllDigits(s)
    ensures IsDigit(s[0])
  {
  }

  lemma ExponentSteps(base: seq<Frame>, n: Number, mark: char, c: char)
    requires (n == Zero || n == Digits || n == Fraction) && (mark == 'e' || mark == 'E')
    ensures Step(At(base, Num(n)), mark) == At(base, Num(Exp)) && Run(At(base, Num(Exp)), "") == At(base, Num(Exp))
    ensures Step(At(base, Num(Exp)), '+') == At(base, Num(ExpSign)) &&
            Step(At(base, Num(Exp)), '-') == At(base, Num(ExpSign))
    ensures IsDigit(c) ==> Step(At(base, Num(Exp)), c) == At(base, Num(ExpDigits))
    ensures IsDigit(c) ==> Step(At(base, Num(ExpSign)), c) == At(base, Num(ExpDigits))
  {
  }

  lemma ExponentRun(base: seq<Frame>, n: Number, e: Option<Exponent>)
    requires n == Zero || n == Digits || n == Fraction
    requires e.Some? ==> ValidExponent(e.value)
    ensures Run(At(base, Num(n)), ExponentText(e)) == At(base, Num(if e.Some? then ExpDigits else n))
  {
    hide Run, Step, AllDigits;
    if e.Some? {
      var x := e.value;
      ExponentSteps(base, n, x.mark, x.digits[0]);
      RunCons(At(base, Num(n)), x.mark, x.sign + x.digits);
      RunAppend(At(base, Num(Exp)), x.sign, x.digits);
      FirstIsDigit(x.digits);
      if x.sign == "" {
        FirstDigits(base, Exp, ExpDigits, x.digits);
      } else {
        RunOne(At(base, Num(Exp)), x.sign[0]);
        assert x.sign == [x.sign[0]];
        FirstDigits(base, ExpSign, ExpDigits, x.digits);
      }
    } else {
      NothingRun(At(base, Num(n)));
    }
  }

  /** A value is due in `st`. */
  predicate Due(base: seq<Frame>, st: State) { st == At(base, Value) || st == At(base, ValueOrEnd) }

  lemma NumberTail(base: seq<Frame>, n: Number, f: Option<string>, e: Option<Exponent>)
    requires n == Zero || n == Digits
    requires (f.Some? ==> f.value != "" && AllDigits(f.value)) && (e.Some? ==> ValidExponent(e.value))
    ensures Ended(base, Run(At(base, Num(n)), FractionText(f) + ExponentText(e)))
  {
    hide Step, FractionText, ExponentText, ValidExponent;
    FractionRun(base, n, f);
    RunAppend(At(base, Num(n)), FractionText(f), ExponentText(e));
    ExponentRun(base, if f.Some? then Fraction else n, e);
  }

  lemma UnsignedRun(base: seq<Frame>, st: State, digits: string, tail: string)
    requires ValidInt(digits) && (st == At(base, Num(Minus)) || Due(base, st))
    requires Ended(base, Run(At(base, Num(if digits == "0" then Zero else Digits)), tail))
    ensures Ended(base, Run(st, digits + tail))
  {
    assert st == At(base, Num(Minus)) || Step(st, digits[0]) == BeginValue(base, digits[0]);
    hide Step, ValidInt;
    IntRun(base, st, digits);
    RunAppend(st, digits, tail);
  }

  lemma NumberRun(base: seq<Frame>, st: State, v: Value)
    requires v.Number? && ValidValue(v) && Due(base, st)
    ensures Ended(base, Run(st, Write(v)))
  {
    var tail := FractionText(v.fraction) + ExponentText(v.exponent);
    assert Step(st, '-') == At(base, Num(Minus));
    hide Step, FractionText, ExponentText, ValidInt, ValidExponent;
    NumberTail(base, if v.digits == "0" then Zero else Digits, v.fraction, v.exponent);
    UnsignedRun(base, if v.minus then At(base, Num(Minus)) else st, v.digits, tail);
    if v.minus { RunCons(st, '-', v.digits + tail); } else { assert "" + (v.digits + tail) == v.digits + tail; }
  }

  lemma LiteralTail(base: seq<Frame>, s: string)
    requires s != ""
    ensures Run(At(base, Lit(s)), s) == At(base, After)
    decreases |s|
  {
    assert s == [s[0]] + s[1..];
    RunCons(At(base, Lit(s)), s[0], s[1..]);
    if |s| > 1 { LiteralTail(base, s[1..]); }
  }

  lemma LiteralFirst(base: seq<Frame>, st: State, name: string)
    requires (name == "true" || name == "false" || name == "null") && Due(base, st)
    ensures name[1..] != "" && name == [name[0]] + name[1..] && Step(st, name[0]) == At(base, Lit(name[1..]))
  {
    assert name[1..] == "rue" || name[1..] == "alse" || name[1..] == "ull";
  }

  lemma LiteralRun(base: seq<Frame>, st: State, name: string)
    requires (name == "true" || name == "false" || name == "null") && Due(base, st)
    ensures Run(st, name) == At(base, After)
  {
    hide Run, Step;
    LiteralFirst(base, st, name);
    RunCons(st, name[0], name[1..]);
    LiteralTail(base, name[1..]);
  }

  lemma TextRun(base: seq<Frame>, st: State, us: seq<Unit>)
    requires ValidUnits(us) && (Due(base, st) || st == At(base, Key) || st == At(base, KeyOrEnd))
    ensures Run(st, ['"'] + (UnitsText(us) + ['"'])) == At(base, if Due(base, st) then After else Colon)
  {
    var isKey := !Due(base, st);
    var inside := At(base, Str(isKey, Plain, false));
    assert Step(st, '"') == inside;
    assert Step(inside, '"') == At(base, if isKey then Colon else After);
    hide Step, UnitsText;
    RunCons(st, '"', UnitsText(us) + ['"']);
    UnitsRun(base, isKey, us);
    RunAppend(inside, UnitsText(us), ['"']);
    RunOne(inside, '"');
  }

  /** The text of a tree is read as a value. */
  lemma {:induction false} ValueRun(base: seq<Frame>, st: State, v: Value)
    requires ValidValue(v) && Due(base, st)
    ensures Ended(base, Run(st, Write(v)))
    decreases v
  {
    match v
    case Literal(name) => LiteralRun(base, st, name);
    case Number(_, _, _, _) => NumberRun(base, st, v);
    case Text(units) => TextRun(base, st, units);
    case Array(blank, elems) =>
      var open, body := At(base + [InArray], ValueOrEnd), if elems.NoElems? then blank else WriteElems(elems);
      if elems.Elem? { ElemsRun(base, open, elems); } else { BlanksIdle(base + [InArray], ValueOrEnd, blank); }
      ContainerRun(base, st, '[', open, body, ']');
    case Object(blank, members) =>
      var open, body := At(base + [InObject], KeyOrEnd), if members.NoMembers? then blank else WriteMembers(members);
      if members.Member? { MembersRun(base, open, members); } else { BlanksIdle(base + [InObject], KeyOrEnd, blank); }
      ContainerRun(base, st, '{', open, body, '}');
  }

  lemma ContainerRun(base: seq<Frame>, st: State, first: char, open: State, body: string, last: char)
    requires Due(base, st) && ((first == '[' && last == ']' && open == At(base + [InArray], ValueOrEnd))
                               || (first == '{' && last == '}' && open == At(base + [InObject], KeyOrEnd)))
    requires Run(open, body) == open || Ended(open.stack, Run(open, body))
    ensures Run(st, [first] + (body + [last])) == At(base, After)
  {
    assert Pop(open.stack) == base;
    assert Step(st, first) == open;
    assert Step(open, last) == At(base, After);
    LastStep(base, open.stack[|base|], Run(open, body), last);
    hide Step;
    RunCons(st, first, body + [last]);
    RunAppend(open, body, [last]);
    RunOne(Run(open, body), last);
  }

  lemma LastStep(base: seq<Frame>, f: Frame, st: State, last: char)
    requires last == if f == InObject then '}' else ']'
    ensures Ended(base + [f], st) ==> Step(st, last) == At(base, After)
  {
    assert Pop(base + [f]) == base;
  }

  lemma CommaStep(base: seq<Frame>, st: State, f: Frame)
    requires Ended(base + [f], st)
    ensures Step(st, ',') == At(base + [f], if f == InObject then Key else JsonText.Value)
  {
  }

  lemma {:induction false} ElemsRun(base: seq<Frame>, st: State, es: Elems)
    requires es.Elem? && ValidElems(es) && Due(base + [InArray], st)
    ensures Ended(base + [InArray], Run(st, WriteElems(es)))
    decreases es
  {
    var b := base + [InArray];
    var tail := if es.rest.NoElems? then "" else [','] + WriteElems(es.rest);
    hide Step, Write, ValidValue;
    BlanksIdle(b, st.mode, es.before);
    RunAppend(st, es.before, Write(es.value) + (es.after + tail));
    ValueRun(b, st, es.value);
    var s1 := Run(st, Write(es.value));
    RunAppend(st, Write(es.value), es.after + tail);
    BlanksAfter(b, s1, es.after);
    RunAppend(s1, es.after, tail);
    if es.rest.Elem? {
      CommaStep(base, Run(s1, es.after), InArray);
      RunCons(Run(s1, es.after), ',', WriteElems(es.rest));
      ElemsRun(base, At(b, JsonText.Value), es.rest);
    }
  }

  lemma {:induction false} MembersRun(base: seq<Frame>, st: State, ms: Members)
    requires ms.Member? && ValidMembers(ms) &&
             (st == At(base + [InObject], Key) || st == At(base + [InObject], KeyOrEnd))
    ensures Ended(base + [InObject], Run(st, WriteMembers(ms)))
    decreases ms
  {
    var b := base + [InObject];
    var tail := if ms.others.NoMembers? then "" else [','] + WriteMembers(ms.others);
    var value := ms.space + (Write(ms.value) + (ms.after + tail));
    MemberHeadRun(b, st, ms, value);
    hide Step, Write, ValidValue, UnitsText;
    var due := At(b, JsonText.Value);
    BlanksIdle(b, JsonText.Value, ms.space);
    RunAppend(due, ms.space, Write(ms.value) + (ms.after + tail));
    ValueRun(b, due, ms.value);
    var s1 := Run(due, Write(ms.value));
    RunAppend(due, Write(ms.value), ms.after + tail);
    BlanksAfter(b, s1, ms.after);
    RunAppend(s1, ms.after, tail);
    if ms.others.Member? {
      CommaStep(base, Run(s1, ms.after), InObject);
      RunCons(Run(s1, ms.after), ',', WriteMembers(ms.others));
      MembersRun(base, At(b, Key), ms.others);
    }
  }

  lemma MemberHeadRun(b: seq<Frame>, st: State, ms: Members, value: string)
    requires ms.Member? && ValidMembers(ms) && (st == At(b, Key) || st == At(b, KeyOrEnd))
    ensures Run(st, ms.before + (['"'] + (UnitsText(ms.key) + (['"'] + (ms.colon + ([':'] + value))))))
            == Run(At(b, JsonText.Value), value)
  {
    var key := ['"'] + (UnitsText(ms.key) + ['"']);
    var rest := ms.colon + ([':'] + value);
    assert ['"'] + (UnitsText(ms.key) + (['"'] + rest)) == key + rest;
    TextRun(b, st, ms.key);
    BlanksIdle(b, st.mode, ms.before);
    BlanksIdle(b, Colon, ms.colon);
    assert Step(At(b, Colon), ':') == At(b, JsonText.Value);
    hide Step, UnitsText, ValidMembers;
    RunAppend(st, ms.before, key + rest);
    RunAppend(st, key, rest);
    RunAppend(At(b, Colon), ms.colon, [':'] + value);
    RunCons(At(b, Colon), ':', value);
  }

  /** Every text of the grammar is accepted. */
  lemma GrammarIsAccepted(before: string, v: Value, after: string)
    requires Blank(before) && ValidValue(v) && Blank(after)
    ensures WellFormed(before + (Write(v) + after))
  {
    hide Step, Write, ValidValue;
    BlanksIdle([], JsonText.Value, before);
    RunAppend(START, before, Write(v) + after);
    ValueRun([], START, v);
    RunAppend(START, Write(v), after);
    BlanksAfter([], Run(START, Write(v)), after);
  }
}
