/** Parsing and dumping at once prints what the tree of the text is printed as. */
module JsonDumping {
  import opened Base
  import opened JsonText
  import opened JsonDump
  import opened JsonBuilder
  import opened JsonGrammar

  // ---------------------------------------------------------------- blanks

  lemma BlankAdds(f: Printer, base: seq<Frame>, m: Mode, b: Parts, c: char)
    requires Idle(m) && IsBlank(c)
    ensures Add(f, At(base, m), b, c) == b
  {
  }

  lemma {:induction false} BlanksBuild(f: Printer, base: seq<Frame>, m: Mode, b: Parts, s: string)
    requires Idle(m) && Blank(s)
    ensures Build(f, At(base, m), b, s) == b && Run(At(base, m), s) == At(base, m)
    decreases |s|
  {
    hide Add, Step;
    BlanksIdle(base, m, s);
    if s != "" {
      var init, c := s[..|s| - 1], s[|s| - 1];
      BlanksBuild(f, base, m, b, init);
      BlankAdds(f, base, m, b, c);
    }
  }

  lemma EndedSteps(f: Printer, base: seq<Frame>, st: State, b: Parts, c: char)
    requires Ended(base, st)
    ensures IsBlank(c) ==> Add(f, st, b, c) == Settled(f, st, b) && Step(st, c) == At(base, After)
    ensures c == ',' && base != [] ==> Add(f, st, b, c) == Settled(f, st, b)
    ensures c == (if base != [] && Top(base) == InObject then '}' else ']') && base != [] ==>
              Add(f, st, b, c) == Close(Settled(f, st, b).levels)
  {
    hide HandleValue, Close;
  }

  lemma SettledAfter(f: Printer, base: seq<Frame>, b: Parts)
    ensures Settled(f, At(base, After), b) == b
  {
  }

  lemma BlanksSettle(f: Printer, base: seq<Frame>, st: State, b: Parts, s: string)
    requires Ended(base, st) && Blank(s)
    ensures Settled(f, Run(st, s), Build(f, st, b, s)) == Settled(f, st, b)
    ensures Ended(base, Run(st, s))
  {
    hide Add, Step, Settled, Run, Build;
    BlanksAfter(base, st, s);
    if s == "" {
      NothingBuilt(f, st, b);
    } else {
      assert s == [s[0]] + s[1..];
      EndedSteps(f, base, st, b, s[0]);
      BuildCons(f, st, b, s[0], s[1..]);
      RunCons(st, s[0], s[1..]);
      BlanksBuild(f, base, After, Settled(f, st, b), s[1..]);
      SettledAfter(f, base, Settled(f, st, b));
    }
  }

  lemma NothingBuilt(f: Printer, st: State, b: Parts)
    ensures Run(st, "") == st && Build(f, st, b, "") == b
  {
  }

  // ---------------------------------------------------------------- scalars

  predicate IsNumberChar(c: char) { IsDigit(c) || c in "+-.eE" }

  predicate NumberChars(s: string) { forall i :: 0 <= i < |s| ==> IsNumberChar(s[i]) }

  lemma NumberStep(f: Printer, st: State, b: Parts, c: char)
    requires st.At? && st.mode.Num? && IsNumberChar(c) && Step(st, c).At?
    ensures Step(st, c).mode.Num? && Add(f, st, b, c) == b.(token := b.token + [c])
  {
  }

  lemma {:induction false} TokenBuild(f: Printer, st: State, b: Parts, s: string)
    requires st.At? && st.mode.Num? && NumberChars(s) && Run(st, s).At?
    ensures Run(st, s).mode.Num? && Build(f, st, b, s) == b.(token := b.token + s)
    decreases |s|
  {
    hide Add, Step, IsNumberChar;
    if s == "" {
      assert b.token + s == b.token;
    } else {
      var init, c := s[..|s| - 1], s[|s| - 1];
      FailStays(Run(st, init), c);
      TokenBuild(f, st, b, init);
      NumberStep(f, Run(st, init), b.(token := b.token + init), c);
      assert b.token + s == b.token + init + [c];
    }
  }

  lemma FailStays(st: State, c: char)
    ensures st == Fail ==> Step(st, c) == Fail
  {
  }

  lemma NumberTextChars(v: Value)
    requires v.Number? && ValidValue(v)
    ensures NumberChars(Write(v)) && Write(v) != "" && (Write(v)[0] == '-' || IsDigit(Write(v)[0]))
  {
    var t := FractionText(v.fraction) + ExponentText(v.exponent);
    PartsChars(v.fraction, v.exponent);
    assert Write(v) == (if v.minus then ['-'] else "") + (v.digits + t);
    hide FractionText, ExponentText, ValidExponent;
    assert IsDigit(v.digits[0]);
  }

  lemma PartsChars(fr: Option<string>, e: Option<Exponent>)
    requires fr.Some? ==> AllDigits(fr.value)
    requires e.Some? ==> ValidExponent(e.value)
    ensures NumberChars(FractionText(fr) + ExponentText(e))
  {
  }

  lemma BeginNumber(f: Printer, base: seq<Frame>, st: State, levels: seq<Level>, c: char)
    requires Due(base, st) && (c == '-' || IsDigit(c))
    ensures Add(f, st, Ready(levels, None), c) == Parts(levels, [], "", [c], None)
    ensures Step(st, c).At? && Step(st, c).mode.Num?
  {
  }

  lemma NumberBuild(f: Printer, base: seq<Frame>, st: State, levels: seq<Level>, v: Value)
    requires v.Number? && ValidValue(v) && Due(base, st)
    ensures Settled(f, Run(st, Write(v)), Build(f, st, Ready(levels, None), Write(v)))
            == HandleValue(levels, f(Write(v)))
  {
    hide Add, Step, Write, ValidValue, Run, Build, HandleValue;
    var s := Write(v);
    NumberRun(base, st, v);
    NumberTextChars(v);
    BeginNumber(f, base, st, levels, s[0]);
    assert s == [s[0]] + s[1..];
    BuildCons(f, st, Ready(levels, None), s[0], s[1..]);
    RunCons(st, s[0], s[1..]);
    assert NumberChars(s[1..]);
    TokenBuild(f, Step(st, s[0]), Parts(levels, [], "", [s[0]], None), s[1..]);
  }

  lemma {:induction false} LiteralTailBuild(f: Printer, base: seq<Frame>, levels: seq<Level>, token: string, s: string)
    requires s != ""
    ensures Build(f, At(base, Lit(s)), Parts(levels, [], "", token, None), s) == HandleValue(levels, token + s)
    decreases |s|
  {
    hide Run, Build, HandleValue;
    var b := Parts(levels, [], "", token, None);
    assert s == [s[0]] + s[1..];
    BuildCons(f, At(base, Lit(s)), b, s[0], s[1..]);
    if |s| == 1 {
      assert s[1..] == "" && token + [s[0]] == token + s;
      NothingBuilt(f, Step(At(base, Lit(s)), s[0]), HandleValue(levels, token + [s[0]]));
    } else {
      LiteralTailBuild(f, base, levels, token + [s[0]], s[1..]);
      assert token + [s[0]] + s[1..] == token + s;
    }
  }

  lemma LiteralBuild(f: Printer, base: seq<Frame>, st: State, levels: seq<Level>, name: string)
    requires (name == "true" || name == "false" || name == "null") && Due(base, st)
    ensures Build(f, st, Ready(levels, None), name) == HandleValue(levels, name)
  {
    hide Build, HandleValue;
    var rest := name[1..];
    assert name == [name[0]] + rest && (rest == "rue" || rest == "alse" || rest == "ull");
    assert Step(st, name[0]) == At(base, Lit(rest));
    assert Add(f, st, Ready(levels, None), name[0]) == Parts(levels, [], "", [name[0]], None);
    BuildCons(f, st, Ready(levels, None), name[0], rest);
    LiteralTailBuild(f, base, levels, [name[0]], rest);
  }

  // ---------------------------------------------------------------- strings

  /** Inside a string, between its units. */
  function Inside(levels: seq<Level>, codes: seq<Code>, high: string): Parts { Parts(levels, codes, high, "", None) }

  lemma HexBuild(
    f: Printer, base: seq<Frame>, isKey: bool, needLow: bool,
    levels: seq<Level>, codes: seq<Code>, high: string, h: string)
    requires AllHex(h) && (if needLow then IsLow(h) && IsHigh(high) else !IsLow(h))
    ensures Build(f, At(base, Str(isKey, Plain, needLow)), Inside(levels, codes, high), ['\\'] + (['u'] + h))
            == HexEnd(Inside(levels, codes, high), h, needLow)
  {
    hide HexEnd, Build, Run, HandleValue, KeyRead, Begin;
    var b := Inside(levels, codes, high);
    var st := At(base, Str(isKey, Plain, needLow));
    assert h == [h[0]] + ([h[1]] + ([h[2]] + [h[3]]));
    BuildCons(f, st, b, '\\', ['u'] + h);
    BuildCons(f, At(base, Str(isKey, Escaped, needLow)), b, 'u', h);
    var s0 := At(base, Str(isKey, Hex(""), needLow));
    BuildCons(f, s0, b, h[0], [h[1]] + ([h[2]] + [h[3]]));
    assert "" + [h[0]] == [h[0]];
    var s1 := At(base, Str(isKey, Hex([h[0]]), needLow));
    assert Step(s0, h[0]) == s1;
    BuildCons(f, s1, b, h[1], [h[2]] + [h[3]]);
    assert [h[0]] + [h[1]] == [h[0], h[1]];
    var s2 := At(base, Str(isKey, Hex([h[0], h[1]]), needLow));
    assert Step(s1, h[1]) == s2;
    BuildCons(f, s2, b, h[2], [h[3]]);
    assert [h[0], h[1]] + [h[2]] == [h[0], h[1], h[2]];
    var s3 := At(base, Str(isKey, Hex([h[0], h[1], h[2]]), needLow));
    assert Step(s2, h[2]) == s3;
    BuildOne(f, s3, b, h[3]);
    assert [h[0], h[1], h[2]] + [h[3]] == h;
  }

  lemma UnitBuild(f: Printer, base: seq<Frame>, isKey: bool, levels: seq<Level>, codes: seq<Code>, u: Unit)
    requires ValidUnit(u)
    ensures Build(f, At(base, Str(isKey, Plain, false)), Inside(levels, codes, ""), UnitText(u))
            == Inside(levels, codes + [CodeOf(u)], "")
  {
    hide Build, Run, HexNumber, PairNumber;
    var st, b := At(base, Str(isKey, Plain, false)), Inside(levels, codes, "");
    match u
    case Char(c) => BuildOne(f, st, b, c);
    case Short(c) =>
      BuildCons(f, st, b, '\\', [c]);
      BuildOne(f, At(base, Str(isKey, Escaped, false)), b, c);
    case Code(hex) => HexBuild(f, base, isKey, false, levels, codes, "", hex);
    case Pair(high, low) =>
      HexBuild(f, base, isKey, false, levels, codes, "", high);
      HexRun(base, isKey, false, high);
      HexBuild(f, base, isKey, true, levels, codes, high, low);
      BuildAppend(f, st, b, ['\\'] + (['u'] + high), ['\\'] + (['u'] + low));
  }

  lemma {:induction false} UnitsBuild(
    f: Printer, base: seq<Frame>, isKey: bool, levels: seq<Level>, codes: seq<Code>, us: seq<Unit>)
    requires ValidUnits(us)
    ensures Build(f, At(base, Str(isKey, Plain, false)), Inside(levels, codes, ""), UnitsText(us))
            == Inside(levels, codes + CodesOf(us), "")
    decreases |us|
  {
    var st := At(base, Str(isKey, Plain, false));
    hide Step, Add, UnitText, ValidUnit, CodeOf, Build, Run;
    if us == [] {
      NothingBuilt(f, st, Inside(levels, codes, ""));
      assert codes + CodesOf(us) == codes;
    } else {
      UnitBuild(f, base, isKey, levels, codes, us[0]);
      UnitRun(base, isKey, us[0]);
      UnitsBuild(f, base, isKey, levels, codes + [CodeOf(us[0])], us[1..]);
      BuildAppend(f, st, Inside(levels, codes, ""), UnitText(us[0]), UnitsText(us[1..]));
      assert codes + [CodeOf(us[0])] + CodesOf(us[1..]) == codes + CodesOf(us);
    }
  }

  lemma QuoteSteps(f: Printer, base: seq<Frame>, st: State, levels: seq<Level>, codes: seq<Code>)
    requires Due(base, st) || st == At(base, Key) || st == At(base, KeyOrEnd)
    ensures Step(st, '"') == At(base, Str(!Due(base, st), Plain, false))
    ensures Add(f, st, Ready(levels, None), '"') == Inside(levels, [], "")
    ensures Add(f, At(base, Str(!Due(base, st), Plain, false)), Inside(levels, codes, ""), '"')
            == if Due(base, st) then HandleValue(levels, Quoted(codes)) else KeyRead(levels, codes)
  {
  }

  lemma TextBuild(f: Printer, base: seq<Frame>, st: State, levels: seq<Level>, us: seq<Unit>)
    requires ValidUnits(us) && (Due(base, st) || st == At(base, Key) || st == At(base, KeyOrEnd))
    ensures Build(f, st, Ready(levels, None), ['"'] + (UnitsText(us) + ['"']))
            == if Due(base, st) then HandleValue(levels, Quoted(CodesOf(us))) else KeyRead(levels, CodesOf(us))
  {
    hide Add, Step, Build, Run, HandleValue, KeyRead, UnitsText, CodesOf;
    var isKey := !Due(base, st);
    var inside := At(base, Str(isKey, Plain, false));
    QuoteSteps(f, base, st, levels, CodesOf(us));
    BuildCons(f, st, Ready(levels, None), '"', UnitsText(us) + ['"']);
    UnitsBuild(f, base, isKey, levels, [], us);
    UnitsRun(base, isKey, us);
    assert [] + CodesOf(us) == CodesOf(us);
    BuildAppend(f, inside, Inside(levels, [], ""), UnitsText(us), ['"']);
    BuildOne(f, inside, Inside(levels, CodesOf(us), ""), '"');
  }

  // ---------------------------------------------------------------- containers

  lemma OpenSteps(f: Printer, base: seq<Frame>, st: State, levels: seq<Level>, isObject: bool)
    requires Due(base, st)
    ensures var c, frame := if isObject then '{' else '[', if isObject then InObject else InArray;
            var level := if isObject then ObjectLevel([], []) else ArrayLevel([]);
            && Step(st, c) == At(base + [frame], if isObject then KeyOrEnd else ValueOrEnd)
            && Add(f, st, Ready(levels, None), c) == Ready(levels + [level], None)
  {
  }

  /** The closing bracket, behind a value or in an empty container. */
  lemma CloseStep(f: Printer, base: seq<Frame>, frame: Frame, st: State, b: Parts, levels: seq<Level>, level: Level)
    requires Settled(f, st, b) == Ready(levels + [level], None)
    requires Ended(base + [frame], st) || st == At(base + [frame], if frame == InObject then KeyOrEnd else ValueOrEnd)
    ensures Add(f, st, b, if frame == InObject then '}' else ']') == HandleValue(levels, LevelText(level))
  {
    hide HandleValue, LevelText, Settled;
    ClosePops(levels, level);
    var c := if frame == InObject then '}' else ']';
    if Ended(base + [frame], st) {
      EndedSteps(f, base + [frame], st, b, c);
    } else {
      SettledElsewhere(f, st, b);
    }
  }

  lemma SettledElsewhere(f: Printer, st: State, b: Parts)
    requires st.At? && !st.mode.Num?
    ensures Settled(f, st, b) == b
  {
  }

  lemma ClosePops(levels: seq<Level>, level: Level)
    ensures Close(levels + [level]) == HandleValue(levels, LevelText(level))
  {
    hide HandleValue, LevelText;
  }

  /** A container whose body is built to `level`. */
  lemma ContainerBuild(
    f: Printer, base: seq<Frame>, st: State, levels: seq<Level>, isObject: bool, body: string, level: Level)
    requires Due(base, st)
    requires var frame := if isObject then InObject else InArray;
             var open := At(base + [frame], if isObject then KeyOrEnd else ValueOrEnd);
             var b := Ready(levels + [if isObject then ObjectLevel([], []) else ArrayLevel([])], None);
             && (Run(open, body) == open || Ended(base + [frame], Run(open, body)))
             && Settled(f, Run(open, body), Build(f, open, b, body)) == Ready(levels + [level], None)
    ensures var text := [if isObject then '{' else '['] + (body + [if isObject then '}' else ']']);
            Build(f, st, Ready(levels, None), text) == HandleValue(levels, LevelText(level))
  {
    hide Add, Step, Build, Run, HandleValue, Settled, LevelText;
    var frame := if isObject then InObject else InArray;
    var first, last := if isObject then '{' else '[', if isObject then '}' else ']';
    var open := At(base + [frame], if isObject then KeyOrEnd else ValueOrEnd);
    var b := Ready(levels + [if isObject then ObjectLevel([], []) else ArrayLevel([])], None);
    OpenSteps(f, base, st, levels, isObject);
    BuildCons(f, st, Ready(levels, None), first, body + [last]);
    BuildAppend(f, open, b, body, [last]);
    BuildOne(f, Run(open, body), Build(f, open, b, body), last);
    CloseStep(f, base, frame, Run(open, body), Build(f, open, b, body), levels, level);
  }

  /** The text of a tree is built to what the tree is printed as. */
  lemma {:induction false} ValueBuild(f: Printer, base: seq<Frame>, st: State, levels: seq<Level>, v: Value)
    requires ValidValue(v) && Due(base, st)
    ensures Settled(f, Run(st, Write(v)), Build(f, st, Ready(levels, None), Write(v)))
            == HandleValue(levels, Dumped(v, f))
    decreases v, 0
  {
    hide Add, Step, Build, Run, HandleValue, Settled, CodesOf, UnitsText, WriteElems, WriteMembers, ValidElems,
         ValidMembers, Blank, DumpedElems, DumpedMembers, ValidUnits;
    match v
    case Literal(name) =>
      LiteralBuild(f, base, st, levels, name);
      LiteralRun(base, st, name);
      SettledAfter(f, base, HandleValue(levels, name));
    case Number(_, _, _, _) => NumberBuild(f, base, st, levels, v);
    case Text(units) =>
      TextBuild(f, base, st, levels, units);
      TextRun(base, st, units);
      SettledAfter(f, base, HandleValue(levels, Quoted(CodesOf(units))));
    case Array(blank, elems) =>
      ArrayBuild(f, base, st, levels, blank, elems);
    case Object(blank, members) =>
      ObjectBuild(f, base, st, levels, blank, members);
  }

  lemma {:induction false} ArrayBuild(
    f: Printer, base: seq<Frame>, st: State, levels: seq<Level>, blank: string, elems: Elems)
    requires Blank(blank) && ValidElems(elems) && Due(base, st)
    ensures var v := Array(blank, elems);
            Settled(f, Run(st, Write(v)), Build(f, st, Ready(levels, None), Write(v)))
            == HandleValue(levels, LevelText(ArrayLevel(DumpedElems([], elems, f))))
    decreases elems, 1
  {
    hide Add, Step, Build, Run, HandleValue, Settled, LevelText, WriteElems, ValidElems, Blank, DumpedElems;
    var open, b := At(base + [InArray], ValueOrEnd), Ready(levels + [ArrayLevel([])], None);
    var body := if elems.NoElems? then blank else WriteElems(elems);
    if elems.Elem? {
      ElemsRun(base, open, elems);
      ElemsBuild(f, base, open, levels, [], elems);
    } else {
      BlanksBuild(f, base + [InArray], ValueOrEnd, b, blank);
      SettledElsewhere(f, open, b);
      NoElemsDumped(f);
    }
    ContainerBuild(f, base, st, levels, false, body, ArrayLevel(DumpedElems([], elems, f)));
    AfterContainer(f, base, st, '[', open, body, ']',
                   HandleValue(levels, LevelText(ArrayLevel(DumpedElems([], elems, f)))));
  }

  lemma NoElemsDumped(f: Printer)
    ensures ValidElems(NoElems) && DumpedElems([], NoElems, f) == []
    ensures ValidMembers(NoMembers) && DumpedMembers([], NoMembers, f) == []
  {
  }

  lemma AfterContainer(
    f: Printer, base: seq<Frame>, st: State, first: char, open: State, body: string, last: char, b: Parts)
    requires Due(base, st) && ((first == '[' && last == ']' && open == At(base + [InArray], ValueOrEnd))
                               || (first == '{' && last == '}' && open == At(base + [InObject], KeyOrEnd)))
    requires Run(open, body) == open || Ended(open.stack, Run(open, body))
    ensures Settled(f, Run(st, [first] + (body + [last])), b) == b
  {
    hide Settled, Step, Run;
    ContainerRun(base, st, first, open, body, last);
    SettledAfter(f, base, b);
  }

  lemma {:induction false} ObjectBuild(
    f: Printer, base: seq<Frame>, st: State, levels: seq<Level>, blank: string, members: Members)
    requires Blank(blank) && ValidMembers(members) && Due(base, st)
    ensures var v := Object(blank, members);
            Settled(f, Run(st, Write(v)), Build(f, st, Ready(levels, None), Write(v)))
            == HandleValue(levels, LevelText(ObjectLevel(DumpedMembers([], members, f), [])))
    decreases members, 1
  {
    hide Add, Step, Build, Run, HandleValue, Settled, LevelText, WriteMembers, ValidMembers, Blank, DumpedMembers;
    var open, b := At(base + [InObject], KeyOrEnd), Ready(levels + [ObjectLevel([], [])], None);
    var body := if members.NoMembers? then blank else WriteMembers(members);
    var level := ObjectLevel(DumpedMembers([], members, f), []);
    if members.Member? {
      MembersRun(base, open, members);
      MembersBuild(f, base, open, levels, [], members);
    } else {
      BlanksBuild(f, base + [InObject], KeyOrEnd, b, blank);
      SettledElsewhere(f, open, b);
      NoElemsDumped(f);
    }
    ContainerBuild(f, base, st, levels, true, body, level);
    AfterContainer(f, base, st, '{', open, body, '}', HandleValue(levels, LevelText(level)));
  }

  lemma FinishInArray(levels: seq<Level>, items: seq<string>, text: string)
    ensures HandleValue(levels + [ArrayLevel(items)], text) == Ready(levels + [ArrayLevel(items + [text])], None)
  {
  }

  lemma FinishInObject(levels: seq<Level>, entries: seq<Entry>, key: seq<Code>, text: string)
    ensures HandleValue(levels + [ObjectLevel(entries, key)], text) ==
            Ready(levels + [ObjectLevel(Put(entries, key, text), [])], None)
  {
    hide Put;
  }

  lemma KeyReadInObject(levels: seq<Level>, entries: seq<Entry>, key: seq<Code>)
    ensures KeyRead(levels + [ObjectLevel(entries, [])], key) == Ready(levels + [ObjectLevel(entries, key)], None)
  {
  }

  lemma {:induction false} ElemsBuild(
    f: Printer, base: seq<Frame>, st: State, levels: seq<Level>, items: seq<string>, es: Elems)
    requires es.Elem? && ValidElems(es) && Due(base + [InArray], st)
    ensures Settled(f, Run(st, WriteElems(es)), Build(f, st, Ready(levels + [ArrayLevel(items)], None), WriteElems(es)))
            == Ready(levels + [ArrayLevel(DumpedElems(items, es, f))], None)
    decreases es, 0
  {
    hide Step, Add, Write, ValidValue, Dumped, Settled, HandleValue, Build, Run, Blank;
    var fs, b := base + [InArray], Ready(levels + [ArrayLevel(items)], None);
    var more := items + [Dumped(es.value, f)];
    var b1 := Ready(levels + [ArrayLevel(more)], None);
    var tail := if es.rest.NoElems? then "" else [','] + WriteElems(es.rest);
    BlanksBuild(f, fs, st.mode, b, es.before);
    BuildAppend(f, st, b, es.before, Write(es.value) + (es.after + tail));
    RunAppend(st, es.before, Write(es.value) + (es.after + tail));
    ValueRun(fs, st, es.value);
    ValueBuild(f, fs, st, levels + [ArrayLevel(items)], es.value);
    FinishInArray(levels, items, Dumped(es.value, f));
    ValueTail(f, fs, st, b, Write(es.value), es.after, tail, b1);
    if es.rest.Elem? {
      CommaBuild(f, base, InArray, Run(Run(st, Write(es.value)), es.after),
                 Build(f, Run(st, Write(es.value)), Build(f, st, b, Write(es.value)), es.after),
                 WriteElems(es.rest), b1);
      ElemsBuild(f, base, At(fs, JsonText.Value), levels, more, es.rest);
    }
  }

  /** Behind a value: the blanks, and then nothing or a comma and more. */
  lemma ValueTail(
    f: Printer, fs: seq<Frame>, st: State, b: Parts, text: string, blanks: string, tail: string, b1: Parts)
    requires Ended(fs, Run(st, text)) && Settled(f, Run(st, text), Build(f, st, b, text)) == b1 && Blank(blanks)
    ensures var s1 := Run(Run(st, text), blanks);
            var p1 := Build(f, Run(st, text), Build(f, st, b, text), blanks);
            && Ended(fs, s1) && Settled(f, s1, p1) == b1
            && Run(st, text + (blanks + tail)) == Run(s1, tail)
            && Build(f, st, b, text + (blanks + tail)) == Build(f, s1, p1, tail)
            && Run(s1, "") == s1 && Build(f, s1, p1, "") == p1
  {
    hide Step, Add, Settled, Build, Run;
    var s0, p0 := Run(st, text), Build(f, st, b, text);
    BlanksSettle(f, fs, s0, p0, blanks);
    BuildAppend(f, st, b, text, blanks + tail);
    RunAppend(st, text, blanks + tail);
    BuildAppend(f, s0, p0, blanks, tail);
    RunAppend(s0, blanks, tail);
    NothingBuilt(f, Run(s0, blanks), Build(f, s0, p0, blanks));
  }

  lemma CommaBuild(f: Printer, base: seq<Frame>, frame: Frame, st: State, b: Parts, s: string, b1: Parts)
    requires Ended(base + [frame], st) && Settled(f, st, b) == b1
    ensures var next := At(base + [frame], if frame == InObject then Key else JsonText.Value);
            Run(st, [','] + s) == Run(next, s) && Build(f, st, b, [','] + s) == Build(f, next, b1, s)
  {
    hide Step, Add, Settled, Build, Run;
    CommaStep(base, st, frame);
    EndedSteps(f, base + [frame], st, b, ',');
    RunCons(st, ',', s);
    BuildCons(f, st, b, ',', s);
  }

  lemma ColonAdds(f: Printer, fs: seq<Frame>, b: Parts)
    ensures Step(At(fs, Colon), ':') == At(fs, JsonText.Value) && Add(f, At(fs, Colon), b, ':') == b
  {
  }

  /** The blanks, the key, and the colon of a member. */
  lemma MemberHeadBuild(
    f: Printer, fs: seq<Frame>, st: State, levels: seq<Level>, entries: seq<Entry>, ms: Members, value: string)
    requires ms.Member? && ValidMembers(ms) && (st == At(fs, Key) || st == At(fs, KeyOrEnd))
    ensures Build(f, st, Ready(levels + [ObjectLevel(entries, [])], None),
                  ms.before + (['"'] + (UnitsText(ms.key) + (['"'] + (ms.colon + ([':'] + value))))))
            == Build(f, At(fs, JsonText.Value), Ready(levels + [ObjectLevel(entries, CodesOf(ms.key))], None), value)
  {
    hide Step, Add, Build, Run, UnitsText, CodesOf;
    var b := Ready(levels + [ObjectLevel(entries, [])], None);
    var b1 := Ready(levels + [ObjectLevel(entries, CodesOf(ms.key))], None);
    var key, rest := ['"'] + (UnitsText(ms.key) + ['"']), ms.colon + ([':'] + value);
    assert ['"'] + (UnitsText(ms.key) + (['"'] + rest)) == key + rest;
    BlanksBuild(f, fs, st.mode, b, ms.before);
    BuildAppend(f, st, b, ms.before, key + rest);
    TextBuild(f, fs, st, levels + [ObjectLevel(entries, [])], ms.key);
    TextRun(fs, st, ms.key);
    KeyReadInObject(levels, entries, CodesOf(ms.key));
    BuildAppend(f, st, b, key, rest);
    BlanksBuild(f, fs, Colon, b1, ms.colon);
    BuildAppend(f, At(fs, Colon), b1, ms.colon, [':'] + value);
    ColonAdds(f, fs, b1);
    BuildCons(f, At(fs, Colon), b1, ':', value);
  }

  lemma {:induction false} MembersBuild(
    f: Printer, base: seq<Frame>, st: State, levels: seq<Level>, entries: seq<Entry>, ms: Members)
    requires ms.Member? && ValidMembers(ms) &&
             (st == At(base + [InObject], Key) || st == At(base + [InObject], KeyOrEnd))
    ensures Settled(f, Run(st, WriteMembers(ms)),
            Build(f, st, Ready(levels + [ObjectLevel(entries, [])], None), WriteMembers(ms)))
            == Ready(levels + [ObjectLevel(DumpedMembers(entries, ms, f), [])], None)
    decreases ms, 0
  {
    hide Step, Add, Write, ValidValue, Dumped, Settled, HandleValue, Build, Run, UnitsText, CodesOf, Put, Blank;
    var fs, due := base + [InObject], At(base + [InObject], JsonText.Value);
    var tail := if ms.others.NoMembers? then "" else [','] + WriteMembers(ms.others);
    var value := ms.space + (Write(ms.value) + (ms.after + tail));
    var key := CodesOf(ms.key);
    var open := levels + [ObjectLevel(entries, key)];
    var more := Put(entries, key, Dumped(ms.value, f));
    var b1 := Ready(levels + [ObjectLevel(more, [])], None);
    MemberHeadRun(fs, st, ms, value);
    MemberHeadBuild(f, fs, st, levels, entries, ms, value);
    BlanksBuild(f, fs, JsonText.Value, Ready(open, None), ms.space);
    BuildAppend(f, due, Ready(open, None), ms.space, Write(ms.value) + (ms.after + tail));
    RunAppend(due, ms.space, Write(ms.value) + (ms.after + tail));
    ValueRun(fs, due, ms.value);
    ValueBuild(f, fs, due, open, ms.value);
    FinishInObject(levels, entries, key, Dumped(ms.value, f));
    ValueTail(f, fs, due, Ready(open, None), Write(ms.value), ms.after, tail, b1);
    if ms.others.Member? {
      CommaBuild(f, base, InObject, Run(Run(due, Write(ms.value)), ms.after),
                 Build(f, Run(due, Write(ms.value)), Build(f, due, Ready(open, None), Write(ms.value)), ms.after),
                 WriteMembers(ms.others), b1);
      MembersBuild(f, base, At(fs, Key), levels, more, ms.others);
    }
  }

  /** Parsing a text of the grammar and dumping it prints its tree. */
  lemma DumpIsDumped(f: Printer, before: string, v: Value, after: string)
    requires Blank(before) && ValidValue(v) && Blank(after)
    ensures var s := before + (Write(v) + after); WellFormed(s) && DumpOf(f, s) == Dumped(v, f)
  {
    GrammarIsAccepted(before, v, after);
    hide Step, Add, Write, ValidValue, Dumped, Settled, Build, Run, Blank;
    BlanksBuild(f, [], JsonText.Value, NOTHING, before);
    BuildAppend(f, START, NOTHING, before, Write(v) + after);
    RunAppend(START, before, Write(v) + after);
    ValueRun([], START, v);
    ValueBuild(f, [], START, [], v);
    ValueTail(f, [], START, NOTHING, Write(v), after, "", HandleValue([], Dumped(v, f)));
    assert after + "" == after;
  }
}
