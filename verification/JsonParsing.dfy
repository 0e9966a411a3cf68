/**
  Every text that the JSON automaton accepts is the text of a syntax tree: a parser that reads the
  tree off the front of an accepted text.
  */
module JsonParsing {
  import opened Base
  import opened JsonText
  import opened JsonGrammar

  predicate Accepts(st: State, s: string) { Accepting(Run(st, s)) }

  /** The first character of an accepted text is read without failure. */
  lemma Front(st: State, s: string)
    requires s != "" && Accepts(st, s)
    ensures st.At? && Step(st, s[0]).At? && Accepts(Step(st, s[0]), s[1..])
  {
    hide Step;
    assert s == [s[0]] + s[1..];
    RunCons(st, s[0], s[1..]);
    if Step(st, s[0]).Fail? { RunFail(s[1..]); }
    FailStays(s[0]);
  }

  lemma FailStays(c: char)
    ensures Step(Fail, c) == Fail
  {
  }

  /** A text that does not end at once. */
  lemma NotAtEnd(st: State, s: string)
    requires Accepts(st, s) && !Accepting(st)
    ensures s != ""
  {
  }

  /** In a state that is not accepting the text goes on. */
  lemma Next(st: State, s: string)
    requires Accepts(st, s) && !Accepting(st)
    ensures s != "" && s == [s[0]] + s[1..] && st.At? && Step(st, s[0]).At? && Accepts(Step(st, s[0]), s[1..])
  {
    NotAtEnd(st, s);
    Front(st, s);
  }

  lemma {:induction false} ReadBlanks(base: seq<Frame>, m: Mode, s: string) returns (ws: string, rest: string)
    requires Idle(m) && Accepts(At(base, m), s)
    ensures s == ws + rest && Blank(ws) && Accepts(At(base, m), rest) && (rest != "" ==> !IsBlank(rest[0]))
    decreases |s|
  {
    if s == "" || !IsBlank(s[0]) {
      ws, rest := "", s;
    } else {
      Front(At(base, m), s);
      hide Run;
      ws, rest := ReadBlanks(base, m, s[1..]);
      ws := [s[0]] + ws;
    }
  }

  // ---------------------------------------------------------------- scalars

  lemma {:induction false} ReadDigits(base: seq<Frame>, n: Number, s: string) returns (ds: string, rest: string)
    requires (n == Digits || n == Fraction || n == ExpDigits) && Accepts(At(base, Num(n)), s)
    ensures s == ds + rest && AllDigits(ds) && Accepts(At(base, Num(n)), rest) && (rest != "" ==> !IsDigit(rest[0]))
    decreases |s|
  {
    if s == "" || !IsDigit(s[0]) {
      ds, rest := "", s;
    } else {
      Front(At(base, Num(n)), s);
      hide Run;
      ds, rest := ReadDigits(base, n, s[1..]);
      ds := [s[0]] + ds;
    }
  }

  /** A complete number that does not go on leaves the text to what follows a value. */
  lemma NumberEnds(base: seq<Frame>, n: Number, s: string)
    requires Complete(n) && Accepts(At(base, Num(n)), s)
    requires s != "" ==>
             !IsDigit(s[0]) && (n == Zero || n == Digits ==> s[0] != '.') &&
             (n == ExpDigits || (s[0] != 'e' && s[0] != 'E'))
    ensures Accepts(At(base, After), s)
  {
    if s != "" {
      Front(At(base, Num(n)), s);
      assert s == [s[0]] + s[1..];
      assert Step(At(base, Num(n)), s[0]) == Step(At(base, After), s[0]);
      hide Step;
      RunCons(At(base, After), s[0], s[1..]);
    }
  }

  lemma FirstExponentDigit(base: seq<Frame>, from: Number, u: string)
    requires (from == Exp || from == ExpSign) && Accepts(At(base, Num(from)), u)
    requires from == Exp && u != "" ==> u[0] != '+' && u[0] != '-'
    ensures u != "" && u == [u[0]] + u[1..] && IsDigit(u[0]) && Accepts(At(base, Num(ExpDigits)), u[1..])
  {
    hide Accepts;
    Next(At(base, Num(from)), u);
  }

  lemma ReadExponentDigits(base: seq<Frame>, from: Number, u: string) returns (ds: string, rest: string)
    requires (from == Exp || from == ExpSign) && Accepts(At(base, Num(from)), u)
    requires from == Exp && u != "" ==> u[0] != '+' && u[0] != '-'
    ensures u == ds + rest && ds != "" && AllDigits(ds) && Accepts(At(base, After), rest)
  {
    hide Accepts, Step, Run;
    FirstExponentDigit(base, from, u);
    var more, after := ReadDigits(base, ExpDigits, u[1..]);
    NumberEnds(base, ExpDigits, after);
    ds, rest := [u[0]] + more, after;
  }

  lemma ExponentSign(base: seq<Frame>, t: string)
    requires Accepts(At(base, Num(Exp)), t)
    ensures t != "" && t == [t[0]] + t[1..]
    ensures t[0] == '+' || t[0] == '-' ==> Accepts(At(base, Num(ExpSign)), t[1..])
  {
    hide Accepts;
    Next(At(base, Num(Exp)), t);
  }

  lemma ReadExponentBody(base: seq<Frame>, t: string) returns (sign: string, ds: string, rest: string)
    requires Accepts(At(base, Num(Exp)), t)
    ensures t == sign + (ds + rest) && (sign == "" || sign == "+" || sign == "-") && ds != "" && AllDigits(ds)
    ensures Accepts(At(base, After), rest)
  {
    hide Accepts, Step, Run;
    ExponentSign(base, t);
    if t[0] == '+' || t[0] == '-' {
      sign := [t[0]];
      ds, rest := ReadExponentDigits(base, ExpSign, t[1..]);
    } else {
      sign := "";
      ds, rest := ReadExponentDigits(base, Exp, t);
      assert "" + (ds + rest) == ds + rest;
    }
  }

  lemma ExponentMark(base: seq<Frame>, n: Number, s: string)
    requires (n == Zero || n == Digits || n == Fraction) && Accepts(At(base, Num(n)), s)
    requires s != "" && (s[0] == 'e' || s[0] == 'E')
    ensures s == [s[0]] + s[1..] && Accepts(At(base, Num(Exp)), s[1..])
  {
    hide Accepts;
    Front(At(base, Num(n)), s);
  }

  lemma NoExponent(s: string)
    ensures s == ExponentText(None) + s
  {
  }

  lemma ExponentParts(mark: char, sign: string, ds: string, rest: string)
    requires (mark == 'e' || mark == 'E') && (sign == "" || sign == "+" || sign == "-") && ds != "" && AllDigits(ds)
    ensures [mark] + (sign + (ds + rest)) == ExponentText(Some(Exponent(mark, sign, ds))) + rest
    ensures ValidExponent(Exponent(mark, sign, ds))
  {
  }

  lemma ReadExponent(base: seq<Frame>, n: Number, s: string) returns (e: Option<Exponent>, rest: string)
    requires (n == Zero || n == Digits || n == Fraction) && Accepts(At(base, Num(n)), s)
    requires s != "" ==> !IsDigit(s[0]) && (n != Fraction ==> s[0] != '.')
    ensures s == ExponentText(e) + rest && (e.Some? ==> ValidExponent(e.value)) && Accepts(At(base, After), rest)
  {
    hide Accepts, Step, Run, ExponentText, ValidExponent, AllDigits;
    if s == "" || (s[0] != 'e' && s[0] != 'E') {
      NumberEnds(base, n, s);
      e, rest := None, s;
      NoExponent(s);
    } else {
      ExponentMark(base, n, s);
      var sign, ds, r := ReadExponentBody(base, s[1..]);
      rest := r;
      e := Some(Exponent(s[0], sign, ds));
      ExponentParts(s[0], sign, ds, rest);
    }
  }

  lemma FractionDot(base: seq<Frame>, n: Number, s: string)
    requires (n == Zero || n == Digits) && Accepts(At(base, Num(n)), s) && s != "" && s[0] == '.'
    ensures s == ['.'] + s[1..] && |s| >= 2 && s[1..] == [s[1]] + s[2..] && IsDigit(s[1])
    ensures Accepts(At(base, Num(Fraction)), s[2..])
  {
    hide Accepts;
    Front(At(base, Num(n)), s);
    Next(At(base, Num(Dot)), s[1..]);
    assert s[1..][1..] == s[2..];
  }

  lemma ReadFraction(base: seq<Frame>, n: Number, s: string)
    returns (f: Option<string>, e: Option<Exponent>, rest: string)
    requires (n == Zero || n == Digits) && Accepts(At(base, Num(n)), s) && (s != "" ==> !IsDigit(s[0]))
    ensures s == FractionText(f) + (ExponentText(e) + rest) && (f.Some? ==> f.value != "" && AllDigits(f.value))
    ensures (e.Some? ==> ValidExponent(e.value)) && Accepts(At(base, After), rest)
  {
    hide Accepts, Run, Step, ExponentText, ValidExponent;
    if s == "" || s[0] != '.' {
      f := None;
      e, rest := ReadExponent(base, n, s);
      assert "" + (ExponentText(e) + rest) == ExponentText(e) + rest;
    } else {
      FractionDot(base, n, s);
      var ds, after := ReadDigits(base, Fraction, s[2..]);
      e, rest := ReadExponent(base, Fraction, after);
      f := Some([s[1]] + ds);
      FractionParts(s[1], ds, after);
    }
  }

  lemma FractionParts(d: char, ds: string, after: string)
    ensures ['.'] + ([d] + (ds + after)) == FractionText(Some([d] + ds)) + after
  {
  }

  /** An unsigned number whose first character led to `n`. */
  lemma ReadUnsigned(base: seq<Frame>, n: Number, s: string) returns (v: Value, rest: string)
    requires s != "" && IsDigit(s[0]) && n == (if s[0] == '0' then Zero else Digits) &&
             Accepts(At(base, Num(n)), s[1..])
    ensures v.Number? && !v.minus && ValidValue(v) && s == Write(v) + rest && Accepts(At(base, After), rest)
  {
    hide Accepts, Run, Step, ExponentText, ValidExponent, FractionText;
    var ds, after := "", s[1..];
    if n == Digits {
      ds, after := ReadDigits(base, Digits, after);
    } else {
      ZeroStands(base, after);
      assert "" + after == after;
    }
    var f, e, r := ReadFraction(base, n, after);
    rest := r;
    v := Number(false, [s[0]] + ds, f, e);
    NumberParts(s[0], ds, FractionText(f), ExponentText(e), rest);
  }

  lemma ZeroStands(base: seq<Frame>, after: string)
    requires Accepts(At(base, Num(Zero)), after)
    ensures after != "" ==> !IsDigit(after[0])
  {
    hide Accepts;
    if after != "" { Front(At(base, Num(Zero)), after); }
  }

  lemma NumberParts(d: char, ds: string, f: string, e: string, rest: string)
    ensures [d] + (ds + (f + (e + rest))) == "" + ([d] + ds + (f + e)) + rest
  {
  }

  lemma LiteralFront(base: seq<Frame>, name: string, s: string)
    requires name != "" && Accepts(At(base, Lit(name)), s)
    ensures s != "" && s[0] == name[0] &&
            Accepts(if |name| == 1 then At(base, After) else At(base, Lit(name[1..])), s[1..])
  {
    hide Accepts;
    Next(At(base, Lit(name)), s);
  }

  lemma {:induction false} ReadLiteral(base: seq<Frame>, name: string, s: string) returns (rest: string)
    requires name != "" && Accepts(At(base, Lit(name)), s)
    ensures s == name + rest && Accepts(At(base, After), rest)
    decreases |name|
  {
    hide Run, Step, Accepts;
    LiteralFront(base, name, s);
    assert name == [name[0]] + name[1..] && s == [s[0]] + s[1..];
    if |name| == 1 { rest := s[1..]; } else { rest := ReadLiteral(base, name[1..], s[1..]); }
  }

  // ---------------------------------------------------------------- strings

  lemma HexDigitRead(base: seq<Frame>, isKey: bool, needLow: bool, s: string, i: nat)
    requires i < 3 && i <= |s| && Accepts(At(base, Str(isKey, Hex(s[..i]), needLow)), s[i..])
    ensures i < |s| && IsHex(s[i]) && Accepts(At(base, Str(isKey, Hex(s[..i + 1]), needLow)), s[i + 1..])
    ensures i == 0 && needLow ==> IsD(s[0])
    ensures i == 1 ==> if needLow then IsLowDigit(s[1]) else !(IsD(s[0]) && IsLowDigit(s[1]))
  {
    hide Accepts;
    Next(At(base, Str(isKey, Hex(s[..i]), needLow)), s[i..]);
    assert s[..i] + [s[i]] == s[..i + 1] && s[i..][1..] == s[i + 1..];
  }

  lemma FourDigits(s: string)
    requires |s| >= 4 && IsHex(s[0]) && IsHex(s[1]) && IsHex(s[2]) && IsHex(s[3])
    ensures AllHex(s[..4])
    ensures IsHigh(s[..4]) == (IsD(s[0]) && IsHighDigit(s[1])) && IsLow(s[..4]) == (IsD(s[0]) && IsLowDigit(s[1]))
  {
    hide IsHex, IsD, IsLowDigit, IsHighDigit;
  }

  lemma ReadHex(base: seq<Frame>, isKey: bool, needLow: bool, s: string)
    requires Accepts(At(base, Str(isKey, Hex(""), needLow)), s)
    ensures |s| >= 4 && AllHex(s[..4]) && (if needLow then IsLow(s[..4]) else !IsLow(s[..4]))
    ensures Accepts(At(base, Str(isKey, Plain, !needLow && IsHigh(s[..4]))), s[4..])
  {
    hide Accepts, Step, Run, IsHex, IsD, IsLowDigit, IsHighDigit, AllHex, IsHigh, IsLow;
    assert s[..0] == "" && s[0..] == s;
    HexDigitRead(base, isKey, needLow, s, 0);
    HexDigitRead(base, isKey, needLow, s, 1);
    HexDigitRead(base, isKey, needLow, s, 2);
    LastHexDigit(base, isKey, needLow, s);
    FourDigits(s);
  }

  lemma LastHexDigit(base: seq<Frame>, isKey: bool, needLow: bool, s: string)
    requires |s| >= 3 && Accepts(At(base, Str(isKey, Hex(s[..3]), needLow)), s[3..])
    ensures |s| >= 4 && IsHex(s[3])
    ensures Accepts(At(base, Str(isKey, Plain, !needLow && IsD(s[0]) && IsHighDigit(s[1]))), s[4..])
  {
    hide Accepts;
    Next(At(base, Str(isKey, Hex(s[..3]), needLow)), s[3..]);
    assert s[3..][1..] == s[4..];
  }

  /** What a text inside a string starts with. */
  lemma StringFront(base: seq<Frame>, isKey: bool, s: string)
    requires Accepts(At(base, Str(isKey, Plain, false)), s)
    ensures s != "" && s == [s[0]] + s[1..]
    ensures s[0] == '"' ==> Accepts(At(base, if isKey then Colon else After), s[1..])
    ensures s[0] == '\\' ==> Accepts(At(base, Str(isKey, Escaped, false)), s[1..])
    ensures s[0] != '"' && s[0] != '\\' ==> s[0] >= ' ' && Accepts(At(base, Str(isKey, Plain, false)), s[1..])
  {
    hide Accepts;
    Next(At(base, Str(isKey, Plain, false)), s);
  }

  lemma EscapeFront(base: seq<Frame>, isKey: bool, s: string)
    requires Accepts(At(base, Str(isKey, Escaped, false)), s)
    ensures s != "" && s == [s[0]] + s[1..]
    ensures s[0] == 'u' ==> Accepts(At(base, Str(isKey, Hex(""), false)), s[1..])
    ensures s[0] != 'u' ==> s[0] in "\"\\/bfnrt" && Accepts(At(base, Str(isKey, Plain, false)), s[1..])
  {
    hide Accepts;
    Next(At(base, Str(isKey, Escaped, false)), s);
  }

  /** Behind a high surrogate only the escape of a low one can follow. */
  lemma LowFront(base: seq<Frame>, isKey: bool, s: string)
    requires Accepts(At(base, Str(isKey, Plain, true)), s)
    ensures |s| >= 2 && s == ['\\'] + (['u'] + s[2..]) && Accepts(At(base, Str(isKey, Hex(""), true)), s[2..])
  {
    hide Accepts;
    Next(At(base, Str(isKey, Plain, true)), s);
    Next(At(base, Str(isKey, Escaped, true)), s[1..]);
    assert s[1..][1..] == s[2..];
  }

  /** The piece behind `\u`. */
  lemma ReadCode(base: seq<Frame>, isKey: bool, s: string) returns (u: Unit, rest: string)
    requires Accepts(At(base, Str(isKey, Hex(""), false)), s)
    ensures ValidUnit(u) && ['\\'] + (['u'] + s) == UnitText(u) + rest && |rest| < |s|
    ensures Accepts(At(base, Str(isKey, Plain, false)), rest)
  {
    hide Accepts, Run, Step, AllHex, IsLow, IsHigh, UnitText;
    ReadHex(base, isKey, false, s);
    var h, after := s[..4], s[4..];
    assert s == h + after;
    if !IsHigh(h) {
      u, rest := Code(h), after;
      CodeParts(h, after);
    } else {
      LowFront(base, isKey, after);
      ReadHex(base, isKey, true, after[2..]);
      var low := after[2..][..4];
      rest := after[2..][4..];
      u := Pair(h, low);
      PairParts(h, low, rest);
      assert after[2..] == low + rest;
    }
  }

  lemma CodeParts(h: string, rest: string)
    ensures ['\\'] + (['u'] + (h + rest)) == UnitText(Code(h)) + rest
  {
  }

  lemma PairParts(h: string, low: string, rest: string)
    ensures ['\\'] + (['u'] + (h + (['\\'] + (['u'] + (low + rest))))) == UnitText(Pair(h, low)) + rest
  {
  }

  /** One piece of a string that goes on. */
  lemma ReadUnit(base: seq<Frame>, isKey: bool, s: string) returns (u: Unit, rest: string)
    requires Accepts(At(base, Str(isKey, Plain, false)), s) && s != "" && s[0] != '"'
    ensures ValidUnit(u) && s == UnitText(u) + rest && |rest| < |s| && Accepts(At(base, Str(isKey, Plain, false)), rest)
  {
    hide Accepts, Run, Step;
    StringFront(base, isKey, s);
    if s[0] != '\\' {
      u, rest := Char(s[0]), s[1..];
    } else {
      EscapeFront(base, isKey, s[1..]);
      var t := s[1..];
      if t[0] == 'u' {
        u, rest := ReadCode(base, isKey, t[1..]);
      } else {
        u, rest := Short(t[0]), t[1..];
        assert s == ['\\'] + ([t[0]] + rest);
      }
    }
  }

  /** The rest of a string, its closing quote, and what follows. */
  lemma {:induction false} ReadUnits(base: seq<Frame>, isKey: bool, s: string) returns (us: seq<Unit>, rest: string)
    requires Accepts(At(base, Str(isKey, Plain, false)), s)
    ensures ValidUnits(us) && s == UnitsText(us) + (['"'] + rest) && |rest| < |s|
    ensures Accepts(At(base, if isKey then Colon else After), rest)
    decreases |s|
  {
    hide Accepts, Run, Step, ValidUnit, UnitText;
    StringFront(base, isKey, s);
    if s[0] == '"' {
      us, rest := [], s[1..];
      assert UnitsText(us) == "";
    } else {
      var u, t := ReadUnit(base, isKey, s);
      var more, r := ReadUnits(base, isKey, t);
      us, rest := [u] + more, r;
      UnitsCons(u, more);
      assert UnitText(u) + (UnitsText(more) + (['"'] + rest)) == UnitText(u) + UnitsText(more) + (['"'] + rest);
    }
  }

  lemma UnitsCons(u: Unit, more: seq<Unit>)
    ensures UnitsText([u] + more) == UnitText(u) + UnitsText(more)
  {
    assert ([u] + more)[1..] == more;
  }

  // ---------------------------------------------------------------- values

  /** What the first character of a value tells. */
  lemma ValueFront(base: seq<Frame>, c: char, t: string)
    requires BeginValue(base, c).At? && Accepts(BeginValue(base, c), t)
    ensures c == '{' ==> Accepts(At(base + [InObject], KeyOrEnd), t)
    ensures c == '[' ==> Accepts(At(base + [InArray], ValueOrEnd), t)
    ensures c == '"' ==> Accepts(At(base, Str(false, Plain, false)), t)
    ensures c == '-' ==> Accepts(At(base, Num(Minus)), t)
    ensures IsDigit(c) ==> Accepts(At(base, Num(if c == '0' then Zero else Digits)), t)
    ensures c == 't' ==> Accepts(At(base, Lit("rue")), t)
    ensures c == 'f' ==> Accepts(At(base, Lit("alse")), t)
    ensures c == 'n' ==> Accepts(At(base, Lit("ull")), t)
    ensures c in "{[\"-tfn" || IsDigit(c)
  {
    hide Accepts;
  }

  lemma MinusFront(base: seq<Frame>, t: string)
    requires Accepts(At(base, Num(Minus)), t)
    ensures t != "" && IsDigit(t[0]) && Accepts(At(base, Num(if t[0] == '0' then Zero else Digits)), t[1..])
  {
    hide Accepts;
    Next(At(base, Num(Minus)), t);
  }

  lemma ReadText(base: seq<Frame>, t: string) returns (v: Value, rest: string)
    requires Accepts(At(base, Str(false, Plain, false)), t)
    ensures ValidValue(v) && ['"'] + t == Write(v) + rest && |rest| <= |t| && Accepts(At(base, After), rest)
  {
    hide Accepts, Run, Step, ValidUnits, UnitsText;
    var us, r := ReadUnits(base, false, t);
    rest := r;
    v := Text(us);
    assert Write(v) + rest == ['"'] + (UnitsText(us) + (['"'] + rest));
  }

  lemma ReadNegative(base: seq<Frame>, t: string) returns (v: Value, rest: string)
    requires Accepts(At(base, Num(Minus)), t)
    ensures ValidValue(v) && ['-'] + t == Write(v) + rest && |rest| <= |t| && Accepts(At(base, After), rest)
  {
    hide Accepts, Run, Step, ValidInt, ExponentText, FractionText, ValidExponent, AllDigits, Write;
    MinusFront(base, t);
    var u, r := ReadUnsigned(base, if t[0] == '0' then Zero else Digits, t);
    rest := r;
    v := u.(minus := true);
    Negated(u, v);
  }

  lemma Negated(u: Value, v: Value)
    requires u.Number? && !u.minus && v == u.(minus := true)
    ensures Write(v) == ['-'] + Write(u)
  {
    hide ExponentText, FractionText;
  }

  lemma ReadWord(base: seq<Frame>, c: char, tail: string, t: string) returns (v: Value, rest: string)
    requires ((c == 't' && tail == "rue") || (c == 'f' && tail == "alse") || (c == 'n' && tail == "ull"))
    requires Accepts(At(base, Lit(tail)), t)
    ensures ValidValue(v) && [c] + t == Write(v) + rest && |rest| <= |t| && Accepts(At(base, After), rest)
  {
    hide Accepts, Run, Step, ValidValue, Write;
    rest := ReadLiteral(base, tail, t);
    v := Literal([c] + tail);
    WordIsLiteral(c, tail);
    assert [c] + (tail + rest) == [c] + tail + rest;
  }

  lemma WordIsLiteral(c: char, tail: string)
    requires (c == 't' && tail == "rue") || (c == 'f' && tail == "alse") || (c == 'n' && tail == "ull")
    ensures ValidValue(Literal([c] + tail)) && Write(Literal([c] + tail)) == [c] + tail
  {
    assert [c] + tail == if c == 't' then "true" else if c == 'f' then "false" else "null";
  }

  lemma ReadScalar(base: seq<Frame>, c: char, t: string) returns (v: Value, rest: string)
    requires BeginValue(base, c).At? && Accepts(BeginValue(base, c), t) && c != '{' && c != '['
    ensures ValidValue(v) && [c] + t == Write(v) + rest && |rest| <= |t| && Accepts(At(base, After), rest)
  {
    ValueFront(base, c, t);
    hide Accepts, Run, Step, BeginValue, ValidValue, Write;
    if c == '"' {
      v, rest := ReadText(base, t);
    } else if c == '-' {
      v, rest := ReadNegative(base, t);
    } else if IsDigit(c) {
      assert ([c] + t)[1..] == t;
      v, rest := ReadUnsigned(base, if c == '0' then Zero else Digits, [c] + t);
      ShorterRest(c, t, v, rest);
    } else {
      v, rest := ReadWord(base, c, if c == 't' then "rue" else if c == 'f' then "alse" else "ull", t);
    }
  }

  lemma ShorterRest(c: char, t: string, v: Value, rest: string)
    requires v.Number? && ValidValue(v) && [c] + t == Write(v) + rest
    ensures |rest| <= |t|
  {
    assert |[c] + t| == |Write(v)| + |rest|;
  }

  // ---------------------------------------------------------------- containers

  /** Behind a value in a container, past the blanks: a comma or the end of the container. */
  lemma AfterFront(base: seq<Frame>, f: Frame, s: string)
    requires Accepts(At(base + [f], After), s) && (s != "" ==> !IsBlank(s[0]))
    ensures s != "" && s == [s[0]] + s[1..]
    ensures s[0] == ',' || s[0] == (if f == InObject then '}' else ']')
    ensures s[0] == ',' ==> Accepts(At(base + [f], if f == InObject then Key else JsonText.Value), s[1..])
    ensures s[0] != ',' ==> Accepts(At(base, After), s[1..])
  {
    hide Accepts;
    Next(At(base + [f], After), s);
    assert Pop(base + [f]) == base;
  }

  lemma DueFront(base: seq<Frame>, m: Mode, s: string)
    requires (m == JsonText.Value || m == ValueOrEnd) && Accepts(At(base + [InArray], m), s) &&
             (s != "" ==> !IsBlank(s[0]))
    ensures s != "" && s == [s[0]] + s[1..]
    ensures m == ValueOrEnd && s[0] == ']' ==> Accepts(At(base, After), s[1..])
    ensures m == JsonText.Value || s[0] != ']' ==>
            BeginValue(base + [InArray], s[0]).At? && Accepts(BeginValue(base + [InArray], s[0]), s[1..])
  {
    hide Accepts, BeginValue;
    Next(At(base + [InArray], m), s);
    assert Pop(base + [InArray]) == base;
  }

  lemma KeyFront(base: seq<Frame>, m: Mode, s: string)
    requires (m == Key || m == KeyOrEnd) && Accepts(At(base + [InObject], m), s) && (s != "" ==> !IsBlank(s[0]))
    ensures s != "" && s == [s[0]] + s[1..]
    ensures s[0] == '"' || (m == KeyOrEnd && s[0] == '}')
    ensures s[0] == '"' ==> Accepts(At(base + [InObject], Str(true, Plain, false)), s[1..])
    ensures s[0] == '}' ==> Accepts(At(base, After), s[1..])
  {
    hide Accepts;
    Next(At(base + [InObject], m), s);
    assert Pop(base + [InObject]) == base;
  }

  lemma ColonFront(base: seq<Frame>, s: string)
    requires Accepts(At(base, Colon), s) && (s != "" ==> !IsBlank(s[0]))
    ensures s != "" && s[0] == ':' && s == [':'] + s[1..] && Accepts(At(base, JsonText.Value), s[1..])
  {
    hide Accepts;
    Next(At(base, Colon), s);
  }

  lemma MemberValueFront(base: seq<Frame>, s: string)
    requires Accepts(At(base, JsonText.Value), s) && (s != "" ==> !IsBlank(s[0]))
    ensures s != "" && s == [s[0]] + s[1..] && BeginValue(base, s[0]).At? && Accepts(BeginValue(base, s[0]), s[1..])
  {
    hide Accepts, BeginValue;
    Next(At(base, JsonText.Value), s);
  }

  lemma ArrayParts(ws: string, es: Elems, rest: string)
    ensures ['['] + (ws + ([']'] + rest)) == Write(Array(ws, NoElems)) + rest
    ensures es.Elem? ==> ['['] + (WriteElems(es) + ([']'] + rest)) == Write(Array("", es)) + rest
  {
    hide WriteElems;
  }

  lemma ObjectParts(ws: string, ms: Members, rest: string)
    ensures ['{'] + (ws + (['}'] + rest)) == Write(Object(ws, NoMembers)) + rest
    ensures ms.Member? ==> ['{'] + (WriteMembers(ms) + (['}'] + rest)) == Write(Object("", ms)) + rest
  {
    hide WriteMembers;
  }

  /** A value, and what follows it. */
  lemma {:induction false} ReadValue(base: seq<Frame>, c: char, t: string) returns (v: Value, rest: string)
    requires BeginValue(base, c).At? && Accepts(BeginValue(base, c), t)
    ensures ValidValue(v) && [c] + t == Write(v) + rest && |rest| <= |t| && Accepts(At(base, After), rest)
    decreases |t|, 2
  {
    ValueFront(base, c, t);
    hide Accepts, Run, Step, BeginValue, Write, ValidValue;
    if c == '[' {
      v, rest := ReadArray(base, t);
    } else if c == '{' {
      v, rest := ReadObject(base, t);
    } else {
      v, rest := ReadScalar(base, c, t);
    }
  }

  lemma {:induction false} ReadArray(base: seq<Frame>, t: string) returns (v: Value, rest: string)
    requires Accepts(At(base + [InArray], ValueOrEnd), t)
    ensures ValidValue(v) && ['['] + t == Write(v) + rest && |rest| <= |t| && Accepts(At(base, After), rest)
    decreases |t|, 1
  {
    hide Accepts, Run, Step, BeginValue, Write, WriteElems;
    var ws, r := ReadBlanks(base + [InArray], ValueOrEnd, t);
    DueFront(base, ValueOrEnd, r);
    if r[0] == ']' {
      v, rest := Array(ws, NoElems), r[1..];
      ArrayParts(ws, NoElems, rest);
    } else {
      var es, r' := ReadElems(base, ws, r);
      v, rest := Array("", es), r';
      ArrayParts("", es, rest);
    }
  }

  lemma {:induction false} ReadObject(base: seq<Frame>, t: string) returns (v: Value, rest: string)
    requires Accepts(At(base + [InObject], KeyOrEnd), t)
    ensures ValidValue(v) && ['{'] + t == Write(v) + rest && |rest| <= |t| && Accepts(At(base, After), rest)
    decreases |t|, 1
  {
    hide Accepts, Run, Step, BeginValue, Write, WriteMembers;
    var ws, r := ReadBlanks(base + [InObject], KeyOrEnd, t);
    KeyFront(base, KeyOrEnd, r);
    if r[0] == '}' {
      v, rest := Object(ws, NoMembers), r[1..];
      ObjectParts(ws, NoMembers, rest);
    } else {
      var ms, r' := ReadMembers(base, ws, r);
      v, rest := Object("", ms), r';
      ObjectParts("", ms, rest);
    }
  }

  /** Elements up to the end of an array. */
  lemma {:induction false} ReadElems(base: seq<Frame>, ws: string, s: string) returns (es: Elems, rest: string)
    requires s != "" && Blank(ws)
    requires BeginValue(base + [InArray], s[0]).At? && Accepts(BeginValue(base + [InArray], s[0]), s[1..])
    ensures es.Elem? && ValidElems(es) && ws + s == WriteElems(es) + ([']'] + rest) && |rest| < |s| &&
            Accepts(At(base, After), rest)
    decreases |s|, 0
  {
    var b := base + [InArray];
    hide Accepts, Run, Step, BeginValue, Write, ValidValue;
    assert s == [s[0]] + s[1..];
    var v, r := ReadValue(b, s[0], s[1..]);
    var after, r2 := ReadBlanks(b, After, r);
    AfterFront(base, InArray, r2);
    if r2[0] == ']' {
      es, rest := Elem(ws, v, after, NoElems), r2[1..];
      ElemsEnd(es, ws, v, after, rest);
    } else {
      var ws', r3 := ReadBlanks(b, JsonText.Value, r2[1..]);
      DueFront(base, JsonText.Value, r3);
      var more, r4 := ReadElems(base, ws', r3);
      es, rest := Elem(ws, v, after, more), r4;
      ElemsMore(es, ws, v, after, more, rest);
    }
  }

  lemma ElemsEnd(es: Elems, ws: string, v: Value, after: string, rest: string)
    requires es == Elem(ws, v, after, NoElems)
    ensures ws + (Write(v) + (after + ([']'] + rest))) == WriteElems(es) + ([']'] + rest)
  {
    hide Write;
    assert after + "" == after;
  }

  lemma ElemsMore(es: Elems, ws: string, v: Value, after: string, more: Elems, rest: string)
    requires es == Elem(ws, v, after, more) && more.Elem?
    ensures ws + (Write(v) + (after + ([','] + (WriteElems(more) + ([']'] + rest))))) == WriteElems(es) + ([']'] + rest)
  {
    hide Write;
  }

  /** Members up to the end of an object. */
  lemma {:induction false} ReadMembers(base: seq<Frame>, ws: string, s: string) returns (ms: Members, rest: string)
    requires s != "" && s[0] == '"' && Blank(ws) && Accepts(At(base + [InObject], Str(true, Plain, false)), s[1..])
    ensures ms.Member? && ValidMembers(ms) && ws + s == WriteMembers(ms) + (['}'] + rest) && |rest| < |s| &&
            Accepts(At(base, After), rest)
    decreases |s|, 0
  {
    var b := base + [InObject];
    hide Accepts, Run, Step, BeginValue, Write, ValidValue, UnitsText, ValidUnits;
    assert s == ['"'] + s[1..];
    var key, r := ReadUnits(b, true, s[1..]);
    var colon, r1 := ReadBlanks(b, Colon, r);
    ColonFront(b, r1);
    var space, r2 := ReadBlanks(b, JsonText.Value, r1[1..]);
    MemberValueFront(b, r2);
    var v, r3 := ReadValue(b, r2[0], r2[1..]);
    var after, r4 := ReadBlanks(b, After, r3);
    AfterFront(base, InObject, r4);
    if r4[0] == '}' {
      ms, rest := Member(ws, key, colon, space, v, after, NoMembers), r4[1..];
      MembersEnd(ms, rest);
    } else {
      var ws', r5 := ReadBlanks(b, Key, r4[1..]);
      KeyFront(base, Key, r5);
      var more, r6 := ReadMembers(base, ws', r5);
      ms, rest := Member(ws, key, colon, space, v, after, more), r6;
      MembersMore(ms, rest);
    }
  }

  lemma MembersEnd(ms: Members, rest: string)
    requires ms.Member? && ms.others == NoMembers
    ensures ms.before + (['"'] +
            (UnitsText(ms.key) +
            (['"'] + (ms.colon + ([':'] + (ms.space + (Write(ms.value) + (ms.after + (['}'] + rest)))))))))
            == WriteMembers(ms) + (['}'] + rest)
  {
    hide Write, UnitsText;
    assert ms.after + "" == ms.after;
  }

  lemma MembersMore(ms: Members, rest: string)
    requires ms.Member? && ms.others.Member?
    ensures ms.before + (['"'] + (UnitsText(ms.key) + (['"'] + (ms.colon + ([':'] + (ms.space + (Write(ms.value)
              + (ms.after + ([','] + (WriteMembers(ms.others) + (['}'] + rest)))))))))))
            == WriteMembers(ms) + (['}'] + rest)
  {
    hide Write, UnitsText;
  }

  /** An accepted text is the text of a tree. */
  lemma AcceptedIsGrammar(s: string) returns (before: string, v: Value, after: string)
    requires WellFormed(s)
    ensures Blank(before) && ValidValue(v) && Blank(after) && s == before + (Write(v) + after)
  {
    hide Run, Step, BeginValue, Write, ValidValue;
    var ws, r := ReadBlanks([], JsonText.Value, s);
    MemberValueFront([], r);
    var u, r2 := ReadValue([], r[0], r[1..]);
    var ws2, r3 := ReadBlanks([], After, r2);
    NothingBehind(r3);
    before, v, after := ws, u, ws2;
  }

  lemma NothingBehind(s: string)
    requires Accepts(At([], After), s) && (s != "" ==> !IsBlank(s[0]))
    ensures s == ""
  {
    hide Accepts;
    if s != "" { Front(At([], After), s); }
  }

  ghost predicate InGrammar(s: string) {
    exists before, v, after :: Blank(before) && ValidValue(v) && Blank(after) && s == before + (Write(v) + after)
  }

  /** The reading automaton accepts exactly the texts of the grammar. */
  lemma AcceptedIffGrammar(s: string)
    ensures WellFormed(s) <==> InGrammar(s)
  {
    hide WellFormed, Write, ValidValue;
    if WellFormed(s) { var before, v, after := AcceptedIsGrammar(s); }
    if InGrammar(s) {
      var before, v, after :| Blank(before) && ValidValue(v) && Blank(after) && s == before + (Write(v) + after);
      GrammarIsAccepted(before, v, after);
    }
  }
}
