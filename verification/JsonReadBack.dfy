/**
  Strings that the JSON library prints are read back: whatever a string holds, its dump is a JSON
  string with exactly these code points.
  */
module JsonReadBack {
  import opened Base
  import opened JsonStrings
  import opened JsonGrammar
  import opened JsonDump
  import T = JsonText

  /** Code points that can stand in a text. */
  predicate IsScalar(n: Code) { !(0xD800 <= n < 0xE000) }

  predicate AllScalars(cs: seq<Code>) { forall i :: 0 <= i < |cs| ==> IsScalar(cs[i]) }

  function Four(n: nat): string
    requires n < 0x1_0000
  {
    Hex4(n)[2..]
  }

  lemma DigitIs(n: nat)
    requires n < 16
    ensures T.IsHex(HexDigit(n)) && HexDigitValue(HexDigit(n)) == n
  {
  }

  lemma FourDigits(n: nat)
    requires n < 0x1_0000
    ensures Four(n) == [HexDigit(n / 0x1000), HexDigit(n / 0x100 % 0x10), HexDigit(n / 0x10 % 0x10), HexDigit(n % 0x10)]
    ensures Hex4(n) == ['\\'] + (['u'] + Four(n))
  {
    hide HexDigit;
  }

  lemma DigitSum(n: nat)
    requires n < 0x1_0000
    ensures 0x1000 * (n / 0x1000) + 0x100 * (n / 0x100 % 0x10) + 0x10 * (n / 0x10 % 0x10) + n % 0x10 == n
  {
    var p := n / 0x10;
    var q := n / 0x100;
    assert q == p / 0x10 && n / 0x1000 == q / 0x10;
    assert n == 0x10 * p + n % 0x10 && p == 0x10 * q + p % 0x10 && q == 0x10 * (q / 0x10) + q % 0x10;
  }

  lemma FourIs(n: nat)
    requires n < 0x1_0000
    ensures AllHex(Four(n)) && HexNumber(Four(n)) == n && Hex4(n) == ['\\'] + (['u'] + Four(n))
  {
    hide HexDigit, HexDigitValue, T.IsHex, Four, Hex4;
    FourDigits(n);
    DigitIs(n / 0x1000);
    DigitIs(n / 0x100 % 0x10);
    DigitIs(n / 0x10 % 0x10);
    DigitIs(n % 0x10);
    DigitSum(n);
  }

  /** Whether a digit is one of the second digits of a surrogate, as a number. */
  lemma SurrogateDigits(a: char, b: char)
    requires T.IsHex(a) && T.IsHex(b)
    ensures T.IsD(a) <==> HexDigitValue(a) == 13
    ensures T.IsHighDigit(b) <==> 8 <= HexDigitValue(b) < 12
    ensures T.IsLowDigit(b) <==> 12 <= HexDigitValue(b)
  {
  }

  /** The first two digits tell surrogates from other numbers. */
  lemma SurrogateIff(h: string)
    requires AllHex(h)
    ensures IsHigh(h) <==> 0xD800 <= HexNumber(h) < 0xDC00
    ensures IsLow(h) <==> 0xDC00 <= HexNumber(h) < 0xE000
  {
    hide HexDigitValue, T.IsHex, T.IsD, T.IsHighDigit, T.IsLowDigit;
    SurrogateDigits(h[0], h[1]);
  }

  /** The unit that is printed for a character. */
  function CharUnit(c: char): Unit {
    if c == '"' || c == '\\' then Short(c)
    else if c == '\n' then Short('n')
    else if c == '\r' then Short('r')
    else if c == '\t' then Short('t')
    else if c == 8 as char then Short('b')
    else if c == 12 as char then Short('f')
    else if c < ' ' then Unit.Code(Four(c as nat))
    else Char(c)
  }

  lemma CharReadsBack(c: char)
    ensures ValidUnit(CharUnit(c)) && UnitText(CharUnit(c)) == EscapeChar(c) && CodeOf(CharUnit(c)) == c as int
  {
    if c < ' ' && CharUnit(c).Code? {
      ControlText(c);
      FourIs(c as nat);
      SurrogateIff(Four(c as nat));
      hide Four, Hex4, HexNumber, AllHex, IsHigh, IsLow, HexDigit;
    }
  }

  lemma ControlText(c: char)
    requires c < ' '
    ensures Hex4(c as nat) == "\\u00" + [HexDigit(c as int / 16), HexDigit(c as int % 16)]
  {
    assert HexDigit(0) == '0';
  }

  function CodeUnit(n: Code): Unit
    requires IsScalar(n)
  {
    if n < 0x7F then CharUnit(n as char)
    else if n <= 0xFFFF then Unit.Code(Four(n))
    else Pair(Four(0xD7C0 + n / 0x400), Four(0xDC00 + n % 0x400))
  }

  lemma CodeReadsBack(n: Code)
    requires IsScalar(n)
    ensures ValidUnit(CodeUnit(n)) && UnitText(CodeUnit(n)) == DumpCode(n) && CodeOf(CodeUnit(n)) == n
  {
    hide Four, Hex4, HexNumber, AllHex, EscapeChar, CharUnit, IsHigh, IsLow;
    if n < 0x7F {
      CharReadsBack(n as char);
    } else if n <= 0xFFFF {
      FourIs(n);
      SurrogateIff(Four(n));
    } else {
      var high, low := 0xD7C0 + n / 0x400, 0xDC00 + n % 0x400;
      FourIs(high);
      FourIs(low);
      SurrogateIff(Four(high));
      SurrogateIff(Four(low));
    }
  }

  lemma {:induction false} UnitsSnoc(us: seq<Unit>, u: Unit)
    ensures UnitsText(us + [u]) == UnitsText(us) + UnitText(u)
    decreases |us|
  {
    if us == [] {
      assert ([] + [u])[1..] == [];
    } else {
      assert (us + [u])[1..] == us[1..] + [u];
      UnitsSnoc(us[1..], u);
    }
  }

  lemma AddUnit(us: seq<Unit>, u: Unit)
    requires ValidUnits(us) && ValidUnit(u)
    ensures ValidUnits(us + [u]) && CodesOf(us + [u]) == CodesOf(us) + [CodeOf(u)]
    ensures UnitsText(us + [u]) == UnitsText(us) + UnitText(u)
  {
    hide ValidUnit, CodeOf, UnitText;
    UnitsSnoc(us, u);
  }

  lemma NoUnits()
    ensures ValidUnits([]) && UnitsText([]) == "" && CodesOf([]) == []
  {
  }

  /** Printing a string in ASCII and reading it gives back its code points. */
  lemma {:induction false} DumpReadsBack(cs: seq<Code>) returns (us: seq<Unit>)
    requires AllScalars(cs)
    ensures ValidUnits(us) && UnitsText(us) == DumpCodes(cs) && CodesOf(us) == cs
    decreases |cs|
  {
    hide UnitText, UnitsText, DumpCode, CodeOf, CodesOf, ValidUnit, ValidUnits, CodeUnit;
    if cs == [] {
      us := [];
      NoUnits();
    } else {
      var init, last := cs[..|cs| - 1], cs[|cs| - 1];
      var before := DumpReadsBack(init);
      CodeReadsBack(last);
      AddUnit(before, CodeUnit(last));
      us := before + [CodeUnit(last)];
    }
  }

  /** The numbers of the characters. */
  function Numbers(s: string): (r: seq<Code>)
    ensures |r| == |s| && forall i :: 0 <= i < |s| ==> r[i] == s[i] as int
  {
    seq(|s|, i requires 0 <= i < |s| => s[i] as int)
  }

  lemma NumbersSnoc(s: string, c: char)
    ensures Numbers(s + [c]) == Numbers(s) + [c as int]
  {
  }

  /** The same for strings that are printed as they are above ASCII. */
  lemma {:induction false} EscapedReadsBack(s: string) returns (us: seq<Unit>)
    ensures ValidUnits(us) && UnitsText(us) == Escaped(s) && CodesOf(us) == Numbers(s)
    decreases |s|
  {
    hide UnitText, UnitsText, EscapeChar, CodeOf, CodesOf, ValidUnit, ValidUnits, CharUnit, Numbers;
    if s == "" {
      us := [];
      NoUnits();
    } else {
      var init, last := s[..|s| - 1], s[|s| - 1];
      assert s == init + [last];
      var before := EscapedReadsBack(init);
      CharReadsBack(last);
      AddUnit(before, CharUnit(last));
      NumbersSnoc(init, last);
      us := before + [CharUnit(last)];
    }
  }

  /** So a printed string is the text of a JSON string with the same characters. */
  lemma DumpedStringReads(s: string) returns (us: seq<Unit>)
    ensures ValidUnits(us) && Write(Text(us)) == Dump(s) && CodesOf(us) == Numbers(s)
  {
    hide Escaped, UnitsText, CodesOf, ValidUnits, Numbers;
    us := EscapedReadsBack(s);
    assert "\"" == ['"'];
  }

  lemma UnitIsScalar(u: Unit)
    requires ValidUnit(u)
    ensures IsScalar(CodeOf(u))
  {
    match u
    case Char(_) =>
    case Short(_) =>
    case Code(hex) => SurrogateIff(hex);
    case Pair(high, low) => SurrogateRange(high, low);
  }

  /** A string that was read and printed is read as the same string again. */
  lemma ReprintedReads(us: seq<Unit>) returns (vs: seq<Unit>)
    requires ValidUnits(us)
    ensures ValidUnits(vs) && Write(Text(vs)) == Quoted(CodesOf(us)) && CodesOf(vs) == CodesOf(us)
  {
    forall i | 0 <= i < |us| ensures IsScalar(CodesOf(us)[i]) { UnitIsScalar(us[i]); }
    hide UnitsText, CodeOf, CodesOf, ValidUnits, DumpCodes;
    vs := DumpReadsBack(CodesOf(us));
    assert ['"'] + (DumpCodes(CodesOf(us)) + ['"']) == ['"'] + DumpCodes(CodesOf(us)) + ['"'];
  }
}
