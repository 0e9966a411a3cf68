/**
  What healing puts in front of the marker, as it is printed: verbatim, behind the print of what was
  kept, unless it fills up the escape of a printable ASCII character.
  */
module JsonLead {
  import opened JsonStrings
  import opened JsonText
  import opened JsonSax
  import opened JsonCompletions
  import opened JsonEscapes
  import opened JsonHealing
  import opened JsonDump
  import B = JsonBuilder
  import opened JsonDumping
  import opened JsonOpen
  import G = JsonGrammar

  // ---------------------------------------------------------------- escapes as they are printed

  function LowerChar(c: char): char { if 'A' <= c <= 'F' then (c as int + 32) as char else c }

  function Lower(h: string): (r: string)
    ensures |r| == |h| && forall i :: 0 <= i < |h| ==> r[i] == LowerChar(h[i])
  {
    seq(|h|, i requires 0 <= i < |h| => LowerChar(h[i]))
  }

  lemma DigitPrinted(c: char)
    requires IsHex(c)
    ensures HexDigit(HexDigitValue(c)) == LowerChar(c)
  {
  }

  lemma HexDigitsOf(a: nat, b: nat, c: nat, d: nat)
    requires a < 16 && b < 16 && c < 16 && d < 16
    ensures var n := 0x1000 * a + 0x100 * b + 0x10 * c + d;
            && n < 0x1_0000 && n / 0x1000 == a && n / 0x100 % 0x10 == b && n / 0x10 % 0x10 == c && n % 0x10 == d
  {
    var n := 0x1000 * a + 0x100 * b + 0x10 * c + d;
    assert n / 0x100 == 0x10 * a + b && n / 0x10 == 0x100 * a + 0x10 * b + c;
  }

  /** Printing the number of four digits gives them back, in lower case. */
  lemma Hex4OfNumber(h: string)
    requires G.AllHex(h)
    ensures Hex4(HexNumber(h)) == "\\u" + Lower(h)
  {
    hide HexDigitValue, HexDigit, LowerChar;
    HexDigitsOf(HexDigitValue(h[0]), HexDigitValue(h[1]), HexDigitValue(h[2]), HexDigitValue(h[3]));
    DigitPrinted(h[0]);
    DigitPrinted(h[1]);
    DigitPrinted(h[2]);
    DigitPrinted(h[3]);
  }

  /** A surrogate pair is printed as the two escapes. */
  lemma PairPrinted(high: string, low: string)
    requires G.IsHigh(high) && G.IsLow(low)
    ensures DumpCode(PairNumber(high, low)) == "\\u" + Lower(high) + ("\\u" + Lower(low))
  {
    hide HexNumber, Hex4, Lower;
    SurrogateRange(high, low);
    Hex4OfNumber(high);
    Hex4OfNumber(low);
    var h, l := HexNumber(high), HexNumber(low);
    var n := 0x1_0000 + 0x400 * (h - 0xD800) + (l - 0xDC00);
    assert n / 0x400 == 0x40 + (h - 0xD800) && n % 0x400 == l - 0xDC00;
  }

  /** An open escape with these digits is filled up to a printable ASCII character. */
  predicate OpenPrintable(m: Mode) {
    && m.Str? && !m.needLow && m.lex.Hex?
    && |m.lex.digits| == 3 && m.lex.digits[0] == '0' && m.lex.digits[1] == '0' && '2' <= m.lex.digits[2] <= '7'
  }

  /** Zero-ended code units are printed as escapes, except those of printable characters. */
  lemma UnitPrinted(h: string)
    requires G.AllHex(h) && h[3] == '0' && !(h[0] == '0' && h[1] == '0' && '2' <= h[2] <= '7')
    ensures DumpCode(HexNumber(h)) == "\\u" + Lower(h)
  {
    Hex4OfNumber(h);
    var n := HexNumber(h);
    NotPrintable(h);
    hide HexNumber, Hex4, Lower;
    if n < 0x7F { ControlPrinted(n); }
  }

  lemma NotPrintable(h: string)
    requires G.AllHex(h) && h[3] == '0' && !(h[0] == '0' && h[1] == '0' && '2' <= h[2] <= '7')
    ensures HexNumber(h) < 0x7F ==> HexNumber(h) == 0 || HexNumber(h) == 0x10
  {
  }

  lemma ControlPrinted(n: nat)
    requires n == 0 || n == 0x10
    ensures DumpCode(n) == Hex4(n)
  {
    assert HexDigit(0) == '0' && HexDigit(1) == '1';
    assert "\\u00" + ['0', '0'] == ['\\', 'u', '0', '0', '0', '0'];
    assert "\\u00" + ['1', '0'] == ['\\', 'u', '0', '0', '1', '0'];
  }

  lemma PrintableUnit(h: string)
    requires G.AllHex(h) && h[3] == '0' && h[0] == '0' && h[1] == '0' && '2' <= h[2] <= '7'
    ensures 0x20 <= HexNumber(h) < 0x7F && HexNumber(h) % 0x10 == 0 && DumpCode(HexNumber(h)) == [HexNumber(h) as char]
    ensures HexNumber(h) as char != '\\'
  {
  }

  // ---------------------------------------------------------------- filling up an escape

  lemma HexAdds(f: Printer, base: seq<Frame>, isKey: bool, needLow: bool, b: B.Parts, d: string, c: char)
    requires |d| <= 3
    ensures B.Add(f, At(base, Str(isKey, Hex(d), needLow)), b, c)
            == if |d| < 3 then b else B.HexEnd(b, d + [c], needLow)
    ensures |d| < 3 && Step(At(base, Str(isKey, Hex(d), needLow)), c).At? ==>
              Step(At(base, Str(isKey, Hex(d), needLow)), c) == At(base, Str(isKey, Hex(d + [c]), needLow))
  {
    hide B.HexEnd;
  }

  /** The remaining digits of an escape. */
  lemma {:induction false} RestBuilds(
    f: Printer, base: seq<Frame>, isKey: bool, needLow: bool, b: B.Parts, d: string, rest: string)
    requires |d| <= 3 && |d| + |rest| == 4 && Run(At(base, Str(isKey, Hex(d), needLow)), rest).At?
    ensures B.Build(f, At(base, Str(isKey, Hex(d), needLow)), b, rest) == B.HexEnd(b, d + rest, needLow)
    decreases |rest|
  {
    hide Step, Run, B.Add, B.Build, B.HexEnd;
    var st := At(base, Str(isKey, Hex(d), needLow));
    var c, more := rest[0], rest[1..];
    assert rest == [c] + more;
    B.BuildCons(f, st, b, c, more);
    RunCons(st, c, more);
    HexAdds(f, base, isKey, needLow, b, d, c);
    if |d| < 3 {
      FailedRun(st, c, more);
      RestBuilds(f, base, isKey, needLow, b, d + [c], more);
      assert d + [c] + more == d + rest;
    } else {
      assert more == "" && d + rest == d + [c];
      NothingBuilt(f, Step(st, c), B.HexEnd(b, d + [c], needLow));
    }
  }

  lemma FailedRun(st: State, c: char, more: string)
    requires Run(Step(st, c), more).At?
    ensures Step(st, c).At?
  {
    if Step(st, c) == Fail { RunFail(more); }
  }

  lemma SlashAdds(f: Printer, base: seq<Frame>, isKey: bool, needLow: bool, b: B.Parts)
    ensures var s0, s1 := At(base, Str(isKey, Plain, needLow)), At(base, Str(isKey, Escaped, needLow));
            && B.Add(f, s0, b, '\\') == b && Step(s0, '\\') == s1
            && B.Add(f, s1, b, 'u') == b && Step(s1, 'u') == At(base, Str(isKey, Hex(""), needLow))
  {
  }

  lemma HexEnds(b: B.Parts, h: string, needLow: bool)
    requires G.AllHex(h)
    ensures needLow && G.IsHigh(b.high) && G.IsLow(h) ==>
              B.HexEnd(b, h, true) == b.(codes := b.codes + [PairNumber(b.high, h)], high := "")
    ensures !needLow && G.IsHigh(h) ==> B.HexEnd(b, h, false) == b.(high := h)
    ensures !needLow && !G.IsHigh(h) ==> B.HexEnd(b, h, false) == b.(codes := b.codes + [HexNumber(h)])
  {
    hide PairNumber, HexNumber;
  }

  const LOW := "dc00"

  /** The low half of a pair. */
  lemma LowBuilds(f: Printer, base: seq<Frame>, isKey: bool, b: B.Parts, d: string, rest: string)
    requires |d| <= 3 && rest == LOW[|d|..] && G.IsHigh(b.high) && G.IsLow(d + rest)
    requires Run(At(base, Str(isKey, Hex(d), true)), rest).At?
    ensures B.Build(f, At(base, Str(isKey, Hex(d), true)), b, rest)
            == b.(codes := b.codes + [PairNumber(b.high, d + rest)], high := "")
  {
    hide B.HexEnd, B.Build, Run, PairNumber;
    RestBuilds(f, base, isKey, true, b, d, rest);
    HexEnds(b, d + rest, true);
  }

  lemma LowRuns(base: seq<Frame>, isKey: bool)
    ensures G.IsLow(LOW) && "" + LOW == LOW && LOW[0..] == LOW
    ensures Run(At(base, Str(isKey, Hex(""), true)), LOW).At?
    ensures "udc00" == ['u'] + LOW && "\\udc00" == ['\\'] + "udc00"
  {
    hide Step;
    RunLowRest(base, isKey, "");
  }

  /** `\udc00` behind a high surrogate, also when its beginning stands there already. */
  lemma WholeLowBuilds(f: Printer, base: seq<Frame>, isKey: bool, b: B.Parts)
    requires G.IsHigh(b.high)
    ensures G.IsLow(LOW)
    ensures var b' := b.(codes := b.codes + [PairNumber(b.high, LOW)], high := "");
            && B.Build(f, At(base, Str(isKey, Plain, true)), b, "\\udc00") == b'
            && B.Build(f, At(base, Str(isKey, Escaped, true)), b, "udc00") == b'
  {
    hide Step, Run, B.Add, B.Build, PairNumber;
    LowRuns(base, isKey);
    SlashAdds(f, base, isKey, true, b);
    LowBuilds(f, base, isKey, b, "", LOW);
    B.BuildCons(f, At(base, Str(isKey, Escaped, true)), b, 'u', LOW);
    B.BuildCons(f, At(base, Str(isKey, Plain, true)), b, '\\', "udc00");
  }

  // ---------------------------------------------------------------- the lead inside a string

  /** What is printed of an unfinished escape, and of a high surrogate that waits for its low half. */
  function Pending(lex: Lex, high: string): string {
    (if high == "" then "" else "\\u" + Lower(high))
    + (match lex case Plain => "" case Escaped => "\\" case Hex(d) => "\\u" + Lower(d))
  }

  lemma OneMoreCode(codes: seq<Code>, n: Code)
    ensures DumpCodes(codes + [n]) == DumpCodes(codes) + DumpCode(n)
  {
    hide DumpCode;
    assert (codes + [n])[..|codes|] == codes;
  }

  lemma LowerJoined(a: string, b: string)
    ensures Lower(a + b) == Lower(a) + Lower(b)
  {
    hide LowerChar;
  }

  lemma SmallDigits()
    ensures Lower("") == "" && Lower(LOW) == LOW && Lower("c00") == "c00"
    ensures Lower(LOW[1..]) == LOW[1..] && Lower(LOW[2..]) == LOW[2..] && Lower(LOW[3..]) == LOW[3..]
  {
  }

  /** The low half of a pair is filled up from its digits `d`. */
  lemma LowHalf(f: Printer, base: seq<Frame>, isKey: bool, b: B.Parts, d: string) returns (codes: seq<Code>)
    requires DigitsFit(d, true) && b == Inside(b.levels, b.codes, b.high) && G.IsHigh(b.high)
    ensures B.Build(f, At(base, Str(isKey, Hex(d), true)), b, LOW[|d|..]) == Inside(b.levels, codes, "")
    ensures DumpCodes(codes) == DumpCodes(b.codes) + Pending(Hex(d), b.high) + LOW[|d|..]
  {
    hide Run, B.Build, PairNumber, Lower, DumpCode, DumpCodes;
    var rest := LOW[|d|..];
    RunLowRest(base, isKey, d);
    assert G.IsLow(d + rest);
    LowBuilds(f, base, isKey, b, d, rest);
    codes := b.codes + [PairNumber(b.high, d + rest)];
    OneMoreCode(b.codes, PairNumber(b.high, d + rest));
    PairPrinted(b.high, d + rest);
    LowerJoined(d, rest);
    SmallDigits();
  }

  lemma LowWhole(f: Printer, base: seq<Frame>, isKey: bool, b: B.Parts, lex: Lex) returns (codes: seq<Code>)
    requires b == Inside(b.levels, b.codes, b.high) && G.IsHigh(b.high) && !lex.Hex?
    ensures var lead := if lex == Plain then "\\udc00" else "udc00";
            && B.Build(f, At(base, Str(isKey, lex, true)), b, lead) == Inside(b.levels, codes, "")
            && DumpCodes(codes) == DumpCodes(b.codes) + Pending(lex, b.high) + lead
  {
    hide Run, B.Build, PairNumber, Lower, DumpCode, DumpCodes;
    WholeLowBuilds(f, base, isKey, b);
    codes := b.codes + [PairNumber(b.high, LOW)];
    OneMoreCode(b.codes, PairNumber(b.high, LOW));
    PairPrinted(b.high, LOW);
    SmallDigits();
    assert "\\u" + LOW == "\\udc00" && "\\udc00" == "\\" + "udc00";
  }

  /** The digits `rest` complete a unit that is no surrogate. */
  lemma UnitFilled(f: Printer, base: seq<Frame>, isKey: bool, b: B.Parts, d: string, rest: string)
    returns (codes: seq<Code>, c: char)
    requires |d| <= 3 && |d| + |rest| == 4 && G.AllHex(d + rest) && (d + rest)[3] == '0' && !G.IsHigh(d + rest)
    requires b == Inside(b.levels, b.codes, "") && Lower(rest) == rest
    requires Run(At(base, Str(isKey, Hex(d), false)), rest).At?
    requires |rest| > 1 ==> !('2' <= (d + rest)[2] <= '7')
    ensures B.Build(f, At(base, Str(isKey, Hex(d), false)), b, rest) == Inside(b.levels, codes, "")
    ensures if OpenPrintable(Str(isKey, Hex(d), false)) then DumpCodes(codes) == DumpCodes(b.codes) + [c] && c != '\\'
            else DumpCodes(codes) == DumpCodes(b.codes) + Pending(Hex(d), "") + rest
  {
    hide Run, B.Build, B.HexEnd, HexNumber, Lower, DumpCode, DumpCodes;
    var h := d + rest;
    RestBuilds(f, base, isKey, false, b, d, rest);
    HexEnds(b, h, false);
    codes, c := b.codes + [HexNumber(h)], ' ';
    OneMoreCode(b.codes, HexNumber(h));
    LowerJoined(d, rest);
    if h[0] == '0' && h[1] == '0' && '2' <= h[2] <= '7' {
      PrintableUnit(h);
      c := HexNumber(h) as char;
    } else {
      UnitPrinted(h);
    }
  }

  lemma ZerosLower(n: nat)
    requires n <= 4
    ensures Lower(Zeros(n)) == Zeros(n)
  {
    hide Zeros;
  }

  /** A high surrogate is filled up with zeros and followed by a low one. */
  lemma HighFilled(f: Printer, base: seq<Frame>, isKey: bool, b: B.Parts, d: string) returns (codes: seq<Code>)
    requires DigitsFit(d, false) && |d| >= 2 && IsD(d[0]) && IsHighDigit(d[1]) && b == Inside(b.levels, b.codes, "")
    ensures var lead := Zeros(4 - |d|) + "\\udc00";
            && B.Build(f, At(base, Str(isKey, Hex(d), false)), b, lead) == Inside(b.levels, codes, "")
            && DumpCodes(codes) == DumpCodes(b.codes) + Pending(Hex(d), "") + lead
  {
    hide Run, B.Build, B.HexEnd, PairNumber, Lower, DumpCode, DumpCodes, Zeros;
    var zeros := Zeros(4 - |d|);
    var h := d + zeros;
    var st := At(base, Str(isKey, Hex(d), false));
    assert G.IsHigh(h);
    RunZeros(base, isKey, d);
    RestBuilds(f, base, isKey, false, b, d, zeros);
    HexEnds(b, h, false);
    B.BuildAppend(f, st, b, zeros, "\\udc00");
    WholeLowBuilds(f, base, isKey, b.(high := h));
    codes := b.codes + [PairNumber(h, LOW)];
    OneMoreCode(b.codes, PairNumber(h, LOW));
    PairPrinted(h, LOW);
    LowerJoined(d, zeros);
    ZerosLower(4 - |d|);
    SmallDigits();
    assert "\\u" + LOW == "\\udc00";
  }

  /** Any open escape outside of a pair, filled up as healing does. */
  lemma EscapeFilled(f: Printer, base: seq<Frame>, isKey: bool, b: B.Parts, d: string, lead: string)
    returns (codes: seq<Code>, c: char)
    requires DigitsFit(d, false) && b == Inside(b.levels, b.codes, "")
    requires lead == Filling(d, false) || (|d| == 1 && !IsD(d[0]) && lead == "c00")
    ensures B.Build(f, At(base, Str(isKey, Hex(d), false)), b, lead) == Inside(b.levels, codes, "")
    ensures if OpenPrintable(Str(isKey, Hex(d), false)) then DumpCodes(codes) == DumpCodes(b.codes) + [c] && c != '\\'
            else DumpCodes(codes) == DumpCodes(b.codes) + Pending(Hex(d), "") + lead
  {
    hide Run, B.Build, Lower, DumpCode, DumpCodes, Pending, IsHex, Zeros;
    c := ' ';
    if |d| >= 2 && IsD(d[0]) && IsHighDigit(d[1]) {
      codes := HighFilled(f, base, isKey, b, d);
    } else if lead == Filling(d, false) {
      RunZeros(base, isKey, d);
      ZerosLower(4 - |d|);
      ZerosAreHex(d);
      codes, c := UnitFilled(f, base, isKey, b, d, lead);
    } else {
      WrongFilling(base, isKey, d);
      SmallDigits();
      LateFits(d);
      codes, c := UnitFilled(f, base, isKey, b, d, lead);
    }
  }

  lemma ZerosAreHex(d: string)
    requires DigitsFit(d, false) && !(|d| >= 2 && IsD(d[0]) && IsHighDigit(d[1]))
    ensures var h := d + Zeros(4 - |d|);
            && G.AllHex(h) && !G.IsHigh(h) && h[3] == '0' && (|d| < 3 ==> h[2] == '0')
  {
    hide Zeros;
  }

  lemma LateFits(d: string)
    requires DigitsFit(d, false) && |d| == 1 && !IsD(d[0])
    ensures var h := d + "c00"; G.AllHex(h) && !G.IsHigh(h) && h[3] == '0' && h[2] == '0'
  {
  }

  /**
    Inside a string: the lead is printed verbatim behind what is printed of the text that is kept,
    unless it completes the escape of a printable character.
    */
  lemma LeadInString(f: Printer, kept: string) returns (codes: seq<Code>, c: char)
    requires Prints(f) && InString(Run(START, kept)) && !PairMistaken(kept, Run(START, kept).mode)
    ensures var st, b := Run(START, kept), B.Built(f, kept);
            && B.Build(f, st, b, Lead(kept)) == Inside(b.levels, codes, "")
            && (if OpenPrintable(st.mode) then DumpCodes(codes) == DumpCodes(b.codes) + [c] && c != '\\'
                else DumpCodes(codes) == DumpCodes(b.codes) + Pending(st.mode.lex, b.high) + Lead(kept))
  {
    hide Run, Step, B.Add, B.Build, B.Built, Padding, PairMistaken, DumpCode, DumpCodes, Lead, Shaped, ValueTexts,
        InnermostFits,
         Filling, DigitsFit, Pending;
    var st, b := Run(START, kept), B.Built(f, kept);
    var m := st.mode;
    RunConsistent(kept);
    BuiltFits(f, kept);
    LeadOf(kept, st.stack, m);
    c := ' ';
    if m.lex.Hex? || m.needLow { PaddingIs(kept); }
    if !m.lex.Hex? && !m.needLow {
      codes := BetweenUnits(f, st.stack, m.isKey, b, m.lex);
    } else if !m.lex.Hex? {
      codes := LowWhole(f, st.stack, m.isKey, b, m.lex);
    } else if m.needLow {
      LowFillingIs(m.lex.digits);
      codes := LowHalf(f, st.stack, m.isKey, b, m.lex.digits);
    } else {
      codes, c := EscapeFilled(f, st.stack, m.isKey, b, m.lex.digits, Lead(kept));
    }
  }

  lemma LowFillingIs(d: string)
    requires |d| <= 3
    ensures Filling(d, true) == LOW[|d|..]
  {
  }

  lemma SlashPrinted(f: Printer, base: seq<Frame>, isKey: bool, b: B.Parts)
    ensures DumpCode(0x5C) == "\\" + "\\"
    ensures B.Add(f, At(base, Str(isKey, Escaped, false)), b, '\\') == b.(codes := b.codes + [0x5C])
  {
  }

  lemma BetweenUnits(f: Printer, base: seq<Frame>, isKey: bool, b: B.Parts, lex: Lex) returns (codes: seq<Code>)
    requires b == Inside(b.levels, b.codes, "") && !lex.Hex?
    ensures var lead := if lex == Escaped then "\\" else "";
            && B.Build(f, At(base, Str(isKey, lex, false)), b, lead) == Inside(b.levels, codes, "")
            && DumpCodes(codes) == DumpCodes(b.codes) + Pending(lex, "") + lead
  {
    hide Run, B.Build, B.Add, DumpCode, DumpCodes;
    var st := At(base, Str(isKey, lex, false));
    if lex == Escaped {
      codes := b.codes + [0x5C];
      B.BuildOne(f, st, b, '\\');
      OneMoreCode(b.codes, 0x5C);
      SlashPrinted(f, base, isKey, b);
      assert "" + "\\" == "\\";
    } else {
      codes := b.codes;
      NothingBuilt(f, st, b);
    }
  }
}
