/** Markers that are not in the input and yet are not found where they were put. */
module JsonCuts {
  import opened Base
  import opened Text
  import opened JsonStrings
  import opened JsonText
  import opened JsonEscapes
  import opened JsonHealing
  import opened JsonDump
  import B = JsonBuilder
  import opened JsonDumping
  import opened JsonOpen
  import opened JsonKept
  import opened JsonLead
  import opened JsonPlace
  import opened JsonMarker

  /** The beginning that the examples share. */
  const HEAD := "{\"a\":\""

  const LEVELS := [B.ObjectLevel([], [97])]

  lemma HeadBuilt(f: Printer)
    ensures Run(START, HEAD) == At([InObject], Str(false, Plain, false))
    ensures B.Built(f, HEAD) == Inside(LEVELS, [], "")
  {
    hide Run, B.Build, DumpCodes;
    var rest := ['"', 'a', '"', ':', '"'];
    assert HEAD == ['{'] + (['"'] + (['a'] + (['"'] + ([':'] + ['"']))));
    assert [] + [InObject] == [InObject] && [] + [B.ObjectLevel([], [])] == [B.ObjectLevel([], [])];
    var open := B.Ready([B.ObjectLevel([], [])], None);
    RunCons(START, '{', ['"'] + (['a'] + (['"'] + ([':'] + ['"']))));
    B.BuildCons(f, START, B.NOTHING, '{', ['"'] + (['a'] + (['"'] + ([':'] + ['"']))));
    KeyBuilt(f, open);
  }

  lemma KeyBuilt(f: Printer, open: B.Parts)
    requires open == B.Ready([B.ObjectLevel([], [])], None)
    ensures var s := ['"'] + (['a'] + (['"'] + ([':'] + ['"'])));
            && Run(At([InObject], KeyOrEnd), s) == At([InObject], Str(false, Plain, false))
            && B.Build(f, At([InObject], KeyOrEnd), open, s) == Inside(LEVELS, [], "")
  {
    hide Run, B.Build, DumpCodes;
    var key, text := At([InObject], Str(true, Plain, false)), At([InObject], Str(false, Plain, false));
    RunCons(At([InObject], KeyOrEnd), '"', ['a'] + (['"'] + ([':'] + ['"'])));
    B.BuildCons(f, At([InObject], KeyOrEnd), open, '"', ['a'] + (['"'] + ([':'] + ['"'])));
    RunCons(key, 'a', ['"'] + ([':'] + ['"']));
    B.BuildCons(f, key, open, 'a', ['"'] + ([':'] + ['"']));
    var a := open.(codes := [97]);
    assert [] + [97] == [97];
    KeyLevels(open);
    RunCons(key, '"', [':'] + ['"']);
    B.BuildCons(f, key, a, '"', [':'] + ['"']);
    RunCons(At([InObject], Colon), ':', ['"']);
    B.BuildCons(f, At([InObject], Colon), B.Ready(LEVELS, None), ':', ['"']);
    RunOne(At([InObject], Value), '"');
    B.BuildOne(f, At([InObject], Value), B.Ready(LEVELS, None), '"');
  }

  lemma KeyLevels(open: B.Parts)
    requires open == B.Ready([B.ObjectLevel([], [])], None)
    ensures B.KeyRead(open.levels, [97]) == B.Ready(LEVELS, None)
  {
    assert open.levels[..0] + [B.ObjectLevel([], [97])] == LEVELS;
  }

  lemma HeadFront()
    ensures Front(LEVELS) == "{\"a\":" && Front(LEVELS[0..]) == "{\"a\":"
    ensures Back(LEVELS) == "}"
  {
    assert LEVELS[0..] == LEVELS && Enclosing(LEVELS) == [] && Innermost(LEVELS) == B.ObjectLevel([], [97]);
    LettersA();
  }

  lemma LettersA()
    ensures LevelFront(B.ObjectLevel([], [97])) == "{\"a\":" && LevelBack(B.ObjectLevel([], [97])) == "}"
  {
    var none: seq<Code> := [];
    assert [97][..0] == none;
    assert DumpCodes([97]) == "a" by {
      assert DumpCode(97) == "a";
      assert DumpCodes(none) == "";
    }
  }

  /** Inside the string that the head opens. */
  lemma PrintedBehindHead(f: Printer, kept: string, lex: Lex, codes: seq<Code>)
    requires Run(START, kept) == At([InObject], Str(false, lex, false)) && B.Built(f, kept) == Inside(LEVELS, codes, "")
    ensures Contains(f, kept, 0) && Printed(f, kept, 0) == HEAD + (DumpCodes(codes) + Pending(lex, ""))
  {
    hide Step, Run, B.Build, B.Built, Front, DumpCodes, Pending;
    HeadFront();
    assert HEAD == "{\"a\":" + ['"'];
  }

  /** Behind the head, plain characters are printed as they are. */
  lemma PlainBehindHead(f: Printer, t: string)
    requires PlainAscii(t)
    ensures Run(START, HEAD + t) == At([InObject], Str(false, Plain, false))
    ensures Leads(HEAD + t) && Contains(f, HEAD + t, 0) && Printed(f, HEAD + t, 0) == HEAD + t
  {
    hide Step, Run, B.Build, B.Built, DumpCodes, Pending, Lead, Printed, PlainAscii, Contains, Points;
    HeadBuilt(f);
    MarkerBuilds(f, [InObject], false, LEVELS, [], t);
    RunAppend(START, HEAD, t);
    BuiltAppend(f, HEAD, t);
    NoCodes();
    LeadOf(HEAD + t, [InObject], Str(false, Plain, false));
    NothingRun(At([InObject], Str(false, Plain, false)));
    NothingPending();
    assert [] + Points(t) == Points(t) && "" + t == t;
    PrintedBehindHead(f, HEAD + t, Plain, Points(t));
    assert t + "" == t;
  }

  lemma NothingPending()
    ensures Pending(Plain, "") == ""
  {
  }

  lemma NothingRun(st: State)
    ensures Run(st, "") == st
  {
  }

  // ---------------------------------------------------------------- a hit that is too early

  /** Behind `12` the marker `1212` is found two characters early. */
  lemma CutTooEarly(f: Printer, r: Outcome)
    requires Prints(f) && GoodHealing(HEAD + "12", "1212", r) && KeepsString(HEAD + "12", r)
    ensures r.h.kept == HEAD + "12" && Absent(HEAD + "12", "1212") && Contains(f, r.h.kept, 0)
    ensures !CutsRight(f, r.h.kept, "1212", 0)
  {
    hide Run, B.Build, B.Built, Lead, Leads, Printed, CutsRight, GoodHealing, KeyFresh, Contains, PairMistaken;
    var kept := HEAD + "12";
    PlainBehindHead(f, "12");
    LeadOf(kept, [InObject], Str(false, Plain, false));
    OnlyOpenEscapesMislead(kept, Str(false, Plain, false));
    CutIff(f, kept, "1212", 0);
    assert "" + "1212" == "1212";
    EarlyOverlap();
  }

  lemma EarlyOverlap()
    ensures Absent(HEAD + "12", "1212") && OverlapsAt(HEAD + "12", "1212", 2)
  {
    var s, m := HEAD + "12", "1212";
    assert |s| == 8 && s[6..] == m[..2] == "12" && m[2..] == "12";
    assert s[4] == ':' && forall i :: 0 <= i < 7 ==> s[i] != '2';
    assert m[0] == '1' && m[3] == '2';
    forall k | 0 <= k ensures !OccursAt(s, m, k) {
      if OccursAt(s, m, k) { HitCharacters(s, m, k); }
    }
  }

  lemma HitCharacters(s: string, p: string, k: nat)
    requires OccursAt(s, p, k)
    ensures forall i :: 0 <= i < |p| ==> s[k + i] == p[i]
  {
    var hit := s[k..k + |p|];
    assert forall i :: 0 <= i < |p| ==> hit[i] == s[k + i];
  }

  // ---------------------------------------------------------------- no hit at all

  const OPEN := HEAD + "\\u004"

  lemma OpenBuilt(f: Printer)
    ensures Run(START, OPEN) == At([InObject], Str(false, Hex("004"), false))
    ensures B.Built(f, OPEN) == Inside(LEVELS, [], "")
  {
    hide Run, B.Build, B.Built, B.Begin, B.HandleValue, B.KeyRead, B.Close, B.HexEnd, DumpCodes;
    var st0, b := At([InObject], Str(false, Plain, false)), Inside(LEVELS, [], "");
    HeadBuilt(f);
    RunAppend(START, HEAD, "\\u004");
    BuiltAppend(f, HEAD, "\\u004");
    assert "\\u004" == ['\\'] + (['u'] + (['0'] + (['0'] + ['4'])));
    var st1, st2 := At([InObject], Str(false, Escaped, false)), At([InObject], Str(false, Hex(""), false));
    RunCons(st0, '\\', ['u'] + (['0'] + (['0'] + ['4'])));
    B.BuildCons(f, st0, b, '\\', ['u'] + (['0'] + (['0'] + ['4'])));
    RunCons(st1, 'u', ['0'] + (['0'] + ['4']));
    B.BuildCons(f, st1, b, 'u', ['0'] + (['0'] + ['4']));
    DigitsBuilt(f, b);
  }

  lemma DigitsBuilt(f: Printer, b: B.Parts)
    ensures var st := At([InObject], Str(false, Hex(""), false));
            && Run(st, ['0'] + (['0'] + ['4'])) == At([InObject], Str(false, Hex("004"), false))
            && B.Build(f, st, b, ['0'] + (['0'] + ['4'])) == b
  {
    hide Run, B.Build, B.HexEnd;
    assert "" + ['0'] == "0" && "0" + ['0'] == "00" && "00" + ['4'] == "004";
    var st2, st3, st4 := At([InObject], Str(false, Hex(""), false)), At([InObject], Str(false, Hex("0"), false)),
                         At([InObject], Str(false, Hex("00"), false));
    RunCons(st2, '0', ['0'] + ['4']);
    B.BuildCons(f, st2, b, '0', ['0'] + ['4']);
    RunCons(st3, '0', ['4']);
    B.BuildCons(f, st3, b, '0', ['4']);
    RunOne(st4, '4');
    B.BuildOne(f, st4, b, '4');
  }

  /** Behind an open escape of a printable character no marker is found where it was put. */
  lemma EscapeLosesCut(f: Printer, marker: string, r: Outcome)
    requires Prints(f) && PlainAscii(marker) && marker != ""
    requires GoodHealing(OPEN, marker, r) && KeepsString(OPEN, r)
    ensures r.h.kept == OPEN && Contains(f, r.h.kept, 0)
    ensures !CutsRight(f, r.h.kept, marker, 0)
  {
    hide Run, B.Build, B.Built, Lead, Leads, Printed, CutsRight, KeyFresh, PairMistaken, PlainAscii;
    OpenBuilt(f);
    ThreeDigits(OPEN);
    CutIff(f, OPEN, marker, 0);
  }

  lemma ThreeDigits(s: string)
    ensures !PairMistaken(s, Str(false, Hex("004"), false))
  {
  }

  lemma OpenLead(f: Printer)
    ensures Lead(OPEN) == "0"
  {
    hide Run, Padding, PairMistaken;
    OpenBuilt(f);
    ThreeDigits(OPEN);
    LeadOf(OPEN, [InObject], Str(false, Hex("004"), false));
    PaddingIs(OPEN);
    ZerosAre(1);
    assert Filling("004", false) == "0";
  }

  lemma NumberOfOpen()
    ensures HexNumber("0040") == 0x40
  {
    assert HexDigitValue('0') == 0 && HexDigitValue('4') == 4;
  }

  lemma OpenMarked(f: Printer)
    ensures MarkedCodes(f, OPEN, "7") == [0x40, 0x37]
  {
    hide Run, B.Build, B.Built, Lead, HexNumber, DumpCodes;
    var st, b := At([InObject], Str(false, Hex("004"), false)), Inside(LEVELS, [], "");
    OpenBuilt(f);
    OpenLead(f);
    assert "0" + "7" == ['0'] + ['7'] && "004" + ['0'] == "0040";
    B.BuildCons(f, st, b, '0', ['7']);
    NumberOfOpen();
    assert B.HexEnd(b, "0040", false) == Inside(LEVELS, [0x40], "");
    B.BuildOne(f, At([InObject], Str(false, Plain, false)), Inside(LEVELS, [0x40], ""), '7');
    assert [0x40] + [0x37] == [0x40, 0x37];
  }

  /** With marker 7 the dump holds the new character and the marker, and nothing is cut. */
  lemma NothingCut(f: Printer)
    ensures Contains(f, OPEN, 0) && Lead(OPEN) + "7" == "07"
    ensures HealedDump(f, OPEN, "7", 0) == "{\"a\":\"@7\"}"
    ensures Cut(HealedDump(f, OPEN, "7", 0), "07") == HealedDump(f, OPEN, "7", 0)
  {
    hide Run, B.Build, B.Built, Lead, MarkedCodes, Front, Back, Wrap, Cut;
    OpenBuilt(f);
    OpenLead(f);
    OpenMarked(f);
    TwoCodes();
    WrapParts(LEVELS, Quoted([0x40, 0x37]));
    HeadFront();
    assert LEVELS[0..] == LEVELS;
    assert "{\"a\":" + (['"'] + "@7" + ['"']) + "}" == "{\"a\":\"@7\"}";
    NoZero("{\"a\":\"@7\"}");
  }

  lemma TwoCodes()
    ensures DumpCodes([0x40, 0x37]) == "@7"
  {
    hide DumpCodes;
    NoCodes();
    OneMoreCode([], 0x40);
    OneMoreCode([0x40], 0x37);
    assert [] + [0x40] == [0x40] && [0x40] + [0x37] == [0x40, 0x37];
    assert DumpCode(0x40) == "@" && DumpCode(0x37) == "7";
  }

  lemma NoZero(s: string)
    requires '0' !in s
    ensures Cut(s, "07") == s
  {
    assert "07"[0] == '0';
    if Find(s, "07", 0).Some? { HitCharacters(s, "07", Find(s, "07", 0).value); }
  }

  // ---------------------------------------------------------------- a hit that the dump makes

  /** U+4155, which is printed as `\u4155`. */
  const IDEOGRAPH: char := 0x4155 as char

  lemma IdeographBuilt(f: Printer)
    ensures Run(START, HEAD + [IDEOGRAPH]) == At([InObject], Str(false, Plain, false))
    ensures B.Built(f, HEAD + [IDEOGRAPH]) == Inside(LEVELS, [0x4155], "")
    ensures DumpCodes([0x4155]) == "\\u4155"
  {
    hide Run, B.Build, B.Built, DumpCodes;
    HeadBuilt(f);
    RunAppend(START, HEAD, [IDEOGRAPH]);
    BuiltAppend(f, HEAD, [IDEOGRAPH]);
    RunOne(At([InObject], Str(false, Plain, false)), IDEOGRAPH);
    B.BuildOne(f, At([InObject], Str(false, Plain, false)), Inside(LEVELS, [], ""), IDEOGRAPH);
    assert [] + [0x4155] == [0x4155];
    NoCodes();
    OneMoreCode([], 0x4155);
    assert "" + DumpCode(0x4155) == DumpCode(0x4155);
    assert HexDigit(4) == '4' && HexDigit(1) == '1' && HexDigit(5) == '5';
    assert Hex4(0x4155) == "\\u4155";
  }

  /** The marker 4155 is not in the input, and is found in the escape of a character. */
  lemma EscapeIsHit(f: Printer, r: Outcome)
    requires Prints(f) && GoodHealing(HEAD + [IDEOGRAPH], "4155", r) && KeepsString(HEAD + [IDEOGRAPH], r)
    ensures r.h.kept == HEAD + [IDEOGRAPH] && Absent(HEAD + [IDEOGRAPH], "4155") && Contains(f, r.h.kept, 0)
    ensures !CutsRight(f, r.h.kept, "4155", 0)
  {
    hide Run, B.Build, B.Built, Lead, Leads, Printed, CutsRight, KeyFresh, PairMistaken, Absent, Overlaps, PlainAscii;
    var kept := HEAD + [IDEOGRAPH];
    IdeographBuilt(f);
    OnlyOpenEscapesMislead(kept, Str(false, Plain, false));
    LeadOf(kept, [InObject], Str(false, Plain, false));
    PrintedIdeograph(f);
    assert "" + "4155" == "4155";
    CutIff(f, kept, "4155", 0);
    NotInHead();
  }

  lemma PrintedIdeograph(f: Printer)
    ensures Contains(f, HEAD + [IDEOGRAPH], 0) && !Absent(Printed(f, HEAD + [IDEOGRAPH], 0), "4155") &&
            PlainAscii("4155")
  {
    hide Run, B.Build, B.Built, Printed, DumpCodes;
    IdeographBuilt(f);
    PrintedBehindHead(f, HEAD + [IDEOGRAPH], Plain, [0x4155]);
    NothingPending();
    assert HEAD + ("\\u4155" + "") == HEAD + "\\u" + "4155" + "";
    OccursBetween(HEAD + "\\u", "4155", "");
  }

  lemma NotInHead()
    ensures Absent(HEAD + [IDEOGRAPH], "4155")
  {
    var s := HEAD + [IDEOGRAPH];
    assert '5' !in s && "4155"[2] == '5';
    forall k | 0 <= k ensures !OccursAt(s, "4155", k) {
      if OccursAt(s, "4155", k) { HitCharacters(s, "4155", k); }
    }
  }
}
