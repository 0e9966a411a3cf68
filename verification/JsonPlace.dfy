/**
  Where the marker stands in the dump of a healed text, and what stands in front of it. All texts are
  those of the container that is open at depth `n` and of what is in it; depth 0 is the whole text.
  */
module JsonPlace {
  import opened Base
  import opened JsonText
  import opened JsonSax
  import opened JsonCompletions
  import opened JsonEscapes
  import opened JsonHealing
  import opened JsonDump
  import B = JsonBuilder
  import opened JsonDumping
  import opened JsonOpen
  import opened JsonKept
  import opened JsonLead
  import G = JsonGrammar

  // ---------------------------------------------------------------- what is kept, as it is printed

  /** In front of a key that is due. */
  function KeyFront(levels: seq<B.Level>): string {
    if levels == [] || Innermost(levels).ArrayLevel? then ""
    else Front(Enclosing(levels)) + (['{'] + Pre(EntryTexts(Innermost(levels).entries)))
  }

  /** In front of the string that the marker becomes a part of. */
  function Before(st: State, levels: seq<B.Level>): string {
    if PutsKey(st) then KeyFront(levels) else Front(levels)
  }

  function WithoutLast(s: string): string { if s == "" then "" else s[..|s| - 1] }

  function PrintedAt(st: State, levels: seq<B.Level>, codes: seq<Code>, high: string): string {
    if st == Fail then ""
    else if st.mode == Colon || st.mode == After then WithoutLast(Before(st, levels))
    else if st.mode.Str? then Before(st, levels) + (['"'] + (DumpCodes(codes) + Pending(st.mode.lex, high)))
    else Before(st, levels)
  }

  /** What is printed of a kept text. */
  function Printed(f: Printer, kept: string, n: nat): string {
    var st, b := Run(START, kept), B.Built(f, kept);
    if n > |b.levels| then "" else PrintedAt(st, b.levels[n..], b.codes, b.high)
  }

  /** The containers that are open around the place of the marker, or the whole text. */
  predicate Contains(f: Printer, kept: string, n: nat) { n == 0 || n < |B.Built(f, kept).levels| }

  // ---------------------------------------------------------------- the lead outside of strings

  lemma FrontEnds(levels: seq<B.Level>)
    requires levels != []
    ensures Innermost(levels).ObjectLevel? ==> Front(levels) != "" && Front(levels)[|Front(levels)| - 1] == ':'
    ensures Innermost(levels).ArrayLevel? && Filled(Innermost(levels)) ==>
              Front(levels) != "" && Front(levels)[|Front(levels)| - 1] == ','
    ensures Innermost(levels).ObjectLevel? && Filled(Innermost(levels)) ==>
              KeyFront(levels) != "" && KeyFront(levels)[|KeyFront(levels)| - 1] == ','
  {
    hide EntryTexts, Quoted, Pre, LevelFront, Front;
    var l := Innermost(levels);
    OneLevelFront(levels);
    LevelFrontEnds(l);
    if l.ObjectLevel? && Filled(l) { PreEnds(EntryTexts(l.entries)); }
  }

  lemma OneLevelFront(levels: seq<B.Level>)
    requires levels != []
    ensures Front(levels) == Front(Enclosing(levels)) + LevelFront(Innermost(levels))
  {
    hide LevelFront;
  }

  lemma LevelFrontEnds(l: B.Level)
    ensures l.ObjectLevel? || Filled(l) ==>
              LevelFront(l) != "" && LevelFront(l)[|LevelFront(l)| - 1] == if l.ObjectLevel? then ':' else ','
  {
    hide EntryTexts, Quoted, Pre;
    if l.ArrayLevel? && Filled(l) { PreEnds(l.items); }
  }

  lemma PreEnds(xs: seq<string>)
    requires xs != []
    ensures Pre(xs) != "" && Pre(xs)[|Pre(xs)| - 1] == ','
  {
  }

  lemma LastRestored(s: string, c: char)
    requires s != "" && s[|s| - 1] == c
    ensures WithoutLast(s) + [c, '"'] == s + ['"']
  {
    assert s == s[..|s| - 1] + [c];
  }

  /** Outside of strings the lead is printed as it is. */
  lemma LeadOutside(f: Printer, kept: string, n: nat)
    requires Prints(f) && Run(START, kept).At? && Leads(kept) && !Run(START, kept).mode.Str? && Contains(f, kept, n)
    ensures var st, b := Run(START, kept), B.Built(f, kept);
            && B.Build(f, st, b, Lead(kept)) == Inside(b.levels, [], "")
            && PrintedAt(st, b.levels[n..], b.codes, b.high) + Lead(kept) == Before(st, b.levels[n..]) + ['"']
  {
    hide Step, Run, B.Add, B.Build, B.Built, Lead, Before, DumpCodes, Pending, ValueTexts, Leads, Padding;
    var st, b := Run(START, kept), B.Built(f, kept);
    BuiltFits(f, kept);
    LeadOf(kept, st.stack, st.mode);
    OutsideMode(kept);
    LeadAdds(f, st, b, Lead(kept));
    if st.mode == Colon || st.mode == After {
      InnermostDepth(f, kept, n);
      PlaceEnds(st, b.levels[n..]);
      LastRestored(Before(st, b.levels[n..]), if st.mode == Colon then ':' else ',');
    }
  }

  /** A text that leads into a string is not inside a number or a literal. */
  lemma OutsideMode(kept: string)
    requires Run(START, kept).At? && Leads(kept) && !Run(START, kept).mode.Str?
    ensures Run(START, kept).mode in {Value, ValueOrEnd, Key, KeyOrEnd, Colon, After}
    ensures Run(START, kept).mode == After ==> Run(START, kept).stack != []
  {
    hide Step;
    var st := Run(START, kept);
    assert Run(st, "") == st;
    if st.mode == After && st.stack == [] {
      AfterRoot();
      assert ",\"" == [','] + "\"";
      RunCons(st, ',', "\"");
      RunFail("\"");
    }
  }

  lemma AfterRoot()
    ensures Step(At([], After), ',') == Fail
  {
  }

  lemma LeadAdds(f: Printer, st: State, b: B.Parts, lead: string)
    requires Fitting(st, b) && st.mode in {Value, ValueOrEnd, Key, KeyOrEnd, Colon, After} &&
             (st.mode == After ==> st.stack != [])
    requires lead == if st.mode == Colon then ":\"" else if st.mode == After then ",\"" else "\""
    ensures B.Build(f, st, b, lead) == Inside(b.levels, [], "")
  {
    hide ValueTexts, Run, B.Build;
    if st.mode == Colon {
      assert lead == [':'] + ['"'];
      B.BuildCons(f, st, b, ':', ['"']);
      B.BuildOne(f, At(st.stack, Value), b, '"');
    } else if st.mode == After {
      assert lead == [','] + ['"'];
      B.BuildCons(f, st, b, ',', ['"']);
      B.BuildOne(f, Step(st, ','), b, '"');
    } else {
      B.BuildOne(f, st, b, '"');
    }
  }

  lemma InnermostDepth(f: Printer, kept: string, n: nat)
    requires Prints(f) && Run(START, kept).At? && Contains(f, kept, n)
    requires Run(START, kept).mode == Colon || (Run(START, kept).mode == After && Run(START, kept).stack != [])
    ensures var st, levels := Run(START, kept), B.Built(f, kept).levels;
            && n < |levels| && levels[n..] != [] && Innermost(levels[n..]) == Innermost(levels)
            && (if st.mode == Colon then Innermost(levels).ObjectLevel?
                else Filled(Innermost(levels)) && (PutsKey(st) <==> Innermost(levels).ObjectLevel?))
  {
    hide Run, B.Built, ValueTexts, ScalarFits;
    BuiltFits(f, kept);
  }

  lemma PlaceEnds(st: State, levels: seq<B.Level>)
    requires st.At? && levels != []
    requires st.mode == Colon ==> Innermost(levels).ObjectLevel?
    requires st.mode == After ==> Filled(Innermost(levels)) && (PutsKey(st) <==> Innermost(levels).ObjectLevel?)
    requires st.mode == Colon || st.mode == After
    ensures var s := Before(st, levels); s != "" && s[|s| - 1] == if st.mode == Colon then ':' else ','
  {
    hide Front, KeyFront;
    FrontEnds(levels);
  }

  // ---------------------------------------------------------------- the lead

  /** The lead builds on what is kept: it is printed as it is, unless it completes the escape of a
      printable character. */
  lemma LeadBuilds(f: Printer, kept: string, n: nat) returns (codes: seq<Code>, c: char)
    requires Prints(f) && Run(START, kept).At? && Leads(kept) && Contains(f, kept, n)
    ensures var st, b := Run(START, kept), B.Built(f, kept);
            && n <= |b.levels| && B.Build(f, st, b, Lead(kept)) == Inside(b.levels, codes, "")
            && var place := Before(st, b.levels[n..]) + ['"'];
               if OpenPrintable(st.mode) then
                 && DumpCodes(codes) == DumpCodes(b.codes) + [c] && c != '\\'
                 && Printed(f, kept, n) == place + DumpCodes(b.codes) + Pending(st.mode.lex, b.high)
               else Printed(f, kept, n) + Lead(kept) == place + DumpCodes(codes)
  {
    hide Step, Run, B.Add, B.Build, B.Built, Lead, Before, DumpCodes, Pending, Leads;
    var st, b := Run(START, kept), B.Built(f, kept);
    if st.mode.Str? {
      NotMistaken(kept);
      codes, c := LeadInString(f, kept);
      var place := Before(st, b.levels[n..]);
      Associate4(place, ['"'], DumpCodes(b.codes), Pending(st.mode.lex, b.high), Lead(kept));
    } else {
      LeadOutside(f, kept, n);
      codes, c := [], ' ';
      NoCodes();
    }
  }

  lemma NoCodes()
    ensures DumpCodes([]) == ""
  {
  }

  lemma Associate4(a: string, b: string, c: string, d: string, e: string)
    ensures a + (b + (c + d)) == a + b + c + d
    ensures a + (b + (c + d)) + e == a + b + (c + d + e)
  {
  }

  lemma NotMistaken(kept: string)
    requires Run(START, kept).At? && Run(START, kept).mode.Str? && Leads(kept)
    ensures InString(Run(START, kept)) && !PairMistaken(kept, Run(START, kept).mode)
  {
    hide Run, Step, Padding;
    var st := Run(START, kept);
    if st.mode.lex.Hex? || st.mode.needLow {
      LeadOf(kept, st.stack, st.mode);
      PaddingLeads(kept);
    } else {
      hide LastEscape, IsHigh;
    }
  }

  // ---------------------------------------------------------------- the marker

  /** Characters that are printed as they are. */
  predicate PlainAscii(marker: string) {
    forall i :: 0 <= i < |marker| ==> ' ' <= marker[i] <= '~' && marker[i] != '"' && marker[i] != '\\'
  }

  function Points(s: string): (r: seq<Code>)
    ensures |r| == |s|
  {
    seq(|s|, i requires 0 <= i < |s| => s[i] as int)
  }

  lemma {:induction false} MarkerBuilds(
    f: Printer, stack: seq<Frame>, isKey: bool, levels: seq<B.Level>, codes: seq<Code>, marker: string)
    requires PlainAscii(marker)
    ensures var st := At(stack, Str(isKey, Plain, false));
            && B.Build(f, st, Inside(levels, codes, ""), marker) == Inside(levels, codes + Points(marker), "")
            && Run(st, marker) == st && DumpCodes(codes + Points(marker)) == DumpCodes(codes) + marker
    decreases |marker|
  {
    hide Step, B.Add, DumpCode, DumpCodes;
    var st := At(stack, Str(isKey, Plain, false));
    if marker == "" {
      assert codes + Points(marker) == codes && DumpCodes(codes) + "" == DumpCodes(codes);
    } else {
      var init, c := marker[..|marker| - 1], marker[|marker| - 1];
      MarkerBuilds(f, stack, isKey, levels, codes, init);
      var more := codes + Points(init);
      PlainAdds(f, stack, isKey, levels, more, c);
      OneMoreCode(more, c as int);
      assert more + [c as int] == codes + Points(marker);
      assert DumpCodes(codes) + init + [c] == DumpCodes(codes) + marker;
    }
  }

  lemma PlainAdds(f: Printer, stack: seq<Frame>, isKey: bool, levels: seq<B.Level>, codes: seq<Code>, c: char)
    requires ' ' <= c <= '~' && c != '"' && c != '\\'
    ensures var st := At(stack, Str(isKey, Plain, false));
            && B.Add(f, st, Inside(levels, codes, ""), c) == Inside(levels, codes + [c as int], "") && Step(st, c) == st
    ensures DumpCode(c as int) == [c]
  {
  }

  // ---------------------------------------------------------------- the dump of the healed text

  /** The code points of the string that contains the marker. */
  function MarkedCodes(f: Printer, kept: string, marker: string): seq<Code> {
    B.Build(f, Run(START, kept), B.Built(f, kept), Lead(kept) + marker).codes
  }

  /** Open containers in which a key has been read. */
  function WithKey(levels: seq<B.Level>, key: seq<Code>): seq<B.Level> {
    if levels == [] || Innermost(levels).ArrayLevel? then levels
    else Enclosing(levels) + [Innermost(levels).(key := key)]
  }

  /** The dump of the container that is open at depth `n`, once the text is healed. */
  function HealedDump(f: Printer, kept: string, marker: string, n: nat): string
    requires Contains(f, kept, n)
  {
    var levels := B.Built(f, kept).levels[n..];
    var codes := MarkedCodes(f, kept, marker);
    if PutsKey(Run(START, kept)) then Wrap(WithKey(levels, codes), "1") else Wrap(levels, Quoted(codes))
  }

  lemma LeadsTo(kept: string)
    requires Run(START, kept).At? && Leads(kept)
    ensures var st := Run(START, kept); Run(st, Lead(kept)) == At(st.stack, Str(PutsKey(st), Plain, false))
  {
    hide Step, Run, Padding, PairMistaken;
    var st := Run(START, kept);
    LeadOf(kept, st.stack, st.mode);
    if st.mode.Str? {
      NotMistaken(kept);
      RunQuoteBehind(st.stack, st.mode);
      if st.mode.lex.Hex? || st.mode.needLow { PaddingLeads(kept); }
    } else {
      OutsideMode(kept);
      RunQuoteBehind(st.stack, st.mode);
    }
  }

  /** What has been built behind the marker. */
  lemma MarkedBuilds(f: Printer, kept: string, marker: string)
    requires Prints(f) && Run(START, kept).At? && Leads(kept) && PlainAscii(marker)
    ensures var st, b := Run(START, kept), B.Built(f, kept);
            var text := kept + (Lead(kept) + marker);
            && B.Built(f, text) == Inside(b.levels, MarkedCodes(f, kept, marker), "")
            && Run(START, text) == At(st.stack, Str(PutsKey(st), Plain, false))
  {
    hide Step, Run, B.Add, B.Build, Lead, DumpCodes, Leads, Printed, Before, PlainAscii, Points;
    var st, b := Run(START, kept), B.Built(f, kept);
    var codes, c := LeadBuilds(f, kept, 0);
    LeadsTo(kept);
    B.BuildAppend(f, START, B.NOTHING, kept, Lead(kept) + marker);
    RunAppend(START, kept, Lead(kept) + marker);
    B.BuildAppend(f, st, b, Lead(kept), marker);
    RunAppend(st, Lead(kept), marker);
    MarkerBuilds(f, st.stack, PutsKey(st), b.levels, codes, marker);
  }

  lemma QuoteEnds(f: Printer, stack: seq<Frame>, levels: seq<B.Level>, codes: seq<Code>)
    ensures var s0, s1 := At(stack, Str(false, Plain, false)), At(stack, Str(true, Plain, false));
            && B.Add(f, s0, Inside(levels, codes, ""), '"') == B.HandleValue(levels, Quoted(codes)) &&
               Step(s0, '"') == At(stack, After)
            && B.Add(f, s1, Inside(levels, codes, ""), '"') == B.KeyRead(levels, codes) &&
               Step(s1, '"') == At(stack, Colon)
  {
  }

  lemma ValueTail(f: Printer, stack: seq<Frame>, levels: seq<B.Level>, codes: seq<Code>)
    requires Shaped(stack, levels)
    ensures var st, b, s := At(stack, Str(false, Plain, false)), Inside(levels, codes, ""), ['"'] + CloseText(stack);
            && G.Ended([], Run(st, s))
            && B.Settled(f, Run(st, s), B.Build(f, st, b, s)) == B.Ready([], Some(Wrap(levels, Quoted(codes))))
  {
    hide Step, Run, B.Add, B.Build, B.Settled, B.HandleValue, Wrap;
    var st, b := At(stack, Str(false, Plain, false)), Inside(levels, codes, "");
    QuoteEnds(f, stack, levels, codes);
    RunCons(st, '"', CloseText(stack));
    B.BuildCons(f, st, b, '"', CloseText(stack));
    SettledAfter(f, stack, B.HandleValue(levels, Quoted(codes)));
    CloseBuilds(f, stack, At(stack, After), B.HandleValue(levels, Quoted(codes)), levels, Quoted(codes));
  }

  /** `: 1` behind a key. */
  lemma OneBuilds(f: Printer, stack: seq<Frame>, levels: seq<B.Level>, codes: seq<Code>, s: string)
    requires levels != [] && Innermost(levels).ObjectLevel?
    ensures var st, open := At(stack, Str(true, Plain, false)), WithKey(levels, codes);
            && Run(st, "\": 1" + s) == Run(At(stack, Num(Number.Digits)), s)
            && B.Build(f, st, Inside(levels, codes, ""), "\": 1" + s)
               == B.Build(f, At(stack, Num(Number.Digits)), B.Parts(open, [], "", "1", None), s)
  {
    hide Run, B.Build, B.HandleValue, DumpCodes;
    var st, b := At(stack, Str(true, Plain, false)), Inside(levels, codes, "");
    var b1 := B.Ready(WithKey(levels, codes), None);
    assert "\": 1" + s == ['"'] + ([':'] + ([' '] + (['1'] + s)));
    QuoteEnds(f, stack, levels, codes);
    assert B.KeyRead(levels, codes) == b1;
    OneSteps(f, stack, b1.levels);
    hide Step, B.Add;
    RunCons(st, '"', [':'] + ([' '] + (['1'] + s)));
    B.BuildCons(f, st, b, '"', [':'] + ([' '] + (['1'] + s)));
    RunCons(At(stack, Colon), ':', [' '] + (['1'] + s));
    B.BuildCons(f, At(stack, Colon), b1, ':', [' '] + (['1'] + s));
    RunCons(At(stack, Value), ' ', ['1'] + s);
    B.BuildCons(f, At(stack, Value), b1, ' ', ['1'] + s);
    RunCons(At(stack, Value), '1', s);
    B.BuildCons(f, At(stack, Value), b1, '1', s);
  }

  lemma OneSteps(f: Printer, stack: seq<Frame>, levels: seq<B.Level>)
    ensures var b := B.Ready(levels, None);
            && Step(At(stack, Colon), ':') == At(stack, Value) && B.Add(f, At(stack, Colon), b, ':') == b
            && Step(At(stack, Value), ' ') == At(stack, Value) && B.Add(f, At(stack, Value), b, ' ') == b
            && Step(At(stack, Value), '1') == At(stack, Num(Number.Digits))
            && B.Add(f, At(stack, Value), b, '1') == B.Parts(levels, [], "", "1", None)
  {
  }

  lemma KeyTail(f: Printer, stack: seq<Frame>, levels: seq<B.Level>, codes: seq<Code>)
    requires Prints(f) && Shaped(stack, levels) && levels != [] && Innermost(levels).ObjectLevel?
    ensures var st, b, s := At(stack, Str(true, Plain, false)), Inside(levels, codes, ""), "\": 1" + CloseText(stack);
            && G.Ended([], Run(st, s))
            && B.Settled(f, Run(st, s), B.Build(f, st, b, s)) == B.Ready([], Some(Wrap(WithKey(levels, codes), "1")))
  {
    hide Step, Run, B.Add, B.Build, B.HandleValue, Wrap, DumpCodes;
    OneBuilds(f, stack, levels, codes, CloseText(stack));
    var b := B.Parts(WithKey(levels, codes), [], "", "1", None);
    CloseBuilds(f, stack, At(stack, Num(Number.Digits)), b, WithKey(levels, codes), "1");
  }

  /** The dump of the whole healed text. */
  lemma HealedIsDumped(f: Printer, kept: string, marker: string)
    requires Prints(f) && Run(START, kept).At? && Leads(kept) && PlainAscii(marker)
    ensures var text := HealedAt(kept, marker).Text();
            WellFormed(text) && B.DumpOf(f, text) == HealedDump(f, kept, marker, 0)
  {
    hide Step, Run, B.Add, B.Build, B.Built, B.Settled, Lead, Leads, PlainAscii, MarkedCodes, Wrap, WithKey,
        CloseText, ValueTexts,
         DumpCodes;
    var st, b := Run(START, kept), B.Built(f, kept);
    var text := kept + (Lead(kept) + marker);
    var tail := HealedAt(kept, marker).tail;
    MarkedBuilds(f, kept, marker);
    BuiltFits(f, kept);
    RunAppend(START, text, tail);
    BuiltAppend(f, text, tail);
    assert b.levels[0..] == b.levels;
    if PutsKey(st) {
      KeyLevel(st, b.levels);
      KeyTail(f, st.stack, b.levels, MarkedCodes(f, kept, marker));
    } else {
      ValueTail(f, st.stack, b.levels, MarkedCodes(f, kept, marker));
    }
    SettledRoot(f, text + tail, HealedDump(f, kept, marker, 0));
  }

  lemma BuiltAppend(f: Printer, s: string, t: string)
    ensures B.Built(f, s + t) == B.Build(f, Run(START, s), B.Built(f, s), t)
  {
    B.BuildAppend(f, START, B.NOTHING, s, t);
  }

  lemma SettledRoot(f: Printer, s: string, t: string)
    requires G.Ended([], Run(START, s)) && B.Settled(f, Run(START, s), B.Built(f, s)) == B.Ready([], Some(t))
    ensures WellFormed(s) && B.DumpOf(f, s) == t
  {
    hide Run, B.Built, B.Settled;
  }

  lemma KeyLevel(st: State, levels: seq<B.Level>)
    requires st.At? && PutsKey(st) && Shaped(st.stack, levels) && InnermostFits(st.mode, levels)
    requires st.mode.Str? ==> levels != [] && Innermost(levels).ObjectLevel?
    ensures levels != [] && Innermost(levels).ObjectLevel?
  {
  }
}
