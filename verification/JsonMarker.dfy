/**
  Finding the cut again: the arguments of a tool call are dumped, the dump marker is searched for from
  the left, and the dump is cut at the first hit (chat-parser.cpp).
  */
module JsonMarker {
  import opened Text
  import opened JsonText
  import opened JsonEscapes
  import opened JsonHealing
  import opened JsonDump
  import B = JsonBuilder
  import opened JsonDumping
  import opened JsonOpen
  import opened JsonKept
  import opened JsonLead
  import opened JsonPlace
  import G = JsonGrammar

  // ---------------------------------------------------------------- searching and cutting

  /** `idx = dump.find(d); if found, dump.resize(idx)`. */
  function Cut(dump: string, d: string): (r: string)
    ensures r <= dump
  {
    match Find(dump, d, 0)
    case Some(i) => dump[..i]
    case None => dump
  }

  ghost predicate Absent(s: string, p: string) {
    forall k :: 0 <= k ==> !OccursAt(s, p, k)
  }

  /** `kept` ends with the first `j` characters of `d`, and the rest of `d` begins `d` again. */
  predicate OverlapsAt(kept: string, d: string, j: nat) {
    0 < j < |d| && j <= |kept| && kept[|kept| - j..] == d[..j] && d[j..] <= d
  }

  ghost predicate Overlaps(kept: string, d: string) {
    exists j :: OverlapsAt(kept, d, j)
  }

  /** A hit in front of `d` is one in `kept`, or reaches into `d`. */
  lemma EarlyHitIff(kept: string, d: string, rest: string, k: nat)
    requires k < |kept| && d != ""
    ensures OccursAt(kept + d + rest, d, k) <==> OccursAt(kept, d, k) || OverlapsAt(kept, d, |kept| - k)
  {
    var text, j := kept + d + rest, |kept| - k;
    if j >= |d| {
      assert text[k..k + |d|] == kept[k..k + |d|];
    } else {
      assert text[k..k + |d|] == kept[k..] + d[..|d| - j];
      assert d == d[..j] + d[j..];
      assert (kept[k..] + d[..|d| - j])[..j] == kept[k..] && (kept[k..] + d[..|d| - j])[j..] == d[..|d| - j];
    }
  }

  /** The first hit in `kept + d + rest` is that of `d` exactly if none is in `kept` or overlaps it. */
  lemma FirstHitIff(kept: string, d: string, rest: string)
    requires d != ""
    ensures Cut(kept + d + rest, d) == kept <==> Absent(kept, d) && !Overlaps(kept, d)
  {
    hide OverlapsAt, OccursAt;
    var text := kept + d + rest;
    Stands(kept, d, rest);
    var hit := Find(text, d, 0);
    if hit.value < |kept| {
      EarlyHitIff(kept, d, rest, hit.value);
    } else {
      assert text[..|kept|] == kept;
      forall k: nat ensures !OccursAt(kept, d, k) {
        if OccursAt(kept, d, k) { HitInside(kept, d, k); EarlyHitIff(kept, d, rest, k); }
      }
      forall j: nat ensures !OverlapsAt(kept, d, j) {
        if OverlapsAt(kept, d, j) { OverlapInside(kept, d, j); EarlyHitIff(kept, d, rest, |kept| - j); }
      }
    }
  }

  lemma Stands(kept: string, d: string, rest: string)
    ensures OccursAt(kept + d + rest, d, |kept|)
  {
  }

  lemma HitInside(kept: string, d: string, k: nat)
    requires OccursAt(kept, d, k) && d != ""
    ensures k < |kept|
  {
  }

  lemma OverlapInside(kept: string, d: string, j: nat)
    requires OverlapsAt(kept, d, j)
    ensures 0 <= |kept| - j < |kept|
  {
  }

  // ---------------------------------------------------------------- the dump with the marker in it

  /** A key that contains the marker is not among those of its object. */
  predicate KeyFresh(f: Printer, kept: string, marker: string) {
    var st, levels := Run(START, kept), B.Built(f, kept).levels;
    PutsKey(st) && levels != [] && Innermost(levels).ObjectLevel? ==>
      var es := Innermost(levels).entries; Place(es, MarkedCodes(f, kept, marker)) == |es|
  }

  /** The cut at the first hit leaves what was kept. */
  predicate CutsRight(f: Printer, kept: string, marker: string, n: nat)
    requires Contains(f, kept, n)
  {
    Cut(HealedDump(f, kept, marker, n), Lead(kept) + marker) == Printed(f, kept, n)
  }

  /** The string with the marker stands where its container has place for it. */
  lemma DumpOpens(f: Printer, kept: string, marker: string, n: nat) returns (rest: string)
    requires Prints(f) && Run(START, kept).At? && Leads(kept) && Contains(f, kept, n) && KeyFresh(f, kept, marker)
    ensures HealedDump(f, kept, marker, n)
            == Before(Run(START, kept), B.Built(f, kept).levels[n..]) + ['"']
               + DumpCodes(MarkedCodes(f, kept, marker)) + rest
  {
    hide Run, B.Built, B.Build, Lead, MarkedCodes, DumpCodes, Front, Back, Pre, EntryTexts, Place, ValueTexts, Leads,
        Wrap;
    var st, b := Run(START, kept), B.Built(f, kept);
    var levels, codes := b.levels[n..], MarkedCodes(f, kept, marker);
    BuiltFits(f, kept);
    if PutsKey(st) {
      KeyLevel(st, b.levels);
      assert Innermost(levels) == Innermost(b.levels);
      WrapParts(WithKey(levels, codes), "1");
      FreshFront(levels, codes);
      rest := ['"'] + [':'] + "1" + Back(WithKey(levels, codes));
      Quotes(KeyFront(levels), DumpCodes(codes), [':'], "1" + Back(WithKey(levels, codes)));
    } else {
      WrapParts(levels, Quoted(codes));
      rest := ['"'] + Back(levels);
      Quotes(Front(levels), DumpCodes(codes), "", Back(levels));
    }
  }

  lemma Quotes(a: string, codes: string, colon: string, rest: string)
    ensures a + (['"'] + codes + ['"'] + colon) + rest == a + ['"'] + codes + (['"'] + colon + rest)
    ensures colon == "" ==> a + (['"'] + codes + ['"']) + rest == a + ['"'] + codes + (['"'] + rest)
    ensures forall c, r :: rest == c + r ==> ['"'] + colon + rest == ['"'] + colon + c + r
  {
  }

  lemma FreshFront(levels: seq<B.Level>, key: seq<Code>)
    requires levels != [] && Innermost(levels).ObjectLevel?
    requires Place(Innermost(levels).entries, key) == |Innermost(levels).entries|
    ensures Front(WithKey(levels, key)) == KeyFront(levels) + (Quoted(key) + [':'])
  {
    hide Pre, EntryTexts, Quoted, Place;
    var es, open := Innermost(levels).entries, WithKey(levels, key);
    assert Enclosing(open) == Enclosing(levels) && Innermost(open) == B.ObjectLevel(es, key);
    assert es[..|es|] == es;
  }

  /** Replacing the value of a member by 1 is not completing the text behind all members. */
  lemma Differs(c: string, v: string, r: string, y: string, back: string, d: string)
    requires ValueText(v) && d != "" && (r != "" ==> r[0] == ',') && (if y == "" then d[0] == ',' else y[0] == ',')
    ensures Cut(c + "1" + (r + ['}']) + back, d) != c + v + r + y
  {
    var dump, k := c + "1" + (r + ['}']) + back, c + v + r + y;
    assert dump[|c|] == '1' && k[|c|] == v[0];
    assert dump[|c| + 1] == (r + ['}'])[0] && dump[|c| + 1 + |r|] == '}';
    if |v| > 1 { assert k[|c| + 1] == v[1]; }
    if |v| == 1 && y != "" { assert k[|c| + 1 + |r|] == ','; }
    if y == "" { NoHitAt(dump, d, |c| + 1 + |r|); }
  }

  lemma NoHitAt(s: string, p: string, k: nat)
    requires k < |s| && p != "" && s[k] != p[0]
    ensures !OccursAt(s, p, k)
  {
  }

  lemma {:induction false} PostStarts(xs: seq<string>)
    ensures Post(xs) != "" ==> Post(xs)[0] == ','
    decreases |xs|
  {
    if xs != [] { PostStarts(xs[..|xs| - 1]); }
  }

  /** What is printed of the kept text, when a key is being read or due: all members, and more. */
  lemma PrintedMembers(f: Printer, kept: string, n: nat) returns (y: string)
    requires Prints(f) && Run(START, kept).At? && Leads(kept) && Contains(f, kept, n) && PutsKey(Run(START, kept))
    requires var levels := B.Built(f, kept).levels;
             levels != [] && Innermost(levels).ObjectLevel? && Innermost(levels).entries != []
    ensures var st, levels := Run(START, kept), B.Built(f, kept).levels;
            && n < |levels|
            && Printed(f, kept, n) ==
               Front(Enclosing(levels[n..])) + (['{'] + Join(EntryTexts(Innermost(levels).entries))) + y
            && (if st.mode == After then y == "" else y != "" && y[0] == ',')
  {
    hide Run, B.Built, Front, Join, Pre, EntryTexts, DumpCodes, Pending, ValueTexts, Leads;
    var st, b := Run(START, kept), B.Built(f, kept);
    BuiltFits(f, kept);
    OutsideKey(kept);
    var levels := b.levels[n..];
    assert Innermost(levels) == Innermost(b.levels);
    var front, texts := Front(Enclosing(levels)), EntryTexts(Innermost(levels).entries);
    JoinPre(texts);
    assert KeyFront(levels) == front + (['{'] + Join(texts)) + [','];
    if st.mode == After {
      y := "";
      assert WithoutLast(KeyFront(levels)) == front + (['{'] + Join(texts));
      assert front + (['{'] + Join(texts)) + "" == front + (['{'] + Join(texts));
    } else if st.mode.Str? {
      var more := ['"'] + (DumpCodes(b.codes) + Pending(st.mode.lex, b.high));
      y := [','] + more;
      assert front + (['{'] + Join(texts)) + [','] + more == front + (['{'] + Join(texts)) + y;
    } else {
      y := [','];
    }
  }

  lemma OutsideKey(kept: string)
    requires Run(START, kept).At? && PutsKey(Run(START, kept))
    ensures Run(START, kept).mode in {Key, KeyOrEnd, After} ||
            (Run(START, kept).mode.Str? && Run(START, kept).mode.isKey)
  {
  }

  /** The map keeps a member with the same key at its place: nothing of what is printed there is kept. */
  lemma TakenDiffers(f: Printer, kept: string, marker: string, n: nat)
    requires Prints(f) && Run(START, kept).At? && Leads(kept) && Contains(f, kept, n) && !KeyFresh(f, kept, marker)
    requires marker != ""
    ensures !CutsRight(f, kept, marker, n)
  {
    hide Run, B.Built, B.Build, Lead, MarkedCodes, DumpCodes, Front, Back, Pre, Post, Join, EntryTexts, Put, Place,
        ValueText,
         Leads, Wrap, Cut, Printed, B.LevelText;
    var st, b := Run(START, kept), B.Built(f, kept);
    var es, codes := Innermost(b.levels).entries, MarkedCodes(f, kept, marker);
    var p, levels := Place(es, codes), b.levels[n..];
    BuiltFits(f, kept);
    assert Innermost(levels) == Innermost(b.levels);
    var y := PrintedMembers(f, kept, n);
    InnermostTexts(b.levels);
    MemberSplit(es, p);
    PostStarts(EntryTexts(es[p + 1..]));
    TakenDump(levels, es, codes, p);
    LeadStarts(kept, marker);
    var c := Front(Enclosing(levels)) + (['{'] + Pre(EntryTexts(es[..p])) + (Quoted(codes) + [':']));
    var r, back := Post(EntryTexts(es[p + 1..])), Back(Enclosing(levels));
    Differs(c, es[p].text, r, y, back, Lead(kept) + marker);
    KeptSplit(Front(Enclosing(levels)), Pre(EntryTexts(es[..p])), Quoted(codes) + [':'], es[p].text, r, y);
  }

  lemma LeadStarts(kept: string, marker: string)
    ensures marker != "" ==> Lead(kept) + marker != ""
    ensures Run(START, kept).At? && Run(START, kept).mode == After ==>
            Lead(kept) + marker != "" && (Lead(kept) + marker)[0] == ','
  {
    hide Run;
  }

  /** A member in the joined text of all members. */
  lemma MemberSplit(es: seq<Entry>, p: nat)
    requires p < |es|
    ensures Join(EntryTexts(es))
            == Pre(EntryTexts(es[..p])) + (Quoted(es[p].key) + [':'] + es[p].text) + Post(EntryTexts(es[p + 1..]))
  {
    hide Join, Pre, Post, Quoted;
    JoinSplit(EntryTexts(es), p);
    assert EntryTexts(es)[..p] == EntryTexts(es[..p]) && EntryTexts(es)[p + 1..] == EntryTexts(es[p + 1..]);
  }

  lemma KeptSplit(front: string, pre: string, key: string, v: string, r: string, y: string)
    ensures front + (['{'] + (pre + (key + v) + r)) + y == front + (['{'] + pre + key) + v + r + y
  {
  }

  /** The dump when the key is taken: the member at its place gets the new value. */
  lemma TakenDump(levels: seq<B.Level>, es: seq<Entry>, key: seq<Code>, p: nat)
    requires levels != [] && Innermost(levels).ObjectLevel? && Innermost(levels).entries == es
    requires p == Place(es, key) < |es|
    ensures Wrap(WithKey(levels, key), "1")
            == Front(Enclosing(levels)) + (['{'] + Pre(EntryTexts(es[..p])) + (Quoted(key) + [':'])) + "1"
               + (Post(EntryTexts(es[p + 1..])) + ['}']) + Back(Enclosing(levels))
  {
    hide Wrap, Front, Back, Pre, Post, EntryTexts, Quoted, Place;
    var open := WithKey(levels, key);
    assert Enclosing(open) == Enclosing(levels) && Innermost(open) == B.ObjectLevel(es, key);
    WrapParts(open, "1");
    OneLevel(open);
    OneLevelAround(Front(Enclosing(levels)), LevelFront(Innermost(open)), LevelBack(Innermost(open)),
        Back(Enclosing(levels)));
  }

  lemma OneLevel(levels: seq<B.Level>)
    requires levels != []
    ensures Front(levels) == Front(Enclosing(levels)) + LevelFront(Innermost(levels))
    ensures Back(levels) == LevelBack(Innermost(levels)) + Back(Enclosing(levels))
  {
    hide LevelFront, LevelBack;
  }

  lemma OneLevelAround(a: string, b: string, c: string, d: string)
    ensures (a + b) + "1" + (c + d) == a + b + "1" + c + d
  {
  }

  // ---------------------------------------------------------------- when the cut is right

  /**
    The cut at the first hit leaves what is printed of the kept text exactly if the marker does not
    complete the escape of a printable character, its key is new, and neither what is printed of the
    kept text nor an end of it with a beginning of the marker makes up an earlier hit.
    */
  lemma CutIff(f: Printer, kept: string, marker: string, n: nat)
    requires Prints(f) && Run(START, kept).At? && Leads(kept) && Contains(f, kept, n) && PlainAscii(marker) &&
             marker != ""
    ensures var d, printed := Lead(kept) + marker, Printed(f, kept, n);
            CutsRight(f, kept, marker, n) <==>
            && !OpenPrintable(Run(START, kept).mode) && KeyFresh(f, kept, marker)
            && Absent(printed, d) && !Overlaps(printed, d)
  {
    hide Run, B.Built, B.Build, Lead, MarkedCodes, DumpCodes, Leads, Printed, HealedDump, KeyFresh, Before, Cut,
        Pending,
         PlainAscii;
    if !KeyFresh(f, kept, marker) {
      TakenDiffers(f, kept, marker, n);
    } else {
      var st, b := Run(START, kept), B.Built(f, kept);
      var codes, c := LeadBuilds(f, kept, n);
      var rest := DumpOpens(f, kept, marker, n);
      MarkedAre(f, kept, marker, codes);
      var place := Before(st, b.levels[n..]) + ['"'];
      if OpenPrintable(st.mode) {
        PendingStarts(st.mode, b.high);
        NotThere(place + DumpCodes(b.codes), c, marker + rest, Pending(st.mode.lex, b.high), Lead(kept) + marker);
        assert place + (DumpCodes(b.codes) + [c] + marker) + rest ==
               place + DumpCodes(b.codes) + ([c] + (marker + rest));
      } else {
        assert place + (DumpCodes(codes) + marker) + rest == place + DumpCodes(codes) + marker + rest;
        assert Printed(f, kept, n) + (Lead(kept) + marker) + rest == Printed(f, kept, n) + Lead(kept) + marker + rest;
        FirstHitIff(Printed(f, kept, n), Lead(kept) + marker, rest);
      }
    }
  }

  lemma MarkedAre(f: Printer, kept: string, marker: string, codes: seq<Code>)
    requires Prints(f) && Run(START, kept).At? && Leads(kept) && PlainAscii(marker)
    requires B.Build(f, Run(START, kept), B.Built(f, kept), Lead(kept)) == Inside(B.Built(f, kept).levels, codes, "")
    ensures DumpCodes(MarkedCodes(f, kept, marker)) == DumpCodes(codes) + marker
  {
    hide Run, B.Built, B.Build, Lead, DumpCodes, Leads, PlainAscii, Points;
    var st, b := Run(START, kept), B.Built(f, kept);
    LeadsTo(kept);
    B.BuildAppend(f, st, b, Lead(kept), marker);
    MarkerBuilds(f, st.stack, PutsKey(st), b.levels, codes, marker);
  }

  lemma PendingStarts(m: Mode, high: string)
    requires m.Str?
    ensures m.lex.Hex? ==> Pending(m.lex, high) != "" && Pending(m.lex, high)[0] == '\\'
  {
    hide Lower;
  }

  /** A character is printed where the kept text has an open escape. */
  lemma NotThere(a: string, c: char, rest: string, pending: string, d: string)
    requires pending != "" && pending[0] == '\\' && c != '\\'
    ensures Cut(a + ([c] + rest), d) != a + pending
  {
    var dump, k := a + ([c] + rest), a + pending;
    assert dump[|a|] == c && k[|a|] == '\\';
  }

  /** The same for a text that was healed: its dump is that of its syntax tree. */
  lemma HealedCutIff(f: Printer, s: string, marker: string, r: Outcome, before: string, v: G.Value, after: string)
    requires Prints(f) && PlainAscii(marker) && marker != "" && GoodHealing(s, marker, r)
    requires G.Blank(before) && G.ValidValue(v) && G.Blank(after) && r.h.Text() == before + (G.Write(v) + after)
    ensures var kept, d := r.h.kept, r.h.dumpMarker;
            var printed := Printed(f, kept, 0);
            Cut(Dumped(v, f), d) == printed <==>
            && !OpenPrintable(Run(START, kept).mode) && KeyFresh(f, kept, marker)
            && Absent(printed, d) && !Overlaps(printed, d)
  {
    hide Run, B.Built, B.Build, Lead, MarkedCodes, DumpCodes, Leads, Printed, HealedDump, KeyFresh, Cut, Dumped,
        OnlyLastScalar,
         B.DumpOf, G.Write, G.ValidValue, G.Blank, PlainAscii;
    CutIff(f, r.h.kept, marker, 0);
    HealedIsDumped(f, r.h.kept, marker);
    DumpIsDumped(f, before, v, after);
  }

  // ---------------------------------------------------------------- markers that are always found

  predicate HasBorder(marker: string) {
    exists j :: 0 < j < |marker| && marker[j..] <= marker
  }

  /** Characters that leads are made of. */
  predicate IsFiller(c: char) { c in ":,\"\\0udc" }

  predicate Fillers(x: string) { forall i :: 0 <= i < |x| ==> IsFiller(x[i]) }

  predicate NoFillers(marker: string) { forall i :: 0 <= i < |marker| ==> !IsFiller(marker[i]) }

  lemma LeadFills(kept: string)
    ensures Fillers(Lead(kept))
  {
    hide Run, Padding;
    PaddingIsPads(kept);
  }

  lemma OverlapIsBorder(x: string, marker: string, j: nat)
    requires Fillers(x) && NoFillers(marker) && marker != "" && 0 < j < |x + marker| && (x + marker)[j..] <= x + marker
    ensures HasBorder(marker)
  {
    var d := x + marker;
    assert forall i :: 0 <= i < |d| - j ==> d[j..][i] == d[i] && d[j..][i] == d[j + i];
    var i := if j <= |x| then |x| - j else 0;
    assert d[j + i] == d[i] && d[j + i] == marker[j + i - |x|];
    if |x| > 0 { assert false; }
    assert d == marker;
  }

  lemma AbsentLonger(s: string, x: string, marker: string)
    requires Absent(s, marker)
    ensures Absent(s, x + marker)
  {
    forall k | 0 <= k && OccursAt(s, x + marker, k) ensures false {
      assert s[k..k + |x + marker|][|x|..] == s[k + |x|..k + |x| + |marker|];
      assert OccursAt(s, marker, k + |x|);
    }
  }

  lemma OccursBetween(a: string, p: string, b: string)
    ensures !Absent(a + p + b, p)
  {
    assert (a + p + b)[|a|..|a| + |p|] == p;
    assert OccursAt(a + p + b, p, |a|);
  }

  /** A key that contains the marker is new, if the marker is not in what is printed. */
  lemma AbsentIsFresh(f: Printer, kept: string, marker: string, n: nat)
    requires Prints(f) && Run(START, kept).At? && Leads(kept) && Contains(f, kept, n) && PlainAscii(marker) &&
             marker != ""
    requires Absent(Printed(f, kept, n), marker)
    ensures KeyFresh(f, kept, marker)
  {
    hide Run, B.Built, B.Build, Lead, MarkedCodes, DumpCodes, Front, Pre, Post, Join, EntryTexts, Place, Leads,
        Printed, PlainAscii,
         Absent, PutsKey;
    if !KeyFresh(f, kept, marker) {
      var es, key := Innermost(B.Built(f, kept).levels).entries, MarkedCodes(f, kept, marker);
      var p := Place(es, key);
      var y := PrintedMembers(f, kept, n);
      var codes, c := LeadBuilds(f, kept, n);
      MarkedAre(f, kept, marker, codes);
      MemberSplit(es, p);
      var front, pre, post := Front(Enclosing(B.Built(f, kept).levels[n..])), Pre(EntryTexts(es[..p])),
          Post(EntryTexts(es[p + 1..]));
      var a, z := front + ['{'] + pre + ['"'] + DumpCodes(codes), ['"'] + [':'] + es[p].text + post + y;
      Inner(front, pre, DumpCodes(codes), marker, es[p].text, post, y);
      OccursBetween(a, marker, z);
      assert false;
    }
  }

  lemma Inner(front: string, pre: string, codes: string, marker: string, v: string, post: string, y: string)
    ensures front + (['{'] + (pre + (['"'] + (codes + marker) + ['"'] + [':'] + v) + post)) + y
            == (front + ['{'] + pre + ['"'] + codes) + marker + (['"'] + [':'] + v + post + y)
  {
  }

  /**
    A marker without filler characters and without a border, which is not in what is printed of the
    kept text, is found where it was put, unless it completes the escape of a printable character.
    */
  lemma SafeMarker(f: Printer, s: string, marker: string, r: Outcome, n: nat)
    requires Prints(f) && GoodHealing(s, marker, r) && PlainAscii(marker) && marker != ""
    requires Contains(f, r.h.kept, n) && Absent(Printed(f, r.h.kept, n), marker) &&
             !OpenPrintable(Run(START, r.h.kept).mode)
    requires NoFillers(marker) && !HasBorder(marker)
    ensures CutsRight(f, r.h.kept, marker, n)
  {
    hide Run, B.Built, B.Build, Lead, MarkedCodes, DumpCodes, Leads, Printed, HealedDump, KeyFresh, CutsRight,
        PlainAscii, Absent,
         Fillers, NoFillers, HasBorder, Contains, OnlyLastScalar, OpenPrintable, HealedAt;
    var kept, printed := r.h.kept, Printed(f, r.h.kept, n);
    CutIff(f, kept, marker, n);
    AbsentIsFresh(f, kept, marker, n);
    AbsentLonger(printed, Lead(kept), marker);
    LeadFills(kept);
    if j :| OverlapsAt(printed, Lead(kept) + marker, j) { OverlapIsBorder(Lead(kept), marker, j); }
  }
}
