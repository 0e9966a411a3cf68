/** `parse_csv_row` (arg.cpp): one row of comma-separated values with quoting. */
module CsvRows {
  /** The fields of a text, behind a begun field. */
  function Fields(s: string, field: string, inQuotes: bool): seq<string>
    decreases |s|
  {
    if s == "" then [field]
    else if s[0] == '"' then
      if !inQuotes then
        if field != "" then Fields(s[1..], field + "\"", false) else Fields(s[1..], field, true)
      else if |s| > 1 && s[1] == '"' then Fields(s[2..], field + "\"", true)
      else Fields(s[1..], field, false)
    else if s[0] == ',' && !inQuotes then [field] + Fields(s[1..], "", false)
    else Fields(s[1..], field + [s[0]], inQuotes)
  }

  method ParseCsvRow(input: string) returns (fields: seq<string>)
    ensures fields == Fields(input, "", false)
  {
    fields := [];
    var field := "";
    var inQuotes := false;
    var i := 0;
    assert input[0..] == input && [] + Fields(input, "", false) == Fields(input, "", false);
    while i < |input|
      invariant 0 <= i <= |input|
      invariant fields + Fields(input[i..], field, inQuotes) == Fields(input, "", false)
    {
      var ch := input[i];
      ghost var rest := input[i..];
      assert rest[1..] == input[i + 1..] && (i + 2 <= |input| ==> rest[2..] == input[i + 2..]);
      if ch == '"' {
        if !inQuotes {
          if field != "" { field := field + "\""; } else { inQuotes := true; }
        } else if i + 1 < |input| && input[i + 1] == '"' {
          field := field + "\"";
          i := i + 1;
        } else {
          inQuotes := false;
        }
      } else if ch == ',' {
        if inQuotes {
          field := field + [','];
        } else {
          assert fields + ([field] + Fields(rest[1..], "", false)) == fields + [field] + Fields(rest[1..], "", false);
          fields := fields + [field];
          field := "";
        }
      } else {
        field := field + [ch];
      }
      i := i + 1;
    }
    assert input[i..] == "";
    fields := fields + [field];
  }

  // ---------------------------------------------------------------- printing

  function Doubled(f: string): string {
    if f == "" then "" else (if f[0] == '"' then "\"\"" else [f[0]]) + Doubled(f[1..])
  }

  /** RFC 4180, section 2: a quoted field, its quotes doubled. */
  function Quoted(f: string): string { ['"'] + (Doubled(f) + ['"']) }

  /** A field that can go without quotes. */
  predicate Bare(f: string) { ',' !in f && (f != "" ==> f[0] != '"') }

  /** A cell without quotes, one in quotes with text behind them, or one whose quotes are not closed. */
  datatype Cell = Plain(text: string) | Enclosed(text: string, behind: string) | Open(text: string) {
    predicate Valid() {
      match this
      case Plain(text) => Bare(text)
      case Enclosed(_, behind) => Bare(behind)
      case Open(_) => true
    }

    function Print(): string {
      match this
      case Plain(text) => text
      case Enclosed(text, behind) => Quoted(text) + behind
      case Open(text) => ['"'] + Doubled(text)
    }

    /** The field that the cell stands for. */
    function Field(): string { if Enclosed? then text + behind else text }
  }

  /** Only the last cell can be open. */
  predicate ValidRow(cells: seq<Cell>) {
    && cells != []
    && (forall i :: 0 <= i < |cells| ==> cells[i].Valid())
    && (forall i :: 0 <= i < |cells| - 1 ==> !cells[i].Open?)
  }

  function PrintRow(cells: seq<Cell>): string
    requires cells != []
  {
    if |cells| == 1 then cells[0].Print() else cells[0].Print() + ([','] + PrintRow(cells[1..]))
  }

  function RowFields(cells: seq<Cell>): seq<string> {
    if cells == [] then [] else [cells[0].Field()] + RowFields(cells[1..])
  }

  lemma {:induction false} ReadDoubled(f: string, rest: string, field: string)
    requires rest == "" || rest[0] != '"'
    ensures Fields(Doubled(f) + (['"'] + rest), field, true) == Fields(rest, field + f, false)
    decreases |f|
  {
    var s := Doubled(f) + (['"'] + rest);
    if f == "" {
      assert s == ['"'] + rest && s[1..] == rest && field + f == field;
    } else {
      var tail := Doubled(f[1..]) + (['"'] + rest);
      ReadDoubled(f[1..], rest, field + [f[0]]);
      assert field + [f[0]] + f[1..] == field + f;
      if f[0] == '"' {
        assert s == ['"', '"'] + tail && s[2..] == tail;
        assert field + "\"" == field + [f[0]];
      } else {
        assert s == [f[0]] + tail && s[1..] == tail;
      }
    }
  }

  lemma {:induction false} ReadBare(f: string, rest: string, field: string)
    requires ',' !in f && (f != "" && field == "" ==> f[0] != '"')
    ensures Fields(f + rest, field, false) == Fields(rest, field + f, false)
    decreases |f|
  {
    if f == "" {
      assert f + rest == rest && field + f == field;
    } else {
      assert f[0] in f && f[0] != ',';
      assert (f + rest)[1..] == f[1..] + rest;
      assert forall c :: c in f[1..] ==> c in f;
      ReadBare(f[1..], rest, field + [f[0]]);
      assert field + [f[0]] + f[1..] == field + f;
      assert "\"" == ['"'];
    }
  }

  /** Quotes that are not closed hold the rest of the row. */
  lemma {:induction false} ReadOpen(f: string, field: string)
    ensures Fields(Doubled(f), field, true) == [field + f]
    decreases |f|
  {
    var s := Doubled(f);
    if f == "" {
      assert field + f == field;
    } else {
      ReadOpen(f[1..], field + [f[0]]);
      assert field + [f[0]] + f[1..] == field + f;
      if f[0] == '"' {
        assert s == ['"', '"'] + Doubled(f[1..]) && s[2..] == Doubled(f[1..]);
        assert field + "\"" == field + [f[0]];
      } else {
        assert s[1..] == Doubled(f[1..]);
      }
    }
  }

  lemma ReadEnclosed(text: string, behind: string, rest: string)
    requires Bare(behind) && (rest == "" || rest[0] != '"')
    ensures Fields(Quoted(text) + behind + rest, "", false) == Fields(rest, text + behind, false)
  {
    hide Fields, Doubled;
    var tail := Doubled(text) + (['"'] + (behind + rest));
    assert Quoted(text) + behind + rest == ['"'] + tail;
    FieldOpens(tail);
    ReadDoubled(text, behind + rest, "");
    assert "" + text == text;
    ReadBare(behind, rest, text);
  }

  lemma FieldOpens(tail: string)
    ensures Fields(['"'] + tail, "", false) == Fields(tail, "", true)
  {
    assert (['"'] + tail)[1..] == tail;
  }

  lemma ReadCell(c: Cell, rest: string)
    requires c.Valid() && !c.Open? && (rest == "" || rest[0] != '"')
    ensures Fields(c.Print() + rest, "", false) == Fields(rest, c.Field(), false)
  {
    hide Fields, Quoted;
    if c.Enclosed? {
      ReadEnclosed(c.text, c.behind, rest);
    } else {
      assert "" + c.text == c.text;
      ReadBare(c.text, rest, "");
    }
  }

  lemma ReadLastCell(c: Cell)
    requires c.Valid()
    ensures Fields(c.Print(), "", false) == [c.Field()]
  {
    if c.Open? {
      assert c.Print()[1..] == Doubled(c.text) && "" + c.text == c.text;
      ReadOpen(c.text, "");
    } else {
      ReadCell(c, "");
      assert c.Print() + "" == c.Print();
    }
  }

  /** Parsing undoes printing for every row, whichever cells that may go bare are quoted. */
  lemma {:induction false} ParsePrinted(cells: seq<Cell>)
    requires ValidRow(cells)
    ensures Fields(PrintRow(cells), "", false) == RowFields(cells)
    decreases |cells|
  {
    if |cells| == 1 {
      ReadLastCell(cells[0]);
      assert RowFields(cells[1..]) == [];
    } else {
      var rest := [','] + PrintRow(cells[1..]);
      ReadCell(cells[0], rest);
      assert rest[1..] == PrintRow(cells[1..]);
      assert forall i :: 0 <= i < |cells| - 1 ==> cells[1..][i] == cells[i + 1];
      ParsePrinted(cells[1..]);
    }
  }

  // ---------------------------------------------------------------- every row is printed

  lemma {:induction false} SplitAtQuote(t: string) returns (text: string, closed: bool, rest: string)
    ensures t == Doubled(text) + if closed then ['"'] + rest else ""
    ensures closed ==> |rest| < |t| && (rest != "" ==> rest[0] != '"')
    decreases |t|
  {
    if t == "" {
      text, closed, rest := "", false, "";
    } else if t[0] == '"' && (|t| == 1 || t[1] != '"') {
      text, closed, rest := "", true, t[1..];
      assert t == [t[0]] + t[1..];
    } else {
      var n := if t[0] == '"' then 2 else 1;
      var c := t[0];
      text, closed, rest := SplitAtQuote(t[n..]);
      assert t == t[..n] + t[n..] && ([c] + text)[1..] == text;
      assert t[..n] == if c == '"' then "\"\"" else [c];
      text := [c] + text;
    }
  }

  /** The text in front of the first comma, and the text behind it. */
  lemma {:induction false} SplitCell(t: string) returns (a: string, more: bool, b: string)
    ensures t == a + (if more then [','] + b else "") && ',' !in a && (more ==> |b| < |t|)
  {
    if ',' in t {
      a, b := SplitAtComma(t);
      more := true;
    } else {
      a, more, b := t, false, "";
    }
  }

  /** Every row is printed from valid cells, so that `ParsePrinted` says what is read of it. */
  lemma {:induction false} EveryRow(row: string) returns (cells: seq<Cell>)
    ensures ValidRow(cells) && PrintRow(cells) == row
    decreases |row|, 1
  {
    if row != "" && row[0] == '"' {
      var text, closed, rest := SplitAtQuote(row[1..]);
      assert row == ['"'] + row[1..];
      if !closed {
        assert Doubled(text) + "" == Doubled(text);
        return [Open(text)];
      }
      var behind, more, next := SplitCell(rest);
      assert behind != "" ==> behind[0] == rest[0];
      cells := AddCell(row, Enclosed(text, behind), more, next);
    } else {
      var text, more, next := SplitCell(row);
      assert text != "" ==> text[0] == row[0];
      cells := AddCell(row, Plain(text), more, next);
    }
  }

  lemma {:induction false} AddCell(row: string, first: Cell, more: bool, next: string) returns (cells: seq<Cell>)
    requires first.Valid() && !first.Open? && row == first.Print() + if more then [','] + next else ""
    ensures ValidRow(cells) && PrintRow(cells) == row
    decreases |row|, 0
  {
    if !more {
      assert first.Print() + "" == first.Print();
      cells := [first];
    } else {
      var others := EveryRow(next);
      cells := [first] + others;
      assert cells[1..] == others;
    }
  }

  // ---------------------------------------------------------------- which fields may go bare

  function TotalLength(fields: seq<string>): nat {
    if fields == [] then 0 else |fields[0]| + TotalLength(fields[1..])
  }

  /** The fields hold no more characters than the text. */
  lemma {:induction false} FieldsShrink(s: string, field: string, inQuotes: bool)
    ensures Fields(s, field, inQuotes) != [] && TotalLength(Fields(s, field, inQuotes)) <= |field| + |s|
    decreases |s|
  {
    if s == "" {
      assert [field][1..] == [];
    } else if s[0] == '"' {
      if !inQuotes {
        if field != "" { FieldsShrink(s[1..], field + "\"", false); } else { FieldsShrink(s[1..], field, true); }
      } else if |s| > 1 && s[1] == '"' {
        FieldsShrink(s[2..], field + "\"", true);
      } else {
        FieldsShrink(s[1..], field, false);
      }
    } else if s[0] == ',' && !inQuotes {
      FieldsShrink(s[1..], "", false);
      assert ([field] + Fields(s[1..], "", false))[1..] == Fields(s[1..], "", false);
    } else {
      FieldsShrink(s[1..], field + [s[0]], inQuotes);
    }
  }

  lemma SplitAtComma(f: string) returns (a: string, b: string)
    requires ',' in f
    ensures f == a + ([','] + b) && ',' !in a
    decreases |f|
  {
    if f[0] == ',' {
      a, b := "", f[1..];
    } else {
      assert ',' in f[1..];
      a, b := SplitAtComma(f[1..]);
      a := [f[0]] + a;
    }
  }

  /** A field that is printed without quotes is read back exactly if it has no comma and does not
      begin with a quote. */
  lemma BareReadsBackIff(f: string)
    ensures Fields(f, "", false) == [f] <==> Bare(f)
  {
    if f != "" && f[0] == '"' {
      FieldsShrink(f[1..], "", true);
      assert [f][1..] == [] && TotalLength([f]) == |f|;
    } else if ',' in f {
      var a, b := SplitAtComma(f);
      var rest := [','] + b;
      assert a != "" ==> a[0] == f[0];
      ReadBare(a, rest, "");
      FieldsShrink(b, "", false);
      assert rest[1..] == b;
    } else {
      ReadBare(f, "", "");
      assert f + "" == f && "" + f == f;
    }
  }
}
