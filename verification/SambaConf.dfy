/** Editing smb.conf (NAS/app.py): adding and deleting shares, and updating the [global] section. */
module SambaConf {

  // ---------------------------------------------------------------- lines

  /** White space of `str.strip`, up to code point 255. */
  predicate IsWhite(c: char) {
    c == ' ' || '\t' <= c <= '\r' || 0x1c as char <= c <= 0x1f as char || c == 0x85 as char || c == 0xa0 as char
  }

  function Strip(s: string): string {
    if s == "" then ""
    else if IsWhite(s[0]) then Strip(s[1..])
    else if IsWhite(s[|s| - 1]) then Strip(s[..|s| - 1])
    else s
  }

  /** What is stripped is the white space at both ends, all of it and nothing else. */
  lemma {:induction false} StripIs(s: string) returns (i: nat, j: nat)
    ensures i <= j <= |s| && Strip(s) == s[i..j]
    ensures forall k :: 0 <= k < i || j <= k < |s| ==> IsWhite(s[k])
    ensures i < j ==> !IsWhite(s[i]) && !IsWhite(s[j - 1])
    decreases |s|
  {
    if s == "" {
      i, j := 0, 0;
    } else if IsWhite(s[0]) {
      var tail := s[1..];
      var a, b := StripIs(tail);
      i, j := a + 1, b + 1;
      assert forall k :: 1 <= k < |s| ==> s[k] == tail[k - 1];
      assert |s[a + 1..b + 1]| == |tail[a..b]| && forall k :: 0 <= k < b - a ==> s[a + 1..b + 1][k] == tail[a..b][k];
    } else if IsWhite(s[|s| - 1]) {
      i, j := StripIs(s[..|s| - 1]);
      assert s[i..j] == s[..|s| - 1][i..j];
    } else {
      i, j := 0, |s|;
      assert s[0..|s|] == s;
    }
  }

  /** `readlines`: every line with its newline. */
  function Lines(text: string): seq<string>
    decreases |text|
  {
    if text == "" then []
    else
      var n := LineLength(text);
      [text[..n]] + Lines(text[n..])
  }

  function LineLength(text: string): (n: nat)
    ensures text != "" ==> 1 <= n <= |text|
  {
    if text == "" then 0 else if text[0] == '\n' then 1 else 1 + LineLength(text[1..])
  }

  /** `writelines`. */
  function Concat(lines: seq<string>): string {
    if lines == [] then "" else lines[0] + Concat(lines[1..])
  }

  predicate IsHeader(line: string) {
    var t := Strip(line);
    t != "" && t[0] == '[' && t[|t| - 1] == ']'
  }

  /** The name between the brackets. */
  function HeaderName(line: string): string
    requires IsHeader(line)
  {
    var t := Strip(line);
    t[1..|t| - 1]
  }

  /** A header is a name in brackets, with white space around. */
  lemma HeaderIff(line: string, name: string)
    ensures IsHeader(line) && HeaderName(line) == name <==> Strip(line) == "[" + name + "]"
  {
    var t := Strip(line);
    if IsHeader(line) && HeaderName(line) == name { assert t == [t[0]] + t[1..|t| - 1] + [t[|t| - 1]]; }
    if t == "[" + name + "]" { assert t[1..|t| - 1] == name; }
  }

  // ---------------------------------------------------------------- add and delete

  function Header(name: string): string { "[" + name + "]\n" }

  function OptionLine(key: string, value: string): string { "   " + (key + (value + "\n")) }

  function Options(path: string, users: string, readOnly: string, guestOk: string): seq<string> {
    [OptionLine("path", " = " + path), OptionLine("valid users", " = " + users),
     OptionLine("read only", " = " + readOnly), OptionLine("guest ok", " = " + guestOk),
     OptionLine("create mask", " = 0664"), OptionLine("directory mask", " = 0775")]
  }

  /** The text of a new share, with an empty line in front. */
  function Section(name: string, path: string, users: string, readOnly: string, guestOk: string): string {
    "\n" + (Header(name) + Concat(Options(path, users, readOnly, guestOk)))
  }

  /** The file behind appending a new share. */
  function AddShare(
    text: string, name: string, path: string, users: string, readOnly: string, guestOk: string): string
  {
    text + Section(name, path, users, readOnly, guestOk)
  }

  /** The lines that are kept; `skip` while inside the deleted share. */
  function Delete(lines: seq<string>, name: string, skip: bool): seq<string> {
    if lines == [] then []
    else
      var skip' := if IsHeader(lines[0]) then HeaderName(lines[0]) == name else skip;
      (if skip' then [] else [lines[0]]) + Delete(lines[1..], name, skip')
  }

  function DeleteText(text: string, name: string): string { Concat(Delete(Lines(text), name, false)) }

  /** The loop of `delete_share_from_conf`. */
  method DeleteShareFromConf(lines: seq<string>, shareName: string) returns (newLines: seq<string>)
    ensures newLines == Delete(lines, shareName, false)
  {
    newLines := [];
    var skip := false;
    assert lines[0..] == lines;
    assert [] + Delete(lines, shareName, false) == Delete(lines, shareName, false);
    for i := 0 to |lines|
      invariant newLines + Delete(lines[i..], shareName, skip) == Delete(lines, shareName, false)
    {
      var line := lines[i];
      assert lines[i..][1..] == lines[i + 1..];
      hide Strip;
      ghost var rest := Delete(lines[i..], shareName, skip);
      ghost var before := newLines;
      if IsHeader(line) { skip := HeaderName(line) == shareName; }
      if !skip { newLines := newLines + [line]; }
      assert rest == (if skip then [] else [line]) + Delete(lines[i + 1..], shareName, skip);
      assert before + rest == newLines + Delete(lines[i + 1..], shareName, skip);
    }
    assert lines[|lines|..] == [];
    assert newLines + [] == newLines;
  }

  // ---------------------------------------------------------------- update

  const GLOBAL := "[global]"

  predicate KnownKey(key: string) {
    key == "workgroup" || key == "netbios name" || key == "server min protocol" || key == "server max protocol"
    || key == "map to guest"
  }

  /** What stands in front of the first equals sign. */
  function BeforeEquals(line: string): string {
    if line == "" || line[0] == '=' then "" else [line[0]] + BeforeEquals(line[1..])
  }

  function KeyOf(line: string): string { Strip(BeforeEquals(line)) }

  function Setting(key: string, value: string): string { "   " + (key + (" = " + (value + "\n"))) }

  /** A line of the [global] section that gets a new value. */
  predicate Replaced(line: string, config: map<string, string>) {
    '=' in line && line[0] != ';' && KeyOf(line) in config && KnownKey(KeyOf(line))
  }

  /** Whether the lines from here on belong to [global]. */
  function InGlobal(line: string, inGlobal: bool): bool {
    GLOBAL <= Strip(line) || (!IsHeader(line) && inGlobal)
  }

  function NewLine(line: string, config: map<string, string>, inGlobal: bool): string {
    if !(GLOBAL <= Strip(line)) && !IsHeader(line) && inGlobal && Replaced(line, config)
    then Setting(KeyOf(line), config[KeyOf(line)]) else line
  }

  function Update(lines: seq<string>, config: map<string, string>, inGlobal: bool): seq<string> {
    if lines == [] then []
    else [NewLine(lines[0], config, inGlobal)] + Update(lines[1..], config, InGlobal(lines[0], inGlobal))
  }

  function UpdateText(text: string, config: map<string, string>): string { Concat(Update(Lines(text), config, false)) }

  lemma Regroup(before: seq<string>, line: string, tail: seq<string>)
    ensures before + ([line] + tail) == before + [line] + tail
  {
  }

  /** The loop of `update_samba_global_conf`. */
  method UpdateSambaGlobalConf(lines: seq<string>, newConfig: map<string, string>) returns (newLines: seq<string>)
    ensures newLines == Update(lines, newConfig, false)
  {
    newLines := [];
    var inGlobal := false;
    assert lines[0..] == lines;
    assert [] + Update(lines, newConfig, false) == Update(lines, newConfig, false);
    var i := 0;
    while i < |lines|
      invariant 0 <= i <= |lines|
      invariant newLines + Update(lines[i..], newConfig, inGlobal) == Update(lines, newConfig, false)
    {
      var line := lines[i];
      assert lines[i..][1..] == lines[i + 1..];
      hide Strip, Setting, BeforeEquals;
      ghost var before, was := newLines, inGlobal;
      ghost var tail := Update(lines[i + 1..], newConfig, InGlobal(line, was));
      assert Update(lines[i..], newConfig, was) == [NewLine(line, newConfig, was)] + tail;
      Regroup(before, NewLine(line, newConfig, was), tail);
      hide Update;
      i := i + 1;
      if GLOBAL <= Strip(line) {
        inGlobal := true;
        newLines := newLines + [line];
        continue;
      } else if IsHeader(line) {
        inGlobal := false;
      }
      if inGlobal && '=' in line && line[0] != ';' {
        var key := KeyOf(line);
        if key in newConfig && KnownKey(key) {
          newLines := newLines + [Setting(key, newConfig[key])];
          continue;
        }
      }
      newLines := newLines + [line];
    }
    assert lines[|lines|..] == [];
    assert newLines + [] == newLines;
  }

  // ---------------------------------------------------------------- updating, line by line

  /** Line `i` lies behind a line that starts with `[global]`, with no other header between. */
  ghost predicate LiesInGlobal(lines: seq<string>, i: nat)
    requires i < |lines|
  {
    exists g :: 0 <= g < i && "[global]" <= Strip(lines[g]) && NoOtherHeader(lines, g, i)
  }

  ghost predicate NoOtherHeader(lines: seq<string>, from: nat, to: nat)
    requires to <= |lines|
  {
    forall k :: from < k < to ==> !IsHeader(lines[k]) || "[global]" <= Strip(lines[k])
  }

  /** The line gives a value to `key`: that is the stripped text in front of its first equals sign. */
  ghost predicate Sets(line: string, key: string) {
    exists e :: 0 <= e < |line| && line[e] == '=' && '=' !in line[..e] && Strip(line[..e]) == key
  }

  /** Line `i` gets the value that is set for `key`. */
  ghost predicate GetsValue(lines: seq<string>, config: map<string, string>, i: nat, key: string)
    requires i < |lines|
  {
    && LiesInGlobal(lines, i) && Sets(lines[i], key) && lines[i][..1] != ";" && key in config
    && (key == "workgroup" || key == "netbios name" || key == "server min protocol" || key == "server max protocol"
        || key == "map to guest")
  }

  /** Whether line `i` is read as one of [global], when reading starts with `g`. */
  function GlobalAt(lines: seq<string>, g: bool, i: nat): bool
    requires i <= |lines|
  {
    if i == 0 then g else InGlobal(lines[i - 1], GlobalAt(lines, g, i - 1))
  }

  lemma {:induction false} GlobalAtTail(lines: seq<string>, g: bool, i: nat)
    requires 0 < i <= |lines|
    ensures GlobalAt(lines, g, i) == GlobalAt(lines[1..], InGlobal(lines[0], g), i - 1)
  {
    hide InGlobal;
    if i > 1 { GlobalAtTail(lines, g, i - 1); }
  }

  lemma {:induction false} UpdateAt(lines: seq<string>, config: map<string, string>, g: bool, i: nat)
    requires i < |lines|
    ensures |Update(lines, config, g)| == |lines|
    ensures Update(lines, config, g)[i] == NewLine(lines[i], config, GlobalAt(lines, g, i))
    decreases |lines|
  {
    hide InGlobal, NewLine;
    if i > 0 {
      GlobalAtTail(lines, g, i);
      UpdateAt(lines[1..], config, InGlobal(lines[0], g), i - 1);
    } else if |lines| > 1 {
      UpdateAt(lines[1..], config, InGlobal(lines[0], g), 0);
    }
  }

  lemma LiesInGlobalStep(lines: seq<string>, i: nat)
    requires i + 1 < |lines|
    ensures LiesInGlobal(lines, i + 1) == InGlobal(lines[i], LiesInGlobal(lines, i))
  {
    hide Strip, IsHeader;
    if LiesInGlobal(lines, i + 1) {
      var g :| 0 <= g < i + 1 && "[global]" <= Strip(lines[g]) && NoOtherHeader(lines, g, i + 1);
      assert g < i ==> NoOtherHeader(lines, g, i);
    }
    if GLOBAL <= Strip(lines[i]) { assert NoOtherHeader(lines, i, i + 1); }
    if !IsHeader(lines[i]) && LiesInGlobal(lines, i) {
      var g :| 0 <= g < i && "[global]" <= Strip(lines[g]) && NoOtherHeader(lines, g, i);
      assert NoOtherHeader(lines, g, i + 1);
    }
  }

  lemma {:induction false} GlobalAtIff(lines: seq<string>, i: nat)
    requires i < |lines|
    ensures GlobalAt(lines, false, i) == LiesInGlobal(lines, i)
  {
    hide InGlobal;
    if i > 0 {
      GlobalAtIff(lines, i - 1);
      LiesInGlobalStep(lines, i - 1);
    }
  }

  /** A line sets one key at most, and has an equals sign if it sets one. */
  lemma {:induction false} SetsIff(line: string, key: string)
    ensures Sets(line, key) <==> '=' in line && KeyOf(line) == key
  {
    hide Strip;
    forall e | 0 <= e < |line| && line[e] == '=' && '=' !in line[..e] ensures BeforeEquals(line) == line[..e] {
      BeforeEqualsIs(line[..e], line[e + 1..]);
      assert line == line[..e] + (['='] + line[e + 1..]);
    }
    if '=' in line {
      var e := FirstEquals(line);
    }
  }

  lemma {:induction false} FirstEquals(line: string) returns (e: nat)
    requires '=' in line
    ensures e < |line| && line[e] == '=' && '=' !in line[..e]
  {
    if line[0] == '=' {
      e := 0;
    } else {
      assert line == [line[0]] + line[1..];
      e := FirstEquals(line[1..]);
      e := e + 1;
      assert line[..e] == [line[0]] + line[1..][..e - 1];
    }
  }

  /** A line that sets a known key is no header. */
  lemma KnownKeyNoHeader(line: string)
    requires '=' in line && KnownKey(KeyOf(line))
    ensures !IsHeader(line) && !(GLOBAL <= Strip(line))
  {
    var e := FirstEquals(line);
    assert line == line[..e] + (['='] + line[e + 1..]);
    BeforeEqualsIs(line[..e], line[e + 1..]);
    StripsToFirst(line[..e], ['='] + line[e + 1..]);
    KnownKeysAreClean(KeyOf(line));
  }

  /** Text behind a part that is not white does not change the first character that is left. */
  lemma {:induction false} StripsToFirst(s: string, rest: string)
    requires Strip(s) != ""
    ensures Strip(s + rest) != "" && Strip(s + rest)[0] == Strip(s)[0]
    decreases |s|
  {
    if IsWhite(s[0]) {
      assert (s + rest)[1..] == s[1..] + rest;
      StripsToFirst(s[1..], rest);
    } else {
      StripStarts(s);
      StripStarts(s + rest);
    }
  }

  lemma SettingText(key: string, value: string)
    ensures Setting(key, value) == "   " + key + " = " + value + "\n"
  {
  }

  /** One line, with what is known of where it lies. */
  lemma UpdatedLine(lines: seq<string>, config: map<string, string>, i: nat, key: string)
    requires i < |lines|
    ensures var g := LiesInGlobal(lines, i);
            && (GetsValue(lines, config, i, key) ==> NewLine(lines[i], config, g) == Setting(key, config[key]))
            && (NewLine(lines[i], config, g) != lines[i] && key == KeyOf(lines[i]) ==> GetsValue(lines, config, i, key))
  {
    var line := lines[i];
    SetsIff(line, key);
    if '=' in line && KnownKey(KeyOf(line)) { KnownKeyNoHeader(line); }
    hide Strip, IsHeader, BeforeEquals, LiesInGlobal, Sets, Setting;
  }

  /**
    What updating does to a file: a line of [global] that sets one of the five known keys, is no comment,
    and has a new value gets that; every other line stays.
    */
  lemma UpdatedLines(lines: seq<string>, config: map<string, string>, i: nat)
    requires i < |lines|
    ensures |Update(lines, config, false)| == |lines|
    ensures forall key :: GetsValue(lines, config, i, key) ==>
              Update(lines, config, false)[i] == "   " + key + " = " + config[key] + "\n"
    ensures (forall key :: !GetsValue(lines, config, i, key)) ==> Update(lines, config, false)[i] == lines[i]
  {
    hide Update, NewLine, Sets, KeyOf, Setting, LiesInGlobal, GlobalAt;
    UpdateAt(lines, config, false, i);
    GlobalAtIff(lines, i);
    UpdatedLine(lines, config, i, KeyOf(lines[i]));
    forall key | GetsValue(lines, config, i, key)
      ensures Update(lines, config, false)[i] == "   " + key + " = " + config[key] + "\n"
    {
      UpdatedLine(lines, config, i, key);
      SettingText(key, config[key]);
    }
  }

  // ---------------------------------------------------------------- sections

  /** A file as the lines before the first header, and sections of a header with its lines. */
  datatype Part = Part(header: string, body: seq<string>)

  datatype Conf = Conf(front: seq<string>, parts: seq<Part>)

  function Parse(lines: seq<string>): Conf {
    if lines == [] then Conf([], [])
    else
      var rest := Parse(lines[1..]);
      if IsHeader(lines[0]) then Conf([], [Part(lines[0], rest.front)] + rest.parts)
      else Conf([lines[0]] + rest.front, rest.parts)
  }

  function Flat(parts: seq<Part>): seq<string> {
    if parts == [] then [] else [parts[0].header] + parts[0].body + Flat(parts[1..])
  }

  /** The sections with other names. */
  function Without(parts: seq<Part>, name: string): seq<Part> {
    if parts == [] then []
    else if IsHeader(parts[0].header) && HeaderName(parts[0].header) == name then Without(parts[1..], name)
    else [parts[0]] + Without(parts[1..], name)
  }

  lemma {:induction false} FlatParse(lines: seq<string>)
    ensures Parse(lines).front + Flat(Parse(lines).parts) == lines
  {
    hide IsHeader;
    if lines != [] {
      FlatParse(lines[1..]);
      var rest := Parse(lines[1..]);
      if IsHeader(lines[0]) { assert ([Part(lines[0], rest.front)] + rest.parts)[1..] == rest.parts; }
    }
  }

  lemma WithoutFirst(part: Part, parts: seq<Part>, name: string)
    ensures Without([part] + parts, name)
            == if IsHeader(part.header) && HeaderName(part.header) == name then Without(parts, name)
                else [part] + Without(parts, name)
    ensures Flat([part] + parts) == [part.header] + part.body + Flat(parts)
  {
    hide IsHeader, HeaderName;
    assert ([part] + parts)[1..] == parts;
    assert [] + Without(parts, name) == Without(parts, name);
  }

  lemma DeleteHeader(line: string, rest: seq<string>, front: seq<string>, parts: seq<Part>, name: string)
    requires IsHeader(line)
    requires var skip := HeaderName(line) == name;
             Delete(rest, name, skip) == (if skip then [] else front) + Flat(Without(parts, name))
    ensures Delete([line] + rest, name, false) == Flat(Without([Part(line, front)] + parts, name))
    ensures Delete([line] + rest, name, true) == Flat(Without([Part(line, front)] + parts, name))
  {
    hide IsHeader, HeaderName, Flat, Without;
    assert ([line] + rest)[1..] == rest;
    WithoutFirst(Part(line, front), parts, name);
    WithoutFirst(Part(line, front), Without(parts, name), name);
  }

  /** Deleting removes exactly the sections with the given name. */
  lemma {:induction false} DeleteRemovesSections(lines: seq<string>, name: string, skip: bool)
    ensures Delete(lines, name, skip)
            == (if skip then [] else Parse(lines).front) + Flat(Without(Parse(lines).parts, name))
  {
    if lines != [] {
      var line, tail := lines[0], lines[1..];
      var rest := Parse(tail);
      assert lines == [line] + tail;
      hide IsHeader, HeaderName, Flat, Without;
      if IsHeader(line) {
        DeleteRemovesSections(tail, name, HeaderName(line) == name);
        DeleteHeader(line, tail, rest.front, rest.parts, name);
      } else {
        DeleteRemovesSections(tail, name, skip);
      }
    }
  }

  predicate Mentions(lines: seq<string>, name: string) {
    exists i :: 0 <= i < |lines| && IsHeader(lines[i]) && HeaderName(lines[i]) == name
  }

  /** Nothing changes exactly if there is no such share. */
  lemma {:induction false} DeleteNothingIff(lines: seq<string>, name: string)
    ensures Delete(lines, name, false) == lines <==> !Mentions(lines, name)
  {
    hide Strip;
    if lines != [] {
      var rest := lines[1..];
      DeleteNothingIff(rest, name);
      DeleteShrinks(rest, name, false);
      DeleteShrinks(rest, name, true);
      assert lines == [lines[0]] + rest;
      assert forall i :: 1 <= i < |lines| ==> lines[i] == rest[i - 1];
      assert Mentions(lines, name) <==>
             (IsHeader(lines[0]) && HeaderName(lines[0]) == name) || Mentions(rest, name) by {
        if Mentions(rest, name) {
          var i :| 0 <= i < |rest| && IsHeader(rest[i]) && HeaderName(rest[i]) == name;
          assert lines[i + 1] == rest[i];
        }
      }
    }
  }

  lemma {:induction false} DeleteShrinks(lines: seq<string>, name: string, skip: bool)
    ensures |Delete(lines, name, skip)| <= |lines|
  {
    hide IsHeader;
    if lines != [] {
      DeleteShrinks(lines[1..], name, true);
      DeleteShrinks(lines[1..], name, false);
    }
  }

  // ---------------------------------------------------------------- updating twice, and around deleting

  lemma {:induction false} StripFront(s: string, w: string)
    requires forall i :: 0 <= i < |w| ==> IsWhite(w[i])
    ensures Strip(w + s) == Strip(s)
    decreases |w|
  {
    if w == "" {
      assert w + s == s;
    } else {
      assert (w + s)[1..] == w[1..] + s;
      StripFront(s, w[1..]);
    }
  }

  lemma {:induction false} StripBack(s: string, w: string)
    requires s != "" && !IsWhite(s[0]) && !IsWhite(s[|s| - 1]) && forall i :: 0 <= i < |w| ==> IsWhite(w[i])
    ensures Strip(s + w) == s
    decreases |w|
  {
    if w == "" {
      assert s + w == s;
    } else {
      assert (s + w)[..|s + w| - 1] == s + w[..|w| - 1];
      StripBack(s, w[..|w| - 1]);
    }
  }

  lemma {:induction false} StripStarts(s: string)
    requires s != "" && !IsWhite(s[0])
    ensures Strip(s) != "" && Strip(s)[0] == s[0]
    decreases |s|
  {
    if IsWhite(s[|s| - 1]) {
      StripStarts(s[..|s| - 1]);
    }
  }

  lemma {:induction false} BeforeEqualsIs(s: string, rest: string)
    requires '=' !in s
    ensures BeforeEquals(s + (['='] + rest)) == s
  {
    if s == "" {
      assert s + (['='] + rest) == ['='] + rest;
    } else {
      assert s[0] in s && (s + (['='] + rest))[1..] == s[1..] + (['='] + rest);
      assert forall c :: c in s[1..] ==> c in s;
      BeforeEqualsIs(s[1..], rest);
    }
  }

  lemma KnownKeysAreClean(key: string)
    requires KnownKey(key)
    ensures key != "" && !IsWhite(key[0]) && !IsWhite(key[|key| - 1]) && '=' !in key && key[0] != '['
  {
  }

  /** A written setting is no header, and is read as what it sets. */
  lemma SettingIs(key: string, value: string)
    requires KnownKey(key)
    ensures var line := Setting(key, value);
            KeyOf(line) == key && '=' in line && line[0] == ' ' && !IsHeader(line) && !(GLOBAL <= Strip(line))
  {
    var line := Setting(key, value);
    var rest := [' '] + (value + "\n");
    KnownKeysAreClean(key);
    assert line == "   " + (key + " ") + (['='] + rest);
    assert line[|key| + 4] == '=';
    BeforeEqualsIs("   " + (key + " "), rest);
    StripFront(key + " ", "   ");
    StripBack(key, " ");
    var body := key + (" = " + (value + "\n"));
    StripFront(body, "   ");
    StripStarts(body);
  }

  /** Updating twice is updating once. */
  lemma {:induction false} UpdateIsIdempotent(lines: seq<string>, config: map<string, string>, inGlobal: bool)
    ensures Update(Update(lines, config, inGlobal), config, inGlobal) == Update(lines, config, inGlobal)
  {
    if lines != [] {
      var line, g := lines[0], InGlobal(lines[0], inGlobal);
      var line' := NewLine(line, config, inGlobal);
      var tail := Update(lines[1..], config, g);
      UpdateIsIdempotent(lines[1..], config, g);
      if line' != line { SettingIs(KeyOf(line), config[KeyOf(line)]); }
      assert ([line'] + tail)[1..] == tail;
      hide Strip, BeforeEquals, Setting, KnownKey;
      assert NewLine(line', config, inGlobal) == line' && InGlobal(line', inGlobal) == g;
    }
  }

  /** Updating [global] and deleting a share can change places. While lines are being skipped it does
      not matter which section the update believes to be in. */
  lemma {:induction false} UpdateDeleteCommute(
    lines: seq<string>, config: map<string, string>, name: string, skip: bool, g: bool, h: bool)
    requires skip || g == h
    ensures Delete(Update(lines, config, g), name, skip) == Update(Delete(lines, name, skip), config, h)
  {
    if lines != [] {
      var line, rest := lines[0], lines[1..];
      var line' := NewLine(line, config, g);
      if line' != line { SettingIs(KeyOf(line), config[KeyOf(line)]); }
      var skip' := if IsHeader(line) then HeaderName(line) == name else skip;
      var h' := if skip' then h else InGlobal(line, h);
      assert ([line'] + Update(rest, config, InGlobal(line, g)))[1..] == Update(rest, config, InGlobal(line, g));
      assert !skip' ==> InGlobal(line, g) == h' && line' == NewLine(line, config, h);
      assert IsHeader(line') == IsHeader(line) && (IsHeader(line) ==> line' == line);
      assert Delete(Update(lines, config, g), name, skip)
             == (if skip' then [] else [line']) + Delete(Update(rest, config, InGlobal(line, g)), name, skip');
      assert Delete(lines, name, skip) == (if skip' then [] else [line]) + Delete(rest, name, skip');
      hide Strip, BeforeEquals, Setting, KnownKey;
      UpdateDeleteCommute(rest, config, name, skip', InGlobal(line, g), h');
      if !skip' {
        var kept := [line] + Delete(rest, name, false);
        assert kept[1..] == Delete(rest, name, false);
        assert Update(kept, config, h) == [line'] + Update(Delete(rest, name, false), config, h');
      } else {
        assert [] + Delete(rest, name, true) == Delete(rest, name, true);
        assert Delete(lines, name, skip) == Delete(rest, name, true);
      }
    }
  }

  // ---------------------------------------------------------------- texts and lines

  predicate OneLine(s: string) { '\n' !in s }

  /** A complete line, or the rest of a file without a newline. */
  predicate Whole(line: string) { line != "" && line[|line| - 1] == '\n' && OneLine(line[..|line| - 1]) }

  predicate Proper(lines: seq<string>) {
    if lines == [] then true
    else if |lines| == 1 then lines[0] != "" && (Whole(lines[0]) || OneLine(lines[0]))
    else Whole(lines[0]) && Proper(lines[1..])
  }

  lemma {:induction false} ConcatLines(text: string)
    ensures Concat(Lines(text)) == text
    decreases |text|
  {
    if text != "" {
      var n := LineLength(text);
      ConcatLines(text[n..]);
      assert ([text[..n]] + Lines(text[n..]))[1..] == Lines(text[n..]);
    }
  }

  lemma {:induction false} FirstLine(text: string)
    requires text != ""
    ensures var n := LineLength(text);
            if '\n' in text then Whole(text[..n]) else n == |text|
    decreases |text|
  {
    if text[0] != '\n' && |text| > 1 {
      var n := LineLength(text[1..]);
      FirstLine(text[1..]);
      assert '\n' in text <==> '\n' in text[1..];
      if '\n' in text {
        assert text[..n + 1] == [text[0]] + text[1..][..n];
        assert text[..n + 1][..n] == [text[0]] + text[1..][..n][..n - 1];
      }
    }
  }

  lemma {:induction false} LineLengthIs(line: string, rest: string)
    requires Whole(line) || (rest == "" && OneLine(line))
    ensures LineLength(line + rest) == |line|
    decreases |line|
  {
    if |line| > 1 || (line != "" && OneLine(line)) {
      assert line[0] != '\n' by { if Whole(line) { assert line[..|line| - 1][0] == line[0]; } }
      assert (line + rest)[1..] == line[1..] + rest;
      assert Whole(line) ==> line[1..][..|line| - 2] == line[..|line| - 1][1..];
      LineLengthIs(line[1..], rest);
    }
  }

  lemma LinesCons(line: string, rest: string)
    requires Whole(line) || (rest == "" && line != "" && OneLine(line))
    ensures Lines(line + rest) == [line] + Lines(rest)
  {
    LineLengthIs(line, rest);
    assert (line + rest)[..|line|] == line && (line + rest)[|line|..] == rest;
  }

  lemma {:induction false} LinesAreProper(text: string)
    ensures Proper(Lines(text))
    decreases |text|
  {
    if text != "" {
      var n := LineLength(text);
      FirstLine(text);
      LinesAreProper(text[n..]);
      assert Lines(text)[1..] == Lines(text[n..]);
    }
  }

  lemma {:induction false} LinesConcat(lines: seq<string>)
    requires Proper(lines)
    ensures Lines(Concat(lines)) == lines
  {
    if lines != [] {
      LinesConcat(lines[1..]);
      assert lines == [lines[0]] + lines[1..];
      LinesCons(lines[0], Concat(lines[1..]));
    }
  }

  lemma LinesAppendStep(line: string, rest: string, b: string)
    requires Whole(line) && Lines(rest + b) == Lines(rest) + Lines(b)
    ensures Lines((line + rest) + b) == Lines(line + rest) + Lines(b)
  {
    hide Lines, Whole;
    assert (line + rest) + b == line + (rest + b);
    LinesCons(line, rest);
    LinesCons(line, rest + b);
  }

  lemma CutFirstLine(a: string) returns (line: string, rest: string)
    requires a != "" && a[|a| - 1] == '\n'
    ensures a == line + rest && Whole(line) && |rest| < |a| && (rest == "" || rest[|rest| - 1] == '\n')
  {
    var n := LineLength(a);
    FirstLine(a);
    assert a[|a| - 1] in a;
    line, rest := a[..n], a[n..];
  }

  /** Lines split at a newline. */
  lemma {:induction false} LinesAppend(a: string, b: string)
    requires a == "" || a[|a| - 1] == '\n'
    ensures Lines(a + b) == Lines(a) + Lines(b)
    decreases |a|
  {
    if a == "" {
      assert a + b == b;
    } else {
      hide Lines, Whole;
      var line, rest := CutFirstLine(a);
      LinesAppend(rest, b);
      LinesAppendStep(line, rest, b);
    }
  }

  // ---------------------------------------------------------------- deleting what was added

  /** Whether lines behind these are skipped. */
  function SkipAfter(lines: seq<string>, name: string, skip: bool): bool {
    if lines == [] then skip
    else SkipAfter(lines[1..], name, if IsHeader(lines[0]) then HeaderName(lines[0]) == name else skip)
  }

  lemma {:induction false} DeleteAppend(a: seq<string>, b: seq<string>, name: string, skip: bool)
    ensures Delete(a + b, name, skip) == Delete(a, name, skip) + Delete(b, name, SkipAfter(a, name, skip))
  {
    hide IsHeader;
    if a == [] {
      assert a + b == b;
    } else {
      assert (a + b)[1..] == a[1..] + b;
      DeleteAppend(a[1..], b, name, if IsHeader(a[0]) then HeaderName(a[0]) == name else skip);
    }
  }

  /** A header in brackets. */
  lemma HeaderIs(name: string)
    ensures IsHeader(Header(name)) && HeaderName(Header(name)) == name
  {
    var t := "[" + name + "]";
    assert t + "\n" == Header(name);
    StripBack(t, "\n");
    assert t[1..|t| - 1] == name;
  }

  /** A line of a share is a line of its own, and no header. */
  lemma OptionIs(key: string, value: string)
    requires key != "" && !IsWhite(key[0]) && key[0] != '[' && OneLine(key) && OneLine(value)
    ensures !IsHeader(OptionLine(key, value)) && Whole(OptionLine(key, value))
  {
    var line := OptionLine(key, value);
    assert line[..|line| - 1] == "   " + (key + value);
    StripFront(key + (value + "\n"), "   ");
    StripStarts(key + (value + "\n"));
  }

  predicate NoHeaders(lines: seq<string>) { forall i :: 0 <= i < |lines| ==> !IsHeader(lines[i]) }

  lemma {:induction false} AllSkipped(lines: seq<string>, name: string)
    requires NoHeaders(lines)
    ensures Delete(lines, name, true) == []
  {
    hide IsHeader;
    if lines != [] { AllSkipped(lines[1..], name); }
  }

  lemma OptionsAreLines(path: string, users: string, readOnly: string, guestOk: string)
    requires OneLine(path) && OneLine(users) && OneLine(readOnly) && OneLine(guestOk)
    ensures Proper(Options(path, users, readOnly, guestOk)) && NoHeaders(Options(path, users, readOnly, guestOk))
  {
    hide IsHeader, Whole, OptionLine;
    OptionIs("path", " = " + path);
    OptionIs("valid users", " = " + users);
    OptionIs("read only", " = " + readOnly);
    OptionIs("guest ok", " = " + guestOk);
    OptionIs("create mask", " = 0664");
    OptionIs("directory mask", " = 0775");
    hide Proper, OneLine;
    WholeLinesAreProper(Options(path, users, readOnly, guestOk));
  }

  lemma {:induction false} WholeLinesAreProper(ls: seq<string>)
    requires forall i :: 0 <= i < |ls| ==> Whole(ls[i])
    ensures Proper(ls)
  {
    if |ls| > 1 { WholeLinesAreProper(ls[1..]); }
  }

  /** The lines of a new share, without the empty line in front. */
  lemma SectionLines(name: string, options: seq<string>)
    requires OneLine(name) && Proper(options)
    ensures Lines(Header(name) + Concat(options)) == [Header(name)] + options
  {
    var line := Header(name);
    assert line[..|line| - 1] == "[" + name + "]";
    LinesCons(line, Concat(options));
    LinesConcat(options);
  }

  lemma OptionText(key: string, prefix: string, value: string)
    requires prefix == "   " + key + " = "
    ensures OptionLine(key, " = " + value) == prefix + value + "\n"
  {
  }

  lemma GivenLines(path: string, users: string, readOnly: string, guestOk: string)
    ensures OptionLine("path", " = " + path) == "   path = " + path + "\n"
    ensures OptionLine("valid users", " = " + users) == "   valid users = " + users + "\n"
    ensures OptionLine("read only", " = " + readOnly) == "   read only = " + readOnly + "\n"
    ensures OptionLine("guest ok", " = " + guestOk) == "   guest ok = " + guestOk + "\n"
  {
    hide OptionLine;
    OptionText("path", "   path = ", path);
    OptionText("valid users", "   valid users = ", users);
    OptionText("read only", "   read only = ", readOnly);
    OptionText("guest ok", "   guest ok = ", guestOk);
  }

  lemma MaskLines()
    ensures OptionLine("create mask", " = 0664") == "   create mask = 0664\n"
    ensures OptionLine("directory mask", " = 0775") == "   directory mask = 0775\n"
  {
  }

  lemma OptionLines(path: string, users: string, readOnly: string, guestOk: string)
    ensures Options(path, users, readOnly, guestOk)
            == ["   path = " + path + "\n", "   valid users = " + users + "\n", "   read only = " + readOnly + "\n",
                "   guest ok = " + guestOk + "\n", "   create mask = 0664\n", "   directory mask = 0775\n"]
  {
    hide OptionLine;
    GivenLines(path, users, readOnly, guestOk);
    MaskLines();
  }

  /** The lines of a file behind adding a share: a line break, then the share. */
  lemma AddedLines(text: string, name: string, path: string, users: string, readOnly: string, guestOk: string)
    requires OneLine(name) && OneLine(path) && OneLine(users) && OneLine(readOnly) && OneLine(guestOk)
    ensures Lines(AddShare(text, name, path, users, readOnly, guestOk))
            == Lines(text + "\n") +
               ["[" + name + "]\n", "   path = " + path + "\n", "   valid users = " + users + "\n",
                "   read only = " + readOnly + "\n", "   guest ok = " + guestOk + "\n",
                "   create mask = 0664\n", "   directory mask = 0775\n"]
  {
    var options := Options(path, users, readOnly, guestOk);
    var before, section := text + "\n", Header(name) + Concat(options);
    assert AddShare(text, name, path, users, readOnly, guestOk) == before + section;
    OptionsAreLines(path, users, readOnly, guestOk);
    OptionLines(path, users, readOnly, guestOk);
    hide Options, Concat, Lines, Proper, NoHeaders, AddShare;
    LinesAppend(before, section);
    SectionLines(name, options);
  }

  lemma SectionSkipped(name: string, options: seq<string>, skip: bool)
    requires NoHeaders(options)
    ensures Delete([Header(name)] + options, name, skip) == []
  {
    HeaderIs(name);
    AllSkipped(options, name);
    hide IsHeader, HeaderName;
    assert ([Header(name)] + options)[1..] == options;
  }

  /** Deleting a share that has just been added gives what deleting gives on the old text and one
      newline. */
  lemma DeleteAfterAdd(text: string, name: string, path: string, users: string, readOnly: string, guestOk: string)
    requires OneLine(name) && OneLine(path) && OneLine(users) && OneLine(readOnly) && OneLine(guestOk)
    ensures DeleteText(AddShare(text, name, path, users, readOnly, guestOk), name) == DeleteText(text + "\n", name)
  {
    var options := Options(path, users, readOnly, guestOk);
    var before, section := text + "\n", Header(name) + Concat(options);
    assert AddShare(text, name, path, users, readOnly, guestOk) == before + section;
    OptionsAreLines(path, users, readOnly, guestOk);
    hide Header, Options, Concat, Delete, Lines, Proper, NoHeaders;
    LinesAppend(before, section);
    SectionLines(name, options);
    DeleteAppend(Lines(before), [Header(name)] + options, name, false);
    SectionSkipped(name, options, SkipAfter(Lines(before), name, false));
    assert Delete(Lines(before), name, false) + [] == Delete(Lines(before), name, false);
  }

  /** ... which is that text itself if it has no share of that name. */
  lemma AddThenDelete(text: string, name: string, path: string, users: string, readOnly: string, guestOk: string)
    requires OneLine(name) && OneLine(path) && OneLine(users) && OneLine(readOnly) && OneLine(guestOk)
    requires !Mentions(Lines(text + "\n"), name)
    ensures DeleteText(AddShare(text, name, path, users, readOnly, guestOk), name) == text + "\n"
  {
    hide Mentions, AddShare;
    DeleteAfterAdd(text, name, path, users, readOnly, guestOk);
    DeleteNothingIff(Lines(text + "\n"), name);
    ConcatLines(text + "\n");
  }

  // ---------------------------------------------------------------- the same on texts

  predicate PlainValues(config: map<string, string>) { forall k :: k in config ==> OneLine(config[k]) }

  lemma SettingWhole(key: string, value: string)
    requires KnownKey(key) && OneLine(value)
    ensures Whole(Setting(key, value))
  {
    var line := Setting(key, value);
    assert line[..|line| - 1] == "   " + (key + (" = " + value));
  }

  lemma {:induction false} UpdateIsProper(lines: seq<string>, config: map<string, string>, g: bool)
    requires Proper(lines) && PlainValues(config)
    ensures Proper(Update(lines, config, g)) && |Update(lines, config, g)| == |lines|
  {
    hide IsHeader, Setting, Whole, OneLine, Strip, BeforeEquals, KnownKey;
    if lines != [] {
      var line := lines[0];
      if NewLine(line, config, g) != line {
        SettingWhole(KeyOf(line), config[KeyOf(line)]); SettingNotEmpty(KeyOf(line), config[KeyOf(line)]);
      }
      UpdateIsProper(lines[1..], config, InGlobal(line, g));
      var tail := Update(lines[1..], config, InGlobal(line, g));
      assert ([NewLine(line, config, g)] + tail)[1..] == tail;
    }
  }

  lemma SettingNotEmpty(key: string, value: string)
    ensures Setting(key, value) != ""
  {
  }

  lemma {:induction false} DeleteIsProper(lines: seq<string>, name: string, skip: bool)
    requires Proper(lines)
    ensures Proper(Delete(lines, name, skip))
  {
    hide IsHeader, Whole, OneLine, HeaderName;
    if lines != [] {
      var skip' := if IsHeader(lines[0]) then HeaderName(lines[0]) == name else skip;
      DeleteIsProper(lines[1..], name, skip');
      var tail := Delete(lines[1..], name, skip');
      assert ([lines[0]] + tail)[1..] == tail;
      assert [] + tail == tail;
      if |lines| > 1 { WholeNotEmpty(lines[0]); }
    }
  }

  lemma WholeNotEmpty(line: string)
    requires Whole(line)
    ensures line != ""
  {
  }

  /** Updating a file twice is updating it once. */
  lemma UpdateTextTwice(text: string, config: map<string, string>)
    requires PlainValues(config)
    ensures UpdateText(UpdateText(text, config), config) == UpdateText(text, config)
  {
    hide PlainValues, Update, Lines, Concat, Proper;
    LinesAreProper(text);
    UpdateIsProper(Lines(text), config, false);
    LinesConcat(Update(Lines(text), config, false));
    UpdateIsIdempotent(Lines(text), config, false);
  }

  /** It does not matter whether [global] is updated before or after a share is deleted. */
  lemma UpdateAndDeleteText(text: string, config: map<string, string>, name: string)
    requires PlainValues(config)
    ensures DeleteText(UpdateText(text, config), name) == UpdateText(DeleteText(text, name), config)
  {
    hide PlainValues, Update, Delete, Lines, Concat, Proper;
    LinesAreProper(text);
    UpdateIsProper(Lines(text), config, false);
    LinesConcat(Update(Lines(text), config, false));
    DeleteIsProper(Lines(text), name, false);
    LinesConcat(Delete(Lines(text), name, false));
    UpdateDeleteCommute(Lines(text), config, name, false, false, false);
  }
}
