/** `string_process_escapes` (common.cpp): unescaping a string in its own buffer. */
module Escapes {
  import opened Base
  import opened Text

  // ---------------------------------------------------------------- meaning

  function HexValue(c: char): (r: Option<nat>)
    ensures r.Some? ==> r.value < 16
  {
    if '0' <= c <= '9' then Some(c as int - '0' as int)
    else if 'a' <= c <= 'f' then Some(c as int - 'a' as int + 10)
    else if 'A' <= c <= 'F' then Some(c as int - 'A' as int + 10)
    else None
  }

  /** `strtol` in base 16 that uses up both characters: two digits, or a digit behind a blank or a sign. */
  function Strtol(a: char, b: char): Option<int> {
    if HexValue(b).None? then None
    else if HexValue(a).Some? then Some(16 * HexValue(a).value + HexValue(b).value)
    else if IsSpace(a) || a == '+' then Some(HexValue(b).value)
    else if a == '-' then Some(0 - HexValue(b).value)
    else None
  }

  /** Conversion to an 8-bit `char`. */
  function ToChar(val: int): char { (val % 0x100) as char }

  /** The character that a one-letter escape stands for. */
  function Simple(c: char): (r: Option<char>)
    ensures r.Some? <==> c in "nrt\'\"\\"
  {
    match c
    case 'n' => Some('\n')
    case 'r' => Some('\r')
    case 't' => Some('\t')
    case '\'' => Some('\'')
    case '\"' => Some('\"')
    case '\\' => Some('\\')
    case _ => None
  }

  /** What stands at the start of `s`: the text it means, and how many characters it takes. */
  function Token(s: string): (r: (string, nat))
    requires s != ""
    ensures 1 <= |r.0| <= r.1 <= |s| && (|r.0| == r.1 ==> r.0 == s[..r.1])
  {
    if s[0] != '\\' || |s| == 1 then ([s[0]], 1)
    else if Simple(s[1]).Some? then ([Simple(s[1]).value], 2)
    else if s[1] == 'x' && |s| >= 4 && Strtol(s[2], s[3]).Some? then ([ToChar(Strtol(s[2], s[3]).value)], 4)
    else (['\\', s[1]], 2)
  }

  function Unescape(s: string): string {
    if s == "" then "" else Token(s).0 + Unescape(s[Token(s).1..])
  }

  lemma NextToken(s: string, i: nat, done: string)
    requires i < |s|
    ensures var (text, n) := Token(s[i..]);
            i + n <= |s| && done + Unescape(s[i..]) == done + text + Unescape(s[i + n..])
  {
    var rest := s[i..];
    var (text, n) := Token(rest);
    assert rest[n..] == s[i + n..];
    assert done + (text + Unescape(rest[n..])) == done + text + Unescape(rest[n..]);
  }

  /** The token at a position, in terms of the characters there. */
  lemma TokenAt(s: string, i: nat)
    requires i < |s|
    ensures Token(s[i..]) ==
            if s[i] != '\\' || i + 1 == |s| then ([s[i]], 1)
            else if Simple(s[i + 1]).Some? then ([Simple(s[i + 1]).value], 2)
            else if s[i + 1] == 'x' && i + 3 < |s| && Strtol(s[i + 2], s[i + 3]).Some?
            then ([ToChar(Strtol(s[i + 2], s[i + 3]).value)], 4)
            else (['\\', s[i + 1]], 2)
  {
    hide Strtol, Simple;
  }

  // ---------------------------------------------------------------- in place

  /** The buffer holds the output so far, and the input from the read index on. */
  ghost predicate InPlace(buffer: string, orig: string, done: string, inputIdx: nat) {
    && |buffer| == |orig| && |done| <= inputIdx <= |orig|
    && buffer[..|done|] == done && buffer[inputIdx..] == orig[inputIdx..]
  }

  lemma WriteOne(buffer: string, orig: string, done: string, inputIdx: nat, next: nat, c: char)
    requires InPlace(buffer, orig, done, inputIdx) && inputIdx < next <= |orig|
    ensures InPlace(buffer[|done| := c], orig, done + [c], next)
  {
    var buffer' := buffer[|done| := c];
    assert buffer'[..|done|] == buffer[..|done|];
    assert buffer'[next..] == buffer[inputIdx..][next - inputIdx..];
    assert orig[next..] == orig[inputIdx..][next - inputIdx..];
  }

  lemma ReadAhead(buffer: string, orig: string, done: string, inputIdx: nat, k: nat)
    requires InPlace(buffer, orig, done, inputIdx) && inputIdx <= k < |orig|
    ensures buffer[k] == orig[k]
  {
    assert buffer[k] == buffer[inputIdx..][k - inputIdx];
  }

  /** The characters that a token can look at are still those of the input. */
  lemma Untouched(buffer: string, orig: string, done: string, i: nat)
    requires InPlace(buffer, orig, done, i) && i < |orig|
    ensures |done| <= i < |buffer| && buffer[i] == orig[i] && (i + 1 < |orig| ==> buffer[i + 1] == orig[i + 1])
    ensures i + 3 < |orig| ==> buffer[i + 2] == orig[i + 2] && buffer[i + 3] == orig[i + 3]
  {
    ReadAhead(buffer, orig, done, i, i);
    if i + 1 < |orig| { ReadAhead(buffer, orig, done, i, i + 1); }
    if i + 3 < |orig| { ReadAhead(buffer, orig, done, i, i + 2); ReadAhead(buffer, orig, done, i, i + 3); }
  }

  lemma Beginning(orig: string)
    ensures InPlace(orig, orig, "", 0) && "" + Unescape(orig[0..]) == Unescape(orig)
  {
    assert orig[0..] == orig;
  }

  lemma Ending(buffer: string, orig: string, done: string)
    requires InPlace(buffer, orig, done, |orig|)
    ensures |done| <= |buffer| && buffer[..|done|] == done + Unescape(orig[|orig|..])
  {
  }

  /** One assignment to the buffer. */
  method Put(buffer: array<char>, i: nat, c: char)
    requires i < buffer.Length
    modifies buffer
    ensures buffer[..] == old(buffer[..])[i := c]
  {
    buffer[i] := c;
  }

  /** The write index never passes the read index, so that no character is lost before it is read. */
  method ProcessEscapes(input: array<char>) returns (outputIdx: nat)
    modifies input
    ensures outputIdx <= input.Length && input[..outputIdx] == Unescape(old(input[..]))
  {
    hide Unescape, Token, Strtol, Simple, InPlace;
    ghost var orig, done := input[..], "";
    var inputLen := input.Length;
    outputIdx := 0;
    var inputIdx := 0;
    Beginning(orig);
    while inputIdx < inputLen
      invariant inputIdx <= inputLen && outputIdx == |done| && |orig| == inputLen
      invariant InPlace(input[..], orig, done, inputIdx)
      invariant done + Unescape(orig[inputIdx..]) == Unescape(orig)
    {
      NextToken(orig, inputIdx, done);
      TokenAt(orig, inputIdx);
      Untouched(input[..], orig, done, inputIdx);
      ghost var buffer, start := input[..], inputIdx;
      if input[inputIdx] == '\\' && inputIdx + 1 < inputLen {
        inputIdx := inputIdx + 1;
        var simple := Simple(input[inputIdx]);
        if simple.Some? {
          Put(input, outputIdx, simple.value);
          outputIdx := outputIdx + 1;
          inputIdx := inputIdx + 1;
          WriteOne(buffer, orig, done, start, inputIdx, simple.value);
          done := done + [simple.value];
        } else {
          var val := if input[inputIdx] == 'x' && inputIdx + 2 < inputLen
                     then Strtol(input[inputIdx + 1], input[inputIdx + 2]) else None;
          if val.Some? {
            inputIdx := inputIdx + 3;
            Put(input, outputIdx, ToChar(val.value));
            outputIdx := outputIdx + 1;
            WriteOne(buffer, orig, done, start, inputIdx, ToChar(val.value));
            done := done + [ToChar(val.value)];
          } else {
            Put(input, outputIdx, '\\');
            Put(input, outputIdx + 1, input[inputIdx]);
            outputIdx := outputIdx + 2;
            WriteTwo(buffer, orig, done, start, orig[start + 1]);
            done := done + ['\\', orig[start + 1]];
            inputIdx := inputIdx + 1;
          }
        }
      } else {
        Put(input, outputIdx, input[inputIdx]);
        outputIdx := outputIdx + 1;
        inputIdx := inputIdx + 1;
        WriteOne(buffer, orig, done, start, inputIdx, orig[start]);
        done := done + [orig[start]];
      }
    }
    Ending(input[..], orig, done);
  }

  lemma WriteTwo(buffer: string, orig: string, done: string, inputIdx: nat, c: char)
    requires InPlace(buffer, orig, done, inputIdx) && inputIdx + 2 <= |orig|
    ensures |done| + 1 < |buffer|
    ensures InPlace(buffer[|done| := '\\'][|done| + 1 := c], orig, done + ['\\', c], inputIdx + 2)
  {
    WriteOne(buffer, orig, done, inputIdx, inputIdx + 1, '\\');
    WriteOne(buffer[|done| := '\\'], orig, done + ['\\'], inputIdx + 1, inputIdx + 2, c);
    assert done + ['\\'] + [c] == done + ['\\', c];
  }

  // ---------------------------------------------------------------- properties

  /** Unescaping shortens a text or leaves it alone. */
  lemma {:induction false} UnescapeShrinks(s: string)
    ensures |Unescape(s)| <= |s| && (|Unescape(s)| == |s| ==> Unescape(s) == s)
    decreases |s|
  {
    if s != "" {
      var (text, n) := Token(s);
      UnescapeShrinks(s[n..]);
      assert s == s[..n] + s[n..];
    }
  }

  /** An escape that means something: a known letter, or `x` and a number. */
  predicate EscapeAt(s: string, i: nat) {
    && i + 1 < |s| && s[i] == '\\'
    && (Simple(s[i + 1]).Some? || (s[i + 1] == 'x' && i + 3 < |s| && Strtol(s[i + 2], s[i + 3]).Some?))
  }

  lemma EscapeInTail(s: string, n: nat, i: nat)
    requires n <= |s|
    ensures EscapeAt(s[n..], i) == EscapeAt(s, n + i)
  {
    hide Strtol, Simple;
  }

  /** The token at the start is kept exactly if no escape that means something stands there; none begins
      inside it then. */
  lemma KeptToken(s: string)
    requires s != ""
    ensures var (text, n) := Token(s);
            && (EscapeAt(s, 0) ==> |text| < n) && (!EscapeAt(s, 0) ==> text == s[..n] && n <= 2)
            && (!EscapeAt(s, 0) && n == 2 ==> !EscapeAt(s, 1))
  {
    hide Strtol;
  }

  lemma UnescapeTail(s: string)
    requires s != ""
    ensures var (text, n) := Token(s); Unescape(s) == text + Unescape(s[n..]) && s == s[..n] + s[n..]
  {
    hide Token;
  }

  /** All else stays: a text is unchanged exactly if it has no escape that means something. */
  lemma {:induction false} UnescapeSameIff(s: string)
    ensures Unescape(s) == s <==> forall i: nat :: !EscapeAt(s, i)
    decreases |s|
  {
    hide Token, Unescape, EscapeAt;
    if s == "" {
      NoEscape();
    } else {
      var (text, n) := Token(s);
      KeptToken(s);
      UnescapeTail(s);
      UnescapeShrinks(s[n..]);
      if !EscapeAt(s, 0) {
        UnescapeSameIff(s[n..]);
        forall i: nat ensures EscapeAt(s[n..], i) == EscapeAt(s, n + i) { EscapeInTail(s, n, i); }
        assert forall i: nat :: EscapeAt(s, i) ==> i >= n && EscapeAt(s[n..], i - n);
      }
    }
  }

  lemma NoEscape()
    ensures Unescape("") == "" && forall i: nat :: !EscapeAt("", i)
  {
  }

  /** The inverse: a letter escape for each of the six characters that have one. */
  function EscapeChar(c: char): string {
    if c == '\n' then "\\n"
    else if c == '\r' then "\\r"
    else if c == '\t' then "\\t"
    else if c == '\'' then "\\\'"
    else if c == '\"' then "\\\""
    else if c == '\\' then "\\\\"
    else [c]
  }

  function Escape(s: string): string {
    if s == "" then "" else EscapeChar(s[0]) + Escape(s[1..])
  }

  lemma EscapedToken(c: char, rest: string)
    ensures EscapeChar(c) != "" && Token(EscapeChar(c) + rest) == ([c], |EscapeChar(c)|)
  {
    hide Strtol;
  }

  /** Unescaping undoes escaping, on every string. */
  lemma {:induction false} UnescapeEscape(s: string)
    ensures Unescape(Escape(s)) == s
  {
    if s != "" {
      hide EscapeChar, Token;
      var e, rest := EscapeChar(s[0]), Escape(s[1..]);
      EscapedToken(s[0], rest);
      UnescapeEscape(s[1..]);
      assert e + rest != "" && (e + rest)[|e|..] == rest;
      assert [s[0]] + s[1..] == s;
    }
  }

  // ---------------------------------------------------------------- hexadecimal escapes

  /** A digit of base 16, in one of the two cases. */
  function HexDigit(v: nat, upper: bool): char
    requires v < 16
  {
    if upper then "0123456789ABCDEF"[v] else "0123456789abcdef"[v]
  }

  /** A byte as `\\x` and two digits. */
  function HexEscape(c: char, upper: bool): string
    requires c < 256 as char
  {
    ['\\', 'x', HexDigit(c as int / 16, upper), HexDigit(c as int % 16, upper)]
  }

  function HexEscapeAll(s: string, upper: bool): string
    requires forall i :: 0 <= i < |s| ==> s[i] < 256 as char
  {
    if s == "" then "" else HexEscape(s[0], upper) + HexEscapeAll(s[1..], upper)
  }

  lemma HexDigitIs(v: nat, upper: bool)
    requires v < 16
    ensures HexValue(HexDigit(v, upper)) == Some(v)
  {
  }

  lemma HexToken(c: char, upper: bool, rest: string)
    requires c < 256 as char
    ensures Token(HexEscape(c, upper) + rest) == ([c], 4)
  {
    hide HexValue, HexDigit;
    HexDigitIs(c as int / 16, upper);
    HexDigitIs(c as int % 16, upper);
    assert ToChar(16 * (c as int / 16) + c as int % 16) == c;
  }

  /** Unescaping undoes writing every byte as two hexadecimal digits. */
  lemma {:induction false} UnescapeHex(s: string, upper: bool)
    requires forall i :: 0 <= i < |s| ==> s[i] < 256 as char
    ensures Unescape(HexEscapeAll(s, upper)) == s
  {
    if s != "" {
      hide HexEscape, Token;
      var e, rest := HexEscape(s[0], upper), HexEscapeAll(s[1..], upper);
      HexToken(s[0], upper, rest);
      UnescapeHex(s[1..], upper);
      assert |e| == 4 && (e + rest)[4..] == rest;
      assert [s[0]] + s[1..] == s;
    }
  }

  /** `strtol` also takes a blank or a sign and one digit; a negative number wraps around. */
  lemma SignedHex(sign: char, v: nat, upper: bool)
    requires v < 16 && (sign == '+' || sign == '-' || IsSpace(sign))
    ensures Unescape(['\\', 'x', sign, HexDigit(v, upper)])
            == [if sign == '-' && v > 0 then (256 - v) as char else v as char]
  {
    hide HexDigit;
    HexDigitIs(v, upper);
    var s := ['\\', 'x', sign, HexDigit(v, upper)];
    assert s[Token(s).1..] == "";
  }
}
