/**
  `utf8_truncate_safe` (chat-parser-xml-toolcall.cpp): how much of a byte string that may have been
  cut inside a character can be shown. Well-formedness is that of RFC 3629, sections 3 and 4.
  */
module Utf8Truncation {
  import opened Base

  type Bytes = seq<bv8>

  predicate IsTail(b: bv8) { 0x80 <= b <= 0xBF }

  /** The length of the characters that start with this byte; 0 if none does. */
  function LengthOf(lead: bv8): nat {
    if lead <= 0x7F then 1
    else if 0xC2 <= lead <= 0xDF then 2
    else if 0xE0 <= lead <= 0xEF then 3
    else if 0xF0 <= lead <= 0xF4 then 4
    else 0
  }

  /** The second byte is restricted so that encodings are shortest, no surrogates, within range. */
  predicate SecondFits(lead: bv8, second: bv8) {
    if lead == 0xE0 then 0xA0 <= second <= 0xBF
    else if lead == 0xED then 0x80 <= second <= 0x9F
    else if lead == 0xF0 then 0x90 <= second <= 0xBF
    else if lead == 0xF4 then 0x80 <= second <= 0x8F
    else IsTail(second)
  }

  /** One encoded character. */
  predicate IsChar(s: Bytes) {
    && s != [] && |s| == LengthOf(s[0])
    && (|s| > 1 ==> SecondFits(s[0], s[1]))
    && forall i :: 1 <= i < |s| ==> IsTail(s[i])
  }

  predicate Starts(s: Bytes) {
    s != [] && LengthOf(s[0]) > 0 && LengthOf(s[0]) <= |s| && IsChar(s[..LengthOf(s[0])])
  }

  /** A sequence of encoded characters. */
  predicate Valid(s: Bytes)
    decreases |s|
  {
    s == [] || (Starts(s) && Valid(s[LengthOf(s[0])..]))
  }

  /** Reading characters from the front as long as they are complete and well-formed. */
  function Longest(s: Bytes): (n: nat)
    ensures n <= |s|
    decreases |s|
  {
    if !Starts(s) then 0 else LengthOf(s[0]) + Longest(s[LengthOf(s[0])..])
  }

  lemma StartsInPrefix(s: Bytes, k: nat)
    requires k <= |s|
    ensures Starts(s[..k]) ==> Starts(s)
  {
    if Starts(s[..k]) { assert s[..k][..LengthOf(s[0])] == s[..LengthOf(s[0])]; }
  }

  /** `Longest` is the length of the longest valid prefix. */
  lemma {:induction false} LongestIsLongest(s: Bytes, k: nat)
    requires k <= |s|
    ensures Valid(s[..Longest(s)])
    ensures Valid(s[..k]) ==> k <= Longest(s)
    decreases |s|
  {
    if Starts(s) {
      var n := LengthOf(s[0]);
      var p := s[..Longest(s)];
      LongestIsLongest(s[n..], if k >= n then k - n else 0);
      assert p[..n] == s[..n] && p[n..] == s[n..][..Longest(s[n..])];
      if k >= n {
        assert s[..k][..n] == s[..n] && s[..k][n..] == s[n..][..k - n];
      }
    } else {
      StartsInPrefix(s, k);
    }
  }

  /** Of a cut valid text, what is left over begins one character and does not complete it. */
  lemma {:induction false} CutLeavesStart(s: Bytes, v: Bytes)
    requires Valid(v) && s <= v
    ensures var rest := s[Longest(s)..];
            rest != [] ==> |rest| < LengthOf(rest[0]) && forall i :: 1 <= i < |rest| ==> IsTail(rest[i])
    decreases |s|
  {
    if s != [] {
      var n := LengthOf(v[0]);
      if n <= |s| {
        assert s[..n] == v[..n];
        CutLeavesStart(s[n..], v[n..]);
        assert s[Longest(s)..] == s[n..][Longest(s[n..])..];
      } else {
        assert forall i :: 1 <= i < |s| ==> s[i] == v[..n][i];
        assert s[0..] == s;
      }
    }
  }

  /** The last character of a nonempty valid text. */
  lemma {:induction false} LastChar(s: Bytes) returns (p: nat)
    requires Valid(s) && s != []
    ensures p < |s| && IsChar(s[p..])
    decreases |s|
  {
    var n := LengthOf(s[0]);
    if |s| == n {
      assert s[..n] == s && s[0..] == s;
      p := 0;
    } else {
      var q := LastChar(s[n..]);
      p := n + q;
      assert s[p..] == s[n..][q..];
    }
  }

  /** Walking back over tail bytes from the end leads to the byte at `i`, which begins a character. */
  predicate LeadAt(s: Bytes, i: nat) {
    i < |s| && !IsTail(s[i]) && |s| <= i + 4 && forall k :: i < k < |s| ==> IsTail(s[k])
  }

  /** Where the backward scan stops in a cut valid text, and what it finds there. */
  lemma LeadOfCut(s: Bytes, v: Bytes) returns (i: nat)
    requires Valid(v) && s <= v && s != []
    ensures LeadAt(s, i) && LengthOf(s[i]) > 0
    ensures Longest(s) == if |s| - i >= LengthOf(s[i]) then |s| else i
  {
    var n := Longest(s);
    CutLeavesStart(s, v);
    LongestIsLongest(s, 0);
    if n < |s| {
      i := n;
      forall k | i < k < |s| ensures IsTail(s[k]) { assert s[k] == s[n..][k - n]; }
    } else {
      assert s[..n] == s;
      i := LastChar(s);
      forall k | i < k < |s| ensures IsTail(s[k]) { assert s[k] == s[i..][k - i]; }
    }
  }

  /** The byte masks of the scan, in terms of ranges. */
  lemma MasksAgree(c: bv8)
    ensures (c & 0x80 == 0) <==> c <= 0x7F
    ensures IsTail(c) <==> (c & 0x80 != 0 && c & 0xC0 != 0xC0)
    ensures (c & 0xE0 == 0xC0) <==> 0xC0 <= c <= 0xDF
    ensures (c & 0xF0 == 0xE0) <==> 0xE0 <= c <= 0xEF
    ensures (c & 0xF8 == 0xF0) <==> 0xF0 <= c <= 0xF7
  {
  }

  /**
    The backward scan over at most four bytes. On every cut of a valid text it returns the length
    of the longest valid prefix, and so gives up at most three bytes.
    */
  method TruncateSafe(s: Bytes, ghost v: Bytes) returns (r: nat)
    ensures r <= |s|
    ensures Valid(v) && s <= v ==> r == Longest(s) && |s| - r <= 3
  {
    var len := |s|;
    if len == 0 { return 0; }
    ghost var lead := 0;
    ghost var cut := Valid(v) && s <= v;
    if cut {
      lead := LeadOfCut(s, v);
    }
    var i, back := len, 0;
    while back < 4 && i > 0
      invariant i + back == len && back <= 4 && 0 <= i
      invariant forall k :: i <= k < len ==> IsTail(s[k])
      invariant cut ==> lead < i
    {
      i := i - 1;
      var c := s[i];
      MasksAgree(c);
      if c & 0x80 == 0 {
        return len;
      } else if c & 0xC0 == 0xC0 {
        var expected := 0;
        if c & 0xE0 == 0xC0 {
          expected := 2;
        } else if c & 0xF0 == 0xE0 {
          expected := 3;
        } else if c & 0xF8 == 0xF0 {
          expected := 4;
        } else {
          return i;
        }
        return if len - i >= expected then len else i;
      }
      back := back + 1;
    }
    return len - Min(len, 3);
  }

  /** What can be shown only grows as bytes arrive. */
  lemma LongestGrows(s: Bytes, t: Bytes)
    requires s <= t
    ensures Longest(s) <= Longest(t)
  {
    LongestIsLongest(s, 0);
    assert s[..Longest(s)] == t[..Longest(s)];
    LongestIsLongest(t, Longest(s));
  }
}
