/** String helpers of common.h / common.cpp on which the streaming parsers rest. */
module Text {
  import opened Base

  /** `std::isspace` in the C locale. */
  predicate IsSpace(c: char) { c == ' ' || '\t' <= c <= '\r' }

  /** `p` stands in `s` at position `i`. */
  predicate OccursAt(s: string, p: string, i: int) {
    0 <= i && i + |p| <= |s| && s[i..i + |p|] == p
  }

  /** `std::string::find`: the first occurrence at or after `from`. */
  function Find(s: string, p: string, from: nat): (r: Option<nat>)
    ensures r.Some? ==> from <= r.value && OccursAt(s, p, r.value)
    ensures r.Some? ==> forall k :: from <= k < r.value ==> !OccursAt(s, p, k)
    ensures r.None? ==> forall k :: from <= k ==> !OccursAt(s, p, k)
    decreases |s| - from
  {
    if from + |p| > |s| then None
    else if OccursAt(s, p, from) then Some(from)
    else Find(s, p, from + 1)
  }

  /** The first occurrence is the only value `Find` can return. */
  lemma FindIs(s: string, p: string, from: nat, k: nat)
    requires from <= k && OccursAt(s, p, k)
    requires forall i :: from <= i < k ==> !OccursAt(s, p, i)
    ensures Find(s, p, from) == Some(k)
  {
  }

  lemma OccursInExtension(s: string, t: string, p: string, i: int)
    requires s <= t && i + |p| <= |s|
    ensures OccursAt(t, p, i) == OccursAt(s, p, i)
  {
    if 0 <= i { assert t[i..i + |p|] == s[i..i + |p|]; }
  }

  /** What follows position `i` could be the beginning of `p`. */
  predicate IsOverlap(s: string, p: string, i: int) {
    0 <= i < |s| && s[i..] <= p
  }

  /** Leftmost position from `i` on whose tail is a beginning of `stop`. */
  function PartialFrom(s: string, stop: string, i: nat): (r: Option<nat>)
    requires i <= |s|
    ensures r.Some? ==> i <= r.value && IsOverlap(s, stop, r.value)
    ensures r.Some? ==> forall k :: i <= k < r.value ==> !IsOverlap(s, stop, k)
    ensures r.None? ==> forall k :: i <= k ==> !IsOverlap(s, stop, k)
    decreases |s| - i
  {
    if i == |s| then None
    else if IsOverlap(s, stop, i) then Some(i)
    else PartialFrom(s, stop, i + 1)
  }

  /** The longest suffix of `s` that begins `stop`, as its start position. */
  function PartialStop(s: string, stop: string): Option<nat> { PartialFrom(s, stop, 0) }

  predicate EndsWith(s: string, suffix: string) {
    |s| >= |suffix| && s[|s| - |suffix|..] == suffix
  }

  /** `string_find_partial_stop`: tries the lengths downwards, looking at the last character first. */
  method FindPartialStop(str: string, stop: string) returns (r: Option<nat>)
    ensures r == PartialStop(str, stop)
  {
    if str != "" && stop != "" {
      var maxLen := Min(|str|, |stop|);
      var lastChar := str[|str| - 1];
      var len := maxLen;
      while len > 0
        invariant 0 <= len <= maxLen
        invariant forall k :: 0 <= k < |str| - len ==> !IsOverlap(str, stop, k)
      {
        OverlapEnds(str, stop, len);
        if stop[len - 1] == lastChar {
          if EndsWith(str, stop[..len]) {
            PartialStopIs(str, stop, |str| - len);
            return Some(|str| - len);
          }
        }
        len := len - 1;
      }
    }
    return None;
  }

  /** The test of the loop: last character first, then the whole suffix. */
  lemma OverlapEnds(s: string, stop: string, len: nat)
    requires 0 < len <= Min(|s|, |stop|)
    ensures IsOverlap(s, stop, |s| - len) <==> stop[len - 1] == s[|s| - 1] && EndsWith(s, stop[..len])
  {
    var tail := s[|s| - len..];
    assert tail[len - 1] == s[|s| - 1];
    assert tail <= stop <==> tail == stop[..len];
  }

  lemma PartialStopIs(s: string, stop: string, i: nat)
    requires IsOverlap(s, stop, i)
    requires forall k :: 0 <= k < i ==> !IsOverlap(s, stop, k)
    ensures PartialStop(s, stop) == Some(i)
  {
  }

  /** A complete occurrence in an extension that is not yet complete in `s` is an overlap of `s`. */
  lemma UnfinishedIsOverlap(s: string, t: string, p: string, k: nat)
    requires s <= t && OccursAt(t, p, k)
    requires k < |s| <= k + |p|
    ensures IsOverlap(s, p, k)
  {
    assert s[k..] == t[k..k + |p|][..|s| - k];
  }

  lemma OverlapShrinks(s: string, t: string, p: string, k: nat)
    requires s <= t && k < |s| && IsOverlap(t, p, k)
    ensures IsOverlap(s, p, k)
  {
    assert s[k..] == t[k..][..|s| - k];
  }

  /** Where a partial stop in the tail of `s` from `at` begins, in coordinates of `s`. */
  lemma OverlapOfTail(s: string, p: string, at: nat, k: nat)
    requires at <= k < |s|
    ensures IsOverlap(s[at..], p, k - at) == IsOverlap(s, p, k)
  {
    assert s[at..][k - at..] == s[k..];
  }

  function SkipSpaces(s: string, i: nat): (r: nat)
    requires i <= |s|
    ensures i <= r <= |s|
    ensures forall k :: i <= k < r ==> IsSpace(s[k])
    ensures r < |s| ==> !IsSpace(s[r])
    decreases |s| - i
  {
    if i < |s| && IsSpace(s[i]) then SkipSpaces(s, i + 1) else i
  }

  lemma SkipSpacesInExtension(s: string, t: string, i: nat)
    requires s <= t && i <= |s|
    ensures SkipSpaces(s, i) < |s| ==> SkipSpaces(t, i) == SkipSpaces(s, i)
    decreases |s| - i
  {
    if i < |s| && IsSpace(s[i]) { SkipSpacesInExtension(s, t, i + 1); }
  }

  function RStrip(s: string): (r: string)
    ensures r <= s
    ensures r != "" ==> !IsSpace(r[|r| - 1])
    ensures forall k :: |r| <= k < |s| ==> IsSpace(s[k])
  {
    if s != "" && IsSpace(s[|s| - 1]) then RStrip(s[..|s| - 1]) else s
  }

  /** `s` without leading and trailing white space. */
  function Strip(s: string): (r: string) {
    if s != "" && IsSpace(s[0]) then Strip(s[1..]) else RStrip(s)
  }

  lemma RStripIs(s: string, end: nat)
    requires end <= |s| && (end > 0 ==> !IsSpace(s[end - 1]))
    requires forall k :: end <= k < |s| ==> IsSpace(s[k])
    ensures RStrip(s) == s[..end]
  {
    if end < |s| {
      RStripIs(s[..|s| - 1], end);
      assert s[..|s| - 1][..end] == s[..end];
    } else {
      assert s[..end] == s;
    }
  }

  /** `Strip` cuts exactly at the first and behind the last visible character. */
  lemma StripIs(s: string, start: nat, end: nat)
    requires start <= end <= |s|
    requires forall k :: 0 <= k < start ==> IsSpace(s[k])
    requires forall k :: end <= k < |s| ==> IsSpace(s[k])
    requires start < end ==> !IsSpace(s[start]) && !IsSpace(s[end - 1])
    requires start == end ==> end == |s|
    ensures Strip(s) == s[start..end]
  {
    if start > 0 {
      StripIs(s[1..], start - 1, end - 1);
      assert s[1..][start - 1..end - 1] == s[start..end];
    } else {
      RStripIs(s, end);
      assert s[0..end] == s[..end];
    }
  }

  /** `string_strip`: two indices close in on the text. */
  method StripLoop(str: string) returns (r: string)
    ensures r == Strip(str)
  {
    var start, end := 0, |str|;
    while start < end && IsSpace(str[start])
      invariant 0 <= start <= end == |str|
      invariant forall k :: 0 <= k < start ==> IsSpace(str[k])
    {
      start := start + 1;
    }
    while end > start && IsSpace(str[end - 1])
      invariant start <= end <= |str|
      invariant start == end ==> end == |str|
      invariant start < |str| ==> !IsSpace(str[start])
      invariant forall k :: end <= k < |str| ==> IsSpace(str[k])
    {
      end := end - 1;
    }
    StripIs(str, start, end);
    r := str[start..start + (end - start)];
  }

  /** A prefix that ends in a visible character survives right-stripping of the longer text. */
  lemma {:induction false} RStripKeeps(p: string, s: string)
    requires p <= s
    requires p != "" ==> !IsSpace(p[|p| - 1])
    ensures p <= RStrip(s)
    decreases |s|
  {
    if s != "" && IsSpace(s[|s| - 1]) {
      assert p == "" || p[|p| - 1] == s[|p| - 1];
      RStripKeeps(p, s[..|s| - 1]);
    }
  }

  lemma RStripMonotone(x: string, y: string)
    requires x <= y
    ensures RStrip(x) <= RStrip(y)
  {
    RStripKeeps(RStrip(x), y);
  }

  /** Stripping is monotone along prefixes: a longer text never takes back what was shown. */
  lemma {:induction false} StripMonotone(x: string, y: string)
    requires x <= y
    ensures Strip(x) <= Strip(y)
  {
    if x == "" {
    } else if IsSpace(x[0]) {
      StripMonotone(x[1..], y[1..]);
    } else {
      RStripKeeps(RStrip(x), y);
    }
  }
}
