/**
  Holding back what may be part of a tag: `try_find_literal` of the message parser and
  `trim_suffix` of the XML tool-call parser. Both rest on suffix/prefix overlaps.
  */
module TagTrimming {
  import opened Base
  import opened Text
  import opened StreamParser

  /** An overlap is exactly a place where some continuation completes the literal. */
  lemma OverlapIffCompletable(s: string, p: string, k: nat)
    requires k < |s|
    ensures IsOverlap(s, p, k) <==> k + |p| >= |s| && exists t :: OccursAt(s + t, p, k)
  {
    if IsOverlap(s, p, k) {
      var t := p[|s| - k..];
      assert (s + t)[k..k + |p|] == s[k..] + t == p;
    }
    if k + |p| >= |s| && exists t :: OccursAt(s + t, p, k) {
      var t :| OccursAt(s + t, p, k);
      UnfinishedIsOverlap(s, s + t, p, k);
    }
  }

  // ---------------------------------------------------------------- try_find_literal

  /** A found prelude is final: it is a prefix of the prelude, or of the text, of every extension. */
  lemma PreludeGrows(s: string, t: string, q: bool, pos: nat, literal: string)
    requires s <= t && pos <= |s| && FindLiteral(s, true, pos, literal).Some?
    ensures var prelude := FindLiteral(s, true, pos, literal).value.prelude;
            match FindLiteral(t, q, pos, literal)
            case Some(f) => prelude <= f.prelude
            case None => prelude <= t[pos..]
  {
    var begin := FindLiteral(s, true, pos, literal).value.begin;
    match FindLiteral(t, q, pos, literal) {
      case None =>
      case Some(f) => NoEarlierLiteral(s, t, q, pos, literal);
    }
  }

  /** Neither a whole nor a partial literal of the longer text starts before the one reported. */
  lemma NoEarlierLiteral(s: string, t: string, q: bool, pos: nat, literal: string)
    requires s <= t && pos <= |s|
    requires FindLiteral(s, true, pos, literal).Some? && FindLiteral(t, q, pos, literal).Some?
    ensures FindLiteral(s, true, pos, literal).value.begin <= FindLiteral(t, q, pos, literal).value.begin
  {
    var k := FindLiteral(t, q, pos, literal).value.begin;
    if Find(s, literal, pos).Some? {
      var i := Find(s, literal, pos).value;
      OccursInExtension(s, t, literal, i);
      if k + |literal| <= |s| { OccursInExtension(s, t, literal, k); }
    } else if k < |s| {
      if OccursAt(t, literal, k) {
        if k + |literal| <= |s| {
          OccursInExtension(s, t, literal, k);
        } else {
          UnfinishedIsOverlap(s, t, literal, k);
        }
      } else {
        OverlapShrinks(s, t, literal, k);
      }
    }
  }

  /**
    A missing result is not always safe. Exactly when the longest overlap of the whole input starts
    before the position while the unread part has an overlap of its own, a continuation makes the
    literal start inside the text that the caller believes free of it.
    */
  lemma MissedLiteral(s: string, pos: nat, literal: string)
    requires pos <= |s| && FindLiteral(s, true, pos, literal).None?
    ensures (exists t, k :: pos <= k < |s| && OccursAt(s + t, literal, k))
            <==> (&& PartialStop(s, literal).Some? && PartialStop(s, literal).value < pos
                  && PartialStop(s[pos..], literal).Some?)
  {
    var tail := PartialStop(s[pos..], literal);
    if exists t, k :: pos <= k < |s| && OccursAt(s + t, literal, k) {
      var t, k :| pos <= k < |s| && OccursAt(s + t, literal, k);
      if k + |literal| <= |s| {
        OccursInExtension(s, s + t, literal, k);
      } else {
        UnfinishedIsOverlap(s, s + t, literal, k);
        OverlapOfTail(s, literal, pos, k);
      }
    }
    if tail.Some? {
      OverlapOfTail(s, literal, pos, pos + tail.value);
      OverlapIffCompletable(s, literal, pos + tail.value);
    }
  }

  /** Such an input: behind the first `a`, the second one is a start of `aab` that goes unnoticed. */
  lemma MissedLiteralExample()
    ensures FindLiteral("aa", true, 1, "aab").None? && OccursAt("aa" + "ab", "aab", 1)
  {
    assert IsOverlap("aa", "aab", 0);
    PartialStopIs("aa", "aab", 0);
    assert ("aa" + "ab")[1..4] == "aab";
  }

  // ---------------------------------------------------------------- trim_suffix

  /** Where the text is cut: the leftmost overlap with any of the patterns. */
  function TrimAt(content: string, patterns: seq<string>): (r: nat)
    ensures r <= |content|
  {
    if patterns == [] then |content|
    else
      var rest := TrimAt(content, patterns[1..]);
      match PartialStop(content, patterns[0])
      case None => rest
      case Some(i) => Min(i, rest)
  }

  lemma {:induction false} TrimAtIsLeast(content: string, patterns: seq<string>)
    ensures forall p, k :: p in patterns && IsOverlap(content, p, k) ==> TrimAt(content, patterns) <= k
    ensures TrimAt(content, patterns) < |content| ==>
              exists p :: p in patterns && IsOverlap(content, p, TrimAt(content, patterns))
  {
    if patterns != [] {
      TrimAtIsLeast(content, patterns[1..]);
      var r, rest := TrimAt(content, patterns), TrimAt(content, patterns[1..]);
      if r < |content| && r != rest {
        assert patterns[0] in patterns && IsOverlap(content, patterns[0], r);
      }
      assert forall p :: p in patterns ==> p == patterns[0] || p in patterns[1..];
    }
  }

  lemma TrimAtIs(content: string, patterns: seq<string>, best: nat)
    requires best <= |content|
    requires forall p, k :: p in patterns && IsOverlap(content, p, k) ==> best <= k
    requires best < |content| ==> exists p :: p in patterns && IsOverlap(content, p, best)
    ensures TrimAt(content, patterns) == best
  {
    TrimAtIsLeast(content, patterns);
  }

  /** `trim_suffix`: tries every start near the end against every pattern and erases from the best. */
  method TrimSuffix(content: string, patterns: seq<string>) returns (kept: string)
    ensures kept == content[..TrimAt(content, patterns)]
  {
    var bestMatch := |content|;
    for n := 0 to |patterns|
      invariant bestMatch <= |content|
      invariant forall p, k :: p in patterns[..n] && IsOverlap(content, p, k) ==> bestMatch <= k
      invariant bestMatch < |content| ==> exists p :: p in patterns[..n] && IsOverlap(content, p, bestMatch)
    {
      var best := BestMatch(content, patterns[n], bestMatch);
      assert patterns[..n + 1] == patterns[..n] + [patterns[n]];
      assert patterns[n] in patterns[..n + 1];
      bestMatch := best;
    }
    assert patterns[..|patterns|] == patterns;
    TrimAtIs(content, patterns, bestMatch);
    kept := content[..bestMatch];
  }

  /** The inner loop, for one pattern. */
  method BestMatch(content: string, pattern: string, soFar: nat) returns (best: nat)
    requires soFar <= |content|
    ensures best <= soFar && (best == soFar || IsOverlap(content, pattern, best))
    ensures forall k :: IsOverlap(content, pattern, k) ==> best <= k
  {
    best := soFar;
    if |pattern| == 0 { return; }
    var matchIdx := |content| - Min(|pattern|, |content|);
    while |content| > matchIdx
      invariant 0 <= matchIdx <= |content|
      invariant best <= soFar && (best == soFar || IsOverlap(content, pattern, best))
      invariant forall k :: k < matchIdx && IsOverlap(content, pattern, k) ==> best <= k
    {
      var matchLen := |content| - matchIdx;
      if content[matchIdx..] == pattern[..matchLen] && best > matchIdx {
        best := matchIdx;
      }
      assert IsOverlap(content, pattern, matchIdx) ==> content[matchIdx..] == pattern[..matchLen];
      matchIdx := matchIdx + 1;
    }
  }

  /**
    No part of a tag leaks: a pattern that is completed only by text still to come, and that starts
    inside the present text, starts at or behind the cut.
    */
  lemma NoTagLeaks(s: string, t: string, patterns: seq<string>, p: string, k: nat)
    requires p in patterns && k < |s| && OccursAt(s + t, p, k) && !OccursAt(s, p, k)
    ensures TrimAt(s, patterns) <= k
  {
    if k + |p| <= |s| {
      OccursInExtension(s, s + t, p, k);
    } else {
      UnfinishedIsOverlap(s, s + t, p, k);
      TrimAtIsLeast(s, patterns);
    }
  }

  /** And nothing is held back without need: some continuation does complete a tag at the cut. */
  lemma CutIsNeeded(s: string, patterns: seq<string>)
    requires TrimAt(s, patterns) < |s|
    ensures exists t, p :: p in patterns && OccursAt(s + t, p, TrimAt(s, patterns))
  {
    TrimAtIsLeast(s, patterns);
    var p :| p in patterns && IsOverlap(s, p, TrimAt(s, patterns));
    OverlapIffCompletable(s, p, TrimAt(s, patterns));
  }

  /** What has been shown stays shown when more text arrives. */
  lemma TrimGrows(s: string, t: string, patterns: seq<string>)
    requires s <= t
    ensures s[..TrimAt(s, patterns)] <= t[..TrimAt(t, patterns)]
  {
    var k := TrimAt(t, patterns);
    TrimAtIsLeast(s, patterns);
    TrimAtIsLeast(t, patterns);
    if k < |s| {
      var p :| p in patterns && IsOverlap(t, p, k);
      OverlapShrinks(s, t, p, k);
    }
    assert TrimAt(s, patterns) <= k;
  }
}
