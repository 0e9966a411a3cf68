/** Decimal numerals: their values, and their order digit by digit. */
module Numerals {
  import opened Base

  predicate Numeral(w: string) { forall i :: 0 <= i < |w| ==> IsDigit(w[i]) }

  /** A numeral without superfluous zeros. */
  predicate Canonical(w: string) { Numeral(w) && w != "" && (|w| > 1 ==> w[0] != '0') }

  function DigitValue(c: char): nat
    requires IsDigit(c)
  {
    c as int - '0' as int
  }

  function Value(w: string): nat
    requires Numeral(w)
  {
    if w == "" then 0 else Value(w[..|w| - 1]) * 10 + DigitValue(w[|w| - 1])
  }

  /** `std::to_string`. */
  function Text(n: nat): (r: string)
    ensures Canonical(r) && (n > 0 ==> r[0] != '0')
  {
    var last := '0' + (n % 10) as char;
    if n < 10 then [last] else Text(n / 10) + [last]
  }

  lemma {:induction false} ValueOfText(n: nat)
    ensures Value(Text(n)) == n
  {
    if n >= 10 {
      ValueOfText(n / 10);
      assert Text(n)[..|Text(n)| - 1] == Text(n / 10);
    }
  }

  function Power10(k: nat): nat { if k == 0 then 1 else 10 * Power10(k - 1) }

  lemma {:induction false} ValueFront(c: char, w: string)
    requires IsDigit(c) && Numeral(w)
    ensures Numeral([c] + w) && Value([c] + w) == DigitValue(c) * Power10(|w|) + Value(w)
    ensures Value(w) < Power10(|w|)
    decreases |w|
  {
    if w == "" {
      assert Value([c]) == Value([]) * 10 + DigitValue(c);
    } else {
      var init, last := w[..|w| - 1], w[|w| - 1];
      ValueFront(c, init);
      assert ([c] + w)[..|w|] == [c] + init;
      assert DigitValue(c) * Power10(|w|) == DigitValue(c) * Power10(|init|) * 10;
    }
  }

  /** Order by the first difference. */
  predicate Leq(a: string, b: string)
    requires |a| == |b|
  {
    a == "" || a[0] < b[0] || (a[0] == b[0] && Leq(a[1..], b[1..]))
  }

  lemma FrontDecides(x: nat, y: nat, p: nat, u: nat, v: nat)
    requires u < p && v < p
    ensures x < y ==> x * p + u < y * p + v
    ensures y < x ==> y * p + v < x * p + u
  {
    if x < y { assert (x + 1) * p <= y * p; }
    if y < x { assert (y + 1) * p <= x * p; }
  }

  lemma {:induction false} ValueOrder(a: string, b: string)
    requires |a| == |b| && Numeral(a) && Numeral(b)
    ensures Leq(a, b) <==> Value(a) <= Value(b)
    decreases |a|
  {
    if a != "" {
      assert a == [a[0]] + a[1..] && b == [b[0]] + b[1..];
      ValueFront(a[0], a[1..]);
      ValueFront(b[0], b[1..]);
      ValueOrder(a[1..], b[1..]);
      var x, y, p := DigitValue(a[0]), DigitValue(b[0]), Power10(|a| - 1);
      hide Power10, Value;
      FrontDecides(x, y, p, Value(a[1..]), Value(b[1..]));
    }
  }

  lemma {:induction false} PowerGrows(j: nat, k: nat)
    requires j <= k
    ensures Power10(j) <= Power10(k)
  {
    if j < k { PowerGrows(j, k - 1); }
  }

  lemma LengthOrder(a: string, b: string)
    requires Canonical(a) && Canonical(b) && |a| < |b|
    ensures Value(a) < Value(b)
  {
    hide Value, Power10;
    assert b == [b[0]] + b[1..];
    ValueFront('0', a);
    ValueFront(b[0], b[1..]);
    PowerGrows(|a|, |b| - 1);
    FrontDecides(0, DigitValue(b[0]), Power10(|b| - 1), Value(a), Value(b[1..]));
  }

  /** Canonical numerals are ordered by length, then digit by digit. */
  lemma CanonicalOrder(a: string, b: string)
    requires Canonical(a) && Canonical(b)
    ensures Value(a) <= Value(b) <==> |a| < |b| || (|a| == |b| && Leq(a, b))
  {
    if |a| < |b| { LengthOrder(a, b); }
    if |b| < |a| { LengthOrder(b, a); }
    if |a| == |b| { ValueOrder(a, b); }
  }

  lemma {:induction false} LeqAntisymmetric(a: string, b: string)
    requires |a| == |b| && Leq(a, b) && Leq(b, a)
    ensures a == b
    decreases |a|
  {
    if a != "" {
      LeqAntisymmetric(a[1..], b[1..]);
      assert a == [a[0]] + a[1..] && b == [b[0]] + b[1..];
    }
  }

  lemma TextOfValue(w: string)
    requires Canonical(w)
    ensures Text(Value(w)) == w
  {
    var t := Text(Value(w));
    ValueOfText(Value(w));
    CanonicalOrder(t, w);
    CanonicalOrder(w, t);
    if |t| == |w| { LeqAntisymmetric(t, w); }
  }

  // ---------------------------------------------------------------- numerals of one length

  /** Numerals between two numerals of the same length. */
  predicate Between(from: string, w: string, to: string)
    requires |from| == |to|
  {
    |w| == |from| && Numeral(w) && Leq(from, w) && Leq(w, to)
  }

  function Repeat(c: char, n: nat): (r: string)
    ensures |r| == n && forall i :: 0 <= i < n ==> r[i] == c
  {
    if n == 0 then "" else [c] + Repeat(c, n - 1)
  }

  lemma {:induction false} Extremes(w: string)
    requires Numeral(w)
    ensures Leq(Repeat('0', |w|), w) && Leq(w, Repeat('9', |w|))
    decreases |w|
  {
    if w != "" { Extremes(w[1..]); }
  }

  lemma {:induction false} LeqSelf(a: string)
    ensures Leq(a, a)
    decreases |a|
  {
    if a != "" { LeqSelf(a[1..]); }
  }

  lemma {:induction false} BetweenBehind(p: string, from: string, to: string, w: string)
    requires |from| == |to| && Numeral(p)
    ensures Between(p + from, w, p + to) <==> p <= w && Between(from, w[|p|..], to)
    decreases |p|
  {
    if p == "" {
      assert p + from == from && p + to == to && w[0..] == w;
    } else if w != "" {
      var p' := p[1..];
      assert (p + from)[1..] == p' + from && (p + to)[1..] == p' + to;
      BetweenBehind(p', from, to, w[1..]);
      assert w == [w[0]] + w[1..] && p == [p[0]] + p';
      if p' <= w[1..] { assert w[1..][|p'|..] == w[|p|..]; }
      if p <= w { assert w[1..][..|p'|] == p'; }
    }
  }

  /** Splitting at the first digit. */
  lemma BetweenSplit(from: string, to: string, w: string)
    requires |from| == |to| > 0 && Numeral(from) && Numeral(to) && from[0] < to[0]
    ensures Between(from, w, to) <==>
            && |w| == |from| && Numeral(w[1..])
            && ((w[0] == from[0] && Leq(from[1..], w[1..])) || from[0] < w[0] < to[0]
                || (w[0] == to[0] && Leq(w[1..], to[1..])))
  {
    if |w| == |from| {
      assert w == [w[0]] + w[1..];
      assert IsDigit(from[0]) && IsDigit(to[0]);
      assert Numeral(w[1..]) && IsDigit(w[0]) ==> Numeral(w);
      assert Numeral(w) ==> Numeral(w[1..]);
    }
  }
}
