/**
  `_build_min_max_int` (json-schema-to-grammar.cpp): a grammar for the decimal texts of the integers
  between two bounds, either of which may be missing.
  */
module GbnfIntegers {
  import opened Base
  import opened Numerals

  /** The generated expressions; `Digits(lo, hi)` is `[0-9]{lo,hi}`. */
  datatype Rx =
    | Lit(text: string)
    | Range(from: char, to: char)
    | Digits(lo: nat, hi: nat)
    | Seq(first: Rx, rest: Rx)
    | OneOf(alts: seq<Rx>)

  predicate Matches(e: Rx, w: string)
    decreases e
  {
    match e
    case Lit(text) => w == text
    case Range(from, to) => |w| == 1 && from <= w[0] <= to
    case Digits(lo, hi) => lo <= |w| <= hi && Numeral(w)
    case Seq(first, rest) => exists k :: 0 <= k <= |w| && Matches(first, w[..k]) && Matches(rest, w[k..])
    case OneOf(alts) => exists i :: 0 <= i < |alts| && Matches(alts[i], w)
  }

  /** No repetition has crossed bounds; the reader of the grammar never comes to the end of such a one. */
  predicate Proper(e: Rx)
    decreases e
  {
    match e
    case Digits(lo, hi) => lo <= hi
    case Seq(first, rest) => Proper(first) && Proper(rest)
    case OneOf(alts) => ProperAll(alts)
    case _ => true
  }

  predicate ProperAll(alts: seq<Rx>)
    decreases alts
  {
    forall i :: 0 <= i < |alts| ==> Proper(alts[i])
  }

  lemma ProperMore(a: seq<Rx>, b: seq<Rx>)
    ensures ProperAll(a + b) <==> ProperAll(a) && ProperAll(b)
  {
    if ProperAll(a + b) {
      assert forall i :: 0 <= i < |a| ==> (a + b)[i] == a[i];
      assert forall i :: 0 <= i < |b| ==> (a + b)[|a| + i] == b[i];
    }
  }

  lemma ProperOne(x: Rx)
    ensures ProperAll([x]) <==> Proper(x)
  {
    hide Proper;
    assert [x][0] == x;
  }

  lemma ProperTwo(x: Rx, y: Rx)
    ensures Proper(OneOf([x, y])) <==> Proper(x) && Proper(y)
  {
    hide Proper;
    OneOfProper([x, y]);
    ProperOne(x);
    ProperOne(y);
    ProperMore([x], [y]);
    assert [x] + [y] == [x, y];
  }

  lemma OneOfProper(alts: seq<Rx>)
    ensures Proper(OneOf(alts)) <==> ProperAll(alts)
  {
  }

  lemma ThenProper(x: Rx, y: Rx)
    ensures Proper(Seq(x, y)) <==> Proper(x) && Proper(y)
    ensures (forall a, b :: Proper(Range(a, b))) && (forall t :: Proper(Lit(t)))
    ensures forall lo, hi :: Proper(Digits(lo, hi)) <==> lo <= hi
  {
  }

  lemma LitThen(p: string, rest: Rx, w: string)
    ensures Matches(Seq(Lit(p), rest), w) <==> p <= w && Matches(rest, w[|p|..])
  {
    if p <= w && Matches(rest, w[|p|..]) { assert w[..|p|] == p && Matches(Lit(p), w[..|p|]); }
  }

  lemma RangeThen(a: char, b: char, rest: Rx, w: string)
    ensures Matches(Seq(Range(a, b), rest), w) <==> w != "" && a <= w[0] <= b && Matches(rest, w[1..])
  {
    if w != "" && a <= w[0] <= b && Matches(rest, w[1..]) { assert Matches(Range(a, b), w[..1]); }
  }

  // ---------------------------------------------------------------- numerals of one length

  lemma OneOfTwo(x: Rx, y: Rx, w: string)
    ensures Matches(OneOf([x, y]), w) <==> Matches(x, w) || Matches(y, w)
  {
    var alts := [x, y];
    assert alts[0] == x && alts[1] == y;
  }

  lemma OneOfThree(x: Rx, y: Rx, z: Rx, w: string)
    ensures Matches(OneOf([x, y, z]), w) <==> Matches(x, w) || Matches(y, w) || Matches(z, w)
  {
    var alts := [x, y, z];
    assert alts[0] == x && alts[1] == y && alts[2] == z;
  }

  predicate Equal(e: Rx, from: string, to: string, w: string)
    requires |from| == |to|
  {
    Matches(e, w) <==> Between(from, w, to)
  }

  /** What `uniform_range` writes behind the common digits, for more than one remaining digit. */
  ghost predicate Uniform(e: Rx, from: string, to: string) {
    |from| == |to| && forall w :: Equal(e, from, to, w)
  }

  method UniformRange(from: string, to: string) returns (e: Rx)
    requires |from| == |to| > 0 && Numeral(from) && Numeral(to) && Leq(from, to)
    ensures Uniform(e, from, to) && Proper(e)
    decreases |from|
  {
    var i := 0;
    while i < |from| && i < |to| && from[i] == to[i]
      invariant i <= |from| && from[..i] == to[..i] && Leq(from[i..], to[i..])
    {
      assert from[i..][1..] == from[i + 1..] && to[i..][1..] == to[i + 1..];
      i := i + 1;
    }
    if i == |from| {
      e := Lit(from);
      SingleText(from, to);
      return;
    }
    e := DifferentRange(from[i..], to[i..]);
    if i > 0 {
      PrefixRange(e, from[..i], from[i..], to[i..]);
      assert from == from[..i] + from[i..] && to == from[..i] + to[i..];
      e := Seq(Lit(from[..i]), e);
    } else {
      assert from[0..] == from && to[0..] == to;
    }
  }

  lemma SingleText(from: string, to: string)
    requires from == to && Numeral(from)
    ensures Uniform(Lit(from), from, to)
  {
    LeqSelf(from);
    forall w ensures Equal(Lit(from), from, to, w) {
      if Between(from, w, to) { LeqAntisymmetric(from, w); }
    }
  }

  lemma PrefixRange(e: Rx, p: string, from: string, to: string)
    requires Uniform(e, from, to) && Numeral(p)
    ensures Uniform(Seq(Lit(p), e), p + from, p + to)
  {
    hide Matches, Between;
    forall w ensures Equal(Seq(Lit(p), e), p + from, p + to, w) {
      LitThen(p, e, w);
      BetweenBehind(p, from, to, w);
      if p <= w { assert Equal(e, from, to, w[|p|..]); }
    }
  }

  /** The part of `uniform_range` behind the common digits. */
  method DifferentRange(from: string, to: string) returns (e: Rx)
    requires |from| == |to| > 0 && Numeral(from) && Numeral(to) && from[0] < to[0]
    ensures Uniform(e, from, to) && Proper(e)
    decreases |from|, 0
  {
    hide Matches, Between, Equal, Leq, Numeral;
    var subLen := |from| - 1;
    var a, b := from[0], to[0];
    DigitsOf(from, to);
    if subLen == 0 {
      e := Range(a, b);
      OneDigit(from, to);
      return;
    }
    var fromSub, toSub := from[1..], to[1..];
    var zeros, nines := Repeat('0', subLen), Repeat('9', subLen);
    Extremes(fromSub);
    Extremes(toSub);
    RepeatNumeral('0', subLen);
    RepeatNumeral('9', subLen);
    var more := Digits(subLen, subLen);
    var alts: seq<Rx>;
    var low, high := more, more;
    var toReached := false;
    if fromSub == zeros {
      alts := [Seq(Range(a, Pred(b)), more)];
      ProperOne(alts[0]);
    } else {
      low := UniformRange(fromSub, nines);
      alts := [Seq(Range(a, a), low)];
      ProperOne(alts[0]);
      if a as int < b as int - 1 {
        if toSub == nines {
          ProperOne(Seq(Range(Succ(a), b), more));
          ProperMore(alts, [Seq(Range(Succ(a), b), more)]);
          alts := alts + [Seq(Range(Succ(a), b), more)];
          toReached := true;
        } else {
          ProperOne(Seq(Range(Succ(a), Pred(b)), more));
          ProperMore(alts, [Seq(Range(Succ(a), Pred(b)), more)]);
          alts := alts + [Seq(Range(Succ(a), Pred(b)), more)];
        }
      }
    }
    if !toReached {
      high := UniformRange(zeros, toSub);
      ProperOne(Seq(Range(b, b), high));
          ProperMore(alts, [Seq(Range(b, b), high)]);
          alts := alts + [Seq(Range(b, b), high)];
    }
    e := OneOf(alts);
    if fromSub == zeros {
      FromZeros(from, to, high);
      assert alts == [Seq(Range(a, Pred(b)), more), Seq(Range(b, b), high)];
    } else if a as int == b as int - 1 {
      NothingBetween(from, to, low, high);
      assert alts == [Seq(Range(a, a), low), Seq(Range(b, b), high)];
    } else if toSub == nines {
      ToNines(from, to, low);
      assert alts == [Seq(Range(a, a), low), Seq(Range(Succ(a), b), more)];
    } else {
      AllThree(from, to, low, high);
      assert alts == [Seq(Range(a, a), low), Seq(Range(Succ(a), Pred(b)), more),
                      Seq(Range(b, b), high)];
    }
  }

  /** Two numerals of the same length with different first digits, and more digits behind. */
  predicate Apart(from: string, to: string) {
    && |from| == |to| > 1 && Numeral(from) && Numeral(to) && from[0] < to[0]
    && IsDigit(from[0]) && IsDigit(to[0])
  }

  function Nines(from: string): string
    requires from != ""
  {
    Repeat('9', |from| - 1)
  }

  function Zeros(from: string): string
    requires from != ""
  {
    Repeat('0', |from| - 1)
  }

  /** What an alternative accepts behind its digit; nothing is below zeros or above nines. */
  lemma PartsOfLow(from: string, to: string, low: Rx, w: string)
    requires Apart(from, to) && |w| > 0 && Uniform(low, from[1..], Nines(from))
    ensures Matches(low, w[1..]) <==> |w| == |from| && Numeral(w[1..]) && Leq(from[1..], w[1..])
    ensures Matches(Digits(|from| - 1, |from| - 1), w[1..]) <==> |w| == |from| && Numeral(w[1..])
    ensures |w| == |from| && Numeral(w[1..]) ==> Leq(w[1..], Nines(from))
  {
    assert Equal(low, from[1..], Nines(from), w[1..]);
    if |w| == |from| && Numeral(w[1..]) { Extremes(w[1..]); }
  }

  lemma PartsOfHigh(from: string, to: string, high: Rx, w: string)
    requires Apart(from, to) && |w| > 0 && Uniform(high, Zeros(from), to[1..])
    ensures Matches(high, w[1..]) <==> |w| == |from| && Numeral(w[1..]) && Leq(w[1..], to[1..])
    ensures Matches(Digits(|from| - 1, |from| - 1), w[1..]) <==> |w| == |from| && Numeral(w[1..])
    ensures |w| == |from| && Numeral(w[1..]) ==> Leq(Zeros(from), w[1..])
  {
    assert Equal(high, Zeros(from), to[1..], w[1..]);
    if |w| == |from| && Numeral(w[1..]) { Extremes(w[1..]); }
  }

  function Pred(c: char): char
    requires IsDigit(c)
  {
    (c as int - 1) as char
  }

  function Succ(c: char): char
    requires IsDigit(c)
  {
    (c as int + 1) as char
  }

  lemma FromZeros(from: string, to: string, high: Rx)
    requires Apart(from, to) && from[1..] == Zeros(from) && Uniform(high, Zeros(from), to[1..])
    ensures var more := Digits(|from| - 1, |from| - 1);
            Uniform(OneOf([Seq(Range(from[0], Pred(to[0])), more), Seq(Range(to[0], to[0]), high)]), from, to)
  {
    hide Matches, Between, Leq, Numeral, Repeat;
    var more := Digits(|from| - 1, |from| - 1);
    var x, y := Seq(Range(from[0], Pred(to[0])), more), Seq(Range(to[0], to[0]), high);
    forall w ensures Equal(OneOf([x, y]), from, to, w) {
      OneOfTwo(x, y, w);
      RangeThen(from[0], Pred(to[0]), more, w);
      RangeThen(to[0], to[0], high, w);
      BetweenSplit(from, to, w);
      if w != "" { PartsOfHigh(from, to, high, w); }
    }
  }

  lemma NothingBetween(from: string, to: string, low: Rx, high: Rx)
    requires Apart(from, to) && from[0] == Pred(to[0])
    requires Uniform(low, from[1..], Nines(from)) && Uniform(high, Zeros(from), to[1..])
    ensures Uniform(OneOf([Seq(Range(from[0], from[0]), low), Seq(Range(to[0], to[0]), high)]), from, to)
  {
    hide Matches, Between, Leq, Numeral, Repeat;
    var x, y := Seq(Range(from[0], from[0]), low), Seq(Range(to[0], to[0]), high);
    forall w ensures Equal(OneOf([x, y]), from, to, w) {
      OneOfTwo(x, y, w);
      RangeThen(from[0], from[0], low, w);
      RangeThen(to[0], to[0], high, w);
      BetweenSplit(from, to, w);
      if w != "" {
        PartsOfLow(from, to, low, w);
        PartsOfHigh(from, to, high, w);
      }
    }
  }

  lemma ToNines(from: string, to: string, low: Rx)
    requires Apart(from, to) && to[1..] == Nines(from) && Uniform(low, from[1..], Nines(from))
    ensures var more := Digits(|from| - 1, |from| - 1);
            Uniform(OneOf([Seq(Range(from[0], from[0]), low), Seq(Range(Succ(from[0]), to[0]), more)]), from, to)
  {
    hide Matches, Between, Leq, Numeral, Repeat;
    var more := Digits(|from| - 1, |from| - 1);
    var x, y := Seq(Range(from[0], from[0]), low), Seq(Range(Succ(from[0]), to[0]), more);
    forall w ensures Equal(OneOf([x, y]), from, to, w) {
      OneOfTwo(x, y, w);
      RangeThen(from[0], from[0], low, w);
      RangeThen(Succ(from[0]), to[0], more, w);
      BetweenSplit(from, to, w);
      if w != "" { PartsOfLow(from, to, low, w); }
    }
  }

  lemma AllThree(from: string, to: string, low: Rx, high: Rx)
    requires Apart(from, to)
    requires Uniform(low, from[1..], Nines(from)) && Uniform(high, Zeros(from), to[1..])
    ensures var more := Digits(|from| - 1, |from| - 1);
            Uniform(OneOf([Seq(Range(from[0], from[0]), low), Seq(Range(Succ(from[0]), Pred(to[0])), more),
                           Seq(Range(to[0], to[0]), high)]), from, to)
  {
    hide Matches, Between, Leq, Numeral, Repeat;
    var more := Digits(|from| - 1, |from| - 1);
    var x, y, z :=
      Seq(Range(from[0], from[0]), low), Seq(Range(Succ(from[0]), Pred(to[0])), more), Seq(Range(to[0], to[0]), high);
    forall w ensures Equal(OneOf([x, y, z]), from, to, w) {
      OneOfThree(x, y, z, w);
      RangeThen(from[0], from[0], low, w);
      RangeThen(Succ(from[0]), Pred(to[0]), more, w);
      RangeThen(to[0], to[0], high, w);
      BetweenSplit(from, to, w);
      if w != "" {
        PartsOfLow(from, to, low, w);
        PartsOfHigh(from, to, high, w);
      }
    }
  }

  lemma RepeatNumeral(c: char, n: nat)
    requires IsDigit(c)
    ensures Numeral(Repeat(c, n))
  {
  }

  lemma DigitsOf(from: string, to: string)
    requires |from| == |to| > 0 && Numeral(from) && Numeral(to)
    ensures IsDigit(from[0]) && IsDigit(to[0]) && Numeral(from[1..]) && Numeral(to[1..])
  {
  }

  lemma OneDigit(from: string, to: string)
    requires |from| == |to| == 1 && Numeral(from) && Numeral(to) && from[0] < to[0]
    ensures Uniform(Range(from[0], to[0]), from, to)
  {
    forall w ensures Equal(Range(from[0], to[0]), from, to, w) {
      BetweenSplit(from, to, w);
    }
  }

  // ---------------------------------------------------------------- two bounds

  /** Canonical numerals of the numbers from `min` to `max`. */
  predicate NumberIn(min: nat, w: string, max: int) {
    Canonical(w) && min <= Value(w) <= max
  }

  ghost predicate Numbers(alts: seq<Rx>, min: nat, max: int) {
    forall w :: Matches(OneOf(alts), w) <==> NumberIn(min, w, max)
  }

  lemma OneMore(alts: seq<Rx>, x: Rx, w: string)
    ensures Matches(OneOf(alts + [x]), w) <==> Matches(OneOf(alts), w) || Matches(x, w)
  {
    var all := alts + [x];
    assert all[|alts|] == x && forall i :: 0 <= i < |alts| ==> all[i] == alts[i];
    if Matches(OneOf(alts), w) {
      var i :| 0 <= i < |alts| && Matches(alts[i], w);
      assert Matches(all[i], w);
    }
    if Matches(x, w) { assert Matches(all[|alts|], w); }
  }

  lemma NoNumbers(min: nat)
    ensures Numbers([], min, min - 1)
  {
  }

  /** The smallest number with one digit more. */
  function OneAndZeros(k: nat): (r: string)
    ensures |r| == k + 1 && r[0] == '1' && r[1..] == Repeat('0', k)
  {
    "1" + Repeat('0', k)
  }

  lemma OneAndZerosIsCanonical(k: nat)
    ensures Canonical(OneAndZeros(k))
  {
  }

  lemma LeastOfLength(w: string)
    requires Canonical(w) && |w| > 1
    ensures Leq(OneAndZeros(|w| - 1), w)
  {
    Extremes(w[1..]);
  }

  /** A numeral not below a canonical one of its length is canonical. */
  lemma AboveIsCanonical(from: string, w: string)
    requires Canonical(from) && |w| == |from| && Numeral(w) && Leq(from, w)
    ensures Canonical(w)
  {
  }

  /** The numbers from `from` on that have as many digits. */
  lemma SameLengthFrom(from: string, e: Rx, w: string)
    requires Canonical(from) && Uniform(e, from, Repeat('9', |from|)) && Canonical(OneAndZeros(|from|))
    ensures Matches(e, w) <==> NumberIn(Value(from), w, Value(OneAndZeros(|from|)) - 1)
  {
    hide Value, Repeat, OneAndZeros, Uniform, Matches, Leq;
    var next := OneAndZeros(|from|);
    UniformAt(e, from, Repeat('9', |from|), w);
    if Numeral(w) && |w| == |from| {
      Extremes(w);
      if Leq(from, w) { AboveIsCanonical(from, w); }
    }
    if Canonical(w) {
      CanonicalOrder(from, w);
      CanonicalOrder(next, w);
      if |w| == |next| { LeastOfLength(w); }
    }
  }

  lemma UniformAt(e: Rx, from: string, to: string, w: string)
    requires Uniform(e, from, to)
    ensures |from| == |to| && (Matches(e, w) <==> Between(from, w, to))
  {
    assert Equal(e, from, to, w);
  }

  lemma SameLengthTo(from: string, to: string, e: Rx, w: string)
    requires Canonical(from) && Canonical(to) && Uniform(e, from, to)
    ensures Matches(e, w) <==> NumberIn(Value(from), w, Value(to))
  {
    hide Value, Uniform, Matches, Leq;
    UniformAt(e, from, to, w);
    if Numeral(w) && |w| == |from| && Leq(from, w) { AboveIsCanonical(from, w); }
    if Canonical(w) {
      CanonicalOrder(from, w);
      CanonicalOrder(w, to);
    }
  }

  lemma JoinNumbers(alts: seq<Rx>, x: Rx, min: nat, mid: nat, max: int)
    requires Numbers(alts, min, mid - 1) && min <= mid <= max + 1
    requires forall w :: Matches(x, w) <==> NumberIn(mid, w, max)
    ensures Numbers(alts + [x], min, max)
  {
    hide Matches, Value;
    forall w ensures Matches(OneOf(alts + [x]), w) <==> NumberIn(min, w, max) {
      OneMore(alts, x, w);
      assert Matches(OneOf(alts), w) <==> NumberIn(min, w, mid - 1);
      assert Matches(x, w) <==> NumberIn(mid, w, max);
    }
  }

  lemma NextFits(k: nat, to: string)
    requires Canonical(to) && k < |to| && k > 0
    ensures Canonical(OneAndZeros(k)) && Value(OneAndZeros(k)) <= Value(to)
  {
    hide Value, Leq, Repeat;
    OneAndZerosIsCanonical(k);
    CanonicalOrder(OneAndZeros(k), to);
    if |to| == k + 1 { LeastOfLength(to); }
  }

  /** Both bounds given and not negative: all lengths of numbers in turn. */
  method BuildBetween(min: nat, max: nat) returns (alts: seq<Rx>)
    requires min <= max
    ensures Numbers(alts, min, max) && ProperAll(alts)
  {
    hide Proper, Matches, Value, Text, Leq, Uniform, Numbers, Repeat, OneAndZeros;
    var minS, maxS := Text(min), Text(max);
    ValueOfText(min);
    ValueOfText(max);
    CanonicalOrder(minS, maxS);
    alts := [];
    NoNumbers(min);
    for digits := |minS| to |maxS|
      invariant |minS| == digits && Canonical(minS) && min <= Value(minS) <= max
      invariant Numbers(alts, min, Value(minS) - 1) && ProperAll(alts)
    {
      NinesAbove(minS);
      var e := UniformRange(minS, Repeat('9', digits));
      NextFits(digits, maxS);
      forall w ensures Matches(e, w) <==> NumberIn(Value(minS), w, Value(OneAndZeros(digits)) - 1) {
        SameLengthFrom(minS, e, w);
      }
      CanonicalOrder(minS, OneAndZeros(digits));
      JoinNumbers(alts, e, min, Value(minS), Value(OneAndZeros(digits)) - 1);
      ProperOne(e);
      ProperMore(alts, [e]);
      alts := alts + [e];
      minS := OneAndZeros(digits);
    }
    CanonicalOrder(minS, maxS);
    var e := UniformRange(minS, maxS);
    forall w ensures Matches(e, w) <==> NumberIn(Value(minS), w, max) {
      SameLengthTo(minS, maxS, e, w);
    }
    JoinNumbers(alts, e, min, Value(minS), max);
    ProperOne(e);
    ProperMore(alts, [e]);
    alts := alts + [e];
  }

  lemma NinesAbove(from: string)
    requires Numeral(from)
    ensures Numeral(Repeat('9', |from|)) && Leq(from, Repeat('9', |from|))
  {
    Extremes(from);
  }

  // ---------------------------------------------------------------- only a lower bound

  /** Numerals of `|t|` to `limit` digits that are not below `t`; longer ones may begin with zeros. */
  predicate AtLeast(t: string, limit: nat, w: string) {
    Numeral(w) && |t| <= |w| <= limit && (|w| == |t| ==> Leq(t, w))
  }

  ghost predicate AllAtLeast(e: Rx, t: string, limit: nat) {
    forall w :: Matches(e, w) <==> AtLeast(t, limit, w)
  }

  predicate NumberFrom(min: nat, limit: nat, w: string) {
    Canonical(w) && |w| <= limit && min <= Value(w)
  }

  ghost predicate NumbersFrom(e: Rx, min: nat, limit: nat) {
    forall w :: Matches(e, w) <==> NumberFrom(min, limit, w)
  }

  /** No digit but the last one is below 2. */
  predicate NoSmall(t: string) {
    forall i :: 0 <= i < |t| - 1 ==> t[i] >= '2'
  }

  /** 11…10. */
  predicate Ones(t: string) {
    t != "" && t[|t| - 1] == '0' && forall i :: 0 <= i < |t| - 1 ==> t[i] == '1'
  }

  lemma OnesFront(t: string)
    requires |t| >= 2
    ensures Ones(t) <==> t[0] == '1' && Ones(t[1..])
  {
    if t[0] == '1' && Ones(t[1..]) {
      forall i | 0 <= i < |t| - 1 ensures t[i] == '1' {
        if i > 0 { assert t[1..][i - 1] == t[i]; }
      }
    }
  }

  /** The expression is one, and accepts what may follow other digits. */
  ghost predicate RightBehind(e: Rx, t: string, limit: nat) { Proper(e) && AllAtLeast(e, t, limit) }

  ghost predicate RightNumbers(e: Rx, min: nat, limit: nat) { Proper(e) && NumbersFrom(e, min, limit) }

  /** Bounds behind other digits for which the expression is right. */
  predicate SuffixSound(t: string, limit: nat) {
    if |t| < limit then NoSmall(t) else |t| == limit && Ones(t)
  }

  /** Bounds for which the expression accepts the right numbers. */
  predicate NumberSound(t: string, limit: nat, topLevel: bool) {
    if |t| >= limit then |t| == limit && Ones(t)
    else if topLevel then |t| > 0 && NoSmall(t[1..])
    else |t| >= 2 && t[0] == '1' && NoSmall(t[1..])
  }

  lemma NoSmallFront(t: string)
    requires |t| >= 2
    ensures NoSmall(t) <==> t[0] >= '2' && NoSmall(t[1..])
  {
    if NoSmall(t[1..]) && t[0] >= '2' {
      forall i | 0 <= i < |t| - 1 ensures t[i] >= '2' {
        if i > 0 { assert t[1..][i - 1] == t[i]; }
      }
    }
  }

  lemma {:induction false} TextIsShort(w: string)
    requires Numeral(w) && w != ""
    ensures |Text(Value(w))| <= |w|
    ensures |w| > 1 && w[0] == '0' ==> |Text(Value(w))| < |w|
    decreases |w|
  {
    hide Text, Value, Leq, Power10;
    if Canonical(w) {
      TextOfValue(w);
    } else {
      ValueFront('0', w[1..]);
      assert w == ['0'] + w[1..];
      TextIsShort(w[1..]);
    }
  }

  /** What `more_digits` accepts. */
  predicate More(lo: nat, hi: nat, w: string) { lo <= |w| <= hi && Numeral(w) }

  /** Digits below `c`, `c` itself, and digits above it, each with what may follow. */
  predicate ByFirst(lo: char, c: char, below: nat, sub: Rx, above: nat, hi: nat, w: string) {
    && w != "" && lo <= w[0] <= '9'
    && (if w[0] < c then More(below, hi, w[1..])
        else if w[0] == c then Matches(sub, w[1..])
        else More(above, hi, w[1..]))
  }

  function Alternatives(withLow: bool, lo: char, c: char, below: nat, sub: Rx, above: nat, hi: nat): seq<Rx>
    requires IsDigit(c)
  {
    (if withLow then [Seq(Range(lo, Pred(c)), Digits(below, hi))] else [])
    + [Seq(Range(c, c), sub)]
    + (if c < '9' then [Seq(Range(Succ(c), '9'), Digits(above, hi))] else [])
  }

  lemma AlternativesMatch(withLow: bool, lo: char, c: char, below: nat, sub: Rx, above: nat, hi: nat, w: string)
    requires IsDigit(c) && IsDigit(lo) && lo <= c && (!withLow ==> lo == c)
    ensures Matches(OneOf(Alternatives(withLow, lo, c, below, sub, above, hi)), w) <==>
            ByFirst(lo, c, below, sub, above, hi, w)
  {
    var x := Seq(Range(lo, Pred(c)), Digits(below, hi));
    var y := Seq(Range(c, c), sub);
    var z := Seq(Range(Succ(c), '9'), Digits(above, hi));
    var first: seq<Rx> := if withLow then [x] else [];
    RangeThen(lo, Pred(c), Digits(below, hi), w);
    RangeThen(c, c, sub, w);
    RangeThen(Succ(c), '9', Digits(above, hi), w);
    OneMore([], x, w);
    assert [] + [x] == [x];
    OneMore(first, y, w);
    OneMore(first + [y], z, w);
    assert first + [y] + [] == first + [y];
    assert Matches(OneOf([]), w) == false;
    if w != "" { MoreMatches(below, hi, w[1..]); MoreMatches(above, hi, w[1..]); }
  }

  lemma MoreMatches(lo: nat, hi: nat, w: string)
    ensures Matches(Digits(lo, hi), w) <==> More(lo, hi, w)
  {
  }

  /** The same split for the numbers that are wanted. */
  ghost predicate ByFirstWanted(lo: char, t: string, limit: nat, w: string)
    requires |t| >= 2 && limit > 0
  {
    && w != "" && lo <= w[0] <= '9'
    && (if w[0] < t[0] then More(|t|, limit - 1, w[1..])
        else if w[0] == t[0] then AtLeast(t[1..], limit - 1, w[1..])
        else More(|t| - 1, limit - 1, w[1..]))
  }

  lemma AtLeastByFirst(t: string, limit: nat, w: string)
    requires |t| >= 2 && Numeral(t) && limit > 0
    ensures AtLeast(t, limit, w) <==> ByFirstWanted('0', t, limit, w)
  {
    if w != "" {
      NumeralFront(w);
      NumeralFront(t);
    }
  }

  lemma NumeralFront(w: string)
    requires w != ""
    ensures Numeral(w) <==> IsDigit(w[0]) && Numeral(w[1..])
  {
    assert w == [w[0]] + w[1..];
    assert forall i :: 1 <= i < |w| ==> w[i] == w[1..][i - 1];
  }

  lemma NumberByFirst(t: string, limit: nat, w: string)
    requires |t| >= 2 && Canonical(t) && limit > 0
    ensures NumberFrom(Value(t), limit, w) <==> ByFirstWanted('1', t, limit, w)
  {
    hide Value;
    if w != "" {
      NumeralFront(w);
      NumeralFront(t);
      if Canonical(w) { CanonicalOrder(t, w); }
    }
  }

  /** At the top, the alternatives are right exactly if the one with the same first digit is. */
  lemma TopIff(e: Rx, t: string, sub: Rx, limit: nat)
    requires |t| >= 2 && Canonical(t) && limit > 0
    requires forall w :: Matches(e, w) <==> ByFirst('1', t[0], |t|, sub, |t| - 1, limit - 1, w)
    ensures NumbersFrom(e, Value(t), limit) <==> AllAtLeast(sub, t[1..], limit - 1)
  {
    hide Value, Matches, AtLeast, More, Numeral, NumberFrom;
    TopDigit(t);
    if AllAtLeast(sub, t[1..], limit - 1) {
      forall w ensures Matches(e, w) <==> NumberFrom(Value(t), limit, w) { NumberByFirst(t, limit, w); }
    }
    if NumbersFrom(e, Value(t), limit) {
      forall v ensures Matches(sub, v) <==> AtLeast(t[1..], limit - 1, v) {
        var w := [t[0]] + v;
        assert w[1..] == v;
        NumberByFirst(t, limit, w);
        assert Matches(e, w) <==> ByFirst('1', t[0], |t|, sub, |t| - 1, limit - 1, w);
      }
    }
  }

  lemma TopDigit(t: string)
    requires |t| >= 2 && Canonical(t)
    ensures '1' <= t[0] <= '9'
  {
    assert IsDigit(t[0]);
  }

  function ManyZeros(k: nat): string { ['0'] + Repeat('0', k) }

  /** Behind other digits, the alternatives are right exactly if the first digit is at least 2 and the
      alternative with the same first digit is right: below 2 the leading zeros are missing. */
  lemma BehindIff(e: Rx, t: string, sub: Rx, limit: nat)
    requires |t| >= 2 && Canonical(t) && limit > |t|
    requires var lo := if t[0] > '1' then '0' else '1';
             forall w :: Matches(e, w) <==> ByFirst(lo, t[0], |t|, sub, |t| - 1, limit - 1, w)
    ensures AllAtLeast(e, t, limit) <==> t[0] >= '2' && AllAtLeast(sub, t[1..], limit - 1)
    ensures NumbersFrom(e, Value(t), limit) <==> t[0] == '1' && AllAtLeast(sub, t[1..], limit - 1)
  {
    hide Value, Matches, AtLeast, More, Numeral, NumberFrom;
    TopDigit(t);
    ZerosAreMore(|t|, limit);
    var zeros := ManyZeros(|t|);
    NumberByFirst(t, limit, zeros);
    AtLeastIsSplit(t, limit);
    if t[0] == '1' {
      TopIff(e, t, sub, limit);
      assert !Matches(e, zeros) && AtLeast(t, limit, zeros);
    } else {
      assert Matches(e, zeros) && !NumberFrom(Value(t), limit, zeros);
      if AllAtLeast(e, t, limit) {
        forall v ensures Matches(sub, v) <==> AtLeast(t[1..], limit - 1, v) {
          var w := [t[0]] + v;
          assert w[1..] == v;
          assert Matches(e, w) <==> ByFirst('0', t[0], |t|, sub, |t| - 1, limit - 1, w);
        }
      }
    }
  }

  lemma AtLeastIsSplit(t: string, limit: nat)
    requires |t| >= 2 && Numeral(t) && limit > 0
    ensures forall w :: AtLeast(t, limit, w) <==> ByFirstWanted('0', t, limit, w)
  {
    hide AtLeast, ByFirstWanted;
    forall w ensures AtLeast(t, limit, w) <==> ByFirstWanted('0', t, limit, w) { AtLeastByFirst(t, limit, w); }
  }

  lemma ZerosAreMore(k: nat, limit: nat)
    requires k < limit
    ensures ManyZeros(k) != "" && ManyZeros(k)[0] == '0' && More(k, limit - 1, ManyZeros(k)[1..])
  {
    assert ManyZeros(k)[1..] == Repeat('0', k);
  }

  /** The alternative with the same first digit is built from the number behind that digit, which has
      lost its leading zeros. */
  lemma SubIff(sub: Rx, t: string, limit: nat)
    requires Numeral(t) && t != "" && |t| <= limit
    requires var s := Text(Value(t)); |s| <= limit ==> (RightBehind(sub, s, limit) <==> SuffixSound(s, limit))
    requires exists w :: |w| <= |Text(Value(t))| && Matches(sub, w)
    ensures RightBehind(sub, t, limit) <==> SuffixSound(t, limit)
  {
    hide Value, Matches, Text, Proper;
    TextIsShort(t);
    if Canonical(t) {
      TextOfValue(t);
    } else {
      var w :| |w| <= |Text(Value(t))| && Matches(sub, w);
      assert !AtLeast(t, limit, w);
      assert t[0] == '0';
    }
  }

  // ---------------------------------------------------------------- a lower bound of one digit

  function OneDigitAlternatives(lo: char, c: char, hi: nat): seq<Rx>
    requires IsDigit(c)
  {
    (if c > lo then [Seq(Range(lo, Pred(c)), Digits(1, hi))] else []) + [Seq(Range(c, '9'), Digits(0, hi))]
  }

  lemma OneDigitMatches(lo: char, c: char, hi: nat, w: string)
    requires IsDigit(c) && lo <= c
    ensures Matches(OneOf(OneDigitAlternatives(lo, c, hi)), w) <==>
            w != "" && lo <= w[0] <= '9' && More(if w[0] < c then 1 else 0, hi, w[1..])
  {
    var x, y := Seq(Range(lo, Pred(c)), Digits(1, hi)), Seq(Range(c, '9'), Digits(0, hi));
    var first: seq<Rx> := if c > lo then [x] else [];
    RangeThen(lo, Pred(c), Digits(1, hi), w);
    RangeThen(c, '9', Digits(0, hi), w);
    OneMore([], x, w);
    assert [] + [x] == [x];
    OneMore(first, y, w);
    assert Matches(OneOf([]), w) == false;
    if w != "" { MoreMatches(1, hi, w[1..]); MoreMatches(0, hi, w[1..]); }
  }

  lemma OneDigitTop(c: char, limit: nat)
    requires IsDigit(c) && c > '0' && limit > 1
    ensures NumbersFrom(OneOf(OneDigitAlternatives('1', c, limit - 1)), Value([c]), limit)
  {
    hide Matches, Value;
    var e := OneOf(OneDigitAlternatives('1', c, limit - 1));
    forall w ensures Matches(e, w) <==> NumberFrom(Value([c]), limit, w) {
      OneDigitMatches('1', c, limit - 1, w);
      if w != "" { NumeralFront(w); }
      if Canonical(w) { CanonicalOrder([c], w); }
    }
  }

  lemma OneDigitBehind(c: char, limit: nat)
    requires IsDigit(c) && limit > 1
    ensures AllAtLeast(OneOf(OneDigitAlternatives('0', c, limit - 1)), [c], limit)
  {
    hide Matches, Value;
    var e := OneOf(OneDigitAlternatives('0', c, limit - 1));
    forall w ensures Matches(e, w) <==> AtLeast([c], limit, w) {
      OneDigitMatches('0', c, limit - 1, w);
      if w != "" { NumeralFront(w); }
      if |w| == 1 { assert w[1..] == "" && Leq([c], w) <==> c <= w[0]; }
    }
  }

  /** Zero, or digits without a leading zero. */
  function AnyNumber(hi: nat): seq<Rx> { [Range('0', '0'), Seq(Range('1', '9'), Digits(0, hi))] }

  lemma AnyNumberMatches(hi: nat, w: string)
    ensures Matches(OneOf(AnyNumber(hi)), w) <==> Canonical(w) && |w| <= hi + 1
  {
    OneOfTwo(Range('0', '0'), Seq(Range('1', '9'), Digits(0, hi)), w);
    RangeThen('1', '9', Digits(0, hi), w);
    if w != "" { NumeralFront(w); MoreMatches(0, hi, w[1..]); }
  }

  lemma AnyNumberTop(limit: nat)
    requires limit > 0
    ensures NumbersFrom(OneOf(AnyNumber(limit - 1)), 0, limit)
  {
    hide Matches;
    forall w ensures Matches(OneOf(AnyNumber(limit - 1)), w) <==> NumberFrom(0, limit, w) {
      AnyNumberMatches(limit - 1, w);
    }
  }

  lemma AnyDigitsBehind(limit: nat)
    requires limit > 0
    ensures AllAtLeast(Digits(1, limit), "0", limit)
  {
    forall w ensures Matches(Digits(1, limit), w) <==> AtLeast("0", limit, w) {
      assert Repeat('0', 1) == "0";
      if |w| == 1 && Numeral(w) { Extremes(w); }
    }
  }

  /** Behind other digits leading zeros are accepted, so a bound of one digit is not kept. */
  lemma LeadingZeros(e: Rx, t: string, limit: nat)
    requires AllAtLeast(e, t, limit) && Canonical(t) && |t| == 1 && limit > 1
    ensures !NumbersFrom(e, Value(t), limit)
  {
    hide Matches, Value;
    assert AtLeast(t, limit, "00") && !Canonical("00");
  }

  // ---------------------------------------------------------------- the method

  /**
    Only a lower bound, not negative. With `topLevel` the text stands alone, otherwise it continues a
    number. Right exactly if none of the inner digits is below 2, or for one bound of full length.
    */
  method BuildAtLeast(min: nat, limit: nat, topLevel: bool) returns (e: Rx)
    requires limit > 0
    ensures var t := Text(min);
            && (!topLevel && |t| <= limit ==> (RightBehind(e, t, limit) <==> SuffixSound(t, limit)))
            && (limit >= 2 ==> (RightNumbers(e, min, limit) <==> NumberSound(t, limit, topLevel)))
    ensures exists w :: |w| <= |Text(min)| && Matches(e, w)
    decreases min
  {
    hide Matches, Text, Value, AnyNumber, OneDigitAlternatives, Alternatives, Proper, RightBehind, RightNumbers,
        SuffixSound,
         NumberSound;
    ValueOfText(min);
    var t := Text(min);
    var less := if limit > 1 then limit - 1 else 1;
    if min <= 9 {
      OneDigitText(min);
      if min == 0 {
        e := if topLevel then OneOf(AnyNumber(less)) else Digits(1, limit);
      } else {
        e := OneOf(OneDigitAlternatives(if topLevel then '1' else '0', t[0], less));
      }
      OneDigitBuilt(e, t, limit, less, topLevel);
      return;
    }
    LongText(min);
    var c, len, rest := t[0], |t|, t[1..];
    RestIsLess(min);
    var sub := BuildAtLeast(Value(rest), less, false);
    var lo := if c > '1' && topLevel then '1' else if c > '1' then '0' else c;
    e := OneOf(Alternatives(c > '1', lo, c, len, sub, len - 1, less));
    LongBuilt(e, t, sub, limit, less, topLevel);
  }

  lemma RestIsLess(min: nat)
    requires min > 9
    ensures Numeral(Text(min)[1..]) && Text(min)[1..] != "" && Value(Text(min)[1..]) < min
  {
    hide Value, Text, Power10;
    LongText(min);
    ValueOfText(min);
    var t := Text(min);
    assert t == [t[0]] + t[1..];
    ValueFront(t[0], t[1..]);
    PowerGrows(0, |t| - 1);
    PowerOne();
    assert DigitValue(t[0]) * Power10(|t| - 1) >= 1;
  }

  lemma PowerOne()
    ensures Power10(0) == 1
  {
  }

  /** A bound of one digit. */
  lemma OneDigitBuilt(e: Rx, t: string, limit: nat, less: nat, topLevel: bool)
    requires Canonical(t) && |t| == 1 && limit > 0 && less == if limit > 1 then limit - 1 else 1
    requires e == if t == "0" then (if topLevel then OneOf(AnyNumber(less)) else Digits(1, limit))
                  else OneOf(OneDigitAlternatives(if topLevel then '1' else '0', t[0], less))
    ensures !topLevel && |t| <= limit ==> (RightBehind(e, t, limit) <==> SuffixSound(t, limit))
    ensures limit >= 2 ==> (RightNumbers(e, Value(t), limit) <==> NumberSound(t, limit, topLevel))
    ensures exists w :: |w| <= |t| && Matches(e, w)
  {
    hide Matches, Value, AnyNumber, OneDigitAlternatives, Proper, NumbersFrom, AllAtLeast, NoSmall, Ones;
    assert t == [t[0]];
    OneDigitProper(t[0], limit, less);
    NoSmallShort(t);
    OnesShort(t);
    FirstMatches(e, t, limit, less, topLevel);
    if limit >= 2 {
      ZeroIsZero();
      if topLevel {
        if t == "0" { AnyNumberTop(limit); } else { OneDigitTop(t[0], limit); }
      } else {
        if t == "0" { AnyDigitsBehind(limit); } else { OneDigitBehind(t[0], limit); }
        LeadingZeros(e, t, limit);
      }
    } else if !topLevel {
      if t == "0" { AnyDigitsBehind(1); } else { SecondDigit(e, t); }
    }
  }

  lemma OnesShort(t: string)
    requires |t| == 1
    ensures Ones(t) <==> t == "0"
  {
  }

  lemma OneDigitProper(c: char, limit: nat, less: nat)
    requires IsDigit(c) && limit > 0 && less > 0
    ensures Proper(OneOf(AnyNumber(less))) && Proper(Digits(1, limit))
    ensures Proper(OneOf(OneDigitAlternatives('1', c, less))) && Proper(OneOf(OneDigitAlternatives('0', c, less)))
  {
    hide Proper;
    ThenProper(Range('1', '9'), Digits(0, less));
    ProperTwo(Range('0', '0'), Seq(Range('1', '9'), Digits(0, less)));
    OneDigitRangesProper('1', c, less);
    OneDigitRangesProper('0', c, less);
  }

  lemma OneDigitRangesProper(lo: char, c: char, less: nat)
    requires IsDigit(c) && less > 0
    ensures Proper(OneOf(OneDigitAlternatives(lo, c, less)))
  {
    hide Proper;
    var x, y := Seq(Range(lo, Pred(c)), Digits(1, less)), Seq(Range(c, '9'), Digits(0, less));
    ThenProper(Range(lo, Pred(c)), Digits(1, less));
    ThenProper(Range(c, '9'), Digits(0, less));
    ProperTwo(x, y);
    ProperOne(y);
    OneOfProper([y]);
    assert [x] + [y] == [x, y] && [] + [y] == [y];
  }

  lemma FirstMatches(e: Rx, t: string, limit: nat, less: nat, topLevel: bool)
    requires Canonical(t) && |t| == 1 && limit > 0
    requires e == if t == "0" then (if topLevel then OneOf(AnyNumber(less)) else Digits(1, limit))
                  else OneOf(OneDigitAlternatives(if topLevel then '1' else '0', t[0], less))
    ensures Matches(e, t)
  {
    hide OneDigitAlternatives, AnyNumber;
    assert IsDigit(t[0]) && t[1..] == "";
    if t == "0" {
      AnyNumberMatches(less, t);
    } else {
      OneDigitMatches(if topLevel then '1' else '0', t[0], less, t);
    }
  }

  /** At the last digit a digit too many is accepted. */
  lemma SecondDigit(e: Rx, t: string)
    requires Canonical(t) && |t| == 1 && t != "0" && e == OneOf(OneDigitAlternatives('0', t[0], 1))
    ensures !AllAtLeast(e, t, 1)
  {
    hide Matches, OneDigitAlternatives;
    var w := [t[0], '0'];
    assert IsDigit(t[0]) && w[1..] == "0";
    OneDigitMatches('0', t[0], 1, w);
    assert Matches(e, w) && !AtLeast(t, 1, w);
  }

  lemma AlternativesProper(withLow: bool, lo: char, c: char, below: nat, sub: Rx, above: nat, hi: nat)
    requires IsDigit(c)
    ensures Proper(OneOf(Alternatives(withLow, lo, c, below, sub, above, hi))) <==>
            (withLow ==> below <= hi) && Proper(sub) && (c < '9' ==> above <= hi)
  {
    var first: seq<Rx> := if withLow then [Seq(Range(lo, Pred(c)), Digits(below, hi))] else [];
    var last: seq<Rx> := if c < '9' then [Seq(Range(Succ(c), '9'), Digits(above, hi))] else [];
    var middle := [Seq(Range(c, c), sub)];
    ProperOne(Seq(Range(lo, Pred(c)), Digits(below, hi)));
    ProperOne(Seq(Range(c, c), sub));
    ProperOne(Seq(Range(Succ(c), '9'), Digits(above, hi)));
    ProperMore(first, middle);
    ProperMore(first + middle, last);
  }

  /** A bound of more digits, from the expression for the digits behind the first one. */
  lemma LongBuilt(e: Rx, t: string, sub: Rx, limit: nat, less: nat, topLevel: bool)
    requires Canonical(t) && |t| >= 2 && limit > 0 && less == if limit > 1 then limit - 1 else 1
    requires var lo := if t[0] > '1' && topLevel then '1' else if t[0] > '1' then '0' else t[0];
             e == OneOf(Alternatives(t[0] > '1', lo, t[0], |t|, sub, |t| - 1, less))
    requires var s := Text(Value(t[1..])); |s| <= less ==> (RightBehind(sub, s, less) <==> SuffixSound(s, less))
    requires exists w :: |w| <= |Text(Value(t[1..]))| && Matches(sub, w)
    ensures !topLevel && |t| <= limit ==> (RightBehind(e, t, limit) <==> SuffixSound(t, limit))
    ensures limit >= 2 ==> (RightNumbers(e, Value(t), limit) <==> NumberSound(t, limit, topLevel))
    ensures exists w :: |w| <= |t| && Matches(e, w)
  {
    hide Matches, Value, Text, Alternatives, Proper, NumbersFrom, AllAtLeast, NoSmall, Ones, ByFirst, Numeral;
    TopDigit(t);
    RestNumeral(t);
    TextIsShort(t[1..]);
    var lo := if topLevel then '1' else '0';
    SplitByFirst(e, t[0], lo, |t|, sub, less);
    LongMatch(e, t, sub, less, if t[0] > '1' then lo else '1');
    AlternativesProper(t[0] > '1', if t[0] > '1' then lo else t[0], t[0], |t|, sub, |t| - 1, less);
    if |t| > limit {
      TooLong(e, t, limit);
    } else {
      SubIff(sub, t[1..], less);
      NoSmallFront(t);
      OnesFront(t);
      if topLevel || t[0] == '1' { TopIff(e, t, sub, limit); }
      if |t| < limit && !topLevel { BehindIff(e, t, sub, limit); }
      if |t| == limit { SameWhenFull(e, t); }
    }
  }

  lemma RestNumeral(t: string)
    requires Canonical(t) && |t| >= 2
    ensures Numeral(t[1..]) && t[1..] != ""
  {
  }

  lemma LongMatch(e: Rx, t: string, sub: Rx, less: nat, lo: char)
    requires Canonical(t) && |t| >= 2 && lo <= t[0]
    requires forall w :: Matches(e, w) <==> ByFirst(lo, t[0], |t|, sub, |t| - 1, less, w)
    requires exists w :: |w| < |t| && Matches(sub, w)
    ensures exists w :: |w| <= |t| && Matches(e, w)
  {
    hide Matches;
    var v :| |v| < |t| && Matches(sub, v);
    var w := [t[0]] + v;
    assert IsDigit(t[0]) && w[1..] == v;
    assert Matches(e, w);
  }

  /** No number of `limit` digits reaches a longer bound, but something is accepted. */
  lemma TooLong(e: Rx, t: string, limit: nat)
    requires Canonical(t) && |t| > limit && exists w :: Matches(e, w)
    ensures !NumbersFrom(e, Value(t), limit)
  {
    hide Matches, Value;
    var w :| Matches(e, w);
    if Canonical(w) { CanonicalOrder(t, w); }
    assert !NumberFrom(Value(t), limit, w);
  }

  /** With as many digits as there may be, following and standing alone are the same. */
  lemma SameWhenFull(e: Rx, t: string)
    requires Canonical(t) && |t| >= 2
    ensures AllAtLeast(e, t, |t|) <==> NumbersFrom(e, Value(t), |t|)
  {
    hide Matches, Value;
    forall w ensures AtLeast(t, |t|, w) <==> NumberFrom(Value(t), |t|, w) {
      if |w| == |t| && Numeral(w) && Leq(t, w) { AboveIsCanonical(t, w); }
      if Canonical(w) { CanonicalOrder(t, w); }
    }
  }

  lemma SplitByFirst(e: Rx, c: char, lo: char, len: nat, sub: Rx, less: nat)
    requires IsDigit(c) && c >= '1' && lo in {'0', '1'} && len > 0
    requires e == OneOf(Alternatives(c > '1', if c > '1' then lo else c, c, len, sub, len - 1, less))
    ensures var l := if c > '1' then lo else '1';
            forall w :: Matches(e, w) <==> ByFirst(l, c, len, sub, len - 1, less, w)
  {
    hide Matches, Alternatives;
    var l := if c > '1' then lo else '1';
    forall w ensures Matches(e, w) <==> ByFirst(l, c, len, sub, len - 1, less, w) {
      AlternativesMatch(c > '1', l, c, len, sub, len - 1, less, w);
    }
  }

  lemma OneDigitText(n: nat)
    requires n <= 9
    ensures |Text(n)| == 1 && Text(n) == [Text(n)[0]] && (n == 0 ==> Text(n) == "0") && (n > 0 ==> Text(n)[0] > '0')
  {
  }

  lemma LongText(n: nat)
    requires n > 9
    ensures |Text(n)| >= 2 && '1' <= Text(n)[0] <= '9' && Numeral(Text(n)[1..])
  {
  }

  lemma NoSmallShort(t: string)
    requires |t| == 1
    ensures NoSmall(t) && NoSmall(t[1..])
  {
  }

  // ---------------------------------------------------------------- all bounds

  /** `decimals_left`: open ranges stop at numbers of 16 digits. */
  const DIGITS: nat := 16

  /** Texts of numbers that are not negative, inside the bounds. */
  predicate Plain(w: string, min: Option<int>, max: Option<int>) {
    && Canonical(w)
    && (min.Some? ==> min.value <= Value(w))
    && (if max.Some? then Value(w) <= max.value else |w| <= DIGITS)
  }

  /** Texts with a minus sign, inside the bounds; `-0` is among them if there is a negative lower bound. */
  predicate Minus(w: string, min: Option<int>, max: Option<int>) {
    && "-" <= w && Canonical(w[1..])
    && (if min.Some? then min.value < 0 && min.value <= 0 - Value(w[1..]) else |w[1..]| <= DIGITS && w[1..] != "0")
    && (max.Some? ==> 0 - Value(w[1..]) <= max.value)
  }

  /** The expression accepts exactly the texts of the integers inside the bounds. */
  ghost predicate Exact(e: Rx, min: Option<int>, max: Option<int>) {
    Proper(e) && forall w :: Matches(e, w) <==> Plain(w, min, max) || Minus(w, min, max)
  }

  /** The bounds for which the expression is exact. */
  predicate Sound(min: Option<int>, max: Option<int>) {
    if min.Some? && max.Some? then true
    else if min.Some? then min.value < 0 || NumberSound(Text(min.value), DIGITS, true)
    else if max.Some? && max.value < 0 then NumberSound(Text(0 - max.value), DIGITS, false)
    else true
  }

  lemma SignThen(x: Rx, w: string)
    ensures Matches(Seq(Lit("-"), x), w) <==> "-" <= w && Matches(x, w[1..])
  {
    LitThen("-", x, w);
  }

  /** Both bounds given. */
  method BuildBounded(min: int, max: int) returns (e: Rx)
    requires min <= max
    ensures Exact(e, Some(min), Some(max))
  {
    hide Matches, Value, Canonical, Proper;
    if min < 0 && max < 0 {
      var sub := BuildBetween(0 - max, 0 - min);
      e := Seq(Lit("-"), OneOf(sub));
      ThenProper(Lit("-"), OneOf(sub));
      OneOfProper(sub);
      forall w ensures Matches(e, w) <==> Plain(w, Some(min), Some(max)) || Minus(w, Some(min), Some(max)) {
        SignThen(OneOf(sub), w);
      }
      return;
    }
    var from, negative: seq<Rx> := min, [];
    if min < 0 {
      var sub := BuildBetween(0, 0 - min);
      negative := [Seq(Lit("-"), OneOf(sub))];
      from := 0;
      ThenProper(Lit("-"), OneOf(sub));
      OneOfProper(sub);
      ProperOne(negative[0]);
      forall w ensures Matches(OneOf(negative), w) <==> Minus(w, Some(min), Some(max)) {
        SignThen(OneOf(sub), w);
        OneOfOne(negative[0], w);
      }
    } else {
      forall w ensures Matches(OneOf(negative), w) <==> Minus(w, Some(min), Some(max)) { OneOfNone(w); }
    }
    var rest := BuildBetween(from, max);
    e := OneOf(negative + rest);
    ProperMore(negative, rest);
    OneOfProper(negative + rest);
    forall w ensures Matches(e, w) <==> Plain(w, Some(min), Some(max)) || Minus(w, Some(min), Some(max)) {
      BothParts(negative, rest, w);
    }
  }

  lemma OneOfNone(w: string)
    ensures !Matches(OneOf([]), w)
  {
  }

  lemma OneOfOne(x: Rx, w: string)
    ensures Matches(OneOf([x]), w) <==> Matches(x, w)
  {
    OneOfNone(w);
    OneMore([], x, w);
    assert [] + [x] == [x];
  }

  lemma BothParts(a: seq<Rx>, b: seq<Rx>, w: string)
    ensures Matches(OneOf(a + b), w) <==> Matches(OneOf(a), w) || Matches(OneOf(b), w)
  {
    assert forall i :: 0 <= i < |a| ==> (a + b)[i] == a[i];
    assert forall i :: 0 <= i < |b| ==> (a + b)[|a| + i] == b[i];
    if Matches(OneOf(a), w) {
      var i :| 0 <= i < |a| && Matches(a[i], w);
      assert Matches((a + b)[i], w);
    }
    if Matches(OneOf(b), w) {
      var i :| 0 <= i < |b| && Matches(b[i], w);
      assert Matches((a + b)[|a| + i], w);
    }
  }

  /** Only an upper bound; behind a sign that is already written the negative numbers are left out. */
  method BuildUpTo(max: int, topLevel: bool) returns (e: Rx)
    ensures topLevel ==> (Exact(e, None, Some(max)) <==> Sound(None, Some(max)))
    ensures !topLevel && max >= 0 ==> Exact(e, Some(0), Some(max))
  {
    hide Matches, Value, Canonical, Text, NumberSound, RightNumbers, Proper;
    if max >= 0 {
      var rest := BuildBounded(0, max);
      if !topLevel { return rest; }
      var negative := Seq(Lit("-"), Seq(Range('1', '9'), Digits(0, DIGITS - 1)));
      e := OneOf([negative, rest]);
      ThenProper(Lit("-"), Seq(Range('1', '9'), Digits(0, DIGITS - 1)));
      ThenProper(Range('1', '9'), Digits(0, DIGITS - 1));
      ProperTwo(negative, rest);
      forall w ensures Matches(e, w) <==> Plain(w, None, Some(max)) || Minus(w, None, Some(max)) {
        OneOfTwo(negative, rest, w);
        SignThen(Seq(Range('1', '9'), Digits(0, DIGITS - 1)), w);
        if "-" <= w { PositiveMatches(DIGITS - 1, w[1..]); }
      }
    } else {
      var sub := BuildAtLeast(0 - max, DIGITS, false);
      e := Seq(Lit("-"), sub);
      NegativeIff(sub, max);
    }
  }

  lemma PositiveMatches(hi: nat, w: string)
    ensures Matches(Seq(Range('1', '9'), Digits(0, hi)), w) <==> Canonical(w) && w != "0" && |w| <= hi + 1
    ensures Canonical(w) && w != "0" ==> Value(w) > 0
  {
    hide Matches, Value, Text, Numeral;
    RangeThen('1', '9', Digits(0, hi), w);
    if w != "" {
      NumeralFront(w);
      MoreMatches(0, hi, w[1..]);
    }
    OneDigitText(0);
    if Canonical(w) { TextOfValue(w); }
  }

  lemma NegativeIff(sub: Rx, max: int)
    requires max < 0
    ensures Exact(Seq(Lit("-"), sub), None, Some(max)) <==> RightNumbers(sub, 0 - max, DIGITS)
  {
    hide Matches, Value, Canonical, Proper;
    var e := Seq(Lit("-"), sub);
    ThenProper(Lit("-"), sub);
    ZeroIsZero();
    if NumbersFrom(sub, 0 - max, DIGITS) {
      forall w ensures Matches(e, w) <==> Plain(w, None, Some(max)) || Minus(w, None, Some(max)) {
        SignThen(sub, w);
        if "-" <= w { assert Matches(sub, w[1..]) <==> NumberFrom(0 - max, DIGITS, w[1..]); }
      }
    }
    if Exact(e, None, Some(max)) {
      forall v ensures Matches(sub, v) <==> NumberFrom(0 - max, DIGITS, v) {
        var w := "-" + v;
        assert w[1..] == v;
        SignThen(sub, w);
        assert Matches(e, w) <==> Plain(w, None, Some(max)) || Minus(w, None, Some(max));
      }
    }
  }

  lemma ZeroIsZero()
    ensures Canonical("0") && Value("0") == 0
  {
    ValueOfText(0);
  }

  /** Only a lower bound. */
  method BuildFrom(min: int) returns (e: Rx)
    ensures Exact(e, Some(min), None) <==> Sound(Some(min), None)
  {
    hide Matches, Value, Canonical, Text, NumberSound, RightNumbers, Proper;
    if min < 0 {
      var sub := BuildUpTo(0 - min, false);
      var negative := Seq(Lit("-"), sub);
      e := OneOf([negative] + AnyNumber(DIGITS - 1));
      ThenProper(Lit("-"), sub);
      ProperOne(negative);
      OneDigitProper('0', DIGITS, DIGITS - 1);
      OneOfProper(AnyNumber(DIGITS - 1));
      ProperMore([negative], AnyNumber(DIGITS - 1));
      OneOfProper([negative] + AnyNumber(DIGITS - 1));
      forall w ensures Matches(e, w) <==> Plain(w, Some(min), None) || Minus(w, Some(min), None) {
        BothParts([negative], AnyNumber(DIGITS - 1), w);
        OneOfOne(negative, w);
        SignThen(sub, w);
        AnyNumberMatches(DIGITS - 1, w);
        if "-" <= w { NoSecondSign(w[1..], 0 - min); }
      }
    } else {
      e := BuildAtLeast(min, DIGITS, true);
      NonnegativeIff(e, min);
    }
  }

  lemma NoSecondSign(v: string, max: int)
    ensures !Minus(v, Some(0), Some(max))
  {
  }

  lemma NonnegativeIff(e: Rx, min: nat)
    ensures Exact(e, Some(min), None) <==> RightNumbers(e, min, DIGITS)
  {
    hide Matches, Value, Canonical;
    forall w: string
      ensures Plain(w, Some(min), None) || Minus(w, Some(min), None) <==> NumberFrom(min, DIGITS, w)
    {
    }
  }

  /** `_build_min_max_int`: an error without any bound, otherwise an expression that accepts exactly the
      integers inside the bounds, if these are sound; otherwise never. */
  method BuildMinMaxInt(min: Option<int>, max: Option<int>) returns (r: Result<Rx, ()>)
    requires min.Some? && max.Some? ==> min.value <= max.value
    ensures r.Err? <==> min.None? && max.None?
    ensures r.Ok? ==> (Exact(r.value, min, max) <==> Sound(min, max))
  {
    hide Exact, Text, NoSmall;
    var e: Rx;
    if min.Some? && max.Some? {
      e := BuildBounded(min.value, max.value);
    } else if min.Some? {
      e := BuildFrom(min.value);
    } else if max.Some? {
      e := BuildUpTo(max.value, true);
    } else {
      return Err(());
    }
    return Ok(e);
  }

  lemma ExampleTexts()
    ensures Text(100) == "100" && Text(315) == "315" && Text(5) == "5"
    ensures Text(123) == "123" && Text(30) == "30" && Text(15) == "15"
  {
  }

  /** A zero or a one inside a lower bound makes the expression wrong, and so do a single digit below
      zero, and 16 digits, except for one number. */
  lemma UnsoundExamples()
    ensures !Sound(Some(100), None) && !Sound(Some(315), None) && !Sound(None, Some(-5))
    ensures Canonical("2000000000000000") && !Sound(Some(Value("2000000000000000")), None)
    ensures Canonical("1111111111111110") && Sound(Some(Value("1111111111111110")), None)
    ensures Sound(Some(123), None) && Sound(Some(30), None) && Sound(None, Some(-15))
  {
    hide Text, Value;
    ExampleTexts();
    TextOfValue("2000000000000000");
    TextOfValue("1111111111111110");
    assert "100"[1..] == "00" && "315"[1..] == "15" && "123"[1..] == "23" && "30"[1..] == "0" && "15"[1..] == "5";
    assert "00"[0] < '2' && "15"[0] < '2';
  }
}
