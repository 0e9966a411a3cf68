/** `common_ngram_mod` (ngram-mod.cpp): a table of last-seen tokens, indexed by a hash of n tokens. */
module NgramTable {
  type Entry = x: int | -0x8000_0000 <= x < 0x8000_0000

  const EMPTY: Entry := -1
  const FACTOR: int := 6364136223846793005
  const TWO64: int := 0x1_0000_0000_0000_0000

  // ---------------------------------------------------------------- the hash

  function Power(k: nat): int { if k == 0 then 1 else FACTOR * Power(k - 1) }

  /** The polynomial in FACTOR with the tokens as coefficients, the first one leading. */
  function Polynomial(tokens: seq<Entry>): int {
    if tokens == [] then 0 else tokens[0] * Power(|tokens| - 1) + Polynomial(tokens[1..])
  }

  /** The slot of an n-gram: the polynomial modulo 2^64, then modulo the table size. */
  function Slot(tokens: seq<Entry>, size: nat): (i: nat)
    requires size > 0
    ensures i < size
  {
    Polynomial(tokens) % TWO64 % size
  }

  lemma {:induction false} PolynomialSnoc(tokens: seq<Entry>, t: Entry)
    ensures Polynomial(tokens + [t]) == Polynomial(tokens) * FACTOR + t
    decreases |tokens|
  {
    var all := tokens + [t];
    if tokens == [] {
      assert all[1..] == [];
    } else {
      assert all[1..] == tokens[1..] + [t];
      PolynomialSnoc(tokens[1..], t);
      Shifted(tokens[0], Power(|tokens| - 1), Polynomial(tokens[1..]), t);
    }
  }

  lemma Shifted(a: int, p: int, rest: int, t: int)
    ensures a * (FACTOR * p) + (rest * FACTOR + t) == (a * p + rest) * FACTOR + t
  {
    assert a * (FACTOR * p) == (a * p) * FACTOR;
  }

  /** Reducing before a step does not change the remainder after it. */
  lemma StepModulo(a: int, t: int)
    ensures (a % TWO64 * FACTOR + t) % TWO64 == (a * FACTOR + t) % TWO64
  {
    var q := a / TWO64;
    assert a == q * TWO64 + a % TWO64;
    var x := a % TWO64 * FACTOR + t;
    assert a * FACTOR + t == x + (q * FACTOR) * TWO64;
    AddMultiple(x, q * FACTOR);
  }

  lemma AddMultiple(x: int, k: int)
    ensures (x + k * TWO64) % TWO64 == x % TWO64
  {
  }

  // ---------------------------------------------------------------- the table

  /** Slots in use. */
  function Filled(s: seq<Entry>): nat {
    if s == [] then 0 else Filled(s[..|s| - 1]) + if s[|s| - 1] == EMPTY then 0 else 1
  }

  datatype Op = Add(key: seq<Entry>, token: Entry) | Reset

  datatype Table = Table(slots: seq<Entry>, used: nat)

  function Empty(size: nat): Table { Table(seq(size, _ => EMPTY), 0) }

  /** The effect of an operation on the state of a table. */
  function Apply(t: Table, op: Op): Table
    requires op.Add? ==> |t.slots| > 0
  {
    match op
    case Reset => Empty(|t.slots|)
    case Add(key, token) =>
      var i := Slot(key, |t.slots|);
      Table(t.slots[i := token], t.used + if t.slots[i] == EMPTY then 1 else 0)
  }

  class NgramMod {
    const n: nat
    var used: nat
    const entries: array<Entry>

    /** The state of the table. */
    ghost function Contents(): Table
      reads this, entries
    {
      Table(entries[..], used)
    }

    constructor (n: nat, size: nat)
      requires n < 0x1_0000
      ensures this.n == n && entries.Length == size && fresh(entries)
      ensures Contents() == Empty(size)
    {
      this.n := n;
      used := 0;
      entries := new Entry[size](_ => EMPTY);
    }

    /** 64-bit arithmetic wraps around; negative tokens are sign-extended. */
    method Idx(tokens: seq<Entry>) returns (res: nat)
      requires |tokens| >= n && entries.Length > 0
      ensures res == Slot(tokens[..n], entries.Length)
    {
      var r: int := 0;
      assert tokens[..0] == [];
      for i := 0 to n
        invariant r == Polynomial(tokens[..i]) % TWO64
      {
        assert tokens[..i + 1] == tokens[..i] + [tokens[i]];
        PolynomialSnoc(tokens[..i], tokens[i]);
        StepModulo(Polynomial(tokens[..i]), tokens[i]);
        r := (r * FACTOR + tokens[i]) % TWO64;
      }
      res := r % entries.Length;
    }

    method Add(tokens: seq<Entry>)
      requires |tokens| > n && entries.Length > 0
      modifies this`used, entries
      ensures Contents() == Apply(old(Contents()), Op.Add(tokens[..n], tokens[n]))
    {
      var i := Idx(tokens);
      if entries[i] == EMPTY { used := used + 1; }
      entries[i] := tokens[n];
    }

    method Get(tokens: seq<Entry>) returns (e: Entry)
      requires |tokens| >= n && entries.Length > 0
      ensures e == Contents().slots[Slot(tokens[..n], entries.Length)]
    {
      var i := Idx(tokens);
      e := entries[i];
    }

    method Reset()
      modifies this`used, entries
      ensures Contents() == Apply(old(Contents()), Op.Reset)
    {
      for i := 0 to entries.Length
        invariant forall k :: 0 <= k < i ==> entries[k] == EMPTY
      {
        entries[i] := EMPTY;
      }
      used := 0;
    }
  }

  // ---------------------------------------------------------------- runs

  function Run(size: nat, ops: seq<Op>): (t: Table)
    requires size > 0
    ensures |t.slots| == size
    decreases |ops|
  {
    if ops == [] then Empty(size) else Apply(Run(size, ops[..|ops| - 1]), ops[|ops| - 1])
  }

  lemma {:induction false} FilledUpdate(s: seq<Entry>, i: nat, e: Entry)
    requires i < |s|
    ensures Filled(s[i := e]) + (if s[i] == EMPTY then 0 else 1) == Filled(s) + (if e == EMPTY then 0 else 1)
    decreases |s|
  {
    var s', last := s[i := e], |s| - 1;
    if i == last {
      assert s'[..last] == s[..last];
    } else {
      assert s'[..last] == s[..last][i := e];
      FilledUpdate(s[..last], i, e);
    }
  }

  lemma {:induction false} FilledEmpty(s: seq<Entry>)
    requires forall i :: 0 <= i < |s| ==> s[i] == EMPTY
    ensures Filled(s) == 0
    decreases |s|
  {
    if s != [] { FilledEmpty(s[..|s| - 1]); }
  }

  /** One `add` keeps the counter right exactly if the token is not the marker of empty slots. */
  lemma AddKeepsUsedIff(t: Table, key: seq<Entry>, token: Entry)
    requires |t.slots| > 0 && t.used == Filled(t.slots)
    ensures var t' := Apply(t, Add(key, token)); t'.used == Filled(t'.slots) <==> token != EMPTY
  {
    FilledUpdate(t.slots, Slot(key, |t.slots|), token);
  }

  /** After any run with proper tokens, `used` is the number of slots in use. */
  lemma {:induction false} UsedIsFilled(size: nat, ops: seq<Op>)
    requires size > 0 && forall i :: 0 <= i < |ops| && ops[i].Add? ==> ops[i].token != EMPTY
    ensures Run(size, ops).used == Filled(Run(size, ops).slots)
    decreases |ops|
  {
    if ops == [] {
      FilledEmpty(Run(size, ops).slots);
    } else {
      var init, op := ops[..|ops| - 1], ops[|ops| - 1];
      assert forall i :: 0 <= i < |init| ==> init[i] == ops[i];
      UsedIsFilled(size, init);
      if op.Add? { AddKeepsUsedIff(Run(size, init), op.key, op.token); } else { FilledEmpty(Run(size, ops).slots); }
    }
  }

  /** `ops[k]` is the last operation that decides slot `i`. */
  predicate Decides(size: nat, ops: seq<Op>, i: nat, k: nat)
    requires size > 0
  {
    && k < |ops| && ops[k].Add? && Slot(ops[k].key, size) == i
    && forall j :: k < j < |ops| ==> ops[j].Add? && Slot(ops[j].key, size) != i
  }

  /** A slot holds the last token added since the last reset under any key with that slot. */
  lemma {:induction false} SlotHoldsLast(size: nat, ops: seq<Op>, i: nat)
    requires i < size
    ensures forall k: nat :: Decides(size, ops, i, k) ==> Run(size, ops).slots[i] == ops[k].token
    ensures (forall k: nat :: !Decides(size, ops, i, k)) ==> Run(size, ops).slots[i] == EMPTY
    decreases |ops|
  {
    hide Slot;
    if ops != [] {
      var last := |ops| - 1;
      var init, op := ops[..last], ops[last];
      SlotHoldsLast(size, init, i);
      if op.Add? {
        if Slot(op.key, size) == i {
          assert Decides(size, ops, i, last);
        } else {
          assert forall k: nat :: Decides(size, ops, i, k) <==> Decides(size, init, i, k);
        }
      }
    }
  }
}
