/**
  The base64 codec of base64.hpp (RFC 4648, sections 4 and 5) on bytes, with the bit operations of
  the source: streaming decoding, detection of the alphabet on the way, and decoding in place.
  */
module Base64Codec {
  import opened Base

  type Bytes = seq<bv8>

  const PAD: bv8 := 0x3D
  const PLUS: bv8 := 0x2B
  const SLASH: bv8 := 0x2F
  const MINUS: bv8 := 0x2D
  const UNDERSCORE: bv8 := 0x5F

  datatype Alphabet = AutoDetect | Standard | UrlSafe

  datatype Behavior = Moderate | Loose

  datatype Invalid = InvalidCharacter

  // ---------------------------------------------------------------- sextets and characters

  /** The table `alpha`. */
  function CharOf(url: bool, v: bv8): bv8
    requires v < 64
  {
    if v < 26 then v + 0x41
    else if v < 52 then v - 26 + 0x61
    else if v < 62 then v - 52 + 0x30
    else if v == 62 then (if url then MINUS else PLUS)
    else (if url then UNDERSCORE else SLASH)
  }

  datatype Sextet = Sextet(value: bv8, alphabet: Alphabet)

  /** `_base64_value`: the sextet, and the alphabet as it is known afterwards. */
  function ValueOf(alphabet: Alphabet, c: bv8): (r: Option<Sextet>)
    ensures r.Some? ==> r.value.value < 64
  {
    if 0x41 <= c <= 0x5A then Some(Sextet(c - 0x41, alphabet))
    else if 0x61 <= c <= 0x7A then Some(Sextet(c - 0x61 + 26, alphabet))
    else if 0x30 <= c <= 0x39 then Some(Sextet(c - 0x30 + 52, alphabet))
    else if alphabet != UrlSafe && c == PLUS then Some(Sextet(62, Standard))
    else if alphabet != UrlSafe && c == SLASH then Some(Sextet(63, Standard))
    else if alphabet != Standard && c == MINUS then Some(Sextet(62, UrlSafe))
    else if alphabet != Standard && c == UNDERSCORE then Some(Sextet(63, UrlSafe))
    else None
  }

  /** The alphabet that a decoder may hold while it reads text of the given kind. */
  predicate Suits(alphabet: Alphabet, url: bool) {
    alphabet == AutoDetect || alphabet == if url then UrlSafe else Standard
  }

  lemma ValueOfChar(alphabet: Alphabet, url: bool, v: bv8)
    requires v < 64 && Suits(alphabet, url)
    ensures CharOf(url, v) != PAD
    ensures ValueOf(alphabet, CharOf(url, v)).Some?
    ensures var s := ValueOf(alphabet, CharOf(url, v)).value; s.value == v && Suits(s.alphabet, url)
  {
  }

  // ---------------------------------------------------------------- encoding

  function First(i0: bv8): (v: bv8) ensures v < 64 { (i0 >> 2) & 0x3F }
  function Second(i0: bv8, i1: bv8): (v: bv8) ensures v < 64 { ((i0 & 0x3) << 4) | ((i1 >> 4) & 0x0F) }
  function Third(i1: bv8, i2: bv8): (v: bv8) ensures v < 64 { ((i1 & 0xF) << 2) | ((i2 >> 6) & 0x03) }
  function Fourth(i2: bv8): (v: bv8) ensures v < 64 { i2 & 0x3F }

  /** The four characters of the first group; a short group is padded. */
  function Group(x: Bytes, url: bool): (g: Bytes)
    requires x != []
    ensures |g| == 4
  {
    if |x| == 1 then [CharOf(url, First(x[0])), CharOf(url, Second(x[0], 0)), PAD, PAD]
    else if |x| == 2 then [CharOf(url, First(x[0])), CharOf(url, Second(x[0], x[1])), CharOf(url, Third(x[1], 0)), PAD]
    else [CharOf(url, First(x[0])), CharOf(url, Second(x[0], x[1])), CharOf(url, Third(x[1], x[2])),
        CharOf(url, Fourth(x[2]))]
  }

  function Encoded(x: Bytes, url: bool): Bytes {
    if x == [] then [] else Group(x, url) + Encoded(x[Min(3, |x|)..], url)
  }

  function RequiredEncodeSize(size: nat): nat { (size / 3 + (if size % 3 != 0 then 1 else 0)) * 4 }

  function MaxDecodeSize(size: nat): nat { (size / 4 + (if size % 4 != 0 then 1 else 0)) * 3 }

  /** One round of `encode`, for the group at `from`; it leaves in the middle when the input ends. */
  method EncodeGroup(input: Bytes, from: nat, url: bool) returns (group: Bytes, at: nat)
    requires from < |input|
    ensures group == Group(input[from..], url) && at == Min(from + 3, |input|)
  {
    var i0 := input[from];
    at := from + 1;
    group := [CharOf(url, First(i0))];
    if at == |input| {
      group := group + [CharOf(url, Second(i0, 0))] + [PAD] + [PAD];
      return;
    }
    var i1 := input[at];
    at := at + 1;
    group := group + [CharOf(url, Second(i0, i1))];
    if at == |input| {
      group := group + [CharOf(url, Third(i1, 0))] + [PAD];
      return;
    }
    var i2 := input[at];
    at := at + 1;
    group := group + [CharOf(url, Third(i1, i2))] + [CharOf(url, Fourth(i2))];
  }

  /** `encode`. */
  method Encode(input: Bytes, alphabet: Alphabet) returns (out: Bytes)
    ensures out == Encoded(input, alphabet == UrlSafe)
  {
    var url, at := alphabet == UrlSafe, 0;
    out := [];
    while at < |input|
      invariant at <= |input|
      invariant out + Encoded(input[at..], url) == Encoded(input, url)
    {
      hide Encoded, Group;
      ghost var from := at;
      var group;
      group, at := EncodeGroup(input, at, url);
      GroupDone(out, input[from..], url, input[at..]);
      out := out + group;
    }
    assert input[at..] == [] && out + [] == out;
  }

  lemma GroupDone(before: Bytes, rest: Bytes, url: bool, more: Bytes)
    requires rest != [] && more == rest[Min(3, |rest|)..]
    ensures before + Group(rest, url) + Encoded(more, url) == before + Encoded(rest, url)
  {
  }

  lemma {:induction false} EncodedLength(x: Bytes, url: bool)
    ensures |Encoded(x, url)| == RequiredEncodeSize(|x|)
    decreases |x|
  {
    if x != [] { EncodedLength(x[Min(3, |x|)..], url); }
  }

  // ---------------------------------------------------------------- decoding

  /** Bits waiting from earlier characters: none, or the low 2, 4 or 6 of the last sextet. */
  predicate BitsFit(bits: nat) { bits == 0 || bits == 2 || bits == 4 || bits == 6 }

  /** `(last << (8 - bits)) | (part >> (bits - 2))` in eight bits. */
  function Combine(last: bv8, part: bv8, bits: nat): bv8
    requires bits == 2 || bits == 4 || bits == 6
  {
    if bits == 6 then (last << 2) | (part >> 4)
    else if bits == 4 then (last << 4) | (part >> 2)
    else (last << 6) | part
  }

  predicate OnlyPads(s: Bytes) { forall i :: 0 <= i < |s| ==> s[i] == PAD }

  function Prepend(a: Bytes, r: Result<Bytes, Invalid>): Result<Bytes, Invalid> {
    if r.Ok? then Ok(a + r.value) else r
  }

  /** What decoding makes of the rest `s`, given what it holds. */
  function Decoded(s: Bytes, alphabet: Alphabet, behavior: Behavior, last: bv8, bits: nat): Result<Bytes, Invalid>
    requires BitsFit(bits)
    decreases |s|
  {
    if s == [] then Ok([])
    else if s[0] == PAD then (if behavior == Loose || OnlyPads(s[1..]) then Ok([]) else Err(InvalidCharacter))
    else
      match ValueOf(alphabet, s[0])
      case None => Err(InvalidCharacter)
      case Some(v) =>
        if bits == 0 then Decoded(s[1..], v.alphabet, behavior, v.value, 6)
        else Prepend([Combine(last, v.value, bits)], Decoded(s[1..], v.alphabet, behavior, v.value, bits - 2))
  }

  /** `decode` of a whole text. */
  function Decode(s: Bytes, alphabet: Alphabet, behavior: Behavior): Result<Bytes, Invalid> {
    Decoded(s, alphabet, behavior, 0, 0)
  }

  lemma PrependTwice(a: Bytes, b: Bytes, r: Result<Bytes, Invalid>)
    ensures Prepend(a, Prepend(b, r)) == Prepend(a + b, r)
    ensures Prepend([], r) == r
  {
    if r.Ok? { assert a + (b + r.value) == a + b + r.value && [] + r.value == r.value; }
  }

  /** The padding loop at the end. */
  method CheckPads(input: Bytes, from: nat) returns (ok: bool)
    requires from <= |input|
    ensures ok == OnlyPads(input[from..])
  {
    var at := from;
    while at < |input|
      invariant from <= at <= |input|
      invariant forall i :: from <= i < at ==> input[i] == PAD
    {
      var c := input[at];
      at := at + 1;
      if c != PAD {
        assert input[from..][at - 1 - from] == c;
        return false;
      }
    }
    return true;
  }

  /** `decode` into a growing buffer. */
  method DecodeText(input: Bytes, alphabet0: Alphabet, behavior: Behavior) returns (r: Result<Bytes, Invalid>)
    ensures r == Decode(input, alphabet0, behavior)
  {
    hide Decoded, Combine, ValueOf, Prepend, GoodPadding, Decode;
    var last: bv8, bits: nat, alphabet, at := 0, 0, alphabet0, 0;
    var out: Bytes := [];
    DecodeStarts(input, alphabet0, behavior);
    while at < |input| && input[at] != PAD
      invariant at <= |input| && BitsFit(bits)
      invariant Prepend(out, Decoded(input[at..], alphabet, behavior, last, bits)) == Decode(input, alphabet0, behavior)
    {
      var c := input[at];
      NextCharacter(input, at, alphabet, behavior, last, bits, out);
      at := at + 1;
      var part := ValueOf(alphabet, c);
      if part.None? { return Err(InvalidCharacter); }
      alphabet := part.value.alphabet;
      if bits + 6 >= 8 {
        out := out + [Combine(last, part.value.value, bits)];
        bits := bits - 2;
      } else {
        bits := bits + 6;
      }
      last := part.value.value;
    }
    EndOfDecoding(input, at, alphabet, behavior, last, bits, out);
    var ok := PaddingOk(input, at, behavior);
    if !ok { return Err(InvalidCharacter); }
    return Ok(out);
  }

  /**
    `decode_inplace`: the output overwrites the input. Every write goes behind what has been read,
    so the result is that of decoding into a separate buffer, and nothing behind it changes.
    */
  method DecodeInPlace(str: array<bv8>, size: nat, alphabet0: Alphabet, behavior: Behavior)
    returns (r: Result<nat, Invalid>)
    requires size <= str.Length
    modifies str
    ensures match Decode(old(str[..size]), alphabet0, behavior)
            case Ok(bytes) => r == Ok(|bytes|) && |bytes| <= size && str[..|bytes|] == bytes &&
                str[|bytes|..] == old(str[|bytes|..])
            case Err(_) => r.Err?
  {
    hide Decoded, Combine, ValueOf, Prepend, GoodPadding, Decode, Mixed;
    ghost var input, whole, done := str[..size], str[..], [];
    var last: bv8, bits: nat, alphabet, at, out := 0, 0, alphabet0, 0, 0;
    DecodeStarts(input, alphabet0, behavior);
    NothingWritten(whole);
    while at < size && str[at] != PAD
      invariant |done| == out <= at <= size <= |whole| == str.Length && BitsFit(bits) && 8 * out + bits == 6 * at
      invariant str[..] == Mixed(done, whole) && input == whole[..size]
      invariant Prepend(done, Decoded(input[at..], alphabet, behavior, last, bits)) ==
                Decode(input, alphabet0, behavior)
    {
      var c := str[at];
      ReadAhead(done, whole, at, size);
      NextCharacter(input, at, alphabet, behavior, last, bits, done);
      at := at + 1;
      var part := ValueOf(alphabet, c);
      if part.None? { return Err(InvalidCharacter); }
      alphabet := part.value.alphabet;
      if bits + 6 >= 8 {
        ghost var b := Combine(last, part.value.value, bits);
        WriteBehind(done, whole, b);
        Put(str, out, Combine(last, part.value.value, bits));
        out := out + 1;
        done := done + [b];
        bits := bits - 2;
      } else {
        bits := bits + 6;
      }
      last := part.value.value;
    }
    AllWritten(done, whole);
    PartlyWritten(done, whole, size, at);
    EndOfDecoding(input, at, alphabet, behavior, last, bits, done);
    var ok := PaddingOk(str[..size], at, behavior);
    if !ok { return Err(InvalidCharacter); }
    return Ok(out);
  }

  /** At the padding, or at the end, the output is complete, unless the padding is refused. */
  lemma EndOfDecoding(input: Bytes, at: nat, alphabet: Alphabet, behavior: Behavior, last: bv8, bits: nat, done: Bytes)
    requires at <= |input| && (at < |input| ==> input[at] == PAD) && BitsFit(bits)
    ensures Prepend(done, Decoded(input[at..], alphabet, behavior, last, bits))
            == if GoodPadding(input[at..], behavior) then Ok(done) else Err(InvalidCharacter)
  {
    hide Decoded, OnlyPads;
    DecodedEnd(input[at..], alphabet, behavior, last, bits);
    assert done + [] == done;
  }

  predicate GoodPadding(s: Bytes, behavior: Behavior) { s == [] || behavior == Loose || OnlyPads(s[1..]) }

  /** The check behind the decoding loop. */
  method PaddingOk(input: Bytes, at: nat, behavior: Behavior) returns (ok: bool)
    requires at <= |input|
    ensures ok == GoodPadding(input[at..], behavior)
  {
    ok := true;
    if at < |input| && behavior != Loose {
      assert input[at..][1..] == input[at + 1..];
      ok := CheckPads(input, at + 1);
    }
  }

  lemma DecodeStarts(input: Bytes, alphabet: Alphabet, behavior: Behavior)
    ensures input[0..] == input &&
            Prepend([], Decoded(input[0..], alphabet, behavior, 0, 0)) == Decode(input, alphabet, behavior)
  {
    hide Decoded;
    assert input[0..] == input;
    PrependTwice([], [], Decode(input, alphabet, behavior));
  }

  /** One more character is decoded, behind the bytes that have been written. */
  lemma NextCharacter(input: Bytes, at: nat, alphabet: Alphabet, behavior: Behavior, last: bv8, bits: nat, done: Bytes)
    requires at < |input| && input[at] != PAD && BitsFit(bits)
    ensures Prepend(done, Decoded(input[at..], alphabet, behavior, last, bits))
            == match ValueOf(alphabet, input[at])
               case None => Err(InvalidCharacter)
               case Some(v) =>
                 if bits == 0 then Prepend(done, Decoded(input[at + 1..], v.alphabet, behavior, v.value, 6))
                 else Prepend(done + [Combine(last, v.value, bits)],
                     Decoded(input[at + 1..], v.alphabet, behavior, v.value, bits - 2))
  {
    hide Decoded, Combine, ValueOf;
    assert input[at..][1..] == input[at + 1..];
    DecodedStep(input[at..], alphabet, behavior, last, bits);
    var part := ValueOf(alphabet, input[at]);
    if part.Some? && bits != 0 {
      PrependTwice(done, [Combine(last, part.value.value, bits)],
                   Decoded(input[at + 1..], part.value.alphabet, behavior, part.value.value, bits - 2));
    }
  }

  /** The buffer: the output so far, and behind it the input that has not been overwritten. */
  ghost function Mixed(done: Bytes, whole: Bytes): Bytes
    requires |done| <= |whole|
  {
    done + whole[|done|..]
  }

  method Put(buffer: array<bv8>, i: nat, b: bv8)
    requires i < buffer.Length
    modifies buffer
    ensures buffer[..] == old(buffer[..])[i := b]
  {
    buffer[i] := b;
  }

  lemma NothingWritten(whole: Bytes)
    ensures Mixed([], whole) == whole
  {
  }

  /** A byte written behind the output goes in front of what is still to be read. */
  lemma WriteBehind(done: Bytes, whole: Bytes, b: bv8)
    requires |done| < |whole|
    ensures |Mixed(done, whole)| == |whole| && Mixed(done, whole)[|done| := b] == Mixed(done + [b], whole)
  {
  }

  lemma AllWritten(done: Bytes, whole: Bytes)
    requires |done| <= |whole|
    ensures |Mixed(done, whole)| == |whole|
    ensures Mixed(done, whole)[..|done|] == done && Mixed(done, whole)[|done|..] == whole[|done|..]
  {
  }

  lemma PartlyWritten(done: Bytes, whole: Bytes, size: nat, at: nat)
    requires |done| <= at <= size <= |whole|
    ensures |Mixed(done, whole)| == |whole| && Mixed(done, whole)[..size][at..] == whole[..size][at..]
  {
  }

  /** What is read next has not been overwritten. */
  lemma ReadAhead(done: Bytes, whole: Bytes, at: nat, size: nat)
    requires |done| <= at < size <= |whole|
    ensures |Mixed(done, whole)| == |whole| && Mixed(done, whole)[at] == whole[at] == whole[..size][at]
  {
  }

  lemma DecodedEnd(s: Bytes, alphabet: Alphabet, behavior: Behavior, last: bv8, bits: nat)
    requires BitsFit(bits)
    ensures s == [] ==> Decoded(s, alphabet, behavior, last, bits) == Ok([])
    ensures s != [] && s[0] == PAD ==>
              Decoded(s, alphabet, behavior, last, bits)
              == if behavior == Loose || OnlyPads(s[1..]) then Ok([]) else Err(InvalidCharacter)
  {
  }

  lemma DecodedStep(s: Bytes, alphabet: Alphabet, behavior: Behavior, last: bv8, bits: nat)
    requires s != [] && s[0] != PAD && BitsFit(bits)
    ensures Decoded(s, alphabet, behavior, last, bits)
            == match ValueOf(alphabet, s[0])
               case None => Err(InvalidCharacter)
               case Some(v) =>
                 if bits == 0 then Decoded(s[1..], v.alphabet, behavior, v.value, 6)
                 else Prepend([Combine(last, v.value, bits)], Decoded(s[1..], v.alphabet, behavior, v.value, bits - 2))
  {
  }

  // ---------------------------------------------------------------- sizes

  /** The number of characters in front of the padding. */
  function DataLength(s: Bytes): (k: nat)
    ensures k <= |s|
  {
    if s == [] || s[0] == PAD then 0 else 1 + DataLength(s[1..])
  }

  lemma {:induction false} DecodedSize(s: Bytes, alphabet: Alphabet, behavior: Behavior, last: bv8, bits: nat)
    requires BitsFit(bits) && Decoded(s, alphabet, behavior, last, bits).Ok?
    ensures |Decoded(s, alphabet, behavior, last, bits).value| == (bits + 6 * DataLength(s)) / 8
    decreases |s|
  {
    if s != [] && s[0] != PAD {
      var v := ValueOf(alphabet, s[0]).value;
      DecodedSize(s[1..], v.alphabet, behavior, v.value, if bits == 0 then 6 else bits - 2);
    }
  }

  /** From k data characters come exactly floor(3k/4) bytes, never more than `max_decode_size`. */
  lemma DecodeSize(s: Bytes, alphabet: Alphabet, behavior: Behavior)
    requires Decode(s, alphabet, behavior).Ok?
    ensures |Decode(s, alphabet, behavior).value| == 3 * DataLength(s) / 4
    ensures |Decode(s, alphabet, behavior).value| <= MaxDecodeSize(|s|)
  {
    DecodedSize(s, alphabet, behavior, 0, 0);
  }

  // ---------------------------------------------------------------- round trip

  /** The bit arithmetic of one group. */
  lemma GroupBits(x0: bv8, x1: bv8, x2: bv8)
    ensures Combine(First(x0), Second(x0, x1), 6) == x0
    ensures Combine(Second(x0, x1), Third(x1, x2), 4) == x1
    ensures Combine(Third(x1, x2), Fourth(x2), 2) == x2
  {
  }

  /** One encoded sextet in front of more text. */
  lemma DecodeOne(url: bool, v: bv8, s: Bytes, alphabet: Alphabet, behavior: Behavior, last: bv8, bits: nat)
    returns (next: Alphabet)
    requires v < 64 && Suits(alphabet, url) && BitsFit(bits) && s != [] && s[0] == CharOf(url, v)
    ensures Suits(next, url)
    ensures Decoded(s, alphabet, behavior, last, bits)
            == if bits == 0 then Decoded(s[1..], next, behavior, v, 6)
               else Prepend([Combine(last, v, bits)], Decoded(s[1..], next, behavior, v, bits - 2))
  {
    hide CharOf, ValueOf;
    ValueOfChar(alphabet, url, v);
    next := ValueOf(alphabet, CharOf(url, v)).value.alphabet;
  }

  /** A full group in front of more text. */
  lemma DecodeGroup(x: Bytes, url: bool, s: Bytes, alphabet: Alphabet, behavior: Behavior, last: bv8)
    returns (next: Alphabet, v: bv8)
    requires |x| >= 3 && Suits(alphabet, url) && |s| >= 4 && s[..4] == Group(x, url)
    ensures Suits(next, url)
    ensures Decoded(s, alphabet, behavior, last, 0) == Prepend(x[..3], Decoded(s[4..], next, behavior, v, 0))
  {
    hide CharOf, First, Second, Third, Fourth, Combine, Decoded, ValueOf;
    GroupBits(x[0], x[1], x[2]);
    var v0, v1, v2, v3 := First(x[0]), Second(x[0], x[1]), Third(x[1], x[2]), Fourth(x[2]);
    assert forall i :: 0 <= i < 4 ==> s[i] == s[..4][i];
    var a0 := DecodeOne(url, v0, s, alphabet, behavior, last, 0);
    var a1 := DecodeOne(url, v1, s[1..], a0, behavior, v0, 6);
    var a2 := DecodeOne(url, v2, s[1..][1..], a1, behavior, v1, 4);
    next := DecodeOne(url, v3, s[1..][1..][1..], a2, behavior, v2, 2);
    v := v3;
    assert s[1..][1..][1..][1..] == s[4..];
    var rest := Decoded(s[4..], next, behavior, v3, 0);
    PrependTwice([x[1]], [x[2]], rest);
    PrependTwice([x[0]], [x[1]] + [x[2]], rest);
    assert x[..3] == [x[0]] + ([x[1]] + [x[2]]);
  }

  /** A padded last group. */
  lemma DecodeShortGroup(x: Bytes, url: bool, alphabet: Alphabet, behavior: Behavior, last: bv8)
    requires 1 <= |x| <= 2 && Suits(alphabet, url)
    ensures Decoded(Group(x, url), alphabet, behavior, last, 0) == Ok(x)
  {
    hide CharOf, First, Second, Third, Fourth, Combine, ValueOf, Decoded;
    var s := Group(x, url);
    var x1: bv8 := if |x| == 2 then x[1] else 0;
    GroupBits(x[0], x1, 0);
    var v0, v1, v2 := First(x[0]), Second(x[0], x1), Third(x1, 0);
    var a0 := DecodeOne(url, v0, s, alphabet, behavior, last, 0);
    var a1 := DecodeOne(url, v1, s[1..], a0, behavior, v0, 6);
    var t := s[1..][1..];
    if |x| == 1 {
      assert t == [PAD, PAD];
      AtPads(t, a1, behavior, v1, 4);
      assert [x[0]] + [] == x;
    } else {
      var a2 := DecodeOne(url, v2, t, a1, behavior, v1, 4);
      assert t[1..] == [PAD];
      AtPads(t[1..], a2, behavior, v2, 2);
      assert [x[0]] + ([x[1]] + []) == x;
    }
  }

  lemma AtPads(s: Bytes, alphabet: Alphabet, behavior: Behavior, last: bv8, bits: nat)
    requires BitsFit(bits) && OnlyPads(s)
    ensures Decoded(s, alphabet, behavior, last, bits) == Ok([])
  {
    if s != [] { assert s[0] == PAD; }
  }

  lemma {:induction false} DecodeEncoded(x: Bytes, url: bool, alphabet: Alphabet, behavior: Behavior, last: bv8)
    requires Suits(alphabet, url)
    ensures Decoded(Encoded(x, url), alphabet, behavior, last, 0) == Ok(x)
    decreases |x|
  {
    hide Decoded, Group;
    var s := Encoded(x, url);
    if x == [] {
      AtPads(s, alphabet, behavior, last, 0);
    } else if |x| <= 2 {
      assert x[Min(3, |x|)..] == [];
      assert Encoded([], url) == [] && Group(x, url) + [] == Group(x, url);
      DecodeShortGroup(x, url, alphabet, behavior, last);
    } else {
      var next, v := DecodeGroup(x, url, s, alphabet, behavior, last);
      assert s[4..] == Encoded(x[3..], url);
      DecodeEncoded(x[3..], url, next, behavior, v);
      assert x[..3] + x[3..] == x;
    }
  }

  /** Decoding undoes encoding, under the alphabet used and under detection, strict or not. */
  lemma RoundTrip(x: Bytes, alphabet: Alphabet, behavior: Behavior)
    requires alphabet != AutoDetect
    ensures Decode(Encoded(x, alphabet == UrlSafe), alphabet, behavior) == Ok(x)
    ensures Decode(Encoded(x, alphabet == UrlSafe), AutoDetect, behavior) == Ok(x)
  {
    DecodeEncoded(x, alphabet == UrlSafe, alphabet, behavior, 0);
    DecodeEncoded(x, alphabet == UrlSafe, AutoDetect, behavior, 0);
  }

  // ---------------------------------------------------------------- detection

  lemma OneError(r: Result<Bytes, Invalid>)
    ensures r.Err? ==> r == Err(InvalidCharacter)
  {
    if r.Err? {
      match r.error { case InvalidCharacter => }
    }
  }

  lemma {:induction false} DetectionAgrees(s: Bytes, behavior: Behavior, last: bv8, bits: nat)
    requires BitsFit(bits)
    ensures Decoded(s, AutoDetect, behavior, last, bits)
            == if Decoded(s, Standard, behavior, last, bits).Ok? then Decoded(s, Standard, behavior, last, bits)
               else Decoded(s, UrlSafe, behavior, last, bits)
    decreases |s|
  {
    OneError(Decoded(s, AutoDetect, behavior, last, bits));
    OneError(Decoded(s, UrlSafe, behavior, last, bits));
    if s != [] && s[0] != PAD {
      hide Combine;
      var v := ValueOf(AutoDetect, s[0]);
      if v.Some? && v.value.alphabet == AutoDetect {
        DetectionAgrees(s[1..], behavior, v.value.value, if bits == 0 then 6 else bits - 2);
      }
    }
  }

  /** Detection accepts what one of the fixed alphabets accepts, with the same result. */
  lemma AutoIsEither(s: Bytes, behavior: Behavior)
    ensures Decode(s, AutoDetect, behavior)
            == if Decode(s, Standard, behavior).Ok? then Decode(s, Standard, behavior) else Decode(s, UrlSafe, behavior)
  {
    DetectionAgrees(s, behavior, 0, 0);
  }

  lemma {:induction false} ForeignRejected(
    s: Bytes, alphabet: Alphabet, behavior: Behavior, last: bv8, bits: nat, i: nat)
    requires BitsFit(bits) && i < DataLength(s) && ValueOf(alphabet, s[i]).None? && alphabet != AutoDetect
    ensures Decoded(s, alphabet, behavior, last, bits).Err?
    decreases |s|
  {
    if i > 0 && ValueOf(alphabet, s[0]).Some? {
      var v := ValueOf(alphabet, s[0]).value;
      ForeignRejected(s[1..], v.alphabet, behavior, v.value, if bits == 0 then 6 else bits - 2, i - 1);
    }
  }

  /** A text that mixes the special characters of both alphabets is rejected. */
  lemma MixtureRejected(s: Bytes, behavior: Behavior, i: nat, j: nat)
    requires i < DataLength(s) && j < DataLength(s)
    requires (s[i] == PLUS || s[i] == SLASH) && (s[j] == MINUS || s[j] == UNDERSCORE)
    ensures Decode(s, AutoDetect, behavior).Err?
  {
    ForeignRejected(s, Standard, behavior, 0, 0, j);
    ForeignRejected(s, UrlSafe, behavior, 0, 0, i);
    AutoIsEither(s, behavior);
  }

  // ---------------------------------------------------------------- other texts

  /** Padding is all that follows the data, or nothing is asked of what follows it. */
  predicate EndsWell(s: Bytes, behavior: Behavior) { behavior == Loose || OnlyPads(s[DataLength(s)..]) }

  lemma {:induction false} DecodedOkIff(s: Bytes, alphabet: Alphabet, behavior: Behavior, last: bv8, bits: nat)
    requires BitsFit(bits) && alphabet != AutoDetect
    ensures Decoded(s, alphabet, behavior, last, bits).Ok? <==>
            EndsWell(s, behavior) && forall i :: 0 <= i < DataLength(s) ==> ValueOf(alphabet, s[i]).Some?
    decreases |s|
  {
    hide Combine;
    if s != [] && s[0] != PAD {
      assert s[1..][DataLength(s) - 1..] == s[DataLength(s)..];
      assert forall i :: 1 <= i < |s| ==> s[i] == s[1..][i - 1];
      var v := ValueOf(alphabet, s[0]);
      if v.Some? {
        DecodedOkIff(s[1..], v.value.alphabet, behavior, v.value.value, if bits == 0 then 6 else bits - 2);
      }
    } else if s != [] {
      assert s[0..] == s && (OnlyPads(s) <==> OnlyPads(s[1..]));
    }
  }

  /** Under a fixed alphabet a text is decoded exactly if the characters in front of its padding are of that
      alphabet, and, unless that does not matter, nothing but padding follows. */
  lemma DecodeOkIff(s: Bytes, alphabet: Alphabet, behavior: Behavior)
    requires alphabet != AutoDetect
    ensures Decode(s, alphabet, behavior).Ok? <==>
            EndsWell(s, behavior) && forall i :: 0 <= i < DataLength(s) ==> ValueOf(alphabet, s[i]).Some?
  {
    DecodedOkIff(s, alphabet, behavior, 0, 0);
  }

  lemma {:induction false} DecodedGrows(
    s: Bytes, t: Bytes, alphabet: Alphabet, behavior: Behavior, last: bv8, bits: nat)
    requires BitsFit(bits) && s <= t && DataLength(s) == |s| && Decoded(t, alphabet, behavior, last, bits).Ok?
    ensures Decoded(s, alphabet, behavior, last, bits).Ok?
    ensures Decoded(s, alphabet, behavior, last, bits).value <= Decoded(t, alphabet, behavior, last, bits).value
    decreases |s|
  {
    hide Combine, ValueOf;
    if s != [] {
      var v := ValueOf(alphabet, s[0]).value;
      DecodedGrows(s[1..], t[1..], v.alphabet, behavior, v.value, if bits == 0 then 6 else bits - 2);
    }
  }

  /** A text cut off in its data is decoded to the beginning of the bytes: those of which all bits are there. */
  lemma CutTextDecodes(s: Bytes, x: Bytes, url: bool, behavior: Behavior)
    requires s <= Encoded(x, url) && DataLength(s) == |s|
    ensures 3 * |s| / 4 <= |x|
    ensures Decode(s, if url then UrlSafe else Standard, behavior) == Ok(x[..3 * |s| / 4])
    ensures Decode(s, AutoDetect, behavior) == Ok(x[..3 * |s| / 4])
  {
    hide Decoded, Encoded;
    var alphabet := if url then UrlSafe else Standard;
    RoundTrip(x, alphabet, behavior);
    DecodedGrows(s, Encoded(x, url), alphabet, behavior, 0, 0);
    DecodedGrows(s, Encoded(x, url), AutoDetect, behavior, 0, 0);
    DecodeSize(s, alphabet, behavior);
    DecodeSize(s, AutoDetect, behavior);
    BeginningIs(Decode(s, alphabet, behavior).value, x);
    BeginningIs(Decode(s, AutoDetect, behavior).value, x);
  }

  lemma BeginningIs(a: Bytes, x: Bytes)
    requires a <= x
    ensures a == x[..|a|]
  {
  }
}
