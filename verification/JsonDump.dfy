/**
  What the JSON library prints for a syntax tree: `parse` into an ordered map, then `dump` without
  blanks and in ASCII. Numbers go through a printer of which nothing is assumed.
  */
module JsonDump {
  import opened Base
  import opened JsonStrings
  import opened JsonGrammar
  import T = JsonText

  /** A Unicode code point. */
  type Code = n: int | 0 <= n < 0x11_0000

  /** From the text of a number to the number as it is printed. */
  type Printer = string -> string

  // ---------------------------------------------------------------- strings

  function HexDigitValue(c: char): (n: nat)
    requires T.IsHex(c)
    ensures n < 16
  {
    if IsDigit(c) then c as int - '0' as int
    else if 'a' <= c <= 'f' then c as int - 'a' as int + 10
    else c as int - 'A' as int + 10
  }

  /** The number of four hexadecimal digits. */
  function HexNumber(h: string): (n: nat)
    requires AllHex(h)
    ensures n < 0x1_0000
  {
    0x1000 * HexDigitValue(h[0]) + 0x100 * HexDigitValue(h[1]) + 0x10 * HexDigitValue(h[2]) + HexDigitValue(h[3])
  }

  /** The code point of a surrogate pair. */
  function PairNumber(high: string, low: string): Code
    requires IsHigh(high) && IsLow(low)
  {
    SurrogateRange(high, low);
    0x1_0000 + 0x400 * (HexNumber(high) - 0xD800) + (HexNumber(low) - 0xDC00)
  }

  lemma SurrogateRange(high: string, low: string)
    requires IsHigh(high) && IsLow(low)
    ensures 0xD800 <= HexNumber(high) < 0xDC00 <= HexNumber(low) < 0xE000
  {
  }

  /** The character behind a backslash. */
  function ShortCode(c: char): Code {
    match c
    case 'b' => 8
    case 'f' => 12
    case 'n' => 10
    case 'r' => 13
    case 't' => 9
    case _ => c as int
  }

  function CodeOf(u: Unit): Code
    requires ValidUnit(u)
  {
    match u
    case Char(c) => c as int
    case Short(c) => ShortCode(c)
    case Code(hex) => HexNumber(hex)
    case Pair(high, low) => PairNumber(high, low)
  }

  function CodesOf(us: seq<Unit>): seq<Code>
    requires ValidUnits(us)
  {
    seq(|us|, i requires 0 <= i < |us| => CodeOf(us[i]))
  }

  /** `\u%04x`. */
  function Hex4(n: nat): (r: string)
    requires n < 0x1_0000
    ensures |r| == 6
  {
    ['\\', 'u', HexDigit(n / 0x1000), HexDigit(n / 0x100 % 0x10), HexDigit(n / 0x10 % 0x10), HexDigit(n % 0x10)]
  }

  /** One code point in ASCII. */
  function DumpCode(n: Code): string {
    if n < 0x7F then EscapeChar(n as char)
    else if n <= 0xFFFF then Hex4(n)
    else Hex4(0xD7C0 + n / 0x400) + Hex4(0xDC00 + n % 0x400)
  }

  function DumpCodes(cs: seq<Code>): string {
    if cs == [] then "" else DumpCodes(cs[..|cs| - 1]) + DumpCode(cs[|cs| - 1])
  }

  function Quoted(cs: seq<Code>): string { ['"'] + DumpCodes(cs) + ['"'] }

  // ---------------------------------------------------------------- containers

  /** A member that is printed as `text` behind its key. */
  datatype Entry = Entry(key: seq<Code>, text: string)

  function EntryText(e: Entry): string { Quoted(e.key) + [':'] + e.text }

  function EntryTexts(es: seq<Entry>): (r: seq<string>)
    ensures |r| == |es|
  {
    seq(|es|, i requires 0 <= i < |es| => EntryText(es[i]))
  }

  function Join(xs: seq<string>): string {
    if xs == [] then ""
    else if |xs| == 1 then xs[0]
    else Join(xs[..|xs| - 1]) + [','] + xs[|xs| - 1]
  }

  function ArrayText(items: seq<string>): string { ['['] + Join(items) + [']'] }

  function ObjectText(es: seq<Entry>): string { ['{'] + Join(EntryTexts(es)) + ['}'] }

  /** The position of a key, or the end. */
  function Place(es: seq<Entry>, key: seq<Code>): (p: nat)
    ensures p <= |es| && (p < |es| ==> es[p].key == key)
    ensures forall i :: 0 <= i < p ==> es[i].key != key
  {
    if es == [] then 0
    else if es[0].key == key then 0
    else 1 + Place(es[1..], key)
  }

  /** Assigning to a key of an ordered map keeps the place of the key. */
  function Put(es: seq<Entry>, key: seq<Code>, text: string): seq<Entry> {
    var p := Place(es, key);
    if p < |es| then es[p := Entry(key, text)] else es + [Entry(key, text)]
  }

  // ---------------------------------------------------------------- trees

  function Dumped(v: Value, f: Printer): string
    requires ValidValue(v)
    decreases v
  {
    match v
    case Literal(name) => name
    case Number(_, _, _, _) => f(Write(v))
    case Text(units) => Quoted(CodesOf(units))
    case Array(_, elems) => ArrayText(DumpedElems([], elems, f))
    case Object(_, members) => ObjectText(DumpedMembers([], members, f))
  }

  /** The elements, behind those that are printed already. */
  function DumpedElems(items: seq<string>, es: Elems, f: Printer): seq<string>
    requires ValidElems(es)
    decreases es
  {
    if es.NoElems? then items else DumpedElems(items + [Dumped(es.value, f)], es.rest, f)
  }

  function DumpedMembers(entries: seq<Entry>, ms: Members, f: Printer): seq<Entry>
    requires ValidMembers(ms)
    decreases ms
  {
    if ms.NoMembers? then entries
    else DumpedMembers(Put(entries, CodesOf(ms.key), Dumped(ms.value, f)), ms.others, f)
  }
}
