/** Strings as the JSON library prints them (`dump_escaped` in nlohmann's json.hpp). */
module JsonStrings {
  function HexDigit(n: nat): char
    requires n < 16
  {
    if n < 10 then '0' + n as char else 'a' + (n - 10) as char
  }

  /** A character as the JSON library prints it inside a string. */
  function EscapeChar(c: char): string {
    if c == '"' then "\\\""
    else if c == '\\' then "\\\\"
    else if c == '\n' then "\\n"
    else if c == '\r' then "\\r"
    else if c == '\t' then "\\t"
    else if c == 8 as char then "\\b"
    else if c == 12 as char then "\\f"
    else if c < ' ' then "\\u00" + [HexDigit(c as int / 16), HexDigit(c as int % 16)]
    else [c]
  }

  function Escaped(s: string): string
    decreases |s|
  {
    if s == "" then "" else Escaped(s[..|s| - 1]) + EscapeChar(s[|s| - 1])
  }

  /** The printed text without its closing quote. */
  function DumpOpen(s: string): string { "\"" + Escaped(s) }

  function Dump(s: string): string { DumpOpen(s) + "\"" }

  lemma {:induction false} EscapedPrefix(s: string, t: string)
    requires s <= t
    ensures Escaped(s) <= Escaped(t)
    decreases |t|
  {
    if s != t { EscapedPrefix(s, t[..|t| - 1]); }
  }
}
