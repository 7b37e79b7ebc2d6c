/**
  Character classes of the HTTP parser, in strict mode. A `string` stands for a run of bytes; the
  classes treat every code above 127 the way the C tables treat bytes 128 to 255.
 */
module HttpChars {

  const CR := '\r'
  const LF := '\n'
  const NUL := '\0'

  // `c | 0x20`
  function LowerBit(c: char): char {
    if c as int < 256 && (c as int / 32) % 2 == 0 then (c as int + 32) as char else c
  }

  predicate IsNum(c: char) { '0' <= c <= '9' }

  predicate IsAlpha(c: char) { 'a' <= LowerBit(c) <= 'z' }

  predicate IsAlphaNum(c: char) { IsAlpha(c) || IsNum(c) }

  predicate IsHex(c: char) { IsNum(c) || 'a' <= LowerBit(c) <= 'f' }

  predicate IsMark(c: char) { c in "-_.!~*'()" }

  predicate IsUserinfoChar(c: char) { IsAlphaNum(c) || IsMark(c) || c in "%;:&=+$," }

  predicate IsHostChar(c: char) { IsAlphaNum(c) || c == '.' || c == '-' }

  // The bitmap `normal_url_char`: visible ASCII without '#' and '?'.
  predicate IsUrlChar(c: char) { '!' <= c <= '~' && c != '#' && c != '?' }

  predicate IsHeaderChar(c: char) {
    c == CR || c == LF || c == '\t' || (' ' <= c && c as int != 127)
  }

  // The table `tokens`: the lower-cased token character, or NUL for a character outside tokens.
  function Token(c: char): char {
    if 'A' <= c <= 'Z' then (c as int + 32) as char
    else if 'a' <= c <= 'z' || IsNum(c) || c in "!#$%&'*+-.^_`|~" then c
    else NUL
  }

  function DigitValue(c: char): (d: nat)
    requires IsNum(c)
    ensures d < 10
  {
    c as int - '0' as int
  }

  // The table `unhex`. Only its first 128 entries are written out, so the others are zero: a byte
  // above 127 counts as the digit 0.
  function Unhex(c: char): (v: int)
    ensures -1 <= v < 16
  {
    if IsNum(c) then c as int - '0' as int
    else if 'a' <= c <= 'f' then c as int - 'a' as int + 10
    else if 'A' <= c <= 'F' then c as int - 'A' as int + 10
    else if c as int < 128 then -1
    else 0
  }
}
