/**
  UTF-8, RFC 3629 section 3, and the surrogate pairs of UTF-16, RFC 2781 section 2, on code points
  as natural numbers and bytes as characters below 256.
 */
module Utf8 {
  import opened Text

  predicate Surrogate(cp: nat) { 0xD800 <= cp <= 0xDFFF }

  predicate CodePoint(cp: nat) { cp <= 0x10FFFF && !Surrogate(cp) }

  function Byte(n: nat): char
    requires n < 256
  {
    n as char
  }

  function Tail(n: nat): char { Byte(0x80 + n % 64) }

  // One to four bytes, by the size of the code point.
  function Encode(cp: nat): (r: string)
    requires cp <= 0x10FFFF
    ensures 1 <= |r| <= 4
  {
    if cp < 0x80 then [Byte(cp)]
    else if cp < 0x800 then [Byte(0xC0 + cp / 64), Tail(cp)]
    else if cp < 0x10000 then [Byte(0xE0 + cp / 4096), Tail(cp / 64), Tail(cp)]
    else [Byte(0xF0 + cp / 262144), Tail(cp / 4096), Tail(cp / 64), Tail(cp)]
  }

  predicate IsTail(c: char) { 0x80 <= c as int < 0xC0 }

  function Low(c: char): nat
    requires IsTail(c)
  {
    c as int - 0x80
  }

  // The first code point of a UTF-8 text and its size. Overlong forms, surrogates and code points
  // above 10FFFF are no characters.
  function Decode(s: string): (r: Option<(nat, nat)>)
    ensures r.Some? ==> CodePoint(r.value.0) && 1 <= r.value.1 <= |s|
  {
    if s == "" then None
    else
      var b := s[0] as int;
      if b < 0x80 then Some((b, 1))
      else if 0xC2 <= b < 0xE0 && |s| >= 2 && IsTail(s[1]) then
        Some(((b - 0xC0) * 64 + Low(s[1]), 2))
      else if 0xE0 <= b < 0xF0 && |s| >= 3 && IsTail(s[1]) && IsTail(s[2]) then
        var cp := (b - 0xE0) * 4096 + Low(s[1]) * 64 + Low(s[2]);
        if cp >= 0x800 && !Surrogate(cp) then Some((cp, 3)) else None
      else if 0xF0 <= b < 0xF5 && |s| >= 4 && IsTail(s[1]) && IsTail(s[2]) && IsTail(s[3]) then
        var cp := (b - 0xF0) * 262144 + Low(s[1]) * 4096 + Low(s[2]) * 64 + Low(s[3]);
        if 0x10000 <= cp <= 0x10FFFF then Some((cp, 4)) else None
      else None
  }

  // The groups of six bits.
  lemma Groups(cp: nat)
    ensures cp == cp / 64 * 64 + cp % 64
    ensures cp / 64 == cp / 4096 * 64 + cp / 64 % 64
    ensures cp / 4096 == cp / 262144 * 64 + cp / 4096 % 64
  {
  }

  lemma LowTail(n: nat)
    ensures IsTail(Tail(n)) && Low(Tail(n)) == n % 64
  {
  }

  /** Every code point can be read back. */
  lemma DecodeEncode(cp: nat, rest: string)
    requires CodePoint(cp)
    ensures Decode(Encode(cp) + rest) == Some((cp, |Encode(cp)|))
  {
    Groups(cp);
    LowTail(cp);
    LowTail(cp / 64);
    LowTail(cp / 4096);
    hide IsTail, Tail, Low;
  }

  // The code point of a surrogate pair.
  function FromPair(high: nat, low: nat): (cp: nat)
    requires 0xD800 <= high <= 0xDBFF && 0xDC00 <= low <= 0xDFFF
    ensures 0x10000 <= cp <= 0x10FFFF
  {
    0x10000 + (high - 0xD800) * 0x400 + (low - 0xDC00)
  }
}
