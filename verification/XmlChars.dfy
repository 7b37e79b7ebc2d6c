/**
  How Mini-XML reads characters from a string and adds them to its buffers: UTF-8 in both
  directions.
 */
module XmlChars {
  import opened Text

  const TAB := 9
  const NEWLINE := 10
  const RETURN := 13
  const BOM := 0xFEFF

  // `mxml_bad_char`
  predicate BadChar(ch: int) { ch < 32 && ch != NEWLINE && ch != RETURN && ch != TAB }

  // `mxml_isspace`
  predicate IsSpace(ch: nat) { ch == 32 || ch == TAB || ch == RETURN || ch == NEWLINE }

  // One call of `mxml_string_getc`: a character, an error, which reads as the end of the file, or a
  // byte order mark, which is skipped; and how many bytes it takes.
  datatype Got = Char(cp: nat) | Invalid | Skipped

  predicate IsTail(s: string, i: nat) { i < |s| && 0x80 <= s[i] as int < 0xC0 }

  function Six(s: string, i: nat): (n: nat)
    requires IsTail(s, i)
    ensures n < 64
  {
    s[i] as int - 0x80
  }

  function Checked(cp: nat, least: nat): Got {
    if cp < least then Invalid else if cp == BOM then Skipped else Char(cp)
  }

  function Next(s: string): (r: (Got, nat))
    requires s != ""
    ensures 1 <= r.1 <= |s|
  {
    var c := s[0] as int;
    if c < 0x80 then (if BadChar(c) then Invalid else Char(c), 1)
    else if 0xC0 <= c < 0xE0 && IsTail(s, 1) then (Checked((c - 0xC0) * 64 + Six(s, 1), 0x80), 2)
    else if 0xE0 <= c < 0xF0 && IsTail(s, 1) && IsTail(s, 2) then
      (Checked(((c - 0xE0) * 64 + Six(s, 1)) * 64 + Six(s, 2), 0x800), 3)
    else if 0xF0 <= c < 0xF8 && IsTail(s, 1) && IsTail(s, 2) && IsTail(s, 3) then
      (Checked((((c - 0xF0) * 64 + Six(s, 1)) * 64 + Six(s, 2)) * 64 + Six(s, 3), 0x10000), 4)
    else (Invalid, 1)
  }

  // What the calls give one after the other; none stands for an error.
  function Events(s: string): seq<Option<nat>> {
    if s == "" then []
    else
      var (got, n) := Next(s);
      match got
      case Char(cp) => [Some(cp)] + Events(s[n..])
      case Invalid => [None] + Events(s[n..])
      case Skipped => Events(s[n..])
  }

  function Byte(n: nat): char { (n % 256) as char }

  // `mxml_add_char`
  function Bytes(ch: nat): (r: string)
    ensures 1 <= |r| <= 4
  {
    if ch < 0x80 then [Byte(ch)]
    else if ch < 0x800 then [Byte(0xC0 + ch / 64), Byte(0x80 + ch % 64)]
    else if ch < 0x10000 then [Byte(0xE0 + ch / 4096), Byte(0x80 + ch / 64 % 64), Byte(0x80 + ch % 64)]
    else [Byte(0xF0 + ch / 262144 % 16), Byte(0x80 + ch / 4096 % 64), Byte(0x80 + ch / 64 % 64), Byte(0x80 + ch % 64)]
  }

  // A text of characters that can be read back: no bad byte and no byte order mark.
  predicate Clean(s: string) {
    s == "" || (Next(s).0.Char? && Clean(s[Next(s).1..]))
  }

  // A character that is complete is read without a look at what follows.
  lemma NextAhead(s: string, rest: string)
    requires s != "" && Next(s).0.Char?
    ensures Next(s + rest) == Next(s)
  {
    assert (s + rest)[0] == s[0];
    assert forall i: nat | i < |s| :: (s + rest)[i] == s[i];
  }

  lemma {:induction false} EventsConcat(s: string, rest: string)
    requires Clean(s)
    ensures Events(s + rest) == Events(s) + Events(rest)
  {
    if s == "" {
      assert s + rest == rest;
    } else {
      NextAhead(s, rest);
      var n := Next(s).1;
      assert (s + rest)[n..] == s[n..] + rest;
      EventsConcat(s[n..], rest);
    }
  }

  lemma EventsNext(s: string, rest: string)
    requires s != "" && Next(s).0.Char?
    ensures Events(s + rest) == [Some(Next(s).0.cp)] + Events(s[Next(s).1..] + rest)
  {
    NextAhead(s, rest);
    assert (s + rest)[Next(s).1..] == s[Next(s).1..] + rest;
  }

  // A character goes into the buffer as the bytes it was read from.
  lemma BytesBack(s: string)
    requires s != "" && Next(s).0.Char?
    ensures Bytes(Next(s).0.cp) == s[..Next(s).1]
  {
    hide Bytes;
    var c := s[0] as int;
    if c < 0x80 {
      OneByte(c);
      assert s[..1] == [s[0]];
    } else if c < 0xE0 {
      TwoBytes(c - 0xC0, Six(s, 1));
      assert s[..2] == [s[0], s[1]];
    } else if c < 0xF0 {
      ThreeBytes(c - 0xE0, Six(s, 1), Six(s, 2));
      assert s[..3] == [s[0], s[1], s[2]];
    } else {
      FourBytes(c - 0xF0, Six(s, 1), Six(s, 2), Six(s, 3));
      assert s[..4] == [s[0], s[1], s[2], s[3]];
    }
  }

  lemma OneByte(c: nat)
    requires c < 0x80
    ensures Bytes(c) == [c as char]
  {
  }

  lemma TwoBytes(a: nat, b: nat)
    requires a < 32 && b < 64 && 0x80 <= a * 64 + b
    ensures Bytes(a * 64 + b) == [(0xC0 + a) as char, (0x80 + b) as char]
  {
    Sixty(a, b);
  }

  lemma ThreeBytes(a: nat, b: nat, c: nat)
    requires a < 16 && b < 64 && c < 64 && 0x800 <= (a * 64 + b) * 64 + c
    ensures Bytes((a * 64 + b) * 64 + c) == [(0xE0 + a) as char, (0x80 + b) as char, (0x80 + c) as char]
  {
    Sixty(a, b);
    Sixty(a * 64 + b, c);
    Twice((a * 64 + b) * 64 + c);
  }

  lemma FourBytes(a: nat, b: nat, c: nat, d: nat)
    requires a < 8 && b < 64 && c < 64 && d < 64 && 0x10000 <= ((a * 64 + b) * 64 + c) * 64 + d
    ensures Bytes(((a * 64 + b) * 64 + c) * 64 + d)
         == [(0xF0 + a) as char, (0x80 + b) as char, (0x80 + c) as char, (0x80 + d) as char]
  {
    FourParts(a, b, c, d);
  }

  lemma FourParts(a: nat, b: nat, c: nat, d: nat)
    requires a < 8 && b < 64 && c < 64 && d < 64
    ensures
      var n := ((a * 64 + b) * 64 + c) * 64 + d;
      n / 262144 == a && n / 4096 % 64 == b && n / 64 % 64 == c && n % 64 == d
  {
    var x := a * 64 + b;
    var y := x * 64 + c;
    var n := y * 64 + d;
    Sixty(a, b);
    Sixty(x, c);
    Sixty(y, d);
    Twice(n);
    Thrice(n);
  }

  lemma Sixty(a: nat, b: nat)
    requires b < 64
    ensures (a * 64 + b) / 64 == a && (a * 64 + b) % 64 == b
  {
  }

  lemma Twice(n: nat)
    ensures n / 4096 == n / 64 / 64
  {
  }

  lemma Thrice(n: nat)
    ensures n / 262144 == n / 64 / 64 / 64
  {
  }

  // Plain characters: what is written of names and tags.
  predicate Plain(c: char) { ' ' <= c && c as int < 0x80 }

  lemma PlainEvent(c: char, s: string)
    requires Plain(c) || IsSpace(c as int)
    ensures Events([c] + s) == [Some(c as int)] + Events(s)
    ensures Bytes(c as int) == [c]
  {
    assert ([c] + s)[1..] == s;
  }

  lemma {:induction false} PlainIsClean(s: string)
    requires forall c <- s :: Plain(c)
    ensures Clean(s)
  {
    if s != "" {
      assert s[0] in s;
      PlainIsClean(s[1..]);
    }
  }
}
