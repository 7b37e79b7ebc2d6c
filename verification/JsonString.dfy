/**
  JSON strings in cJSON: `print_string_ptr` and `parse_string`, with their buffers.
 */
module JsonString {
  import opened Text
  import opened JsonText
  import Utf8

  // ---- Printing.

  // The escaped text, written from `at` on, with the quotes and the terminating NUL.
  method WriteQuoted(out: array<char>, at: nat, str: string)
    requires NoNul(str) && at + |Quote(str)| < out.Length
    modifies out
    ensures out[..at + |Quote(str)|] == old(out[..at]) + Quote(str)
    ensures out[at + |Quote(str)|] == '\0'
    ensures out[at + |Quote(str)| + 1..] == old(out[at + |Quote(str)| + 1..])
  {
    hide Escape, EscapeChar;
    ghost var done, end := out[..at] + ['\"'], at + |Quote(str)|;
    out[at] := '\"';
    var ptr2 := at + 1;
    EscapeNothing(str);
    for ptr := 0 to |str|
      invariant ptr2 == at + 1 + |Escape(str[..ptr])| < end == at + 2 + |Escape(str)|
      invariant out[..ptr2] == done + Escape(str[..ptr])
      invariant out[end + 1..] == old(out[end + 1..])
    {
      EscapeSnoc(str, ptr);
      EscapePrefix(str, ptr + 1);
      assert str[ptr] in str;
      ptr2 := WriteEscaped(out, ptr2, str[ptr], end + 1);
    }
    assert str[..|str|] == str;
    out[ptr2], out[ptr2 + 1] := '\"', '\0';
    assert out[..end] == done + Escape(str) + ['\"'];
  }

  lemma EscapeNothing(s: string)
    ensures Escape(s[..0]) == ""
  {
  }

  // One byte of the string, escaped if it has to be.
  method WriteEscaped(out: array<char>, at: nat, c: char, ghost end: nat) returns (next: nat)
    requires c != '\0' && at + |EscapeChar(c)| <= end <= out.Length
    modifies out
    ensures next == at + |EscapeChar(c)|
    ensures out[..next] == old(out[..at]) + EscapeChar(c)
    ensures out[end..] == old(out[end..])
  {
    if c > '\U{1F}' && c != '\"' && c != '\\' {
      out[at] := c;
      next := at + 1;
    } else {
      out[at] := '\\';
      if c == '\\' || c == '\"' {
        out[at + 1] := c;
        next := at + 2;
      } else if c as int == 8 {
        out[at + 1] := 'b';
        next := at + 2;
      } else if c as int == 12 {
        out[at + 1] := 'f';
        next := at + 2;
      } else if c == '\n' {
        out[at + 1] := 'n';
        next := at + 2;
      } else if c == '\r' {
        out[at + 1] := 'r';
        next := at + 2;
      } else if c == '\t' {
        out[at + 1] := 't';
        next := at + 2;
      } else {
        // sprintf("u%04x")
        out[at + 1], out[at + 2], out[at + 3] := 'u', '0', '0';
        out[at + 4], out[at + 5] := Hex(c as int / 16), Hex(c as int % 16);
        next := at + 6;
      }
    }
  }

  lemma {:induction false} EscapeSnoc(s: string, n: nat)
    requires n < |s|
    ensures Escape(s[..n + 1]) == Escape(s[..n]) + EscapeChar(s[n])
    decreases |s|
  {
    if n == 0 {
      assert s[..1][1..] == "" && s[..1][0] == s[0];
      assert Escape(s[..1]) == EscapeChar(s[0]) + "";
    } else {
      assert s[..n + 1][1..] == s[1..][..n] && s[..n][1..] == s[1..][..n - 1];
      EscapeSnoc(s[1..], n - 1);
    }
  }

  lemma {:induction false} EscapePrefix(s: string, n: nat)
    requires n <= |s|
    ensures |Escape(s[..n])| <= |Escape(s)|
    decreases |s| - n
  {
    if n == |s| {
      assert s[..n] == s;
    } else {
      EscapeSnoc(s, n);
      EscapePrefix(s, n + 1);
    }
  }

  // The length count of `print_string_ptr` before it allocates: exact.
  method EscapedLength(str: string) returns (len: nat)
    requires NoNul(str)
    ensures len == |Escape(str)|
  {
    len := 0;
    assert str[..0] == "";
    for i := 0 to |str|
      invariant len == |Escape(str[..i])|
    {
      EscapeSnoc(str, i);
      assert str[i] in str;
      var token := str[i];
      len := len + 1;
      if token == '\"' || token == '\\' || token as int == 8 || token as int == 12 || token == '\n'
         || token == '\r' || token == '\t' {
        len := len + 1;
      } else if token < ' ' {
        len := len + 5;
      }
    }
    assert str[..|str|] == str;
  }

  // `print_string_ptr` into memory of its own: the allocation fits to the byte.
  method PrintString(str: string) returns (out: array<char>)
    requires NoNul(str)
    ensures fresh(out) && out.Length == |Quote(str)| + 1
    ensures out[..|Quote(str)|] == Quote(str) && out[|Quote(str)|] == '\0'
  {
    var len := EscapedLength(str);
    out := new char[len + 3](_ => '\0');
    WriteQuoted(out, 0, str);
  }

  // ---- Parsing: what a string literal means.

  // The length of the literal's body: up to the closing quote or the end of the text; none if the
  // text ends in a backslash.
  function BodyLength(s: string): (r: Option<nat>)
    ensures r.Some? ==> r.value <= |s| && (r.value < |s| ==> s[r.value] == '\"')
  {
    if s == "" || s[0] == '\"' then Some(0)
    else if s[0] == '\\' then
      if |s| == 1 then None else match BodyLength(s[2..]) { case Some(n) => Some(n + 2) case None => None }
    else match BodyLength(s[1..]) { case Some(n) => Some(n + 1) case None => None }
  }

  // The count `len` of the first scan.
  function ItemCount(b: string): nat {
    if b == "" then 0 else 1 + ItemCount(if b[0] == '\\' && |b| >= 2 then b[2..] else b[1..])
  }

  function HexDigit(c: char): Option<nat> {
    if IsDigit(c) then Some(c as int - '0' as int)
    else if 'A' <= c <= 'F' then Some(10 + c as int - 'A' as int)
    else if 'a' <= c <= 'f' then Some(10 + c as int - 'a' as int)
    else None
  }

  // `parse_hex4`: 0 unless the text starts with four hexadecimal digits.
  function Hex4(s: string): (r: nat)
    ensures r < 0x10000
  {
    if |s| < 4 then 0
    else match (HexDigit(s[0]), HexDigit(s[1]), HexDigit(s[2]), HexDigit(s[3]))
      case (Some(a), Some(b), Some(c), Some(d)) =>
        assert a < 16 && b < 16 && c < 16 && d < 16;
        a * 4096 + b * 256 + c * 16 + d
      case _ => 0
  }

  // The character of a two-byte escape.
  function Simple(c: char): Option<char> {
    if c == 'b' then Some(8 as char)
    else if c == 'f' then Some(12 as char)
    else if c == 'n' then Some('\n')
    else if c == 'r' then Some('\r')
    else if c == 't' then Some('\t')
    else if c == '\"' || c == '\\' || c == '/' then Some(c)
    else None
  }

  // The code point of the escape `\uXXXX` or `\uXXXX\uXXXX` at the start of `b`, and its length.
  function UnicodeEscape(b: string): (r: Option<(nat, nat)>)
    ensures r.Some? ==> Utf8.CodePoint(r.value.0) && 6 <= r.value.1 <= |b| && r.value.0 != 0
    ensures r.Some? ==> r.value.1 == (if r.value.0 < 0x10000 then 6 else 12)
  {
    if |b| < 6 then None
    else
      var uc := Hex4(b[2..]);
      if uc == 0 || 0xDC00 <= uc <= 0xDFFF then None
      else if 0xD800 <= uc <= 0xDBFF then
        if |b| < 12 || b[6] != '\\' || b[7] != 'u' then None
        else
          var uc2 := Hex4(b[8..]);
          if uc2 < 0xDC00 || uc2 > 0xDFFF then None else Some((Utf8.FromPair(uc, uc2), 12))
      else Some((uc, 6))
  }

  // The bytes that a literal's body stands for.
  function Unescape(b: string): Option<string>
    decreases |b|
  {
    if b == "" then Some("")
    else if b[0] != '\\' then Put([b[0]], Unescape(b[1..]))
    else if |b| == 1 then None
    else if b[1] == 'u' then
      match UnicodeEscape(b)
      case Some(e) => Put(Utf8.Encode(e.0), Unescape(b[e.1..]))
      case None => None
    else
      match Simple(b[1])
      case Some(c) => Put([c], Unescape(b[2..]))
      case None => None
  }

  // `parse_string`: the value and the text behind the literal. A literal that is not closed ends at
  // the end of the text.
  function ParseString(s: string): (r: Option<(string, string)>)
    ensures r.Some? ==> |r.value.1| < |s|
  {
    if s == "" || s[0] != '\"' then None
    else
      match BodyLength(s[1..])
      case None => None
      case Some(n) =>
        match Unescape(s[1..n + 1])
        case None => None
        case Some(v) => Some((v, if n + 1 < |s| then s[n + 2..] else ""))
  }

  /** The first scan counts at least as many bytes as the string has. */
  lemma {:induction false} CountIsEnough(b: string)
    ensures Unescape(b).Some? ==> |Unescape(b).value| <= ItemCount(b)
    decreases |b|
  {
    hide UnicodeEscape, Simple;
    if b == "" {
    } else if b[0] != '\\' {
      CountIsEnough(b[1..]);
    } else if |b| > 1 && b[1] != 'u' {
      CountIsEnough(b[2..]);
    } else if |b| > 1 && UnicodeEscape(b).Some? {
      var n := UnicodeEscape(b).value.1;
      CountIsEnough(b[n..]);
      EscapeCount(b);
    }
  }

  lemma {:induction false} PlainCount(b: string, n: nat)
    requires n <= |b| && forall i :: 0 <= i < n ==> b[i] != '\\'
    ensures ItemCount(b) == n + ItemCount(b[n..])
  {
    if n == 0 {
      assert b[0..] == b;
    } else {
      PlainCount(b[1..], n - 1);
      assert b[1..][n - 1..] == b[n..];
    }
  }

  lemma HexIsPlain(s: string, i: nat)
    requires Hex4(s) != 0 && i < 4
    ensures i < |s| && s[i] != '\\' && s[i] != '\"'
  {
  }

  lemma EscapeCount(b: string)
    requires b != "" && b[0] == '\\' && UnicodeEscape(b).Some?
    ensures var n := UnicodeEscape(b).value.1; ItemCount(b) >= ItemCount(b[n..]) + (if n == 6 then 5 else 10)
  {
    hide Hex4;
    UnitCount(b);
    if UnicodeEscape(b).value.1 == 12 {
      assert b[6..][2..] == b[8..] && b[6..][6..] == b[12..];
      UnitCount(b[6..]);
    }
  }

  // A single unit counts for five.
  lemma UnitCount(b: string)
    requires |b| >= 6 && b[0] == '\\' && Hex4(b[2..]) != 0
    ensures ItemCount(b) == 5 + ItemCount(b[6..])
  {
    forall i | 0 <= i < 4 ensures b[2..][i] != '\\' {
      HexIsPlain(b[2..], i);
    }
    PlainCount(b[2..], 4);
    assert b[2..][4..] == b[6..];
  }

  // ---- Printing and parsing are inverse.

  lemma ControlBack(c: char, b: string)
    requires c != '\0' && |EscapeChar(c)| == 6
    ensures var e := EscapeChar(c);
      e[0] == '\\' && e[1] == 'u' && UnicodeEscape(e + b) == Some((c as nat, 6)) && Utf8.Encode(c as nat) == [c]
  {
    var e, n := EscapeChar(c), c as int;
    assert (e + b)[2..][..4] == ['0', '0', Hex(n / 16), Hex(n % 16)];
    assert Hex4((e + b)[2..]) == n;
  }

  lemma EscapeCharBack(c: char, b: string)
    requires c != '\0'
    ensures Unescape(EscapeChar(c) + b) == Put([c], Unescape(b))
  {
    var e := EscapeChar(c);
    if |e| == 1 {
      assert (e + b)[1..] == b;
    } else if |e| == 2 {
      assert (e + b)[2..] == b;
    } else {
      ControlBack(c, b);
      assert (e + b)[6..] == b;
      hide EscapeChar, UnicodeEscape;
    }
  }

  lemma {:induction false} EscapeBack(s: string)
    requires NoNul(s)
    ensures Unescape(Escape(s)) == Some(s)
  {
    hide EscapeChar;
    if s != "" {
      EscapeBack(s[1..]);
      EscapeCharBack(s[0], Escape(s[1..]));
      assert [s[0]] + s[1..] == s;
    }
  }

  lemma EscapeShape(c: char)
    ensures
      var e := EscapeChar(c);
      if |e| == 1 then e == [c] && c != '\"' && c != '\\'
      else |e| >= 2 && e[0] == '\\' && '\"' !in e[2..] && '\\' !in e[2..]
  {
  }

  lemma EscapedCharLength(c: char, rest: string)
    ensures BodyLength(EscapeChar(c) + rest)
         == match BodyLength(rest) case Some(n) => Some(n + |EscapeChar(c)|) case None => None
  {
    var e := EscapeChar(c);
    EscapeShape(c);
    hide EscapeChar;
    if |e| == 1 {
      assert (e + rest)[1..] == rest;
    } else {
      assert (e + rest)[2..] == e[2..] + rest;
      PlainLength(e[2..], rest);
    }
  }

  lemma {:induction false} PlainLength(p: string, rest: string)
    requires '\"' !in p && '\\' !in p
    ensures BodyLength(p + rest)
         == match BodyLength(rest) case Some(n) => Some(n + |p|) case None => None
  {
    if p == "" {
      assert p + rest == rest;
    } else {
      assert (p + rest)[1..] == p[1..] + rest;
      PlainLength(p[1..], rest);
    }
  }

  lemma {:induction false} EscapedLengthIs(s: string, rest: string)
    ensures BodyLength(Escape(s) + ['\"'] + rest) == Some(|Escape(s)|)
  {
    hide EscapeChar, BodyLength;
    if s == "" {
      assert Escape(s) + ['\"'] + rest == ['\"'] + rest;
      QuoteEnds(rest);
    } else {
      var tail := Escape(s[1..]) + ['\"'] + rest;
      assert Escape(s) + ['\"'] + rest == EscapeChar(s[0]) + tail;
      EscapedCharLength(s[0], tail);
      EscapedLengthIs(s[1..], rest);
    }
  }

  lemma QuoteEnds(rest: string)
    ensures BodyLength(['\"'] + rest) == Some(0)
  {
  }

  /** A printed string is parsed back, and nothing behind it is touched. */
  lemma StringRoundTrip(s: string, rest: string)
    requires NoNul(s)
    ensures ParseString(Quote(s) + rest) == Some((s, rest))
  {
    hide Unescape, BodyLength;
    var all, n := Quote(s) + rest, |Escape(s)|;
    assert all[1..] == Escape(s) + ['\"'] + rest;
    EscapedLengthIs(s, rest);
    EscapeBack(s);
    assert all[1..n + 1] == Escape(s) && all[n + 2..] == rest;
  }

  // ---- Every code point can be escaped.

  function HexWord(n: nat): (r: string)
    requires n < 0x10000
    ensures |r| == 4
  {
    [Hex(n / 4096), Hex(n / 256 % 16), Hex(n / 16 % 16), Hex(n % 16)]
  }

  lemma Nibbles(n: nat)
    requires n < 0x10000
    ensures n == n / 4096 * 4096 + n / 256 % 16 * 256 + n / 16 % 16 * 16 + n % 16
  {
    assert n / 16 == n / 256 * 16 + n / 16 % 16;
    assert n / 256 == n / 4096 * 16 + n / 256 % 16;
  }

  lemma HexOfDigits(a: nat, b: nat, c: nat, d: nat, rest: string)
    requires a < 16 && b < 16 && c < 16 && d < 16
    ensures Hex4([Hex(a), Hex(b), Hex(c), Hex(d)] + rest) == a * 4096 + b * 256 + c * 16 + d
  {
    HexDigitBack(a);
    HexDigitBack(b);
    HexDigitBack(c);
    HexDigitBack(d);
    hide Hex, HexDigit;
  }

  lemma HexBack(n: nat, rest: string)
    requires n < 0x10000
    ensures Hex4(HexWord(n) + rest) == n
  {
    hide Hex, Hex4;
    Nibbles(n);
    HexOfDigits(n / 4096, n / 256 % 16, n / 16 % 16, n % 16, rest);
  }

  lemma HexDigitBack(d: nat)
    requires d < 16
    ensures HexDigit(Hex(d)) == Some(d)
  {
  }

  // The `\u` escape of a code point, as a surrogate pair where UTF-16 needs one.
  function EscapeCodePoint(cp: nat): string
    requires Utf8.CodePoint(cp)
  {
    if cp < 0x10000 then "\\u" + HexWord(cp)
    else "\\u" + HexWord(0xD800 + (cp - 0x10000) / 0x400) + "\\u" + HexWord(0xDC00 + (cp - 0x10000) % 0x400)
  }

  /** The escape of any code point but 0 is read as the UTF-8 form of the code point. */
  lemma CodePointRoundTrip(cp: nat, b: string)
    requires Utf8.CodePoint(cp) && cp != 0
    ensures Unescape(EscapeCodePoint(cp) + b) == Put(Utf8.Encode(cp), Unescape(b))
  {
    hide Hex4, HexWord, Utf8.Encode;
    var all := EscapeCodePoint(cp) + b;
    if cp < 0x10000 {
      assert all[2..] == HexWord(cp) + b && all[6..] == b;
      HexBack(cp, b);
    } else {
      var high, low := 0xD800 + (cp - 0x10000) / 0x400, 0xDC00 + (cp - 0x10000) % 0x400;
      assert all[2..] == HexWord(high) + ("\\u" + HexWord(low) + b);
      assert all[8..] == HexWord(low) + b && all[12..] == b;
      HexBack(high, "\\u" + HexWord(low) + b);
      HexBack(low, b);
    }
  }

  // ---- Parsing into a buffer.

  // The first byte of a UTF-8 form of `len` bytes, without its bits: `firstByteMark`.
  function FirstByteMark(len: nat): nat
    requires 1 <= len <= 4
  {
    if len == 1 then 0 else if len == 2 then 0xC0 else if len == 3 then 0xE0 else 0xF0
  }

  // The code point is written from its last byte to its first, as the C switch falls through.
  method WriteUtf8(out: array<char>, at: nat, uc: nat) returns (next: nat)
    requires 0 < uc <= 0x10FFFF && at + |Utf8.Encode(uc)| <= out.Length
    modifies out
    ensures next == at + |Utf8.Encode(uc)| && out[..next] == old(out[..at]) + Utf8.Encode(uc)
    ensures out[next..] == old(out[next..])
  {
    var len := if uc < 0x80 then 1 else if uc < 0x800 then 2 else if uc < 0x10000 then 3 else 4;
    var u, p := uc, at + len;
    if len >= 4 {
      p := p - 1;
      out[p] := Utf8.Tail(u);
      u := u / 64;
    }
    if len >= 3 {
      p := p - 1;
      out[p] := Utf8.Tail(u);
      u := u / 64;
    }
    if len >= 2 {
      p := p - 1;
      out[p] := Utf8.Tail(u);
      u := u / 64;
    }
    p := p - 1;
    out[p] := Utf8.Byte(FirstByteMark(len) + u);
    next := p + len;
  }

  lemma BodyLengthStep(text: string, i: nat)
    requires i <= |text|
    ensures
      var r, c := BodyLength(text[i..]), ByteAt(text, i);
      if i == |text| || c == '\"' then r == Some(0)
      else if c == '\\' then
        if i + 1 == |text| then r == None
        else match BodyLength(text[i + 2..]) case Some(n) => r == Some(n + 2) case None => r == None
      else match BodyLength(text[i + 1..]) case Some(n) => r == Some(n + 1) case None => r == None
  {
    if i < |text| {
      assert text[i..][1..] == text[i + 1..];
      if i + 1 < |text| {
        assert text[i..][2..] == text[i + 2..];
      }
    }
  }

  lemma ItemCountStep(text: string, i: nat, end: nat)
    requires i < end <= |text|
    requires text[i] == '\\' ==> i + 2 <= end
    ensures ItemCount(text[i..end]) == 1 + ItemCount(text[i + (if text[i] == '\\' then 2 else 1)..end])
  {
    var b := text[i..end];
    assert b[1..] == text[i + 1..end];
    if text[i] == '\\' {
      assert b[2..] == text[i + 2..end];
    }
  }

  // The first scan: where the body ends and how much room it may need.
  method ScanBody(text: string, start: nat) returns (ok: bool, end: nat, len: nat)
    requires start <= |text| && NoNul(text)
    ensures ok <==> BodyLength(text[start..]).Some?
    ensures ok ==> end == start + BodyLength(text[start..]).value <= |text| && len == ItemCount(text[start..end])
  {
    hide BodyLength, ItemCount;
    end, len := start, 0;
    ghost var whole := BodyLength(text[start..]);
    ghost var to := if whole.Some? then start + whole.value else |text|;
    while ByteAt(text, end) != '\"' && ByteAt(text, end) != '\0'
      invariant start <= end <= |text|
      invariant whole == (match BodyLength(text[end..]) case Some(n) => Some(n + end - start) case None => None)
      invariant whole.Some? ==> end <= to && len + ItemCount(text[end..to]) == ItemCount(text[start..to])
      decreases |text| - end
    {
      BodyLengthStep(text, end);
      if whole.Some? {
        ItemCountStep(text, end, to);
      }
      len := len + 1;
      if text[end] == '\\' {
        end := end + 1;
        if ByteAt(text, end) == '\0' {
          if end < |text| {
            NotNul(text, end);
          }
          return false, end, len;
        }
        end := end + 1;
      } else {
        end := end + 1;
      }
    }
    BodyLengthStep(text, end);
    if end < |text| {
      NotNul(text, end);
    }
    NoItems(text, end);
    ok := true;
  }

  lemma NotNul(text: string, i: nat)
    requires i < |text| && NoNul(text)
    ensures ByteAt(text, i) != '\0'
  {
    assert text[i] in text;
  }

  lemma NoItems(text: string, i: nat)
    requires i <= |text|
    ensures ItemCount(text[i..i]) == 0
  {
  }

  // One item of the body that starts at `i` and ends at `end`: what it stands for and its length,
  // or none if it is malformed.
  function Item(text: string, i: nat, end: nat): (r: Option<(string, nat)>)
    requires i < end <= |text|
    ensures r.Some? ==> i + r.value.1 <= end && r.value.1 > 0
  {
    if text[i] != '\\' then Some(([text[i]], 1))
    else if i + 1 == end then None
    else if text[i + 1] == 'u' then
      match UnicodeEscape(text[i..end])
      case Some(e) => Some((Utf8.Encode(e.0), e.1))
      case None => None
    else
      match Simple(text[i + 1])
      case Some(c) => Some(([c], 2))
      case None => None
  }

  lemma UnescapeStep(text: string, i: nat, end: nat)
    requires i < end <= |text|
    ensures
      match Item(text, i, end)
      case None => Unescape(text[i..end]) == None
      case Some((v, n)) => Unescape(text[i..end]) == Put(v, Unescape(text[i + n..end]))
    ensures
      match Item(text, i, end)
      case None => true
      case Some((v, n)) => ItemCount(text[i..end]) >= |v| + ItemCount(text[i + n..end])
  {
    hide Simple, UnicodeEscape, Utf8.Encode;
    var b := text[i..end];
    assert b[1..] == text[i + 1..end];
    if i + 1 < end {
      assert b[2..] == text[i + 2..end];
    }
    if text[i] == '\\' && i + 1 < end && text[i + 1] == 'u' && UnicodeEscape(b).Some? {
      var n := UnicodeEscape(b).value.1;
      assert b[n..] == text[i + n..end];
      EscapeCount(b);
      EncodedSize(b);
    }
  }

  lemma EncodedSize(b: string)
    requires UnicodeEscape(b).Some?
    ensures |Utf8.Encode(UnicodeEscape(b).value.0)| <= (if UnicodeEscape(b).value.1 == 6 then 5 else 10)
  {
    hide Hex4;
  }

  // The bit pattern of the C code is the surrogate formula.
  lemma PairValue(high: nat, low: nat)
    requires 0xD800 <= high <= 0xDBFF && 0xDC00 <= low <= 0xDFFF
    ensures 0x10000 + (high % 0x400) * 0x400 + low % 0x400 == Utf8.FromPair(high, low)
  {
    assert high % 0x400 == high - 0xD800;
    assert low % 0x400 == low - 0xDC00;
  }

  // The second half of a surrogate pair; `at` is the last digit of the first half `high`.
  method PairAt(text: string, at: nat, end: nat, high: nat) returns (ok: bool, uc: nat)
    requires 5 <= at < end <= |text| && (ByteAt(text, end) == '\"' || end == |text|)
    requires 0xD800 <= high <= 0xDBFF
    ensures ok <==> at + 7 <= end && text[at + 1] == '\\' && text[at + 2] == 'u'
                    && 0xDC00 <= Hex4(text[at + 3..end]) <= 0xDFFF
    ensures ok ==> uc == Utf8.FromPair(high, Hex4(text[at + 3..end]))
  {
    hide Hex4, Utf8.FromPair;
    uc := high;
    if at + 6 > end {
      return false, uc;
    }
    if ByteAt(text, at + 1) != '\\' || ByteAt(text, at + 2) != 'u' {
      return false, uc;
    }
    SameHex(text, at + 3, end);
    var uc2 := Hex4(text[at + 3..]);
    if at + 6 == end {
      ShortHex(text[at + 3..end]);
    }
    if uc2 < 0xDC00 || uc2 > 0xDFFF {
      return false, uc;
    }
    PairValue(high, uc2);
    ok, uc := true, 0x10000 + (high % 0x400) * 0x400 + uc2 % 0x400;
  }

  lemma ShortHex(s: string)
    requires |s| < 4
    ensures Hex4(s) == 0
  {
  }

  // The `\u` escape at `ptr`, as the C code takes it apart. The text goes on behind the body, at
  // `end`, with a quote or its end.
  method UnicodeAt(text: string, ptr: nat, end: nat) returns (ok: bool, uc: nat, next: nat)
    requires ptr + 2 <= end <= |text| && text[ptr] == '\\' && text[ptr + 1] == 'u'
    requires ByteAt(text, end) == '\"' || end == |text|
    ensures ok <==> UnicodeEscape(text[ptr..end]).Some?
    ensures ok ==> UnicodeEscape(text[ptr..end]) == Some((uc, next - ptr)) && ptr < next
  {
    hide Hex4, Utf8.FromPair;
    SameHex(text, ptr + 2, end);
    assert text[ptr..end][2..] == text[ptr + 2..end];
    uc, next := Hex4(text[ptr + 2..]), ptr;
    var at := ptr + 5;
    if at >= end {
      return false, uc, next;
    }
    if (uc >= 0xDC00 && uc <= 0xDFFF) || uc == 0 {
      return false, uc, next;
    }
    ok, next := true, at + 1;
    if uc >= 0xD800 && uc <= 0xDBFF {
      assert at + 3 <= end ==> text[ptr..end][8..] == text[at + 3..end];
      ok, uc := PairAt(text, at, end, uc);
      next := at + 7;
    }
  }

  // Four hexadecimal digits lie inside the body or are none.
  lemma SameHex(text: string, i: nat, end: nat)
    requires i <= end <= |text| && (ByteAt(text, end) == '\"' || end == |text|)
    ensures Hex4(text[i..]) == Hex4(text[i..end])
  {
    if end < i + 4 && end < |text| {
      assert text[i..][end - i] == '\"';
      assert HexDigit('\"') == None;
    }
  }

  // The second scan writes the string into the room that the first one counted.
  method UnescapeInto(out: array<char>, text: string, start: nat, end: nat) returns (ok: bool, size: nat)
    requires start <= end <= |text| && (ByteAt(text, end) == '\"' || end == |text|)
    requires out.Length == ItemCount(text[start..end]) + 1
    modifies out
    ensures ok <==> Unescape(text[start..end]).Some?
    ensures ok ==> size < out.Length && out[..size] == Unescape(text[start..end]).value && out[size] == '\0'
  {
    hide Unescape, ItemCount, UnicodeEscape, Simple, Utf8.Encode;
    var ptr := start;
    size := 0;
    assert out[..0] == "";
    PutNothing(Unescape(text[start..end]));
    while ptr < end
      invariant start <= ptr <= end && size + ItemCount(text[ptr..end]) < out.Length
      invariant Unescape(text[start..end]) == Put(out[..size], Unescape(text[ptr..end]))
    {
      UnescapeStep(text, ptr, end);
      ghost var done, from := out[..size], ptr;
      var fits;
      fits, ptr, size := WriteItem(out, size, text, ptr, end);
      if !fits {
        return false, size;
      }
      PutTwice(done, Item(text, from, end).value.0, Unescape(text[ptr..end]));
    }
    UnescapeNothing(text, end);
    out[size] := '\0';
    ok := true;
  }

  lemma UnescapeNothing(text: string, end: nat)
    requires end <= |text|
    ensures Unescape(text[end..end]) == Some("") && ItemCount(text[end..end]) == 0
  {
  }

  // One turn of the second scan.
  method WriteItem(out: array<char>, at: nat, text: string, ptr: nat, end: nat)
    returns (ok: bool, next: nat, size: nat)
    requires ptr < end <= |text| && (ByteAt(text, end) == '\"' || end == |text|)
    requires Item(text, ptr, end).Some? ==> at + |Item(text, ptr, end).value.0| <= out.Length
    modifies out
    ensures ok <==> Item(text, ptr, end).Some?
    ensures ok ==>
              && next == ptr + Item(text, ptr, end).value.1
              && size == at + |Item(text, ptr, end).value.0| <= out.Length
              && out[..size] == old(out[..at]) + Item(text, ptr, end).value.0
  {
    next, size := ptr, at;
    if text[ptr] != '\\' {
      out[at] := text[ptr];
      return true, ptr + 1, at + 1;
    }
    if ptr + 1 == end {
      return false, next, size;
    }
    if text[ptr + 1] == 'u' {
      hide UnicodeEscape;
      var uc;
      ok, uc, next := UnicodeAt(text, ptr, end);
      if ok {
        size := WriteUtf8(out, at, uc);
      }
    } else {
      match Simple(text[ptr + 1])
      case Some(c) =>
        out[at] := c;
        return true, ptr + 2, at + 1;
      case None => return false, next, size;
    }
  }

  /**
    `parse_string` on the text at `start`: the value in a buffer of its own, whose size the first
    scan has counted, and the position behind the literal.
   */
  method ParseStringAt(text: string, start: nat)
    returns (ok: bool, out: array<char>, size: nat, next: nat)
    requires start <= |text| && NoNul(text)
    ensures ok <==> ParseString(text[start..]).Some?
    ensures ok ==>
              && start < next <= |text| && size < out.Length
              && ParseString(text[start..]) == Some((out[..size], text[next..]))
              && out[size] == '\0'
  {
    hide Unescape, BodyLength, ItemCount;
    out, size, next := new char[0], 0, start;
    if ByteAt(text, start) != '\"' {
      return false, out, size, next;
    }
    assert text[start..][1..] == text[start + 1..];
    var end, len;
    ok, end, len := ScanBody(text, start + 1);
    if !ok {
      return;
    }
    ghost var n := end - (start + 1);
    assert text[start..][1..n + 1] == text[start + 1..end];
    out := new char[len + 1](_ => '\0');
    ok, size := UnescapeInto(out, text, start + 1, end);
    if ok {
      next := if ByteAt(text, end) == '\"' then end + 1 else end;
      assert end < |text| ==> text[start..][n + 2..] == text[end + 1..];
    }
  }
}
