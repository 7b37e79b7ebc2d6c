/**
  JSON texts as they may be written by hand, RFC 8259: strings in any spelling, numbers with a
  fraction and an exponent, and white space between any two tokens.
 */
module JsonSyntax {
  import opened Text
  import opened Json
  import opened JsonText
  import opened JsonParse
  import S = JsonString
  import Utf8

  // ---- Strings, section 7.

  // A byte as it is, a two-byte escape, or the hexadecimal escape of a code point, in one unit or as
  // a surrogate pair.
  datatype Spell = Raw(c: char) | Short(c: char) | Unit(digits: string) | Pair(high: string, low: string)

  function SpellText(x: Spell): string {
    match x
    case Raw(c) => [c]
    case Short(c) => ['\\', c]
    case Unit(digits) => ['\\', 'u'] + digits
    case Pair(high, low) => (['\\', 'u'] + high) + (['\\', 'u'] + low)
  }

  // Four hexadecimal digits of either case.
  predicate IsWord(s: string) { |s| == 4 && HexNumeral(s).Some? }

  function WordValue(s: string): nat { if HexNumeral(s).Some? then HexNumeral(s).value else 0 }

  predicate High(n: nat) { 0xD800 <= n <= 0xDBFF }

  predicate Low(n: nat) { 0xDC00 <= n <= 0xDFFF }

  predicate IsShort(c: char) {
    c == '\"' || c == '\\' || c == '/' || c == 'b' || c == 'f' || c == 'n' || c == 'r' || c == 't'
  }

  // What the parser reads: any byte but the quote and the backslash stands for itself, and the code
  // point 0 cannot be escaped.
  predicate SpellOk(x: Spell) {
    match x
    case Raw(c) => c != '\"' && c != '\\'
    case Short(c) => IsShort(c)
    case Unit(d) => IsWord(d) && WordValue(d) != 0 && !High(WordValue(d)) && !Low(WordValue(d))
    case Pair(h, l) => IsWord(h) && IsWord(l) && High(WordValue(h)) && Low(WordValue(l))
  }

  // The bytes that are meant.
  function SpellBytes(x: Spell): string
    requires SpellOk(x)
  {
    match x
    case Raw(c) => [c]
    case Short(c) =>
      (match c case 'b' => [8 as char] case 'f' => [12 as char] case 'n' => "\n" case 'r' => "\r" case 't' => "\t"
       case _ => [c])
    case Unit(d) => WordBytes(WordValue(d))
    case Pair(h, l) => WordBytes(0x10000 + (WordValue(h) - 0xD800) * 0x400 + (WordValue(l) - 0xDC00))
  }

  function WordBytes(cp: nat): string { if cp <= 0x10FFFF then Utf8.Encode(cp) else "" }

  function SpelledText(xs: seq<Spell>): string {
    if xs == [] then "" else SpellText(xs[0]) + SpelledText(xs[1..])
  }

  predicate AllOk(xs: seq<Spell>) { forall i :: 0 <= i < |xs| ==> SpellOk(xs[i]) }

  function SpelledBytes(xs: seq<Spell>): string
    requires AllOk(xs)
  {
    if xs == [] then "" else SpellBytes(xs[0]) + SpelledBytes(xs[1..])
  }

  lemma HexStep(s: string)
    requires s != ""
    ensures
      var n := |s| - 1;
      HexNumeral(s)
      == if HexNumeral(s[..n]).Some? && S.HexDigit(s[n]).Some?
         then Some(HexNumeral(s[..n]).value * 16 + S.HexDigit(s[n]).value) else None
  {
  }

  // `parse_hex4` gives the value of the four digits, or 0.
  lemma Hex4Is(s: string)
    requires |s| >= 4
    ensures S.Hex4(s) == WordValue(s[..4])
  {
    var w := s[..4];
    assert w[..3][..2] == w[..2] && w[..2][..1] == w[..1] && w[..1][..0] == "";
    HexStep(w);
    HexStep(w[..3]);
    HexStep(w[..2]);
    HexStep(w[..1]);
    assert HexNumeral("") == Some(0);
    hide HexNumeral, S.HexDigit;
  }

  lemma {:induction false} HexIsPlain(s: string)
    requires HexNumeral(s).Some?
    ensures '\"' !in s && '\\' !in s
  {
    if s != "" {
      var n := |s| - 1;
      HexStep(s);
      hide HexNumeral;
      HexIsPlain(s[..n]);
      assert s == s[..n] + [s[n]];
    }
  }

  // An escape does not end the literal.
  lemma SpellLength(x: Spell, rest: string)
    requires SpellOk(x)
    ensures S.BodyLength(SpellText(x) + rest)
         == match S.BodyLength(rest) case Some(n) => Some(n + |SpellText(x)|) case None => None
  {
    var s := SpellText(x) + rest;
    match x {
      case Raw(c) => assert s[1..] == rest;
      case Short(c) => assert s[2..] == rest;
      case Unit(d) => UnitLength(d, rest);
      case Pair(h, l) => PairLength(h, l, rest);
    }
  }

  lemma PairLength(h: string, l: string, rest: string)
    requires IsWord(h) && IsWord(l)
    ensures S.BodyLength(SpellText(Pair(h, l)) + rest)
         == match S.BodyLength(rest) case Some(n) => Some(n + 12) case None => None
  {
    hide S.BodyLength, HexNumeral;
    UnitLength(h, ['\\', 'u'] + l + rest);
    UnitLength(l, rest);
    assert SpellText(Pair(h, l)) + rest == ['\\', 'u'] + h + (['\\', 'u'] + l + rest);
  }

  lemma UnitLength(d: string, rest: string)
    requires IsWord(d)
    ensures S.BodyLength(['\\', 'u'] + d + rest)
         == match S.BodyLength(rest) case Some(n) => Some(n + 6) case None => None
  {
    HexIsPlain(d);
    S.PlainLength(d, rest);
    assert (['\\', 'u'] + d + rest)[2..] == d + rest;
  }

  lemma {:induction false} SpelledLength(xs: seq<Spell>, rest: string)
    requires AllOk(xs)
    ensures S.BodyLength(SpelledText(xs) + (['\"'] + rest)) == Some(|SpelledText(xs)|)
  {
    hide S.BodyLength, SpellText, SpellOk;
    if xs == [] {
      assert "" + (['\"'] + rest) == ['\"'] + rest;
      S.QuoteEnds(rest);
    } else {
      SpelledLength(xs[1..], rest);
      SpellLength(xs[0], SpelledText(xs[1..]) + (['\"'] + rest));
      ConcatAssoc(SpellText(xs[0]), SpelledText(xs[1..]), ['\"'] + rest);
    }
  }

  lemma ShortIs(c: char)
    ensures S.Simple(c) == if IsShort(c) then Some(SpellBytes(Short(c))[0]) else None
    ensures IsShort(c) ==> c != 'u' && |SpellBytes(Short(c))| == 1
  {
  }

  lemma UnitIs(d: string, b: string)
    requires IsWord(d) && SpellOk(Unit(d))
    ensures S.UnicodeEscape(['\\', 'u'] + d + b) == Some((WordValue(d), 6))
  {
    var s := ['\\', 'u'] + d + b;
    assert s[2..][..4] == d;
    Hex4Is(s[2..]);
    hide HexNumeral, S.Hex4;
  }

  lemma PairIs(h: string, l: string, b: string)
    requires SpellOk(Pair(h, l))
    ensures
      var cp := 0x10000 + (WordValue(h) - 0xD800) * 0x400 + (WordValue(l) - 0xDC00);
      S.UnicodeEscape(SpellText(Pair(h, l)) + b) == Some((cp, 12)) && cp <= 0x10FFFF
  {
    var s := SpellText(Pair(h, l)) + b;
    assert s[2..][..4] == h && s[8..][..4] == l && s[6] == '\\' && s[7] == 'u';
    Hex4Is(s[2..]);
    Hex4Is(s[8..]);
    hide HexNumeral, S.Hex4;
  }

  // One character in any spelling.
  lemma SpellReads(x: Spell, b: string)
    requires SpellOk(x)
    ensures S.Unescape(SpellText(x) + b) == Put(SpellBytes(x), S.Unescape(b))
  {
    var s := SpellText(x) + b;
    match x {
      case Raw(c) => assert s[1..] == b;
      case Short(c) =>
        ShortIs(c);
        assert s[2..] == b;
      case Unit(d) =>
        UnitIs(d, b);
        assert s[6..] == b;
      case Pair(h, l) =>
        PairIs(h, l, b);
        assert s[12..] == b;
    }
    hide S.UnicodeEscape, S.Simple, Utf8.Encode, HexNumeral;
  }

  lemma {:induction false} SpelledReads(xs: seq<Spell>)
    requires AllOk(xs)
    ensures S.Unescape(SpelledText(xs)) == Some(SpelledBytes(xs))
  {
    hide S.Unescape, SpellText, SpellOk, SpellBytes;
    if xs == [] {
      NothingReads();
    } else {
      SpellReads(xs[0], SpelledText(xs[1..]));
      SpelledReads(xs[1..]);
    }
  }

  lemma NothingReads()
    ensures S.Unescape("") == Some("")
  {
  }

  /** A string literal in any spelling is read as the string that it spells. */
  lemma StringSpelled(xs: seq<Spell>, rest: string)
    requires AllOk(xs)
    ensures S.ParseString(['\"'] + SpelledText(xs) + (['\"'] + rest)) == Some((SpelledBytes(xs), rest))
  {
    hide S.Unescape, S.BodyLength, SpelledText, SpelledBytes, AllOk;
    var b, n := SpelledText(xs), |SpelledText(xs)|;
    var all := ['\"'] + b + (['\"'] + rest);
    SpelledLength(xs, rest);
    SpelledReads(xs);
    assert all[1..] == b + (['\"'] + rest) && all[1..n + 1] == b && all[n + 2..] == rest;
  }

  // No quote ends the body before its end.
  predicate Unquoted(b: string) { S.BodyLength(b) == Some(|b|) }

  // The spelling of the first character of a body that is accepted.
  lemma FirstSpelling(b: string) returns (x: Spell)
    requires b != "" && S.Unescape(b).Some? && Unquoted(b)
    ensures SpellOk(x) && |SpellText(x)| <= |b| && b == SpellText(x) + b[|SpellText(x)|..]
  {
    if b[0] != '\\' {
      x := Raw(b[0]);
    } else if b[1] != 'u' {
      ShortIs(b[1]);
      x := Short(b[1]);
    } else {
      x := EscapeSpelling(b);
    }
  }

  lemma EscapeSpelling(b: string) returns (x: Spell)
    requires |b| >= 2 && b[0] == '\\' && b[1] == 'u' && S.UnicodeEscape(b).Some?
    ensures SpellOk(x) && |SpellText(x)| <= |b| && b == SpellText(x) + b[|SpellText(x)|..]
  {
    Hex4Is(b[2..]);
    var d := b[2..][..4];
    WordIs(d);
    if High(S.Hex4(b[2..])) {
      Hex4Is(b[8..]);
      var l := b[8..][..4];
      WordIs(l);
      x := Pair(d, l);
      assert b[..12] == SpellText(x);
    } else {
      x := Unit(d);
      assert b[..6] == SpellText(x);
    }
    hide S.Hex4, HexNumeral;
  }

  lemma WordIs(s: string)
    requires |s| == 4 && WordValue(s) != 0
    ensures IsWord(s)
  {
  }

  lemma {:induction false} BodyIsSpelled(b: string) returns (xs: seq<Spell>)
    requires S.Unescape(b).Some? && Unquoted(b)
    ensures AllOk(xs) && SpelledText(xs) == b && S.Unescape(b) == Some(SpelledBytes(xs))
    decreases |b|
  {
    if b == "" {
      xs := [];
    } else {
      var x := FirstSpelling(b);
      var n := |SpellText(x)|;
      SpellNotEmpty(x);
      SpellReads(x, b[n..]);
      SpellLength(x, b[n..]);
      hide S.Unescape, S.BodyLength, SpellText, SpellOk, SpellBytes;
      var ys := BodyIsSpelled(b[n..]);
      xs := [x] + ys;
      assert xs[1..] == ys;
    }
  }

  lemma {:induction false} BodyUnquoted(s: string, n: nat)
    requires S.BodyLength(s) == Some(n)
    ensures n <= |s| && Unquoted(s[..n])
    decreases |s|
  {
    if s != "" && s[0] != '\"' {
      var k := if s[0] == '\\' then 2 else 1;
      BodyUnquoted(s[k..], n - k);
      assert s[..n][k..] == s[k..][..n - k];
    }
  }

  /**
    A literal is accepted only if its body spells a string in this grammar, and the value is that
    string.
   */
  lemma LiteralIsSpelled(s: string) returns (xs: seq<Spell>)
    requires S.ParseString(s).Some?
    ensures AllOk(xs) && S.ParseString(s).value.0 == SpelledBytes(xs)
    ensures ['\"'] + SpelledText(xs) <= s
    ensures var n := 1 + |SpelledText(xs)|; n < |s| ==> s[n] == '\"'
  {
    var n := S.BodyLength(s[1..]).value;
    BodyUnquoted(s[1..], n);
    assert s[1..][..n] == s[1..n + 1];
    xs := BodyIsSpelled(s[1..n + 1]);
    assert s[..n + 1] == ['\"'] + s[1..n + 1];
    hide S.Unescape, SpelledText, SpelledBytes;
  }

  lemma SpellNotEmpty(x: Spell)
    ensures SpellText(x) != ""
  {
  }

  /** The code point 0 is a character of the RFC, but its escape is refused. */
  lemma NulEscapeFails(rest: string)
    ensures S.Unescape("\\u0000" + rest) == None
  {
    var b := "\\u0000" + rest;
    assert b[2..][..4] == "0000";
    Hex4Is(b[2..]);
    HexStep("0000");
    HexStep("000");
    HexStep("00");
    HexStep("0");
    assert "0000"[..3] == "000" && "000"[..2] == "00" && "00"[..1] == "0" && "0"[..0] == "";
    hide HexNumeral;
    assert HexNumeral("") == Some(0) by { NoDigits(); }
  }

  lemma NoDigits()
    ensures HexNumeral("") == Some(0)
  {
  }

  // ---- Numbers, section 6.

  // The integer part is 0 or does not start with 0; a fraction and an exponent have digits.
  datatype Numeral = Numeral(negative: bool, integer: string, frac: Option<string>, exp: Option<Exponent>)

  datatype Exponent = Exponent(letter: char, sign: string, digits: string)

  predicate Digits(s: string) { s != "" && Run(s) }

  predicate NumeralOk(x: Numeral) {
    && Digits(x.integer) && (x.integer[0] == '0' ==> x.integer == "0")
    && (x.frac.Some? ==> Digits(x.frac.value))
    && (x.exp.Some? ==>
         && (x.exp.value.letter == 'e' || x.exp.value.letter == 'E')
         && (x.exp.value.sign == "" || x.exp.value.sign == "+" || x.exp.value.sign == "-")
         && Digits(x.exp.value.digits))
  }

  function FracText(f: Option<string>): string { if f.None? then "" else "." + f.value }

  function ExpText(e: Option<Exponent>): string {
    if e.None? then "" else [e.value.letter] + (e.value.sign + e.value.digits)
  }

  function NumeralText(x: Numeral): string {
    (if x.negative then "-" else "") + (x.integer + (FracText(x.frac) + ExpText(x.exp)))
  }

  // 10 to the power of `n`.
  function Ten(n: nat): (r: real)
    ensures r > 0.0
  {
    if n == 0 then 1.0 else 10.0 * Ten(n - 1)
  }

  // The value of the numeral: integer part and fraction, scaled by the exponent.
  function Magnitude(x: Numeral): real {
    var m := RunValue(x.integer) as real + if x.frac.None? then 0.0 else RunValue(x.frac.value) as real / Ten(|x.frac.value|);
    if x.exp.None? then m
    else
      var e := RunValue(x.exp.value.digits);
      if x.exp.value.sign == "-" then m / Ten(e) else m * Ten(e)
  }

  function NumeralValue(x: Numeral): real { if x.negative then -Magnitude(x) else Magnitude(x) }

  lemma {:induction false} PowerIs(n: nat)
    ensures Pow10(n) == Ten(n) && Pow10(0 - n) == 1.0 / Ten(n)
  {
    if n > 0 {
      PowerIs(n - 1);
      Inverse(Ten(n - 1));
    }
  }

  lemma Inverse(t: real)
    requires t > 0.0
    ensures 1.0 / t / 10.0 == 1.0 / (10.0 * t)
  {
    var a, b := 1.0 / t / 10.0, 1.0 / (10.0 * t);
    assert a * (10.0 * t) == 1.0;
  }

  lemma {:induction false} PowerMinus(a: nat, b: nat)
    ensures Pow10(a - b) == Ten(a) / Ten(b)
    decreases a + b
  {
    if a == 0 {
      PowerIs(b);
    } else if b == 0 {
      PowerIs(a);
    } else {
      PowerMinus(a - 1, b - 1);
      Cancel(Ten(a - 1), Ten(b - 1));
    }
  }

  lemma Cancel(a: real, b: real)
    requires b > 0.0
    ensures a / b == (10.0 * a) / (10.0 * b)
  {
    var q := a / b;
    assert q * b == a;
    assert q * (10.0 * b) == 10.0 * a;
  }

  predicate Run(s: string) { forall i :: 0 <= i < |s| ==> IsDigit(s[i]) }

  lemma RunIs(s: string)
    ensures Run(s) <==> forall c <- s :: IsDigit(c)
  {
    if Run(s) {
      forall c | c in s ensures IsDigit(c) {
      }
    } else {
      var i :| 0 <= i < |s| && !IsDigit(s[i]);
      assert s[i] in s;
    }
  }

  function RunValue(s: string): nat {
    RunIs(s);
    if Run(s) then DecimalValue(s) else 0
  }

  lemma RunStep(s: string)
    requires Run(s) && s != ""
    ensures Run(s[..|s| - 1]) && RunValue(s) == RunValue(s[..|s| - 1]) * 10 + (s[|s| - 1] as int - '0' as int)
  {
    RunIs(s);
    RunIs(s[..|s| - 1]);
  }

  // Two runs of digits in a row. The powers of 10 are passed by value: products of calls are hard on
  // the solver.
  lemma {:induction false} JoinedValue(a: string, b: string, t: real)
    requires Run(a) && Run(b) && t == Ten(|b|)
    ensures Run(a + b) && RunValue(a + b) as real == RunValue(a) as real * t + RunValue(b) as real
    decreases |b|
  {
    hide RunValue;
    if b == "" {
      assert a + b == a;
      NoValue();
    } else {
      var n := |b| - 1;
      assert (a + b)[..|a + b| - 1] == a + b[..n];
      RunStep(b);
      JoinedValue(a, b[..n], Ten(n));
      RunStep(a + b);
      JoinStep(RunValue(a), RunValue(b[..n]), Ten(n), t, b[n] as int - '0' as int, RunValue(a + b[..n]));
    }
  }

  lemma NoValue()
    ensures RunValue("") == 0
  {
  }

  lemma JoinStep(a: nat, b: nat, t: real, u: real, d: int, v: nat)
    requires v as real == a as real * t + b as real && u == 10.0 * t
    ensures (v * 10 + d) as real == a as real * u + (b * 10 + d) as real
  {
  }

  lemma {:induction false} TenSum(a: nat, b: nat, ta: real, tb: real)
    requires ta == Ten(a) && tb == Ten(b)
    ensures Ten(a + b) == ta * tb
  {
    if a > 0 {
      var t := Ten(a - 1);
      TenSum(a - 1, b, t, tb);
      assert Ten(a + b) == 10.0 * Ten(a - 1 + b);
      Regroup3(t, tb, ta);
    }
  }

  lemma Regroup3(a: real, b: real, c: real)
    requires c == 10.0 * a
    ensures 10.0 * (a * b) == c * b
  {
  }

  // What the exponent says.
  function ExpValue(e: Option<Exponent>): int {
    if e.None? then 0 else if e.value.sign == "-" then 0 - RunValue(e.value.digits) else RunValue(e.value.digits)
  }

  // The scaled digits are the numeral's value.
  lemma ScaledUp(i: real, f: real, k: nat, e: nat, t: real, u: real, p: real)
    requires t == Ten(k) && u == Ten(e) && p == Pow10(e - k)
    ensures (i * t + f) * p == (i + f / t) * u
  {
    PowerMinus(e, k);
    hide Ten, Pow10;
    Distribute(i, f, t, u, p);
  }

  lemma Distribute(i: real, f: real, k: real, e: real, q: real)
    requires k > 0.0 && q == e / k
    ensures (i * k + f) * q == (i + f / k) * e
  {
    var g := f / k;
    assert q * k == e && g * k == f;
    assert (i * k + f) * q == (i * k + g * k) * q == (i + g) * (k * q);
  }

  lemma ScaledDown(i: real, f: real, k: nat, e: nat, t: real, u: real, p: real)
    requires t == Ten(k) && u == Ten(e) && p == Pow10(0 - e - k)
    ensures (i * t + f) * p == (i + f / t) / u
  {
    PowerIs(e + k);
    TenSum(e, k, u, t);
    hide Ten, Pow10;
    assert 0 - e - k == 0 - (e + k);
    Undone(Ten(e + k), u, t, p);
    Divide(i, f, t, u, p);
  }

  lemma Undone(w: real, u: real, t: real, p: real)
    requires w > 0.0 && w == u * t && p == 1.0 / w
    ensures p * (u * t) == 1.0
  {
    assert p * w == 1.0;
  }

  lemma Divide(i: real, f: real, k: real, e: real, q: real)
    requires k > 0.0 && e > 0.0 && q * (e * k) == 1.0
    ensures (i * k + f) * q == (i + f / k) / e
  {
    var g, r := f / k, (i + f / k) / e;
    assert g * k == f && r * e == i + g;
    assert (i * k + f) * q == (i * k + g * k) * q == (i + g) * (k * q);
    assert (i + g) * (k * q) == r * e * (k * q) == r * (q * (e * k));
  }

  // ---- The three parts of a number.

  predicate NoDigit(s: string) { s == "" || !IsDigit(s[0]) }

  lemma RunRead(d: string, t: string)
    requires Digits(d) && NoDigit(t)
    ensures DigitRun(d + t) == |d| && (d + t)[..|d|] == d && (d + t)[|d|..] == t
  {
    RunIs(d);
    DigitRunOf(d, t);
  }

  lemma IntRead(i: string, t: string)
    requires Digits(i) && (i[0] == '0' ==> i == "0") && NoDigit(t)
    ensures IntegerPart(i + t) == (if i == "0" then "" else i, t)
  {
    if i == "0" {
      assert (i + t)[1..] == t;
    } else {
      assert IsDigit(i[0]) && (i + t)[0] == i[0];
      RunRead(i, t);
      hide DigitRun;
    }
  }

  lemma FracRead(f: Option<string>, t: string)
    requires (f.Some? ==> Digits(f.value)) && NoDigit(t) && (t != "" ==> t[0] != '.')
    ensures FractionPart(FracText(f) + t) == (if f.None? then "" else f.value, t)
  {
    if f.None? {
      assert "" + t == t;
    } else {
      var s := FracText(f) + t;
      assert s[1..] == f.value + t && IsDigit(f.value[0]) && s[1] == f.value[0];
      RunRead(f.value, t);
    }
    hide DigitRun;
  }

  // The digits of an exponent, behind its letter and its sign.
  lemma ExpDigits(s: string, sign: string, d: string, t: string)
    requires (Starts(s, 'e') || Starts(s, 'E')) && s[1..] == sign + (d + t)
    requires (sign == "" || sign == "+" || sign == "-") && Digits(d) && NoDigit(t)
    ensures ExponentPart(s) == (if sign == "-" then 0 - RunValue(d) else RunValue(d), t)
  {
    RunRead(d, t);
    RunIs(d);
    assert IsDigit(d[0]) && (d + t)[0] == d[0];
    hide DigitRun, DecimalValue;
    if sign == "" {
      assert sign + (d + t) == d + t;
    } else {
      assert (sign + (d + t))[1..] == d + t;
    }
  }

  lemma ExpRead(e: Option<Exponent>, t: string)
    requires NumeralOk(Numeral(false, "0", None, e)) && NumberEnds(t)
    ensures ExponentPart(ExpText(e) + t) == (ExpValue(e), t)
  {
    hide ExponentPart, RunValue, Run;
    if e.None? {
      assert "" + t == t;
      NoExponent(t);
    } else {
      var x, s := e.value, ExpText(e) + t;
      assert Digits(x.digits) && s[0] == x.letter;
      ConcatAssoc(x.sign, x.digits, t);
      ConcatAssoc([x.letter], x.sign + x.digits, t);
      hide Digits, NumeralOk, ExpText;
      assert s[1..] == x.sign + (x.digits + t);
      ExpDigits(s, x.sign, x.digits, t);
    }
  }

  lemma NoExponent(t: string)
    requires NumberEnds(t)
    ensures ExponentPart(t) == (0, t)
  {
  }

  lemma TailNoDigit(e: Option<Exponent>, t: string)
    requires NumeralOk(Numeral(false, "0", None, e)) && NumberEnds(t)
    ensures var s := ExpText(e) + t; NoDigit(s) && (s != "" ==> s[0] != '.')
  {
    if e.None? {
      assert "" + t == t;
    }
  }

  lemma FracNoDigit(f: Option<string>, t: string)
    requires NoDigit(t)
    ensures NoDigit(FracText(f) + t)
  {
    if f.None? {
      assert "" + t == t;
    }
  }

  // The digits of the integer part and the fraction, together.
  lemma MantissaIs(i: string, f: string, t: real)
    requires Digits(i) && Run(f) && t == Ten(|f|)
    ensures var a := if i == "0" then "" else i;
      Run(a + f) && RunValue(a + f) as real == RunValue(i) as real * t + RunValue(f) as real
  {
    if i == "0" {
      assert "" + f == f && RunValue("0") == 0 by { ZeroValue(); }
    } else {
      JoinedValue(i, f, t);
    }
    hide RunValue;
  }

  lemma ZeroValue()
    ensures RunValue("0") == 0
  {
    RunIs("0");
    assert "0"[..0] == "";
  }

  // The integer part of `d`, cut towards zero.
  predicate TowardsZero(n: int, d: real) {
    if d >= 0.0 then n as real <= d < (n + 1) as real else (n - 1) as real < d <= n as real
  }

  lemma TruncIs(d: real)
    ensures TowardsZero(Trunc(d), d)
  {
  }

  lemma NumberParts(s: string, i: string, t1: string, f: string, t2: string, e: int, rest: string)
    requires s != "" && (s[0] == '-' || IsDigit(s[0])) && Run(i) && Run(f)
    requires IntegerPart(if s[0] == '-' then s[1..] else s) == (i, t1)
    requires FractionPart(t1) == (f, t2) && ExponentPart(t2) == (e, rest)
    ensures Run(i + f)
    ensures
      var d := Scaled(s[0] == '-', RunValue(i + f) as real, e - |f|);
      ParseNumber(s) == (Number(Trunc(d), d), rest)
  {
    RunIs(i);
    RunIs(f);
    RunIs(i + f);
    hide IntegerPart, FractionPart, ExponentPart, DecimalValue, Trunc, Scaled;
  }

  lemma NumeralStart(x: Numeral, rest: string)
    requires NumeralOk(x)
    ensures
      var s, t := NumeralText(x) + rest, x.integer + (FracText(x.frac) + (ExpText(x.exp) + rest));
      && s != "" && (s[0] == '-' || IsDigit(s[0])) && (s[0] == '-' <==> x.negative)
      && (if s[0] == '-' then s[1..] else s) == t
  {
    var m := FracText(x.frac) + ExpText(x.exp);
    hide FracText, ExpText;
    assert IsDigit(x.integer[0]);
    ConcatAssoc(FracText(x.frac), ExpText(x.exp), rest);
    ConcatAssoc(x.integer, m, rest);
    var s := NumeralText(x) + rest;
    if x.negative {
      assert s == ['-'] + (x.integer + m + rest);
    } else {
      assert "" + (x.integer + m) == x.integer + m;
      assert s == x.integer + m + rest;
    }
  }

  // The digits with their exponent, and the numeral's value.
  function FracSize(x: Numeral): nat { if x.frac.None? then 0 else |x.frac.value| }

  function FracDigits(x: Numeral): real { if x.frac.None? then 0.0 else RunValue(x.frac.value) as real }

  lemma MagnitudeIs(x: Numeral)
    ensures
      var m := RunValue(x.integer) as real + FracDigits(x) / Ten(FracSize(x));
      Magnitude(x)
      == if x.exp.None? then m * Ten(0)
         else if x.exp.value.sign == "-" then m / Ten(RunValue(x.exp.value.digits))
         else m * Ten(RunValue(x.exp.value.digits))
  {
    hide RunValue;
    assert Ten(0) == 1.0;
  }

  lemma ScaledIs(x: Numeral, m: real, t: real)
    requires t == Ten(FracSize(x)) && m == RunValue(x.integer) as real * t + FracDigits(x)
    ensures Scaled(x.negative, m, ExpValue(x.exp) - FracSize(x)) == NumeralValue(x)
  {
    hide RunValue, Pow10, Ten, Magnitude, FracSize, FracDigits, Scaled;
    var i, f, k := RunValue(x.integer) as real, FracDigits(x), FracSize(x);
    var n := ExpValue(x.exp);
    var p := Pow10(n - k);
    MagnitudeIs(x);
    if n >= 0 && (x.exp.None? || x.exp.value.sign != "-") {
      ScaledUp(i, f, k, n, t, Ten(n), p);
    } else {
      ScaledDown(i, f, k, 0 - n, t, Ten(0 - n), p);
    }
    assert m * p == Magnitude(x);
    Signed(x.negative, m, n - k, p);
  }

  lemma Signed(negative: bool, m: real, e: int, p: real)
    requires p == Pow10(e)
    ensures Scaled(negative, m, e) == if negative then -(m * p) else m * p
  {
    hide Pow10;
  }

  /** A number is read as its exact value, with the integer part cut towards zero. */
  lemma NumeralReads(x: Numeral, rest: string)
    requires NumeralOk(x) && NumberEnds(rest)
    ensures
      var s := NumeralText(x) + rest;
      && s != "" && (s[0] == '-' || IsDigit(s[0]))
      && ParseNumber(s) == (Number(Trunc(NumeralValue(x)), NumeralValue(x)), rest)
      && TowardsZero(Trunc(NumeralValue(x)), NumeralValue(x))
  {
    hide *;
    var f := if x.frac.None? then "" else x.frac.value;
    var i := if x.integer == "0" then "" else x.integer;
    var t2 := ExpText(x.exp) + rest;
    NumeralParts(x);
    NumeralStart(x, rest);
    ExpRead(x.exp, rest);
    TailNoDigit(x.exp, rest);
    FracRead(x.frac, t2);
    FracNoDigit(x.frac, t2);
    IntRead(x.integer, FracText(x.frac) + t2);
    var t := Ten(|f|);
    MantissaIs(x.integer, f, t);
    NumberParts(NumeralText(x) + rest, i, FracText(x.frac) + t2, f, t2, ExpValue(x.exp), rest);
    FracFacts(x);
    ScaledIs(x, RunValue(i + f) as real, t);
    TruncIs(NumeralValue(x));
  }

  lemma FracFacts(x: Numeral)
    ensures var f := if x.frac.None? then "" else x.frac.value;
      |f| == FracSize(x) && RunValue(f) as real == FracDigits(x)
  {
  }

  lemma NumeralParts(x: Numeral)
    requires NumeralOk(x)
    ensures Digits(x.integer) && (x.integer[0] == '0' ==> x.integer == "0") && (x.frac.Some? ==> Digits(x.frac.value))
    ensures NumeralOk(Numeral(false, "0", None, x.exp))
    ensures Run(if x.frac.None? then "" else x.frac.value) && Run(if x.integer == "0" then "" else x.integer)
  {
  }

  // ---- Values, sections 2 to 5: blanks may stand in front of and behind every token.

  datatype Doc =
    | Null_
    | False_
    | True_
    | Num(numeral: Numeral)
    | Str(body: seq<Spell>)
    | List(gap: string, items: seq<Item>)
    | Record(gap: string, entries: seq<Entry>)

  datatype Item = Item(before: string, value: Doc, after: string)

  datatype Entry = Entry(before: string, key: seq<Spell>, middle: string, lead: string, value: Doc, after: string)

  // The parser takes every byte up to the space as white space.
  predicate Blank(s: string) { forall i :: 0 <= i < |s| ==> s[i] <= ' ' }

  predicate DocOk(x: Doc)
    decreases x
  {
    match x
    case Num(n) => NumeralOk(n)
    case Str(body) => AllOk(body)
    case List(gap, items) =>
      Blank(gap)
      && forall k :: 0 <= k < |items| ==> Blank(items[k].before) && DocOk(items[k].value) && Blank(items[k].after)
    case Record(gap, es) =>
      Blank(gap)
      && forall k :: 0 <= k < |es| ==>
           && Blank(es[k].before) && AllOk(es[k].key) && Blank(es[k].middle) && Blank(es[k].lead)
           && DocOk(es[k].value) && Blank(es[k].after)
    case _ => true
  }

  predicate ItemOk(i: Item) { Blank(i.before) && DocOk(i.value) && Blank(i.after) }

  predicate EntryOk(e: Entry) {
    && Blank(e.before) && AllOk(e.key) && Blank(e.middle) && Blank(e.lead)
    && DocOk(e.value) && Blank(e.after)
  }

  function Literal(xs: seq<Spell>): string { ['\"'] + SpelledText(xs) + ['\"'] }

  function DocText(x: Doc): string
    decreases x, 0
  {
    match x
    case Null_ => "null"
    case False_ => "false"
    case True_ => "true"
    case Num(n) => NumeralText(n)
    case Str(body) => Literal(body)
    case List(gap, items) => "[" + ((if items == [] then gap else ItemsText(items)) + "]")
    case Record(gap, es) => "{" + ((if es == [] then gap else EntriesText(es)) + "}")
  }

  function ItemsText(items: seq<Item>): string
    requires items != []
    decreases items, 0
  {
    ItemText(items[0], if |items| == 1 then "" else "," + ItemsText(items[1..]))
  }

  function ItemText(i: Item, tail: string): string
    decreases i, 0
  {
    i.before + (DocText(i.value) + (i.after + tail))
  }

  function EntriesText(es: seq<Entry>): string
    requires es != []
    decreases es, 0
  {
    EntryText(es[0], if |es| == 1 then "" else "," + EntriesText(es[1..]))
  }

  function EntryText(e: Entry, tail: string): string
    decreases e, 0
  {
    e.before + (Literal(e.key) + (e.middle + (":" + (e.lead + (DocText(e.value) + (e.after + tail))))))
  }

  // The tree that is meant: the integer of a number is its value cut towards zero.
  function TreeOf(x: Doc): Json
    requires DocOk(x)
    decreases x, 0
  {
    match x
    case Null_ => Null
    case False_ => False
    case True_ => True
    case Num(n) => Number(Trunc(NumeralValue(n)), NumeralValue(n))
    case Str(body) => String(SpelledBytes(body))
    case List(_, items) => Array(TreesOf(items))
    case Record(_, es) => Object(MembersOf(es))
  }

  function TreesOf(items: seq<Item>): seq<Json>
    requires forall k :: 0 <= k < |items| ==> DocOk(items[k].value)
    decreases items, 0
  {
    if items == [] then [] else [TreeOf(items[0].value)] + TreesOf(items[1..])
  }

  function MembersOf(es: seq<Entry>): seq<Member>
    requires forall k :: 0 <= k < |es| ==> AllOk(es[k].key) && DocOk(es[k].value)
    decreases es, 0
  {
    if es == [] then []
    else [Member(SpelledBytes(es[0].key), TreeOf(es[0].value))] + MembersOf(es[1..])
  }

  // A value does not start with a blank or with the end of a list.
  lemma DocStart(x: Doc, rest: string)
    requires DocOk(x)
    ensures var s := DocText(x) + rest; s != "" && s[0] > ' ' && s[0] != ']' && s[0] != '}'
  {
    hide NumeralText, SpelledText, ItemsText, EntriesText, NumeralOk;
    if x.Num? {
      NumeralStart(x.numeral, rest);
    }
  }

  // What may stand behind a value in a list.
  predicate Closes(s: string) { s != "" && (s[0] == ',' || s[0] == ']' || s[0] == '}') }

  lemma AfterValue(blanks: string, tail: string)
    requires Blank(blanks) && Closes(tail)
    ensures Skip(blanks + tail) == tail && NumberEnds(blanks + tail)
  {
    SkipBlanks(blanks, tail);
    hide Skip;
  }

  lemma SkipTwice(s: string)
    ensures Skip(Skip(s)) == Skip(s)
  {
    SkipBlanks("", Skip(s));
    assert "" + Skip(s) == Skip(s);
  }

  // A value between its blanks, in front of the rest of a list.
  lemma {:induction false} BetweenBlanks(before: string, x: Doc, after: string, tail: string)
    requires Blank(before) && DocOk(x) && Blank(after) && Closes(tail)
    ensures ParseValue(Skip(before + (DocText(x) + (after + tail)))) == Some((TreeOf(x), after + tail))
    ensures Skip(after + tail) == tail
    decreases x, 1
  {
    hide ParseValue, Skip, DocText, TreeOf, DocOk;
    AfterValue(after, tail);
    DocStart(x, after + tail);
    SkipBlanks(before, DocText(x) + (after + tail));
    ValueReads(x, after + tail);
  }

  /** A value in any spelling, with any blanks between its tokens, is read as the tree it means. */
  lemma {:induction false} ValueReads(x: Doc, rest: string)
    requires DocOk(x) && (x.Num? ==> NumberEnds(rest))
    ensures ParseValue(DocText(x) + rest) == Some((TreeOf(x), rest))
    decreases x, 0
  {
    match x
    case Null_ => LiteralBack(rest);
    case False_ => LiteralBack(rest);
    case True_ => LiteralBack(rest);
    case Num(n) => NumReads(n, rest);
    case Str(body) => StrReads(body, rest);
    case List(_, _) => ListReads(x, rest);
    case Record(_, _) => RecordReads(x, rest);
  }

  lemma NumReads(n: Numeral, rest: string)
    requires NumeralOk(n) && NumberEnds(rest)
    ensures ParseValue(DocText(Num(n)) + rest) == Some((TreeOf(Num(n)), rest))
  {
    hide NumeralText, NumeralOk, ParseValue, ParseNumber, NumberEnds;
    NumeralReads(n, rest);
    NumberValueIs(NumeralText(n) + rest);
  }

  lemma LiteralIs(xs: seq<Spell>, rest: string)
    requires AllOk(xs)
    ensures S.ParseString(Literal(xs) + rest) == Some((SpelledBytes(xs), rest))
    ensures (Literal(xs) + rest)[0] == '\"'
  {
    hide SpelledText, SpelledBytes, AllOk, S.ParseString;
    StringSpelled(xs, rest);
    ConcatAssoc(['\"'] + SpelledText(xs), ['\"'], rest);
  }

  lemma StrReads(body: seq<Spell>, rest: string)
    requires AllOk(body)
    ensures ParseValue(DocText(Str(body)) + rest) == Some((TreeOf(Str(body)), rest))
  {
    hide AllOk, Literal, S.ParseString, ParseItems, ParseMembers, ParseNumber;
    LiteralIs(body, rest);
  }

  // The items of a list, up to its end.
  lemma {:induction false} ItemsRead(items: seq<Item>, rest: string)
    requires items != [] && forall k :: 0 <= k < |items| ==> ItemOk(items[k]) && DocOk(items[k].value)
    ensures ParseItems(ItemsText(items) + ("]" + rest)) == Some((TreesOf(items), rest))
    decreases items, 1
  {
    hide ParseValue, ParseItems, Skip, DocText, TreeOf, DocOk, Blank, ItemsText;
    var i, s := items[0], ItemsText(items) + ("]" + rest);
    var tail := if |items| == 1 then "]" + rest else "," + (ItemsText(items[1..]) + ("]" + rest));
    ItemsShape(items, rest);
    BetweenBlanks(i.before, i.value, i.after, tail);
    ItemsTurn(s);
    if |items| == 1 {
      assert tail[1..] == rest && items[1..] == [];
      assert TreesOf(items) == [TreeOf(i.value)] + TreesOf([]) == [TreeOf(i.value)];
    } else {
      ItemsRead(items[1..], rest);
      assert tail[1..] == ItemsText(items[1..]) + ("]" + rest);
      assert TreesOf(items) == [TreeOf(i.value)] + TreesOf(items[1..]);
      assert ParseItems(s) == PutItems([TreeOf(i.value)], ParseItems(tail[1..])) == Some((TreesOf(items), rest));
    }
  }

  lemma ItemsShape(items: seq<Item>, rest: string)
    requires items != []
    ensures
      var tail := if |items| == 1 then "]" + rest else "," + (ItemsText(items[1..]) + ("]" + rest));
      ItemsText(items) + ("]" + rest) == ItemText(items[0], tail)
  {
    var more := if |items| == 1 then "" else "," + ItemsText(items[1..]);
    assert ItemsText(items) == ItemText(items[0], more);
    hide ItemText, ItemsText;
    ItemGoesOn(items[0], more, "]" + rest);
    if |items| > 1 {
      ConcatAssoc(",", ItemsText(items[1..]), "]" + rest);
    } else {
      assert "" + ("]" + rest) == "]" + rest;
    }
  }

  lemma ItemGoesOn(i: Item, more: string, end: string)
    ensures ItemText(i, more) + end == ItemText(i, more + end)
  {
    hide DocText;
    ConcatAssoc(i.after, more, end);
    ConcatAssoc(DocText(i.value), i.after + more, end);
    ConcatAssoc(i.before, DocText(i.value) + (i.after + more), end);
  }

  lemma {:induction false} ListReads(x: Doc, rest: string)
    requires x.List? && DocOk(x)
    ensures ParseValue(DocText(x) + rest) == Some((TreeOf(x), rest))
    decreases x, 0, 0
  {
    hide ParseValue, ParseItems, Skip, ItemsText, TreesOf, Blank, DocOk;
    var body := if x.items == [] then x.gap else ItemsText(x.items);
    var s := DocText(x) + rest;
    ListParts(x);
    ConcatAssoc(body, "]", rest);
    assert s == "[" + (body + ("]" + rest)) && s[1..] == body + ("]" + rest);
    ArrayStart(s);
    if x.items == [] {
      AfterValue(x.gap, "]" + rest);
      assert ("]" + rest)[1..] == rest;
    } else {
      ItemsRead(x.items, rest);
      ItemsBegin(x.items, rest);
    }
  }

  lemma ListParts(x: Doc)
    requires x.List? && DocOk(x)
    ensures Blank(x.gap) && forall k :: 0 <= k < |x.items| ==> ItemOk(x.items[k]) && DocOk(x.items[k].value)
    ensures TreeOf(x) == Array(TreesOf(x.items)) && (x.items == [] ==> TreesOf(x.items) == [])
  {
  }

  // White space in front of the first item does not matter.
  lemma ItemsBegin(items: seq<Item>, rest: string)
    requires items != [] && ItemOk(items[0])
    ensures
      var s := ItemsText(items) + ("]" + rest);
      !Starts(Skip(s), ']') && ParseItems(Skip(s)) == ParseItems(s)
  {
    hide ParseValue, ParseItems, Skip, DocText, DocOk, ItemsText;
    var i, s := items[0], ItemsText(items) + ("]" + rest);
    var tail := if |items| == 1 then "]" + rest else "," + (ItemsText(items[1..]) + ("]" + rest));
    ItemsShape(items, rest);
    DocStart(i.value, i.after + tail);
    SkipBlanks(i.before, DocText(i.value) + (i.after + tail));
    SkipTwice(s);
    SameItems(s, Skip(s));
  }

  lemma SameItems(s: string, t: string)
    requires Skip(s) == Skip(t)
    ensures ParseItems(s) == ParseItems(t)
  {
    hide ParseValue, Skip;
  }

  // The members of an object, up to its end.
  lemma {:induction false} EntriesRead(es: seq<Entry>, rest: string)
    requires es != [] && forall k :: 0 <= k < |es| ==> EntryOk(es[k]) && AllOk(es[k].key) && DocOk(es[k].value)
    ensures ParseMembers(EntriesText(es) + ("}" + rest)) == Some((MembersOf(es), rest))
    decreases es, 1
  {
    hide ParseValue, ParseMembers, Skip, DocText, TreeOf, DocOk, Blank, EntriesText, EntryText, EntryOk, SpelledBytes, FirstMember;
    var e, s := es[0], EntriesText(es) + ("}" + rest);
    var m := Member(SpelledBytes(e.key), TreeOf(e.value));
    var tail := if |es| == 1 then "}" + rest else "," + (EntriesText(es[1..]) + ("}" + rest));
    EntriesShape(es, rest);
    EntryReads(e, tail);
    MembersTurn(s);
    if |es| == 1 {
      assert tail[1..] == rest && es[1..] == [];
      assert MembersOf(es) == [m] + MembersOf([]) == [m];
    } else {
      EntriesRead(es[1..], rest);
      assert tail[1..] == EntriesText(es[1..]) + ("}" + rest);
      assert MembersOf(es) == [m] + MembersOf(es[1..]);
      assert ParseMembers(s) == PutItems([m], ParseMembers(tail[1..])) == Some((MembersOf(es), rest));
    }
  }

  // A member between its blanks, in front of the rest of an object.
  lemma {:induction false} EntryReads(e: Entry, tail: string)
    requires EntryOk(e) && Closes(tail)
    ensures FirstMember(EntryText(e, tail)) == Some((Member(SpelledBytes(e.key), TreeOf(e.value)), tail))
    decreases e, 1
  {
    hide ParseValue, Skip, DocText, TreeOf, DocOk, AllOk, SpelledBytes, Literal, S.ParseString;
    var v := e.lead + (DocText(e.value) + (e.after + tail));
    BetweenBlanks(e.lead, e.value, e.after, tail);
    ColonNext(e.middle, v);
    LiteralIs(e.key, e.middle + (":" + v));
    SkipBlanks(e.before, Literal(e.key) + (e.middle + (":" + v)));
  }

  lemma ColonNext(blanks: string, v: string)
    requires Blank(blanks)
    ensures Starts(Skip(blanks + (":" + v)), ':') && Skip(blanks + (":" + v))[1..] == v
  {
    SkipBlanks(blanks, ":" + v);
    hide Skip;
    assert (":" + v)[1..] == v;
  }

  lemma EntriesShape(es: seq<Entry>, rest: string)
    requires es != []
    ensures
      var tail := if |es| == 1 then "}" + rest else "," + (EntriesText(es[1..]) + ("}" + rest));
      EntriesText(es) + ("}" + rest) == EntryText(es[0], tail)
  {
    var more := if |es| == 1 then "" else "," + EntriesText(es[1..]);
    assert EntriesText(es) == EntryText(es[0], more);
    hide EntryText, EntriesText;
    EntryGoesOn(es[0], more, "}" + rest);
    if |es| > 1 {
      ConcatAssoc(",", EntriesText(es[1..]), "}" + rest);
    } else {
      assert "" + ("}" + rest) == "}" + rest;
    }
  }

  lemma EntryGoesOn(e: Entry, more: string, end: string)
    ensures EntryText(e, more) + end == EntryText(e, more + end)
  {
    hide DocText, Literal;
    var v := DocText(e.value) + (e.after + more);
    ConcatAssoc(e.after, more, end);
    ConcatAssoc(DocText(e.value), e.after + more, end);
    ConcatAssoc(e.lead, v, end);
    ConcatAssoc(":", e.lead + v, end);
    ConcatAssoc(e.middle, ":" + (e.lead + v), end);
    ConcatAssoc(Literal(e.key), e.middle + (":" + (e.lead + v)), end);
    ConcatAssoc(e.before, Literal(e.key) + (e.middle + (":" + (e.lead + v))), end);
  }

  lemma {:induction false} RecordReads(x: Doc, rest: string)
    requires x.Record? && DocOk(x)
    ensures ParseValue(DocText(x) + rest) == Some((TreeOf(x), rest))
    decreases x, 0, 0
  {
    hide ParseValue, ParseMembers, Skip, EntriesText, MembersOf, Blank, DocOk, EntryOk;
    var body := if x.entries == [] then x.gap else EntriesText(x.entries);
    var s := DocText(x) + rest;
    RecordParts(x);
    ConcatAssoc(body, "}", rest);
    assert s == "{" + (body + ("}" + rest)) && s[1..] == body + ("}" + rest);
    ObjectStart(s);
    if x.entries == [] {
      AfterValue(x.gap, "}" + rest);
      assert ("}" + rest)[1..] == rest;
    } else {
      EntriesRead(x.entries, rest);
      EntriesBegin(x.entries, rest);
      SkipMembers(body + ("}" + rest));
    }
  }

  lemma RecordParts(x: Doc)
    requires x.Record? && DocOk(x)
    ensures Blank(x.gap) && forall k :: 0 <= k < |x.entries| ==>
              EntryOk(x.entries[k]) && AllOk(x.entries[k].key) && DocOk(x.entries[k].value)
    ensures TreeOf(x) == Object(MembersOf(x.entries)) && (x.entries == [] ==> MembersOf(x.entries) == [])
  {
  }

  lemma EntriesBegin(es: seq<Entry>, rest: string)
    requires es != [] && EntryOk(es[0])
    ensures !Starts(Skip(EntriesText(es) + ("}" + rest)), '}')
  {
    hide Skip, DocText, EntriesText, Literal, AllOk;
    var e := es[0];
    var tail := if |es| == 1 then "}" + rest else "," + (EntriesText(es[1..]) + ("}" + rest));
    var t := e.middle + (":" + (e.lead + (DocText(e.value) + (e.after + tail))));
    EntriesShape(es, rest);
    LiteralIs(e.key, t);
    SkipBlanks(e.before, Literal(e.key) + t);
  }

  /**
    A JSON text in any spelling parses to the tree it means; when the end is asked for, exactly if
    nothing but white space stands behind the value.
   */
  lemma TextReads(lead: string, x: Doc, tail: string, closed: bool)
    requires Blank(lead) && DocOk(x) && (x.Num? ==> NumberEnds(tail))
    ensures Parse(lead + (DocText(x) + tail), closed)
         == if closed && !Blank(tail) then None else Some(TreeOf(x))
  {
    hide ParseValue, Skip, DocText, TreeOf, DocOk;
    DocStart(x, tail);
    SkipBlanks(lead, DocText(x) + tail);
    ValueReads(x, tail);
    BlankIsSkipped(tail);
  }

  lemma {:induction false} BlankIsSkipped(s: string)
    ensures Blank(s) <==> Skip(s) == ""
  {
    if s != "" && s[0] <= ' ' {
      BlankIsSkipped(s[1..]);
      assert s == [s[0]] + s[1..];
    }
  }
}
