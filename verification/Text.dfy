/**
  C strings, as far as cJSON needs them: the two comparison functions, ASCII case folding and
  decimal numerals. A `string` stands for the bytes before the terminating NUL.
 */
module Text {

  datatype Option<+T> = None | Some(value: T)

  predicate IsDigit(c: char) { '0' <= c <= '9' }

  predicate IsUpper(c: char) { 'A' <= c <= 'Z' }

  // `tolower` in the C locale.
  function Lower(c: char): char {
    if IsUpper(c) then (c as int + 32) as char else c
  }

  function Fold(s: string): (r: string)
    ensures |r| == |s|
  {
    if s == [] then [] else [Lower(s[0])] + Fold(s[1..])
  }

  lemma FoldSuffix(s: string, i: nat)
    requires i <= |s|
    ensures Fold(s)[i..] == Fold(s[i..])
  {
    if i > 0 {
      assert Fold(s)[i..] == Fold(s[1..])[i - 1..];
      FoldSuffix(s[1..], i - 1);
    }
  }

  lemma FoldCons(a: string, b: string)
    requires a != [] && b != []
    ensures Fold(a) == Fold(b) <==> Lower(a[0]) == Lower(b[0]) && Fold(a[1..]) == Fold(b[1..])
  {
    assert Fold(a)[1..] == Fold(a[1..]) && Fold(b)[1..] == Fold(b[1..]);
    assert Fold(a)[0] == Lower(a[0]) && Fold(b)[0] == Lower(b[0]);
  }

  // The sign of `strcmp`; no caller looks at more than the sign.
  function StrCmp(a: string, b: string): (r: int)
    ensures -1 <= r <= 1
    ensures r == 0 <==> a == b
  {
    if a == [] && b == [] then 0
    else if a == [] then -1
    else if b == [] then 1
    else if a[0] < b[0] then -1
    else if a[0] > b[0] then 1
    else
      assert a[0] == b[0];
      assert a == [a[0]] + a[1..] && b == [b[0]] + b[1..];
      StrCmp(a[1..], b[1..])
  }

  // The sign of `strcasecmp`.
  function CaseCmp(a: string, b: string): int { StrCmp(Fold(a), Fold(b)) }

  lemma {:induction false} StrCmpAntisym(a: string, b: string)
    ensures StrCmp(a, b) == -StrCmp(b, a)
  {
    if a != [] && b != [] && a[0] == b[0] {
      StrCmpAntisym(a[1..], b[1..]);
    }
  }

  lemma {:induction false} StrCmpTrans(a: string, b: string, c: string)
    requires StrCmp(a, b) <= 0 && StrCmp(b, c) <= 0
    ensures StrCmp(a, c) <= 0
    ensures StrCmp(a, b) < 0 || StrCmp(b, c) < 0 ==> StrCmp(a, c) < 0
  {
    if a != [] && b != [] && c != [] && a[0] == b[0] == c[0] {
      StrCmpTrans(a[1..], b[1..], c[1..]);
      assert a == [a[0]] + a[1..] && b == [b[0]] + b[1..] && c == [c[0]] + c[1..];
    }
  }

  lemma CaseCmpAntisym(a: string, b: string)
    ensures CaseCmp(a, b) == -CaseCmp(b, a)
  {
    StrCmpAntisym(Fold(a), Fold(b));
  }

  // The byte of a C string at `i`; the terminating NUL is behind its text.
  function ByteAt(s: string, i: nat): char
    requires i <= |s|
  {
    if i < |s| then s[i] else '\0'
  }

  predicate NulFree(s: string) { forall i :: 0 <= i < |s| ==> s[i] != '\0' }

  // `cJSONUtils_strcasecmp`, where none stands for a NULL pointer: the difference of the first two
  // folded bytes that differ. Its sign is the order of the folded strings.
  method CompareIgnoringCase(a: Option<string>, b: Option<string>) returns (r: int)
    requires (a.Some? ==> NulFree(a.value)) && (b.Some? ==> NulFree(b.value))
    ensures a == None ==> r == if b == None then 0 else 1
    ensures a.Some? && b == None ==> r == 1
    ensures a.Some? && b.Some? ==> (r < 0 <==> CaseCmp(a.value, b.value) < 0)
    ensures a.Some? && b.Some? ==> (r == 0 <==> CaseCmp(a.value, b.value) == 0)
    ensures a.Some? && b.Some? && r != 0 ==>
              exists i: nat :: i <= |a.value| && i <= |b.value|
                && Fold(a.value[..i]) == Fold(b.value[..i])
                && r == Lower(ByteAt(a.value, i)) as int - Lower(ByteAt(b.value, i)) as int
  {
    if a == None {
      return if b == None then 0 else 1;
    }
    if b == None {
      return 1;
    }
    var s, t := a.value, b.value;
    var i := 0;
    while Lower(ByteAt(s, i)) == Lower(ByteAt(t, i))
      invariant i <= |s| && i <= |t|
      invariant CaseCmp(s, t) == CaseCmp(s[i..], t[i..])
      invariant Fold(s[..i]) == Fold(t[..i])
      decreases |s| - i
    {
      if ByteAt(s, i) == '\0' {
        return 0;
      }
      FoldSuffix(s[i..], 1);
      FoldSuffix(t[i..], 1);
      FoldSnoc(s, i);
      FoldSnoc(t, i);
      i := i + 1;
    }
    r := Lower(ByteAt(s, i)) as int - Lower(ByteAt(t, i)) as int;
  }

  lemma {:induction false} FoldSnoc(s: string, i: nat)
    requires i < |s|
    ensures Fold(s[..i + 1]) == Fold(s[..i]) + [Lower(s[i])]
  {
    if i == 0 {
      assert s[..1] == [s[0]] && s[..1][1..] == "";
    } else {
      assert s[..i + 1][1..] == s[1..][..i] && s[..i][1..] == s[1..][..i - 1];
      FoldSnoc(s[1..], i - 1);
    }
  }

  // `sprintf("%d", n)` for a natural number.
  function Decimal(n: nat): (r: string)
    ensures r != [] && forall c <- r :: IsDigit(c)
  {
    var last := [('0' as int + n % 10) as char];
    if n < 10 then last else Decimal(n / 10) + last
  }

  // The value of a run of decimal digits, read left to right.
  function DecimalValue(s: string): nat
    requires forall c <- s :: IsDigit(c)
  {
    if s == [] then 0
    else
      assert IsDigit(s[|s| - 1]);
      DecimalValue(s[..|s| - 1]) * 10 + (s[|s| - 1] as int - '0' as int)
  }

  lemma {:induction false} DecimalRoundTrip(n: nat)
    ensures DecimalValue(Decimal(n)) == n
    ensures n > 0 ==> Decimal(n)[0] != '0'
  {
    var s := Decimal(n);
    if n >= 10 {
      assert s[..|s| - 1] == Decimal(n / 10);
      DecimalRoundTrip(n / 10);
    } else {
      assert s[..|s| - 1] == [];
    }
  }

  // How many of the leading characters are digits.
  function DigitRun(s: string): (n: nat)
    ensures n <= |s|
    ensures forall c <- s[..n] :: IsDigit(c)
    ensures n < |s| ==> !IsDigit(s[n])
  {
    if s == [] || !IsDigit(s[0]) then 0
    else
      assert s[..1 + DigitRun(s[1..])] == [s[0]] + s[1..][..DigitRun(s[1..])];
      1 + DigitRun(s[1..])
  }

  lemma {:induction false} DigitRunOf(d: string, rest: string)
    requires forall c <- d :: IsDigit(c)
    requires rest == [] || !IsDigit(rest[0])
    ensures DigitRun(d + rest) == |d|
  {
    if d == [] {
      assert d + rest == rest;
    } else {
      assert (d + rest)[1..] == d[1..] + rest;
      DigitRunOf(d[1..], rest);
    }
  }

  lemma ConcatAssoc<T>(a: seq<T>, b: seq<T>, c: seq<T>)
    ensures (a + b) + c == a + (b + c)
  {
  }

  // The value of a hexadecimal numeral with digits of either case; none for any other text.
  function HexNumeral(s: string): Option<nat> {
    if s == "" then Some(0)
    else
      var n, c := |s| - 1, s[|s| - 1];
      match HexNumeral(s[..n])
      case None => None
      case Some(v) =>
        if IsDigit(c) then Some(v * 16 + (c as int - '0' as int))
        else if 'a' <= c <= 'f' then Some(v * 16 + (c as int - 'a' as int + 10))
        else if 'A' <= c <= 'F' then Some(v * 16 + (c as int - 'A' as int + 10))
        else None
  }
}
