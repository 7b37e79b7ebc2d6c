/**
  The text that cJSON prints for a tree, formatted or not. A C string is its bytes before the
  terminating NUL; a byte is a `char`.
 */
module JsonText {
  import opened Text
  import opened Json

  const INT_MAX := 0x7fff_ffff
  const INT_MIN := -0x8000_0000
  // 2 to the power -52.
  const DBL_EPSILON := 1.0 / 4503599627370496.0

  function Hex(d: int): char
    requires 0 <= d < 16
  {
    if d < 10 then (d + '0' as int) as char else (d - 10 + 'a' as int) as char
  }

  predicate NeedsEscape(c: char) { c < ' ' || c == '\"' || c == '\\' }

  // What `print_string_ptr` writes for one byte.
  function EscapeChar(c: char): (r: string)
    ensures 1 <= |r| <= 6
  {
    if c == '\"' || c == '\\' then ['\\', c]
    else if c as int == 8 then "\\b"
    else if c as int == 12 then "\\f"
    else if c == '\n' then "\\n"
    else if c == '\r' then "\\r"
    else if c == '\t' then "\\t"
    else if c < ' ' then ['\\', 'u', '0', '0', Hex(c as int / 16), Hex(c as int % 16)]
    else [c]
  }

  function Escape(s: string): (r: string)
    ensures |s| <= |r|
  {
    if s == "" then "" else EscapeChar(s[0]) + Escape(s[1..])
  }

  function Quote(s: string): string { ['\"'] + Escape(s) + ['\"'] }

  // `sprintf("%d", n)`
  function IntText(n: int): string {
    if n < 0 then "-" + Decimal(-n) else Decimal(n)
  }

  function Abs(x: real): real { if x < 0.0 then -x else x }

  // `print_number`; `floats` prints a double that is not an int.
  function NumberText(n: int, d: real, floats: real -> string): string {
    if d == 0.0 then "0"
    else if Abs(n as real - d) <= DBL_EPSILON && d <= INT_MAX as real && d >= INT_MIN as real then IntText(n)
    else floats(d)
  }

  function Tabs(n: nat): (r: string)
    ensures |r| == n
  {
    seq(n, _ => '\t')
  }

  // `print_value` at nesting depth `depth`.
  function Render(t: Json, depth: nat, fmt: bool, floats: real -> string): string
    decreases t, 0
  {
    match t
    case Null => "null"
    case False => "false"
    case True => "true"
    case Number(n, d) => NumberText(n, d, floats)
    case String(s) => Quote(s)
    case Array(items) =>
      if items == [] then "[]" else "[" + RenderItems(items, depth + 1, fmt, floats) + "]"
    case Object(ms, _) =>
      if ms == [] then "{" + (if fmt then "\n" + Tabs(depth) else "") + "}"
      else "{" + (if fmt then "\n" else "") + RenderMembers(ms, depth + 1, fmt, floats)
           + (if fmt then Tabs(depth) else "") + "}"
  }

  function RenderItems(items: seq<Json>, depth: nat, fmt: bool, floats: real -> string): string
    decreases items, 0
  {
    if items == [] then ""
    else Render(items[0], depth, fmt, floats)
         + (if |items| > 1 then (if fmt then ", " else ",") else "")
         + RenderItems(items[1..], depth, fmt, floats)
  }

  function RenderMember(m: Member, depth: nat, last: bool, fmt: bool, floats: real -> string): string
    decreases m, 1
  {
    (if fmt then Tabs(depth) else "") + Quote(m.key) + (if fmt then ":\t" else ":")
    + Render(m.value, depth, fmt, floats)
    + (if last then "" else ",") + (if fmt then "\n" else "")
  }

  function RenderMembers(ms: seq<Member>, depth: nat, fmt: bool, floats: real -> string): string
    decreases ms, 0
  {
    if ms == [] then ""
    else RenderMember(ms[0], depth, |ms| == 1, fmt, floats) + RenderMembers(ms[1..], depth, fmt, floats)
  }

  // ---- Trees that a C program can hold: strings end at their first NUL.

  predicate NoNul(s: string) { '\0' !in s }

  predicate Terminated(t: Json)
    decreases t
  {
    match t
    case String(s) => NoNul(s)
    case Array(items) => forall x <- items :: Terminated(x)
    case Object(ms, _) => forall m <- ms :: NoNul(m.key) && Terminated(m.value)
    case Null => true
    case False => true
    case True => true
    case Number(_, _) => true
  }

  // A character of a printed number: no white space, no quote, no start of a comment.
  predicate TokenChar(c: char) { c > ' ' && c != '\"' && c != '/' }

  // What is assumed of the text of a double: `%f`, `%e` and `%.0f` fit the 64 bytes they get.
  ghost predicate FloatsOk(floats: real -> string) {
    forall d: real :: |floats(d)| <= 63 && forall c <- floats(d) :: TokenChar(c)
  }

  lemma {:induction false} DecimalSize(n: nat, k: nat)
    requires k >= 1 && n < Pow(k)
    ensures |Decimal(n)| <= k
    decreases k
  {
    if n >= 10 {
      DecimalSize(n / 10, k - 1);
    }
  }

  function Pow(k: nat): nat { if k == 0 then 1 else 10 * Pow(k - 1) }

  lemma IntTextSize(n: int)
    requires INT_MIN <= n <= INT_MAX
    ensures |IntText(n)| <= 11 && forall c <- IntText(n) :: TokenChar(c)
  {
    assert Pow(10) == 10000000000 by {
      assert Pow(5) == 100000;
      assert Pow(10) == 100000 * Pow(5);
    }
    DecimalSize(if n < 0 then -n else n, 10);
  }

  // A printed number fits the buffers of `print_number` and is one token.
  lemma NumberTextSize(n: int, d: real, floats: real -> string)
    requires FloatsOk(floats)
    ensures |NumberText(n, d, floats)| <= 63 && forall c <- NumberText(n, d, floats) :: TokenChar(c)
    ensures d != 0.0 && Abs(n as real - d) <= DBL_EPSILON && d <= INT_MAX as real && d >= INT_MIN as real
            ==> |NumberText(n, d, floats)| <= 11
  {
    if d != 0.0 && Abs(n as real - d) <= DBL_EPSILON && d <= INT_MAX as real && d >= INT_MIN as real {
      IntTextSize(n);
    }
  }

  lemma {:induction false} EscapeNoNul(s: string)
    requires NoNul(s)
    ensures NoNul(Escape(s))
  {
    if s != "" {
      assert s[0] in s && forall c <- s[1..] :: c in s;
      EscapeNoNul(s[1..]);
    }
  }

  /** Printed text has no NUL: the terminating one is the first. */
  lemma {:induction false} RenderNoNul(t: Json, depth: nat, fmt: bool, floats: real -> string)
    requires Terminated(t) && FloatsOk(floats)
    ensures NoNul(Render(t, depth, fmt, floats))
    decreases t, 0
  {
    hide FloatsOk, NumberText, Escape;
    match t
    case Null =>
    case False =>
    case True =>
    case Number(n, d) => NumberTextSize(n, d, floats);
    case String(s) => EscapeNoNul(s);
    case Array(items) => ItemsNoNul(items, depth + 1, fmt, floats);
    case Object(ms, _) => MembersNoNul(ms, depth + 1, fmt, floats);
  }

  lemma {:induction false} ItemsNoNul(items: seq<Json>, depth: nat, fmt: bool, floats: real -> string)
    requires (forall x <- items :: Terminated(x)) && FloatsOk(floats)
    ensures NoNul(RenderItems(items, depth, fmt, floats))
    decreases items, 0
  {
    hide FloatsOk, Render;
    if items != [] {
      assert items[0] in items && forall x <- items[1..] :: x in items;
      RenderNoNul(items[0], depth, fmt, floats);
      ItemsNoNul(items[1..], depth, fmt, floats);
    }
  }

  lemma {:induction false} MembersNoNul(ms: seq<Member>, depth: nat, fmt: bool, floats: real -> string)
    requires (forall m <- ms :: NoNul(m.key) && Terminated(m.value)) && FloatsOk(floats)
    ensures NoNul(RenderMembers(ms, depth, fmt, floats))
    decreases ms, 0
  {
    hide FloatsOk, Render, Escape, RenderMember;
    if ms != [] {
      assert ms[0] in ms && forall m <- ms[1..] :: m in ms;
      RenderNoNul(ms[0].value, depth, fmt, floats);
      MemberNoNul(ms[0], depth, |ms| == 1, fmt, floats);
      MembersNoNul(ms[1..], depth, fmt, floats);
    }
  }

  lemma MemberNoNul(m: Member, depth: nat, last: bool, fmt: bool, floats: real -> string)
    requires NoNul(m.key) && NoNul(Render(m.value, depth, fmt, floats))
    ensures NoNul(RenderMember(m, depth, last, fmt, floats))
  {
    hide Render, Escape;
    EscapeNoNul(m.key);
  }

  // ----- text in front of an optional text -----

  function Put(a: string, r: Option<string>): Option<string> {
    match r case Some(b) => Some(a + b) case None => None
  }

  lemma PutTwice(a: string, b: string, r: Option<string>)
    ensures Put(a, Put(b, r)) == Put(a + b, r)
  {
    if r.Some? {
      assert a + (b + r.value) == a + b + r.value;
    }
  }

  lemma PutNothing(r: Option<string>)
    ensures Put("", r) == r
  {
    if r.Some? {
      assert "" + r.value == r.value;
    }
  }
}
