/**
  The recursive-descent parser of cJSON, and that it reads back what the printers write.
 */
module JsonParse {
  import opened Text
  import opened Json
  import opened JsonText
  import S = JsonString

  // `skip`: white space is every byte up to 32.
  function Skip(s: string): (r: string)
    ensures |r| <= |s| && (r != "" ==> r[0] > ' ')
  {
    if s != "" && s[0] <= ' ' then Skip(s[1..]) else s
  }

  function Starts(s: string, c: char): bool { s != "" && s[0] == c }

  // 10 to the power `e`.
  function Pow10(e: int): (r: real)
    ensures r > 0.0
    decreases if e < 0 then -e else e
  {
    if e == 0 then 1.0 else if e > 0 then 10.0 * Pow10(e - 1) else Pow10(e + 1) / 10.0
  }

  // The conversion of a double to an `int`, towards zero.
  function Trunc(d: real): int { if d < 0.0 then -(-d).Floor else d.Floor }

  // The digits of the integer part: a single leading zero counts for nothing.
  function IntegerPart(s: string): (r: (string, string))
    ensures forall c <- r.0 :: IsDigit(c)
    ensures |r.0| + |r.1| <= |s|
  {
    var t := if Starts(s, '0') then s[1..] else s;
    if t != "" && '1' <= t[0] <= '9' then (t[..DigitRun(t)], t[DigitRun(t)..]) else ("", t)
  }

  function FractionPart(s: string): (r: (string, string))
    ensures forall c <- r.0 :: IsDigit(c)
    ensures |r.0| + |r.1| <= |s|
  {
    if |s| >= 2 && s[0] == '.' && IsDigit(s[1]) then
      var t := s[1..];
      (t[..DigitRun(t)], t[DigitRun(t)..])
    else ("", s)
  }

  // The exponent, 0 if there is none.
  function ExponentPart(s: string): (r: (int, string))
    ensures |r.1| <= |s|
  {
    if Starts(s, 'e') || Starts(s, 'E') then
      var t := s[1..];
      var sign := if Starts(t, '-') then -1 else 1;
      var u := if Starts(t, '+') || Starts(t, '-') then t[1..] else t;
      (sign * DecimalValue(u[..DigitRun(u)]), u[DigitRun(u)..])
    else (0, s)
  }

  function Scaled(negative: bool, mantissa: real, e: int): real {
    (if negative then -1.0 else 1.0) * mantissa * Pow10(e)
  }

  // `parse_number`, with exact arithmetic.
  function ParseNumber(s: string): (r: (Json, string))
    requires s != "" && (s[0] == '-' || IsDigit(s[0]))
    ensures |r.1| < |s|
  {
    var t := if s[0] == '-' then s[1..] else s;
    var i := IntegerPart(t);
    var f := FractionPart(i.1);
    var e := ExponentPart(f.1);
    var d := Scaled(s[0] == '-', DecimalValue(AllDigits(i.0, f.0)) as real, e.0 - |f.0|);
    NumberShrinks(s);
    (Number(Trunc(d), d), e.1)
  }

  function AllDigits(a: string, b: string): (r: string)
    requires (forall c <- a :: IsDigit(c)) && (forall c <- b :: IsDigit(c))
    ensures forall c <- r :: IsDigit(c)
  {
    a + b
  }

  lemma NumberShrinks(s: string)
    requires s != "" && (s[0] == '-' || IsDigit(s[0]))
    ensures s[0] != '-' ==> |IntegerPart(s).1| < |s|
  {
  }

  // `parse_value` and the loops of `parse_array` and `parse_object`: the value and the text behind
  // it.
  function ParseValue(s: string): (r: Option<(Json, string)>)
    ensures r.Some? ==> |r.value.1| < |s|
    decreases |s|, 0
  {
    if "null" <= s then Some((Null, s[4..]))
    else if "false" <= s then Some((False, s[5..]))
    else if "true" <= s then Some((True, s[4..]))
    else if s == "" then None
    else if s[0] == '\"' then
      match S.ParseString(s) { case Some(p) => Some((String(p.0), p.1)) case None => None }
    else if s[0] == '-' || IsDigit(s[0]) then Some(ParseNumber(s))
    else if s[0] == '[' then
      var t := Skip(s[1..]);
      if Starts(t, ']') then Some((Array([]), t[1..]))
      else match ParseItems(t) { case Some(p) => Some((Array(p.0), p.1)) case None => None }
    else if s[0] == '{' then
      var t := Skip(s[1..]);
      if Starts(t, '}') then Some((Object([]), t[1..]))
      else match ParseMembers(t) { case Some(p) => Some((Object(p.0), p.1)) case None => None }
    else None
  }

  function ParseItems(s: string): (r: Option<(seq<Json>, string)>)
    ensures r.Some? ==> |r.value.1| < |s|
    decreases |s|, 1
  {
    match ParseValue(Skip(s))
    case None => None
    case Some((v, r)) =>
      var t := Skip(r);
      if Starts(t, ',') then
        match ParseItems(t[1..]) { case Some(p) => Some(([v] + p.0, p.1)) case None => None }
      else if Starts(t, ']') then Some(([v], t[1..]))
      else None
  }

  function ParseMembers(s: string): (r: Option<(seq<Member>, string)>)
    ensures r.Some? ==> |r.value.1| < |s|
    decreases |s|, 1
  {
    match S.ParseString(Skip(s))
    case None => None
    case Some((key, q)) =>
      var c := Skip(q);
      if !Starts(c, ':') then None
      else
        match ParseValue(Skip(c[1..]))
        case None => None
        case Some((v, r)) =>
          var t := Skip(r);
          var m := Member(key, v);
          if Starts(t, ',') then
            match ParseMembers(t[1..]) { case Some(p) => Some(([m] + p.0, p.1)) case None => None }
          else if Starts(t, '}') then Some(([m], t[1..]))
          else None
  }

  // `cJSON_ParseWithOpts`; `closed` asks for nothing but white space behind the value.
  function Parse(text: string, closed: bool): Option<Json> {
    match ParseValue(Skip(text))
    case None => None
    case Some((t, rest)) => if closed && Skip(rest) != "" then None else Some(t)
  }

  // ---- Printed text is read back.

  // Trees whose numbers are ints.
  predicate Printable(t: Json)
    decreases t
  {
    match t
    case String(s) => NoNul(s)
    case Array(items) => forall x <- items :: Printable(x)
    case Object(ms, _) => forall m <- ms :: NoNul(m.key) && Printable(m.value)
    case Number(n, d) => INT_MIN <= n <= INT_MAX && d == n as real
    case Null => true
    case False => true
    case True => true
  }

  // A text that does not go on with a number.
  predicate NumberEnds(s: string) {
    s == "" || !(IsDigit(s[0]) || s[0] == '.' || s[0] == 'e' || s[0] == 'E')
  }

  lemma {:induction false} SkipBlanks(blanks: string, s: string)
    requires forall i :: 0 <= i < |blanks| ==> blanks[i] <= ' '
    requires s == "" || s[0] > ' '
    ensures Skip(blanks + s) == s
  {
    if blanks == "" {
      assert blanks + s == s;
    } else {
      assert (blanks + s)[1..] == blanks[1..] + s;
      SkipBlanks(blanks[1..], s);
    }
  }

  lemma NaturalBack(n: nat, rest: string)
    requires NumberEnds(rest)
    ensures
      var i := IntegerPart(Decimal(n) + rest);
      && i.1 == rest && DecimalValue(i.0) == n
      && FractionPart(rest) == ("", rest) && ExponentPart(rest) == (0, rest)
  {
    var d := Decimal(n);
    var s := d + rest;
    DecimalRoundTrip(n);
    DigitRunOf(d, rest);
    if n == 0 {
      assert d == "0";
      assert s[1..] == rest;
    } else {
      assert IsDigit(d[0]);
      assert s[..|d|] == d && s[|d|..] == rest;
    }
  }

  lemma NumberBack(n: int, rest: string)
    requires NumberEnds(rest)
    ensures IntText(n) != "" && (IntText(n)[0] == '-' || IsDigit(IntText(n)[0]))
    ensures (IntText(n) + rest)[0] == IntText(n)[0]
    ensures ParseNumber(IntText(n) + rest) == (Number(n, n as real), rest)
  {
    var m := if n < 0 then -n else n;
    NaturalBack(m, rest);
    DecimalFirst(m);
    TruncInt(n);
    ScaledInt(n);
    IntTextStart(n, rest);
    hide *;
    ParseNumberIs(IntText(n) + rest, IntegerPart(Decimal(m) + rest).0, rest);
  }

  lemma IntTextStart(n: int, rest: string)
    ensures
      var m, s := if n < 0 then -n else n, IntText(n) + rest;
      && IntText(n) != "" && s[0] == IntText(n)[0]
      && (n < 0 ==> s[0] == '-' && s[1..] == Decimal(m) + rest)
      && (n >= 0 ==> IsDigit(s[0]) && s[0] != '-' && s == Decimal(m) + rest)
  {
    DecimalFirst(if n < 0 then -n else n);
    hide Decimal;
  }

  lemma ParseNumberIs(s: string, digits: string, rest: string)
    requires s != "" && (s[0] == '-' || IsDigit(s[0]))
    requires IntegerPart(if s[0] == '-' then s[1..] else s) == (digits, rest)
    requires FractionPart(rest) == ("", rest) && ExponentPart(rest) == (0, rest)
    ensures forall c <- digits :: IsDigit(c)
    ensures
      var d := Scaled(s[0] == '-', DecimalValue(digits) as real, 0);
      ParseNumber(s) == (Number(Trunc(d), d), rest)
  {
    hide IntegerPart, FractionPart, ExponentPart, DecimalValue, Trunc, Scaled;
    assert digits + "" == digits;
  }

  lemma DecimalFirst(m: nat)
    ensures IsDigit(Decimal(m)[0])
  {
  }

  lemma TruncInt(n: int)
    ensures Trunc(n as real) == n
  {
  }

  lemma ScaledInt(n: int)
    ensures Scaled(n < 0, (if n < 0 then -n else n) as real, 0) == n as real
  {
    assert Pow10(0) == 1.0;
  }

  lemma NumberValueBack(n: int, rest: string)
    requires NumberEnds(rest)
    ensures ParseValue(IntText(n) + rest) == Some((Number(n, n as real), rest))
  {
    NumberBack(n, rest);
    NumberValueIs(IntText(n) + rest);
  }

  lemma NumberValueIs(s: string)
    requires s != "" && (s[0] == '-' || IsDigit(s[0]))
    ensures ParseValue(s) == Some(ParseNumber(s))
  {
    hide ParseNumber, ParseItems, ParseMembers, S.ParseString;
  }

  // The first character of a printed value.
  lemma FirstChar(t: Json, depth: nat, fmt: bool, floats: real -> string)
    requires Printable(t)
    ensures var r := Render(t, depth, fmt, floats); r != "" && r[0] > ' ' && r[0] != ']'
  {
    hide Escape, RenderItems, RenderMembers, Tabs;
    match t
    case Number(n, d) =>
      IntTextOf(n, d, floats);
      NumberBack(n, "");
    case Null =>
    case False =>
    case True =>
    case String(s) =>
    case Array(items) =>
    case Object(ms, _) =>
  }

  lemma IntTextOf(n: int, d: real, floats: real -> string)
    requires INT_MIN <= n <= INT_MAX && d == n as real
    ensures NumberText(n, d, floats) == IntText(n)
  {
  }

  lemma {:induction false} ValueRoundTrip(t: Json, depth: nat, fmt: bool, floats: real -> string, rest: string)
    requires Printable(t) && NumberEnds(rest)
    ensures ParseValue(Render(t, depth, fmt, floats) + rest) == Some((Duplicate(t), rest))
    decreases t, 0
  {
    hide Render, ParseItems, ParseMembers, ParseNumber, S.ParseString, Quote, NumberText, IntText;
    LeafIsItsCopy(t);
    match t
    case Null => RenderLeaf(t, depth, fmt, floats); LiteralBack(rest);
    case False => RenderLeaf(t, depth, fmt, floats); LiteralBack(rest);
    case True => RenderLeaf(t, depth, fmt, floats); LiteralBack(rest);
    case Number(n, d) =>
      RenderLeaf(t, depth, fmt, floats);
      IntTextOf(n, d, floats);
      NumberValueBack(n, rest);
    case String(s) => RenderLeaf(t, depth, fmt, floats); StringBack(s, rest);
    case Array(items) => ArrayRoundTrip(t, depth, fmt, floats, rest);
    case Object(ms, _) => ObjectRoundTrip(t, depth, fmt, floats, rest);
  }

  lemma LeafIsItsCopy(t: Json)
    ensures t.Array? || t.Object? || Duplicate(t) == t
  {
  }

  lemma LiteralBack(rest: string)
    ensures ParseValue("null" + rest) == Some((Null, rest))
    ensures ParseValue("false" + rest) == Some((False, rest))
    ensures ParseValue("true" + rest) == Some((True, rest))
  {
    hide ParseItems, ParseMembers, ParseNumber, S.ParseString;
    var n, f, t := "null" + rest, "false" + rest, "true" + rest;
    assert n[0] == 'n' && n[4..] == rest;
    assert f[0] == 'f' && f[5..] == rest;
    assert t[0] == 't' && t[4..] == rest;
  }

  lemma RenderLeaf(t: Json, depth: nat, fmt: bool, floats: real -> string)
    ensures t.Null? ==> Render(t, depth, fmt, floats) == "null"
    ensures t.False? ==> Render(t, depth, fmt, floats) == "false"
    ensures t.True? ==> Render(t, depth, fmt, floats) == "true"
    ensures t.Number? ==> Render(t, depth, fmt, floats) == NumberText(t.valueint, t.valuedouble, floats)
    ensures t.String? ==> Render(t, depth, fmt, floats) == Quote(t.text)
  {
    hide NumberText, Quote;
  }

  lemma StringBack(s: string, rest: string)
    requires NoNul(s)
    ensures ParseValue(Quote(s) + rest) == Some((String(s), rest))
  {
    hide S.ParseString;
    S.StringRoundTrip(s, rest);
    assert (Quote(s) + rest)[0] == '\"';
  }

  lemma {:induction false} ArrayRoundTrip(t: Json, depth: nat, fmt: bool, floats: real -> string, rest: string)
    requires t.Array? && Printable(t)
    ensures ParseValue(Render(t, depth, fmt, floats) + rest) == Some((Duplicate(t), rest))
    decreases t, 0, 0
  {
    hide ParseValue, ParseItems, Render, RenderItems;
    var items := RenderItems(t.items, depth + 1, fmt, floats);
    var body := items + "]" + rest;
    RenderArray(t, depth, fmt, floats);
    assert "[" + items + "]" + rest == "[" + body && ("[" + body)[1..] == body;
    ArrayStart("[" + body);
    if t.items == [] {
      assert body == "]" + rest && body[1..] == rest;
    } else {
      ItemsStart(t.items, depth + 1, fmt, floats);
      ItemsRoundTrip(t.items, depth + 1, fmt, floats, rest);
    }
  }

  lemma RenderArray(t: Json, depth: nat, fmt: bool, floats: real -> string)
    requires t.Array?
    ensures Render(t, depth, fmt, floats) == "[" + RenderItems(t.items, depth + 1, fmt, floats) + "]"
    ensures t.items == [] ==> RenderItems(t.items, depth + 1, fmt, floats) == ""
  {
  }

  lemma ItemsStart(items: seq<Json>, depth: nat, fmt: bool, floats: real -> string)
    requires items != [] && Printable(items[0])
    ensures var r := RenderItems(items, depth, fmt, floats); r != "" && r[0] > ' ' && r[0] != ']'
  {
    hide Render;
    FirstChar(items[0], depth, fmt, floats);
  }

  lemma {:induction false} ItemsRoundTrip(items: seq<Json>, depth: nat, fmt: bool, floats: real -> string, rest: string)
    requires items != [] && forall x <- items :: Printable(x)
    ensures ParseItems(RenderItems(items, depth, fmt, floats) + "]" + rest) == Some((DuplicateItems(items), rest))
    decreases items, 0, 0
  {
    hide ParseValue, Render, Printable, RenderItems;
    var first := Render(items[0], depth, fmt, floats);
    ItemsSplit(items, depth, fmt, floats);
    FirstChar(items[0], depth, fmt, floats);
    if |items| == 1 {
      var all := RenderItems(items, depth, fmt, floats) + "]" + rest;
      assert all == first + ("]" + rest);
      ValueRoundTrip(items[0], depth, fmt, floats, "]" + rest);
      assert Skip(all) == all && Skip("]" + rest) == "]" + rest;
      assert ("]" + rest)[1..] == rest && DuplicateItems(items) == [Duplicate(items[0])];
    } else {
      var comma := if fmt then ", " else ",";
      var more := RenderItems(items[1..], depth, fmt, floats) + "]" + rest;
      var all := RenderItems(items, depth, fmt, floats) + "]" + rest;
      assert all == first + (comma + more) && Skip(all) == all && Skip(comma + more) == comma + more;
      ValueRoundTrip(items[0], depth, fmt, floats, comma + more);
      ItemsRoundTrip(items[1..], depth, fmt, floats, rest);
      var blanks := if fmt then " " else "";
      assert (comma + more)[1..] == blanks + more;
      ItemsStart(items[1..], depth, fmt, floats);
      SkipItems(blanks, more);
      assert DuplicateItems(items) == [Duplicate(items[0])] + DuplicateItems(items[1..]);
    }
  }

  lemma ItemsSplit(items: seq<Json>, depth: nat, fmt: bool, floats: real -> string)
    requires items != []
    ensures RenderItems(items, depth, fmt, floats)
         == if |items| == 1 then Render(items[0], depth, fmt, floats)
            else Render(items[0], depth, fmt, floats) + (if fmt then ", " else ",")
                 + RenderItems(items[1..], depth, fmt, floats)
  {
    hide Render;
    var first := Render(items[0], depth, fmt, floats);
    if |items| == 1 {
      assert items[1..] == [] && first + "" + "" == first;
    }
  }

  // White space in front of a list does not matter.
  lemma SkipItems(blanks: string, s: string)
    requires forall i :: 0 <= i < |blanks| ==> blanks[i] <= ' '
    requires s != "" && s[0] > ' '
    ensures ParseItems(blanks + s) == ParseItems(s)
  {
    hide ParseValue;
    SkipBlanks(blanks, s);
    SkipBlanks("", s);
    assert "" + s == s;
  }

  lemma {:induction false} ObjectRoundTrip(t: Json, depth: nat, fmt: bool, floats: real -> string, rest: string)
    requires t.Object? && Printable(t)
    ensures ParseValue(Render(t, depth, fmt, floats) + rest) == Some((Duplicate(t), rest))
    decreases t, 0, 0
  {
    hide ParseValue, ParseMembers, RenderMembers, Render, Tabs;
    if t.members == [] {
      EmptyRoundTrip(depth, fmt, rest);
      RenderObject(t, depth, fmt, floats);
    } else {
      var close, blanks := if fmt then Tabs(depth) else "", if fmt then "\n" else "";
      var body := RenderMembers(t.members, depth + 1, fmt, floats) + (close + "}" + rest);
      RenderObject(t, depth, fmt, floats);
      RegroupObject(blanks, RenderMembers(t.members, depth + 1, fmt, floats), close, rest);
      TabsAreBlank(depth);
      MembersRoundTrip(t.members, depth + 1, fmt, floats, close, rest);
      MembersStart(t.members, depth + 1, fmt, floats, close + "}" + rest, blanks);
      ObjectBody(blanks + body);
    }
  }

  lemma RegroupObject(a: string, b: string, c: string, d: string)
    ensures "{" + a + b + c + "}" + d == "{" + (a + (b + (c + "}" + d)))
  {
    var e := c + "}" + d;
    assert "{" + a + b + c + "}" + d == "{" + a + b + e;
    assert "{" + a + b + e == "{" + a + (b + e);
    assert "{" + a + (b + e) == "{" + (a + (b + e));
  }

  lemma RenderObject(t: Json, depth: nat, fmt: bool, floats: real -> string)
    requires t.Object?
    ensures Render(t, depth, fmt, floats)
         == if t.members == [] then "{" + (if fmt then "\n" + Tabs(depth) else "") + "}"
            else "{" + (if fmt then "\n" else "") + RenderMembers(t.members, depth + 1, fmt, floats)
                 + (if fmt then Tabs(depth) else "") + "}"
  {
    hide Tabs, RenderMembers;
  }

  lemma EmptyRoundTrip(depth: nat, fmt: bool, rest: string)
    ensures ParseValue("{" + (if fmt then "\n" + Tabs(depth) else "") + "}" + rest) == Some((Object([]), rest))
  {
    hide ParseValue, Tabs;
    var blanks := if fmt then "\n" + Tabs(depth) else "";
    TabsAreBlank(depth);
    SkipBlanks(blanks, "}" + rest);
    assert ("}" + rest)[1..] == rest;
    ObjectClosed(blanks + ("}" + rest));
    assert "{" + blanks + "}" + rest == "{" + (blanks + ("}" + rest));
  }

  lemma ObjectClosed(body: string)
    requires Starts(Skip(body), '}')
    ensures ParseValue("{" + body) == Some((Object([]), Skip(body)[1..]))
  {
    hide ParseItems, ParseMembers, ParseNumber, S.ParseString, Skip;
    var s := "{" + body;
    assert s[0] == '{' && s[1..] == body;
  }

  lemma ObjectBody(body: string)
    requires Skip(body) != "" && Skip(body)[0] == '\"'
    ensures ParseValue("{" + body)
         == match ParseMembers(Skip(body)) { case Some(p) => Some((Object(p.0), p.1)) case None => None }
  {
    hide ParseItems, ParseMembers, ParseNumber, S.ParseString, Skip;
    var s := "{" + body;
    assert s[0] == '{' && s[1..] == body;
  }

  // Behind the white space in front of the first member stands its key.
  lemma MembersStart(ms: seq<Member>, depth: nat, fmt: bool, floats: real -> string, rest: string, blanks: string)
    requires ms != [] && forall i :: 0 <= i < |blanks| ==> blanks[i] <= ' '
    ensures
      var s := RenderMembers(ms, depth, fmt, floats) + rest;
      var t := Skip(blanks + s);
      t != "" && t[0] == '\"' && ParseMembers(t) == ParseMembers(s)
  {
    hide *;
    var tabs := if fmt then Tabs(depth) else "";
    var q0 := MembersShape(ms, depth, fmt, floats);
    TabsAreBlank(depth);
    Regroup(blanks, tabs, q0, rest);
    TwoBlanks(blanks, tabs, q0 + rest);
    SkipMembers(RenderMembers(ms, depth, fmt, floats) + rest);
  }

  lemma Regroup(a: string, b: string, c: string, d: string)
    ensures b + c + d == b + (c + d) && a + (b + c + d) == a + b + (c + d)
    ensures c != "" ==> (c + d)[0] == c[0]
  {
  }

  lemma TabsAreBlank(n: nat)
    ensures forall i :: 0 <= i < n ==> Tabs(n)[i] <= ' '
  {
  }

  lemma TwoBlanks(a: string, b: string, q: string)
    requires forall i :: 0 <= i < |a| ==> a[i] <= ' '
    requires forall i :: 0 <= i < |b| ==> b[i] <= ' '
    requires q == "" || q[0] > ' '
    ensures Skip(a + b + q) == q && Skip(b + q) == q
  {
    hide Skip;
    SkipBlanks(a + b, q);
    SkipBlanks(b, q);
  }

  lemma MembersShape(ms: seq<Member>, depth: nat, fmt: bool, floats: real -> string) returns (q: string)
    requires ms != []
    ensures RenderMembers(ms, depth, fmt, floats) == (if fmt then Tabs(depth) else "") + q
    ensures q != "" && q[0] == '\"'
  {
    hide Render, RenderMembers, Quote, Tabs, MemberHead;
    MemberSplit(ms, depth, fmt, floats);
    HeadShape(ms[0], depth, fmt, floats, "");
    QuoteStart(ms[0].key);
    var h := MemberHead(ms[0], depth, fmt, floats);
    var tail := ":" + ((if fmt then "\t" else "") + (Render(ms[0].value, depth, fmt, floats) + ""));
    var more := (if |ms| == 1 then "" else ",") + (if fmt then "\n" else "")
                + (if |ms| == 1 then "" else RenderMembers(ms[1..], depth, fmt, floats));
    q := Quote(ms[0].key) + tail + more;
    assert h + "" == h;
    assert RenderMembers(ms, depth, fmt, floats) == h + more;
  }

  lemma {:induction false} MembersRoundTrip(ms: seq<Member>, depth: nat, fmt: bool, floats: real -> string,
                                            close: string, rest: string)
    requires ms != [] && forall m <- ms :: NoNul(m.key) && Printable(m.value)
    requires forall i :: 0 <= i < |close| ==> close[i] <= ' '
    ensures ParseMembers(RenderMembers(ms, depth, fmt, floats) + (close + "}" + rest)) == Some((DuplicateMembers(ms), rest))
    decreases ms, 0, 0
  {
    hide ParseValue, Render, Printable, NoNul, RenderMembers, S.ParseString, MemberHead, ParseMembers;
    var m, end := ms[0], close + "}" + rest;
    var newline := if fmt then "\n" else "";
    MemberSplit(ms, depth, fmt, floats);
    var head := MemberHead(m, depth, fmt, floats);
    if |ms| == 1 {
      var after := newline + end;
      assert RenderMembers(ms, depth, fmt, floats) + end == head + after;
      MemberRoundTrip(m, depth, fmt, floats, after);
      LastMember(head + after, newline + close, rest, after);
      assert DuplicateMembers(ms) == [Member(m.key, Duplicate(m.value))];
    } else {
      var next := RenderMembers(ms[1..], depth, fmt, floats) + end;
      var after := "," + (newline + next);
      assert RenderMembers(ms, depth, fmt, floats) + end == head + after;
      MemberRoundTrip(m, depth, fmt, floats, after);
      MembersRoundTrip(ms[1..], depth, fmt, floats, close, rest);
      MembersStart(ms[1..], depth, fmt, floats, end, newline);
      SkipMembers(newline + next);
      NotLastMember(head + after, newline + next, after);
      assert DuplicateMembers(ms) == [Member(m.key, Duplicate(m.value))] + DuplicateMembers(ms[1..]);
    }
  }

  // The member at the start of a list, when the list goes on with `after`.
  ghost predicate Begins(s: string, key: string, v: Json, after: string) {
    && S.ParseString(Skip(s)).Some?
    && S.ParseString(Skip(s)).value.0 == key
    && var c := Skip(S.ParseString(Skip(s)).value.1);
    Starts(c, ':') && ParseValue(Skip(c[1..])) == Some((v, after))
  }

  lemma LastMember(s: string, blanks: string, rest: string, after: string)
    requires forall i :: 0 <= i < |blanks| ==> blanks[i] <= ' '
    requires after == blanks + "}" + rest
    ensures forall key, v | Begins(s, key, v, after) :: ParseMembers(s) == Some(([Member(key, v)], rest))
  {
    hide ParseValue, S.ParseString;
    assert after == blanks + ("}" + rest);
    SkipBlanks(blanks, "}" + rest);
    assert ("}" + rest)[1..] == rest;
  }

  lemma NotLastMember(s: string, next: string, after: string)
    requires after == "," + next && ParseMembers(next).Some?
    ensures forall key, v | Begins(s, key, v, after) ::
              ParseMembers(s) == Some(([Member(key, v)] + ParseMembers(next).value.0, ParseMembers(next).value.1))
  {
    hide ParseValue, S.ParseString;
    assert Skip(after) == after && after[1..] == next;
  }

  lemma SkipMembers(s: string)
    ensures ParseMembers(s) == ParseMembers(Skip(s))
  {
    hide ParseValue, S.ParseString;
    SkipBlanks("", Skip(s));
    assert "" + Skip(s) == Skip(s);
  }

  // A member up to its value.
  function MemberHead(m: Member, depth: nat, fmt: bool, floats: real -> string): string {
    (if fmt then Tabs(depth) else "") + Quote(m.key) + (if fmt then ":\t" else ":")
    + Render(m.value, depth, fmt, floats)
  }

  lemma MemberSplit(ms: seq<Member>, depth: nat, fmt: bool, floats: real -> string)
    requires ms != []
    ensures RenderMembers(ms, depth, fmt, floats)
         == MemberHead(ms[0], depth, fmt, floats) + (if |ms| == 1 then "" else ",") + (if fmt then "\n" else "")
            + (if |ms| == 1 then "" else RenderMembers(ms[1..], depth, fmt, floats))
  {
    hide Render, Quote, Tabs;
  }

  // The first member of a list: its key, its value and the text behind it.
  lemma {:induction false} MemberRoundTrip(m: Member, depth: nat, fmt: bool, floats: real -> string, after: string)
    requires NoNul(m.key) && Printable(m.value) && NumberEnds(after)
    ensures Begins(MemberHead(m, depth, fmt, floats) + after, m.key, Duplicate(m.value), after)
    decreases m, 1, 0
  {
    hide ParseValue, Render, Printable, NoNul, S.ParseString, MemberHead, Quote;
    var v := Render(m.value, depth, fmt, floats) + after;
    FirstChar(m.value, depth, fmt, floats);
    ValueRoundTrip(m.value, depth, fmt, floats, after);
    var tabs, tab := if fmt then Tabs(depth) else "", if fmt then "\t" else "";
    SkipBlanks(tab, v);
    var c := ":" + (tab + v);
    assert c[1..] == tab + v;
    S.StringRoundTrip(m.key, c);
    assert Skip(c) == c;
    QuoteStart(m.key);
    SkipBlanks(tabs, Quote(m.key) + c);
    HeadShape(m, depth, fmt, floats, after);
  }

  lemma QuoteStart(s: string)
    ensures Quote(s) != "" && Quote(s)[0] == '\"'
  {
  }

  lemma HeadShape(m: Member, depth: nat, fmt: bool, floats: real -> string, after: string)
    ensures MemberHead(m, depth, fmt, floats) + after
         == (if fmt then Tabs(depth) else "")
            + (Quote(m.key) + (":" + ((if fmt then "\t" else "") + (Render(m.value, depth, fmt, floats) + after))))
  {
    hide Render, Quote, Tabs;
  }

  /** Parsing what was printed, formatted or not, gives a copy of the tree and consumes all of it. */
  lemma PrintParse(t: Json, fmt: bool, floats: real -> string, closed: bool)
    requires Printable(t)
    ensures ParseValue(Render(t, 0, fmt, floats)) == Some((Duplicate(t), ""))
    ensures Parse(Render(t, 0, fmt, floats), closed) == Some(Duplicate(t))
    ensures Clean(t) ==> Parse(Render(t, 0, fmt, floats), closed) == Some(t)
  {
    hide ParseValue, Render, Duplicate, Clean;
    var s := Render(t, 0, fmt, floats);
    ValueRoundTrip(t, 0, fmt, floats, "");
    FirstChar(t, 0, fmt, floats);
    assert s + "" == s;
    if Clean(t) {
      DuplicateOfClean(t);
    }
  }

  // ---- The parser with its cursor.

  // `skip`
  method SkipAt(text: string, pos: nat) returns (next: nat)
    requires pos <= |text| && NoNul(text)
    ensures pos <= next <= |text| && text[next..] == Skip(text[pos..])
  {
    next := pos;
    while next < |text| && text[next] <= ' '
      invariant pos <= next <= |text| && Skip(text[next..]) == Skip(text[pos..])
    {
      assert text[next..][1..] == text[next + 1..];
      next := next + 1;
    }
  }

  // The result at a position and the text behind it, as `ParseValue` gives them.
  ghost predicate Agrees<T>(r: Option<(T, string)>, ok: bool, v: T, text: string, pos: nat, next: nat) {
    && (ok <==> r.Some?)
    && (ok ==> pos < next <= |text| && r.value == (v, text[next..]))
  }

  lemma SuffixPosition(text: string, pos: nat, rest: string, next: nat)
    requires pos <= |text| && |rest| <= |text| - pos && next == |text| - |rest|
    requires rest == text[pos..][|text| - pos - |rest|..]
    ensures text[next..] == rest
  {
  }

  // `strncmp(value, word, strlen(word)) == 0`
  method StartsWith(text: string, pos: nat, word: string) returns (yes: bool)
    requires pos <= |text|
    ensures yes <==> word <= text[pos..]
    ensures yes ==> pos + |word| <= |text| && text[pos..][|word|..] == text[pos + |word|..]
  {
    if pos + |word| > |text| {
      return false;
    }
    for i := 0 to |word|
      invariant forall j | 0 <= j < i :: text[pos + j] == word[j]
    {
      if text[pos + i] != word[i] {
        assert text[pos..][i] == text[pos + i];
        return false;
      }
    }
    assert text[pos..][..|word|] == word;
    assert text[pos..][|word|..] == text[pos + |word|..];
    yes := true;
  }

  // `parse_value`
  method ParseValueAt(text: string, pos: nat) returns (ok: bool, t: Json, next: nat)
    requires pos <= |text| && NoNul(text)
    ensures Agrees(ParseValue(text[pos..]), ok, t, text, pos, next)
    decreases |text| - pos, 0
  {
    hide ParseItems, ParseMembers, ParseNumber, S.ParseString, Skip, NoNul;
    t, next := Null, pos;
    var isNull := StartsWith(text, pos, "null");
    if isNull {
      return true, Null, pos + 4;
    }
    var isFalse := StartsWith(text, pos, "false");
    if isFalse {
      return true, False, pos + 5;
    }
    var isTrue := StartsWith(text, pos, "true");
    if isTrue {
      return true, True, pos + 4;
    }
    if pos == |text| {
      return false, t, next;
    }
    if text[pos] == '\"' {
      var out, size;
      ok, out, size, next := S.ParseStringAt(text, pos);
      if ok {
        t := String(out[..size]);
      }
    } else if text[pos] == '-' || IsDigit(text[pos]) {
      var r := ParseNumber(text[pos..]);
      NumberSuffix(text[pos..]);
      ok, t, next := true, r.0, |text| - |r.1|;
      SuffixPosition(text, pos, r.1, next);
    } else if text[pos] == '[' {
      ok, t, next := ParseArrayAt(text, pos);
    } else if text[pos] == '{' {
      ok, t, next := ParseObjectAt(text, pos);
    } else {
      ok := false;
    }
  }

  predicate IsSuffix(u: string, s: string) { |u| <= |s| && u == s[|s| - |u|..] }

  // What is left behind a number is the end of the text.
  lemma NumberSuffix(s: string)
    requires s != "" && (s[0] == '-' || IsDigit(s[0]))
    ensures IsSuffix(ParseNumber(s).1, s)
  {
    NumberRest(s);
    var t := if s[0] == '-' then s[1..] else s;
    assert IsSuffix(t, s);
    hide *;
    var i := IntegerPart(t).1;
    var f := FractionPart(i).1;
    var e := ExponentPart(f).1;
    PartSuffixes(t, i, f);
    SuffixTwice(s, t, i);
    SuffixTwice(s, i, f);
    SuffixTwice(s, f, e);
  }

  lemma PartSuffixes(t: string, i: string, f: string)
    ensures IsSuffix(IntegerPart(t).1, t) && IsSuffix(FractionPart(i).1, i) && IsSuffix(ExponentPart(f).1, f)
  {
    hide DecimalValue;
  }

  lemma NumberRest(s: string)
    requires s != "" && (s[0] == '-' || IsDigit(s[0]))
    ensures ParseNumber(s).1
         == ExponentPart(FractionPart(IntegerPart(if s[0] == '-' then s[1..] else s).1).1).1
  {
    hide Scaled, Trunc, DecimalValue, IntegerPart, FractionPart, ExponentPart;
  }

  lemma SuffixTwice(s: string, t: string, u: string)
    requires IsSuffix(t, s) && IsSuffix(u, t)
    ensures IsSuffix(u, s)
  {
  }

  // The loop of `parse_array` over the elements.
  method ParseElements(text: string, pos: nat) returns (ok: bool, items: seq<Json>, next: nat)
    requires pos <= |text| && NoNul(text)
    ensures Agrees(ParseItems(text[pos..]), ok, items, text, pos, next)
    decreases |text| - pos, 1
  {
    hide ParseItems, ParseValue, Skip, NoNul;
    next, items := pos, [];
    ghost var whole := ParseItems(text[pos..]);
    PutNone(whole);
    while true
      invariant pos <= next <= |text|
      invariant whole == PutItems(items, ParseItems(text[next..]))
      decreases |text| - next
    {
      ItemsTurn(text[next..]);
      var at := SkipAt(text, next);
      var v;
      ok, v, at := ParseValueAt(text, at);
      if !ok {
        return;
      }
      at := SkipAt(text, at);
      ghost var before := items;
      items := items + [v];
      next := at + 1;
      if at < |text| && (text[at] == ',' || text[at] == ']') {
        assert text[at..][1..] == text[next..];
        if text[at] == ']' {
          return;
        }
        PutMore(before, v, ParseItems(text[next..]));
      } else {
        ok := false;
        return;
      }
    }
  }

  // `parse_array`
  method ParseArrayAt(text: string, pos: nat) returns (ok: bool, t: Json, next: nat)
    requires pos < |text| && NoNul(text) && text[pos] == '['
    ensures Agrees(ParseValue(text[pos..]), ok, t, text, pos, next)
    decreases |text| - pos, 0, 0
  {
    hide ParseItems, Skip, NoNul, ParseValue;
    assert text[pos..][1..] == text[pos + 1..];
    ArrayStart(text[pos..]);
    t := Null;
    var value := SkipAt(text, pos + 1);
    if value < |text| && text[value] == ']' {
      assert text[value..][1..] == text[value + 1..];
      return true, Array([]), value + 1;
    }
    var items;
    ok, items, next := ParseElements(text, value);
    if ok {
      t := Array(items);
    }
  }

  // The start of an array by itself.
  lemma ArrayStart(s: string)
    requires Starts(s, '[')
    ensures
      var t := Skip(s[1..]);
      ParseValue(s) == if Starts(t, ']') then Some((Array([]), t[1..]))
                       else match ParseItems(t) { case Some(p) => Some((Array(p.0), p.1)) case None => None }
  {
    hide ParseItems, ParseMembers, Skip;
  }

  function PutItems<T>(items: seq<T>, r: Option<(seq<T>, string)>): Option<(seq<T>, string)> {
    match r case Some(p) => Some((items + p.0, p.1)) case None => None
  }

  lemma PutNone<T>(r: Option<(seq<T>, string)>)
    ensures PutItems([], r) == r
  {
    if r.Some? {
      assert [] + r.value.0 == r.value.0;
    }
  }

  lemma PutMore<T>(items: seq<T>, v: T, r: Option<(seq<T>, string)>)
    ensures PutItems(items, PutItems([v], r)) == PutItems(items + [v], r)
  {
    if r.Some? {
      assert items + ([v] + r.value.0) == items + [v] + r.value.0;
    }
  }

  // One turn of the loop over the elements.
  lemma ItemsTurn(s: string)
    ensures
      var first := ParseValue(Skip(s));
      && (first.None? ==> ParseItems(s) == None)
      && (first.Some? ==>
           var v, t := first.value.0, Skip(first.value.1);
           ParseItems(s) == if Starts(t, ',') then PutItems([v], ParseItems(t[1..]))
                            else if Starts(t, ']') then Some(([v], t[1..]))
                            else None)
  {
    hide ParseValue, Skip;
  }

  // The loop of `parse_object` over the members.
  method ParseList(text: string, pos: nat) returns (ok: bool, ms: seq<Member>, next: nat)
    requires pos <= |text| && NoNul(text)
    ensures Agrees(ParseMembers(text[pos..]), ok, ms, text, pos, next)
    decreases |text| - pos, 2
  {
    hide ParseMembers, ParseValue, Skip, NoNul, S.ParseString, FirstMember;
    next, ms := pos, [];
    ghost var whole := ParseMembers(text[pos..]);
    PutNone(whole);
    while true
      invariant pos <= next <= |text|
      invariant whole == PutItems(ms, ParseMembers(text[next..]))
      decreases |text| - next
    {
      var m, at;
      ok, m, at := ParseMemberAt(text, next);
      if !ok {
        return;
      }
      ghost var before := ms;
      ms := ms + [m];
      next := at + 1;
      if at < |text| && (text[at] == ',' || text[at] == '}') {
        assert text[at..][1..] == text[next..];
        if text[at] == '}' {
          return;
        }
        PutMore(before, m, ParseMembers(text[next..]));
      } else {
        ok := false;
        return;
      }
    }
  }

  // `parse_object`
  method ParseObjectAt(text: string, pos: nat) returns (ok: bool, t: Json, next: nat)
    requires pos < |text| && NoNul(text) && text[pos] == '{'
    ensures Agrees(ParseValue(text[pos..]), ok, t, text, pos, next)
    decreases |text| - pos, 0, 0
  {
    hide ParseMembers, Skip, NoNul, ParseValue;
    assert text[pos..][1..] == text[pos + 1..];
    ObjectStart(text[pos..]);
    t := Null;
    var value := SkipAt(text, pos + 1);
    if value < |text| && text[value] == '}' {
      assert text[value..][1..] == text[value + 1..];
      return true, Object([]), value + 1;
    }
    var ms;
    ok, ms, next := ParseList(text, value);
    if ok {
      t := Object(ms);
    }
  }

  lemma ObjectStart(s: string)
    requires Starts(s, '{')
    ensures
      var t := Skip(s[1..]);
      ParseValue(s) == if Starts(t, '}') then Some((Object([]), t[1..]))
                       else match ParseMembers(t) { case Some(p) => Some((Object(p.0), p.1)) case None => None }
  {
    hide ParseItems, ParseMembers, Skip;
  }

  // The first member of a list and the text behind it, white space skipped.
  function FirstMember(s: string): (r: Option<(Member, string)>)
    ensures r.Some? ==> |r.value.1| < |s|
  {
    match S.ParseString(Skip(s))
    case None => None
    case Some((key, q)) =>
      var c := Skip(q);
      if !Starts(c, ':') then None
      else match ParseValue(Skip(c[1..]))
        case None => None
        case Some((v, r)) => Some((Member(key, v), Skip(r)))
  }

  lemma MembersTurn(s: string)
    ensures
      var first := FirstMember(s);
      && (first.None? ==> ParseMembers(s) == None)
      && (first.Some? ==>
           var m, t := first.value.0, first.value.1;
           ParseMembers(s) == if Starts(t, ',') then PutItems([m], ParseMembers(t[1..]))
                              else if Starts(t, '}') then Some(([m], t[1..]))
                              else None)
  {
    hide ParseValue, Skip, S.ParseString;
  }

  // One turn of the loop over the members.
  method ParseMemberAt(text: string, pos: nat) returns (ok: bool, m: Member, next: nat)
    requires pos <= |text| && NoNul(text)
    ensures
      match FirstMember(text[pos..])
      case None => !ok && ParseMembers(text[pos..]) == None
      case Some((x, t)) =>
        && ok && m == x && pos < next <= |text| && text[next..] == t
        && ParseMembers(text[pos..])
           == (if Starts(t, ',') then PutItems([m], ParseMembers(t[1..]))
               else if Starts(t, '}') then Some(([m], t[1..]))
               else None)
    decreases |text| - pos, 1
  {
    hide ParseValue, ParseMembers, Skip, S.ParseString, NoNul;
    MembersTurn(text[pos..]);
    m := Member("", Null);
    next := SkipAt(text, pos);
    var out, size;
    ok, out, size, next := S.ParseStringAt(text, next);
    if !ok {
      return;
    }
    var key := out[..size];
    next := SkipAt(text, next);
    if next == |text| || text[next] != ':' {
      return false, m, next;
    }
    assert text[next..][1..] == text[next + 1..];
    next := SkipAt(text, next + 1);
    var v;
    ok, v, next := ParseValueAt(text, next);
    if !ok {
      return;
    }
    m := Member(key, v);
    next := SkipAt(text, next);
  }

  /** `cJSON_ParseWithOpts` on a C string. */
  method ParseWithOpts(text: string, closed: bool) returns (ok: bool, t: Json, end: nat)
    requires NoNul(text)
    ensures ok <==> Parse(text, closed).Some?
    ensures ok ==> Parse(text, closed) == Some(t) && end <= |text|
  {
    hide ParseValue, Skip, NoNul;
    assert text[0..] == text;
    end := SkipAt(text, 0);
    ok, t, end := ParseValueAt(text, end);
    if ok && closed {
      end := SkipAt(text, end);
      if end < |text| {
        ok := false;
      }
    }
  }
}
