/**
  `cJSON_Minify`: white space and comments are dropped in place. On printed text it gives the
  unformatted print.
 */
module JsonMinify {
  import opened Text
  import opened Json
  import opened JsonText

  predicate IsBlank(c: char) { c == ' ' || c == '\t' || c == '\r' || c == '\n' }

  // The text from the end of the line on.
  function AfterLine(s: string): (r: string)
    ensures |r| <= |s|
  {
    if s == "" || s[0] == '\n' then s else AfterLine(s[1..])
  }

  // The text behind a comment, or none if it is not closed: the C code then steps over the
  // terminating NUL.
  function AfterComment(s: string): (r: Option<string>)
    ensures r.Some? ==> |r.value| < |s|
  {
    if s == "" then None
    else if |s| >= 2 && s[0] == '*' && s[1] == '/' then Some(s[2..])
    else AfterComment(s[1..])
  }

  // How many bytes of `s` finish a string literal, the quote included, or none if it is not
  // closed: the C code then copies the terminating NUL and goes on behind it.
  function LiteralEnd(s: string): (r: Option<nat>)
    ensures r.Some? ==> 1 <= r.value <= |s|
  {
    if s == "" then None
    else if s[0] == '\"' then Some(1)
    else if s[0] == '\\' then
      if |s| == 1 then None else match LiteralEnd(s[2..]) { case Some(n) => Some(n + 2) case None => None }
    else match LiteralEnd(s[1..]) { case Some(n) => Some(n + 1) case None => None }
  }

  // The minified text; none if a literal or comment is not closed.
  function Minified(s: string): Option<string>
    decreases |s|
  {
    if s == "" then Some("")
    else if IsBlank(s[0]) then Minified(s[1..])
    else if s[0] == '/' && |s| >= 2 && s[1] == '/' then Minified(AfterLine(s[1..]))
    else if s[0] == '/' && |s| >= 2 && s[1] == '*' then
      match AfterComment(s[1..]) { case Some(r) => Minified(r) case None => None }
    else if s[0] == '\"' then
      match LiteralEnd(s[1..])
      case Some(n) => Put(s[..n + 1], Minified(s[n + 1..]))
      case None => None
    else Put([s[0]], Minified(s[1..]))
  }

  // ---- Minified text of printed pieces.

  lemma {:induction false} MinifyBlanks(blanks: string, rest: string)
    requires forall c <- blanks :: IsBlank(c)
    ensures Minified(blanks + rest) == Minified(rest)
  {
    if blanks == "" {
      assert blanks + rest == rest;
    } else {
      assert (blanks + rest)[1..] == blanks[1..] + rest;
      assert IsBlank(blanks[0]);
      MinifyBlanks(blanks[1..], rest);
    }
  }

  lemma {:induction false} MinifyToken(token: string, rest: string)
    requires forall c <- token :: TokenChar(c)
    ensures Minified(token + rest) == Put(token, Minified(rest))
  {
    if token == "" {
      assert token + rest == rest;
      if Minified(rest).Some? {
        assert "" + Minified(rest).value == Minified(rest).value;
      }
    } else {
      assert (token + rest)[1..] == token[1..] + rest;
      assert TokenChar(token[0]);
      MinifyToken(token[1..], rest);
      PutTwice([token[0]], token[1..], Minified(rest));
      assert [token[0]] + token[1..] == token;
    }
  }

  lemma EscapedChar(c: char, rest: string)
    ensures LiteralEnd(EscapeChar(c) + rest)
         == match LiteralEnd(rest) case Some(n) => Some(n + |EscapeChar(c)|) case None => None
  {
    var e := EscapeChar(c);
    if |e| == 1 {
      assert (e + rest)[1..] == rest;
    } else {
      assert (e + rest)[2..] == e[2..] + rest;
      PlainLiteral(e[2..], rest);
    }
  }

  lemma {:induction false} PlainLiteral(p: string, rest: string)
    requires '\"' !in p && '\\' !in p
    ensures LiteralEnd(p + rest)
         == match LiteralEnd(rest) case Some(n) => Some(n + |p|) case None => None
  {
    if p == "" {
      assert p + rest == rest;
    } else {
      assert (p + rest)[1..] == p[1..] + rest;
      PlainLiteral(p[1..], rest);
    }
  }

  lemma QuoteEnds(rest: string)
    ensures LiteralEnd(['\"'] + rest) == Some(1)
  {
  }

  lemma {:induction false} EscapedEnd(s: string, rest: string)
    ensures LiteralEnd(Escape(s) + ['\"'] + rest) == Some(|Escape(s)| + 1)
  {
    hide EscapeChar, LiteralEnd;
    if s == "" {
      assert Escape(s) + ['\"'] + rest == ['\"'] + rest;
      QuoteEnds(rest);
    } else {
      var tail := Escape(s[1..]) + ['\"'] + rest;
      assert Escape(s) + ['\"'] + rest == EscapeChar(s[0]) + tail;
      EscapedChar(s[0], tail);
      EscapedEnd(s[1..], rest);
    }
  }

  lemma MinifyQuote(s: string, rest: string)
    ensures Minified(Quote(s) + rest) == Put(Quote(s), Minified(rest))
  {
    var all, n := Quote(s) + rest, |Escape(s)| + 1;
    assert all[1..] == Escape(s) + ['\"'] + rest;
    EscapedEnd(s, rest);
    assert all[..n + 1] == Quote(s) && all[n + 1..] == rest;
  }

  // ---- Minified text of a tree.

  ghost predicate Shrinks(a: string, b: string, rest: string) {
    Minified(a + rest) == Put(b, Minified(rest))
  }

  lemma Join(a: string, a': string, b: string, b': string, rest: string)
    requires Shrinks(a, a', b + rest) && Shrinks(b, b', rest)
    ensures Shrinks(a + b, a' + b', rest)
  {
    hide Minified;
    assert a + b + rest == a + (b + rest);
    PutTwice(a', b', Minified(rest));
  }

  lemma ShrinkToken(token: string, rest: string)
    requires forall c <- token :: TokenChar(c)
    ensures Shrinks(token, token, rest)
  {
    MinifyToken(token, rest);
  }

  lemma ShrinkBlanks(blanks: string, rest: string)
    requires forall c <- blanks :: IsBlank(c)
    ensures Shrinks(blanks, "", rest)
  {
    MinifyBlanks(blanks, rest);
    PutNothing(Minified(rest));
  }

  lemma Same(a: string, a': string, b: string, b': string, rest: string)
    requires Shrinks(a, a', rest) && a == b && a' == b'
    ensures Shrinks(b, b', rest)
  {
  }

  lemma {:induction false} ShrinkTree(t: Json, depth: nat, depth': nat, floats: real -> string, rest: string)
    requires FloatsOk(floats)
    ensures Shrinks(Render(t, depth, true, floats), Render(t, depth', false, floats), rest)
    decreases t, 0
  {
    hide Shrinks, FloatsOk, Quote, NumberText;
    match t
    case Null => ShrinkToken("null", rest);
    case False => ShrinkToken("false", rest);
    case True => ShrinkToken("true", rest);
    case Number(n, d) =>
      NumberTextSize(n, d, floats);
      ShrinkToken(NumberText(n, d, floats), rest);
    case String(s) => ShrinkQuote(s, rest);
    case Array(items) =>
      if items == [] {
        ShrinkToken("[]", rest);
      } else {
        ShrinkItems(items, depth + 1, depth' + 1, floats, "]" + rest);
        ShrinkArray(RenderItems(items, depth + 1, true, floats), RenderItems(items, depth' + 1, false, floats), rest);
      }
    case Object(ms, _) =>
      if ms == [] {
        ShrinkEmpty(depth, rest);
      } else {
        ShrinkMembers(ms, depth + 1, depth' + 1, floats, Tabs(depth) + "}" + rest);
        ShrinkObject(RenderMembers(ms, depth + 1, true, floats), RenderMembers(ms, depth' + 1, false, floats),
                     depth, rest);
      }
  }

  lemma ShrinkQuote(s: string, rest: string)
    ensures Shrinks(Quote(s), Quote(s), rest)
  {
    MinifyQuote(s, rest);
  }

  lemma ShrinkEmpty(depth: nat, rest: string)
    ensures Shrinks("{" + ("\n" + Tabs(depth)) + "}", "{" + "" + "}", rest)
  {
    hide Shrinks;
    ShrinkToken("}", rest);
    ShrinkBlanks("\n" + Tabs(depth), "}" + rest);
    Join("\n" + Tabs(depth), "", "}", "}", rest);
    var tail := "\n" + Tabs(depth) + "}";
    ShrinkToken("{", tail + rest);
    Join("{", "{", tail, "" + "}", rest);
    Same("{" + tail, "{" + ("" + "}"), "{" + ("\n" + Tabs(depth)) + "}", "{" + "" + "}", rest);
  }

  lemma ShrinkArray(a: string, a': string, rest: string)
    requires Shrinks(a, a', "]" + rest)
    ensures Shrinks("[" + a + "]", "[" + a' + "]", rest)
  {
    hide Shrinks;
    ShrinkToken("]", rest);
    Join(a, a', "]", "]", rest);
    ShrinkToken("[", a + "]" + rest);
    Join("[", "[", a + "]", a' + "]", rest);
    Same("[" + (a + "]"), "[" + (a' + "]"), "[" + a + "]", "[" + a' + "]", rest);
  }

  lemma ShrinkObject(a: string, a': string, depth: nat, rest: string)
    requires Shrinks(a, a', Tabs(depth) + "}" + rest)
    ensures Shrinks("{" + "\n" + a + Tabs(depth) + "}", "{" + "" + a' + "" + "}", rest)
  {
    hide Shrinks;
    ShrinkToken("}", rest);
    ShrinkBlanks(Tabs(depth), "}" + rest);
    Join(Tabs(depth), "", "}", "}", rest);
    var close := Tabs(depth) + "}";
    Join(a, a', close, "" + "}", rest);
    var inner, inner' := a + close, a' + ("" + "}");
    ShrinkBlanks("\n", inner + rest);
    Join("\n", "", inner, inner', rest);
    var tail, tail' := "\n" + inner, "" + inner';
    ShrinkToken("{", tail + rest);
    Join("{", "{", tail, tail', rest);
    Same("{" + tail, "{" + tail', "{" + "\n" + a + Tabs(depth) + "}", "{" + "" + a' + "" + "}", rest);
  }

  lemma {:induction false} ShrinkItems(items: seq<Json>, depth: nat, depth': nat, floats: real -> string, rest: string)
    requires FloatsOk(floats)
    ensures Shrinks(RenderItems(items, depth, true, floats), RenderItems(items, depth', false, floats), rest)
    decreases items, 0
  {
    hide Shrinks, FloatsOk, Render;
    if items == [] {
      ShrinkToken("", rest);
    } else {
      var a, a' := Render(items[0], depth, true, floats), Render(items[0], depth', false, floats);
      var b, b' := RenderItems(items[1..], depth, true, floats), RenderItems(items[1..], depth', false, floats);
      ShrinkItems(items[1..], depth, depth', floats, rest);
      if |items| > 1 {
        ShrinkComma(b + rest);
        Join(", ", ",", b, b', rest);
        ShrinkTree(items[0], depth, depth', floats, ", " + b + rest);
        Join(a, a', ", " + b, "," + b', rest);
        Same(a + (", " + b), a' + ("," + b'), a + ", " + b, a' + "," + b', rest);
      } else {
        ShrinkTree(items[0], depth, depth', floats, "" + b + rest);
        Same(b, b', "" + b, "" + b', rest);
        Join(a, a', "" + b, "" + b', rest);
        Same(a + ("" + b), a' + ("" + b'), a + "" + b, a' + "" + b', rest);
      }
    }
  }

  lemma ShrinkComma(rest: string)
    ensures Shrinks(", ", ",", rest)
  {
    hide Shrinks;
    ShrinkToken(",", " " + rest);
    ShrinkBlanks(" ", rest);
    Join(",", ",", " ", "", rest);
    Same("," + " ", "," + "", ", ", ",", rest);
  }

  lemma {:induction false} ShrinkMembers(ms: seq<Member>, depth: nat, depth': nat, floats: real -> string, rest: string)
    requires FloatsOk(floats)
    ensures Shrinks(RenderMembers(ms, depth, true, floats), RenderMembers(ms, depth', false, floats), rest)
    decreases ms, 0
  {
    hide Shrinks, FloatsOk, RenderMember;
    if ms == [] {
      ShrinkToken("", rest);
    } else {
      var b, b' := RenderMembers(ms[1..], depth, true, floats), RenderMembers(ms[1..], depth', false, floats);
      ShrinkMembers(ms[1..], depth, depth', floats, rest);
      ShrinkMember(ms[0], depth, depth', |ms| == 1, floats, b + rest);
      Join(RenderMember(ms[0], depth, |ms| == 1, true, floats),
           RenderMember(ms[0], depth', |ms| == 1, false, floats), b, b', rest);
    }
  }

  lemma {:induction false} ShrinkMember(m: Member, depth: nat, depth': nat, last: bool, floats: real -> string, rest: string)
    requires FloatsOk(floats)
    ensures Shrinks(RenderMember(m, depth, last, true, floats), RenderMember(m, depth', last, false, floats), rest)
    decreases m, 1
  {
    hide Shrinks, FloatsOk, Quote, Render;
    var v, v' := Render(m.value, depth, true, floats), Render(m.value, depth', false, floats);
    var comma := if last then "" else ",";
    ShrinkBlanks("\n", rest);
    ShrinkToken(comma, "\n" + rest);
    Join(comma, comma, "\n", "", rest);
    var e, e' := comma + "\n", comma + "";
    ShrinkTree(m.value, depth, depth', floats, e + rest);
    Join(v, v', e, e', rest);
    var d, d' := v + e, v' + e';
    ShrinkColon(d + rest);
    Join(":\t", ":", d, d', rest);
    var c, c' := ":\t" + d, ":" + d';
    ShrinkQuote(m.key, c + rest);
    Join(Quote(m.key), Quote(m.key), c, c', rest);
    var b, b' := Quote(m.key) + c, Quote(m.key) + c';
    ShrinkBlanks(Tabs(depth), b + rest);
    Join(Tabs(depth), "", b, b', rest);
    Same(Tabs(depth) + b, "" + b', RenderMember(m, depth, last, true, floats),
         RenderMember(m, depth', last, false, floats), rest);
  }

  lemma ShrinkColon(rest: string)
    ensures Shrinks(":\t", ":", rest)
  {
    hide Shrinks;
    ShrinkToken(":", "\t" + rest);
    ShrinkBlanks("\t", rest);
    Join(":", ":", "\t", "", rest);
    Same(":" + "\t", ":" + "", ":\t", ":", rest);
  }

  /** Minifying the formatted print gives the unformatted print. */
  lemma MinifyIsUnformatted(t: Json, floats: real -> string)
    requires FloatsOk(floats)
    ensures Minified(Render(t, 0, true, floats)) == Some(Render(t, 0, false, floats))
  {
    hide Minified, FloatsOk, Render;
    ShrinkTree(t, 0, 0, floats, "");
    var a, b := Render(t, 0, true, floats), Render(t, 0, false, floats);
    assert a + "" == a && b + "" == b;
    MinifiedNothing();
  }

  lemma MinifiedNothing()
    ensures Minified("") == Some("")
  {
  }

  // ---- The algorithm in place.

  // One turn of the main loop, by the byte at `i`.
  lemma MinifiedStep(text: string, i: nat)
    requires i < |text| && Minified(text[i..]).Some?
    ensures
      var c, r, next := text[i], text[i..], (if i + 1 < |text| then text[i + 1] else '\0');
      if IsBlank(c) then Minified(r) == Minified(text[i + 1..])
      else if c == '/' && next == '/' then Minified(r) == Minified(AfterLine(r))
      else if c == '/' && next == '*' then AfterComment(r).Some? && Minified(r) == Minified(AfterComment(r).value)
      else if c == '\"' then
        var e := LiteralEnd(text[i + 1..]);
        e.Some? && i + 1 + e.value <= |text|
        && Minified(r) == Put(text[i..i + 1 + e.value], Minified(text[i + 1 + e.value..]))
      else Minified(r) == Put([c], Minified(text[i + 1..]))
  {
    var r := text[i..];
    assert r[1..] == text[i + 1..];
    if r[0] == '\"' && LiteralEnd(r[1..]).Some? {
      var n := LiteralEnd(r[1..]).value;
      assert r[..n + 1] == text[i..i + 1 + n] && r[n + 1..] == text[i + 1 + n..];
    }
  }

  // A buffer whose cells from `from` on still hold the text and its NUL.
  ghost predicate Unread(a: array<char>, from: nat, text: string)
    reads a
  {
    |text| < a.Length && a[|text|] == '\0' && forall i | from <= i < |text| :: a[i] == text[i]
  }

  // The end of the line that starts at `from`.
  method SkipLine(a: array<char>, from: nat, ghost text: string) returns (json: nat)
    requires from <= |text| && Unread(a, from, text) && NoNul(text)
    ensures from <= json <= |text| && text[json..] == AfterLine(text[from..])
    ensures from < |text| && text[from] != '\n' ==> from < json
  {
    json := from;
    while a[json] != '\0' && a[json] != '\n'
      invariant from <= json <= |text| && AfterLine(text[json..]) == AfterLine(text[from..])
      decreases |text| - json
    {
      assert text[json..][1..] == text[json + 1..];
      json := json + 1;
    }
    if json < |text| {
      assert text[json] in text;
    }
  }

  // The text behind the comment that starts at `from`.
  method SkipComment(a: array<char>, from: nat, ghost text: string) returns (json: nat)
    requires from <= |text| && Unread(a, from, text) && NoNul(text) && AfterComment(text[from..]).Some?
    ensures from < json <= |text| && text[json..] == AfterComment(text[from..]).value
  {
    json := from;
    while a[json] != '\0' && !(a[json] == '*' && a[json + 1] == '/')
      invariant from <= json <= |text| && AfterComment(text[json..]) == AfterComment(text[from..])
      decreases |text| - json
    {
      assert text[json..][1..] == text[json + 1..];
      json := json + 1;
    }
    if json < |text| {
      assert text[json] in text;
    }
    assert text[json..][2..] == text[json + 2..];
    json := json + 2;
  }

  lemma LiteralStep(text: string, i: nat)
    requires i <= |text| && LiteralEnd(text[i..]).Some?
    ensures i < |text|
    ensures
      var e := i + LiteralEnd(text[i..]).value;
      && e <= |text|
      && (text[i] == '\"' ==> e == i + 1)
      && (text[i] == '\\' ==> i + 2 <= |text| && LiteralEnd(text[i + 2..]) == Some(e - (i + 2)))
      && (text[i] != '\"' && text[i] != '\\' ==> LiteralEnd(text[i + 1..]) == Some(e - (i + 1)))
  {
    if i < |text| {
      assert text[i..][1..] == text[i + 1..];
      if i + 2 <= |text| {
        assert text[i..][2..] == text[i + 2..];
      }
    }
  }

  lemma ReadAt(a: array<char>, from: nat, text: string, i: nat)
    requires Unread(a, from, text) && NoNul(text) && from <= i <= |text|
    ensures i < a.Length && a[i] == (if i < |text| then text[i] else '\0')
    ensures a[i] == '\0' <==> i == |text|
  {
    if i < |text| {
      assert text[i] in text;
    }
  }

  // `*into++ = *json++`
  method CopyByte(a: array<char>, json: nat, into: nat, ghost text: string) returns (json': nat, into': nat)
    requires into <= json < |text| && Unread(a, json, text)
    modifies a
    ensures json' == json + 1 && into' == into + 1
    ensures a[..into'] == old(a[..into]) + [text[json]]
    ensures Unread(a, json', text) && a[|text| + 1..] == old(a[|text| + 1..])
  {
    a[into] := a[json];
    json', into' := json + 1, into + 1;
  }

  // One turn of the loop inside a literal: a byte, or a backslash and the byte after it.
  method CopyItem(a: array<char>, json: nat, into: nat, ghost text: string) returns (json': nat, into': nat)
    requires into <= json < |text| && Unread(a, json, text) && NoNul(text)
    requires text[json] != '\"' && LiteralEnd(text[json..]).Some?
    modifies a
    ensures json < json' < |text| && into' == into + json' - json
    ensures a[..into'] == old(a[..into]) + text[json..json']
    ensures LiteralEnd(text[json'..]) == Some(json + LiteralEnd(text[json..]).value - json')
    ensures Unread(a, json', text) && a[|text| + 1..] == old(a[|text| + 1..])
  {
    hide LiteralEnd, NoNul;
    LiteralStep(text, json);
    ReadAt(a, json, text, json);
    if a[json] == '\\' {
      json', into' := CopyByte(a, json, into, text);
      json', into' := CopyByte(a, json', into', text);
    } else {
      json', into' := CopyByte(a, json, into, text);
    }
    LiteralStep(text, json');
  }

  lemma UnreadInside(a: array<char>, from: nat, text: string)
    requires Unread(a, from, text)
    ensures |text| < a.Length
  {
  }

  lemma TwoPieces(front: string, text: string, from: nat, mid: nat, to: nat)
    requires from <= mid <= to <= |text|
    ensures front + text[from..mid] + text[mid..to] == front + text[from..to]
  {
  }

  // Copy a string literal from `from` down to `to`.
  method CopyLiteral(a: array<char>, from: nat, to: nat, ghost text: string) returns (json: nat, into: nat)
    requires to <= from < |text| && Unread(a, from, text) && NoNul(text)
    requires text[from] == '\"' && LiteralEnd(text[from + 1..]).Some?
    modifies a
    ensures json == from + 1 + LiteralEnd(text[from + 1..]).value <= |text|
    ensures into == to + json - from && a[..into] == old(a[..to]) + text[from..json]
    ensures Unread(a, json, text) && a[|text| + 1..] == old(a[|text| + 1..])
  {
    hide LiteralEnd, Unread, NoNul;
    ghost var end := from + 1 + LiteralEnd(text[from + 1..]).value;
    UnreadInside(a, from, text);
    ghost var front, behind := a[..to], a[|text| + 1..];
    LiteralStep(text, from + 1);
    json, into := CopyByte(a, from, to, text);
    ReadAt(a, json, text, json);
    while a[json] != '\0' && a[json] != '\"'
      invariant from < json < end <= |text| < a.Length && into == to + json - from
      invariant a[json] == text[json] && text[json] != '\0'
      invariant LiteralEnd(text[json..]) == Some(end - json)
      invariant a[..into] == front + text[from..json]
      invariant Unread(a, json, text) && a[|text| + 1..] == behind
      decreases end - json
    {
      ghost var start := json;
      json, into := CopyItem(a, json, into, text);
      TwoPieces(front, text, from, start, json);
      LiteralStep(text, json);
      ReadAt(a, json, text, json);
    }
    LiteralStep(text, json);
    json, into := CopyByte(a, json, into, text);
  }

  /**
    `cJSON_Minify` on a buffer that holds a text whose literals and comments are all closed: the
    minified text replaces it, in place; the write cursor never passes the read cursor.
   */
  method MinifyInPlace(a: array<char>, ghost text: string) returns (size: nat)
    requires Unread(a, 0, text) && NoNul(text) && Minified(text).Some?
    modifies a
    ensures size <= |text| && a[..size] == Minified(text).value && a[size] == '\0'
    ensures a[|text| + 1..] == old(a[|text| + 1..])
  {
    hide Minified, AfterLine, AfterComment, LiteralEnd;
    var json, into := 0, 0;
    assert a[..0] == "" && text[0..] == text;
    PutNothing(Minified(text));
    while a[json] != '\0'
      invariant into <= json <= |text| && Unread(a, json, text)
      invariant Minified(text) == Put(a[..into], Minified(text[json..]))
      invariant a[|text| + 1..] == old(a[|text| + 1..])
      decreases |text| - json
    {
      ghost var done := a[..into];
      MinifiedStep(text, json);
      if IsBlank(a[json]) {
        json := json + 1;
      } else if a[json] == '/' && a[json + 1] == '/' {
        json := SkipLine(a, json, text);
      } else if a[json] == '/' && a[json + 1] == '*' {
        json := SkipComment(a, json, text);
      } else {
        ghost var from := json;
        if a[json] == '\"' {
          json, into := CopyLiteral(a, json, into, text);
        } else {
          json, into := CopyByte(a, json, into, text);
          assert text[from..json] == [text[from]];
        }
        assert a[..into] == done + text[from..json];
        PutTwice(done, text[from..json], Minified(text[json..]));
      }
    }
    assert text[json..] == "";
    MinifiedNothing();
    a[into] := '\0';
    size := into;
  }

  /** Minifying the buffer of a formatted print leaves the unformatted print. */
  method MinifyPrinted(a: array<char>, t: Json, floats: real -> string) returns (size: nat)
    requires FloatsOk(floats) && Terminated(t)
    requires Unread(a, 0, Render(t, 0, true, floats))
    modifies a
    ensures size < a.Length && a[..size] == Render(t, 0, false, floats) && a[size] == '\0'
  {
    hide Minified, Render, FloatsOk;
    MinifyIsUnformatted(t, floats);
    RenderNoNul(t, 0, true, floats);
    size := MinifyInPlace(a, Render(t, 0, true, floats));
  }
}
