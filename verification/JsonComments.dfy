/**
  What `cJSON_Minify` does to a text with comments, stated on the pieces of the text.
 */
module JsonComments {
  import opened Text
  import opened JsonText
  import opened JsonMinify

  // White space, the two kinds of comments, string literals, and any other byte.
  datatype Piece = Gap(c: char) | Line(text: string) | Block(text: string) | Quoted(units: seq<Unit>) | Byte(c: char)

  datatype Unit = Plain(c: char) | Escaped(c: char)

  function UnitText(u: Unit): string { if u.Plain? then [u.c] else ['\\', u.c] }

  function UnitsText(us: seq<Unit>): string { if us == [] then "" else UnitText(us[0]) + UnitsText(us[1..]) }

  function PieceText(p: Piece): string {
    match p
    case Gap(c) => [c]
    case Line(text) => "//" + text
    case Block(text) => "/*" + (text + "*/")
    case Quoted(us) => ['\"'] + (UnitsText(us) + ['\"'])
    case Byte(c) => [c]
  }

  predicate Unclosed(s: string) { forall i :: 0 <= i < |s| - 1 ==> !(s[i] == '*' && s[i + 1] == '/') }

  // A block comment does not start with a slash: the search for its end begins at its own star.
  predicate PieceOk(p: Piece) {
    match p
    case Gap(c) => IsBlank(c)
    case Line(text) => '\n' !in text
    case Block(text) => Unclosed("*" + text)
    case Quoted(us) => forall i :: 0 <= i < |us| && us[i].Plain? ==> us[i].c != '\"' && us[i].c != '\\'
    case Byte(c) => !IsBlank(c) && c != '/' && c != '\"'
  }

  function PiecesText(ps: seq<Piece>): string { if ps == [] then "" else PieceText(ps[0]) + PiecesText(ps[1..]) }

  // A line comment goes on to the end of the line.
  predicate PiecesOk(ps: seq<Piece>) {
    ps != [] ==>
      && PieceOk(ps[0]) && PiecesOk(ps[1..])
      && (ps[0].Line? && |ps| > 1 ==> ps[1] == Gap('\n'))
  }

  // The text without white space and comments.
  function Kept(ps: seq<Piece>): string {
    if ps == [] then ""
    else (if ps[0].Quoted? || ps[0].Byte? then PieceText(ps[0]) else "") + Kept(ps[1..])
  }

  lemma {:induction false} LineEnds(text: string, rest: string)
    requires '\n' !in text && (rest == "" || rest[0] == '\n')
    ensures AfterLine(text + rest) == rest
  {
    if text == "" {
      assert text + rest == rest;
    } else {
      LineEnds(text[1..], rest);
      assert (text + rest)[1..] == text[1..] + rest;
    }
  }

  lemma {:induction false} BlockEnds(text: string, rest: string)
    requires Unclosed(text)
    ensures AfterComment(text + ("*/" + rest)) == Some(rest)
  {
    var s := text + ("*/" + rest);
    if text == "" {
      assert s[2..] == rest;
    } else {
      BlockEnds(text[1..], rest);
      assert s[1..] == text[1..] + ("*/" + rest);
      assert |text| > 1 ==> s[1] == text[1];
    }
  }

  lemma {:induction false} LiteralEnds(us: seq<Unit>, rest: string)
    requires PieceOk(Quoted(us))
    ensures LiteralEnd(UnitsText(us) + (['\"'] + rest)) == Some(|UnitsText(us)| + 1)
  {
    if us == [] {
      assert "" + (['\"'] + rest) == ['\"'] + rest;
    } else {
      var u, more := us[0], UnitsText(us[1..]) + (['\"'] + rest);
      LiteralEnds(us[1..], rest);
      ConcatAssoc(UnitText(u), UnitsText(us[1..]), ['\"'] + rest);
      assert (UnitText(u) + more)[|UnitText(u)|..] == more;
    }
  }

  lemma LineDropped(text: string, rest: string)
    requires '\n' !in text && (rest == "" || rest[0] == '\n')
    ensures Minified("//" + text + rest) == Minified(rest)
  {
    var s := "//" + text + rest;
    LineEnds("/" + text, rest);
    assert s[1..] == ("/" + text) + rest;
  }

  lemma BlockDropped(text: string, rest: string)
    requires Unclosed("*" + text)
    ensures Minified("/*" + (text + "*/") + rest) == Minified(rest)
  {
    var s := "/*" + (text + "*/") + rest;
    BlockEnds("*" + text, rest);
    assert s[1..] == ("*" + text) + ("*/" + rest);
  }

  lemma LiteralKept(us: seq<Unit>, rest: string)
    requires PieceOk(Quoted(us))
    ensures Minified(PieceText(Quoted(us)) + rest) == Put(PieceText(Quoted(us)), Minified(rest))
  {
    var s, n := PieceText(Quoted(us)) + rest, |UnitsText(us)| + 1;
    LiteralEnds(us, rest);
    assert s[1..] == UnitsText(us) + (['\"'] + rest);
    assert s[..n + 1] == PieceText(Quoted(us)) && s[n + 1..] == rest;
    hide LiteralEnd, UnitsText;
  }

  lemma PieceMinified(p: Piece, rest: string)
    requires PieceOk(p) && (p.Line? ==> rest == "" || rest[0] == '\n')
    ensures Minified(PieceText(p) + rest)
         == if p.Quoted? || p.Byte? then Put(PieceText(p), Minified(rest)) else Minified(rest)
  {
    match p
    case Gap(c) => assert ([c] + rest)[1..] == rest;
    case Line(text) => LineDropped(text, rest);
    case Block(text) => BlockDropped(text, rest);
    case Quoted(us) => LiteralKept(us, rest);
    case Byte(c) => assert ([c] + rest)[1..] == rest;
  }

  /** Minifying drops the white space and the comments, and nothing else. */
  lemma {:induction false} CommentsDropped(ps: seq<Piece>)
    requires PiecesOk(ps)
    ensures Minified(PiecesText(ps)) == Some(Kept(ps))
  {
    hide Minified, PieceOk;
    if ps == [] {
      NothingMinified();
    } else {
      CommentsDropped(ps[1..]);
      if ps[0].Line? && |ps| > 1 {
        FirstPiece(ps[1..]);
      }
      PieceMinified(ps[0], PiecesText(ps[1..]));
      assert "" + Kept(ps[1..]) == Kept(ps[1..]);
    }
  }

  lemma FirstPiece(ps: seq<Piece>)
    requires ps != [] && ps[0].Gap?
    ensures PiecesText(ps) != "" && PiecesText(ps)[0] == ps[0].c
  {
  }

  lemma NothingMinified()
    ensures Minified("") == Some("")
  {
  }

  /** A slash straight behind the opening of a block comment closes it. */
  lemma SlashCloses(rest: string)
    ensures Minified("/*/" + rest) == Minified(rest)
  {
    var s := "/*/" + rest;
    assert s[1..][2..] == rest;
  }
}
