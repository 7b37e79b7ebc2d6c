/**
  Loading a string with the opaque callback: `mxml_load_data` and what it calls, as functions on the
  characters that are left. A result of none stands for NULL.
 */
module XmlLoad {
  import opened Text
  import opened XmlTree
  import opened XmlChars
  import opened XmlSave

  type Ev = Option<nat>

  // An element that is still open.
  datatype Frame = Frame(name: string, attrs: seq<Attr>, kids: seq<Xml>)

  // The first root node once it is complete, the open elements, the character buffer, and whether
  // the value type is opaque or ignored.
  datatype State = State(root: Option<Xml>, open: seq<Frame>, buf: string, opaq: bool)

  // `getc`: none at the end of the file or for an error.
  function First(e: seq<Ev>): Ev { if e == [] then None else e[0] }

  function Rest(e: seq<Ev>): seq<Ev> { if e == [] then [] else e[1..] }

  predicate Is(ch: Ev, c: char) { ch.Some? && ch.value == c as nat }

  predicate IsAlnum(ch: nat) { 48 <= ch <= 57 || 65 <= ch <= 90 || 97 <= ch <= 122 }

  // ----- entities -----

  // The name of an entity of at most 63 characters, the character behind it and what is left.
  function EntityName(e: seq<Ev>, name: string): (r: (string, Ev, seq<Ev>))
    ensures |r.2| <= |e|
    ensures e != [] ==> |r.2| < |e|
  {
    var ch := First(e);
    if ch.None? || !(IsAlnum(ch.value) || ch.value == 35) || |name| == 63 then (name, ch, Rest(e))
    else EntityName(e[1..], name + [ch.value as char])
  }

  function HexValue(c: char): Option<nat> {
    if '0' <= c <= '9' then Some(c as nat - 48)
    else if 'a' <= c <= 'f' then Some(c as nat - 87)
    else if 'A' <= c <= 'F' then Some(c as nat - 55)
    else None
  }

  // `strtol`, without a sign and without overflow.
  function StrToL(s: string, base: nat, n: nat): nat {
    if s == "" || HexValue(s[0]).None? || HexValue(s[0]).value >= base then n
    else StrToL(s[1..], base, n * base + HexValue(s[0]).value)
  }

  // A prefix that `strtol` skips.
  function WithoutPrefix(s: string): string {
    if |s| > 2 && s[0] == '0' && (s[1] == 'x' || s[1] == 'X') && HexValue(s[2]).Some? then s[2..] else s
  }

  // The character that `name` stands for; `names` are the named entities, -1 for an unknown one.
  function EntityChar(name: string, names: string -> int): int {
    if name != "" && name[0] == '#' then
      if |name| > 1 && name[1] == 'x' then StrToL(WithoutPrefix(name[2..]), 16, 0) else StrToL(name[1..], 10, 0)
    else names(name)
  }

  // `mxml_get_entity`
  function Entity(e: seq<Ev>, names: string -> int): (r: Option<(nat, seq<Ev>)>)
    ensures r.Some? ==> |r.value.1| <= |e| && (e != [] ==> |r.value.1| < |e|)
  {
    var (name, ch, rest) := EntityName(e, "");
    if !Is(ch, ';') || BadChar(EntityChar(name, names)) then None else Some((EntityChar(name, names), rest))
  }

  // A character in a place where entities are decoded.
  function Decoded(ch: nat, e: seq<Ev>, names: string -> int): (r: Option<(nat, seq<Ev>)>)
    ensures r.Some? ==> |r.value.1| <= |e|
  {
    if ch == '&' as nat then Entity(e, names) else Some((ch, e))
  }

  // ----- attributes -----

  predicate EndsName(ch: nat) {
    IsSpace(ch) || ch == '=' as nat || ch == '/' as nat || ch == '>' as nat || ch == '?' as nat
  }

  predicate EndsValue(ch: nat) { IsSpace(ch) || ch == '=' as nat || ch == '/' as nat || ch == '>' as nat }

  // Text up to a character that ends it, or to the end of the file.
  datatype Piece = Bad | Piece(text: string, ch: Ev, rest: seq<Ev>)

  function AttrName(e: seq<Ev>, name: string, names: string -> int): (r: Piece)
    ensures r.Piece? ==> |r.rest| <= |e|
    decreases |e|
  {
    if First(e).None? then Piece(name, None, Rest(e))
    else if EndsName(e[0].value) then Piece(name, e[0], e[1..])
    else
      match Decoded(e[0].value, e[1..], names)
      case None => Bad
      case Some((ch, rest)) => AttrName(rest, name + Bytes(ch), names)
  }

  // A name in quotes goes on behind its closing quote.
  function QuotedName(e: seq<Ev>, name: string, quote: nat, names: string -> int): (r: Piece)
    ensures r.Piece? ==> |r.rest| <= |e|
    decreases |e|
  {
    if First(e).None? then Piece(name, None, Rest(e))
    else
      match Decoded(e[0].value, e[1..], names)
      case None => Bad
      case Some((ch, rest)) =>
        if ch == quote then Piece(name + Bytes(ch), Some(ch), rest)
        else QuotedName(rest, name + Bytes(ch), quote, names)
  }

  function QuotedValue(e: seq<Ev>, value: string, quote: nat, names: string -> int): (r: Piece)
    ensures r.Piece? ==> |r.rest| <= |e|
    decreases |e|
  {
    if First(e).None? then Piece(value, None, Rest(e))
    else if e[0].value == quote then Piece(value, e[0], e[1..])
    else
      match Decoded(e[0].value, e[1..], names)
      case None => Bad
      case Some((ch, rest)) => QuotedValue(rest, value + Bytes(ch), quote, names)
  }

  function BareValue(e: seq<Ev>, value: string, names: string -> int): (r: Piece)
    ensures r.Piece? ==> |r.rest| <= |e|
    decreases |e|
  {
    if First(e).None? then Piece(value, None, Rest(e))
    else if EndsValue(e[0].value) then Piece(value, e[0], e[1..])
    else
      match Decoded(e[0].value, e[1..], names)
      case None => Bad
      case Some((ch, rest)) => BareValue(rest, value + Bytes(ch), names)
  }

  // `ch` and what is left, behind white space.
  function SkipSpace(ch: Ev, e: seq<Ev>): (r: (Ev, seq<Ev>))
    ensures |r.1| <= |e|
    decreases |e|
  {
    if ch.Some? && IsSpace(ch.value) && e != [] then SkipSpace(e[0], e[1..])
    else if ch.Some? && IsSpace(ch.value) then (None, [])
    else (ch, e)
  }

  // `mxmlElementSetAttr`
  function SetAttr(attrs: seq<Attr>, name: string, value: string): seq<Attr> {
    if attrs == [] then [Attr(name, Some(value))]
    else if attrs[0].name == name then [Attr(name, Some(value))] + attrs[1..]
    else [attrs[0]] + SetAttr(attrs[1..], name, value)
  }

  predicate IsQuote(ch: nat) { ch == '\"' as nat || ch == '\'' as nat }

  // The name of an attribute, from its first character on.
  function NamePart(ch: nat, e: seq<Ev>, names: string -> int): (r: Piece)
    ensures r.Piece? ==> |r.rest| <= |e|
  {
    if IsQuote(ch) then QuotedName(e, [Byte(ch)], ch, names) else AttrName(e, [Byte(ch)], names)
  }

  function ValuePart(ch: nat, e: seq<Ev>, names: string -> int): (r: Piece)
    ensures r.Piece? ==> |r.rest| <= |e|
  {
    if IsQuote(ch) then QuotedValue(e, "", ch, names) else BareValue(e, [Byte(ch)], names)
  }

  // One attribute, from its first character `ch` on: its name, its value and the character behind it.
  function OneAttr(ch: nat, e: seq<Ev>, attrs: seq<Attr>, names: string -> int): (r: Option<(seq<Attr>, Ev, seq<Ev>)>)
    ensures r.Some? ==> |r.value.2| <= |e|
  {
    var name := NamePart(ch, e, names);
    if name.Bad? || AttrIn(attrs, name.text).Some? then None
    else
      var (eq, e1) := SkipSpace(name.ch, name.rest);
      if !Is(eq, '=') then None
      else
        var (ch1, e2) := SkipSpace(First(e1), Rest(e1));
        if ch1.None? then None
        else
          var value := ValuePart(ch1.value, e2, names);
          if value.Bad? then None else Some((SetAttr(attrs, name.text, value.text), value.ch, value.rest))
  }

  // `mxml_parse_element`: the attributes and the character that ends the tag, none for an error.
  function Attrs(e: seq<Ev>, attrs: seq<Attr>, names: string -> int): (r: Option<(seq<Attr>, nat, seq<Ev>)>)
    ensures r.Some? ==> |r.value.2| <= |e|
    decreases |e|
  {
    if First(e).None? then None
    else
      var ch := e[0].value;
      if IsSpace(ch) then Attrs(e[1..], attrs, names)
      else if ch == '/' as nat || ch == '?' as nat then
        if Is(First(e[1..]), '>') then Some((attrs, ch, e[2..])) else None
      else if ch == '<' as nat then None
      else if ch == '>' as nat then Some((attrs, ch, e[1..]))
      else
        match OneAttr(ch, e[1..], attrs, names)
        case None => None
        case Some((more, end, rest)) =>
          if Is(end, '/') || Is(end, '?') then
            if Is(First(rest), '>') then Some((more, end.value, Rest(rest))) else None
          else if Is(end, '>') then Some((more, end.value, rest))
          else Attrs(rest, more, names)
  }

  // ----- tags -----

  // The name of a tag and the character that ends it.
  function TagName(e: seq<Ev>, buf: string, names: string -> int): (r: Piece)
    ensures r.Piece? ==> |r.rest| <= |e|
    decreases |e|
  {
    if First(e).None? then Piece(buf, None, Rest(e))
    else
      var ch := e[0].value;
      if IsSpace(ch) || ch == '>' as nat || (ch == '/' as nat && buf != "") then Piece(buf, e[0], e[1..])
      else if ch == '<' as nat then Bad
      else if ch == '&' as nat then
        match Entity(e[1..], names)
        case None => Bad
        case Some((c, rest)) => TagName(rest, buf + Bytes(c), names)
      else if ch < '0' as nat && ch != '!' as nat && ch != '-' as nat && ch != '.' as nat && ch != '/' as nat then Bad
      else
        var more := buf + Bytes(ch);
        if more == "?" || more == "!--" || more == "![CDATA[" then Piece(more, e[0], e[1..])
        else TagName(e[1..], more, names)
  }

  function Last(s: string, n: nat): char
    requires n < |s|
  {
    s[|s| - 1 - n]
  }

  predicate CommentEnds(buf: string) {
    |buf| > 4 && Last(buf, 0) == '-' && Last(buf, 1) == '-' && Last(buf, 2) != '-'
  }

  predicate CDataEnds(buf: string) { |buf| >= 2 && Last(buf, 0) == ']' && Last(buf, 1) == ']' }

  predicate InstructionEnds(buf: string) { buf != "" && Last(buf, 0) == '?' }

  datatype Kind = Comment | CData | Instruction

  predicate VerbatimEnds(kind: Kind, buf: string) {
    match kind
    case Comment => CommentEnds(buf)
    case CData => CDataEnds(buf)
    case Instruction => InstructionEnds(buf)
  }

  // The text of a comment, a CDATA section or a processing instruction, up to its end.
  function Verbatim(kind: Kind, e: seq<Ev>, buf: string): (r: Option<(string, seq<Ev>)>)
    ensures r.Some? ==> |r.value.1| <= |e|
  {
    if First(e).None? then None
    else if Is(e[0], '>') && VerbatimEnds(kind, buf) then
      Some((if kind == CData then buf[..|buf| - 2] else buf, e[1..]))
    else Verbatim(kind, e[1..], buf + Bytes(e[0].value))
  }

  // The text of a declaration, from `ch` on. At the end of the file the character -1 goes into the
  // buffer as the byte 255.
  function Declaration(ch: Ev, e: seq<Ev>, buf: string, names: string -> int): (r: Option<(string, seq<Ev>)>)
    ensures r.Some? ==> |r.value.1| <= |e|
    decreases |e|
  {
    if Is(ch, '>') then Some((buf, e))
    else
      match DeclarationPart(ch, e, names)
      case None => None
      case Some((part, rest)) =>
        if First(rest).None? then None else Declaration(rest[0], rest[1..], buf + part, names)
  }

  function DeclarationPart(ch: Ev, e: seq<Ev>, names: string -> int): (r: Option<(string, seq<Ev>)>)
    ensures r.Some? ==> |r.value.1| <= |e|
  {
    if ch.None? then Some(([255 as char], e))
    else match Decoded(ch.value, e, names) case None => None case Some((c, rest)) => Some((Bytes(c), rest))
  }

  // The text behind the next '>', or from the end of the file on.
  function SkipTo(ch: Ev, e: seq<Ev>): (r: seq<Ev>)
    ensures |r| <= |e|
    decreases |e|
  {
    if ch.None? || Is(ch, '>') then e else if e == [] then [] else SkipTo(e[0], e[1..])
  }

  // ----- nodes -----

  // A node goes to the end of the children of the innermost open element.
  function AddNode(st: State, x: Xml): State {
    if st.open == [] then st.(root := if st.root.None? then Some(x) else st.root)
    else
      var n := |st.open| - 1;
      st.(open := st.open[..n] + [st.open[n].(kids := st.open[n].kids + [x])])
  }

  // The text in the buffer becomes a node.
  function Flush(st: State): State {
    if st.buf == "" then st
    else if st.opaq then AddNode(st, Leaf(st.buf)).(buf := "")
    else st.(buf := "")
  }

  // A second root node is an error.
  predicate NoRoom(st: State) { st.open == [] && st.root.Some? }

  function Enter(st: State, name: string, attrs: seq<Attr>): State {
    st.(open := st.open + [Frame(name, attrs, [])], opaq := true)
  }

  function Leave(st: State): State
    requires st.open != []
  {
    var n := |st.open| - 1;
    var f := st.open[n];
    AddNode(st.(open := st.open[..n]), Branch(f.name, f.attrs, f.kids))
  }

  // The state after a tag and what is left; `end` if the file has ended.
  datatype Tagged = Wrong | Tagged(st: State, rest: seq<Ev>, end: bool)

  function CloseTag(st: State, name: string, ch: Ev, e: seq<Ev>): Tagged {
    if st.open == [] || name != st.open[|st.open| - 1].name then Wrong
    else Tagged(Leave(st), SkipTo(ch, e), false)
  }

  function OpenTag(st: State, name: string, ch: Ev, e: seq<Ev>, names: string -> int): Tagged {
    if NoRoom(st) then Wrong
    else if ch.None? then Tagged(AddNode(st, Branch(name, [], [])), e, true)
    else if IsSpace(ch.value) then
      match Attrs(e, [], names)
      case None => Wrong
      case Some((attrs, end, rest)) =>
        if end == '/' as nat then Tagged(AddNode(st, Branch(name, attrs, [])), rest, false)
        else Tagged(Enter(st, name, attrs), rest, false)
    else if Is(ch, '/') then
      if Is(First(e), '>') then Tagged(AddNode(st, Branch(name, [], [])), Rest(e), false) else Wrong
    else Tagged(Enter(st, name, []), e, false)
  }

  // A comment or CDATA section is a node without attributes and children; an instruction or a
  // declaration may be the root element.
  function NamedNode(st: State, text: Option<(string, seq<Ev>)>, root: bool): Tagged {
    if text.None? || NoRoom(st) then Wrong
    else if root && st.open == [] then Tagged(Enter(st, text.value.0, []), text.value.1, false)
    else Tagged(AddNode(st, Branch(text.value.0, [], [])), text.value.1, false)
  }

  // A tag, from behind its '<'.
  function Tag(st: State, e: seq<Ev>, names: string -> int): (r: Tagged)
    ensures r.Tagged? ==> |r.rest| <= |e|
  {
    var name := TagName(e, "", names);
    if name.Bad? then Wrong
    else if name.text == "!--" then NamedNode(st, Verbatim(Comment, name.rest, name.text), false)
    else if name.text == "![CDATA[" then NamedNode(st, Verbatim(CData, name.rest, name.text), false)
    else if name.text != "" && name.text[0] == '?' then
      NamedNode(st, Verbatim(Instruction, name.rest, name.text), true)
    else if name.text != "" && name.text[0] == '!' then
      NamedNode(st, Declaration(name.ch, name.rest, name.text, names), true)
    else if name.text != "" && name.text[0] == '/' then CloseTag(st, name.text[1..], name.ch, name.rest)
    else OpenTag(st, name.text, name.ch, name.rest, names)
  }

  // ----- the main loop -----

  // At the end of the file: an element that is still open is an error, unless it is the root.
  function Finish(st: State): Option<Xml> {
    if |st.open| > 1 then None
    else if |st.open| == 1 then Some(Branch(st.open[0].name, st.open[0].attrs, st.open[0].kids))
    else st.root
  }

  function Load(e: seq<Ev>, st: State, names: string -> int): Option<Xml>
    decreases |e|
  {
    if First(e).None? then Finish(st)
    else
      var ch := e[0].value;
      var st1 := if ch == '<' as nat || (IsSpace(ch) && !st.opaq) then Flush(st) else st;
      if ch == '<' as nat then
        match Tag(st1, e[1..], names)
        case Wrong => None
        case Tagged(st2, rest, end) => if end then Finish(st2) else Load(rest, st2.(buf := ""), names)
      else if ch == '&' as nat then
        match Entity(e[1..], names)
        case None => None
        case Some((c, rest)) => Load(rest, st1.(buf := st1.buf + Bytes(c)), names)
      else if st1.opaq || !IsSpace(ch) then Load(e[1..], st1.(buf := st1.buf + Bytes(ch)), names)
      else Load(e[1..], st1, names)
  }

  const START := State(None, [], "", false)

  // `mxmlLoadString(NULL, text, MXML_OPAQUE_CALLBACK)`
  function LoadString(text: string, names: string -> int): Option<Xml> { Load(Events(text), START, names) }
}
