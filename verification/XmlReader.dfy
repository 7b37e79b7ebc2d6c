/**
  The loops of Mini-XML's loader: a cursor in the string, character buffers that grow, and the main
  loop of `mxml_load_data`. The open elements are a stack of values here.
 */
module XmlReader {
  import opened Text
  import opened XmlTree
  import opened XmlChars
  import opened XmlSave
  import opened XmlLoad
  import R = XmlRoundTrip

  // The string pointer that `mxml_string_getc` moves.
  class Source {
    const text: string
    var pos: nat

    ghost predicate Valid()
      reads this
    {
      pos <= |text|
    }

    // The characters that are left.
    ghost function Left(): seq<Ev>
      requires Valid()
      reads this
    {
      Events(text[pos..])
    }

    constructor (text: string)
      ensures this.text == text && Valid() && Left() == Events(text)
    {
      this.text := text;
      pos := 0;
      new;
      assert text[0..] == text;
    }

    // `mxml_string_getc`
    method Getc() returns (ch: Ev)
      requires Valid()
      modifies this`pos
      ensures Valid() && ch == First(old(Left())) && Left() == Rest(old(Left()))
    {
      while pos < |text|
        invariant Valid() && Left() == old(Left())
        decreases |text| - pos
      {
        var (got, n) := Next(text[pos..]);
        assert text[pos..][n..] == text[pos + n..];
        pos := pos + n;
        match got {
          case Char(cp) =>
            return Some(cp);
          case Invalid =>
            return None;
          case Skipped =>
        }
      }
      return None;
    }
  }

  // A string buffer of the loader. There is always room for the terminating NUL.
  class CharBuffer {
    var data: array<char>
    var ptr: nat

    predicate Valid()
      reads this
    {
      64 <= data.Length && ptr < data.Length
    }

    function Contents(): string
      requires Valid()
      reads this, data
    {
      data[..ptr]
    }

    constructor ()
      ensures Valid() && Contents() == "" && fresh(data)
    {
      data := new char[64];
      ptr := 0;
    }

    method Clear()
      requires Valid()
      modifies this`ptr
      ensures Valid() && Contents() == ""
    {
      ptr := 0;
    }

    // The growth of the buffer in `mxml_add_char`.
    method Reserve()
      requires Valid()
      modifies this`data
      ensures Valid() && ptr + 4 < data.Length && Contents() == old(Contents())
      ensures data == old(data) || fresh(data)
    {
      if ptr >= data.Length - 4 {
        var bufsize := if data.Length < 1024 then data.Length * 2 else data.Length + 1024;
        var larger := new char[bufsize];
        for i := 0 to ptr
          invariant data == old(data) && larger[..i] == data[..i]
        {
          larger[i] := data[i];
        }
        data := larger;
      }
    }

    method Put(c: char)
      requires Valid() && ptr + 1 < data.Length
      modifies this`ptr, data
      ensures Valid() && ptr == old(ptr) + 1 && data == old(data) && Contents() == old(Contents()) + [c]
    {
      data[ptr] := c;
      ptr := ptr + 1;
    }

    // `mxml_add_char`
    method AddChar(ch: nat)
      requires Valid()
      modifies this, data
      ensures Valid() && Contents() == old(Contents()) + Bytes(ch)
      ensures data == old(data) || fresh(data)
    {
      Reserve();
      hide Byte;
      if ch < 0x80 {
        Put(Byte(ch));
      } else if ch < 0x800 {
        PutTwo(Byte(0xC0 + ch / 64), Byte(0x80 + ch % 64));
      } else if ch < 0x10000 {
        Put(Byte(0xE0 + ch / 4096));
        PutTwo(Byte(0x80 + ch / 64 % 64), Byte(0x80 + ch % 64));
      } else {
        PutTwo(Byte(0xF0 + ch / 262144 % 16), Byte(0x80 + ch / 4096 % 64));
        PutTwo(Byte(0x80 + ch / 64 % 64), Byte(0x80 + ch % 64));
      }
    }

    method PutTwo(c: char, d: char)
      requires Valid() && ptr + 2 < data.Length
      modifies this`ptr, data
      ensures Valid() && ptr == old(ptr) + 2 && data == old(data) && Contents() == old(Contents()) + [c, d]
    {
      Put(c);
      Put(d);
    }
  }

  // ----- entities -----

  // `mxml_get_entity`; none for EOF.
  method GetEntity(src: Source, names: string -> int) returns (r: Option<nat>)
    requires src.Valid()
    modifies src`pos
    ensures src.Valid()
    ensures match Entity(old(src.Left()), names)
            case None => r == None
            case Some((c, rest)) => r == Some(c) && src.Left() == rest
  {
    var entity := "";
    var ch := src.Getc();
    ghost var goal := EntityName(old(src.Left()), "");
    while ch.Some? && (IsAlnum(ch.value) || ch.value == 35) && |entity| < 63
      invariant src.Valid() && |entity| <= 63
      invariant ch.None? || !(IsAlnum(ch.value) || ch.value == 35) || |entity| == 63 ==>
                  goal == (entity, ch, src.Left())
      invariant ch.Some? && (IsAlnum(ch.value) || ch.value == 35) && |entity| < 63 ==>
                  goal == EntityName(src.Left(), entity + [ch.value as char])
      decreases 63 - |entity|
    {
      entity := entity + [ch.value as char];
      ch := src.Getc();
    }
    if !Is(ch, ';') {
      return None;
    }
    var c := EntityChar(entity, names);
    if BadChar(c) {
      return None;
    }
    return Some(c);
  }

  // A character in a place where entities are decoded.
  method Decode(src: Source, ch: nat, names: string -> int) returns (r: Option<nat>)
    requires src.Valid()
    modifies src`pos
    ensures src.Valid()
    ensures match Decoded(ch, old(src.Left()), names)
            case None => r == None
            case Some((c, rest)) => r == Some(c) && src.Left() == rest
  {
    if ch == '&' as nat {
      r := GetEntity(src, names);
    } else {
      r := Some(ch);
    }
  }

  // ----- attributes -----

  // The result of a loop that gathers text in a buffer.
  ghost predicate Gathered(p: Piece, ok: bool, ch: Ev, src: Source, buf: CharBuffer)
    requires src.Valid() && buf.Valid()
    reads src, buf, buf.data
  {
    match p
    case Bad => !ok
    case Piece(text, end, rest) => ok && text == buf.Contents() && end == ch && rest == src.Left()
  }

  method ReadAttrName(src: Source, buf: CharBuffer, names: string -> int) returns (ok: bool, ch: Ev)
    requires src.Valid() && buf.Valid()
    modifies src`pos, buf, buf.data
    ensures src.Valid() && buf.Valid() && (buf.data == old(buf.data) || fresh(buf.data))
    ensures Gathered(AttrName(old(src.Left()), old(buf.Contents()), names), ok, ch, src, buf)
  {
    ghost var goal := AttrName(src.Left(), buf.Contents(), names);
    ok := true;
    while true
      invariant src.Valid() && buf.Valid() && (buf.data == old(buf.data) || fresh(buf.data))
      invariant goal == AttrName(src.Left(), buf.Contents(), names) && ok
      decreases |src.Left()|
    {
      ch := src.Getc();
      if ch.None? || EndsName(ch.value) {
        return;
      }
      var c := Decode(src, ch.value, names);
      if c.None? {
        return false, ch;
      }
      buf.AddChar(c.value);
    }
  }

  method ReadQuotedName(src: Source, buf: CharBuffer, quote: nat, names: string -> int) returns (ok: bool, ch: Ev)
    requires src.Valid() && buf.Valid()
    modifies src`pos, buf, buf.data
    ensures src.Valid() && buf.Valid() && (buf.data == old(buf.data) || fresh(buf.data))
    ensures Gathered(QuotedName(old(src.Left()), old(buf.Contents()), quote, names), ok, ch, src, buf)
  {
    ghost var goal := QuotedName(src.Left(), buf.Contents(), quote, names);
    ok := true;
    while true
      invariant src.Valid() && buf.Valid() && (buf.data == old(buf.data) || fresh(buf.data))
      invariant goal == QuotedName(src.Left(), buf.Contents(), quote, names) && ok
      decreases |src.Left()|
    {
      ch := src.Getc();
      if ch.None? {
        return;
      }
      var c := Decode(src, ch.value, names);
      if c.None? {
        return false, ch;
      }
      buf.AddChar(c.value);
      if c.value == quote {
        return true, c;
      }
    }
  }

  method ReadQuotedValue(src: Source, buf: CharBuffer, quote: nat, names: string -> int) returns (ok: bool, ch: Ev)
    requires src.Valid() && buf.Valid()
    modifies src`pos, buf, buf.data
    ensures src.Valid() && buf.Valid() && (buf.data == old(buf.data) || fresh(buf.data))
    ensures Gathered(QuotedValue(old(src.Left()), old(buf.Contents()), quote, names), ok, ch, src, buf)
  {
    ghost var goal := QuotedValue(src.Left(), buf.Contents(), quote, names);
    ok := true;
    while true
      invariant src.Valid() && buf.Valid() && (buf.data == old(buf.data) || fresh(buf.data))
      invariant goal == QuotedValue(src.Left(), buf.Contents(), quote, names) && ok
      decreases |src.Left()|
    {
      ch := src.Getc();
      if ch.None? || ch.value == quote {
        return;
      }
      var c := Decode(src, ch.value, names);
      if c.None? {
        return false, ch;
      }
      buf.AddChar(c.value);
    }
  }

  method ReadBareValue(src: Source, buf: CharBuffer, names: string -> int) returns (ok: bool, ch: Ev)
    requires src.Valid() && buf.Valid()
    modifies src`pos, buf, buf.data
    ensures src.Valid() && buf.Valid() && (buf.data == old(buf.data) || fresh(buf.data))
    ensures Gathered(BareValue(old(src.Left()), old(buf.Contents()), names), ok, ch, src, buf)
  {
    ghost var goal := BareValue(src.Left(), buf.Contents(), names);
    ok := true;
    while true
      invariant src.Valid() && buf.Valid() && (buf.data == old(buf.data) || fresh(buf.data))
      invariant goal == BareValue(src.Left(), buf.Contents(), names) && ok
      decreases |src.Left()|
    {
      ch := src.Getc();
      if ch.None? || EndsValue(ch.value) {
        return;
      }
      var c := Decode(src, ch.value, names);
      if c.None? {
        return false, ch;
      }
      buf.AddChar(c.value);
    }
  }

  method ReadSpace(src: Source, start: Ev) returns (ch: Ev)
    requires src.Valid()
    modifies src`pos
    ensures src.Valid() && SkipSpace(start, old(src.Left())) == (ch, src.Left())
  {
    ch := start;
    while ch.Some? && IsSpace(ch.value)
      invariant src.Valid() && SkipSpace(ch, src.Left()) == SkipSpace(start, old(src.Left()))
      decreases |src.Left()|, if ch.Some? then 1 else 0
    {
      ch := src.Getc();
    }
  }

  // One attribute, as `mxml_parse_element` reads it into its two buffers.
  method ReadOneAttr(src: Source, first: nat, attrs: seq<Attr>, name: CharBuffer, value: CharBuffer,
                     names: string -> int)
    returns (ok: bool, after: seq<Attr>, ch: Ev)
    requires src.Valid() && name.Valid() && value.Valid() && name != value && name.data != value.data
    modifies src`pos, name, name.data, value, value.data
    ensures src.Valid() && name.Valid() && value.Valid() && name.data != value.data
    ensures name.data == old(name.data) || fresh(name.data)
    ensures value.data == old(value.data) || fresh(value.data)
    ensures match OneAttr(first, old(src.Left()), attrs, names)
            case None => !ok
            case Some((more, end, rest)) => ok && after == more && end == ch && rest == src.Left()
  {
    after, ch := attrs, None;
    ok, ch := ReadName(src, first, name, names);
    if !ok || AttrIn(attrs, name.Contents()).Some? {
      return false, after, ch;
    }
    ghost var part := name.Contents();
    ch := ReadSpace(src, ch);
    if !Is(ch, '=') {
      return false, after, ch;
    }
    ch := src.Getc();
    ch := ReadSpace(src, ch);
    if ch.None? {
      return false, after, ch;
    }
    ok, ch := ReadValue(src, ch.value, value, names);
    if ok {
      assert name.Contents() == part;
      after := SetAttr(attrs, name.Contents(), value.Contents());
    }
  }

  method ReadName(src: Source, first: nat, name: CharBuffer, names: string -> int) returns (ok: bool, ch: Ev)
    requires src.Valid() && name.Valid()
    modifies src`pos, name, name.data
    ensures src.Valid() && name.Valid() && (name.data == old(name.data) || fresh(name.data))
    ensures Gathered(NamePart(first, old(src.Left()), names), ok, ch, src, name)
  {
    name.Clear();
    name.Put(Byte(first));
    assert name.Contents() == [Byte(first)];
    if first == '\"' as nat || first == '\'' as nat {
      ok, ch := ReadQuotedName(src, name, first, names);
    } else {
      ok, ch := ReadAttrName(src, name, names);
    }
  }

  method ReadValue(src: Source, first: nat, value: CharBuffer, names: string -> int) returns (ok: bool, ch: Ev)
    requires src.Valid() && value.Valid()
    modifies src`pos, value, value.data
    ensures src.Valid() && value.Valid() && (value.data == old(value.data) || fresh(value.data))
    ensures Gathered(ValuePart(first, old(src.Left()), names), ok, ch, src, value)
  {
    value.Clear();
    if first == '\"' as nat || first == '\'' as nat {
      ok, ch := ReadQuotedValue(src, value, first, names);
    } else {
      value.Put(Byte(first));
      assert value.Contents() == [Byte(first)];
      ok, ch := ReadBareValue(src, value, names);
    }
  }

  // `mxml_parse_element`; none for EOF.
  method ReadAttrs(src: Source, names: string -> int) returns (attrs: seq<Attr>, end: Option<nat>)
    requires src.Valid()
    modifies src`pos
    ensures src.Valid()
    ensures match Attrs(old(src.Left()), [], names)
            case None => end == None
            case Some((all, ch, rest)) => attrs == all && end == Some(ch) && src.Left() == rest
  {
    var name := new CharBuffer();
    var value := new CharBuffer();
    attrs := [];
    ghost var goal := Attrs(src.Left(), [], names);
    while true
      invariant src.Valid() && fresh(name) && fresh(value) && fresh(name.data) && fresh(value.data)
      invariant name.Valid() && value.Valid() && name != value && name.data != value.data
      invariant goal == Attrs(src.Left(), attrs, names)
      decreases |src.Left()|
    {
      ghost var left := src.Left();
      var ch := src.Getc();
      if ch.None? {
        return attrs, None;
      }
      if IsSpace(ch.value) {
        continue;
      }
      if Is(ch, '/') || Is(ch, '?') {
        var quote := src.Getc();
        return attrs, if Is(quote, '>') then ch else None;
      } else if Is(ch, '<') {
        return attrs, None;
      } else if Is(ch, '>') {
        return attrs, ch;
      }
      var ok, more, stop := ReadOneAttr(src, ch.value, attrs, name, value, names);
      if !ok {
        return attrs, None;
      }
      attrs := more;
      if Is(stop, '/') || Is(stop, '?') {
        var quote := src.Getc();
        return attrs, if Is(quote, '>') then stop else None;
      } else if Is(stop, '>') {
        return attrs, stop;
      }
    }
  }

  // ----- tags -----

  // The name of a tag.
  method ReadTagName(src: Source, buf: CharBuffer, names: string -> int) returns (ok: bool, ch: Ev)
    requires src.Valid() && buf.Valid()
    modifies src`pos, buf, buf.data
    ensures src.Valid() && buf.Valid() && (buf.data == old(buf.data) || fresh(buf.data))
    ensures Gathered(TagName(old(src.Left()), "", names), ok, ch, src, buf)
  {
    ghost var goal := TagName(src.Left(), "", names);
    ok := true;
    buf.Clear();
    while true
      invariant src.Valid() && buf.Valid() && (buf.data == old(buf.data) || fresh(buf.data))
      invariant goal == TagName(src.Left(), buf.Contents(), names) && ok
      decreases |src.Left()|
    {
      ch := src.Getc();
      if ch.None? || IsSpace(ch.value) || Is(ch, '>') || (Is(ch, '/') && buf.Contents() != "") {
        return;
      } else if Is(ch, '<') {
        return false, ch;
      } else if Is(ch, '&') {
        var c := GetEntity(src, names);
        if c.None? {
          return false, ch;
        }
        buf.AddChar(c.value);
      } else if ch.value < '0' as nat && !Is(ch, '!') && !Is(ch, '-') && !Is(ch, '.') && !Is(ch, '/') {
        return false, ch;
      } else {
        buf.AddChar(ch.value);
        var text := buf.Contents();
        if text == "?" || text == "!--" || text == "![CDATA[" {
          return;
        }
      }
    }
  }

  lemma CDataSize(kind: Kind, buf: string)
    requires VerbatimEnds(kind, buf)
    ensures kind == CData ==> |buf| >= 2
  {
  }

  // The rest of a comment, a CDATA section or a processing instruction.
  method ReadVerbatim(src: Source, kind: Kind, buf: CharBuffer) returns (text: Option<string>)
    requires src.Valid() && buf.Valid()
    modifies src`pos, buf, buf.data
    ensures src.Valid() && buf.Valid() && (buf.data == old(buf.data) || fresh(buf.data))
    ensures match Verbatim(kind, old(src.Left()), old(buf.Contents()))
            case None => text == None
            case Some((all, rest)) => text == Some(all) && src.Left() == rest
  {
    hide VerbatimEnds, Bytes, Events;
    ghost var goal := Verbatim(kind, src.Left(), buf.Contents());
    while true
      invariant src.Valid() && buf.Valid() && (buf.data == old(buf.data) || fresh(buf.data))
      invariant goal == Verbatim(kind, src.Left(), buf.Contents())
      decreases |src.Left()|
    {
      var ch := src.Getc();
      if ch.None? {
        return None;
      }
      var all := buf.Contents();
      if Is(ch, '>') && VerbatimEnds(kind, all) {
        CDataSize(kind, all);
        return Some(if kind == CData then all[..|all| - 2] else all);
      }
      buf.AddChar(ch.value);
    }
  }

  // The rest of a declaration, from `first` on.
  method ReadDeclaration(src: Source, first: Ev, buf: CharBuffer, names: string -> int) returns (text: Option<string>)
    requires src.Valid() && buf.Valid()
    modifies src`pos, buf, buf.data
    ensures src.Valid() && buf.Valid() && (buf.data == old(buf.data) || fresh(buf.data))
    ensures match Declaration(first, old(src.Left()), old(buf.Contents()), names)
            case None => text == None
            case Some((all, rest)) => text == Some(all) && src.Left() == rest
  {
    ghost var goal := Declaration(first, src.Left(), buf.Contents(), names);
    var ch := first;
    while !Is(ch, '>')
      invariant src.Valid() && buf.Valid() && (buf.data == old(buf.data) || fresh(buf.data))
      invariant goal == Declaration(ch, src.Left(), buf.Contents(), names)
      decreases |src.Left()|, if ch.Some? then 0 else 1
    {
      if ch.None? {
        // The character -1.
        buf.Reserve();
        buf.Put(255 as char);
      } else {
        var c := Decode(src, ch.value, names);
        if c.None? {
          return None;
        }
        buf.AddChar(c.value);
      }
      ch := src.Getc();
      if ch.None? {
        return None;
      }
    }
    return Some(buf.Contents());
  }

  method ReadToEnd(src: Source, start: Ev)
    requires src.Valid()
    modifies src`pos
    ensures src.Valid() && src.Left() == SkipTo(start, old(src.Left()))
  {
    var ch := start;
    ghost var goal := SkipTo(start, src.Left());
    while ch.Some? && !Is(ch, '>')
      invariant src.Valid() && goal == SkipTo(ch, src.Left())
      decreases |src.Left()|, if ch.Some? then 1 else 0
    {
      ch := src.Getc();
    }
  }

  // The state of `mxml_load_data` besides its buffer.
  datatype Nodes = Nodes(root: Option<Xml>, open: seq<Frame>, opaq: bool)

  function StateOf(n: Nodes, buf: string): State { State(n.root, n.open, buf, n.opaq) }

  function WithoutBuffer(st: State): Nodes { Nodes(st.root, st.open, st.opaq) }

  // The outcome of a tag.
  ghost predicate Done(r: Tagged, ok: bool, end: bool, after: Nodes, src: Source)
    requires src.Valid()
    reads src
  {
    match r
    case Wrong => !ok
    case Tagged(st, rest, last) => ok && end == last && after == WithoutBuffer(st) && src.Left() == rest
  }

  method ReadOpenTag(src: Source, n: Nodes, name: string, ch: Ev, names: string -> int)
    returns (ok: bool, end: bool, after: Nodes)
    requires src.Valid()
    modifies src`pos
    ensures src.Valid() && Done(OpenTag(StateOf(n, ""), name, ch, old(src.Left()), names), ok, end, after, src)
  {
    var st := StateOf(n, "");
    ok, end, after := true, false, n;
    if n.open == [] && n.root.Some? {
      return false, end, after;
    }
    if ch.None? {
      return true, true, WithoutBuffer(AddNode(st, Branch(name, [], [])));
    } else if IsSpace(ch.value) {
      var attrs, stop := ReadAttrs(src, names);
      if stop.None? {
        return false, end, after;
      }
      after := WithoutBuffer(if Is(stop, '/') then AddNode(st, Branch(name, attrs, [])) else Enter(st, name, attrs));
    } else if Is(ch, '/') {
      var next := src.Getc();
      ok := Is(next, '>');
      after := WithoutBuffer(AddNode(st, Branch(name, [], [])));
    } else {
      after := WithoutBuffer(Enter(st, name, []));
    }
  }

  method MakeNode(src: Source, n: Nodes, text: Option<string>, root: bool, ghost spec: Option<(string, seq<Ev>)>)
    returns (ok: bool, end: bool, after: Nodes)
    requires src.Valid()
    requires match spec case None => text == None case Some((all, rest)) => text == Some(all) && src.Left() == rest
    ensures src.Valid() && Done(NamedNode(StateOf(n, ""), spec, root), ok, end, after, src)
  {
    ok, end, after := true, false, n;
    var st := StateOf(n, "");
    if text.None? || (n.open == [] && n.root.Some?) {
      return false, end, after;
    }
    if root && n.open == [] {
      after := WithoutBuffer(Enter(st, text.value, []));
    } else {
      after := WithoutBuffer(AddNode(st, Branch(text.value, [], [])));
    }
  }

  // A tag, from behind its '<'.
  method ReadTag(src: Source, buf: CharBuffer, n: Nodes, names: string -> int)
    returns (ok: bool, end: bool, after: Nodes)
    requires src.Valid() && buf.Valid()
    modifies src`pos, buf, buf.data
    ensures src.Valid() && buf.Valid() && (buf.data == old(buf.data) || fresh(buf.data))
    ensures Done(Tag(StateOf(n, ""), old(src.Left()), names), ok, end, after, src)
  {
    end, after := false, n;
    var ch;
    ok, ch := ReadTagName(src, buf, names);
    if !ok {
      return;
    }
    var name := buf.Contents();
    ghost var left := src.Left();
    if name == "!--" {
      var text := ReadVerbatim(src, Comment, buf);
      ok, end, after := MakeNode(src, n, text, false, Verbatim(Comment, left, name));
    } else if name == "![CDATA[" {
      var text := ReadVerbatim(src, CData, buf);
      ok, end, after := MakeNode(src, n, text, false, Verbatim(CData, left, name));
    } else if name != "" && name[0] == '?' {
      var text := ReadVerbatim(src, Instruction, buf);
      ok, end, after := MakeNode(src, n, text, true, Verbatim(Instruction, left, name));
    } else if name != "" && name[0] == '!' {
      var text := ReadDeclaration(src, ch, buf, names);
      ok, end, after := MakeNode(src, n, text, true, Declaration(ch, left, name, names));
    } else if name != "" && name[0] == '/' {
      if n.open == [] || name[1..] != n.open[|n.open| - 1].name {
        return false, end, after;
      }
      ReadToEnd(src, ch);
      after := WithoutBuffer(Leave(StateOf(n, "")));
    } else {
      ok, end, after := ReadOpenTag(src, n, name, ch, names);
    }
  }

  // ----- the main loop -----

  /** `mxml_load_data` behind `mxmlLoadString` without a top node, with the opaque callback. */
  method LoadText(text: string, names: string -> int) returns (r: Option<Xml>)
    ensures r == LoadString(text, names)
  {
    var src := new Source(text);
    var buf := new CharBuffer();
    var n := Nodes(None, [], false);
    ghost var goal := LoadString(text, names);
    hide Tag, Entity, Flush, AddNode, Events, Bytes;
    while true
      invariant src.Valid() && buf.Valid() && fresh(src) && fresh(buf) && fresh(buf.data)
      invariant goal == Load(src.Left(), StateOf(n, buf.Contents()), names)
      decreases |src.Left()|
    {
      var ch := src.Getc();
      if ch.None? {
        break;
      }
      if Is(ch, '<') || (IsSpace(ch.value) && !n.opaq) {
        R.FlushEmpty(StateOf(n, buf.Contents()));
        n := WithoutBuffer(Flush(StateOf(n, buf.Contents())));
        buf.Clear();
      }
      if Is(ch, '<') {
        var ok, end, after := ReadTag(src, buf, n, names);
        if !ok {
          return None;
        }
        n := after;
        buf.Clear();
        if end {
          break;
        }
      } else if Is(ch, '&') {
        var c := GetEntity(src, names);
        if c.None? {
          return None;
        }
        buf.AddChar(c.value);
      } else if n.opaq || !IsSpace(ch.value) {
        buf.AddChar(ch.value);
      }
    }
    r := Finish(StateOf(n, buf.Contents()));
  }

  /**
    Save a tree and load the text: the tree comes back, apart from text that is empty or stands next
    to other text.
   */
  method SaveThenLoad(node: Node, wrap: int, names: string -> int, ghost t: Tree) returns (r: Option<Xml>)
    requires Linked(t) && Distinct(Preorder(t)) && Documented(LayoutOf(t)) && node == t.node
    requires R.SavableRoot(XmlOf(t)) && R.EntitiesOk(names)
    ensures r == Some(R.Loaded(XmlOf(t)))
    ensures r == Some(XmlOf(t)) <==> R.Tidy(XmlOf(t)) && R.Complete(XmlOf(t))
  {
    hide *;
    var text := SaveString(node, wrap, t);
    R.LoadSaved(XmlOf(t), wrap, names);
    R.RoundTrip(XmlOf(t), wrap, names);
    r := LoadText(text, names);
  }
}
