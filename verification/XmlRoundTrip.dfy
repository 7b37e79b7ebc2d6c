/**
  What has been saved can be loaded again: Mini-XML's loader rebuilds the tree that its writer wrote,
  whatever the wrap margin.
 */
module XmlRoundTrip {
  import opened Text
  import opened XmlTree
  import opened XmlChars
  import opened XmlSave
  import L = XmlLoad

  predicate Alnum(c: char) { L.IsAlnum(c as nat) }

  predicate NameChar(c: char) { Alnum(c) || c == '-' || c == '.' || c == '_' || c == ':' }

  predicate NameOk(s: string) { s != "" && forall c <- s :: NameChar(c) }

  predicate AttrsOk(attrs: seq<Attr>) {
    && (forall a <- attrs :: NameOk(a.name) && a.value.Some? && Clean(a.value.value))
    && forall i, j :: 0 <= i < j < |attrs| ==> attrs[i].name != attrs[j].name
  }

  // ----- comments, CDATA sections and processing instructions -----

  // Which of them a name stands for, and what stands in the text behind its start.
  function KindOf(name: string): Option<L.Kind> {
    if name != "" && name[0] == '?' then Some(L.Instruction)
    else if "!--" <= name then Some(L.Comment)
    else if "![CDATA[" <= name then Some(L.CData)
    else None
  }

  function Start(kind: L.Kind): string {
    match kind
    case Comment => "!--"
    case CData => "![CDATA["
    case Instruction => "?"
  }

  function Body(kind: L.Kind, name: string): string
    requires |Start(kind)| <= |name|
  {
    name[|Start(kind)|..] + if kind == L.CData then "]]" else ""
  }

  // The text `s` behind `done` ends where the loader expects the end, and not before.
  predicate EndsOnce(kind: L.Kind, done: string, s: string) {
    L.VerbatimEnds(kind, done + s)
    && forall i: nat | i < |s| :: s[i] == '>' ==> !L.VerbatimEnds(kind, done + s[..i])
  }

  predicate VerbatimOk(name: string) {
    var kind := KindOf(name);
    kind.Some? && Clean(Body(kind.value, name)) && EndsOnce(kind.value, Start(kind.value), Body(kind.value, name))
  }

  // A comment or the like without attributes and children.
  predicate VerbatimLeaf(x: Xml) { x.Branch? && VerbatimOk(x.name) && x.attrs == [] && x.kids == [] }

  // A tree that can be saved below an element: names of letters, digits and "-._:", every attribute
  // with a value and once, text of legal characters, comments and the like that end once.
  predicate Savable(x: Xml)
    decreases x
  {
    match x
    case Leaf(text) => Clean(text)
    case Branch(name, attrs, kids) =>
      VerbatimLeaf(x) || (NameOk(name) && AttrsOk(attrs) && forall k <- kids :: Savable(k))
  }

  // A root that is a processing instruction, with the document as its children.
  predicate Headed(x: Xml) {
    x.Branch? && x.name != "" && x.name[0] == '?' && VerbatimOk(x.name) && x.attrs == []
    && forall k <- x.kids :: Savable(k)
  }

  predicate SavableRoot(x: Xml) { Headed(x) || (x.Branch? && Savable(x) && KindOf(x.name) != Some(L.Instruction)) }

  // What comes back: text next to text is one text, and empty text is none.
  function Normal(x: Xml): (r: Xml)
    ensures r.Leaf? <==> x.Leaf?
    decreases x, 0
  {
    match x
    case Leaf(_) => x
    case Branch(name, attrs, kids) => Branch(name, attrs, Merged("", kids))
  }

  // The children, with `text` in front of them.
  function Merged(text: string, xs: seq<Xml>): seq<Xml>
    decreases xs, 0
  {
    if xs == [] then TextNode(text)
    else
      match xs[0]
      case Leaf(more) => Merged(text + more, xs[1..])
      case Branch(_, _, _) => TextNode(text) + [Normal(xs[0])] + Merged("", xs[1..])
  }

  function TextNode(text: string): seq<Xml> { if text == "" then [] else [Leaf(text)] }

  // No empty text, and no text next to text.
  predicate Tidy(x: Xml)
    decreases x
  {
    x.Branch? ==> Apart(x.kids) && forall k <- x.kids :: Tidy(k) && (k.Leaf? ==> k.text != "")
  }

  predicate Apart(xs: seq<Xml>) { forall i :: 0 <= i < |xs| - 1 ==> xs[i].Branch? || xs[i + 1].Branch? }

  // The named entities that the writer uses.
  ghost predicate EntitiesOk(names: string -> int) {
    names("amp") == 38 && names("lt") == 60 && names("gt") == 62 && names("quot") == 34
  }

  // ----- characters -----

  lemma EventOf(c: char, t: string)
    requires Plain(c) || IsSpace(c as nat)
    ensures Events([c] + t) == [Some(c as nat)] + Events(t)
    ensures L.First(Events([c] + t)) == Some(c as nat) && L.Rest(Events([c] + t)) == Events(t)
  {
    PlainEvent(c, t);
  }

  // The name of an entity is read up to its semicolon.
  lemma EntityRead(name: string, t: string, names: string -> int)
    requires name in {"amp", "lt", "gt", "quot"}
    requires names(name) >= 32
    ensures L.Entity(Events(name + ";" + t), names) == Some((names(name), Events(t)))
  {
    NameRead(name, "", t);
    assert "" + name == name;
  }

  lemma {:induction false} NameRead(name: string, done: string, t: string)
    requires (forall c <- name :: Alnum(c) || c == '#') && |done| + |name| <= 63
    ensures L.EntityName(Events(name + ";" + t), done) == (done + name, Some(59), Events(t))
    decreases |name|
  {
    if name == "" {
      assert name + ";" + t == [';'] + t && done + name == done;
      EventOf(';', t);
    } else {
      var c, rest := name[0], name[1..] + ";" + t;
      assert c in name && name + ";" + t == [c] + rest;
      EventOf(c, rest);
      NameRead(name[1..], done + [c], t);
      assert done + [c] + name[1..] == done + name;
    }
  }

  // A character is read from its own bytes.
  lemma FirstPart(s: string)
    requires s != "" && Next(s).0.Char?
    ensures Next(s[..Next(s).1]) == Next(s)
  {
    var u := s[..Next(s).1];
    assert forall i: nat | i < |u| :: u[i] == s[i];
  }

  lemma EscapeFirst(s: string)
    requires s != ""
    ensures Escape(s) == EscapeChar(s[0]) + Escape(s[1..])
    ensures EntityOf(s[0]).None? ==> EscapeChar(s[0]) == [s[0]]
    ensures EntityOf(s[0]).Some? ==> EscapeChar(s[0]) == "&" + EntityOf(s[0]).value + ";"
  {
  }

  lemma {:induction false} EscapeParts(s: string, n: nat)
    requires n <= |s| && forall i: nat | i < n :: EntityOf(s[i]).None?
    ensures Escape(s) == s[..n] + Escape(s[n..])
    decreases n
  {
    hide *;
    if n > 0 {
      EscapeFirst(s);
      EscapeParts(s[1..], n - 1);
      Joins([s[0]], s[1..][..n - 1], Escape(s[n..]));
      assert s[..n] == [s[0]] + s[1..][..n - 1] && s[n..] == s[1..][n - 1..];
    } else {
      assert s[..0] + Escape(s[0..]) == Escape(s) && s[0..] == s;
    }
  }

  // How the text `e` starts: with a character other than '<' and a quote, which stands for `cp`.
  ghost predicate Starts(e: seq<L.Ev>, cp: nat, rest: seq<L.Ev>, names: string -> int) {
    && e != [] && e[0].Some? && e[0].value != 60 && e[0].value != 34
    && L.Decoded(e[0].value, e[1..], names) == Some((cp, rest))
  }

  lemma StartsEntity(e: seq<L.Ev>, tail: seq<L.Ev>, cp: nat, rest: seq<L.Ev>, names: string -> int)
    requires e == [Some(38)] + tail && L.Entity(tail, names) == Some((cp, rest))
    ensures Starts(e, cp, rest, names)
  {
    hide L.Entity;
  }

  lemma EntityNames(c: char, names: string -> int)
    requires EntityOf(c).Some? && EntitiesOk(names)
    ensures var name := EntityOf(c).value; name in {"amp", "lt", "gt", "quot"} && names(name) == c as int
  {
  }

  lemma EntityStarts(s: string, t: string, names: string -> int)
    requires s != "" && EntityOf(s[0]).Some? && EntitiesOk(names)
    ensures Starts(Events(Escape(s) + t), s[0] as nat, Events(Escape(s[1..]) + t), names)
  {
    hide *;
    var name := EntityOf(s[0]).value;
    var rest := Escape(s[1..]) + t;
    EntityNames(s[0], names);
    EntityLarge(s[0]);
    EscapeFirst(s);
    assert Escape(s) + t == ['&'] + (name + ";" + rest);
    EventOf('&', name + ";" + rest);
    EntityRead(name, rest, names);
    StartsEntity(Events(Escape(s) + t), Events(name + ";" + rest), s[0] as nat, Events(rest), names);
  }

  lemma EntityLarge(c: char)
    requires EntityOf(c).Some?
    ensures c as int >= 32 && Plain('&')
  {
  }

  // No byte of a character that is written as it is is special.
  lemma CharParts(s: string)
    requires s != "" && Next(s).0.Char? && EntityOf(s[0]).None?
    ensures var n := Next(s).1; forall i: nat | i < n :: EntityOf(s[i]).None?
    ensures Next(s).0.cp != 60 && Next(s).0.cp != 34 && Next(s).0.cp != 38
  {
  }

  lemma CharStarts(s: string, t: string, names: string -> int)
    requires s != "" && Next(s).0.Char? && EntityOf(s[0]).None?
    ensures Starts(Events(Escape(s) + t), Next(s).0.cp, Events(Escape(s[Next(s).1..]) + t), names)
  {
    var n, u := Next(s).1, s[..Next(s).1];
    var rest := Escape(s[n..]) + t;
    CharParts(s);
    EscapeParts(s, n);
    FirstPart(s);
    hide Escape, Next, Clean;
    Joins(u, Escape(s[n..]), t);
    EventsNext(u, rest);
    assert u[n..] + rest == rest;
  }

  // The first character of an escaped text, wherever entities are decoded.
  lemma EscapedStep(s: string, t: string, names: string -> int)
    requires s != "" && Clean(s) && EntitiesOk(names)
    ensures
      var (got, n) := Next(s);
      && got.Char? && Starts(Events(Escape(s) + t), got.cp, Events(Escape(s[n..]) + t), names)
      && Bytes(got.cp) == s[..n] && Clean(s[n..])
  {
    BytesBack(s);
    hide Escape, Starts, Bytes, Events;
    if EntityOf(s[0]).Some? {
      EntityStarts(s, t, names);
    } else {
      CharStarts(s, t, names);
    }
  }

  // ----- text -----

  lemma LoadChar(e: seq<L.Ev>, cp: nat, rest: seq<L.Ev>, st: L.State, names: string -> int)
    requires Starts(e, cp, rest, names) && st.opaq
    ensures L.Load(e, st, names) == L.Load(rest, st.(buf := st.buf + Bytes(cp)), names)
  {
  }

  // Text goes into the buffer.
  lemma {:induction false} TextLoads(s: string, t: string, st: L.State, names: string -> int)
    requires Clean(s) && st.opaq && EntitiesOk(names)
    ensures L.Load(Events(Escape(s) + t), st, names) == L.Load(Events(t), st.(buf := st.buf + s), names)
    decreases |s|
  {
    hide *;
    if s == "" {
      EscapeNothing(t);
      assert st.buf + s == st.buf;
    } else {
      var (got, n) := Next(s);
      EscapedStep(s, t, names);
      LoadChar(Events(Escape(s) + t), got.cp, Events(Escape(s[n..]) + t), st, names);
      TextLoads(s[n..], t, st.(buf := st.buf + s[..n]), names);
      assert st.buf + s[..n] + s[n..] == st.buf + s;
    }
  }

  lemma EscapeNothing(t: string)
    ensures Escape("") + t == t
  {
  }

  lemma ValueChar(e: seq<L.Ev>, cp: nat, rest: seq<L.Ev>, value: string, names: string -> int)
    requires Starts(e, cp, rest, names)
    ensures L.QuotedValue(e, value, 34, names) == L.QuotedValue(rest, value + Bytes(cp), 34, names)
  {
  }

  lemma ValueEnds(e: seq<L.Ev>, rest: seq<L.Ev>, value: string, names: string -> int)
    requires e == [Some(34)] + rest
    ensures L.QuotedValue(e, value, 34, names) == L.Piece(value, Some(34), rest)
  {
  }

  lemma {:induction false} ValueLoads(s: string, t: string, value: string, names: string -> int)
    requires Clean(s) && EntitiesOk(names)
    ensures L.QuotedValue(Events(Escape(s) + (['\"'] + t)), value, 34, names) == L.Piece(value + s, Some(34), Events(t))
    decreases |s|
  {
    hide *;
    if s == "" {
      EscapeNothing(['\"'] + t);
      QuoteIsPlain();
      EventOf('\"', t);
      ValueEnds(Events(['\"'] + t), Events(t), value, names);
      assert value + s == value;
    } else {
      var (got, n) := Next(s);
      EscapedStep(s, ['\"'] + t, names);
      ValueChar(Events(Escape(s) + (['\"'] + t)), got.cp, Events(Escape(s[n..]) + (['\"'] + t)), value, names);
      ValueLoads(s[n..], t, value + s[..n], names);
      assert value + s[..n] + s[n..] == value + s;
    }
  }

  // ----- names -----

  lemma NameCharIs(c: char)
    requires NameChar(c)
    ensures Plain(c) && (c as nat >= 48 || c == '-' || c == '.')
    ensures c as nat != 60 && c as nat != 61 && c as nat != 62 && c as nat != 63 && c != '&'
    ensures !IsSpace(c as nat) && Byte(c as nat) == c && Bytes(c as nat) == [c] && EntityOf(c).None?
  {
  }

  lemma {:induction false} AttrNameLoads(name: string, end: char, t: string, done: string, names: string -> int)
    requires (forall c <- name :: NameChar(c)) && (IsSpace(end as nat) || end == '=')
    ensures L.AttrName(Events(name + ([end] + t)), done, names) == L.Piece(done + name, Some(end as nat), Events(t))
    decreases |name|
  {
    if name == "" {
      assert name + ([end] + t) == [end] + t && done + name == done;
      EventOf(end, t);
    } else {
      var c, rest := name[0], name[1..] + ([end] + t);
      assert c in name && name + ([end] + t) == [c] + rest;
      NameCharIs(c);
      EventOf(c, rest);
      hide Events, Bytes;
      AttrNameLoads(name[1..], end, t, done + [c], names);
      assert done + [c] + name[1..] == done + name;
    }
  }

  // What a tag name may start with so that no special tag begins.
  predicate Ordinary(done: string) { done != "" ==> done[0] != '?' && done[0] != '!' }

  lemma {:induction false} TagNameLoads(name: string, end: char, t: string, done: string, names: string -> int)
    requires (forall c <- name :: NameChar(c)) && Ordinary(done) && done + name != ""
    requires EndsTag(end)
    ensures L.TagName(Events(name + ([end] + t)), done, names) == L.Piece(done + name, Some(end as nat), Events(t))
    decreases |name|
  {
    hide *;
    if name == "" {
      assert name + ([end] + t) == [end] + t && done + name == done;
      EndIsPlain(end);
      EventOf(end, t);
      TagNameEnds(Events([end] + t), done, end, Events(t), names);
    } else {
      var c, rest := name[0], name[1..] + ([end] + t);
      assert c in name && name + ([end] + t) == [c] + rest;
      NameCharIs(c);
      EventOf(c, rest);
      TagNameChar(Events([c] + rest), done, c, Events(rest), names);
      TagNameLoads(name[1..], end, t, done + [c], names);
      assert done + [c] + name[1..] == done + name;
    }
  }

  // What may stand behind a tag name.
  predicate EndsTag(end: char) { IsSpace(end as nat) || end == '>' || end == '/' }

  lemma EndIsPlain(end: char)
    requires EndsTag(end)
    ensures Plain(end) || IsSpace(end as nat)
  {
  }

  lemma TagNameEnds(e: seq<L.Ev>, done: string, end: char, rest: seq<L.Ev>, names: string -> int)
    requires EndsTag(end) && (end == '/' ==> done != "") && e == [Some(end as nat)] + rest
    ensures L.TagName(e, done, names) == L.Piece(done, Some(end as nat), rest)
  {
  }

  lemma TagNameChar(e: seq<L.Ev>, done: string, c: char, rest: seq<L.Ev>, names: string -> int)
    requires NameChar(c) && Ordinary(done) && e == [Some(c as nat)] + rest
    ensures L.TagName(e, done, names) == L.TagName(rest, done + [c], names) && Ordinary(done + [c])
  {
    NameCharIs(c);
    assert (done + [c])[0] != '?' && (done + [c])[0] != '!';
    hide Bytes;
  }

  // ----- attributes -----

  predicate NoName(attrs: seq<Attr>, name: string) { forall a <- attrs :: a.name != name }

  lemma {:induction false} SetNew(attrs: seq<Attr>, name: string, value: string)
    requires NoName(attrs, name)
    ensures L.SetAttr(attrs, name, value) == attrs + [Attr(name, Some(value))]
    ensures AttrIn(attrs, name).None?
  {
    if attrs != [] {
      assert attrs[0] in attrs;
      SetNew(attrs[1..], name, value);
    }
  }

  lemma NameAsIs(s: string)
    requires NameOk(s)
    ensures NameText(s) == s && TagText(s) == s && !Special(s) && Escape(s) == s
  {
    assert s[0] in s;
    NameCharIs(s[0]);
    forall i: nat | i < |s|
      ensures EntityOf(s[i]).None?
    {
      assert s[i] in s;
    }
    EscapeParts(s, |s|);
    assert s[..|s|] + Escape(s[|s|..]) == s;
  }

  // The parts of an attribute, put together.
  lemma OneAttrIs(ch: nat, e: seq<L.Ev>, done: seq<Attr>, name: string, value: string, e1: seq<L.Ev>, e2: seq<L.Ev>,
                  rest: seq<L.Ev>, names: string -> int)
    requires ch < 128 && NameChar(ch as char) && L.AttrName(e, [Byte(ch)], names) == L.Piece(name, Some(61), e1)
    requires L.First(e1) == Some(34) && L.Rest(e1) == e2
    requires L.QuotedValue(e2, "", 34, names) == L.Piece(value, Some(34), rest) && NoName(done, name)
    ensures L.OneAttr(ch, e, done, names) == Some((done + [Attr(name, Some(value))], Some(34), rest))
  {
    SetNew(done, name, value);
    hide L.AttrName, L.QuotedValue, L.SetAttr, AttrIn;
    assert L.SkipSpace(Some(61), e1) == (Some(61), e1);
    assert L.SkipSpace(Some(34), e2) == (Some(34), e2);
  }

  lemma AttrTextIs(a: Attr, t: string)
    requires NameOk(a.name) && a.value.Some?
    ensures AttrText(a) + t
         == [a.name[0]] + (a.name[1..] + ("=" + (['\"'] + (Escape(a.value.value) + (['\"'] + t)))))
    ensures [a.name[0]] + a.name[1..] == a.name && NameChar(a.name[0]) && forall c <- a.name[1..] :: NameChar(c)
  {
    NameAsIs(a.name);
    assert a.name[0] in a.name;
    var x := Escape(a.value.value);
    assert AttrText(a) == a.name + ("=\"" + x + "\"");
    hide *;
    RegroupName(a.name[0], a.name[1..], "=\"" + x + "\"", t);
    RegroupValue(x, t);
  }

  lemma RegroupName(c: char, r: string, q: string, t: string)
    ensures [c] + r + q + t == [c] + (r + (q + t))
  {
  }

  lemma RegroupValue(x: string, t: string)
    ensures "=\"" + x + "\"" + t == "=" + (['\"'] + (x + (['\"'] + t)))
  {
  }

  lemma OneAttrLoads(a: Attr, t: string, done: seq<Attr>, names: string -> int)
    requires NameOk(a.name) && a.value.Some? && Clean(a.value.value) && NoName(done, a.name) && EntitiesOk(names)
    ensures
      var e := Events(AttrText(a) + t);
      && e != [] && e[0] == Some(a.name[0] as nat)
      && L.OneAttr(a.name[0] as nat, e[1..], done, names) == Some((done + [a], Some(34), Events(t)))
  {
    AttrTextIs(a, t);
    NameCharIs(a.name[0]);
    hide *;
    var name, v := a.name, a.value.value;
    var quoted := Escape(v) + (['\"'] + t);
    var text := ['\"'] + quoted;
    EventOf(name[0], name[1..] + ("=" + text));
    AttrNameLoads(name[1..], '=', text, [name[0]], names);
    assert "=" + text == ['='] + text;
    QuoteIsPlain();
    EventOf('\"', quoted);
    ValueLoads(v, t, "", names);
    assert "" + v == v;
    OneAttrIs(name[0] as nat, Events(name[1..] + ("=" + text)), done, name, v, Events(text), Events(quoted), Events(t),
              names);
    assert a == Attr(name, Some(v));
  }

  lemma QuoteIsPlain()
    ensures Plain('\"') && Plain(' ') && Plain('/') && Plain('>') && Plain('<')
  {
  }

  // White space in front of the attributes.
  lemma SpaceAttrs(c: char, t: string, done: seq<Attr>, names: string -> int)
    requires IsSpace(c as nat)
    ensures L.Attrs(Events([c] + t), done, names) == L.Attrs(Events(t), done, names)
  {
    EventOf(c, t);
    hide Events;
  }

  lemma AttrsNext(e: seq<L.Ev>, done: seq<Attr>, more: seq<Attr>, rest: seq<L.Ev>, names: string -> int)
    requires e != [] && e[0].Some? && e[0].value < 128 && NameChar(e[0].value as char)
    requires L.OneAttr(e[0].value, e[1..], done, names) == Some((more, Some(34), rest))
    ensures L.Attrs(e, done, names) == L.Attrs(rest, more, names)
  {
    hide L.OneAttr;
  }

  function Tail(open: bool): string { if open then ">" else " />" }

  lemma TailLoads(open: bool, t: string, done: seq<Attr>, names: string -> int)
    ensures L.Attrs(Events(Tail(open) + t), done, names)
         == Some((done, (if open then '>' else '/') as nat, Events(t)))
    ensures L.Attrs(Events("/>" + t), done, names) == Some((done, '/' as nat, Events(t)))
  {
    assert ">" + t == ['>'] + t && "/>" + t == ['/'] + (['>'] + t) && " />" + t == [' '] + ("/>" + t);
    EventOf('>', t);
    EventOf('/', ['>'] + t);
    SpaceAttrs(' ', "/>" + t, done, names);
    hide Events;
  }

  lemma {:induction false} AttrsLoad(attrs: seq<Attr>, col: nat, wrap: int, open: bool, t: string, done: seq<Attr>,
                                     names: string -> int)
    requires AttrsOk(done + attrs) && EntitiesOk(names)
    ensures L.Attrs(Events(AttrsText(attrs, col, wrap).0 + (Tail(open) + t)), done, names)
         == Some((done + attrs, (if open then '>' else '/') as nat, Events(t)))
    decreases |attrs|
  {
    hide *;
    var tail := Tail(open) + t;
    if attrs == [] {
      NoAttrs(col, wrap, tail);
      assert done + attrs == done;
      TailLoads(open, t, done, names);
    } else {
      var a := attrs[0];
      var (c, col') := Separator(a, col, wrap);
      var rest := AttrsText(attrs[1..], col', wrap).0 + tail;
      AttrsFirst(attrs, col, wrap, tail);
      FirstAttr(done, attrs);
      SpaceAttrs(c, AttrText(a) + rest, done, names);
      OneAttrLoads(a, rest, done, names);
      AttrsNext(Events(AttrText(a) + rest), done, done + [a], Events(rest), names);
      AttrsLoad(attrs[1..], col', wrap, open, t, done + [a], names);
      assert done + [a] + attrs[1..] == done + attrs;
    }
  }

  // What stands in front of an attribute, and the column behind it.
  function Separator(a: Attr, col: nat, wrap: int): (r: (char, nat))
    ensures (r.0 == ' ' || r.0 == '\n') && IsSpace(r.0 as nat)
  {
    if Wraps(a, col, wrap) then ('\n', Width(a)) else (' ', col + 1 + Width(a))
  }

  lemma NoAttrs(col: nat, wrap: int, tail: string)
    ensures AttrsText([], col, wrap).0 + tail == tail
  {
  }

  lemma AttrsFirst(attrs: seq<Attr>, col: nat, wrap: int, tail: string)
    requires attrs != []
    ensures
      var (c, col') := Separator(attrs[0], col, wrap);
      AttrsText(attrs, col, wrap).0 + tail
      == [c] + (AttrText(attrs[0]) + (AttrsText(attrs[1..], col', wrap).0 + tail))
  {
    var (c, col') := Separator(attrs[0], col, wrap);
    var rest := AttrsText(attrs[1..], col', wrap).0;
    assert AttrsText(attrs, col, wrap).0 == [c] + AttrText(attrs[0]) + rest;
    hide *;
    RegroupName(c, AttrText(attrs[0]), rest, tail);
  }

  lemma FirstAttr(done: seq<Attr>, attrs: seq<Attr>)
    requires attrs != [] && AttrsOk(done + attrs)
    ensures NameOk(attrs[0].name) && attrs[0].value.Some? && Clean(attrs[0].value.value) && NoName(done, attrs[0].name)
    ensures AttrsOk(done + [attrs[0]] + attrs[1..]) && NameChar(attrs[0].name[0]) && attrs[0].name[0] as nat < 128
  {
    assert done + [attrs[0]] + attrs[1..] == done + attrs;
    assert (done + attrs)[|done|] == attrs[0];
    assert attrs[0] in done + attrs;
    assert attrs[0].name[0] in attrs[0].name;
    forall a | a in done
      ensures a.name != attrs[0].name
    {
      var i :| 0 <= i < |done| && done[i] == a;
      assert (done + attrs)[i] == a;
    }
  }

  // ----- tags -----

  // A tag name without special meaning.
  lemma OpenTagIs(st: L.State, e: seq<L.Ev>, name: string, ch: L.Ev, rest: seq<L.Ev>, names: string -> int)
    requires NameOk(name) && L.TagName(e, "", names) == L.Piece(name, ch, rest)
    ensures L.Tag(st, e, names) == L.OpenTag(st, name, ch, rest, names)
  {
    assert name[0] in name;
    NameCharIs(name[0]);
    hide L.TagName, L.OpenTag, L.Verbatim, L.Declaration, L.NamedNode, L.CloseTag;
  }

  // What follows the name in an opening tag starts with white space, or it is the end of the tag.
  lemma AfterName(attrs: seq<Attr>, col: nat, wrap: int, open: bool, t: string) returns (c: char, y: string)
    ensures AttrsText(attrs, col, wrap).0 + (Tail(open) + t) == [c] + y
    ensures c == ' ' || c == '\n' || (c == '>' && attrs == [] && open && y == t)
  {
    if attrs == [] {
      NoAttrs(col, wrap, Tail(open) + t);
      if open {
        c, y := '>', t;
      } else {
        c, y := ' ', "/>" + t;
      }
    } else {
      AttrsFirst(attrs, col, wrap, Tail(open) + t);
      c := Separator(attrs[0], col, wrap).0;
      y := AttrText(attrs[0]) + (AttrsText(attrs[1..], Separator(attrs[0], col, wrap).1, wrap).0 + (Tail(open) + t));
    }
  }

  function Opened(st: L.State, name: string, attrs: seq<Attr>, open: bool): L.State {
    if open then L.Enter(st, name, attrs) else L.AddNode(st, Branch(name, attrs, []))
  }

  lemma OpenTagEnds(st: L.State, name: string, attrs: seq<Attr>, open: bool, c: char, e: seq<L.Ev>, rest: seq<L.Ev>,
                    names: string -> int)
    requires !L.NoRoom(st)
    requires (c == '>' && attrs == [] && open && e == rest)
             || (IsSpace(c as nat)
                 && L.Attrs(e, [], names) == Some((attrs, (if open then '>' else '/') as nat, rest)))
    ensures L.OpenTag(st, name, Some(c as nat), e, names) == L.Tagged(Opened(st, name, attrs, open), rest, false)
  {
    hide L.Attrs;
  }

  lemma NameParts(name: string)
    requires NameOk(name)
    ensures name != "" && Ordinary("") && Ordinary("/") && forall c <- name :: NameChar(c)
    ensures EndsTag(' ') && EndsTag('\n') && EndsTag('>') && IsSpace(' ' as nat) && IsSpace('\n' as nat)
  {
  }

  lemma OpenLoads(name: string, attrs: seq<Attr>, open: bool, col: nat, wrap: int, t: string, st: L.State,
                  names: string -> int)
    requires NameOk(name) && AttrsOk(attrs) && EntitiesOk(names) && !L.NoRoom(st)
    ensures L.Tag(st, Events(name + (AttrsText(attrs, col, wrap).0 + (Tail(open) + t))), names)
         == L.Tagged(Opened(st, name, attrs, open), Events(t), false)
  {
    hide *;
    var c, y := AfterName(attrs, col, wrap, open, t);
    assert [] + attrs == attrs && "" + name == name;
    NameParts(name);
    TagNameLoads(name, c, y, "", names);
    OpenTagIs(st, Events(name + ([c] + y)), name, Some(c as nat), Events(y), names);
    if c != '>' {
      SpaceAttrs(c, y, [], names);
      AttrsLoad(attrs, col, wrap, open, t, [], names);
    }
    OpenTagEnds(st, name, attrs, open, c, Events(y), Events(t), names);
  }

  lemma SlashName(x: string, names: string -> int)
    ensures L.TagName(Events("/" + x), "", names) == L.TagName(Events(x), "/", names)
  {
    assert "/" + x == ['/'] + x;
    EventOf('/', x);
    assert "" + Bytes('/' as nat) == "/";
    hide Events;
  }

  lemma CloseLoads(name: string, t: string, st: L.State, names: string -> int)
    requires NameOk(name) && st.open != [] && st.open[|st.open| - 1].name == name
    ensures L.Tag(st, Events("/" + (name + (">" + t))), names) == L.Tagged(L.Leave(st), Events(t), false)
  {
    hide *;
    assert ">" + t == ['>'] + t;
    NameParts(name);
    SlashName(name + (">" + t), names);
    TagNameLoads(name, '>', t, "/", names);
    CloseTagIs(st, Events("/" + (name + (">" + t))), name, Events(t), names);
  }

  lemma CloseTagIs(st: L.State, e: seq<L.Ev>, name: string, rest: seq<L.Ev>, names: string -> int)
    requires st.open != [] && st.open[|st.open| - 1].name == name
    requires L.TagName(e, "", names) == L.Piece("/" + name, Some('>' as nat), rest)
    ensures L.Tag(st, e, names) == L.Tagged(L.Leave(st), rest, false)
  {
    hide L.TagName, L.Verbatim, L.Declaration, L.NamedNode, L.OpenTag;
    assert ("/" + name)[1..] == name && ("/" + name)[0] == '/';
  }

  // ----- trees -----

  // The loader's state behind a tree that is not the root.
  function Put(st: L.State, x: Xml): L.State {
    match x
    case Leaf(text) => st.(buf := st.buf + text)
    case Branch(_, _, _) => L.AddNode(L.Flush(st), Normal(x))
  }

  function PutAll(st: L.State, xs: seq<Xml>): L.State
    decreases |xs|
  {
    if xs == [] then st else PutAll(Put(st, xs[0]), xs[1..])
  }

  // `more` are added to the children of the innermost open element, and the buffer is emptied.
  function Grown(st: L.State, more: seq<Xml>): (r: L.State)
    requires st.open != []
    ensures r.open != []
  {
    var n := |st.open| - 1;
    st.(open := st.open[..n] + [st.open[n].(kids := st.open[n].kids + more)], buf := "")
  }

  lemma GrownTwice(st: L.State, xs: seq<Xml>, ys: seq<Xml>)
    requires st.open != []
    ensures Grown(Grown(st, xs), ys) == Grown(st, xs + ys)
  {
    var n := |st.open| - 1;
    var k := st.open[n].kids;
    assert k + xs + ys == k + (xs + ys);
    assert Grown(st, xs).open[..n] == st.open[..n];
  }

  lemma FlushGrows(st: L.State)
    requires st.opaq && st.open != []
    ensures L.Flush(st) == Grown(st, TextNode(st.buf))
  {
    var n := |st.open| - 1;
    assert st.open[..n] + [st.open[n]] == st.open && st.open[n].kids + [] == st.open[n].kids;
  }

  lemma AddGrows(st: L.State, x: Xml)
    requires st.opaq && st.open != [] && st.buf == ""
    ensures L.AddNode(st, x) == Grown(st, [x])
  {
  }

  lemma PutGrows(st: L.State, x: Xml)
    requires st.opaq && st.open != []
    ensures Put(st, x).opaq && Put(st, x).open != []
    ensures x.Branch? ==> Put(st, x) == Grown(st, TextNode(st.buf) + [Normal(x)]) && Put(st, x).buf == ""
    ensures x.Leaf? ==> Put(st, x) == st.(buf := st.buf + x.text)
  {
    hide L.AddNode, L.Flush, Normal, TextNode;
    FlushGrows(st);
    AddGrows(L.Flush(st), Normal(x));
    GrownTwice(st, TextNode(st.buf), [Normal(x)]);
  }

  // The trees in a list become children, text still in the buffer included.
  lemma {:induction false} PutAllGrows(st: L.State, xs: seq<Xml>)
    requires st.opaq && st.open != []
    ensures L.Flush(PutAll(st, xs)) == Grown(st, Merged(st.buf, xs))
    decreases |xs|
  {
    if xs == [] {
      FlushGrows(st);
    } else {
      var x := xs[0];
      hide L.AddNode, L.Flush, Normal, TextNode, Put;
      PutGrows(st, x);
      PutAllGrows(Put(st, x), xs[1..]);
      if x.Branch? {
        GrownTwice(st, TextNode(st.buf) + [Normal(x)], Merged("", xs[1..]));
      }
    }
  }

  // ----- comments and the like -----

  lemma {:induction false} VerbatimLoads(kind: L.Kind, s: string, t: string, done: string)
    requires Clean(s) && EndsOnce(kind, done, s)
    ensures L.Verbatim(kind, Events(s + (">" + t)), done)
         == Some((if kind == L.CData then (done + s)[..|done + s| - 2] else done + s, Events(t)))
    decreases |s|
  {
    hide *;
    if s == "" {
      assert s + (">" + t) == ['>'] + t && done + s == done;
      QuoteIsPlain();
      EventOf('>', t);
      VerbatimStops(kind, Events(['>'] + t), done, Events(t));
    } else {
      var (got, n) := Next(s);
      CleanStep(s);
      EventsNext(s, ">" + t);
      BytesBack(s);
      var rest := s[n..] + (">" + t);
      assert s[n..] + (">" + t) == rest;
      EndsLater(kind, done, s, n, got.cp);
      VerbatimGoesOn(kind, Events(s + (">" + t)), done, got.cp, Events(rest));
      VerbatimLoads(kind, s[n..], t, done + s[..n]);
      assert done + s[..n] + s[n..] == done + s;
    }
  }

  lemma CleanStep(s: string)
    requires s != "" && Clean(s)
    ensures Next(s).0.Char? && Clean(s[Next(s).1..])
  {
  }

  lemma EndsLater(kind: L.Kind, done: string, s: string, n: nat, cp: nat)
    requires EndsOnce(kind, done, s) && 1 <= n <= |s| && Bytes(cp) == s[..n]
    ensures EndsOnce(kind, done + s[..n], s[n..])
    ensures cp == '>' as nat ==> !L.VerbatimEnds(kind, done)
  {
    hide L.VerbatimEnds;
    assert done + s[..n] + s[n..] == done + s;
    forall i: nat | i < |s[n..]| && s[n..][i] == '>'
      ensures !L.VerbatimEnds(kind, done + s[..n] + s[n..][..i])
    {
      assert s[n..][i] == s[n + i] && done + s[..n] + s[n..][..i] == done + s[..n + i];
    }
    if cp == '>' as nat {
      assert s[0] == s[..n][0] == '>' && done + s[..0] == done;
    }
  }

  lemma VerbatimStops(kind: L.Kind, e: seq<L.Ev>, buf: string, rest: seq<L.Ev>)
    requires e == [Some('>' as nat)] + rest && EndsOnce(kind, buf, "")
    ensures L.Verbatim(kind, e, buf) == Some((if kind == L.CData then buf[..|buf| - 2] else buf, rest))
  {
    assert buf + "" == buf;
  }

  lemma VerbatimGoesOn(kind: L.Kind, e: seq<L.Ev>, buf: string, cp: nat, rest: seq<L.Ev>)
    requires e == [Some(cp)] + rest && (cp == '>' as nat ==> !L.VerbatimEnds(kind, buf))
    ensures L.Verbatim(kind, e, buf) == L.Verbatim(kind, rest, buf + Bytes(cp))
  {
    hide L.VerbatimEnds, Bytes;
  }

  // One more character of the start of such a tag.
  lemma StartChar(done: string, c: char, t: string, names: string -> int)
    requires c in "?!-[CDAT"
    ensures var more := done + [c];
      L.TagName(Events([c] + t), done, names)
      == if more == "?" || more == "!--" || more == "![CDATA[" then L.Piece(more, Some(c as nat), Events(t))
         else L.TagName(Events(t), more, names)
  {
    assert Plain(c);
    EventOf(c, t);
    PlainEvent(c, t);
    hide Events, Bytes;
  }

  // From the first `k` characters of the start to one more.
  lemma StartStep(s: string, k: nat, t: string, names: string -> int)
    requires k < |s| && s[k] in "?!-[CDAT"
    ensures var more := s[..k + 1];
      L.TagName(Events(s[k..] + t), s[..k], names)
      == if more == "?" || more == "!--" || more == "![CDATA[" then L.Piece(more, Some(s[k] as nat), Events(s[k + 1..] + t))
         else L.TagName(Events(s[k + 1..] + t), more, names)
    ensures k == 0 ==> s[..k] == ""
    ensures k + 1 == |s| ==> s[..k + 1] == s && s[k + 1..] + t == t
  {
    hide L.TagName, Events;
    assert s[k..] + t == [s[k]] + (s[k + 1..] + t) && s[..k] + [s[k]] == s[..k + 1];
    StartChar(s[..k], s[k], s[k + 1..] + t, names);
  }

  predicate IsStart(s: string) { s == "?" || s == "!--" || s == "![CDATA[" }

  lemma NotYetStart(s: string, k: nat)
    requires IsStart(s) && k < |s|
    ensures !IsStart(s[..k]) && s[k] in "?!-[CDAT"
  {
    assert k > 0 ==> s[..k][0] == s[0];
    assert k > 1 ==> s[..k][1] == s[1];
    assert s == "![CDATA[" ==> s[1] == '[';
  }

  lemma {:induction false} StartFrom(s: string, k: nat, t: string, names: string -> int)
    requires IsStart(s) && k < |s|
    ensures L.TagName(Events(s[k..] + t), s[..k], names) == L.Piece(s, Some(s[|s| - 1] as nat), Events(t))
    decreases |s| - k
  {
    hide L.TagName, Events;
    NotYetStart(s, k);
    StartStep(s, k, t, names);
    if k + 1 < |s| {
      NotYetStart(s, k + 1);
      StartFrom(s, k + 1, t, names);
    }
  }

  lemma StartLoads(kind: L.Kind, t: string, names: string -> int)
    ensures var p := L.TagName(Events(Start(kind) + t), "", names);
      p.Piece? && p.text == Start(kind) && p.rest == Events(t)
  {
    hide L.TagName, Events;
    var s := Start(kind);
    StartFrom(s, 0, t, names);
    assert s[0..] + t == s + t && s[..0] == "";
  }

  lemma KindStarts(name: string)
    requires KindOf(name).Some?
    ensures var kind := KindOf(name).value;
      |Start(kind)| <= |name| && Start(kind) + name[|Start(kind)|..] == name
  {
  }

  // What follows the name of such a tag.
  lemma VerbatimTagIs(st: L.State, e: seq<L.Ev>, kind: L.Kind, rest: seq<L.Ev>, names: string -> int)
    requires var p := L.TagName(e, "", names); p.Piece? && p.text == Start(kind) && p.rest == rest
    ensures L.Tag(st, e, names) == L.NamedNode(st, L.Verbatim(kind, rest, Start(kind)), kind == L.Instruction)
  {
    hide L.TagName, L.Verbatim, L.NamedNode;
  }

  lemma NamedNodeIs(st: L.State, name: string, rest: seq<L.Ev>, root: bool)
    requires !L.NoRoom(st)
    ensures L.NamedNode(st, Some((name, rest)), root)
         == L.Tagged(if root && st.open == [] then L.Enter(st, name, []) else L.AddNode(st, Branch(name, [], [])), rest, false)
  {
  }

  // A comment or the like, from behind its '<'.
  lemma VerbatimTag(st: L.State, name: string, t: string, names: string -> int)
    requires VerbatimOk(name) && !L.NoRoom(st)
    ensures var kind := KindOf(name).value;
      L.Tag(st, Events(Start(kind) + (Body(kind, name) + (">" + t))), names)
      == L.Tagged(if kind == L.Instruction && st.open == [] then L.Enter(st, name, []) else L.AddNode(st, Branch(name, [], [])),
                  Events(t), false)
  {
    hide Events, L.Verbatim, L.TagName, L.AddNode, L.Enter, L.Tag, L.NamedNode, EndsOnce, KindOf, L.NoRoom;
    var kind := KindOf(name).value;
    KindStarts(name);
    var body := Body(kind, name);
    StartLoads(kind, body + (">" + t), names);
    VerbatimTagIs(st, Events(Start(kind) + (body + (">" + t))), kind, Events(body + (">" + t)), names);
    VerbatimLoads(kind, body, t, Start(kind));
    NameBack(kind, name);
    NamedNodeIs(st, name, Events(t), kind == L.Instruction);
  }

  lemma NameBack(kind: L.Kind, name: string)
    requires |Start(kind)| <= |name| && Start(kind) + name[|Start(kind)|..] == name
    ensures var all := Start(kind) + Body(kind, name);
      name == if kind == L.CData then all[..|all| - 2] else all
  {
    var all := Start(kind) + Body(kind, name);
    assert kind == L.CData ==> all == name + "]]";
    assert kind != L.CData ==> all == name;
  }

  lemma VerbatimText(x: Xml, col: nat, wrap: int, t: string)
    requires x.Branch? && VerbatimOk(x.name) && x.attrs == []
    ensures var kind := KindOf(x.name).value;
      && (x.kids == [] ==> Written(x, col, wrap).0 + t == ['<'] + (Start(kind) + (Body(kind, x.name) + (">" + t))))
      && (x.kids != [] && kind == L.Instruction ==>
            Written(x, col, wrap).0 + t
            == ['<'] + (Start(kind) + (Body(kind, x.name) + (">" + (Inside(x, col, wrap) + t)))))
  {
    var kind := KindOf(x.name).value;
    KindStarts(x.name);
    TagTextIs(x.name);
    var body := Body(kind, x.name);
    if x.kids == [] {
      assert Written(x, col, wrap).0 == "<" + (Start(kind) + body) + "" + ">";
      RegroupTag(Start(kind), body, t);
    } else if kind == L.Instruction {
      var k := Inside(x, col, wrap);
      assert Written(x, col, wrap).0 == "<" + (Start(kind) + body) + "" + ">" + (k + "");
      RegroupTag(Start(kind), body, k + t);
      Joins("<" + (Start(kind) + body) + "" + ">", k + "", t);
      assert k + "" == k;
    }
  }

  lemma RegroupTag(a: string, b: string, t: string)
    ensures "<" + (a + b) + "" + ">" + t == ['<'] + (a + (b + (">" + t)))
  {
  }

  lemma TagTextIs(name: string)
    requires KindOf(name).Some?
    ensures var kind := KindOf(name).value;
      |Start(kind)| <= |name| && TagText(name) == Start(kind) + Body(kind, name) && Special(name)
  {
    KindStarts(name);
    assert KindOf(name) == Some(L.CData) ==> name + "]]" == Start(L.CData) + (name[8..] + "]]");
  }

  lemma {:induction false} VerbatimLeafLoads(x: Xml, col: nat, wrap: int, t: string, st: L.State, names: string -> int)
    requires VerbatimLeaf(x) && !L.NoRoom(L.Flush(st))
    requires KindOf(x.name) == Some(L.Instruction) ==> L.Flush(st).open != []
    ensures L.Load(Events(Written(x, col, wrap).0 + t), st, names) == L.Load(Events(t), Closed(L.Flush(st), x), names)
  {
    hide L.Load, L.Tag, Written, Events, KindOf, EndsOnce, Clean;
    FlushEmpty(st);
    KindStarts(x.name);
    VerbatimText(x, col, wrap, t);
    VerbatimTag(L.Flush(st), x.name, t, names);
    NoKids(L.Flush(st), x);
    var kind := KindOf(x.name).value;
    LoadTag(Start(kind) + (Body(kind, x.name) + (">" + t)), st, Closed(L.Flush(st), x), Events(t), names);
  }

  // The state behind an element, when `st` is the state in front of it and its buffer is empty.
  function Closed(st: L.State, x: Xml): L.State
    requires x.Branch?
  {
    L.AddNode(if x.kids == [] then st else st.(opaq := true), Normal(x))
  }

  // Its children have been put below it, and it is closed.
  lemma LeaveIs(st: L.State, x: Xml)
    requires x.Branch? && x.kids != [] && st.buf == ""
    ensures
      var inner := Grown(L.Enter(st, x.name, x.attrs), Merged("", x.kids));
      && inner.open != [] && inner.open[|inner.open| - 1].name == x.name
      && L.Leave(inner) == Closed(st, x) && Closed(st, x).buf == ""
  {
    var inner := Grown(L.Enter(st, x.name, x.attrs), Merged("", x.kids));
    assert inner.open[..|st.open|] == st.open;
    assert [] + Merged("", x.kids) == Merged("", x.kids);
  }

  // At a '<' the text in the buffer becomes a node, and a tag is read.
  lemma LoadTag(t: string, st: L.State, st': L.State, rest: seq<L.Ev>, names: string -> int)
    requires L.Tag(L.Flush(st), Events(t), names) == L.Tagged(st', rest, false) && st'.buf == ""
    ensures L.Load(Events(['<'] + t), st, names) == L.Load(rest, st', names)
  {
    EventOf('<', t);
    assert st'.(buf := "") == st';
    hide Events, L.Tag, L.Flush;
  }

  lemma FlushEmpty(st: L.State)
    ensures L.Flush(st).buf == "" && L.Flush(L.Flush(st)) == L.Flush(st)
  {
  }

  // The text of an element, taken apart: its opening tag, what is inside, and its closing tag.
  function Inside(x: Xml, col: nat, wrap: int): string
    requires x.Branch? && x.kids != []
  {
    WrittenAll(x.kids, OpenText(x.name, x.attrs, true, col, wrap).1, wrap).0
  }

  lemma BranchText(x: Xml, col: nat, wrap: int, t: string)
    requires x.Branch? && NameOk(x.name)
    ensures
      var a := AttrsText(x.attrs, col + |x.name| + 1, wrap).0;
      && (x.kids == [] ==> Written(x, col, wrap).0 + t == ['<'] + (x.name + (a + (Tail(false) + t))))
      && (x.kids != [] ==>
           Written(x, col, wrap).0 + t
           == ['<'] + (x.name + (a + (Tail(true)
                + (Inside(x, col, wrap) + (['<'] + ("/" + (x.name + (">" + t)))))))))
  {
    NameAsIs(x.name);
    var a := AttrsText(x.attrs, col + |x.name| + 1, wrap).0;
    if x.kids == [] {
      assert Written(x, col, wrap).0 == "<" + x.name + a + " />";
      RegroupOpen(x.name, a, " />", t);
    } else {
      var k := Inside(x, col, wrap);
      assert Written(x, col, wrap).0 == "<" + x.name + a + ">" + (k + ("</" + x.name + ">"));
      RegroupClose(x.name, t);
      RegroupOpen(x.name, a, ">", k + ("</" + x.name + ">") + t);
      Joins(k, "</" + x.name + ">", t);
      Joins("<" + x.name + a + ">", k + ("</" + x.name + ">"), t);
    }
  }

  lemma RegroupOpen(name: string, a: string, tail: string, t: string)
    ensures "<" + name + a + tail + t == ['<'] + (name + (a + (tail + t)))
  {
  }

  lemma RegroupClose(name: string, t: string)
    ensures "</" + name + ">" + t == ['<'] + ("/" + (name + (">" + t)))
  {
  }

  // The state behind the opening tag of an element with children.
  lemma EnterIs(st: L.State, name: string, attrs: seq<Attr>)
    requires st.buf == ""
    ensures var inner := L.Enter(st, name, attrs);
      && inner.opaq && inner.open != [] && inner.buf == "" && L.Flush(inner) == inner
      && Opened(st, name, attrs, true) == inner
  {
  }

  // An element, from its '<' on. `st` is the state in front of it.
  lemma {:induction false} BranchLoads(x: Xml, col: nat, wrap: int, t: string, st: L.State, names: string -> int)
    requires x.Branch? && Savable(x) && EntitiesOk(names) && !L.NoRoom(L.Flush(st))
    requires KindOf(x.name) == Some(L.Instruction) ==> L.Flush(st).open != []
    ensures L.Load(Events(Written(x, col, wrap).0 + t), st, names) == L.Load(Events(t), Closed(L.Flush(st), x), names)
    decreases x, 2
  {
    if VerbatimLeaf(x) {
      VerbatimLeafLoads(x, col, wrap, t, st, names);
    } else {
      ElementLoads(x, col, wrap, t, st, names);
    }
  }

  lemma {:induction false} ElementLoads(x: Xml, col: nat, wrap: int, t: string, st: L.State, names: string -> int)
    requires x.Branch? && Savable(x) && !VerbatimLeaf(x) && EntitiesOk(names) && !L.NoRoom(L.Flush(st))
    ensures L.Load(Events(Written(x, col, wrap).0 + t), st, names) == L.Load(Events(t), Closed(L.Flush(st), x), names)
    decreases x, 1
  {
    hide *;
    SavableParts(x);
    BranchText(x, col, wrap, t);
    FlushEmpty(st);
    var st1 := L.Flush(st);
    var start := col + |x.name| + 1;
    var a := AttrsText(x.attrs, start, wrap).0;
    if x.kids == [] {
      OpenLoads(x.name, x.attrs, false, start, wrap, t, st1, names);
      NoKids(st1, x);
      LoadTag(x.name + (a + (Tail(false) + t)), st, Closed(st1, x), Events(t), names);
    } else {
      var close := "/" + (x.name + (">" + t));
      var inside := Inside(x, col, wrap) + (['<'] + close);
      var inner := L.Enter(st1, x.name, x.attrs);
      EnterIs(st1, x.name, x.attrs);
      OpenLoads(x.name, x.attrs, true, start, wrap, inside, st1, names);
      LoadTag(x.name + (a + (Tail(true) + inside)), st, inner, Events(inside), names);
      InsideLoads(x, col, wrap, close, inner, names);
      PutAllGrows(inner, x.kids);
      LeaveIs(st1, x);
      var full := PutAll(inner, x.kids);
      CloseLoads(x.name, t, L.Flush(full), names);
      LoadTag(close, full, Closed(st1, x), Events(t), names);
    }
  }

  lemma SavableParts(x: Xml)
    requires x.Branch? && Savable(x) && !VerbatimLeaf(x)
    ensures NameOk(x.name) && AttrsOk(x.attrs) && forall k <- x.kids :: Savable(k)
  {
  }

  lemma NoKids(st: L.State, x: Xml)
    requires x.Branch? && x.kids == []
    ensures Opened(st, x.name, x.attrs, false) == Closed(st, x) && Closed(st, x).buf == st.buf
  {
    assert Merged("", []) == [];
  }

  lemma {:induction false} InsideLoads(x: Xml, col: nat, wrap: int, close: string, st: L.State, names: string -> int)
    requires x.Branch? && x.kids != [] && Savable(x) && EntitiesOk(names) && st.opaq && st.open != [] && st.buf == ""
    ensures L.Load(Events(Inside(x, col, wrap) + (['<'] + close)), st, names)
         == L.Load(Events(['<'] + close), PutAll(st, x.kids), names)
    decreases x, 0
  {
    ForestLoads(x.kids, OpenText(x.name, x.attrs, true, col, wrap).1, wrap, ['<'] + close, st, names);
  }

  lemma {:induction false} ForestLoads(xs: seq<Xml>, col: nat, wrap: int, t: string, st: L.State, names: string -> int)
    requires (forall x <- xs :: Savable(x)) && EntitiesOk(names) && st.opaq && st.open != []
    ensures L.Load(Events(WrittenAll(xs, col, wrap).0 + t), st, names) == L.Load(Events(t), PutAll(st, xs), names)
    decreases xs, 0
  {
    hide *;
    ForestParts(xs, col, wrap, t, st);
    if xs != [] {
      var x := xs[0];
      var w := Written(x, col, wrap);
      var rest := WrittenAll(xs[1..], w.1, wrap).0 + t;
      assert Savable(x);
      TreeLoads(x, col, wrap, rest, st, names);
      PutGrows(st, x);
      ForestLoads(xs[1..], w.1, wrap, t, Put(st, x), names);
    }
  }

  lemma ForestParts(xs: seq<Xml>, col: nat, wrap: int, t: string, st: L.State)
    ensures xs == [] ==> WrittenAll(xs, col, wrap).0 + t == t && PutAll(st, xs) == st
    ensures xs != [] ==>
              var w := Written(xs[0], col, wrap);
              && WrittenAll(xs, col, wrap).0 + t == w.0 + (WrittenAll(xs[1..], w.1, wrap).0 + t)
              && PutAll(st, xs) == PutAll(Put(st, xs[0]), xs[1..])
  {
    if xs != [] {
      var w := Written(xs[0], col, wrap);
      hide Written;
      Joins(w.0, WrittenAll(xs[1..], w.1, wrap).0, t);
    } else {
      assert "" + t == t;
    }
  }

  lemma {:induction false} TreeLoads(x: Xml, col: nat, wrap: int, t: string, st: L.State, names: string -> int)
    requires Savable(x) && EntitiesOk(names) && st.opaq && st.open != []
    ensures L.Load(Events(Written(x, col, wrap).0 + t), st, names) == L.Load(Events(t), Put(st, x), names)
    decreases x, 3
  {
    if x.Leaf? {
      TextLoads(x.text, t, st, names);
    } else {
      BranchLoads(x, col, wrap, t, st, names);
    }
  }

  // ----- a root that is a processing instruction -----

  // Text behind the last element is not loaded: only a '<' makes it a node.
  function Settled(xs: seq<Xml>): seq<Xml> {
    if xs == [] || xs[|xs| - 1].Branch? then xs else Settled(xs[..|xs| - 1])
  }

  // What comes back.
  function Loaded(x: Xml): Xml {
    if Headed(x) then Branch(x.name, x.attrs, Merged("", Settled(x.kids))) else Normal(x)
  }

  lemma {:induction false} PutAllLast(st: L.State, xs: seq<Xml>)
    requires xs != []
    ensures PutAll(st, xs) == Put(PutAll(st, xs[..|xs| - 1]), xs[|xs| - 1])
    decreases |xs|
  {
    hide Put;
    if |xs| > 1 {
      PutAllLast(Put(st, xs[0]), xs[1..]);
      assert xs[1..][..|xs| - 2] == xs[..|xs| - 1][1..];
    } else {
      assert xs[1..] == [] && xs[..0] == [];
    }
  }

  lemma {:induction false} SettledPut(st: L.State, xs: seq<Xml>)
    requires st.opaq && st.open != [] && st.buf == ""
    ensures PutAll(st, xs).open == PutAll(st, Settled(xs)).open
    ensures Settled(xs) == [] || Settled(xs)[|Settled(xs)| - 1].Branch?
    decreases |xs|
  {
    hide L.AddNode, L.Flush;
    if xs != [] && xs[|xs| - 1].Leaf? {
      PutAllLast(st, xs);
      SettledPut(st, xs[..|xs| - 1]);
    }
  }

  lemma {:induction false} PutAllStays(st: L.State, xs: seq<Xml>)
    requires st.opaq && st.open != []
    ensures PutAll(st, xs).opaq && PutAll(st, xs).open != []
    decreases |xs|
  {
    if xs != [] {
      PutGrows(st, xs[0]);
      hide Put;
      PutAllStays(Put(st, xs[0]), xs[1..]);
    }
  }

  // The buffer is empty behind an element.
  lemma SettledEmpty(st: L.State, xs: seq<Xml>)
    requires st.opaq && st.open != [] && st.buf == "" && (xs == [] || xs[|xs| - 1].Branch?)
    ensures PutAll(st, xs) == Grown(st, Merged("", xs))
  {
    PutAllGrows(st, xs);
    if xs != [] {
      PutAllLast(st, xs);
      PutAllStays(st, xs[..|xs| - 1]);
      hide L.AddNode, L.Flush, Grown, Put;
      PutGrows(PutAll(st, xs[..|xs| - 1]), xs[|xs| - 1]);
    }
    FlushNothing(PutAll(st, xs));
  }

  lemma FlushNothing(st: L.State)
    ensures st.buf == "" ==> L.Flush(st) == st
  {
  }

  lemma HeadedParts(x: Xml)
    requires Headed(x)
    ensures KindOf(x.name) == Some(L.Instruction) && VerbatimOk(x.name) && x.attrs == [] && x.Branch?
    ensures forall k <- x.kids :: Savable(k)
  {
  }

  // The children below the open instruction.
  lemma BelowLoads(x: Xml, wrap: int, t: string, inner: L.State, names: string -> int)
    requires Headed(x) && EntitiesOk(names) && inner.opaq && inner.open != []
    ensures L.Load(Events(if x.kids == [] then t else Inside(x, 0, wrap) + t), inner, names)
         == L.Load(Events(t), PutAll(inner, x.kids), names)
  {
    hide L.Load, Written, WrittenAll, Events, VerbatimOk, PutAll;
    HeadedParts(x);
    if x.kids == [] {
      NothingInside(inner, t);
    } else {
      ForestLoads(x.kids, OpenText(x.name, x.attrs, true, 0, wrap).1, wrap, t, inner, names);
    }
  }

  lemma EntersEmpty(name: string)
    ensures var inner := L.Enter(L.START, name, []);
      inner.opaq && inner.open != [] && inner.buf == ""
  {
  }

  lemma HeadedLoads(x: Xml, wrap: int, t: string, names: string -> int)
    requires Headed(x) && EntitiesOk(names) && (t == "" || t == "\n")
    ensures L.Load(Events(Written(x, 0, wrap).0 + t), L.START, names) == Some(Loaded(x))
  {
    hide *;
    HeadedParts(x);
    KindStarts(x.name);
    var kind, inner := L.Instruction, L.Enter(L.START, x.name, []);
    VerbatimText(x, 0, wrap, t);
    var rest := if x.kids == [] then t else Inside(x, 0, wrap) + t;
    StartIsEmpty();
    EntersEmpty(x.name);
    VerbatimTag(L.START, x.name, rest, names);
    LoadTag(Start(kind) + (Body(kind, x.name) + (">" + rest)), L.START, inner, Events(rest), names);
    BelowLoads(x, wrap, t, inner, names);
    PutAllStays(inner, x.kids);
    SettledPut(inner, x.kids);
    SettledEmpty(inner, Settled(x.kids));
    EndLoads(PutAll(inner, x.kids), t, names);
    HeadedEnds(x, PutAll(inner, x.kids), inner);
  }

  lemma StartIsEmpty()
    ensures L.Flush(L.START) == L.START && !L.NoRoom(L.START) && L.START.open == []
  {
  }

  lemma NothingInside(st: L.State, t: string)
    ensures PutAll(st, []) == st && "" + t == t
  {
  }

  lemma EndLoads(st: L.State, t: string, names: string -> int)
    requires st.opaq && (t == "" || t == "\n")
    ensures L.Load(Events(t), st, names) == L.Finish(st.(buf := st.buf + t))
  {
    assert ['\n'] + "" == "\n" && st.buf + "" == st.buf && st.(buf := st.buf) == st;
    EventOf('\n', "");
    hide L.Tag, L.Entity, L.Flush;
  }

  lemma HeadedEnds(x: Xml, st: L.State, inner: L.State)
    requires Headed(x) && inner == L.Enter(L.START, x.name, [])
    requires inner.open != [] && st.open == Grown(inner, Merged("", Settled(x.kids))).open
    ensures forall buf: string :: L.Finish(st.(buf := buf)) == Some(Loaded(x))
  {
    hide Merged, Settled, VerbatimOk;
    assert [] + Merged("", Settled(x.kids)) == Merged("", Settled(x.kids));
  }

  /**
    Loading what was saved, whatever the wrap margin: the tree comes back, with text next to text
    joined and empty text dropped, and without the text behind the last element if the root is a
    processing instruction.
   */
  lemma LoadSaved(x: Xml, wrap: int, names: string -> int)
    requires SavableRoot(x) && EntitiesOk(names)
    ensures L.LoadString(Saved(x, wrap), names) == Some(Loaded(x))
  {
    var w := Written(x, 0, wrap);
    var t := if w.1 > 0 then "\n" else "";
    if Headed(x) {
      hide *;
      HeadedLoads(x, wrap, t, names);
      SavedIs(x, wrap, t, names);
    } else {
      BranchLoads(x, 0, wrap, t, L.START, names);
      assert ['\n'] + "" == "\n";
      EventOf('\n', "");
      hide Normal, Written, L.Tag, L.Entity, Headed;
    }
  }

  lemma SavedIs(x: Xml, wrap: int, t: string, names: string -> int)
    requires t == if Written(x, 0, wrap).1 > 0 then "\n" else ""
    ensures L.LoadString(Saved(x, wrap), names) == L.Load(Events(Written(x, 0, wrap).0 + t), L.START, names)
  {
    hide Written, L.Load, Events;
  }

  // What comes back is tidy.
  lemma {:induction false} NormalTidy(x: Xml)
    ensures Tidy(Normal(x))
    decreases x, 0
  {
    if x.Branch? {
      MergedTidy("", x.kids);
    }
  }

  predicate TidyList(xs: seq<Xml>) { Apart(xs) && forall k <- xs :: Tidy(k) && (k.Leaf? ==> k.text != "") }

  lemma {:induction false} MergedTidy(text: string, xs: seq<Xml>)
    ensures TidyList(Merged(text, xs))
    decreases xs, 0
  {
    if xs != [] {
      match xs[0] {
        case Leaf(more) =>
          MergedTidy(text + more, xs[1..]);
        case Branch(name, attrs, kids) =>
          NormalTidy(xs[0]);
          MergedTidy("", xs[1..]);
          TidyJoin(TextNode(text), Normal(xs[0]), Merged("", xs[1..]));
      }
    }
  }

  lemma TidyJoin(a: seq<Xml>, x: Xml, b: seq<Xml>)
    requires TidyList(a) && |a| <= 1 && x.Branch? && Tidy(x) && TidyList(b)
    ensures TidyList(a + [x] + b)
  {
    hide Tidy;
  }

  lemma {:induction false} TidyNormal(x: Xml)
    requires Tidy(x)
    ensures Normal(x) == x
    decreases x, 0
  {
    if x.Branch? {
      TidyMerged("", x.kids);
    }
  }

  lemma {:induction false} TidyMerged(text: string, xs: seq<Xml>)
    requires TidyList(xs) && (text != "" && xs != [] ==> xs[0].Branch?)
    ensures Merged(text, xs) == TextNode(text) + xs
    decreases xs, 0
  {
    if xs != [] {
      assert xs[0] in xs;
      assert TidyList(xs[1..]);
      assert xs == [xs[0]] + xs[1..];
      match xs[0] {
        case Leaf(more) =>
          assert text + more == more;
          TidyMerged(more, xs[1..]);
        case Branch(name, attrs, kids) =>
          TidyNormal(xs[0]);
          TidyMerged("", xs[1..]);
      }
    }
  }

  // Behind a processing instruction as the root, the last child is not text.
  predicate Complete(x: Xml) { Headed(x) && x.kids != [] ==> x.kids[|x.kids| - 1].Branch? }

  lemma {:induction false} SettledShort(xs: seq<Xml>)
    ensures |Settled(xs)| <= |xs| && Settled(xs) <= xs
    ensures Settled(xs) == [] || Settled(xs)[|Settled(xs)| - 1].Branch?
  {
    if xs != [] && xs[|xs| - 1].Leaf? {
      SettledShort(xs[..|xs| - 1]);
    }
  }

  // Joining texts leaves an element at the end.
  lemma {:induction false} MergedEnds(text: string, xs: seq<Xml>)
    requires xs != [] && xs[|xs| - 1].Branch?
    ensures var m := Merged(text, xs);
      m != [] && m[|m| - 1].Branch?
    decreases |xs|
  {
    hide Normal, TextNode;
    if |xs| == 1 {
      assert xs[1..] == [];
      NothingMerged();
      assert Merged(text, xs) == TextNode(text) + [Normal(xs[0])] + [];
    } else {
      MergedEnds(if xs[0].Leaf? then text + xs[0].text else "", xs[1..]);
    }
  }

  lemma NothingMerged()
    ensures Merged("", []) == []
  {
  }

  /**
    The round trip is exact if and only if no text is empty or next to other text, and none stands
    at the end behind a processing instruction as the root.
   */
  lemma RoundTrip(x: Xml, wrap: int, names: string -> int)
    requires SavableRoot(x) && EntitiesOk(names)
    ensures L.LoadString(Saved(x, wrap), names) == Some(x) <==> Tidy(x) && Complete(x)
  {
    LoadSaved(x, wrap, names);
    hide L.LoadString, Saved, VerbatimOk;
    NormalTidy(x);
    if Headed(x) {
      SettledShort(x.kids);
      MergedTidy("", Settled(x.kids));
      NothingMerged();
      if Settled(x.kids) != [] {
        MergedEnds("", Settled(x.kids));
      }
    }
    if Tidy(x) {
      TidyNormal(x);
    }
  }
}
