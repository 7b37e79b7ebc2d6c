/**
  Saving: `mxml_write_node` writes a tree in one pass over its pointers, without recursion. No
  whitespace callback; the column only decides where a line is wrapped between two attributes.
 */
module XmlSave {
  import opened Text
  import opened XmlTree

  datatype Xml = Branch(name: string, attrs: seq<Attr>, kids: seq<Xml>) | Leaf(text: string)

  // `mxmlEntityGetName`
  function EntityOf(c: char): Option<string> {
    if c == '&' then Some("amp")
    else if c == '<' then Some("lt")
    else if c == '>' then Some("gt")
    else if c == '\"' then Some("quot")
    else None
  }

  function EscapeChar(c: char): string {
    match EntityOf(c) case Some(name) => "&" + name + ";" case None => [c]
  }

  // `mxml_write_string`
  function Escape(s: string): string {
    if s == "" then "" else EscapeChar(s[0]) + Escape(s[1..])
  }

  // What stands in front of the quote, or all of it.
  function UntilQuote(s: string, quote: char): string {
    if s == "" || s[0] == quote then "" else [s[0]] + UntilQuote(s[1..], quote)
  }

  // `mxml_write_name`
  function NameText(s: string): string {
    if s != "" && (s[0] == '\"' || s[0] == '\'') then [s[0]] + Escape(UntilQuote(s[1..], s[0])) + [s[0]] else s
  }

  predicate Special(name: string) { name != "" && (name[0] == '!' || name[0] == '?') }

  // The name in an opening tag.
  function TagText(name: string): string {
    if (name != "" && name[0] == '?') || "!--" <= name then name
    else if "![CDATA[" <= name then name + "]]"
    else NameText(name)
  }

  function Width(a: Attr): nat { |a.name| + match a.value case Some(v) => |v| + 3 case None => 0 }

  function AttrText(a: Attr): string {
    NameText(a.name) + match a.value case Some(v) => "=\"" + Escape(v) + "\"" case None => ""
  }

  predicate Wraps(a: Attr, col: nat, wrap: int) { wrap > 0 && col + Width(a) > wrap }

  // Text and column after it.
  function AttrsText(attrs: seq<Attr>, col: nat, wrap: int): (string, nat) {
    if attrs == [] then ("", col)
    else
      var a := attrs[0];
      var wraps := Wraps(a, col, wrap);
      var rest := AttrsText(attrs[1..], (if wraps then 0 else col + 1) + Width(a), wrap);
      ((if wraps then "\n" else " ") + AttrText(a) + rest.0, rest.1)
  }

  function OpenText(name: string, attrs: seq<Attr>, open: bool, col: nat, wrap: int): (string, nat) {
    var a := AttrsText(attrs, col + |name| + 1, wrap);
    if open || Special(name) then ("<" + TagText(name) + a.0 + ">", a.1 + 1)
    else ("<" + TagText(name) + a.0 + " />", a.1 + 3)
  }

  function CloseText(name: string, col: nat): (string, nat) {
    if Special(name) then ("", col) else ("</" + Escape(name) + ">", col + |name| + 3)
  }

  function Written(x: Xml, col: nat, wrap: int): (string, nat)
    decreases x, 0
  {
    match x
    case Leaf(text) => (Escape(text), col + |text|)
    case Branch(name, attrs, kids) =>
      var o := OpenText(name, attrs, kids != [], col, wrap);
      if kids == [] then o
      else
        var k := WrittenAll(kids, o.1, wrap);
        var c := CloseText(name, k.1);
        (o.0 + (k.0 + c.0), c.1)
  }

  function WrittenAll(xs: seq<Xml>, col: nat, wrap: int): (string, nat)
    decreases xs, 0
  {
    if xs == [] then ("", col)
    else
      var x := Written(xs[0], col, wrap);
      var rest := WrittenAll(xs[1..], x.1, wrap);
      (x.0 + rest.0, rest.1)
  }

  // `mxmlSaveAllocString`
  function Saved(x: Xml, wrap: int): string {
    var w := Written(x, 0, wrap);
    w.0 + if w.1 > 0 then "\n" else ""
  }

  // ----- the tree behind the nodes -----

  function XmlOf(t: Tree): Xml
    decreases t, 0
  {
    match t.node.value
    case Element(name, attrs) => Branch(name, attrs, XmlsOf(t.kids))
    case Opaque(text) => Leaf(text)
  }

  function XmlsOf(ts: seq<Tree>): (r: seq<Xml>)
    ensures |r| == |ts|
    decreases ts, 0
  {
    if ts == [] then [] else [XmlOf(ts[0])] + XmlsOf(ts[1..])
  }

  // Only elements have children.
  ghost predicate Documented(l: Layout) {
    Shape(l) && forall i: nat | i < |l.nodes| && i + 1 < l.end[i] :: l.nodes[i].value.Element?
  }

  // ----- one pass -----

  // What is written when the loop comes to the node at `i`.
  ghost function Visit(l: Layout, i: nat, col: nat, wrap: int): (string, nat)
    requires Shape(l) && i < |l.nodes|
  {
    match l.nodes[i].value
    case Element(name, attrs) => OpenText(name, attrs, i + 1 < l.end[i], col, wrap)
    case Opaque(text) => (Escape(text), col + |text|)
  }

  ghost function Close(l: Layout, i: nat, col: nat): (string, nat)
    requires Documented(l) && i < |l.nodes| && i + 1 < l.end[i]
  {
    CloseText(l.nodes[i].value.name, col)
  }

  function Behind(a: (string, nat), text: string): (string, nat) { (text + a.0, a.1) }

  lemma InShape(l: Layout, i: nat)
    requires Shape(l) && i < |l.nodes|
    ensures i < l.end[i] <= |l.nodes|
    ensures i > 0 ==> l.par[i] < i < l.end[l.par[i]] && l.end[i] <= l.end[l.par[i]]
    ensures i > 0 && l.end[i] < l.end[l.par[i]] ==> l.end[i] < |l.nodes|
  {
    assert ShapeAt(l, i);
  }

  // All that is written from the node at `i` on, and from the end of its subtree on.
  ghost function From(l: Layout, i: nat, col: nat, wrap: int): (string, nat)
    requires Documented(l) && i < |l.nodes|
    decreases |l.nodes| - i, 0
  {
    InShape(l, i);
    var v := Visit(l, i, col, wrap);
    if i + 1 < l.end[i] then Behind(From(l, i + 1, v.1, wrap), v.0) else Behind(After(l, i, v.1, wrap), v.0)
  }

  ghost function After(l: Layout, i: nat, col: nat, wrap: int): (string, nat)
    requires Documented(l) && i < |l.nodes|
    decreases |l.nodes| - l.end[i], 1 + i
  {
    InShape(l, i);
    if i == 0 then ("", col)
    else if l.end[i] < l.end[l.par[i]] then From(l, l.end[i], col, wrap)
    else
      var c := Close(l, l.par[i], col);
      Behind(After(l, l.par[i], c.1, wrap), c.0)
  }

  method WriteChar(c: char) returns (text: string)
    ensures text == EscapeChar(c)
  {
    match EntityOf(c) {
      case Some(name) => text := "&" + name + ";";
      case None => text := [c];
    }
  }

  lemma Joins(a: string, b: string, c: string)
    ensures a + (b + c) == (a + b) + c
  {
  }

  method WriteString(s: string) returns (out: string)
    ensures out == Escape(s)
  {
    out := "";
    for i := 0 to |s|
      invariant out + Escape(s[i..]) == Escape(s)
    {
      assert s[i..][0] == s[i] && s[i..][1..] == s[i + 1..];
      var text := WriteChar(s[i]);
      Joins(out, text, Escape(s[i + 1..]));
      out := out + text;
    }
  }

  // A quoted name, from behind its first quote.
  method WriteQuoted(s: string, quote: char) returns (out: string)
    ensures out == Escape(UntilQuote(s, quote))
  {
    out := "";
    var i := 0;
    while i < |s| && s[i] != quote
      invariant 0 <= i <= |s|
      invariant out + Escape(UntilQuote(s[i..], quote)) == Escape(UntilQuote(s, quote))
    {
      assert s[i..][0] == s[i] && s[i..][1..] == s[i + 1..];
      QuotedStep(s[i..], quote);
      var text := WriteChar(s[i]);
      Joins(out, text, Escape(UntilQuote(s[i + 1..], quote)));
      out := out + text;
      i := i + 1;
    }
  }

  lemma QuotedStep(s: string, quote: char)
    requires s != "" && s[0] != quote
    ensures Escape(UntilQuote(s, quote)) == EscapeChar(s[0]) + Escape(UntilQuote(s[1..], quote))
  {
    assert UntilQuote(s, quote)[1..] == UntilQuote(s[1..], quote);
  }

  method WriteName(s: string) returns (out: string)
    ensures out == NameText(s)
  {
    if s != "" && (s[0] == '\"' || s[0] == '\'') {
      var quote := s[0];
      out := WriteQuoted(s[1..], quote);
      out := [quote] + out + [quote];
    } else {
      out := s;
    }
  }

  lemma BehindTwice(a: (string, nat), t: string, u: string)
    ensures Behind(Behind(a, t), u) == Behind(a, u + t)
  {
    Joins(u, t, a.0);
  }

  lemma BehindNothing(a: (string, nat))
    ensures Behind(a, "") == a
  {
    assert "" + a.0 == a.0;
  }

  lemma NothingBehind(col: nat, out: string)
    ensures Behind(("", col), out) == (out, col)
  {
    assert out + "" == out;
  }

  // The attributes of an opening tag; a line is wrapped in front of one that does not fit.
  method WriteAttrs(attrs: seq<Attr>, start: nat, wrap: int) returns (out: string, col: nat)
    ensures (out, col) == AttrsText(attrs, start, wrap)
  {
    out, col := "", start;
    BehindNothing(AttrsText(attrs, start, wrap));
    for i := 0 to |attrs|
      invariant Behind(AttrsText(attrs[i..], col, wrap), out) == AttrsText(attrs, start, wrap)
    {
      var text, after := WriteAttr(attrs[i], col, wrap);
      AttrsStep(attrs[i..], col, wrap);
      assert attrs[i..][0] == attrs[i] && attrs[i..][1..] == attrs[i + 1..];
      BehindTwice(AttrsText(attrs[i + 1..], after, wrap), text, out);
      col := after;
      out := out + text;
    }
    NothingBehind(col, out);
  }

  function SpacedAttr(a: Attr, col: nat, wrap: int): (string, nat) {
    ((if Wraps(a, col, wrap) then "\n" else " ") + AttrText(a), (if Wraps(a, col, wrap) then 0 else col + 1) + Width(a))
  }

  lemma AttrsStep(attrs: seq<Attr>, col: nat, wrap: int)
    requires attrs != []
    ensures var a := SpacedAttr(attrs[0], col, wrap);
      AttrsText(attrs, col, wrap) == Behind(AttrsText(attrs[1..], a.1, wrap), a.0)
  {
  }

  method WriteAttr(attr: Attr, start: nat, wrap: int) returns (out: string, col: nat)
    ensures (out, col) == SpacedAttr(attr, start, wrap)
  {
    var width := |attr.name| + if attr.value.Some? then |attr.value.value| + 3 else 0;
    if wrap > 0 && start + width > wrap {
      out, col := "\n", 0;
    } else {
      out, col := " ", start + 1;
    }
    ghost var sep := out;
    var name := WriteName(attr.name);
    var value := "";
    if attr.value.Some? {
      var text := WriteString(attr.value.value);
      value := "=\"" + text + "\"";
    }
    assert name + value == AttrText(attr);
    Joins(out, name, value);
    out := out + name + value;
    col := col + width;
  }

  // What the switch of `mxml_write_node` writes for a node.
  method WriteValue(current: Node, start: nat, wrap: int, ghost l: Layout, ghost i: nat)
    returns (out: string, col: nat)
    requires Laid(l) && i < |l.nodes| && current == l.nodes[i]
    ensures (out, col) == Visit(l, i, start, wrap)
  {
    ChildIs(l, i);
    hide OpenText, Escape, Laid, Shape;
    match current.value {
      case Element(name, attrs) =>
        out, col := WriteOpen(name, attrs, current.child != null, start, wrap);
      case Opaque(text) =>
        out := WriteString(text);
        col := start + |text|;
    }
  }

  lemma ChildIs(l: Layout, i: nat)
    requires Laid(l) && i < |l.nodes|
    ensures Shape(l) && (l.nodes[i].child != null <==> i + 1 < l.end[i])
  {
    assert ShapeAt(l, i) && LinksAt(l, i);
  }

  // An opening tag.
  method WriteOpen(name: string, attrs: seq<Attr>, open: bool, start: nat, wrap: int) returns (out: string, col: nat)
    ensures (out, col) == OpenText(name, attrs, open, start, wrap)
  {
    hide AttrsText, NameText;
    var tag := name;
    if (name != "" && name[0] == '?') || "!--" <= name {
    } else if "![CDATA[" <= name {
      tag := name + "]]";
    } else {
      tag := WriteName(name);
    }
    var text;
    text, col := WriteAttrs(attrs, start + |name| + 1, wrap);
    out := "<" + tag + text;
    if open || (name != "" && (name[0] == '!' || name[0] == '?')) {
      out, col := out + ">", col + 1;
    } else {
      out, col := out + " />", col + 3;
    }
  }


  method WriteClose(name: string, start: nat) returns (out: string, col: nat)
    ensures (out, col) == CloseText(name, start)
  {
    out, col := "", start;
    if !(name != "" && (name[0] == '!' || name[0] == '?')) {
      var text := WriteString(name);
      out := "</" + text + ">";
      col := start + |name| + 3;
    }
  }

  // From a node without children to the next one, writing the tags that are closed on the way.
  method WriteUp(current: Node, node: Node, start: nat, wrap: int, ghost l: Layout, ghost i: nat)
    returns (next: Node?, out: string, col: nat, ghost j: nat)
    requires Laid(l) && Documented(l) && 0 < i < |l.nodes| && current == l.nodes[i] && node == l.nodes[0]
    ensures next == null ==> (out, col) == After(l, i, start, wrap)
    ensures next != null ==>
              && l.end[i] <= j < |l.nodes| && next == l.nodes[j]
              && Behind(From(l, j, col, wrap), out) == After(l, i, start, wrap)
  {
    out, col, j := "", start, i;
    var up := current;
    assert ShapeAt(l, j) && LinksAt(l, j);
    BehindNothing(After(l, i, start, wrap));
    next := up.next;
    while next == null
      invariant j < |l.nodes| && up == l.nodes[j] && ShapeAt(l, j) && l.end[j] == l.end[i]
      invariant Behind(After(l, j, col, wrap), out) == After(l, i, start, wrap)
      invariant next == (if j == 0 || l.end[j] == l.end[l.par[j]] then null else l.nodes[l.end[j]])
      decreases j
    {
      assert LinksAt(l, j);
      InShape(l, j);
      if up == node || up.parent == null {
        NothingBehind(col, out);
        break;
      }
      ghost var c := Close(l, l.par[j], col);
      ghost var rest := After(l, l.par[j], c.1, wrap);
      assert After(l, j, col, wrap) == Behind(rest, c.0);
      up := up.parent;
      j := l.par[j];
      assert ShapeAt(l, j) && LinksAt(l, j);
      BehindTwice(rest, c.0, out);
      var text, col' := WriteClose(up.value.name, col);
      out, col := out + text, col';
      if up == node {
        NothingBehind(col, out);
        break;
      }
      next := up.next;
    }
    if next != null {
      j := l.end[j];
    }
  }

  // `mxml_write_node`
  method WriteNode(node: Node, start: nat, wrap: int, ghost l: Layout) returns (out: string, col: nat)
    requires Laid(l) && Documented(l) && node == l.nodes[0]
    ensures (out, col) == From(l, 0, start, wrap)
  {
    out, col := "", start;
    var current: Node? := node;
    ghost var i: nat := 0;
    ghost var goal := From(l, 0, start, wrap);
    BehindNothing(goal);
    while current != null
      invariant current != null ==>
                  i < |l.nodes| && current == l.nodes[i] && Behind(From(l, i, col, wrap), out) == goal
      invariant current == null ==> (out, col) == goal
      decreases if current == null then 0 else |l.nodes| - i
    {
      assert ShapeAt(l, i) && LinksAt(l, i);
      var text, col' := WriteValue(current, col, wrap, l, i);
      ghost var rest := if i + 1 < l.end[i] then From(l, i + 1, col', wrap) else After(l, i, col', wrap);
      assert From(l, i, col, wrap) == Behind(rest, text);
      BehindTwice(rest, text, out);
      out, col := out + text, col';
      var next := current.child;
      if next != null {
        i := i + 1;
      } else if current == node {
        assert i == 0;
        NothingBehind(col, out);
      } else {
        ghost var j;
        next, text, col', j := WriteUp(current, node, col, wrap, l, i);
        if next != null {
          BehindTwice(From(l, j, col', wrap), text, out);
        } else {
          NothingBehind(col', out + text);
        }
        out, col := out + text, col';
        i := j;
      }
      current := next;
    }
  }

  // ----- the pass writes the tree -----

  // What follows the last child of the node at `p`.
  ghost function Up(l: Layout, p: nat, col: nat, wrap: int): (string, nat)
    requires Documented(l) && p < |l.nodes| && p + 1 < l.end[p]
  {
    var c := Close(l, p, col);
    Behind(After(l, p, c.1, wrap), c.0)
  }

  lemma Regroup(o: string, k: string, c: string, a: (string, nat))
    ensures Behind(Behind(Behind(a, c), k), o) == Behind(a, o + (k + c))
  {
    BehindTwice(a, c, k);
    BehindTwice(a, k + c, o);
  }

  // The first tree of a list: its text, then what comes after it.
  lemma {:induction false} TreeWritten(l: Layout, ts: seq<Tree>, at: nat, end: nat, parent: nat, col: nat, wrap: int)
    requires Documented(l) && ts != [] && Stands(l, ts, at, end, parent) && l.end[parent] == end
    ensures at < |l.nodes|
    ensures var x := Written(XmlOf(ts[0]), col, wrap);
      From(l, at, col, wrap) == Behind(After(l, at, x.1, wrap), x.0)
    decreases ts, 0
  {
    hide *;
    StandsSplit(l, ts, at, end, parent);
    TreeParts(l, ts, at, end, parent, col, wrap);
    var t, mid := ts[0], at + |Preorder(ts[0])|;
    var v := Visit(l, at, col, wrap);
    if t.kids != [] {
      var k := WrittenAll(XmlsOf(t.kids), v.1, wrap);
      var c := Close(l, at, k.1);
      ForestWritten(l, t.kids, at + 1, mid, at, v.1, wrap);
      Chain(From(l, at, col, wrap), From(l, at + 1, v.1, wrap), Up(l, at, k.1, wrap), After(l, at, c.1, wrap),
            v.0, k.0, c.0);
    }
  }

  lemma Chain(a: (string, nat), b: (string, nat), c: (string, nat), d: (string, nat), o: string, k: string, e: string)
    requires a == Behind(b, o) && b == Behind(c, k) && c == Behind(d, e)
    ensures a == Behind(d, o + (k + e))
  {
    Regroup(o, k, e, d);
  }

  // The definitions of what the pass writes for a tree and of the text of the tree.
  lemma TreeParts(l: Layout, ts: seq<Tree>, at: nat, end: nat, parent: nat, col: nat, wrap: int)
    requires Documented(l) && ts != [] && Stands(l, ts, at, end, parent) && l.end[parent] == end
    ensures at < |l.nodes| && Shape(l)
    ensures
      var t, v, x := ts[0], Visit(l, at, col, wrap), Written(XmlOf(ts[0]), col, wrap);
      && (t.kids == [] ==> x == v && From(l, at, col, wrap) == Behind(After(l, at, v.1, wrap), v.0))
      && (t.kids != [] ==>
           && at + 1 < l.end[at] && at + 1 < |l.nodes|
           && From(l, at, col, wrap) == Behind(From(l, at + 1, v.1, wrap), v.0)
           && var k := WrittenAll(XmlsOf(t.kids), v.1, wrap);
              var c := Close(l, at, k.1);
              && x == (v.0 + (k.0 + c.0), c.1)
              && Up(l, at, k.1, wrap) == Behind(After(l, at, c.1, wrap), c.0))
  {
    StandsSplit(l, ts, at, end, parent);
    StandsInside(l, ts[0].kids, at + 1, at + |Preorder(ts[0])|, at);
  }

  lemma {:induction false} ForestWritten(l: Layout, ts: seq<Tree>, at: nat, end: nat, parent: nat, col: nat, wrap: int)
    requires Documented(l) && ts != [] && Stands(l, ts, at, end, parent) && l.end[parent] == end
    ensures at < |l.nodes| && parent + 1 < l.end[parent]
    ensures var w := WrittenAll(XmlsOf(ts), col, wrap);
      From(l, at, col, wrap) == Behind(Up(l, parent, w.1, wrap), w.0)
    decreases ts, 1
  {
    hide *;
    var mid := at + |Preorder(ts[0])|;
    var x := Written(XmlOf(ts[0]), col, wrap);
    AfterTree(l, ts, at, end, parent, x.1, wrap);
    StandsSplit(l, ts, at, end, parent);
    TreeWritten(l, ts, at, end, parent, col, wrap);
    WrittenFirst(ts, col, wrap);
    if |ts| > 1 {
      ForestWritten(l, ts[1..], mid, end, parent, x.1, wrap);
      var rest := WrittenAll(XmlsOf(ts[1..]), x.1, wrap);
      BehindTwice(Up(l, parent, rest.1, wrap), rest.0, x.0);
    }
  }

  lemma WrittenFirst(ts: seq<Tree>, col: nat, wrap: int)
    requires ts != []
    ensures
      var x := Written(XmlOf(ts[0]), col, wrap);
      WrittenAll(XmlsOf(ts), col, wrap)
      == if |ts| > 1 then Behind(WrittenAll(XmlsOf(ts[1..]), x.1, wrap), x.0) else x
    ensures
      var x := Written(XmlOf(ts[0]), col, wrap);
      |ts| > 1 ==>
        var rest := WrittenAll(XmlsOf(ts[1..]), x.1, wrap);
        WrittenAll(XmlsOf(ts), col, wrap) == (x.0 + rest.0, rest.1)
  {
    var x := Written(XmlOf(ts[0]), col, wrap);
    assert XmlsOf(ts)[0] == XmlOf(ts[0]) && XmlsOf(ts)[1..] == XmlsOf(ts[1..]);
    assert x.0 + "" == x.0;
  }

  // What follows the first tree of a list: the next one, or what follows the list.
  lemma AfterTree(l: Layout, ts: seq<Tree>, at: nat, end: nat, parent: nat, col: nat, wrap: int)
    requires Documented(l) && ts != [] && Stands(l, ts, at, end, parent) && l.end[parent] == end
    ensures
      var mid := at + |Preorder(ts[0])|;
      && at < |l.nodes| && parent + 1 < l.end[parent] && parent < |l.nodes|
      && (|ts| > 1 ==> mid < |l.nodes| && After(l, at, col, wrap) == From(l, mid, col, wrap))
      && (|ts| == 1 ==> After(l, at, col, wrap) == Up(l, parent, col, wrap))
  {
    hide *;
    StandsInside(l, ts, at, end, parent);
    StandsSplit(l, ts, at, end, parent);
    StandsInside(l, ts[1..], at + |Preorder(ts[0])|, end, parent);
    AfterIs(l, at, col, wrap);
  }

  lemma AfterIs(l: Layout, i: nat, col: nat, wrap: int)
    requires Documented(l) && 0 < i < |l.nodes|
    ensures i < l.end[i] <= |l.nodes| && l.par[i] < |l.nodes| && l.par[i] + 1 < l.end[l.par[i]]
    ensures l.end[i] < l.end[l.par[i]] ==>
              l.end[i] < |l.nodes| && After(l, i, col, wrap) == From(l, l.end[i], col, wrap)
    ensures l.end[i] == l.end[l.par[i]] ==> After(l, i, col, wrap) == Up(l, l.par[i], col, wrap)
  {
    InShape(l, i);
  }

  /** What one pass over the layout of a tree writes is the text of the tree. */
  lemma WritesTree(t: Tree, col: nat, wrap: int)
    requires Documented(LayoutOf(t))
    ensures From(LayoutOf(t), 0, col, wrap) == Written(XmlOf(t), col, wrap)
  {
    var l := LayoutOf(t);
    var n := |l.nodes|;
    SameSizes(t, 0, 0);
    assert l.nodes[1..n] == PreorderAll(t.kids);
    assert l.end[1..n] == EndsAll(t.kids, 1);
    assert l.par[1..n] == ParentsAll(t.kids, 1, 0);
    assert Stands(l, t.kids, 1, n, 0);
    StandsInside(l, t.kids, 1, n, 0);
    var v := Visit(l, 0, col, wrap);
    if t.kids == [] {
      NothingBehind(v.1, v.0);
    } else {
      ForestWritten(l, t.kids, 1, n, 0, v.1, wrap);
      var k := WrittenAll(XmlsOf(t.kids), v.1, wrap);
      var c := Close(l, 0, k.1);
      Regroup(v.0, k.0, c.0, ("", c.1));
      NothingBehind(c.1, v.0 + (k.0 + c.0));
    }
  }

  /** `mxmlSaveAllocString`: the text of the tree, with a line end. */
  method SaveString(node: Node, wrap: int, ghost t: Tree) returns (text: string)
    requires Linked(t) && Distinct(Preorder(t)) && Documented(LayoutOf(t)) && node == t.node
    ensures text == Saved(XmlOf(t), wrap)
  {
    TreeLaid(t);
    var col;
    text, col := WriteNode(node, 0, wrap, LayoutOf(t));
    WritesTree(t, 0, wrap);
    if col > 0 {
      text := text + "\n";
    }
  }
}
