/**
  Documents as they may be written by hand: characters in any spelling, white space wherever it may
  stand, and attribute values in either quote or in none.
 */
module XmlSyntax {
  import opened Text
  import opened XmlTree
  import opened XmlChars
  import opened XmlSave
  import opened XmlRoundTrip
  import L = XmlLoad

  // ----- characters -----

  // A character: as its bytes, as a decimal or hexadecimal reference, or as a named entity.
  datatype Spell = Raw(bytes: string) | Dec(digits: string) | Hex(digits: string) | Named(name: string)

  function SpellText(x: Spell): string {
    match x
    case Raw(bytes) => bytes
    case Dec(digits) => "&" + (("#" + digits) + ";")
    case Hex(digits) => "&" + (("#x" + digits) + ";")
    case Named(name) => "&" + (name + ";")
  }

  predicate Numeral(s: string) { s != "" && forall c <- s :: IsDigit(c) }

  predicate SpellOk(x: Spell, names: string -> int) {
    match x
    case Raw(b) => b != "" && Next(b).0.Char? && Next(b).1 == |b| && b[0] != '<' && b[0] != '&'
    case Dec(d) => Numeral(d) && |d| <= 62 && !BadChar(DecimalValue(d))
    case Hex(d) => d != "" && |d| <= 61 && HexNumeral(d).Some? && !BadChar(HexNumeral(d).value)
    case Named(n) => n != "" && |n| <= 63 && (forall c <- n :: Alnum(c)) && !BadChar(names(n))
  }

  // The character that is meant.
  function Code(x: Spell, names: string -> int): nat
    requires SpellOk(x, names)
  {
    match x
    case Raw(b) => Next(b).0.cp
    case Dec(d) => DecimalValue(d)
    case Hex(d) => HexNumeral(d).value
    case Named(n) => names(n)
  }

  function SpelledText(xs: seq<Spell>): string {
    if xs == [] then "" else SpellText(xs[0]) + SpelledText(xs[1..])
  }

  predicate AllOk(xs: seq<Spell>, names: string -> int) { forall x <- xs :: SpellOk(x, names) }

  function SpelledBytes(xs: seq<Spell>, names: string -> int): string
    requires AllOk(xs, names)
  {
    if xs == [] then "" else Bytes(Code(xs[0], names)) + SpelledBytes(xs[1..], names)
  }

  // ----- numerals -----

  predicate InBase(c: char, base: nat) { L.HexValue(c).Some? && L.HexValue(c).value < base }

  predicate AllIn(s: string, base: nat) { forall i :: 0 <= i < |s| ==> InBase(s[i], base) }

  lemma {:induction false} StrToLSnoc(s: string, base: nat, n: nat)
    requires s != "" && AllIn(s, base)
    ensures L.StrToL(s, base, n) == L.StrToL(s[..|s| - 1], base, n) * base + L.HexValue(s[|s| - 1]).value
    decreases |s|
  {
    hide L.HexValue;
    if |s| == 1 {
      assert s[..0] == "" && s[1..] == "";
    } else {
      var t := s[1..];
      StrToLSnoc(t, base, n * base + L.HexValue(s[0]).value);
      assert s[..|s| - 1][1..] == t[..|t| - 1];
    }
  }

  lemma DigitIs(c: char)
    ensures IsDigit(c) ==> L.HexValue(c) == Some(c as nat - 48) && InBase(c, 10)
  {
  }

  lemma {:induction false} DecimalRead(s: string)
    requires forall c <- s :: IsDigit(c)
    ensures L.StrToL(s, 10, 0) == DecimalValue(s)
  {
    if s != "" {
      forall i | 0 <= i < |s| ensures InBase(s[i], 10) {
        assert s[i] in s;
        DigitIs(s[i]);
      }
      DigitIs(s[|s| - 1]);
      StrToLSnoc(s, 10, 0);
      DecimalRead(s[..|s| - 1]);
    }
  }

  lemma HexDigitIs(s: string)
    requires s != "" && HexNumeral(s).Some?
    ensures HexNumeral(s[..|s| - 1]).Some? && InBase(s[|s| - 1], 16)
    ensures HexNumeral(s).value == HexNumeral(s[..|s| - 1]).value * 16 + L.HexValue(s[|s| - 1]).value
  {
  }

  lemma {:induction false} HexBytes(s: string)
    requires HexNumeral(s).Some?
    ensures AllIn(s, 16) && forall c <- s :: Alnum(c)
  {
    if s != "" {
      HexDigitIs(s);
      HexBytes(s[..|s| - 1]);
      assert s == s[..|s| - 1] + [s[|s| - 1]];
    }
  }

  lemma {:induction false} HexRead(s: string)
    requires HexNumeral(s).Some?
    ensures L.StrToL(s, 16, 0) == HexNumeral(s).value
  {
    if s != "" {
      HexBytes(s);
      StrToLSnoc(s, 16, 0);
      HexDigitIs(s);
      HexRead(s[..|s| - 1]);
    }
  }

  // ----- references -----

  // A reference with the name `name`, in front of any text.
  lemma ReferenceRead(name: string, t: string, names: string -> int)
    requires (forall c <- name :: Alnum(c) || c == '#') && |name| <= 63 && !BadChar(L.EntityChar(name, names))
    ensures L.Entity(Events(name + ";" + t), names) == Some((L.EntityChar(name, names), Events(t)))
  {
    NameRead(name, "", t);
    assert "" + name == name;
    hide Events, L.EntityChar, L.EntityName;
  }

  /** `&#` and a decimal numeral stand for the character with that number. */
  lemma DecimalReference(digits: string, t: string, names: string -> int)
    requires Numeral(digits) && |digits| <= 62 && !BadChar(DecimalValue(digits))
    ensures L.Entity(Events(("#" + digits) + ";" + t), names) == Some((DecimalValue(digits), Events(t)))
  {
    var name := "#" + digits;
    assert name[1..] == digits;
    assert digits[0] in digits;
    DecimalRead(digits);
    hide Events, L.Entity, L.StrToL;
    ReferenceRead(name, t, names);
  }

  /** `&#x` and a hexadecimal numeral likewise, with digits of either case. */
  lemma HexReference(digits: string, t: string, names: string -> int)
    requires digits != "" && |digits| <= 61 && HexNumeral(digits).Some? && !BadChar(HexNumeral(digits).value)
    ensures L.Entity(Events(("#x" + digits) + ";" + t), names) == Some((HexNumeral(digits).value, Events(t)))
  {
    var name := "#x" + digits;
    assert name[2..] == digits && name[0] == '#' && name[1] == 'x';
    HexBytes(digits);
    HexRead(digits);
    NoPrefix(digits);
    hide Events, L.Entity, L.StrToL, HexNumeral, L.WithoutPrefix;
    ReferenceRead(name, t, names);
  }

  lemma NoPrefix(digits: string)
    requires AllIn(digits, 16)
    ensures L.WithoutPrefix(digits) == digits
  {
    assert |digits| > 2 ==> InBase(digits[1], 16);
  }

  lemma NamedReference(name: string, t: string, names: string -> int)
    requires name != "" && |name| <= 63 && (forall c <- name :: Alnum(c)) && !BadChar(names(name))
    ensures L.Entity(Events(name + ";" + t), names) == Some((names(name), Events(t)))
  {
    assert name[0] in name;
    hide Events, L.Entity;
    ReferenceRead(name, t, names);
  }

  // How a text starts: with `cp`, spelled with `first` in front.
  ghost predicate Reads(e: seq<L.Ev>, first: nat, cp: nat, rest: seq<L.Ev>, names: string -> int) {
    && e != [] && e[0] == Some(first) && first != 60
    && L.Decoded(first, e[1..], names) == Some((cp, rest))
  }

  function FirstOf(x: Spell): nat {
    if x.Raw? && x.bytes != "" && Next(x.bytes).0.Char? then Next(x.bytes).0.cp else 38
  }

  lemma EntityReads(text: string, cp: nat, rest: seq<L.Ev>, names: string -> int)
    requires L.Entity(Events(text), names) == Some((cp, rest))
    ensures Reads(Events("&" + text), 38, cp, rest, names)
  {
    assert "&" + text == ['&'] + text;
    EventOf('&', text);
    hide Events, L.Entity;
  }

  lemma RawReads(b: string, t: string, names: string -> int)
    requires b != "" && Next(b).0.Char? && Next(b).1 == |b| && b[0] != '<' && b[0] != '&'
    ensures Reads(Events(b + t), Next(b).0.cp, Next(b).0.cp, Events(t), names)
  {
    EventsNext(b, t);
    assert b[|b|..] + t == t;
    RawIsOther(b);
    hide Events, Next;
  }

  lemma RawIsOther(b: string)
    requires b != "" && Next(b).0.Char? && b[0] != '<' && b[0] != '&'
    ensures Next(b).0.cp != 60 && Next(b).0.cp != 38
  {
  }

  // A reference in front of a text.
  lemma ReferenceText(body: string, t: string)
    ensures "&" + (body + ";") + t == "&" + (body + ";" + t)
  {
  }

  lemma DecReads(d: string, t: string, names: string -> int)
    requires SpellOk(Dec(d), names)
    ensures Reads(Events(SpellText(Dec(d)) + t), 38, DecimalValue(d), Events(t), names)
  {
    DecimalReference(d, t, names);
    ReferenceText("#" + d, t);
    hide Events, Reads, DecimalValue, L.Entity;
    EntityReads(("#" + d) + ";" + t, DecimalValue(d), Events(t), names);
  }

  lemma HexReads(d: string, t: string, names: string -> int)
    requires SpellOk(Hex(d), names)
    ensures Reads(Events(SpellText(Hex(d)) + t), 38, HexNumeral(d).value, Events(t), names)
  {
    HexReference(d, t, names);
    ReferenceText("#x" + d, t);
    hide Events, Reads, HexNumeral, L.Entity;
    EntityReads(("#x" + d) + ";" + t, HexNumeral(d).value, Events(t), names);
  }

  lemma NamedReads(n: string, t: string, names: string -> int)
    requires SpellOk(Named(n), names)
    ensures Reads(Events(SpellText(Named(n)) + t), 38, names(n), Events(t), names)
  {
    NamedReference(n, t, names);
    ReferenceText(n, t);
    hide Events, Reads, L.Entity;
    EntityReads(n + ";" + t, names(n), Events(t), names);
  }

  // One character in any spelling, wherever entities are decoded.
  lemma SpellReads(x: Spell, t: string, names: string -> int)
    requires SpellOk(x, names)
    ensures Reads(Events(SpellText(x) + t), FirstOf(x), Code(x, names), Events(t), names)
  {
    hide Events, Reads, HexNumeral, DecimalValue, Next, SpellText;
    match x {
      case Raw(b) =>
        RawText(b);
        RawReads(b, t, names);
      case Dec(d) => DecReads(d, t, names);
      case Hex(d) => HexReads(d, t, names);
      case Named(n) => NamedReads(n, t, names);
    }
  }

  lemma RawText(b: string)
    ensures SpellText(Raw(b)) == b
  {
  }

  // ----- text -----

  lemma SpelledFirst(xs: seq<Spell>, t: string, names: string -> int)
    requires AllOk(xs, names)
    ensures xs == [] ==> SpelledText(xs) + t == t && SpelledBytes(xs, names) == ""
    ensures xs != [] ==>
              && SpellOk(xs[0], names) && AllOk(xs[1..], names)
              && SpelledText(xs) + t == SpellText(xs[0]) + (SpelledText(xs[1..]) + t)
              && SpelledBytes(xs, names) == Bytes(Code(xs[0], names)) + SpelledBytes(xs[1..], names)
  {
    if xs != [] {
      hide SpellText, Bytes, Code, SpellOk;
      assert xs[0] in xs;
      Joins(SpellText(xs[0]), SpelledText(xs[1..]), t);
    }
  }

  lemma LoadsOne(e: seq<L.Ev>, first: nat, cp: nat, rest: seq<L.Ev>, st: L.State, names: string -> int)
    requires Reads(e, first, cp, rest, names) && st.opaq
    ensures L.Load(e, st, names) == L.Load(rest, st.(buf := st.buf + Bytes(cp)), names)
  {
  }

  /** Text in any spelling goes into the buffer as the bytes of its characters. */
  lemma {:induction false} SpelledLoads(xs: seq<Spell>, t: string, st: L.State, names: string -> int)
    requires AllOk(xs, names) && st.opaq
    ensures L.Load(Events(SpelledText(xs) + t), st, names)
         == L.Load(Events(t), st.(buf := st.buf + SpelledBytes(xs, names)), names)
    decreases |xs|
  {
    hide *;
    SpelledFirst(xs, t, names);
    if xs == [] {
      assert st.buf + "" == st.buf;
    } else {
      var rest := SpelledText(xs[1..]) + t;
      var cp := Code(xs[0], names);
      SpellReads(xs[0], rest, names);
      LoadsOne(Events(SpelledText(xs) + t), FirstOf(xs[0]), cp, Events(rest), st, names);
      SpelledLoads(xs[1..], t, st.(buf := st.buf + Bytes(cp)), names);
      Joins(st.buf, Bytes(cp), SpelledBytes(xs[1..], names));
    }
  }

  // ----- attribute values -----

  // The value has its own quote only as a reference.
  predicate QuotedOk(xs: seq<Spell>, quote: char) { forall x <- xs :: x.Raw? && x.bytes != "" ==> x.bytes[0] != quote }

  lemma RawFirst(x: Spell, c: char, names: string -> int)
    requires SpellOk(x, names) && Plain(c) && c != '&' && (x.Raw? ==> x.bytes[0] != c)
    ensures FirstOf(x) != c as nat
  {
  }

  lemma QuotedOne(e: seq<L.Ev>, first: nat, cp: nat, rest: seq<L.Ev>, value: string, quote: nat, names: string -> int)
    requires Reads(e, first, cp, rest, names) && first != quote
    ensures L.QuotedValue(e, value, quote, names) == L.QuotedValue(rest, value + Bytes(cp), quote, names)
  {
  }

  lemma QuotedEnds(e: seq<L.Ev>, rest: seq<L.Ev>, value: string, quote: nat, names: string -> int)
    requires e == [Some(quote)] + rest
    ensures L.QuotedValue(e, value, quote, names) == L.Piece(value, Some(quote), rest)
  {
  }

  lemma {:induction false} QuotedLoads(xs: seq<Spell>, t: string, value: string, quote: char, names: string -> int)
    requires AllOk(xs, names) && QuotedOk(xs, quote) && (quote == '\"' || quote == '\'')
    ensures L.QuotedValue(Events(SpelledText(xs) + ([quote] + t)), value, quote as nat, names)
         == L.Piece(value + SpelledBytes(xs, names), Some(quote as nat), Events(t))
    decreases |xs|
  {
    SpelledFirst(xs, [quote] + t, names);
    assert Plain(quote);
    if xs == [] {
      assert value + "" == value;
      EventOf(quote, t);
      hide Events, Bytes;
      QuotedEnds(Events([quote] + t), Events(t), value, quote as nat, names);
    } else {
      var cp := Code(xs[0], names);
      assert xs[0] in xs;
      hide Events, Bytes, SpellText, Code, SpellOk, SpelledText, SpelledBytes, L.QuotedValue;
      var rest := SpelledText(xs[1..]) + ([quote] + t);
      SpellReads(xs[0], rest, names);
      assert FirstOf(xs[0]) != quote as nat by { RawFirst(xs[0], quote, names); }
      QuotedOne(Events(SpelledText(xs) + ([quote] + t)), FirstOf(xs[0]), cp, Events(rest), value, quote as nat, names);
      QuotedLoads(xs[1..], t, value + Bytes(cp), quote, names);
      Joins(value, Bytes(cp), SpelledBytes(xs[1..], names));
    }
  }

  // A value without quotes: no white space, '=', '/' or '>' but as a reference.
  predicate BareOk(xs: seq<Spell>) {
    forall x <- xs :: x.Raw? && x.bytes != "" ==> !EndsBare(x.bytes[0])
  }

  predicate EndsBare(c: char) { IsSpace(c as nat) || c == '=' || c == '/' || c == '>' }

  lemma BareFirst(x: Spell, names: string -> int)
    requires SpellOk(x, names) && (x.Raw? ==> !EndsBare(x.bytes[0]))
    ensures !L.EndsValue(FirstOf(x))
  {
  }

  lemma BareOne(e: seq<L.Ev>, first: nat, cp: nat, rest: seq<L.Ev>, value: string, names: string -> int)
    requires Reads(e, first, cp, rest, names) && !L.EndsValue(first)
    ensures L.BareValue(e, value, names) == L.BareValue(rest, value + Bytes(cp), names)
  {
  }

  lemma BareEnds(end: char, t: string, value: string, names: string -> int)
    requires EndsBare(end)
    ensures L.BareValue(Events([end] + t), value, names) == L.Piece(value, Some(end as nat), Events(t))
  {
    EventOf(end, t);
    hide Events;
  }

  lemma {:induction false} BareLoads(xs: seq<Spell>, end: char, t: string, value: string, names: string -> int)
    requires AllOk(xs, names) && BareOk(xs) && EndsBare(end)
    ensures L.BareValue(Events(SpelledText(xs) + ([end] + t)), value, names)
         == L.Piece(value + SpelledBytes(xs, names), Some(end as nat), Events(t))
    decreases |xs|
  {
    SpelledFirst(xs, [end] + t, names);
    if xs == [] {
      assert value + "" == value;
      hide Events, Bytes;
      BareEnds(end, t, value, names);
    } else {
      var cp := Code(xs[0], names);
      assert xs[0] in xs;
      hide Events, Bytes, SpellText, Code, SpellOk, SpelledText, SpelledBytes, L.BareValue, EndsBare;
      var rest := SpelledText(xs[1..]) + ([end] + t);
      SpellReads(xs[0], rest, names);
      assert !L.EndsValue(FirstOf(xs[0])) by { BareFirst(xs[0], names); }
      BareOne(Events(SpelledText(xs) + ([end] + t)), FirstOf(xs[0]), cp, Events(rest), value, names);
      BareLoads(xs[1..], end, t, value + Bytes(cp), names);
      Joins(value, Bytes(cp), SpelledBytes(xs[1..], names));
    }
  }

  // ----- attributes -----

  predicate Blank(s: string) { forall i :: 0 <= i < |s| ==> IsSpace(s[i] as nat) }

  // `before` and `after` stand around the '='.
  datatype Written = Quoted(quote: char, value: seq<Spell>) | Bare(first: char, value: seq<Spell>)

  datatype AttrSyntax = AttrSyntax(space: string, name: string, before: string, after: string, value: Written)

  function WrittenText(w: Written): string {
    match w
    case Quoted(quote, value) => [quote] + (SpelledText(value) + [quote])
    case Bare(first, value) => [first] + SpelledText(value)
  }

  function WrittenValue(w: Written, names: string -> int): string
    requires AllOk(w.value, names)
  {
    match w
    case Quoted(_, value) => SpelledBytes(value, names)
    case Bare(first, value) => [first] + SpelledBytes(value, names)
  }

  predicate WrittenOk(w: Written, names: string -> int) {
    && AllOk(w.value, names)
    && match w
       case Quoted(quote, value) => (quote == '\"' || quote == '\'') && QuotedOk(value, quote)
       case Bare(first, value) =>
         && Plain(first) && !EndsBare(first) && first != '\"' && first != '\'' && first != '&' && first != '<'
         && BareOk(value)
  }

  function AttrSource(a: AttrSyntax): string { a.space + (a.name + (a.before + ("=" + (a.after + WrittenText(a.value))))) }

  predicate AttrOk(a: AttrSyntax, names: string -> int) {
    a.space != "" && Blank(a.space) && NameOk(a.name) && Blank(a.before) && Blank(a.after) && WrittenOk(a.value, names)
  }

  function AttrOf(a: AttrSyntax, names: string -> int): Attr
    requires AttrOk(a, names)
  {
    Attr(a.name, Some(WrittenValue(a.value, names)))
  }

  lemma {:induction false} SpaceSkipped(s: string, c: char, t: string)
    requires Blank(s) && Plain(c) && c != ' '
    ensures
      var e := Events(s + ([c] + t));
      e != [] && L.SkipSpace(L.First(e), L.Rest(e)) == (Some(c as nat), Events(t))
    decreases |s|
  {
    if s == "" {
      assert s + ([c] + t) == [c] + t;
      EventOf(c, t);
    } else {
      assert s + ([c] + t) == [s[0]] + (s[1..] + ([c] + t));
      EventOf(s[0], s[1..] + ([c] + t));
      hide Events;
      SpaceSkipped(s[1..], c, t);
    }
  }

  lemma {:induction false} AttrsSkip(s: string, t: string, done: seq<Attr>, names: string -> int)
    requires Blank(s)
    ensures L.Attrs(Events(s + t), done, names) == L.Attrs(Events(t), done, names)
    decreases |s|
  {
    hide L.Attrs, Events;
    if s == "" {
      assert s + t == t;
    } else {
      assert s + t == [s[0]] + (s[1..] + t);
      SpaceAttrs(s[0], s[1..] + t, done, names);
      AttrsSkip(s[1..], t, done, names);
    }
  }

  // What may follow a value: white space, or the end of the tag.
  predicate AfterValue(t: string) {
    t != "" && (IsSpace(t[0] as nat) || t[0] == '>' || (t[0] == '/' && |t| > 1 && t[1] == '>'))
  }

  // The value from its first character on, and the character behind it.
  lemma ValueRead(w: Written, t: string, names: string -> int)
    requires WrittenOk(w, names) && AfterValue(t)
    ensures WrittenText(w) != ""
    ensures
      var c := WrittenText(w)[0];
      && Plain(c) && c != ' '
      && L.ValuePart(c as nat, Events(WrittenText(w)[1..] + t), names)
         == if w.Quoted? then L.Piece(WrittenValue(w, names), Some(w.quote as nat), Events(t))
            else L.Piece(WrittenValue(w, names), Some(t[0] as nat), Events(t[1..]))
  {
    hide Events, SpelledText, SpelledBytes, AllOk, BareOk, QuotedOk, L.QuotedValue, L.BareValue;
    match w {
      case Quoted(quote, value) =>
        assert WrittenText(w)[1..] + t == SpelledText(value) + ([quote] + t);
        QuotedPart(quote, value, t, names);
      case Bare(first, value) =>
        assert WrittenText(w)[1..] + t == SpelledText(value) + ([t[0]] + t[1..]);
        BareLoads(value, t[0], t[1..], [first], names);
        assert Byte(first as nat) == first;
    }
  }

  lemma QuotedPart(quote: char, value: seq<Spell>, t: string, names: string -> int)
    requires WrittenOk(Quoted(quote, value), names)
    ensures AllOk(value, names)
    ensures L.ValuePart(quote as nat, Events(SpelledText(value) + ([quote] + t)), names)
         == L.Piece(SpelledBytes(value, names), Some(quote as nat), Events(t))
  {
    hide Events, SpelledText, SpelledBytes, AllOk, QuotedOk, L.QuotedValue, L.BareValue;
    QuotedLoads(value, t, "", quote, names);
    assert "" + SpelledBytes(value, names) == SpelledBytes(value, names);
  }

  // The name up to its '='.
  lemma AttrNameReads(a: AttrSyntax, t: string, names: string -> int)
    requires NameOk(a.name) && Blank(a.before)
    ensures
      var c := a.name[0];
      var p := L.AttrName(Events(a.name[1..] + (a.before + (['='] + t))), [c], names);
      && NameChar(c) && p.Piece? && p.text == a.name && L.SkipSpace(p.ch, p.rest) == (Some(61), Events(t))
  {
    var c, r := a.name[0], a.name[1..];
    assert c in a.name && forall x <- r :: x in a.name;
    var b := a.before + (['='] + t);
    var end := b[0];
    assert b == [end] + b[1..];
    SpaceSkipped(a.before, '=', t);
    assert IsSpace(end as nat) || end == '=';
    EventOf(end, b[1..]);
    hide Events, L.AttrName, L.SkipSpace;
    AttrNameLoads(r, end, b[1..], [c], names);
    assert [c] + r == a.name;
  }

  lemma AttrTextParts(a: AttrSyntax, t: string)
    requires a.name != ""
    ensures
      var v := a.after + (WrittenText(a.value) + t);
      AttrSource(a) + t == a.space + ([a.name[0]] + (a.name[1..] + (a.before + (['='] + v))))
  {
    var w := WrittenText(a.value);
    hide WrittenText;
    Joins(a.after, w, t);
    assert "=" + (a.after + w) + t == ['='] + (a.after + w + t);
    Joins(a.before, "=" + (a.after + w), t);
    Joins(a.name, a.before + ("=" + (a.after + w)), t);
    Joins(a.space, a.name + (a.before + ("=" + (a.after + w))), t);
    assert a.name == [a.name[0]] + a.name[1..];
    Joins([a.name[0]], a.name[1..], a.before + (['='] + (a.after + (w + t))));
  }

  lemma OneAttrParts(ch: nat, e: seq<L.Ev>, done: seq<Attr>, name: string, e1: seq<L.Ev>, c: nat, e2: seq<L.Ev>,
                     value: string, end: L.Ev, rest: seq<L.Ev>, names: string -> int)
    requires ch < 128 && NameChar(ch as char) && NoName(done, name)
    requires var p := L.AttrName(e, [Byte(ch)], names);
      p.Piece? && p.text == name && L.SkipSpace(p.ch, p.rest) == (Some(61), e1)
    requires L.SkipSpace(L.First(e1), L.Rest(e1)) == (Some(c), e2)
    requires L.ValuePart(c, e2, names) == L.Piece(value, end, rest)
    ensures L.OneAttr(ch, e, done, names) == Some((done + [Attr(name, Some(value))], end, rest))
  {
    SetNew(done, name, value);
    hide L.AttrName, L.ValuePart, L.SetAttr, AttrIn, L.SkipSpace;
  }

  function AttrsSource(attrs: seq<AttrSyntax>): string {
    if attrs == [] then "" else AttrSource(attrs[0]) + AttrsSource(attrs[1..])
  }

  predicate AllAttrsOk(attrs: seq<AttrSyntax>, names: string -> int) { forall a <- attrs :: AttrOk(a, names) }

  predicate Distinct(attrs: seq<AttrSyntax>) {
    forall i, j :: 0 <= i < j < |attrs| ==> attrs[i].name != attrs[j].name
  }

  function AttrsOf(attrs: seq<AttrSyntax>, names: string -> int): seq<Attr>
    requires AllAttrsOk(attrs, names)
  {
    if attrs == [] then [] else [AttrOf(attrs[0], names)] + AttrsOf(attrs[1..], names)
  }

  // Behind the attributes.
  function TagEnd(space: string, open: bool, t: string): string { space + ((if open then ">" else "/>") + t) }

  lemma EndAfter(attrs: seq<AttrSyntax>, space: string, open: bool, t: string, names: string -> int)
    requires AllAttrsOk(attrs, names) && Blank(space)
    ensures AfterValue(AttrsSource(attrs) + TagEnd(space, open, t))
  {
    if attrs == [] {
      assert AttrsSource(attrs) + TagEnd(space, open, t) == TagEnd(space, open, t);
    } else {
      assert attrs[0] in attrs;
      assert (AttrsSource(attrs) + TagEnd(space, open, t))[0] == attrs[0].space[0];
    }
  }

  // A quoted value leaves its quote, a bare one the character behind it.
  lemma AttrsGoOn(e: seq<L.Ev>, done: seq<Attr>, more: seq<Attr>, end: nat, rest: seq<L.Ev>, t: string, names: string -> int)
    requires e != [] && e[0].Some? && e[0].value < 128 && NameChar(e[0].value as char)
    requires L.OneAttr(e[0].value, e[1..], done, names) == Some((more, Some(end), rest))
    requires AfterValue(t)
    requires ((end == 34 || end == 39) && rest == Events(t)) || (end == t[0] as nat && rest == Events(t[1..]))
    ensures L.Attrs(e, done, names) == L.Attrs(Events(t), more, names)
  {
    if end != 34 && end != 39 {
      EndEvents(t);
      hide Events, L.OneAttr;
    } else {
      hide L.OneAttr, Events;
    }
  }

  lemma EndEvents(t: string)
    requires AfterValue(t)
    ensures Events(t) == [Some(t[0] as nat)] + Events(t[1..])
    ensures t[0] == '/' ==> Events(t[1..]) == [Some(t[1] as nat)] + Events(t[2..])
  {
    assert t == [t[0]] + t[1..];
    EventOf(t[0], t[1..]);
    if t[0] == '/' {
      assert t[1..] == [t[1]] + t[2..];
      EventOf(t[1], t[2..]);
    }
    hide Events;
  }

  lemma OneAttrReads(a: AttrSyntax, t: string, done: seq<Attr>, names: string -> int)
    requires AttrOk(a, names) && NoName(done, a.name) && AfterValue(t)
    ensures L.Attrs(Events(AttrSource(a) + t), done, names) == L.Attrs(Events(t), done + [AttrOf(a, names)], names)
  {
    hide Events, WrittenText, WrittenValue, L.Attrs, L.OneAttr, L.AttrName, L.SkipSpace, L.ValuePart, Blank, QuotedOk, BareOk, AllOk;
    var c, w := a.name[0], WrittenText(a.value);
    AttrNameReads(a, "", names);
    NameCharIs(c);
    ValueRead(a.value, t, names);
    var v := a.after + (w + t);
    var text := a.name[1..] + (a.before + (['='] + v));
    AttrTextParts(a, t);
    AttrsSkip(a.space, [c] + text, done, names);
    EventOf(c, text);
    AttrNameReads(a, v, names);
    assert w + t == [w[0]] + (w[1..] + t);
    SpaceSkipped(a.after, w[0], w[1..] + t);
    var value := WrittenValue(a.value, names);
    var end, rest := if a.value.Quoted? then a.value.quote as nat else t[0] as nat,
                     if a.value.Quoted? then Events(t) else Events(t[1..]);
    OneAttrParts(c as nat, Events(text), done, a.name, Events(v), w[0] as nat, Events(w[1..] + t), value, Some(end),
                 rest, names);
    AttrsGoOn(Events([c] + text), done, done + [Attr(a.name, Some(value))], end, rest, t, names);
  }

  lemma FirstSource(attrs: seq<AttrSyntax>, t: string, names: string -> int)
    requires attrs != [] && AllAttrsOk(attrs, names) && Distinct(attrs)
    ensures AttrOk(attrs[0], names) && AllAttrsOk(attrs[1..], names) && Distinct(attrs[1..])
    ensures AttrsSource(attrs) + t == AttrSource(attrs[0]) + (AttrsSource(attrs[1..]) + t)
    ensures forall a <- attrs[1..] :: a in attrs && a.name != attrs[0].name
  {
    hide AttrSource, AttrOk;
    assert attrs[0] in attrs;
    Joins(AttrSource(attrs[0]), AttrsSource(attrs[1..]), t);
  }

  lemma {:induction false} AttrsRead(attrs: seq<AttrSyntax>, space: string, open: bool, t: string, done: seq<Attr>,
                                     names: string -> int)
    requires AllAttrsOk(attrs, names) && Distinct(attrs) && Blank(space)
    requires forall a <- attrs :: NoName(done, a.name)
    ensures L.Attrs(Events(AttrsSource(attrs) + TagEnd(space, open, t)), done, names)
         == Some((done + AttrsOf(attrs, names), (if open then '>' else '/') as nat, Events(t)))
    decreases |attrs|
  {
    hide Events, L.Attrs, AttrSource, AttrOk, AttrOf, Distinct, Blank, TagEnd;
    var tail := TagEnd(space, open, t);
    if attrs == [] {
      assert "" + tail == tail && done + [] == done;
      EndReads(space, open, t, done, names);
    } else {
      var a := attrs[0];
      FirstSource(attrs, tail, names);
      assert a in attrs;
      EndAfter(attrs[1..], space, open, t, names);
      OneAttrReads(a, AttrsSource(attrs[1..]) + tail, done, names);
      var more := done + [AttrOf(a, names)];
      assert AttrOf(a, names).name == a.name by { AttrNameIs(a, names); }
      forall b | b in attrs[1..] ensures NoName(more, b.name) {
        assert NoName(done, b.name);
      }
      AttrsRead(attrs[1..], space, open, t, more, names);
      assert done + [AttrOf(a, names)] + AttrsOf(attrs[1..], names) == done + ([AttrOf(a, names)] + AttrsOf(attrs[1..], names));
    }
  }

  lemma AttrNameIs(a: AttrSyntax, names: string -> int)
    requires AttrOk(a, names)
    ensures AttrOf(a, names).name == a.name
  {
  }

  lemma EndReads(space: string, open: bool, t: string, done: seq<Attr>, names: string -> int)
    requires Blank(space)
    ensures L.Attrs(Events(TagEnd(space, open, t)), done, names)
         == Some((done, (if open then '>' else '/') as nat, Events(t)))
  {
    AttrsSkip(space, (if open then ">" else "/>") + t, done, names);
    TailLoads(open, t, done, names);
    assert Tail(true) + t == ">" + t;
  }

  // ----- tags -----

  function TagRest(attrs: seq<AttrSyntax>, space: string, open: bool, t: string): string {
    AttrsSource(attrs) + TagEnd(space, open, t)
  }

  lemma RestStarts(attrs: seq<AttrSyntax>, space: string, open: bool, t: string, names: string -> int)
    requires AllAttrsOk(attrs, names) && Blank(space)
    ensures var r := TagRest(attrs, space, open, t);
      && r != [] && EndsTag(r[0])
      && (IsSpace(r[0] as nat) || (attrs == [] && (if open then r == ">" + t else r == "/>" + t)))
  {
    EndAfter(attrs, space, open, t, names);
    if attrs == [] {
      assert TagRest(attrs, space, open, t) == TagEnd(space, open, t);
      if space == "" {
        assert TagEnd(space, open, t) == (if open then ">" else "/>") + t;
      }
    } else {
      assert attrs[0] in attrs;
      assert TagRest(attrs, space, open, t)[0] == attrs[0].space[0];
    }
  }

  // An opening tag, or the tag of an element without a body, from behind its '<'.
  lemma OpenReads(name: string, attrs: seq<AttrSyntax>, space: string, open: bool, t: string, st: L.State,
                  names: string -> int)
    requires NameOk(name) && AllAttrsOk(attrs, names) && Distinct(attrs) && Blank(space) && !L.NoRoom(st)
    ensures L.Tag(st, Events(name + TagRest(attrs, space, open, t)), names)
         == L.Tagged(Opened(st, name, AttrsOf(attrs, names), open), Events(t), false)
  {
    hide *;
    var r := TagRest(attrs, space, open, t);
    RestStarts(attrs, space, open, t, names);
    var c, y := r[0], r[1..];
    assert r == [c] + y && "" + name == name;
    NameParts(name);
    TagNameLoads(name, c, y, "", names);
    OpenTagIs(st, Events(name + r), name, Some(c as nat), Events(y), names);
    if IsSpace(c as nat) {
      SpaceAttrs(c, y, [], names);
      SourceRead(attrs, space, open, t, names);
      OpenTagEnds(st, name, AttrsOf(attrs, names), open, c, Events(y), Events(t), names);
    } else {
      ShortTag(st, name, attrs, open, c, y, t, names);
    }
  }

  lemma SourceRead(attrs: seq<AttrSyntax>, space: string, open: bool, t: string, names: string -> int)
    requires AllAttrsOk(attrs, names) && Distinct(attrs) && Blank(space)
    ensures L.Attrs(Events(TagRest(attrs, space, open, t)), [], names)
         == Some((AttrsOf(attrs, names), (if open then '>' else '/') as nat, Events(t)))
  {
    hide L.Attrs, Events, AttrOk, Distinct;
    AttrsRead(attrs, space, open, t, [], names);
    assert [] + AttrsOf(attrs, names) == AttrsOf(attrs, names);
  }

  // A name with the end of the tag right behind it.
  lemma ShortTag(st: L.State, name: string, attrs: seq<AttrSyntax>, open: bool, c: char, y: string, t: string,
                 names: string -> int)
    requires attrs == [] && [c] + y == (if open then ">" + t else "/>" + t) && !L.NoRoom(st)
    ensures L.OpenTag(st, name, Some(c as nat), Events(y), names)
         == L.Tagged(Opened(st, name, AttrsOf(attrs, names), open), Events(t), false)
  {
    assert c == ([c] + y)[0] && y == ([c] + y)[1..];
    if open {
      assert y == t;
    } else {
      assert y == ['>'] + t;
      EventOf('>', t);
    }
    hide Events, L.Attrs;
  }

  lemma {:induction false} BlankSkipped(s: string, t: string)
    requires Blank(s)
    ensures
      var e := Events(s + (">" + t));
      e != [] && L.SkipTo(L.First(e), L.Rest(e)) == Events(t)
    decreases |s|
  {
    if s == "" {
      assert s + (">" + t) == ['>'] + t;
      EventOf('>', t);
    } else {
      assert s + (">" + t) == [s[0]] + (s[1..] + (">" + t));
      EventOf(s[0], s[1..] + (">" + t));
      hide Events;
      BlankSkipped(s[1..], t);
    }
  }

  lemma CloseReads(name: string, end: string, t: string, st: L.State, names: string -> int)
    requires NameOk(name) && Blank(end) && st.open != [] && st.open[|st.open| - 1].name == name
    ensures L.Tag(st, Events("/" + (name + (end + (">" + t)))), names) == L.Tagged(L.Leave(st), Events(t), false)
  {
    var r := end + (">" + t);
    var c, y := r[0], r[1..];
    assert r == [c] + y && EndsTag(c) && (IsSpace(c as nat) || c == '>');
    NameParts(name);
    BlankSkipped(end, t);
    EventOf(c, y);
    hide *;
    SlashName(name + r, names);
    TagNameLoads(name, c, y, "/", names);
    CloseTagReads(st, Events("/" + (name + r)), name, Some(c as nat), Events(y), Events(t), names);
  }

  lemma CloseTagReads(st: L.State, e: seq<L.Ev>, name: string, ch: L.Ev, rest: seq<L.Ev>, last: seq<L.Ev>, names: string -> int)
    requires st.open != [] && st.open[|st.open| - 1].name == name
    requires L.TagName(e, "", names) == L.Piece("/" + name, ch, rest) && L.SkipTo(ch, rest) == last
    ensures L.Tag(st, e, names) == L.Tagged(L.Leave(st), last, false)
  {
    hide L.TagName, L.Verbatim, L.Declaration, L.NamedNode, L.OpenTag, L.SkipTo;
    assert ("/" + name)[1..] == name && ("/" + name)[0] == '/';
  }

  // ----- documents -----

  // Text, a comment or the like, or an element: with a closing tag behind its children, or without.
  datatype Doc =
    | Chars(text: seq<Spell>)
    | Note(name: string)
    | Elem(name: string, attrs: seq<AttrSyntax>, space: string, closed: bool, kids: seq<Doc>, end: string)

  predicate DocOk(x: Doc, names: string -> int)
    decreases x
  {
    match x
    case Chars(text) => AllOk(text, names)
    case Note(name) => VerbatimOk(name)
    case Elem(name, attrs, space, closed, kids, end) =>
      && NameOk(name) && AllAttrsOk(attrs, names) && Distinct(attrs) && Blank(space) && Blank(end)
      && (!closed ==> kids == []) && forall k <- kids :: DocOk(k, names)
  }

  function DocText(x: Doc): string
    decreases x, 0
  {
    match x
    case Chars(text) => SpelledText(text)
    case Note(name) =>
      if KindOf(name).None? then ""
      else
        var kind := KindOf(name).value;
        if |Start(kind)| > |name| then "" else "<" + (Start(kind) + (Body(kind, name) + ">"))
    case Elem(name, attrs, space, closed, kids, end) =>
      if !closed then "<" + (name + TagRest(attrs, space, false, ""))
      else
        "<" + (name + TagRest(attrs, space, true, DocsText(kids) + ("<" + ("/" + (name + (end + (">" + "")))))))
  }

  function DocsText(xs: seq<Doc>): string
    decreases xs, 1
  {
    if xs == [] then "" else DocText(xs[0]) + DocsText(xs[1..])
  }

  // The tree that is meant.
  function TreeOf(x: Doc, names: string -> int): (r: Xml)
    requires DocOk(x, names)
    ensures r.Leaf? <==> x.Chars?
    decreases x, 0
  {
    match x
    case Chars(text) => Leaf(SpelledBytes(text, names))
    case Note(name) => Branch(name, [], [])
    case Elem(name, attrs, _, _, kids, _) => Branch(name, AttrsOf(attrs, names), TreesOf(kids, names))
  }

  function TreesOf(xs: seq<Doc>, names: string -> int): (r: seq<Xml>)
    requires forall x <- xs :: DocOk(x, names)
    ensures |r| == |xs|
    decreases xs, 1
  {
    if xs == [] then [] else [TreeOf(xs[0], names)] + TreesOf(xs[1..], names)
  }

  // The state behind an element.
  function After(st: L.State, x: Doc, names: string -> int): L.State
    requires DocOk(x, names) && !x.Chars?
  {
    L.AddNode(if x.Elem? && x.closed then st.(opaq := true) else st, Normal(TreeOf(x, names)))
  }

  lemma TagRestText(attrs: seq<AttrSyntax>, space: string, open: bool, u: string, t: string)
    ensures TagRest(attrs, space, open, u) + t == TagRest(attrs, space, open, u + t)
  {
    var e := if open then ">" else "/>";
    hide AttrsSource;
    Joins(e, u, t);
    Joins(space, e + u, t);
    Joins(AttrsSource(attrs), space + (e + u), t);
  }

  function Closing(name: string, end: string, t: string): string { "/" + (name + (end + (">" + t))) }

  lemma ClosingText(name: string, end: string, t: string)
    ensures "<" + ("/" + (name + (end + (">" + "")))) + t == ['<'] + Closing(name, end, t)
  {
    assert "<" + ("/" + (name + (end + (">" + "")))) + t == "<" + ("/" + (name + (end + (">" + t))));
  }

  lemma ElemText(x: Doc, t: string)
    requires x.Elem?
    ensures !x.closed ==> DocText(x) + t == ['<'] + (x.name + TagRest(x.attrs, x.space, false, t))
    ensures x.closed ==>
              DocText(x) + t
              == ['<'] + (x.name + TagRest(x.attrs, x.space, true,
                                           DocsText(x.kids) + (['<'] + Closing(x.name, x.end, t))))
  {
    hide TagRest, DocsText, Closing;
    var rest := if !x.closed then TagRest(x.attrs, x.space, false, "")
                else TagRest(x.attrs, x.space, true,
                             DocsText(x.kids) + ("<" + ("/" + (x.name + (x.end + (">" + ""))))));
    assert DocText(x) == "<" + (x.name + rest);
    Joins("<", x.name + rest, t);
    Joins(x.name, rest, t);
    if !x.closed {
      TagRestText(x.attrs, x.space, false, "", t);
      assert "" + t == t;
    } else {
      var close := "<" + ("/" + (x.name + (x.end + (">" + ""))));
      TagRestText(x.attrs, x.space, true, DocsText(x.kids) + close, t);
      Joins(DocsText(x.kids), close, t);
      ClosingText(x.name, x.end, t);
    }
  }

  lemma ElemParts(x: Doc, names: string -> int)
    requires x.Elem? && DocOk(x, names)
    ensures NameOk(x.name) && AllAttrsOk(x.attrs, names) && Distinct(x.attrs) && Blank(x.space) && Blank(x.end)
    ensures (!x.closed ==> x.kids == []) && forall k <- x.kids :: DocOk(k, names)
  {
  }

  lemma NoBody(st: L.State, x: Doc, names: string -> int)
    requires x.Elem? && DocOk(x, names) && !x.closed
    ensures Opened(st, x.name, AttrsOf(x.attrs, names), false) == After(st, x, names)
    ensures After(st, x, names).buf == st.buf
  {
    assert Merged("", []) == [];
  }

  // The element is closed behind its children.
  lemma BodyEnds(st: L.State, x: Doc, names: string -> int)
    requires x.Elem? && DocOk(x, names) && x.closed && st.buf == ""
    ensures
      var inner := Grown(L.Enter(st, x.name, AttrsOf(x.attrs, names)), Merged("", TreesOf(x.kids, names)));
      && inner.open != [] && inner.open[|inner.open| - 1].name == x.name
      && L.Leave(inner) == After(st, x, names) && After(st, x, names).buf == ""
  {
    var more := Merged("", TreesOf(x.kids, names));
    var inner := Grown(L.Enter(st, x.name, AttrsOf(x.attrs, names)), more);
    assert inner.open[..|st.open|] == st.open;
    assert [] + more == more;
  }

  lemma {:induction false} ElemLoads(x: Doc, t: string, st: L.State, names: string -> int)
    requires x.Elem? && DocOk(x, names) && !L.NoRoom(L.Flush(st))
    ensures L.Load(Events(DocText(x) + t), st, names) == L.Load(Events(t), After(L.Flush(st), x, names), names)
    decreases x, 0
  {
    hide *;
    ElemParts(x, names);
    ElemText(x, t);
    FlushEmpty(st);
    var st1 := L.Flush(st);
    var attrs := AttrsOf(x.attrs, names);
    if !x.closed {
      OpenReads(x.name, x.attrs, x.space, false, t, st1, names);
      NoBody(st1, x, names);
      LoadTag(x.name + TagRest(x.attrs, x.space, false, t), st, After(st1, x, names), Events(t), names);
    } else {
      var close := Closing(x.name, x.end, t);
      var inside := DocsText(x.kids) + (['<'] + close);
      var inner := L.Enter(st1, x.name, attrs);
      EnterIs(st1, x.name, attrs);
      OpenReads(x.name, x.attrs, x.space, true, inside, st1, names);
      LoadTag(x.name + TagRest(x.attrs, x.space, true, inside), st, inner, Events(inside), names);
      DocsLoad(x.kids, ['<'] + close, inner, names);
      var full := PutAll(inner, TreesOf(x.kids, names));
      PutAllGrows(inner, TreesOf(x.kids, names));
      BodyEnds(st1, x, names);
      ClosingReads(x.name, x.end, t, L.Flush(full), names);
      LoadTag(close, full, After(st1, x, names), Events(t), names);
    }
  }

  lemma ClosingReads(name: string, end: string, t: string, st: L.State, names: string -> int)
    requires NameOk(name) && Blank(end) && st.open != [] && st.open[|st.open| - 1].name == name
    ensures L.Tag(st, Events(Closing(name, end, t)), names) == L.Tagged(L.Leave(st), Events(t), false)
  {
    hide L.Tag, Events, L.Leave;
    CloseReads(name, end, t, st, names);
  }

  lemma NoteText(name: string, t: string)
    requires VerbatimOk(name)
    ensures var kind := KindOf(name).value;
      |Start(kind)| <= |name| && DocText(Note(name)) + t == ['<'] + (Start(kind) + (Body(kind, name) + (">" + t)))
  {
    hide EndsOnce, Clean, Body;
    KindStarts(name);
    var kind := KindOf(name).value;
    var b := Body(kind, name);
    Joins("<", Start(kind) + (b + ">"), t);
    Joins(Start(kind), b + ">", t);
    Joins(b, ">", t);
  }

  lemma NoteLoads(x: Doc, t: string, st: L.State, names: string -> int)
    requires x.Note? && DocOk(x, names) && L.Flush(st).open != []
    ensures L.Load(Events(DocText(x) + t), st, names) == L.Load(Events(t), After(L.Flush(st), x, names), names)
  {
    hide L.Load, L.Tag, DocText, Events, KindOf, EndsOnce, Clean;
    FlushEmpty(st);
    KindStarts(x.name);
    NoteText(x.name, t);
    VerbatimTag(L.Flush(st), x.name, t, names);
    NoteAfter(L.Flush(st), x, names);
    var kind := KindOf(x.name).value;
    LoadTag(Start(kind) + (Body(kind, x.name) + (">" + t)), st, After(L.Flush(st), x, names), Events(t), names);
  }

  lemma NoteAfter(st: L.State, x: Doc, names: string -> int)
    requires x.Note? && DocOk(x, names)
    ensures After(st, x, names) == L.AddNode(st, Branch(x.name, [], [])) && After(st, x, names).buf == st.buf
  {
    hide VerbatimOk;
    assert Merged("", []) == [];
  }

  lemma AfterPuts(st: L.State, x: Doc, names: string -> int)
    requires DocOk(x, names) && st.opaq && !x.Chars?
    ensures After(L.Flush(st), x, names) == Put(st, TreeOf(x, names))
  {
    hide Normal, DocOk;
    assert L.Flush(st).opaq;
    assert L.Flush(st).(opaq := true) == L.Flush(st);
  }

  // One piece inside an element.
  lemma {:induction false} DocLoads(x: Doc, t: string, st: L.State, names: string -> int)
    requires DocOk(x, names) && st.opaq && st.open != []
    ensures L.Load(Events(DocText(x) + t), st, names) == L.Load(Events(t), Put(st, TreeOf(x, names)), names)
    decreases x, 1
  {
    FlushKeeps(st);
    if x.Chars? {
      CharsLoad(x, t, st, names);
    } else {
      hide *;
      if x.Elem? {
        ElemLoads(x, t, st, names);
      } else {
        NoteLoads(x, t, st, names);
      }
      AfterPuts(st, x, names);
    }
  }

  lemma FlushKeeps(st: L.State)
    requires st.open != []
    ensures L.Flush(st).open != [] && !L.NoRoom(L.Flush(st))
  {
  }

  lemma CharsLoad(x: Doc, t: string, st: L.State, names: string -> int)
    requires x.Chars? && DocOk(x, names) && st.opaq
    ensures L.Load(Events(DocText(x) + t), st, names) == L.Load(Events(t), Put(st, TreeOf(x, names)), names)
  {
    hide L.Load, Events, SpelledText, SpelledBytes;
    SpelledLoads(x.text, t, st, names);
  }

  lemma DocsFirst(xs: seq<Doc>, t: string, st: L.State, names: string -> int)
    requires forall x <- xs :: DocOk(x, names)
    ensures xs == [] ==> DocsText(xs) + t == t && PutAll(st, TreesOf(xs, names)) == st
    ensures xs != [] ==>
              && DocOk(xs[0], names) && (forall x <- xs[1..] :: DocOk(x, names))
              && DocsText(xs) + t == DocText(xs[0]) + (DocsText(xs[1..]) + t)
              && PutAll(st, TreesOf(xs, names)) == PutAll(Put(st, TreeOf(xs[0], names)), TreesOf(xs[1..], names))
  {
    if xs != [] {
      hide DocText, DocOk, TreeOf, Put;
      assert xs[0] in xs;
      Joins(DocText(xs[0]), DocsText(xs[1..]), t);
      assert TreesOf(xs, names)[1..] == TreesOf(xs[1..], names);
    } else {
      assert "" + t == t;
    }
  }

  lemma {:induction false} DocsLoad(xs: seq<Doc>, t: string, st: L.State, names: string -> int)
    requires (forall x <- xs :: DocOk(x, names)) && st.opaq && st.open != []
    ensures L.Load(Events(DocsText(xs) + t), st, names) == L.Load(Events(t), PutAll(st, TreesOf(xs, names)), names)
    decreases xs, 0
  {
    hide *;
    DocsFirst(xs, t, st, names);
    if xs != [] {
      var rest := DocsText(xs[1..]) + t;
      DocLoads(xs[0], rest, st, names);
      PutGrows(st, TreeOf(xs[0], names));
      DocsLoad(xs[1..], t, Put(st, TreeOf(xs[0], names)), names);
    }
  }

  // ----- whole documents -----

  // White space in front of the root is skipped.
  lemma {:induction false} LeadSkipped(s: string, t: string, names: string -> int)
    requires Blank(s)
    ensures L.Load(Events(s + t), L.START, names) == L.Load(Events(t), L.START, names)
    decreases |s|
  {
    if s == "" {
      assert s + t == t;
    } else {
      assert s + t == [s[0]] + (s[1..] + t);
      EventOf(s[0], s[1..] + t);
      StartIsEmpty();
      hide Events, L.Tag, L.Entity, L.Flush;
      LeadSkipped(s[1..], t, names);
    }
  }

  // White space behind the root changes nothing.
  lemma {:induction false} TailSkipped(s: string, st: L.State, names: string -> int)
    requires Blank(s) && st.open == []
    ensures L.Load(Events(s), st, names) == st.root
    decreases |s|
  {
    if s != "" {
      assert s == [s[0]] + s[1..];
      EventOf(s[0], s[1..]);
      var st' := if st.opaq then st.(buf := st.buf + Bytes(s[0] as nat)) else st.(buf := "");
      hide Events, L.Tag, L.Entity, Bytes;
      TailSkipped(s[1..], st', names);
    }
  }

  lemma RootIs(x: Doc, names: string -> int)
    requires x.Elem? && DocOk(x, names)
    ensures After(L.START, x, names).open == [] && After(L.START, x, names).root == Some(Normal(TreeOf(x, names)))
  {
    hide Normal, DocOk;
  }

  /**
    Loading a document with an element as its root: whatever the spelling of its characters, the
    white space in its tags and the quotes of its attributes, the tree is the one that is meant, with
    text next to text joined and empty text dropped.
   */
  lemma DocumentLoads(lead: string, x: Doc, tail: string, names: string -> int)
    requires Blank(lead) && Blank(tail) && x.Elem? && DocOk(x, names)
    ensures L.LoadString(lead + (DocText(x) + tail), names) == Some(Normal(TreeOf(x, names)))
  {
    LoadIs(lead + (DocText(x) + tail), names);
    hide *;
    LeadSkipped(lead, DocText(x) + tail, names);
    StartIsEmpty();
    ElemLoads(x, tail, L.START, names);
    RootIs(x, names);
    TailSkipped(tail, After(L.START, x, names), names);
  }

  lemma LoadIs(text: string, names: string -> int)
    ensures L.LoadString(text, names) == L.Load(Events(text), L.START, names)
  {
  }

  lemma EndOfText(st: L.State, t: string, names: string -> int)
    requires t == ""
    ensures L.Load(Events(t), st, names) == L.Finish(st)
  {
  }

  lemma HeadFinish(name: string, st: L.State, inner: L.State, more: seq<Xml>)
    requires inner == L.Enter(L.START, name, []) && inner.open != [] && st.open == Grown(inner, more).open
    ensures L.Finish(st) == Some(Branch(name, [], more))
  {
    assert [] + more == more;
  }

  /**
    A processing instruction as the root, with the document behind it: its children are those of
    the document, without the text behind the last tag.
   */
  lemma PrologLoads(lead: string, name: string, xs: seq<Doc>, names: string -> int)
    requires Blank(lead) && VerbatimOk(name) && KindOf(name) == Some(L.Instruction)
    requires forall x <- xs :: DocOk(x, names)
    ensures L.LoadString(lead + (DocText(Note(name)) + DocsText(xs)), names)
         == Some(Branch(name, [], Merged("", Settled(TreesOf(xs, names)))))
  {
    var text := DocText(Note(name)) + DocsText(xs);
    LoadIs(lead + text, names);
    hide *;
    LeadSkipped(lead, text, names);
    var kind, inner, trees := L.Instruction, L.Enter(L.START, name, []), TreesOf(xs, names);
    NoteText(name, DocsText(xs));
    StartIsEmpty();
    EntersEmpty(name);
    VerbatimTag(L.START, name, DocsText(xs), names);
    LoadTag(Start(kind) + (Body(kind, name) + (">" + DocsText(xs))), L.START, inner, Events(DocsText(xs)), names);
    DocsLoad(xs, "", inner, names);
    assert DocsText(xs) + "" == DocsText(xs);
    PutAllStays(inner, trees);
    SettledPut(inner, trees);
    SettledEmpty(inner, Settled(trees));
    EndOfText(PutAll(inner, trees), "", names);
    HeadFinish(name, PutAll(inner, trees), inner, Merged("", Settled(trees)));
  }

  /** An attribute name in quotes is never accepted: its closing quote stands where '=' is expected. */
  lemma QuotedNameFails(ch: nat, e: seq<L.Ev>, attrs: seq<Attr>, names: string -> int)
    requires L.IsQuote(ch)
    ensures L.OneAttr(ch, e, attrs, names) == None
  {
    QuotedNameEnds(e, [Byte(ch)], ch, names);
    hide L.QuotedName;
  }

  lemma {:induction false} QuotedNameEnds(e: seq<L.Ev>, name: string, quote: nat, names: string -> int)
    ensures var p := L.QuotedName(e, name, quote, names);
      p.Piece? ==> p.ch == None || p.ch == Some(quote)
    decreases |e|
  {
    hide L.Decoded, Bytes;
    if e != [] && e[0].Some? {
      match L.Decoded(e[0].value, e[1..], names)
      case None =>
      case Some((ch, rest)) => QuotedNameEnds(rest, name + Bytes(ch), quote, names);
    }
  }
}
