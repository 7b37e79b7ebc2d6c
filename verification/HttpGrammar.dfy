/**
  HTTP messages as they stand on the wire, and what they mean, without a look at the parser: the
  grammar of RFC 7230, with the bytes that the parser takes for each part.
 */
module HttpGrammar {
  import opened HttpStep
  import opened HttpTrace
  import opened Text
  import G = HttpUrlGrammar

  // ---- Characters.

  predicate TokenByte(c: char) {
    'a' <= c <= 'z' || 'A' <= c <= 'Z' || '0' <= c <= '9' || c in "!#$%&'*+-.^_`|~"
  }

  predicate IsToken(s: string) { s != "" && forall i :: 0 <= i < |s| ==> TokenByte(s[i]) }

  predicate Digits(s: string) { s != "" && forall c <- s :: IsDigit(c) }

  predicate Spaces(s: string) { forall i :: 0 <= i < |s| ==> s[i] == ' ' }

  predicate Blanks(s: string) { forall i :: 0 <= i < |s| ==> s[i] == ' ' || s[i] == '\t' }

  // Visible characters, blanks and bytes above 127; no control characters unless the parser is lenient.
  predicate TextByte(lenient: bool, c: char) {
    c != '\r' && c != '\n' && (lenient || c == '\t' || (' ' <= c && c as int != 127))
  }

  predicate FieldText(lenient: bool, s: string) { forall i :: 0 <= i < |s| ==> TextByte(lenient, s[i]) }

  predicate NoLineEnd(s: string) { forall i :: 0 <= i < |s| ==> s[i] != '\r' && s[i] != '\n' }

  // The end of a line; `bare` without its carriage return.
  function Eol(bare: bool): string { if bare then "\n" else "\r\n" }

  // ---- Start lines.

  // A digit on both sides of the dot; `ice` for the protocol of the method SOURCE.
  datatype Version = Version(ice: bool, major: nat, minor: nat)

  predicate VersionOk(v: Version) { v.major < 10 && v.minor < 10 }

  function VersionText(v: Version): string
    requires VersionOk(v)
  {
    (if v.ice then "ICE/" else "HTTP/") + [(v.major + 48) as char, '.', (v.minor + 48) as char]
  }

  // A request line, without a version for a simple request, or a status line, where the reason may be
  // missing together with the space in front of it.
  datatype Line =
    | RequestLine(verb: Method, target: string, simple: bool, version: Version, bare: bool)
    | StatusLine(version: Version, code: string, reason: Option<string>, bare: bool)

  // The target is a URL with an authority, a path or more; the target of CONNECT has no schema.
  predicate WholeTarget(u: G.Url) { !G.NoServer(u) && (u.sep == "://" || (u.schema == "" && u.sep == "")) }

  ghost predicate TargetOk(verb: Method, target: string) {
    exists u: G.Url :: G.UrlOk(verb == CONNECT, u) && G.UrlText(u) == target && WholeTarget(u)
  }

  ghost predicate LineOk(line: Line) {
    VersionOk(line.version)
    && match line
       case RequestLine(verb, target, _, version, _) => TargetOk(verb, target) && (version.ice ==> verb == SOURCE)
       case StatusLine(version, code, reason, _) =>
         && !version.ice && Digits(code) && DecimalValue(code) <= 999
         && (reason.Some? ==> NoLineEnd(reason.value))
  }

  function LineText(line: Line): string
    requires VersionOk(line.version)
  {
    match line
    case RequestLine(verb, target, simple, version, bare) =>
      MethodName(verb) + (" " + (target + ((if simple then "" else " " + VersionText(version)) + Eol(bare))))
    case StatusLine(version, code, reason, bare) =>
      VersionText(version) + (" " + (code + ((if reason.None? then "" else " " + reason.value) + Eol(bare))))
  }

  // ---- Header fields.

  // A member of a list, with the blanks around it.
  datatype Elem = Elem(lead: string, word: string, trail: string)

  datatype Value = Plain(text: string) | Length(digits: string, spaces: string) | List(elems: seq<Elem>)

  // A line that goes on with the value of the line before; it starts with a blank.
  datatype Extra = Extra(text: string, bare: bool)

  datatype Header = Header(name: string, ows: string, value: Value, bare: bool, folds: seq<Extra> := [])

  function ElemText(e: Elem): string { e.lead + (e.word + e.trail) }

  function ListText(elems: seq<Elem>): string {
    if elems == [] then ""
    else ElemText(elems[0]) + if |elems| == 1 then "" else "," + ListText(elems[1..])
  }

  function ValueText(v: Value): string {
    match v
    case Plain(text) => text
    case Length(digits, spaces) => digits + spaces
    case List(elems) => ListText(elems)
  }

  function FoldsText(fs: seq<Extra>): string {
    if fs == [] then "" else fs[0].text + Eol(fs[0].bare) + FoldsText(fs[1..])
  }

  function HeaderText(h: Header): string {
    h.name + (":" + (h.ows + (ValueText(h.value) + (Eol(h.bare) + FoldsText(h.folds)))))
  }

  // The value with what its further lines add: all but the line ends.
  function FoldsValue(fs: seq<Extra>): string { if fs == [] then "" else fs[0].text + FoldsValue(fs[1..]) }

  function WholeValue(h: Header): string { ValueText(h.value) + FoldsValue(h.folds) }

  // The fields that the parser knows, whatever the case of their name.
  datatype Role = OtherField | ConnectionField | LengthField | TransferField | UpgradeField

  function RoleOf(name: string): Role {
    var w := Fold(name);
    if w == "connection" || w == "proxy-connection" then ConnectionField
    else if w == "content-length" then LengthField
    else if w == "transfer-encoding" then TransferField
    else if w == "upgrade" then UpgradeField
    else OtherField
  }

  // The largest length that is accepted: a bit less than 64 bits hold.
  const MAX_LENGTH: nat := 18446744073709551609

  predicate ElemOk(e: Elem) { Blanks(e.lead) && IsToken(e.word) && Blanks(e.trail) }

  predicate ListOk(elems: seq<Elem>) {
    (forall e <- elems :: ElemOk(e)) && (elems != [] ==> elems[0].lead == "")
  }

  predicate ValueOk(lenient: bool, role: Role, v: Value) {
    match role
    case LengthField => v.Length? && Digits(v.digits) && Spaces(v.spaces) && DecimalValue(v.digits) <= MAX_LENGTH
    case ConnectionField => v.List? && ListOk(v.elems)
    case TransferField => v.List? && ListOk(v.elems)
    case _ => v.Plain? && FieldText(lenient, v.text) && (v.text != "" ==> v.text[0] != ' ' && v.text[0] != '\t')
  }

  predicate FoldOk(lenient: bool, f: Extra) {
    f.text != "" && (f.text[0] == ' ' || f.text[0] == '\t') && FieldText(lenient, f.text)
  }

  // Only a plain value may go on, behind its first line.
  predicate HeaderOk(lenient: bool, h: Header) {
    && IsToken(h.name) && Blanks(h.ows) && ValueOk(lenient, RoleOf(h.name), h.value)
    && (h.folds != [] ==> h.value.Plain? && h.value.text != "")
    && forall i :: 0 <= i < |h.folds| ==> FoldOk(lenient, h.folds[i])
  }

  // ---- What the list members mean.

  // `s` is the beginning of `word`, but not all of it.
  predicate PartOfWord(s: string, word: string) { s != "" && s < word }

  // A member behind a comma that stops the reading: a tab in front of it, or an underscore at its
  // start.
  predicate Muted(e: Elem) { '\t' in e.lead || (e.word != "" && e.word[0] == '_') }

  predicate Is(e: Elem, word: string) { Fold(e.word) == word && '\t' !in e.trail }

  // A member that breaks off inside one of the words swallows the comma, and the next member with it.
  predicate Swallows(e: Elem, words: set<string>) {
    e.trail == "" && exists w <- words :: PartOfWord(Fold(e.word), w)
  }

  const OPTIONS: set<string> := {"keep-alive", "close", "upgrade"}

  // The connection options that are read.
  function Heard(elems: seq<Elem>, first: bool): seq<Elem>
    decreases |elems|
  {
    if elems == [] || (!first && Muted(elems[0])) then []
    else if Swallows(elems[0], OPTIONS) then (if |elems| == 1 then [] else Heard(elems[2..], false))
    else [elems[0]] + Heard(elems[1..], false)
  }

  predicate Any(elems: seq<Elem>, word: string) { exists e <- elems :: Is(e, word) }

  predicate HasOption(elems: seq<Elem>, word: string) { Any(Heard(elems, true), word) }

  // The transfer codings end with `chunked`. The word swallows the comma behind it, too.
  predicate EndsChunked(elems: seq<Elem>, first: bool)
    decreases |elems|
  {
    if elems == [] || (!first && Muted(elems[0])) then false
    else if |elems| == 1 then Is(elems[0], "chunked")
    else if Swallows(elems[0], {"chunked"}) || Is(elems[0], "chunked") then EndsChunked(elems[2..], false)
    else EndsChunked(elems[1..], false)
  }

  // ---- What the header fields mean.

  function Number(digits: string): nat { if Digits(digits) then DecimalValue(digits) else 0 }

  datatype Info = Info(flags: Flags, usesTe: bool, length: nat)

  const NOTHING := Info(NO_FLAGS, false, NO_LENGTH)

  function HeaderMeans(i: Info, h: Header): Info {
    // a name that goes on behind "transfer-encoding" counts as well
    var te := i.usesTe || "transfer-encoding" <= Fold(h.name);
    var f := i.flags;
    match (RoleOf(h.name), h.value)
    case (ConnectionField, List(elems)) =>
      var g := f.(keepAlive := f.keepAlive || HasOption(elems, "keep-alive"),
                  close := f.close || HasOption(elems, "close"),
                  connectionUpgrade := f.connectionUpgrade || HasOption(elems, "upgrade"));
      Info(g, te, i.length)
    case (TransferField, List(elems)) => Info(f.(chunked := f.chunked || EndsChunked(elems, true)), te, i.length)
    case (LengthField, Length(digits, _)) => Info(f.(contentLength := true), te, Number(digits))
    case (UpgradeField, Plain(text)) => Info(f.(upgrade := f.upgrade || text != ""), te, i.length)
    case _ => Info(f, te, i.length)
  }

  // No second length.
  predicate Fits(i: Info, h: Header) { RoleOf(h.name) == LengthField ==> !i.flags.contentLength }

  predicate HeadersOk(lenient: bool, i: Info, hs: seq<Header>)
    decreases |hs|
  {
    hs == []
    || (HeaderOk(lenient, hs[0]) && Fits(i, hs[0]) && HeadersOk(lenient, HeaderMeans(i, hs[0]), hs[1..]))
  }

  function HeadersMean(i: Info, hs: seq<Header>): Info
    decreases |hs|
  {
    if hs == [] then i else HeadersMean(HeaderMeans(i, hs[0]), hs[1..])
  }

  function HeadersText(hs: seq<Header>): string {
    if hs == [] then "" else HeaderText(hs[0]) + HeadersText(hs[1..])
  }

  function HeaderEvents(h: Header): Log { [Data(FieldName, h.name), Data(FieldValue, WholeValue(h))] }

  function HeadersEvents(hs: seq<Header>): Log {
    if hs == [] then [] else HeaderEvents(hs[0]) + HeadersEvents(hs[1..])
  }

  // ---- Where the lists mean what the RFC says.

  // No member is cut short, and none behind a comma is muted.
  predicate Ordinary(elems: seq<Elem>, words: set<string>) {
    && (forall i :: 0 <= i < |elems| ==> !Swallows(elems[i], words))
    && (forall i :: 0 < i < |elems| ==> !Muted(elems[i]))
  }

  /** Then every member is heard: an option is set exactly if it is one of them. */
  lemma {:induction false} OrdinaryIsHeard(elems: seq<Elem>, first: bool)
    requires forall i :: 0 <= i < |elems| ==> !Swallows(elems[i], OPTIONS)
    requires forall i :: (if first then 0 else -1) < i < |elems| ==> !Muted(elems[i])
    ensures Heard(elems, first) == elems
    decreases |elems|
  {
    hide Swallows, Muted;
    if elems != [] {
      OrdinaryIsHeard(elems[1..], false);
      assert elems == [elems[0]] + elems[1..];
    }
  }

  lemma OptionIsMember(elems: seq<Elem>, word: string)
    requires Ordinary(elems, OPTIONS)
    ensures HasOption(elems, word) <==> exists e <- elems :: Is(e, word)
  {
    hide Swallows, Muted, Is;
    OrdinaryIsHeard(elems, true);
  }

  /** The coding is chunked exactly if the last member says so, and only that one. */
  lemma {:induction false} ChunkedIsLast(elems: seq<Elem>, first: bool)
    requires elems != [] && forall i :: 0 <= i < |elems| ==> !Swallows(elems[i], {"chunked"})
    requires forall i :: (if first then 0 else -1) < i < |elems| ==> !Muted(elems[i])
    requires forall i :: 0 <= i < |elems| - 1 ==> !Is(elems[i], "chunked")
    ensures EndsChunked(elems, first) <==> Is(elems[|elems| - 1], "chunked")
    decreases |elems|
  {
    hide Swallows, Muted, Is;
    if |elems| > 1 {
      ChunkedIsLast(elems[1..], false);
    }
  }

  /**
    `Connection: c, close`: the first member begins the word and breaks off at the comma, so the
    second one is not seen.
   */
  lemma CutWordHides()
    ensures var elems := [Elem("", "c", ""), Elem(" ", "close", "")];
      ListText(elems) == "c, close" && !HasOption(elems, "close")
  {
    var elems := [Elem("", "c", ""), Elem(" ", "close", "")];
    assert Fold("c") == "c" && "c" == "close"[..1];
    assert PartOfWord(Fold(elems[0].word), "close") && "close" in OPTIONS;
    assert elems[1..] == [elems[1]];
    assert Heard(elems, true) == Heard([], false) == [];
  }

  /** `Connection: x, _y, close`: the member with the underscore ends the reading. */
  lemma UnderscoreMutes(elems: seq<Elem>, first: bool)
    requires elems != [] && !first && elems[0].word != "" && elems[0].word[0] == '_'
    ensures Heard(elems, first) == [] && !EndsChunked(elems, first)
  {
  }

  /** `Transfer-Encoding: chunked, chunked` is not taken for chunked. */
  lemma TwiceChunked()
    ensures var elems := [Elem("", "chunked", ""), Elem(" ", "chunked", "")];
      !EndsChunked(elems, true)
  {
    var elems := [Elem("", "chunked", ""), Elem(" ", "chunked", "")];
    assert Fold("chunked") == "chunked" by { FoldsLower("chunked"); }
    assert Is(elems[0], "chunked");
    assert elems[2..] == [];
  }

  lemma {:induction false} FoldsLower(s: string)
    requires forall i :: 0 <= i < |s| ==> !IsUpper(s[i])
    ensures Fold(s) == s
  {
    if s != "" {
      FoldsLower(s[1..]);
      assert s == [s[0]] + s[1..];
    }
  }
}
