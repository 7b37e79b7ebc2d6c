/**
  What a URL is, without the automata: a schema, an authority, a path, a query and a fragment, each
  from its own characters.
 */
module HttpUrlGrammar {
  import opened HttpChars
  import opened HttpStep
  import opened HttpUrlParts
  import opened Text

  // ---- The five parts.

  // A fragment: behind at least one '#', of which only those in front of its text are skipped.
  datatype Frag = Frag(hashes: nat, text: string)

  // `sep` is "://" behind a schema; a shorter one belongs to a URL that breaks off.
  datatype Url = Url(schema: string, sep: string, server: string, path: string, query: Option<string>,
                     frag: Option<Frag>)

  function Hashes(n: nat): (s: string)
    ensures |s| == n && forall i :: 0 <= i < n ==> s[i] == '#'
  {
    seq(n, i => '#')
  }

  function QueryText(q: Option<string>): string { if q.None? then "" else "?" + q.value }

  function FragText(f: Option<Frag>): string { if f.None? then "" else Hashes(f.value.hashes) + f.value.text }

  function UrlText(u: Url): string {
    u.schema + u.sep + u.server + u.path + QueryText(u.query) + FragText(u.frag)
  }

  predicate Visible(c: char) { '!' <= c <= '~' }

  predicate ServerByte(c: char) {
    'a' <= c <= 'z' || 'A' <= c <= 'Z' || '0' <= c <= '9' || c in "-_.!~*'()%;:&=+$,[]@"
  }

  predicate Letters(s: string) { forall i :: 0 <= i < |s| ==> 'a' <= s[i] <= 'z' || 'A' <= s[i] <= 'Z' }

  // An authority: no two '@' next to each other.
  predicate ServerOk(s: string) {
    && (forall i :: 0 <= i < |s| ==> ServerByte(s[i]))
    && (forall i :: 0 < i < |s| ==> s[i - 1] != '@' || s[i] != '@')
  }

  predicate PathOk(s: string) {
    forall i :: 0 <= i < |s| ==> Visible(s[i]) && s[i] != '?' && s[i] != '#'
  }

  predicate QueryOk(s: string) { forall i :: 0 <= i < |s| ==> Visible(s[i]) && s[i] != '#' }

  predicate FragOk(f: Frag) {
    f.hashes > 0 && (f.text != "" ==> f.text[0] != '#') && forall i :: 0 <= i < |f.text| ==> Visible(f.text[i])
  }

  predicate PartsOk(u: Url) {
    && Letters(u.schema) && ServerOk(u.server) && PathOk(u.path)
    && (u.query.Some? ==> QueryOk(u.query.value)) && (u.frag.Some? ==> FragOk(u.frag.value))
  }

  // Nothing behind the schema and its separator, or behind the authority.
  predicate NoServer(u: Url) { u.server == "" && NoPath(u) }

  predicate NoPath(u: Url) { u.path == "" && u.query.None? && u.frag.None? }

  // How the parts go together: the target of CONNECT starts with the authority, any other URL with
  // a schema or a path.
  predicate Shape(isConnect: bool, u: Url) {
    && (u.sep in {"", ":", ":/", "://"})
    && (u.schema == "" ==> u.sep == "")
    && (isConnect ==> u.schema == "")
    && (!isConnect && u.sep != "://" ==> u.server == "")
    && (!isConnect && u.sep != "://" && (u.schema != "" || u.path == "") ==> NoPath(u))
    && (u.path != "" ==> u.path[0] == '/' || (u.path[0] == '*' && !isConnect && u.schema == ""))
    && (u.path == "" && u.query.None? ==> u.frag.None?)
  }

  predicate UrlOk(isConnect: bool, u: Url) { PartsOk(u) && Shape(isConnect, u) }

  // ---- The automaton on such a text.

  function StateOf(isConnect: bool, u: Url): State {
    if u.frag.Some? then (if u.frag.value.text == "" then ReqFragmentStart else ReqFragment)
    else if u.query.Some? then (if u.query.value == "" then ReqQueryStringStart else ReqQueryString)
    else if u.path != "" then ReqPath
    else if u.server != "" then (if u.server[|u.server| - 1] == '@' then ReqServerWithAt else ReqServer)
    else if u.sep == "://" || isConnect then ReqServerStart
    else if u.sep == ":/" then ReqSchemaSlashSlash
    else if u.sep == ":" then ReqSchemaSlash
    else if u.schema != "" then ReqSchema
    else ReqSpacesBeforeUrl
  }

  function Front(s: string): string
    requires s != ""
  {
    s[..|s| - 1]
  }

  function LastOf(s: string): char
    requires s != ""
  {
    s[|s| - 1]
  }

  // The URL without its last byte.
  function Shorter(u: Url): Url
    requires UrlText(u) != "" && (u.frag.Some? ==> u.frag.value.hashes > 0)
  {
    if u.frag.Some? then
      var f := u.frag.value;
      if f.text != "" then u.(frag := Some(f.(text := Front(f.text))))
      else if f.hashes > 1 then u.(frag := Some(f.(hashes := f.hashes - 1)))
      else u.(frag := None)
    else if u.query.Some? then u.(query := if u.query.value == "" then None else Some(Front(u.query.value)))
    else if u.path != "" then u.(path := Front(u.path))
    else if u.server != "" then u.(server := Front(u.server))
    else if u.sep != "" then u.(sep := Front(u.sep))
    else u.(schema := Front(u.schema))
  }

  // The text of the parts in front of the query and the fragment.
  function HeadText(u: Url): string { u.schema + u.sep + u.server + u.path }

  lemma ShorterText(u: Url)
    requires UrlText(u) != "" && PartsOk(u)
    ensures UrlText(Shorter(u)) == Front(UrlText(u))
  {
    var v := Shorter(u);
    if u.frag.Some? {
      assert FragText(v.frag) == Front(FragText(u.frag));
      assert UrlText(v) == HeadText(u) + QueryText(u.query) + FragText(v.frag);
    } else if u.query.Some? {
      assert QueryText(v.query) == Front(QueryText(u.query));
      assert UrlText(v) == HeadText(u) + QueryText(v.query) + "";
    } else {
      ShorterHead(u);
    }
  }

  lemma ShorterHead(u: Url)
    requires UrlText(u) != "" && u.query.None? && u.frag.None?
    ensures UrlText(Shorter(u)) == Front(UrlText(u))
  {
    assert UrlText(u) == HeadText(u);
    assert UrlText(Shorter(u)) == HeadText(Shorter(u));
  }

  lemma Separators(sep: string)
    requires sep in {":", ":/", "://"}
    ensures Front(sep) in {"", ":", ":/", "://"} && Front(sep) != "://"
  {
    assert Front(":") == "" && Front(":/") == ":" && Front("://") == ":/";
  }

  lemma FrontOk(s: string)
    requires s != ""
    ensures Letters(s) ==> Letters(Front(s))
    ensures ServerOk(s) ==> ServerOk(Front(s))
    ensures PathOk(s) ==> PathOk(Front(s))
    ensures QueryOk(s) ==> QueryOk(Front(s))
    ensures Front(s) != "" ==> Front(s)[0] == s[0]
  {
  }

  lemma ShorterOk(isConnect: bool, u: Url)
    requires UrlText(u) != "" && UrlOk(isConnect, u)
    ensures UrlOk(isConnect, Shorter(u))
  {
    if u.frag.Some? {
    } else if u.query.Some? {
      if u.query.value != "" {
        FrontOk(u.query.value);
      }
    } else if u.path != "" {
      FrontOk(u.path);
    } else if u.server != "" {
      FrontOk(u.server);
    } else if u.sep != "" {
      Separators(u.sep);
    } else {
      FrontOk(u.schema);
    }
    hide Letters, ServerOk, PathOk, QueryOk, Front;
  }

  // ---- One byte.

  lemma VisibleByte(c: char)
    ensures Visible(c) && c != '#' && c != '?' <==> IsUrlChar(c)
    ensures Visible(c) ==> c !in " \r\n\t" && c as int != 12
  {
  }

  lemma LetterByte(c: char)
    ensures 'a' <= c <= 'z' || 'A' <= c <= 'Z' <==> IsAlpha(c)
    ensures IsAlpha(c) ==> Visible(c) && c != '#' && c != '?'
  {
  }

  lemma ServerByteIs(c: char)
    ensures ServerByte(c) <==> IsUserinfoChar(c) || c == '[' || c == ']' || c == '@'
    ensures ServerByte(c) ==> Visible(c) && c != '/' && c != '?' && c != '#'
  {
    LetterByte(c);
  }

  predicate FragState(s: State) { s == ReqFragmentStart || s == ReqFragment }

  predicate QueryState(s: State) { s == ReqQueryStringStart || s == ReqQueryString }

  predicate ServerState(s: State) { s == ReqServerStart || s == ReqServer || s == ReqServerWithAt }

  // The moves of the automaton, with the classes of this module.

  lemma FragMove(s: State, c: char)
    requires FragState(s)
    ensures ParseUrlChar(s, c)
         == if !Visible(c) then Dead
            else if s == ReqFragmentStart && c == '#' then ReqFragmentStart else ReqFragment
  {
    VisibleByte(c);
    hide IsUrlChar;
  }

  lemma QueryMove(s: State, c: char)
    requires QueryState(s)
    ensures ParseUrlChar(s, c)
         == if !Visible(c) then Dead else if c == '#' then ReqFragmentStart else ReqQueryString
  {
    VisibleByte(c);
    hide IsUrlChar;
  }

  lemma PathMove(c: char)
    ensures ParseUrlChar(ReqPath, c)
         == if !Visible(c) then Dead
            else if c == '?' then ReqQueryStringStart else if c == '#' then ReqFragmentStart else ReqPath
  {
    VisibleByte(c);
    hide IsUrlChar;
  }

  lemma ServerCharIs(c: char)
    ensures ServerChar(c)
         == if c == '/' then ReqPath
            else if c == '?' then ReqQueryStringStart
            else if c == '@' then ReqServerWithAt
            else if ServerByte(c) then ReqServer
            else Dead
    ensures c in " \r\n\t" || c as int == 12 ==> ServerChar(c) == Dead && c != '@'
  {
    ServerByteIs(c);
    VisibleByte(c);
    hide IsUserinfoChar, ServerByte, IsUrlChar;
  }

  lemma ServerMove(s: State, c: char)
    requires ServerState(s)
    ensures ParseUrlChar(s, c)
         == if c == '/' then ReqPath
            else if c == '?' then ReqQueryStringStart
            else if c == '@' then (if s == ReqServerWithAt then Dead else ReqServerWithAt)
            else if ServerByte(c) then ReqServer
            else Dead
  {
    ServerCharIs(c);
    hide ServerByte, ServerChar, IsUrlChar, QueryChar, IsAlpha;
  }

  lemma SchemaMove(s: State, c: char)
    requires s == ReqSchema || s == ReqSchemaSlash || s == ReqSchemaSlashSlash || s == ReqSpacesBeforeUrl
    ensures
      var letter := 'a' <= c <= 'z' || 'A' <= c <= 'Z';
      ParseUrlChar(s, c)
      == match s
         case ReqSchema => if letter then ReqSchema else if c == ':' then ReqSchemaSlash else Dead
         case ReqSchemaSlash => if c == '/' then ReqSchemaSlashSlash else Dead
         case ReqSchemaSlashSlash => if c == '/' then ReqServerStart else Dead
         case _ => if letter then ReqSchema else if c == '/' || c == '*' then ReqPath else Dead
  {
    VisibleByte(c);
    LetterByte(c);
    hide IsAlpha, Visible, IsUrlChar;
  }

  // ---- The state after such a text.

  lemma LastOfUrl(u: Url)
    requires UrlText(u) != ""
    ensures FragText(u.frag) != "" ==> LastOf(UrlText(u)) == LastOf(FragText(u.frag))
    ensures u.frag.None? && u.query.Some? ==> LastOf(UrlText(u)) == LastOf(QueryText(u.query))
    ensures u.frag.None? && u.query.None? && u.path != "" ==> LastOf(UrlText(u)) == LastOf(u.path)
    ensures u.frag.None? && u.query.None? && u.path == "" && u.server != "" ==> LastOf(UrlText(u)) == LastOf(u.server)
    ensures NoServer(u) && u.sep != "" ==> LastOf(UrlText(u)) == LastOf(u.sep)
    ensures NoServer(u) && u.sep == "" ==> UrlText(u) == u.schema
  {
    hide FragText, QueryText;
    EmptyTail(u);
  }

  lemma EmptyTail(u: Url)
    ensures u.frag.None? ==> FragText(u.frag) == ""
    ensures u.query.None? ==> QueryText(u.query) == ""
    ensures u.query.Some? ==> QueryText(u.query) != ""
  {
  }

  lemma AfterFrag(isConnect: bool, u: Url)
    requires UrlOk(isConnect, u) && u.frag.Some?
    ensures UrlText(u) != ""
    ensures StateOf(isConnect, u) == ParseUrlChar(StateOf(isConnect, Shorter(u)), LastOf(UrlText(u)))
  {
    var f := u.frag.value;
    assert FragText(u.frag) != "" && LastOf(FragText(u.frag)) == if f.text == "" then '#' else LastOf(f.text);
    assert UrlText(u) != "";
    LastOfUrl(u);
    hide ParseUrlChar, UrlText;
    var v := Shorter(u);
    if v.frag.Some? {
      FragMove(StateOf(isConnect, v), LastOf(UrlText(u)));
    } else if v.query.Some? {
      QueryMove(StateOf(isConnect, v), '#');
    } else {
      PathMove('#');
    }
  }

  lemma AfterQuery(isConnect: bool, u: Url)
    requires UrlOk(isConnect, u) && u.frag.None? && u.query.Some?
    ensures UrlText(u) != ""
    ensures StateOf(isConnect, u) == ParseUrlChar(StateOf(isConnect, Shorter(u)), LastOf(UrlText(u)))
  {
    assert UrlText(u) != "";
    LastOfUrl(u);
    hide ParseUrlChar, UrlText;
    var v := Shorter(u);
    if v.query.Some? {
      QueryMove(StateOf(isConnect, v), LastOf(UrlText(u)));
    } else if v.path != "" {
      PathMove('?');
    } else {
      ServerMove(StateOf(isConnect, v), '?');
    }
  }

  lemma AfterPath(isConnect: bool, u: Url)
    requires UrlOk(isConnect, u) && u.frag.None? && u.query.None? && u.path != ""
    ensures UrlText(u) != ""
    ensures StateOf(isConnect, u) == ParseUrlChar(StateOf(isConnect, Shorter(u)), LastOf(UrlText(u)))
  {
    assert UrlText(u) != "";
    LastOfUrl(u);
    hide ParseUrlChar, UrlText;
    var v := Shorter(u);
    if v.path != "" {
      PathMove(LastOf(u.path));
    } else if isConnect || v.sep == "://" {
      ServerMove(StateOf(isConnect, v), '/');
    } else {
      SchemaMove(ReqSpacesBeforeUrl, LastOf(u.path));
    }
  }

  lemma AfterServer(isConnect: bool, u: Url)
    requires UrlOk(isConnect, u) && NoPath(u) && u.server != ""
    ensures UrlText(u) != ""
    ensures StateOf(isConnect, u) == ParseUrlChar(StateOf(isConnect, Shorter(u)), LastOf(UrlText(u)))
  {
    assert UrlText(u) != "";
    LastOfUrl(u);
    hide ParseUrlChar, UrlText;
    ServerByteIs(LastOf(u.server));
    ServerMove(StateOf(isConnect, Shorter(u)), LastOf(u.server));
  }

  lemma AfterSchema(isConnect: bool, u: Url)
    requires UrlOk(isConnect, u) && NoServer(u) && UrlText(u) != ""
    ensures StateOf(isConnect, u) == ParseUrlChar(StateOf(isConnect, Shorter(u)), LastOf(UrlText(u)))
  {
    LastOfUrl(u);
    if u.sep != "" {
      Separators(u.sep);
      assert Front(":") == "" && Front(":/") == ":" && Front("://") == ":/";
    }
    hide ParseUrlChar, UrlText;
    SchemaMove(StateOf(isConnect, Shorter(u)), LastOf(UrlText(u)));
  }

  lemma ShorterState(isConnect: bool, u: Url)
    requires UrlText(u) != "" && UrlOk(isConnect, u)
    ensures StateOf(isConnect, u) == ParseUrlChar(StateOf(isConnect, Shorter(u)), LastOf(UrlText(u)))
  {
    hide ParseUrlChar, UrlText, StateOf, UrlOk, Shorter;
    if u.frag.Some? {
      AfterFrag(isConnect, u);
    } else if u.query.Some? {
      AfterQuery(isConnect, u);
    } else if u.path != "" {
      AfterPath(isConnect, u);
    } else if u.server != "" {
      AfterServer(isConnect, u);
    } else {
      AfterSchema(isConnect, u);
    }
  }

  // ---- One byte more.

  function Longer(isConnect: bool, u: Url, c: char): Url {
    var s := StateOf(isConnect, u);
    if FragState(s) && u.frag.Some? then
      var f := u.frag.value;
      u.(frag := Some(if f.text == "" && c == '#' then f.(hashes := f.hashes + 1) else f.(text := f.text + [c])))
    else if c == '#' then u.(frag := Some(Frag(1, "")))
    else if QueryState(s) && u.query.Some? then u.(query := Some(u.query.value + [c]))
    else if c == '?' then u.(query := Some(""))
    else if s == ReqPath || (ServerState(s) && c == '/') then u.(path := u.path + [c])
    else if ServerState(s) then u.(server := u.server + [c])
    else if s == ReqSchemaSlash || s == ReqSchemaSlashSlash || (s == ReqSchema && c == ':') then u.(sep := u.sep + [c])
    else if c == '/' || c == '*' then u.(path := [c])
    else u.(schema := u.schema + [c])
  }

  // The move is legal and the longer text is its reading.
  ghost predicate Grows(isConnect: bool, u: Url, c: char) {
    var v := Longer(isConnect, u, c);
    && UrlOk(isConnect, v) && UrlText(v) == UrlText(u) + [c]
    && StateOf(isConnect, v) == ParseUrlChar(StateOf(isConnect, u), c)
  }

  lemma LongerFrag(isConnect: bool, u: Url, c: char)
    requires u.frag.Some?
    ensures
      var f := u.frag.value;
      Longer(isConnect, u, c)
      == u.(frag := Some(if f.text == "" && c == '#' then f.(hashes := f.hashes + 1) else f.(text := f.text + [c])))
  {
  }

  lemma MoreFrag(f: Frag, c: char)
    requires FragOk(f) && Visible(c)
    ensures
      var g := if f.text == "" && c == '#' then f.(hashes := f.hashes + 1) else f.(text := f.text + [c]);
      FragOk(g) && FragText(Some(g)) == FragText(Some(f)) + [c]
  {
    hide Visible;
  }

  lemma GrowsFrag(isConnect: bool, u: Url, c: char)
    requires UrlOk(isConnect, u) && u.frag.Some? && ParseUrlChar(StateOf(isConnect, u), c) != Dead
    ensures Grows(isConnect, u, c)
  {
    FragMove(StateOf(isConnect, u), c);
    LongerFrag(isConnect, u, c);
    MoreFrag(u.frag.value, c);
    hide ParseUrlChar, Letters, ServerOk, PathOk, QueryOk, Longer, FragOk, FragText;
    var v := Longer(isConnect, u, c);
    assert UrlText(v) == HeadText(u) + QueryText(u.query) + (FragText(u.frag) + [c]);
  }

  lemma LongerQuery(isConnect: bool, u: Url, c: char)
    requires u.frag.None? && u.query.Some?
    ensures Longer(isConnect, u, c)
         == if c == '#' then u.(frag := Some(Frag(1, ""))) else u.(query := Some(u.query.value + [c]))
  {
  }

  lemma QueryGrows(u: Url, c: char)
    requires u.frag.None? && u.query.Some?
    ensures UrlText(u.(frag := Some(Frag(1, "")))) == UrlText(u) + ['#']
    ensures UrlText(u.(query := Some(u.query.value + [c]))) == UrlText(u) + [c]
  {
    hide HeadText;
    assert Hashes(1) == ['#'];
    assert QueryText(Some(u.query.value + [c])) == QueryText(u.query) + [c];
  }

  lemma GrowsQuery(isConnect: bool, u: Url, c: char)
    requires UrlOk(isConnect, u) && u.frag.None? && u.query.Some?
    requires ParseUrlChar(StateOf(isConnect, u), c) != Dead
    ensures Grows(isConnect, u, c)
  {
    QueryMove(StateOf(isConnect, u), c);
    LongerQuery(isConnect, u, c);
    QueryGrows(u, c);
    hide ParseUrlChar, Letters, ServerOk, PathOk, Longer, UrlText;
  }

  lemma LongerPath(isConnect: bool, u: Url, c: char)
    requires u.frag.None? && u.query.None? && u.path != ""
    ensures Longer(isConnect, u, c)
         == if c == '#' then u.(frag := Some(Frag(1, ""))) else if c == '?' then u.(query := Some(""))
            else u.(path := u.path + [c])
  {
  }

  lemma PathText(u: Url, c: char)
    requires u.frag.None? && u.query.None?
    ensures UrlText(u) == HeadText(u)
    ensures UrlText(u.(frag := Some(Frag(1, "")))) == HeadText(u) + ['#']
    ensures UrlText(u.(query := Some(""))) == HeadText(u) + ['?']
    ensures UrlText(u.(path := u.path + [c])) == HeadText(u) + [c]
  {
    assert Hashes(1) == ['#'];
  }

  lemma GrowsPath(isConnect: bool, u: Url, c: char)
    requires UrlOk(isConnect, u) && u.frag.None? && u.query.None? && u.path != ""
    requires ParseUrlChar(StateOf(isConnect, u), c) != Dead
    ensures Grows(isConnect, u, c)
  {
    PathMove(c);
    LongerPath(isConnect, u, c);
    PathText(u, c);
    hide ParseUrlChar, Letters, ServerOk, Longer, UrlText;
  }

  lemma ServerGrows(s: string, c: char)
    requires ServerOk(s) && (ServerByte(c) || c == '@')
    requires c == '@' && s != "" ==> LastOf(s) != '@'
    ensures ServerOk(s + [c])
  {
    ServerByteIs(c);
    hide ServerByte;
  }

  lemma LongerRest(isConnect: bool, u: Url, c: char)
    requires NoPath(u) && ServerState(StateOf(isConnect, u)) && (c == '/' || c == '?')
    ensures Longer(isConnect, u, c) == if c == '?' then u.(query := Some("")) else u.(path := u.path + [c])
  {
    hide ParseUrlChar;
  }

  // Behind the authority comes the path or the query.
  lemma GrowsRest(isConnect: bool, u: Url, c: char)
    requires UrlOk(isConnect, u) && NoPath(u) && ServerState(StateOf(isConnect, u)) && (c == '/' || c == '?')
    ensures Grows(isConnect, u, c)
  {
    hide ParseUrlChar, Letters, ServerOk, Longer, UrlText;
    ServerMove(StateOf(isConnect, u), c);
    LongerRest(isConnect, u, c);
    PathText(u, c);
    assert u.path + [c] == [c];
  }

  lemma LongerServerOk(isConnect: bool, u: Url, server: string)
    requires UrlOk(isConnect, u) && NoPath(u) && (isConnect || u.sep == "://") && ServerOk(server)
    ensures UrlOk(isConnect, u.(server := server))
  {
    hide Letters, ServerOk;
  }

  lemma ServerStateIs(isConnect: bool, u: Url)
    requires UrlOk(isConnect, u) && NoPath(u) && ServerState(StateOf(isConnect, u))
    ensures (isConnect || u.sep == "://") && ServerOk(u.server)
    ensures StateOf(isConnect, u) == ReqServerWithAt <==> u.server != "" && LastOf(u.server) == '@'
  {
    hide Letters, ServerOk;
  }

  lemma LongerServer(isConnect: bool, u: Url, c: char)
    requires ServerState(StateOf(isConnect, u)) && c != '/' && c != '?' && c != '#'
    ensures Longer(isConnect, u, c) == u.(server := u.server + [c])
  {
  }

  lemma ServerText(isConnect: bool, u: Url, server: string)
    requires NoPath(u) && server != ""
    ensures var v := u.(server := server);
      && UrlText(v) == u.schema + u.sep + server
      && StateOf(isConnect, v) == if LastOf(server) == '@' then ReqServerWithAt else ReqServer
  {
  }

  lemma GrowsServer(isConnect: bool, u: Url, c: char)
    requires UrlOk(isConnect, u) && NoPath(u) && ServerState(StateOf(isConnect, u)) && c != '/' && c != '?'
    requires ParseUrlChar(StateOf(isConnect, u), c) != Dead
    ensures Grows(isConnect, u, c)
  {
    ServerMove(StateOf(isConnect, u), c);
    ServerByteIs(c);
    ServerStateIs(isConnect, u);
    ServerGrows(u.server, c);
    LongerServerOk(isConnect, u, u.server + [c]);
    LongerServer(isConnect, u, c);
    ServerText(isConnect, u, u.server + [c]);
    if u.server != "" {
      ServerText(isConnect, u, u.server);
    }
    hide ParseUrlChar, ServerByte, ServerOk, UrlOk, Longer, StateOf, UrlText;
    NoServerText(u);
    assert u.schema + u.sep + (u.server + [c]) == u.schema + u.sep + u.server + [c];
  }

  lemma NoServerText(u: Url)
    requires NoPath(u)
    ensures UrlText(u) == u.schema + u.sep + u.server
  {
  }

  lemma SchemaOk(u: Url, schema: string)
    requires UrlOk(false, u) && NoServer(u) && u.sep == "" && Letters(schema) && schema != ""
    ensures UrlOk(false, u.(schema := schema)) && StateOf(false, u.(schema := schema)) == ReqSchema
  {
    hide Letters;
  }

  lemma LongerSchema(u: Url, c: char)
    requires NoServer(u) && u.sep == "" && ('a' <= c <= 'z' || 'A' <= c <= 'Z')
    ensures Longer(false, u, c) == u.(schema := u.schema + [c])
    ensures StateOf(false, u) == if u.schema == "" then ReqSpacesBeforeUrl else ReqSchema
  {
  }

  lemma GrowsSchema(u: Url, c: char)
    requires UrlOk(false, u) && NoServer(u) && u.sep == "" && ('a' <= c <= 'z' || 'A' <= c <= 'Z')
    ensures Grows(false, u, c)
  {
    LongerSchema(u, c);
    SchemaMove(StateOf(false, u), c);
    FirstText(u, c);
    NoServerText(u);
    SchemaOk(u, u.schema + [c]);
    hide ParseUrlChar, UrlText, StateOf, Longer, UrlOk, Letters;
    assert u.schema + u.sep + u.server + [c] == u.schema + [c];
  }

  lemma LongerFirst(u: Url, c: char)
    requires NoServer(u) && u.sep == "" && !('a' <= c <= 'z' || 'A' <= c <= 'Z')
    ensures u.schema != "" && c == ':' ==> Longer(false, u, c) == u.(sep := ":")
    ensures u.schema == "" && (c == '/' || c == '*') ==> Longer(false, u, c) == u.(path := [c])
    ensures StateOf(false, u) == if u.schema == "" then ReqSpacesBeforeUrl else ReqSchema
    ensures StateOf(false, u.(sep := ":")) == ReqSchemaSlash && StateOf(false, u.(path := [c])) == ReqPath
  {
    assert [':'] == ":";
  }

  lemma FirstOk(u: Url, c: char)
    requires UrlOk(false, u) && NoServer(u) && u.sep == ""
    ensures u.schema != "" ==> UrlOk(false, u.(sep := ":"))
    ensures u.schema == "" && (c == '/' || c == '*') ==> UrlOk(false, u.(path := [c]))
  {
    hide Letters, ServerOk;
  }

  lemma GrowsFirst(u: Url, c: char)
    requires UrlOk(false, u) && NoServer(u) && u.sep == ""
    requires !('a' <= c <= 'z' || 'A' <= c <= 'Z') && ParseUrlChar(StateOf(false, u), c) != Dead
    ensures Grows(false, u, c)
  {
    LongerFirst(u, c);
    FirstOk(u, c);
    SchemaMove(StateOf(false, u), c);
    FirstText(u, c);
    NoServerText(u);
    hide ParseUrlChar, UrlText, StateOf, Longer, UrlOk;
    assert u.schema + u.sep + u.server + [c] == u.schema + [c];
    if u.schema == "" {
      assert c == '/' || c == '*';
    } else {
      assert c == ':' && [c] == ":";
    }
  }

  lemma FirstText(u: Url, c: char)
    requires NoServer(u) && u.sep == ""
    ensures UrlText(u.(sep := [c])) == u.schema + [c]
    ensures UrlText(u.(schema := u.schema + [c])) == u.schema + [c]
    ensures u.schema == "" ==> UrlText(u.(path := [c])) == [c]
  {
  }

  lemma GrowsSeparator(isConnect: bool, u: Url, c: char)
    requires UrlOk(isConnect, u) && NoServer(u) && u.sep in {":", ":/"}
    requires ParseUrlChar(StateOf(isConnect, u), c) != Dead
    ensures Grows(isConnect, u, c)
  {
    SchemaMove(StateOf(isConnect, u), c);
    hide ParseUrlChar, Letters;
    var v := Longer(isConnect, u, c);
    assert ":" + ['/'] == ":/" && ":/" + ['/'] == "://";
    assert UrlText(v) == u.schema + u.sep + [c];
  }

  lemma StateParts(isConnect: bool, u: Url)
    requires UrlOk(isConnect, u) && NoPath(u) && !ServerState(StateOf(isConnect, u))
    ensures NoServer(u) && !isConnect && (u.sep == "" || u.sep == ":" || u.sep == ":/")
  {
  }

  lemma LongerIs(isConnect: bool, u: Url, c: char)
    requires UrlOk(isConnect, u) && ParseUrlChar(StateOf(isConnect, u), c) != Dead
    ensures Grows(isConnect, u, c)
  {
    hide ParseUrlChar, UrlOk, StateOf, Grows;
    if u.frag.Some? {
      GrowsFrag(isConnect, u, c);
    } else if u.query.Some? {
      GrowsQuery(isConnect, u, c);
    } else if u.path != "" {
      GrowsPath(isConnect, u, c);
    } else if ServerState(StateOf(isConnect, u)) {
      if c == '/' || c == '?' {
        GrowsRest(isConnect, u, c);
      } else {
        GrowsServer(isConnect, u, c);
      }
    } else {
      StateParts(isConnect, u);
      if u.sep == "" {
        if 'a' <= c <= 'z' || 'A' <= c <= 'Z' {
          GrowsSchema(u, c);
        } else {
          GrowsFirst(u, c);
        }
      } else {
        GrowsSeparator(isConnect, u, c);
      }
    }
  }

  const NO_URL := Url.Url("", "", "", "", None, None)

  // The parts of a text that the automaton accepts.
  function Reading(isConnect: bool, buf: string): Url {
    if buf == "" then NO_URL else Longer(isConnect, Reading(isConnect, Front(buf)), LastOf(buf))
  }

  lemma NothingRead(isConnect: bool)
    ensures UrlOk(isConnect, NO_URL) && UrlText(NO_URL) == "" && StateOf(isConnect, NO_URL) == UrlStart(isConnect)
  {
  }

  lemma StatePrefix(isConnect: bool, buf: string, n: nat)
    requires n <= |buf|
    ensures StateAt(isConnect, buf[..n], n) == StateAt(isConnect, buf, n)
    decreases n
  {
    hide ParseUrlChar;
    if n > 0 {
      StatePrefix(isConnect, buf, n - 1);
      StatePrefix(isConnect, buf[..n], n - 1);
      assert buf[..n][..n - 1] == buf[..n - 1];
    }
  }

  lemma LastState(isConnect: bool, buf: string)
    requires buf != ""
    ensures StateAt(isConnect, buf, |buf|) == ParseUrlChar(StateAt(isConnect, Front(buf), |buf| - 1), LastOf(buf))
  {
    hide ParseUrlChar;
    StatePrefix(isConnect, buf, |buf| - 1);
  }

  // Every text that the automaton accepts has such parts.
  lemma {:induction false} HasParts(isConnect: bool, buf: string)
    requires StateAt(isConnect, buf, |buf|) != Dead
    ensures var u := Reading(isConnect, buf);
      UrlOk(isConnect, u) && UrlText(u) == buf && StateOf(isConnect, u) == StateAt(isConnect, buf, |buf|)
    decreases |buf|
  {
    hide ParseUrlChar, UrlOk, UrlText, StateOf, Longer, StateAt;
    if buf == "" {
      NothingRead(isConnect);
      EmptyState(isConnect, buf);
    } else {
      LastState(isConnect, buf);
      DeadMove(LastOf(buf));
      HasParts(isConnect, Front(buf));
      LongerIs(isConnect, Reading(isConnect, Front(buf)), LastOf(buf));
      assert Front(buf) + [LastOf(buf)] == buf;
    }
  }

  lemma EmptyState(isConnect: bool, buf: string)
    ensures StateAt(isConnect, buf, 0) == UrlStart(isConnect)
  {
  }

  lemma DeadMove(c: char)
    ensures ParseUrlChar(Dead, c) == Dead
  {
  }

  // The automaton accepts every such text.
  lemma {:induction false} PartsRead(isConnect: bool, u: Url)
    requires UrlOk(isConnect, u)
    ensures StateAt(isConnect, UrlText(u), |UrlText(u)|) == StateOf(isConnect, u)
    decreases |UrlText(u)|
  {
    hide ParseUrlChar, UrlOk, UrlText, StateOf, Shorter, StateAt;
    var buf := UrlText(u);
    if buf == "" {
      EmptyState(isConnect, buf);
      OnlyNothing(isConnect, u);
      NothingRead(isConnect);
    } else {
      LastState(isConnect, buf);
      OkParts(isConnect, u);
      ShorterText(u);
      ShorterOk(isConnect, u);
      ShorterState(isConnect, u);
      PartsRead(isConnect, Shorter(u));
    }
  }

  lemma OkParts(isConnect: bool, u: Url)
    requires UrlOk(isConnect, u)
    ensures PartsOk(u) && (u.frag.Some? ==> u.frag.value.hashes > 0)
  {
  }

  lemma OnlyNothing(isConnect: bool, u: Url)
    requires UrlOk(isConnect, u) && UrlText(u) == ""
    ensures u == NO_URL
  {
    assert u.frag.Some? ==> FragText(u.frag) != "";
    EmptyTail(u);
  }

  // ---- Where the parts are.

  function ServerAt(u: Url): nat { |u.schema| + |u.sep| }

  function PathAt(u: Url): nat { ServerAt(u) + |u.server| }

  function QueryAt(u: Url): nat { PathAt(u) + |u.path| + 1 }

  function FragAt(u: Url): nat {
    PathAt(u) + |u.path| + |QueryText(u.query)| + if u.frag.Some? then u.frag.value.hashes else 0
  }

  function Cutout(off: nat, text: string): Option<Slice> { if text == "" then None else Some(Slice(off, |text|)) }

  // The slice of a part, where the authority counts as the host.
  function MainSlice(u: Url, f: Part): Option<Slice> {
    match f
    case Schema => Cutout(0, u.schema)
    case Host => Cutout(ServerAt(u), u.server)
    case Path => Cutout(PathAt(u), u.path)
    case Query => if u.query.None? then None else Cutout(QueryAt(u), u.query.value)
    case Fragment => if u.frag.None? then None else Cutout(FragAt(u), u.frag.value.text)
    case Userinfo => None
    case Port => None
  }

  lemma LastPart(isConnect: bool, u: Url, f: Part)
    requires UrlOk(isConnect, u) && UrlText(u) != "" && MainPart(f)
    ensures PartOf(StateOf(isConnect, u)) == Some(f) <==> InSlice(MainSlice(u, f), |UrlText(u)| - 1)
  {
    hide Letters, ServerOk, PathOk, QueryOk;
  }

  lemma TextLength(u: Url)
    ensures |UrlText(u)| == PathAt(u) + |u.path| + |QueryText(u.query)| + |FragText(u.frag)|
  {
  }

  lemma ShorterParts(isConnect: bool, u: Url, f: Part, i: nat)
    requires UrlOk(isConnect, u) && i < |UrlText(u)| - 1 && MainPart(f)
    ensures InSlice(MainSlice(u, f), i) <==> InSlice(MainSlice(Shorter(u), f), i)
  {
    TextLength(u);
    hide Letters, ServerOk, PathOk, QueryOk, UrlText, Shape;
  }

  // The automaton counts exactly the bytes of a part as that part.
  lemma {:induction false} PartsAre(isConnect: bool, u: Url, f: Part, i: nat)
    requires UrlOk(isConnect, u) && i < |UrlText(u)| && MainPart(f)
    ensures PartOf(StateAt(isConnect, UrlText(u), i + 1)) == Some(f) <==> InSlice(MainSlice(u, f), i)
    decreases |UrlText(u)|
  {
    hide ParseUrlChar, UrlOk, UrlText, StateOf, Shorter, StateAt, MainSlice, InSlice, PartOf;
    var buf := UrlText(u);
    if i == |buf| - 1 {
      PartsRead(isConnect, u);
      LastPart(isConnect, u, f);
    } else {
      OkParts(isConnect, u);
      ShorterText(u);
      ShorterOk(isConnect, u);
      PartsAre(isConnect, Shorter(u), f, i);
      ShorterParts(isConnect, u, f, i);
      StatePrefix(isConnect, buf, i + 1);
      StatePrefix(isConnect, Front(buf), i + 1);
      assert Front(buf)[..i + 1] == buf[..i + 1];
    }
  }

  lemma AtStates(isConnect: bool, u: Url)
    requires UrlOk(isConnect, u) && UrlText(u) != ""
    ensures '@' in u.server <==> '@' in Shorter(u).server || StateOf(isConnect, u) == ReqServerWithAt
  {
    hide Letters, PathOk, QueryOk, ServerOk;
    if NoPath(u) && u.server != "" {
      assert u.server == Front(u.server) + [LastOf(u.server)];
    }
  }

  lemma {:induction false} FoundAtPrefix(isConnect: bool, buf: string, n: nat)
    requires n <= |buf|
    ensures FoundAt(isConnect, buf[..n], n) == FoundAt(isConnect, buf, n)
    decreases n
  {
    hide StateAt;
    StatePrefix(isConnect, buf, n);
    if n > 0 {
      FoundAtPrefix(isConnect, buf, n - 1);
      FoundAtPrefix(isConnect, buf[..n], n - 1);
      assert buf[..n][..n - 1] == buf[..n - 1];
    }
  }

  lemma {:induction false} AtIsFound(isConnect: bool, u: Url)
    requires UrlOk(isConnect, u)
    ensures FoundAt(isConnect, UrlText(u), |UrlText(u)|) <==> '@' in u.server
    decreases |UrlText(u)|
  {
    hide ParseUrlChar, UrlOk, UrlText, StateOf, Shorter, StateAt;
    var buf := UrlText(u);
    if buf == "" {
      OnlyNothing(isConnect, u);
    } else {
      OkParts(isConnect, u);
      ShorterText(u);
      ShorterOk(isConnect, u);
      AtIsFound(isConnect, Shorter(u));
      PartsRead(isConnect, u);
      AtStates(isConnect, u);
      FoundAtPrefix(isConnect, buf, |buf| - 1);
    }
  }
}
