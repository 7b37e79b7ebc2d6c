/**
  `http_parser_parse_url`: cutting a URL into its parts, with their offsets and lengths.
 */
module HttpUrl {
  import opened HttpChars
  import opened HttpStep
  import opened HttpUrlParts
  import opened Text
  import G = HttpUrlGrammar
  import H = HttpUrlHost

  // ---- What is accepted, in terms of the grammar.

  // `buf` is the URL with the parts `u`, where `h` is its authority.
  ghost predicate Reads(isConnect: bool, buf: string, u: G.Url, h: Option<H.Authority>) {
    && G.UrlOk(isConnect, u) && G.UrlText(u) == buf
    && (h.None? ==> u.server == "")
    && (h.Some? ==> H.AuthorityOk(h.value) && H.ServerText(h.value) == u.server)
  }

  function Moved(a: Option<Slice>, n: nat): Option<Slice> {
    if a.None? then None else Some(Slice(a.value.off + n, a.value.len))
  }

  function SliceOf(u: G.Url, h: Option<H.Authority>, f: Part): Option<Slice> {
    if !HostPart(f) then G.MainSlice(u, f)
    else if h.None? then None
    else Moved(H.HostSlice(h.value, f), G.ServerAt(u))
  }

  // Where the parts stand in the text; an empty part is none.
  function Slices(u: G.Url, h: Option<H.Authority>): Parts {
    map f: Part | SliceOf(u, h, f).Some? :: SliceOf(u, h, f).value
  }

  lemma ServerStands(u: G.Url)
    ensures G.PathAt(u) <= |G.UrlText(u)| && G.UrlText(u)[G.ServerAt(u)..G.PathAt(u)] == u.server
  {
    hide G.QueryText, G.FragText;
    var rest := u.path + G.QueryText(u.query) + G.FragText(u.frag);
    assert G.UrlText(u) == u.schema + u.sep + u.server + rest;
  }

  lemma AuthorityParts(h: H.Authority)
    requires H.AuthorityOk(h)
    ensures H.Begun(h.at, h) && H.Complete(h.at, h) && H.ServerText(h) != ""
  {
    H.SomethingIs(h);
  }

  lemma ReadsServer(isConnect: bool, buf: string, u: G.Url, h: Option<H.Authority>)
    requires Reads(isConnect, buf, u, h)
    ensures h.None? <==> u.server == ""
    ensures h.Some? ==>
              FoundAt(isConnect, buf, |buf|) == h.value.at && H.Begun(h.value.at, h.value)
              && H.Complete(h.value.at, h.value)
    ensures G.PathAt(u) <= |buf| && buf[G.ServerAt(u)..G.PathAt(u)] == u.server
  {
    hide FoundAt, G.UrlOk, G.UrlText, H.AuthorityOk, H.ServerText, H.Begun, H.Complete;
    G.AtIsFound(isConnect, u);
    ServerStands(u);
    if h.Some? {
      AuthorityParts(h.value);
      H.AtIn(h.value.at, h.value);
    }
  }

  // A byte of the authority and its part.
  lemma ReadsHost(isConnect: bool, buf: string, u: G.Url, h: Option<H.Authority>, f: Part, i: nat)
    requires Reads(isConnect, buf, u, h) && h.Some? && HostPart(f) && G.ServerAt(u) <= i < G.PathAt(u) <= |buf|
    ensures
      var at := FoundAt(isConnect, buf, |buf|);
      In(Slices(u, h), f, i) <==> HostPartOf(HostStateAt(at, buf, G.ServerAt(u), i + 1)) == Some(f)
  {
    hide Reads, HostStateAt, HostPartOf, FoundAt, G.UrlText, H.ServerText, G.UrlOk, H.AuthorityOk, H.HostSlice, H.Begun;
    ReadsServer(isConnect, buf, u, h);
    var from := G.ServerAt(u);
    var k := i - from;
    assert buf[from..from + (k + 1)] == u.server[..k + 1];
    ServerIs(isConnect, buf, u, h);
    H.StateMoves(h.value.at, buf, from, u.server, k + 1);
    H.PartsAre(h.value.at, h.value, f, k);
  }

  lemma ServerIs(isConnect: bool, buf: string, u: G.Url, h: Option<H.Authority>)
    requires Reads(isConnect, buf, u, h) && h.Some?
    ensures H.ServerText(h.value) == u.server
  {
  }

  // A byte of the other parts.
  lemma ReadsMain(isConnect: bool, buf: string, u: G.Url, h: Option<H.Authority>, f: Part, i: nat)
    requires Reads(isConnect, buf, u, h) && i < |buf| && MainPart(f)
    ensures
      InSlice(G.MainSlice(u, f), i) <==> PartOf(StateAt(isConnect, buf, i + 1)) == Some(f)
    ensures f != Host ==> (In(Slices(u, h), f, i) <==> InSlice(G.MainSlice(u, f), i))
  {
    hide StateAt, PartOf, G.UrlText, H.ServerText, G.UrlOk, H.AuthorityOk, G.MainSlice;
    G.PartsAre(isConnect, u, f, i);
  }

  lemma SliceFits(isConnect: bool, buf: string, u: G.Url, h: Option<H.Authority>, f: Part)
    requires Reads(isConnect, buf, u, h) && SliceOf(u, h, f).Some?
    ensures var a := SliceOf(u, h, f).value;
      && a.len > 0 && a.off + a.len <= |buf|
      && (HostPart(f) ==> h.Some? && G.ServerAt(u) <= a.off && a.off + a.len <= G.PathAt(u))
  {
    hide G.UrlOk, H.AuthorityOk;
    if HostPart(f) {
      ReadsServer(isConnect, buf, u, h);
    }
  }

  // The automata accept the text, with these slices.
  lemma ReadsParsed(isConnect: bool, buf: string, u: G.Url, h: Option<H.Authority>)
    requires Reads(isConnect, buf, u, h)
    ensures Parsed(isConnect, buf, Slices(u, h), G.MainSlice(u, Host))
  {
    hide FoundAt, StateAt, PartOf, HostStateAt, HostPartOf, HostEnd, In, InSlice, Reads, SliceOf, H.Complete, H.Begun;
    var m := Slices(u, h);
    ReadsAlive(isConnect, buf, u, h);
    ReadsServer(isConnect, buf, u, h);
    forall f <- m ensures m[f].len > 0 && End(m, f) <= |buf| {
      SliceFits(isConnect, buf, u, h, f);
    }
    forall f: Part, i: nat | i < |buf| && MainPart(f) && f != Host
      ensures In(m, f, i) <==> PartOf(StateAt(isConnect, buf, i + 1)) == Some(f)
    {
      ReadsMain(isConnect, buf, u, h, f, i);
    }
    forall i: nat | i < |buf|
      ensures InSlice(G.MainSlice(u, Host), i) <==> PartOf(StateAt(isConnect, buf, i + 1)) == Some(Host)
    {
      ReadsMain(isConnect, buf, u, h, Host, i);
    }
    if h.Some? {
      ReadsAuthority(isConnect, buf, u, h);
    } else {
      NoAuthority(u);
    }
  }

  lemma NoAuthority(u: G.Url)
    ensures var m := Slices(u, None); Userinfo !in m && Host !in m && Port !in m
  {
  }

  lemma ReadsAlive(isConnect: bool, buf: string, u: G.Url, h: Option<H.Authority>)
    requires Reads(isConnect, buf, u, h)
    ensures StateAt(isConnect, buf, |buf|) != Dead
  {
    hide StateAt, G.UrlText, H.ServerText, G.UrlOk, H.AuthorityOk;
    G.PartsRead(isConnect, u);
  }

  lemma ReadsAuthority(isConnect: bool, buf: string, u: G.Url, h: Option<H.Authority>)
    requires Reads(isConnect, buf, u, h) && h.Some?
    ensures G.MainSlice(u, Host) == Some(Slice(G.ServerAt(u), |u.server|)) && |u.server| > 0
    ensures G.ServerAt(u) + |u.server| == G.PathAt(u) <= |buf| && Host in Slices(u, h)
    ensures HostCut(FoundAt(isConnect, buf, |buf|), buf, G.ServerAt(u), G.PathAt(u), Slices(u, h))
    ensures HostEnd(HostStateAt(FoundAt(isConnect, buf, |buf|), buf, G.ServerAt(u), G.PathAt(u)))
  {
    hide FoundAt, HostStateAt, HostPartOf, HostEnd, In, Reads, H.HostSlice, H.Begun, H.Complete, H.HStateOf, H.ServerText;
    ReadsServer(isConnect, buf, u, h);
    var m, at, from := Slices(u, h), FoundAt(isConnect, buf, |buf|), G.ServerAt(u);
    forall f <- m | HostPart(f) ensures m[f].len > 0 && from <= m[f].off && End(m, f) <= G.PathAt(u) {
      SliceFits(isConnect, buf, u, h, f);
    }
    forall f: Part, i: nat | from <= i < G.PathAt(u) && HostPart(f)
      ensures In(m, f, i) <==> HostPartOf(HostStateAt(at, buf, from, i + 1)) == Some(f)
    {
      ReadsHost(isConnect, buf, u, h, f, i);
    }
    HostThere(h.value);
    ServerIs(isConnect, buf, u, h);
    H.PartsRead(at, h.value);
    H.StateMoves(at, buf, from, u.server, |u.server|);
    assert u.server[..|u.server|] == u.server;
    H.CompleteEnds(at, h.value);
  }

  lemma HostThere(h: H.Authority)
    requires H.Complete(h.at, h)
    ensures H.HostSlice(h, Host).Some?
  {
  }

  // ---- What `http_parser_parse_url` accepts.

  function PortNumber(h: Option<H.Authority>): nat {
    if h.Some? && h.value.port.Some? && H.PortOk(h.value.port.value) then DecimalValue(h.value.port.value) else 0
  }

  predicate Nothing(q: Option<string>) { q.None? || q.value == "" }

  // An authority behind every schema, only a host and a port for CONNECT, and a port of 16 bits.
  ghost predicate Accepted(isConnect: bool, buf: string, u: G.Url, h: Option<H.Authority>) {
    && buf != "" && Reads(isConnect, buf, u, h)
    && (u.schema != "" ==> h.Some?)
    && (isConnect ==>
         && h.Some? && h.value.userinfo == "" && h.value.port.Some?
         && u.path == "" && Nothing(u.query) && (u.frag.None? || u.frag.value.text == ""))
    && PortNumber(h) <= 0xffff
  }

  lemma ReadingOf(isConnect: bool, buf: string, m: Parts, auth: Option<Slice>) returns (u: G.Url, h: Option<H.Authority>)
    requires Parsed(isConnect, buf, m, auth) && (Schema in m ==> Host in m)
    ensures Reads(isConnect, buf, u, h) && m == Slices(u, h)
  {
    hide *;
    ParsedAlive(isConnect, buf, m, auth);
    G.HasParts(isConnect, buf);
    u := G.Reading(isConnect, buf);
    AuthorityIs(isConnect, buf, m, auth, u);
    if u.server == "" {
      h := None;
      ReadsNone(isConnect, buf, u);
    } else {
      h := ReadingHost(isConnect, buf, m, auth, u);
    }
    ReadsParsed(isConnect, buf, u, h);
    ParsedUnique(isConnect, buf, m, auth, Slices(u, h), G.MainSlice(u, Host));
  }

  lemma ReadsNone(isConnect: bool, buf: string, u: G.Url)
    requires G.UrlOk(isConnect, u) && G.UrlText(u) == buf && u.server == ""
    ensures Reads(isConnect, buf, u, None)
  {
    hide G.UrlOk, G.UrlText;
  }

  lemma AuthorityIs(isConnect: bool, buf: string, m: Parts, auth: Option<Slice>, u: G.Url)
    requires Parsed(isConnect, buf, m, auth) && G.UrlOk(isConnect, u) && G.UrlText(u) == buf
    ensures auth == G.MainSlice(u, Host)
    ensures G.PathAt(u) <= |buf| && buf[G.ServerAt(u)..G.PathAt(u)] == u.server
  {
    hide Parsed, StateAt, PartOf, G.UrlOk, G.UrlText, InSlice;
    ServerStands(u);
    forall i: nat | i < |buf|
      ensures InSlice(G.MainSlice(u, Host), i) <==> PartOf(StateAt(isConnect, buf, i + 1)) == Some(Host)
    {
      G.PartsAre(isConnect, u, Host, i);
    }
    SameAuthority(isConnect, buf, m, auth, G.MainSlice(u, Host));
  }

  lemma ReadingHost(isConnect: bool, buf: string, m: Parts, auth: Option<Slice>, u: G.Url)
    returns (h: Option<H.Authority>)
    requires Parsed(isConnect, buf, m, auth) && G.UrlOk(isConnect, u) && G.UrlText(u) == buf && u.server != ""
    requires auth == G.MainSlice(u, Host)
    requires G.PathAt(u) <= |buf| && buf[G.ServerAt(u)..G.PathAt(u)] == u.server
    ensures Reads(isConnect, buf, u, h)
  {
    hide StateAt, PartOf, G.UrlOk, G.UrlText, FoundAt, HostStateAt, HostEnd, HostCut, In, H.HStateOf, H.Begun, H.ServerText, H.Reading;
    var at := FoundAt(isConnect, buf, |buf|);
    var a := auth.value;
    assert HostEnd(HostStateAt(at, buf, a.off, a.off + a.len));
    assert u.server[..|u.server|] == u.server;
    H.StateMoves(at, buf, G.ServerAt(u), u.server, |u.server|);
    EndIsAlive(HostStateAt(at, u.server, 0, |u.server|));
    H.HasParts(at, u.server);
    var r := H.Reading(at, u.server);
    H.CompleteEnds(at, r);
    h := Some(r);
  }

  // A part is there exactly if the text has it.
  lemma SlicesOf(u: G.Url, h: Option<H.Authority>)
    requires h.Some? ==> H.AuthorityOk(h.value)
    ensures var m := Slices(u, h);
      && (Schema in m <==> u.schema != "") && (Path in m <==> u.path != "")
      && (Query in m <==> !Nothing(u.query)) && (Fragment in m <==> u.frag.Some? && u.frag.value.text != "")
      && (Userinfo in m <==> h.Some? && h.value.userinfo != "")
      && (Host in m <==> h.Some?)
      && (Port in m <==> h.Some? && h.value.port.Some?)
  {
    hide H.UserOk, H.NameOk, H.AddressOk, H.ZoneOk;
  }

  lemma KeysAre(m: Parts)
    ensures m.Keys == {Host, Port} <==>
              Host in m && Port in m && Schema !in m && Userinfo !in m && Path !in m && Query !in m && Fragment !in m
  {
    if Host in m && Port in m && Schema !in m && Userinfo !in m && Path !in m && Query !in m && Fragment !in m {
      forall f: Part ensures f in m.Keys <==> f in {Host, Port} {
        match f
        case Schema => case Userinfo => case Host => case Port => case Path => case Query => case Fragment =>
      }
    }
  }

  // The text of a part in the grammar.
  function PartText(u: G.Url, h: Option<H.Authority>, f: Part): string {
    match f
    case Schema => u.schema
    case Userinfo => if h.None? then "" else h.value.userinfo
    case Host => if h.None? then "" else H.NameText(h.value)
    case Port => if h.None? || h.value.port.None? then "" else h.value.port.value
    case Path => u.path
    case Query => if u.query.None? then "" else u.query.value
    case Fragment => if u.frag.None? then "" else u.frag.value.text
  }

  lemma Middle(a: string, x: string, b: string)
    ensures (a + x + b)[|a|..|a| + |x|] == x
  {
  }

  lemma MainFront(u: G.Url)
    ensures G.UrlText(u) == "" + u.schema + (u.sep + u.server + u.path + G.QueryText(u.query) + G.FragText(u.frag))
    ensures G.UrlText(u) == (u.schema + u.sep) + u.server + (u.path + G.QueryText(u.query) + G.FragText(u.frag))
    ensures G.UrlText(u) == (u.schema + u.sep + u.server) + u.path + (G.QueryText(u.query) + G.FragText(u.frag))
  {
    hide G.QueryText, G.FragText;
  }

  lemma MainBack(u: G.Url)
    ensures u.query.Some? ==> G.UrlText(u) == (G.HeadText(u) + "?") + u.query.value + G.FragText(u.frag)
    ensures u.frag.Some? ==>
              G.UrlText(u) == (G.HeadText(u) + G.QueryText(u.query) + G.Hashes(u.frag.value.hashes)) + u.frag.value.text + ""
  {
  }

  lemma MainText(u: G.Url, f: Part)
    requires G.MainSlice(u, f).Some?
    ensures var a := G.MainSlice(u, f).value;
      a.off + a.len <= |G.UrlText(u)|
      && G.UrlText(u)[a.off..a.off + a.len] == if f == Host then u.server else PartText(u, None, f)
  {
    MainFront(u);
    MainBack(u);
    hide G.UrlText;
    var q, g := G.QueryText(u.query), G.FragText(u.frag);
    match f {
      case Schema => Middle("", u.schema, u.sep + u.server + u.path + q + g);
      case Host => Middle(u.schema + u.sep, u.server, u.path + q + g);
      case Path => Middle(u.schema + u.sep + u.server, u.path, q + g);
      case Query => Middle(G.HeadText(u) + "?", u.query.value, g);
      case Fragment => Middle(G.HeadText(u) + q + G.Hashes(u.frag.value.hashes), u.frag.value.text, "");
    }
  }

  lemma HostFront(h: H.Authority)
    ensures
      var m, n, z, p := H.Mark(h.at, "@") + H.Mark(h.open, "["), H.NameText(h), H.Mark(h.close, "]"), H.PortSuffix(h.port);
      && H.ServerText(h) == "" + h.userinfo + (m + n + z + p)
      && H.ServerText(h) == (h.userinfo + m) + n + (z + p)
      && H.ServerText(h) == (h.userinfo + m + n + z) + p + ""
  {
    hide H.Mark, H.NameText, H.PortSuffix;
  }

  lemma PortTail(h: H.Authority, front: string)
    requires h.port.Some?
    ensures front + H.PortSuffix(h.port) + "" == (front + ":") + h.port.value + ""
  {
  }

  lemma HostSliceText(h: H.Authority, f: Part)
    requires HostPart(f) && H.HostSlice(h, f).Some?
    ensures var a := H.HostSlice(h, f).value;
      a.off + a.len <= |H.ServerText(h)|
      && H.ServerText(h)[a.off..a.off + a.len] == PartText(G.NO_URL, Some(h), f)
  {
    HostFront(h);
    hide H.ServerText, H.NameText, H.PortSuffix;
    var m, n, z, p := H.Mark(h.at, "@") + H.Mark(h.open, "["), H.NameText(h), H.Mark(h.close, "]"), H.PortSuffix(h.port);
    match f {
      case Userinfo => Middle("", h.userinfo, m + n + z + p);
      case Host => Middle(h.userinfo + m, n, z + p);
      case Port =>
        PortTail(h, h.userinfo + m + n + z);
        Middle(h.userinfo + m + n + z + ":", h.port.value, "");
    }
  }

  lemma Within(buf: string, n: nat, m: nat, i: nat, j: nat)
    requires n <= m <= |buf| && i <= j <= m - n
    ensures buf[n..m][i..j] == buf[n + i..n + j]
  {
    var a, b := buf[n..m][i..j], buf[n + i..n + j];
    assert forall k :: 0 <= k < |a| ==> a[k] == b[k];
  }

  lemma ServerPart(isConnect: bool, buf: string, u: G.Url, h: Option<H.Authority>, f: Part)
    requires Reads(isConnect, buf, u, h) && h.Some? && HostPart(f) && H.HostSlice(h.value, f).Some?
    ensures var a := H.HostSlice(h.value, f).value; var n := G.ServerAt(u) + a.off;
      n + a.len <= |buf| && buf[n..n + a.len] == PartText(u, h, f)
  {
    hide G.UrlOk, H.AuthorityOk, G.UrlText, H.ServerText, H.HostSlice, H.Mark, H.PortSuffix, H.NameText;
    HostSliceText(h.value, f);
    ServerStands(u);
    var a := H.HostSlice(h.value, f).value;
    Within(buf, G.ServerAt(u), G.PathAt(u), a.off, a.off + a.len);
  }

  /** The slices hold the texts of the parts. */
  lemma SlicesText(isConnect: bool, buf: string, u: G.Url, h: Option<H.Authority>, f: Part)
    requires Reads(isConnect, buf, u, h)
    ensures TextOf(buf, Slices(u, h), f) == PartText(u, h, f)
  {
    hide G.UrlOk, H.AuthorityOk, G.UrlText, H.ServerText;
    if SliceOf(u, h, f).Some? {
      hide H.HostSlice, G.MainSlice;
      if HostPart(f) {
        ServerPart(isConnect, buf, u, h, f);
      } else {
        MainText(u, f);
      }
    }
  }

  lemma {:induction false} PortValueIs(s: string)
    requires H.PortOk(s)
    ensures Digits(s) && NumValue(s) == DecimalValue(s)
  {
    assert forall c <- s :: IsDigit(c);
    if s != "" {
      PortValueIs(s[..|s| - 1]);
    }
  }

  lemma PortIs(isConnect: bool, buf: string, u: G.Url, h: Option<H.Authority>)
    requires Reads(isConnect, buf, u, h)
    ensures Digits(TextOf(buf, Slices(u, h), Port)) && NumValue(TextOf(buf, Slices(u, h), Port)) == PortNumber(h)
  {
    hide G.UrlOk, G.UrlText, H.ServerText, Slices, TextOf, NumValue, DecimalValue;
    SlicesText(isConnect, buf, u, h, Port);
    PortValueIs("");
    NoNumber();
    if h.Some? && h.value.port.Some? {
      PortValueIs(h.value.port.value);
    }
  }

  lemma NoNumber()
    ensures NumValue("") == 0
  {
  }

  // The automata and the checks behind them accept exactly these texts.
  lemma AcceptedIsValid(isConnect: bool, buf: string, u: G.Url, h: Option<H.Authority>)
    requires Reads(isConnect, buf, u, h)
    ensures Accepted(isConnect, buf, u, h)
        <==> Valid(isConnect, buf, Slices(u, h), G.MainSlice(u, Host), PortNumber(h))
  {
    hide G.UrlText, H.ServerText, Parsed, Slices, TextOf, NumValue, DecimalValue, PortNumber, G.PartsOk;
    ReadsParsed(isConnect, buf, u, h);
    PortIs(isConnect, buf, u, h);
    SlicesOf(u, h);
    KeysAre(Slices(u, h));
  }

  lemma ValidIsAccepted(isConnect: bool, buf: string, m: Parts, auth: Option<Slice>, port: nat)
    returns (u: G.Url, h: Option<H.Authority>)
    requires Valid(isConnect, buf, m, auth, port)
    ensures Accepted(isConnect, buf, u, h) && m == Slices(u, h) && port == PortNumber(h)
  {
    hide Parsed, Reads, Slices, TextOf, NumValue, PortNumber, Accepted;
    u, h := ReadingOf(isConnect, buf, m, auth);
    PortIs(isConnect, buf, u, h);
    ReadsParsed(isConnect, buf, u, h);
    AcceptedIsValid(isConnect, buf, u, h);
  }

  lemma NoneAccepted(isConnect: bool, buf: string)
    requires forall m, a, v :: !Valid(isConnect, buf, m, a, v)
    ensures forall u, h :: !Accepted(isConnect, buf, u, h)
  {
    hide Valid, Reads;
    forall u, h ensures !Accepted(isConnect, buf, u, h) {
      if Reads(isConnect, buf, u, h) {
        AcceptedIsValid(isConnect, buf, u, h);
      }
    }
  }

  class UrlInfo {
    var parts: Parts
    var port: nat

    // One turn of the loop of `http_parse_host`, for a byte that leads from `s` to `t`.
    method CountByte(p: nat, s: HostState, t: HostState)
      requires Host in parts
      requires HostPartOf(s).Some? ==> HostPartOf(s).value in parts
      requires t == HostText ==> s == HostStart || s == HostText
      requires t == V6 ==> s == V6Start || s == V6
      requires t == ZoneStart || t == Zone ==> s == V6 || s == ZoneStart || s == Zone
      requires t == PortText ==> s == PortStart || s == PortText
      requires t == UserinfoText ==> s == UserinfoStart || s == UserinfoText
      requires HostPartOf(t) == Some(Host) && HostPartOf(s) != Some(Host) ==> parts[Host].len == 0
      modifies this`parts
      ensures parts == if HostPartOf(t) == None then old(parts)
                       else HostExtended(old(parts), s, p, HostPartOf(t).value)
    {
      match t {
        case HostText =>
          parts := parts[Host := Slice(if s != HostText then p else parts[Host].off, parts[Host].len + 1)];
        case V6 =>
          parts := parts[Host := Slice(if s != V6 then p else parts[Host].off, parts[Host].len + 1)];
        case ZoneStart => parts := parts[Host := Slice(parts[Host].off, parts[Host].len + 1)];
        case Zone => parts := parts[Host := Slice(parts[Host].off, parts[Host].len + 1)];
        case PortText =>
          if s != PortText {
            parts := parts[Port := Slice(p, 0)];
          }
          parts := parts[Port := Slice(parts[Port].off, parts[Port].len + 1)];
        case UserinfoText =>
          if s != UserinfoText {
            parts := parts[Userinfo := Slice(p, 0)];
          }
          parts := parts[Userinfo := Slice(parts[Userinfo].off, parts[Userinfo].len + 1)];
        case HostDead =>
        case UserinfoStart =>
        case HostStart =>
        case V6Start =>
        case V6End =>
        case PortStart =>
      }
    }

    // `http_parse_host`; `parts[Host]` is the whole authority on entry.
    method ParseHost(buf: string, foundAt: bool) returns (code: int)
      requires Host in parts && parts[Host].len > 0 && End(parts, Host) <= |buf| <= 0xffff
      requires Userinfo !in parts && Port !in parts
      modifies this`parts
      ensures
        var a := old(parts[Host]);
        && code == (if HostEnd(HostStateAt(foundAt, buf, a.off, a.off + a.len)) then 0 else 1)
        && (code == 0 ==> HostCut(foundAt, buf, a.off, a.off + a.len, parts)
                          && Host in parts && parts[Host].len > 0)
        && SameMain(parts, old(parts))
    {
      hide HostChar, HostStateAt, HostTracking, HostCut, HostRank, HostPartOf, HostEnd, SameMain;
      var from, end := parts[Host].off, End(parts, Host);
      parts := parts[Host := Slice(from, 0)];
      var s := if foundAt then UserinfoStart else HostStart;
      HostBegins(foundAt, buf, from, parts);
      SameMainUpdate(old(parts), old(parts), Host, Slice(from, 0));
      for p := from to end
        invariant s == HostStateAt(foundAt, buf, from, p)
        invariant HostCut(foundAt, buf, from, p, parts) && HostTracking(foundAt, buf, from, p, parts)
        invariant SameMain(parts, old(parts))
      {
        var t := HostChar(s, buf[p]);
        NextHostState(foundAt, buf, from, p);
        if t == HostDead {
          HostDeadStays(foundAt, buf, from, p + 1, end);
          assert !HostEnd(HostDead) by { DeadIsNoEnd(); }
          return 1;
        }
        HostSources(s, buf[p]);
        HostTurn(foundAt, buf, from, p, parts, old(parts));
        CountByte(p, s, t);
        s := t;
      }
      code := if HostEnd(s) then 0 else 1;
      if HostEnd(s) {
        HostEnds(foundAt, buf, from, end, parts);
      }
    }

    // The main loop of `http_parser_parse_url`; `last` is `old_uf`.
    method Split(buf: string, isConnect: bool) returns (code: int, foundAt: bool)
      requires 0 < |buf| <= 0xffff
      modifies this
      ensures port == 0 && (code == 0 || code == 1)
      ensures code == 0 <==> StateAt(isConnect, buf, |buf|) != Dead
      ensures code == 0 ==> Cut(isConnect, buf, |buf|, parts) && foundAt == FoundAt(isConnect, buf, |buf|)
    {
      hide ParseUrlChar, StateAt, Tracking, Cut, Rank, FoundAt, In, UrlStart, PartOf;
      port, parts := 0, map[];
      foundAt := false;
      var s := UrlStart(isConnect);
      var last: Option<Part> := None;
      ghost var m: Parts := map[];
      SplitBegins(isConnect, buf);
      for p := 0 to |buf|
        invariant s == StateAt(isConnect, buf, p) && port == 0
        invariant parts == m && Cut(isConnect, buf, p, m) && Tracking(isConnect, buf, p, m, last)
        invariant foundAt == FoundAt(isConnect, buf, p)
      {
        s := ParseUrlChar(s, buf[p]);
        NextState(isConnect, buf, p);
        NextFoundAt(isConnect, buf, p);
        var uf: Part;
        if s == Dead {
          DeadStays(isConnect, buf, p + 1, |buf|);
          return 1, foundAt;
        }
        SplitTurn(isConnect, buf, p, m, last, s);
        if s == ReqSchemaSlash || s == ReqSchemaSlashSlash || s == ReqServerStart
           || s == ReqQueryStringStart || s == ReqFragmentStart {
          continue;
        } else if s == ReqSchema {
          uf := Schema;
        } else if s == ReqServerWithAt {
          foundAt := true;
          uf := Host;
        } else if s == ReqServer {
          uf := Host;
        } else if s == ReqPath {
          uf := Path;
        } else if s == ReqQueryString {
          uf := Query;
        } else {
          assert s == ReqFragment;
          uf := Fragment;
        }
        m := Extended(m, last, p, uf);
        if last == Some(uf) {
          parts := parts[uf := Slice(parts[uf].off, parts[uf].len + 1)];
          continue;
        }
        parts := parts[uf := Slice(p, 1)];
        last := Some(uf);
      }
      StillAlive(isConnect, buf, |buf|, m, last);
      code := 0;
    }

    // The value of the port, or none if it does not fit 16 bits.
    method PortValue(text: string) returns (ok: bool, v: nat)
      requires Digits(text)
      ensures ok <==> NumValue(text) <= 0xffff
      ensures ok ==> v == NumValue(text)
    {
      v := 0;
      for i := 0 to |text|
        invariant v == NumValue(text[..i]) <= 0xffff
      {
        NumValueStep(text, i);
        v := v * 10 + DigitValue(text[i]);
        if v > 0xffff {
          NumValueGrows(text, i + 1);
          return false, v;
        }
      }
      assert text[..|text|] == text;
      ok := true;
    }

    // The main loop, the authority and the checks behind them.
    method ParseParts(buf: string, isConnect: bool) returns (code: int, ghost auth: Option<Slice>)
      requires |buf| <= 0xffff
      modifies this
      ensures code == 0 || code == 1
      ensures code == 0 ==> Valid(isConnect, buf, parts, auth, port)
      ensures code == 1 ==> forall m, a, v :: !Valid(isConnect, buf, m, a, v)
    {
      hide StateAt, Cut, HostCut, HostStateAt, FoundAt, PartOf, HostPartOf, Parsed, HostEnd;
      auth := None;
      if |buf| == 0 {
        return 1, None;
      }
      var foundAt;
      code, foundAt := Split(buf, isConnect);
      if code != 0 {
        DeadIsInvalid(isConnect, buf);
        return;
      }
      ghost var cut := parts;
      if Host in parts {
        auth := Some(parts[Host]);
        CutHost(isConnect, buf, parts);
        var r := ParseHost(buf, foundAt);
        if r != 0 {
          BadHostIsInvalid(isConnect, buf, cut);
          return 1, auth;
        }
      }
      Assembles(isConnect, buf, cut, parts, auth);
      Others(isConnect, buf, parts, auth);
      if (Schema in parts && Host !in parts) || (isConnect && parts.Keys != {Host, Port}) {
        return 1, auth;
      }
      if Port in parts {
        PortDigits(isConnect, buf, parts, auth);
        var ok, v := PortValue(buf[parts[Port].off..End(parts, Port)]);
        if !ok {
          return 1, auth;
        }
        port := v;
      }
    }

    /**
      `http_parser_parse_url`. It succeeds exactly on the URLs of the grammar, and the slices it
      leaves are those of their parts.
     */
    method ParseUrl(buf: string, isConnect: bool)
      returns (code: int, ghost u: G.Url, ghost h: Option<H.Authority>, ghost auth: Option<Slice>)
      requires |buf| <= 0xffff
      modifies this
      ensures code == 0 || code == 1
      ensures code == 0 ==> Accepted(isConnect, buf, u, h) && parts == Slices(u, h) && port == PortNumber(h)
      ensures code == 0 ==> forall f :: TextOf(buf, parts, f) == PartText(u, h, f)
      ensures code == 0 ==> Parsed(isConnect, buf, parts, auth)
      ensures code == 1 ==> forall u', h' :: !Accepted(isConnect, buf, u', h')
    {
      hide Parsed, Reads, Slices, PortNumber, TextOf, PartText;
      u, h := G.NO_URL, None;
      code, auth := ParseParts(buf, isConnect);
      if code == 0 {
        u, h := ValidIsAccepted(isConnect, buf, parts, auth, port);
        forall f ensures TextOf(buf, parts, f) == PartText(u, h, f) {
          SlicesText(isConnect, buf, u, h, f);
        }
      } else {
        NoneAccepted(isConnect, buf);
      }
    }
  }

  // ---- What the parts look like.

  lemma {:induction false} RankMonotone(isConnect: bool, buf: string, i: nat, j: nat)
    requires i <= j <= |buf| && StateAt(isConnect, buf, j) != Dead
    ensures StateAt(isConnect, buf, i) != Dead
    ensures Rank(StateAt(isConnect, buf, i)) <= Rank(StateAt(isConnect, buf, j))
    decreases j - i
  {
    hide ParseUrlChar, Rank, StateAt;
    if i < j {
      NextState(isConnect, buf, j - 1);
      if StateAt(isConnect, buf, j - 1) == Dead {
        DeadStays(isConnect, buf, j - 1, j);
      }
      RankGrows(StateAt(isConnect, buf, j - 1), buf[j - 1]);
      RankMonotone(isConnect, buf, i, j - 1);
    }
  }

  lemma {:induction false} HostRankMonotone(foundAt: bool, buf: string, from: nat, i: nat, j: nat)
    requires from <= i <= j <= |buf| && HostStateAt(foundAt, buf, from, j) != HostDead
    ensures HostStateAt(foundAt, buf, from, i) != HostDead
    ensures HostRank(HostStateAt(foundAt, buf, from, i)) <= HostRank(HostStateAt(foundAt, buf, from, j))
    decreases j - i
  {
    hide HostChar, HostRank, HostStateAt;
    if i < j {
      NextHostState(foundAt, buf, from, j - 1);
      if HostStateAt(foundAt, buf, from, j - 1) == HostDead {
        HostDeadStays(foundAt, buf, from, j - 1, j);
      }
      HostRankGrows(HostStateAt(foundAt, buf, from, j - 1), buf[j - 1]);
      HostRankMonotone(foundAt, buf, from, i, j - 1);
    }
  }

  // The order of the parts in a URL.
  function Place(f: Part): nat {
    match f
    case Schema => 0
    case Userinfo => 1
    case Host => 2
    case Port => 3
    case Path => 4
    case Query => 5
    case Fragment => 6
  }

  // Any byte of an earlier part is before any byte of a later one.
  lemma ByteOrder(isConnect: bool, buf: string, m: Parts, auth: Option<Slice>, f: Part, g: Part, i: nat, j: nat)
    requires Parsed(isConnect, buf, m, auth) && In(m, f, i) && In(m, g, j) && Place(f) < Place(g)
    ensures i < j
  {
    hide StateAt, HostStateAt, FoundAt, Rank, PartOf, HostRank, HostPartOf, Parsed, In;
    ParsedAlive(isConnect, buf, m, auth);
    if HostPart(f) && HostPart(g) {
      HostByteOrder(isConnect, buf, m, auth, f, g, i, j);
    } else {
      var f1, g1 := if HostPart(f) then Host else f, if HostPart(g) then Host else g;
      ByteState(isConnect, buf, m, auth, f, i);
      ByteState(isConnect, buf, m, auth, g, j);
      PartRanks(StateAt(isConnect, buf, i + 1), f1);
      PartRanks(StateAt(isConnect, buf, j + 1), g1);
      if j < i {
        RankMonotone(isConnect, buf, i + 1, |buf|);
        RankMonotone(isConnect, buf, j + 1, i + 1);
      }
    }
  }

  lemma ByteState(isConnect: bool, buf: string, m: Parts, auth: Option<Slice>, f: Part, i: nat)
    requires Parsed(isConnect, buf, m, auth) && In(m, f, i)
    ensures i < |buf|
    ensures PartOf(StateAt(isConnect, buf, i + 1)) == Some(if HostPart(f) then Host else f)
  {
    hide StateAt, HostStateAt, FoundAt, PartOf, HostPartOf;
    if HostPart(f) {
      assert InSlice(auth, i);
    }
  }

  lemma HostByteOrder(isConnect: bool, buf: string, m: Parts, auth: Option<Slice>, f: Part, g: Part, i: nat, j: nat)
    requires Parsed(isConnect, buf, m, auth) && In(m, f, i) && In(m, g, j) && Place(f) < Place(g)
    requires HostPart(f) && HostPart(g)
    ensures i < j
  {
    hide StateAt, HostStateAt, FoundAt, HostRank, HostPartOf, PartOf;
    var a, at := auth.value, FoundAt(isConnect, buf, |buf|);
    assert HostPartOf(HostStateAt(at, buf, a.off, i + 1)) == Some(f);
    assert HostPartOf(HostStateAt(at, buf, a.off, j + 1)) == Some(g);
    HostPartRank(HostStateAt(at, buf, a.off, i + 1), f);
    HostPartRank(HostStateAt(at, buf, a.off, j + 1), g);
    if j < i {
      EndIsAlive(HostStateAt(at, buf, a.off, a.off + a.len));
      HostRankMonotone(at, buf, a.off, i + 1, a.off + a.len);
      HostRankMonotone(at, buf, a.off, j + 1, i + 1);
    }
  }

  lemma HostPartRank(s: HostState, f: Part)
    requires HostPartOf(s) == Some(f)
    ensures HostRank(s) == (if f == Userinfo then 1 else if f == Host then 4 else 7)
  {
  }

  /** The parts are slices of the URL, disjoint and in the order of the grammar. */
  lemma PartsInOrder(isConnect: bool, buf: string, m: Parts, auth: Option<Slice>)
    requires Parsed(isConnect, buf, m, auth)
    ensures forall f <- m :: 0 < m[f].len && End(m, f) <= |buf|
    ensures forall f <- m, g <- m | Place(f) < Place(g) :: End(m, f) <= m[g].off
  {
    hide StateAt, HostStateAt, FoundAt, PartOf, HostPartOf;
    forall f <- m, g <- m | Place(f) < Place(g) ensures End(m, f) <= m[g].off {
      assert In(m, f, End(m, f) - 1) && In(m, g, m[g].off);
      ByteOrder(isConnect, buf, m, auth, f, g, End(m, f) - 1, m[g].off);
    }
  }

  // The byte before a query or a fragment and the bytes after a schema.
  lemma Delimiters(isConnect: bool, buf: string, m: Parts, auth: Option<Slice>, f: Part)
    requires Parsed(isConnect, buf, m, auth) && f in m
    ensures f == Query ==> m[f].off > 0 && buf[m[f].off - 1] == '?'
    ensures f == Fragment ==> m[f].off > 0 && buf[m[f].off - 1] == '#'
    ensures f == Path ==> buf[m[f].off] == '/' || (buf[m[f].off] == '*' && m[f].off == 0)
    ensures f == Port ==> m[f].off > 0 && buf[m[f].off - 1] == ':'
  {
    hide Parsed, PartOf, ParseUrlChar;
    if f == Port {
      PortColon(isConnect, buf, m, auth);
    } else if f == Query || f == Fragment || f == Path {
      var off := m[f].off;
      NotBefore(isConnect, buf, m, auth, f);
      if off > 0 {
        PartSources(StateAt(isConnect, buf, off), buf[off], f);
        DelimiterChar(StateAt(isConnect, buf, off - 1), buf[off - 1]);
      } else {
        PartSources(UrlStart(isConnect), buf[off], f);
      }
    }
  }

  lemma PartSources(s: State, ch: char, f: Part)
    requires PartOf(ParseUrlChar(s, ch)) == Some(f) && PartOf(s) != Some(f)
    ensures f == Query ==> s == ReqQueryStringStart
    ensures f == Fragment ==> s == ReqFragmentStart
    ensures f == Path ==> ch == '/' || (ch == '*' && s == ReqSpacesBeforeUrl)
  {
  }

  lemma DelimiterChar(s: State, ch: char)
    ensures ParseUrlChar(s, ch) == ReqQueryStringStart ==> ch == '?'
    ensures ParseUrlChar(s, ch) == ReqFragmentStart ==> ch == '#'
    ensures ParseUrlChar(s, ch) != ReqSpacesBeforeUrl
  {
  }

  // A part starts at the first byte that belongs to it.
  lemma NotBefore(isConnect: bool, buf: string, m: Parts, auth: Option<Slice>, f: Part)
    requires Parsed(isConnect, buf, m, auth) && f in m && MainPart(f) && f != Host
    ensures m[f].off < |buf| && PartOf(StateAt(isConnect, buf, m[f].off + 1)) == Some(f)
    ensures PartOf(StateAt(isConnect, buf, m[f].off)) != Some(f)
    ensures m[f].off == 0 ==> StateAt(isConnect, buf, m[f].off) == UrlStart(isConnect)
  {
    hide HostStateAt, FoundAt;
    assert In(m, f, m[f].off);
    if m[f].off > 0 {
      hide PartOf;
      assert !In(m, f, m[f].off - 1);
    }
  }

  lemma PortColon(isConnect: bool, buf: string, m: Parts, auth: Option<Slice>)
    requires Parsed(isConnect, buf, m, auth) && Port in m
    ensures m[Port].off > 0 && buf[m[Port].off - 1] == ':'
  {
    hide PartOf, StateAt, FoundAt;
    var a, at, off := auth.value, FoundAt(isConnect, buf, |buf|), m[Port].off;
    assert In(m, Port, off);
    NextHostState(at, buf, a.off, off);
    if off > a.off {
      assert !In(m, Port, off - 1);
      NextHostState(at, buf, a.off, off - 1);
    }
  }
}
