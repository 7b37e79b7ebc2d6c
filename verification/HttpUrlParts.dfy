/**
  The two character automata of `http_parser_parse_url`, and the parts of a URL as runs of bytes that
  they assign to them.
 */
module HttpUrlParts {
  import opened HttpChars
  import opened HttpStep
  import opened Text

  datatype Part = Schema | Userinfo | Host | Port | Path | Query | Fragment

  datatype Slice = Slice(off: nat, len: nat)

  // `field_set` and `field_data`: the parts that were found.
  type Parts = map<Part, Slice>

  datatype HostState =
    | HostDead | UserinfoStart | UserinfoText | HostStart | V6Start | HostText | V6 | V6End
    | ZoneStart | Zone | PortStart | PortText

  // ---- The automata.

  function UrlStart(isConnect: bool): State {
    if isConnect then ReqServerStart else ReqSpacesBeforeUrl
  }

  // The state of `parse_url_char` after the first `n` bytes.
  function StateAt(isConnect: bool, buf: string, n: nat): State
    requires n <= |buf|
  {
    if n == 0 then UrlStart(isConnect) else ParseUrlChar(StateAt(isConnect, buf, n - 1), buf[n - 1])
  }

  // The part that a byte belongs to, by the state it leads to; delimiters belong to none. The
  // authority is counted as the host here.
  function PartOf(s: State): Option<Part> {
    match s
    case ReqSchema => Some(Schema)
    case ReqServer => Some(Host)
    case ReqServerWithAt => Some(Host)
    case ReqPath => Some(Path)
    case ReqQueryString => Some(Query)
    case ReqFragment => Some(Fragment)
    case _ => None
  }

  // States only move forward.
  function Rank(s: State): int {
    match s
    case ReqSpacesBeforeUrl => 0
    case ReqSchema => 1
    case ReqSchemaSlash => 2
    case ReqSchemaSlashSlash => 3
    case ReqServerStart => 4
    case ReqServer => 5
    case ReqServerWithAt => 5
    case ReqPath => 6
    case ReqQueryStringStart => 7
    case ReqQueryString => 8
    case ReqFragmentStart => 9
    case ReqFragment => 10
    case _ => -1
  }

  function PartRank(f: Part): int {
    match f
    case Schema => 1
    case Host => 5
    case Path => 6
    case Query => 8
    case Fragment => 10
    case Userinfo => -1
    case Port => -1
  }

  // `http_parse_host_char`
  function HostChar(s: HostState, ch: char): HostState {
    match s
    case UserinfoText => UserinfoChar(ch)
    case UserinfoStart => UserinfoChar(ch)
    case HostStart => if ch == '[' then V6Start else if IsHostChar(ch) then HostText else HostDead
    case HostText => if IsHostChar(ch) then HostText else if ch == ':' then PortStart else HostDead
    case V6End => if ch == ':' then PortStart else HostDead
    case V6 =>
      if ch == ']' then V6End
      else if IsHex(ch) || ch == ':' || ch == '.' then V6
      else if ch == '%' then ZoneStart
      else HostDead
    case V6Start => if IsHex(ch) || ch == ':' || ch == '.' then V6 else HostDead
    case Zone => if ch == ']' then V6End else ZoneChar(ch)
    case ZoneStart => ZoneChar(ch)
    case PortText => if IsNum(ch) then PortText else HostDead
    case PortStart => if IsNum(ch) then PortText else HostDead
    case HostDead => HostDead
  }

  function UserinfoChar(ch: char): HostState {
    if ch == '@' then HostStart else if IsUserinfoChar(ch) then UserinfoText else HostDead
  }

  function ZoneChar(ch: char): HostState {
    if IsAlphaNum(ch) || ch in "%.-_~" then Zone else HostDead
  }

  // The state of `http_parse_host_char` after the bytes from `from` to `n`.
  function HostStateAt(foundAt: bool, buf: string, from: nat, n: nat): HostState
    requires from <= n <= |buf|
  {
    if n == from then (if foundAt then UserinfoStart else HostStart)
    else HostChar(HostStateAt(foundAt, buf, from, n - 1), buf[n - 1])
  }

  function HostPartOf(s: HostState): Option<Part> {
    match s
    case UserinfoText => Some(Userinfo)
    case HostText => Some(Host)
    case V6 => Some(Host)
    case ZoneStart => Some(Host)
    case Zone => Some(Host)
    case PortText => Some(Port)
    case HostDead => None
    case UserinfoStart => None
    case HostStart => None
    case V6Start => None
    case V6End => None
    case PortStart => None
  }

  function HostRank(s: HostState): int {
    match s
    case UserinfoStart => 0
    case UserinfoText => 1
    case HostStart => 2
    case V6Start => 3
    case HostText => 4
    case V6 => 4
    case ZoneStart => 4
    case Zone => 4
    case V6End => 5
    case PortStart => 6
    case PortText => 7
    case HostDead => -1
  }

  predicate HostEnd(s: HostState) { s == HostText || s == V6End || s == PortText }

  // ---- What the parser promises.

  predicate In(m: Parts, f: Part, i: nat) {
    f in m && m[f].off <= i < m[f].off + m[f].len
  }

  predicate MainPart(f: Part) { f == Schema || f == Host || f == Path || f == Query || f == Fragment }

  predicate HostPart(f: Part) { f == Userinfo || f == Host || f == Port }

  function End(m: Parts, f: Part): nat
    requires f in m
  {
    m[f].off + m[f].len
  }

  // The parts are the runs of bytes that the automaton assigns to them, up to byte `n`; in
  // particular every part is one run.
  ghost predicate Cut(isConnect: bool, buf: string, n: nat, m: Parts) {
    && n <= |buf|
    && (forall f <- m :: MainPart(f) && m[f].len > 0 && End(m, f) <= n)
    && (forall f: Part, i: nat | i < n && MainPart(f) ::
          In(m, f, i) <==> PartOf(StateAt(isConnect, buf, i + 1)) == Some(f))
  }

  // The same for the authority, which starts at `from`.
  ghost predicate HostCut(foundAt: bool, buf: string, from: nat, n: nat, m: Parts) {
    && from <= n <= |buf|
    && (forall f <- m | HostPart(f) :: from <= m[f].off && End(m, f) <= n)
    && (forall f <- m | f == Userinfo || f == Port :: m[f].len > 0)
    && (forall f: Part, i: nat | from <= i < n && HostPart(f) ::
          In(m, f, i) <==> HostPartOf(HostStateAt(foundAt, buf, from, i + 1)) == Some(f))
  }

  // Some byte before `n` is an '@' in the authority.
  predicate FoundAt(isConnect: bool, buf: string, n: nat)
    requires n <= |buf|
  {
    n > 0 && (FoundAt(isConnect, buf, n - 1) || StateAt(isConnect, buf, n) == ReqServerWithAt)
  }

  lemma RankGrows(s: State, ch: char)
    requires ParseUrlChar(s, ch) != Dead
    ensures Rank(s) <= Rank(ParseUrlChar(s, ch)) && Rank(ParseUrlChar(s, ch)) > 0
  {
  }

  lemma PartRanks(s: State, f: Part)
    requires MainPart(f)
    ensures PartOf(s) == Some(f) <==> Rank(s) == PartRank(f)
  {
  }

  lemma HostRankGrows(s: HostState, ch: char)
    requires HostChar(s, ch) != HostDead
    ensures HostRank(s) <= HostRank(HostChar(s, ch))
  {
  }

  // ---- The main loop.

  // The loop's knowledge of the last part found.
  ghost predicate Tracking(isConnect: bool, buf: string, n: nat, m: Parts, last: Option<Part>)
    requires n <= |buf|
  {
    var s := StateAt(isConnect, buf, n);
    && s != Dead
    && (last == None ==> m == map[])
    && (last.Some? ==> last.value in m)
    && (PartOf(s).Some? ==> last == PartOf(s) && End(m, last.value) == n)
    && (forall f <- m :: PartRank(f) <= Rank(s))
  }

  // What the loop body makes of one more byte.
  function Extended(m: Parts, last: Option<Part>, n: nat, f: Part): Parts {
    if last == Some(f) && f in m then m[f := Slice(m[f].off, m[f].len + 1)] else m[f := Slice(n, 1)]
  }

  lemma CutSkips(isConnect: bool, buf: string, n: nat, m: Parts, last: Option<Part>)
    requires n < |buf| && Cut(isConnect, buf, n, m) && Tracking(isConnect, buf, n, m, last)
    requires StateAt(isConnect, buf, n + 1) != Dead && PartOf(StateAt(isConnect, buf, n + 1)) == None
    ensures Cut(isConnect, buf, n + 1, m) && Tracking(isConnect, buf, n + 1, m, last)
  {
    hide ParseUrlChar, PartOf, Rank;
    RankGrows(StateAt(isConnect, buf, n), buf[n]);
  }

  // A part is extended only at its end, and found only once.
  lemma RunGoesOn(isConnect: bool, buf: string, n: nat, m: Parts, last: Option<Part>, f: Part)
    requires n < |buf| && Tracking(isConnect, buf, n, m, last) && MainPart(f)
    requires StateAt(isConnect, buf, n + 1) != Dead && PartOf(StateAt(isConnect, buf, n + 1)) == Some(f)
    ensures f in m ==> last == Some(f) && End(m, f) == n
    ensures last == Some(f) ==> f in m
    ensures forall g <- m :: PartRank(g) <= PartRank(f)
    ensures Rank(StateAt(isConnect, buf, n + 1)) == PartRank(f)
  {
    hide ParseUrlChar, PartOf, Rank, PartRank, StateAt;
    var s, s' := StateAt(isConnect, buf, n), StateAt(isConnect, buf, n + 1);
    NextState(isConnect, buf, n);
    RankGrows(s, buf[n]);
    PartRanks(s, f);
    PartRanks(s', f);
  }

  lemma CutExtends(isConnect: bool, buf: string, n: nat, m: Parts, last: Option<Part>, f: Part)
    requires n < |buf| && Cut(isConnect, buf, n, m) && Tracking(isConnect, buf, n, m, last)
    requires StateAt(isConnect, buf, n + 1) != Dead && PartOf(StateAt(isConnect, buf, n + 1)) == Some(f)
    requires MainPart(f)
    ensures last == Some(f) ==> f in m && End(m, f) == n
    ensures
      var m' := Extended(m, last, n, f);
      Cut(isConnect, buf, n + 1, m') && Tracking(isConnect, buf, n + 1, m', Some(f))
  {
    RunGoesOn(isConnect, buf, n, m, last, f);
    hide ParseUrlChar, PartOf, Rank, PartRank, StateAt;
    var m' := Extended(m, last, n, f);
    assert Tracking(isConnect, buf, n + 1, m', Some(f));
    hide Tracking;
    forall g: Part, i: nat | i < n + 1 && MainPart(g)
      ensures In(m', g, i) <==> PartOf(StateAt(isConnect, buf, i + 1)) == Some(g)
    {
      ExtendedIn(isConnect, buf, n, m, last, f, g, i);
    }
  }

  lemma ExtendedIn(isConnect: bool, buf: string, n: nat, m: Parts, last: Option<Part>, f: Part, g: Part, i: nat)
    requires n < |buf| && Cut(isConnect, buf, n, m) && MainPart(f) && MainPart(g) && i < n + 1
    requires PartOf(StateAt(isConnect, buf, n + 1)) == Some(f)
    requires f in m ==> last == Some(f) && End(m, f) == n
    ensures In(Extended(m, last, n, f), g, i) <==> PartOf(StateAt(isConnect, buf, i + 1)) == Some(g)
  {
    hide ParseUrlChar, PartOf, StateAt;
    if i < n {
      assert In(m, g, i) <==> PartOf(StateAt(isConnect, buf, i + 1)) == Some(g);
    }
  }

  lemma NextState(isConnect: bool, buf: string, n: nat)
    requires n < |buf|
    ensures StateAt(isConnect, buf, n + 1) == ParseUrlChar(StateAt(isConnect, buf, n), buf[n])
  {
  }

  // ---- The authority.

  ghost predicate HostTracking(foundAt: bool, buf: string, from: nat, n: nat, m: Parts)
    requires from <= n <= |buf|
  {
    var s := HostStateAt(foundAt, buf, from, n);
    && s != HostDead && Host in m
    && (HostPartOf(s).Some? ==> HostPartOf(s).value in m && End(m, HostPartOf(s).value) == n)
    && (Userinfo in m ==> 1 <= HostRank(s))
    && (m[Host].len > 0 <==> 4 <= HostRank(s))
    && (Port in m <==> 7 <= HostRank(s))
  }

  // What `http_parse_host` makes of one more byte, in state `s` before it.
  function HostExtended(m: Parts, s: HostState, n: nat, f: Part): Parts
    requires Host in m
  {
    if HostPartOf(s) == Some(f) && f in m then m[f := Slice(m[f].off, m[f].len + 1)]
    else m[f := Slice(n, 1)]
  }

  lemma NextHostState(foundAt: bool, buf: string, from: nat, n: nat)
    requires from <= n < |buf|
    ensures HostStateAt(foundAt, buf, from, n + 1) == HostChar(HostStateAt(foundAt, buf, from, n), buf[n])
  {
  }

  lemma HostSkips(foundAt: bool, buf: string, from: nat, n: nat, m: Parts)
    requires n < |buf| && HostCut(foundAt, buf, from, n, m) && HostTracking(foundAt, buf, from, n, m)
    requires var s := HostStateAt(foundAt, buf, from, n + 1); s != HostDead && HostPartOf(s) == None
    ensures HostCut(foundAt, buf, from, n + 1, m) && HostTracking(foundAt, buf, from, n + 1, m)
  {
    NextHostState(foundAt, buf, from, n);
    hide HostStateAt;
    HostSkipRanks(HostStateAt(foundAt, buf, from, n), buf[n]);
    hide HostChar, HostRank, HostPartOf;
  }

  lemma HostSkipRanks(s: HostState, ch: char)
    requires HostChar(s, ch) != HostDead && HostPartOf(HostChar(s, ch)) == None
    ensures var t := HostChar(s, ch);
      && HostRank(s) <= HostRank(t)
      && (4 <= HostRank(s) <==> 4 <= HostRank(t)) && (7 <= HostRank(s) <==> 7 <= HostRank(t))
  {
  }

  lemma HostRunRanks(s: HostState, ch: char, f: Part)
    requires HostPartOf(HostChar(s, ch)) == Some(f)
    ensures var t := HostChar(s, ch);
      && HostRank(s) <= HostRank(t)
      && f == (if HostRank(t) == 1 then Userinfo else if HostRank(t) == 4 then Host else Port)
      && HostRank(t) in {1, 4, 7}
      && (HostPartOf(s) == Some(f) <==> HostRank(s) == HostRank(t))
  {
  }

  lemma HostExtends(foundAt: bool, buf: string, from: nat, n: nat, m: Parts, f: Part)
    requires n < |buf| && HostCut(foundAt, buf, from, n, m) && HostTracking(foundAt, buf, from, n, m)
    requires HostPartOf(HostStateAt(foundAt, buf, from, n + 1)) == Some(f)
    ensures var s := HostStateAt(foundAt, buf, from, n);
      && (HostPartOf(s) == Some(f) ==> f in m && End(m, f) == n)
      && (HostPartOf(s) != Some(f) && f == Host ==> m[Host].len == 0)
    ensures
      var m' := HostExtended(m, HostStateAt(foundAt, buf, from, n), n, f);
      HostCut(foundAt, buf, from, n + 1, m') && HostTracking(foundAt, buf, from, n + 1, m')
  {
    NextHostState(foundAt, buf, from, n);
    var s, t := HostStateAt(foundAt, buf, from, n), HostStateAt(foundAt, buf, from, n + 1);
    HostRunRanks(s, buf[n], f);
    hide HostStateAt, HostChar, HostRank, HostPartOf;
    var m' := HostExtended(m, s, n, f);
    forall g: Part, i: nat | from <= i < n + 1 && HostPart(g)
      ensures In(m', g, i) <==> HostPartOf(HostStateAt(foundAt, buf, from, i + 1)) == Some(g)
    {
      if i < n {
        assert In(m, g, i) <==> HostPartOf(HostStateAt(foundAt, buf, from, i + 1)) == Some(g);
      }
    }
  }

  // ---- The whole URL.

  predicate InSlice(a: Option<Slice>, i: nat) { a.Some? && a.value.off <= i < a.value.off + a.value.len }

  // `m` holds exactly the parts that the automata find; `auth` is the authority.
  ghost predicate Parsed(isConnect: bool, buf: string, m: Parts, auth: Option<Slice>) {
    && StateAt(isConnect, buf, |buf|) != Dead
    && (forall f <- m :: m[f].len > 0 && End(m, f) <= |buf|)
    && (forall f: Part, i: nat | i < |buf| && MainPart(f) && f != Host ::
          In(m, f, i) <==> PartOf(StateAt(isConnect, buf, i + 1)) == Some(f))
    && (forall i: nat | i < |buf| ::
          InSlice(auth, i) <==> PartOf(StateAt(isConnect, buf, i + 1)) == Some(Host))
    && (match auth
        case None => Userinfo !in m && Host !in m && Port !in m
        case Some(a) =>
          && a.len > 0 && a.off + a.len <= |buf| && Host in m
          && HostCut(FoundAt(isConnect, buf, |buf|), buf, a.off, a.off + a.len, m)
          && HostEnd(HostStateAt(FoundAt(isConnect, buf, |buf|), buf, a.off, a.off + a.len)))
  }

  predicate Digits(s: string) { forall i :: 0 <= i < |s| ==> IsNum(s[i]) }

  function NumValue(s: string): (v: nat)
    requires Digits(s)
  {
    if s == "" then 0 else NumValue(s[..|s| - 1]) * 10 + DigitValue(s[|s| - 1])
  }

  function TextOf(buf: string, m: Parts, f: Part): string {
    if f in m && End(m, f) <= |buf| then buf[m[f].off..End(m, f)] else ""
  }

  ghost predicate Valid(isConnect: bool, buf: string, m: Parts, auth: Option<Slice>, port: nat) {
    && buf != "" && Parsed(isConnect, buf, m, auth)
    && (Schema in m ==> Host in m)
    && (isConnect ==> m.Keys == {Host, Port})
    && Digits(TextOf(buf, m, Port))
    && port == NumValue(TextOf(buf, m, Port)) <= 0xffff
  }

  lemma {:induction false} DeadStays(isConnect: bool, buf: string, n: nat, k: nat)
    requires n <= k <= |buf| && StateAt(isConnect, buf, n) == Dead
    ensures StateAt(isConnect, buf, k) == Dead
    decreases k
  {
    if n < k {
      DeadStays(isConnect, buf, n, k - 1);
    }
  }

  lemma {:induction false} HostDeadStays(foundAt: bool, buf: string, from: nat, n: nat, k: nat)
    requires from <= n <= k <= |buf| && HostStateAt(foundAt, buf, from, n) == HostDead
    ensures HostStateAt(foundAt, buf, from, k) == HostDead
    decreases k
  {
    if n < k {
      HostDeadStays(foundAt, buf, from, n, k - 1);
    }
  }

  // Slices that are not empty are given by their bytes.
  lemma SameSlice(a: Slice, b: Slice, lo: nat, hi: nat)
    requires a.len > 0 && b.len > 0
    requires lo <= a.off && a.off + a.len <= hi && lo <= b.off && b.off + b.len <= hi
    requires forall i: nat | lo <= i < hi :: InSlice(Some(a), i) <==> InSlice(Some(b), i)
    ensures a == b
  {
    assert InSlice(Some(a), a.off) && InSlice(Some(b), b.off);
    assert InSlice(Some(a), a.off + a.len - 1) && InSlice(Some(b), b.off + b.len - 1);
  }

  lemma SameAuthority(isConnect: bool, buf: string, m: Parts, a: Option<Slice>, b: Option<Slice>)
    requires Parsed(isConnect, buf, m, a)
    requires b.Some? ==> b.value.len > 0 && b.value.off + b.value.len <= |buf|
    requires forall i: nat | i < |buf| ::
               InSlice(b, i) <==> PartOf(StateAt(isConnect, buf, i + 1)) == Some(Host)
    ensures a == b
  {
    hide PartOf, StateAt;
    forall i: nat | i < |buf| ensures InSlice(a, i) <==> InSlice(b, i) {
      assert InSlice(a, i) <==> PartOf(StateAt(isConnect, buf, i + 1)) == Some(Host);
    }
    assert a.Some? ==> InSlice(a, a.value.off) && InSlice(b, a.value.off);
    assert b.Some? ==> InSlice(b, b.value.off) && InSlice(a, b.value.off);
    if a.Some? && b.Some? {
      SameSlice(a.value, b.value, 0, |buf|);
    }
  }

  lemma SamePart(isConnect: bool, buf: string, m: Parts, m': Parts, auth: Option<Slice>, f: Part)
    requires Parsed(isConnect, buf, m, auth) && Parsed(isConnect, buf, m', auth)
    ensures f in m <==> f in m'
    ensures f in m ==> m[f] == m'[f]
  {
    hide PartOf, StateAt, HostPartOf, HostStateAt;
    var lo, hi := if auth.Some? && HostPart(f) then auth.value.off else 0,
                  if auth.Some? && HostPart(f) then auth.value.off + auth.value.len else |buf|;
    if MainPart(f) || auth.Some? {
      forall i: nat | lo <= i < hi ensures In(m, f, i) <==> In(m', f, i) {
        if HostPart(f) && auth.Some? {
          var s := HostStateAt(FoundAt(isConnect, buf, |buf|), buf, auth.value.off, i + 1);
          assert In(m, f, i) <==> HostPartOf(s) == Some(f);
          assert In(m', f, i) <==> HostPartOf(s) == Some(f);
        } else if f != Host {
          assert In(m, f, i) <==> PartOf(StateAt(isConnect, buf, i + 1)) == Some(f);
          assert In(m', f, i) <==> PartOf(StateAt(isConnect, buf, i + 1)) == Some(f);
        }
      }
      if f in m {
        assert In(m, f, m[f].off);
      }
      if f in m' {
        assert In(m', f, m'[f].off);
      }
      if f in m && f in m' {
        forall i: nat | lo <= i < hi ensures InSlice(Some(m[f]), i) <==> InSlice(Some(m'[f]), i) {
          assert In(m, f, i) <==> In(m', f, i);
        }
        SameSlice(m[f], m'[f], lo, hi);
      }
    }
  }

  /** The parts of a URL are determined by its bytes. */
  lemma ParsedUnique(isConnect: bool, buf: string, m: Parts, a: Option<Slice>, m': Parts, a': Option<Slice>)
    requires Parsed(isConnect, buf, m, a) && Parsed(isConnect, buf, m', a')
    ensures m == m' && a == a'
  {
    SameAuthority(isConnect, buf, m, a, a');
    forall f: Part ensures (f in m <==> f in m') && (f in m ==> m[f] == m'[f]) {
      SamePart(isConnect, buf, m, m', a, f);
    }
  }

  // From where the states that count a byte are reached.
  lemma HostSources(s: HostState, ch: char)
    ensures var t := HostChar(s, ch);
      && (t == HostText ==> s == HostStart || s == HostText)
      && (t == V6 ==> s == V6Start || s == V6)
      && (t == ZoneStart || t == Zone ==> s == V6 || s == ZoneStart || s == Zone)
      && (t == PortText ==> s == PortStart || s == PortText)
      && (t == UserinfoText ==> s == UserinfoStart || s == UserinfoText)
  {
  }

  lemma HostBegins(foundAt: bool, buf: string, from: nat, m: Parts)
    requires from <= |buf| && Host in m && m[Host] == Slice(from, 0) && Userinfo !in m && Port !in m
    ensures HostCut(foundAt, buf, from, from, m) && HostTracking(foundAt, buf, from, from, m)
    ensures HostStateAt(foundAt, buf, from, from) == if foundAt then UserinfoStart else HostStart
  {
  }

  // The parts outside the authority are the same.
  ghost predicate SameMain(m: Parts, m': Parts) {
    forall f | MainPart(f) && f != Host :: (f in m <==> f in m') && (f in m ==> m[f] == m'[f])
  }

  lemma SameMainUpdate(m: Parts, m': Parts, f: Part, a: Slice)
    requires SameMain(m, m') && HostPart(f)
    ensures SameMain(m[f := a], m')
  {
  }

  lemma DeadIsNoEnd()
    ensures !HostEnd(HostDead)
  {
  }

  // One turn of the loop over the authority.
  lemma HostTurn(foundAt: bool, buf: string, from: nat, n: nat, m: Parts, m0: Parts)
    requires from <= n < |buf| && HostCut(foundAt, buf, from, n, m) && HostTracking(foundAt, buf, from, n, m)
    requires HostStateAt(foundAt, buf, from, n + 1) != HostDead && SameMain(m, m0)
    ensures Host in m
    ensures
      var s, t := HostStateAt(foundAt, buf, from, n), HostStateAt(foundAt, buf, from, n + 1);
      var m' := if HostPartOf(t) == None then m else HostExtended(m, s, n, HostPartOf(t).value);
      && (HostPartOf(s).Some? ==> HostPartOf(s).value in m)
      && (HostPartOf(t) == Some(Host) && HostPartOf(s) != Some(Host) ==> m[Host].len == 0)
      && HostCut(foundAt, buf, from, n + 1, m') && HostTracking(foundAt, buf, from, n + 1, m')
      && SameMain(m', m0)
  {
    hide HostStateAt, HostCut, HostRank;
    var t := HostStateAt(foundAt, buf, from, n + 1);
    if HostPartOf(t) == None {
      HostSkips(foundAt, buf, from, n, m);
    } else {
      HostExtends(foundAt, buf, from, n, m, HostPartOf(t).value);
    }
  }

  lemma HostEnds(foundAt: bool, buf: string, from: nat, end: nat, m: Parts)
    requires from <= end <= |buf| && HostTracking(foundAt, buf, from, end, m)
    requires HostEnd(HostStateAt(foundAt, buf, from, end))
    ensures Host in m && m[Host].len > 0
  {
  }

  lemma SplitBegins(isConnect: bool, buf: string)
    ensures StateAt(isConnect, buf, 0) == UrlStart(isConnect) && !FoundAt(isConnect, buf, 0)
    ensures Cut(isConnect, buf, 0, map[]) && Tracking(isConnect, buf, 0, map[], None)
  {
  }

  lemma NextFoundAt(isConnect: bool, buf: string, n: nat)
    requires n < |buf|
    ensures FoundAt(isConnect, buf, n + 1)
        <==> FoundAt(isConnect, buf, n) || StateAt(isConnect, buf, n + 1) == ReqServerWithAt
  {
  }

  // The states between parts, and the part of every other one.
  predicate Between(s: State) {
    s == ReqSchemaSlash || s == ReqSchemaSlashSlash || s == ReqServerStart || s == ReqQueryStringStart || s == ReqFragmentStart
  }

  // One turn of the loop over the bytes.
  lemma SplitTurn(isConnect: bool, buf: string, n: nat, m: Parts, last: Option<Part>, s: State)
    requires n < |buf| && Cut(isConnect, buf, n, m) && Tracking(isConnect, buf, n, m, last)
    requires s == StateAt(isConnect, buf, n + 1) != Dead
    ensures Between(s) ==> Cut(isConnect, buf, n + 1, m) && Tracking(isConnect, buf, n + 1, m, last)
    ensures !Between(s) ==>
      && PartOf(s).Some?
      && var f := PartOf(s).value;
         var m' := Extended(m, last, n, f);
         && (last == Some(f) ==> f in m)
         && Cut(isConnect, buf, n + 1, m') && Tracking(isConnect, buf, n + 1, m', Some(f))
    ensures !Between(s) ==>
      PartOf(s)
      == if s == ReqSchema then Some(Schema) else if s == ReqServerWithAt || s == ReqServer then Some(Host)
         else if s == ReqPath then Some(Path) else if s == ReqQueryString then Some(Query) else Some(Fragment)
    ensures !Between(s) ==> s == ReqSchema || s == ReqServer || s == ReqServerWithAt || s == ReqPath || s == ReqQueryString || s == ReqFragment
  {
    NoOtherState(isConnect, buf, n);
    hide StateAt, Cut, Tracking, Extended, End;
    if Between(s) {
      CutSkips(isConnect, buf, n, m, last);
    } else {
      CutExtends(isConnect, buf, n, m, last, PartOf(s).value);
    }
  }

  lemma NoOtherState(isConnect: bool, buf: string, n: nat)
    requires n < |buf|
    ensures var s := StateAt(isConnect, buf, n + 1);
      s == Dead || s == ReqSchema || s == ReqServer || s == ReqServerWithAt || s == ReqPath
      || s == ReqQueryString || s == ReqFragment || s == ReqSchemaSlash || s == ReqSchemaSlashSlash
      || s == ReqServerStart || s == ReqQueryStringStart || s == ReqFragmentStart
  {
  }

  lemma StillAlive(isConnect: bool, buf: string, n: nat, m: Parts, last: Option<Part>)
    requires n <= |buf| && Tracking(isConnect, buf, n, m, last)
    ensures StateAt(isConnect, buf, n) != Dead
  {
  }

  lemma NumValueStep(text: string, i: nat)
    requires Digits(text) && i < |text|
    ensures Digits(text[..i]) && Digits(text[..i + 1])
    ensures NumValue(text[..i + 1]) == NumValue(text[..i]) * 10 + DigitValue(text[i])
  {
    assert text[..i + 1][..i] == text[..i];
  }

  lemma {:induction false} NumValueGrows(text: string, i: nat)
    requires Digits(text) && i <= |text|
    ensures Digits(text[..i]) && NumValue(text[..i]) <= NumValue(text)
    decreases |text| - i
  {
    if i == |text| {
      assert text[..i] == text;
    } else {
      NumValueStep(text, i);
      NumValueGrows(text, i + 1);
    }
  }

  lemma DeadIsInvalid(isConnect: bool, buf: string)
    requires StateAt(isConnect, buf, |buf|) == Dead
    ensures forall m, a, v :: !Valid(isConnect, buf, m, a, v)
  {
  }

  // The authority as the main loop leaves it.
  lemma CutHost(isConnect: bool, buf: string, m: Parts)
    requires Cut(isConnect, buf, |buf|, m) && Host in m
    ensures m[Host].len > 0 && End(m, Host) <= |buf| && Userinfo !in m && Port !in m
  {
  }

  lemma AuthorityBytes(isConnect: bool, buf: string, m: Parts)
    requires Cut(isConnect, buf, |buf|, m)
    ensures
      var b := if Host in m then Some(m[Host]) else None;
      forall i: nat | i < |buf| :: InSlice(b, i) <==> PartOf(StateAt(isConnect, buf, i + 1)) == Some(Host)
  {
    var b := if Host in m then Some(m[Host]) else None;
    forall i: nat | i < |buf|
      ensures InSlice(b, i) <==> PartOf(StateAt(isConnect, buf, i + 1)) == Some(Host)
    {
      assert In(m, Host, i) <==> PartOf(StateAt(isConnect, buf, i + 1)) == Some(Host);
    }
  }

  lemma BadHostIsInvalid(isConnect: bool, buf: string, m: Parts)
    requires Cut(isConnect, buf, |buf|, m) && Host in m && End(m, Host) <= |buf|
    requires !HostEnd(HostStateAt(FoundAt(isConnect, buf, |buf|), buf, m[Host].off, End(m, Host)))
    ensures forall m', a, v :: !Valid(isConnect, buf, m', a, v)
  {
    hide StateAt, PartOf, HostStateAt, HostPartOf, FoundAt, HostEnd;
    forall m', a, v ensures !Valid(isConnect, buf, m', a, v) {
      if Valid(isConnect, buf, m', a, v) {
        AuthorityBytes(isConnect, buf, m);
        CutHost(isConnect, buf, m);
        SameAuthority(isConnect, buf, m', a, Some(m[Host]));
        assert false;
      }
    }
  }

  lemma Assembles(isConnect: bool, buf: string, cut: Parts, m: Parts, auth: Option<Slice>)
    requires StateAt(isConnect, buf, |buf|) != Dead && Cut(isConnect, buf, |buf|, cut)
    requires SameMain(m, cut)
    requires auth == if Host in cut then Some(cut[Host]) else None
    requires Host !in cut ==> m == cut
    requires Host in cut ==>
               && End(cut, Host) <= |buf|
               && Host in m && m[Host].len > 0
               && HostCut(FoundAt(isConnect, buf, |buf|), buf, cut[Host].off, End(cut, Host), m)
               && HostEnd(HostStateAt(FoundAt(isConnect, buf, |buf|), buf, cut[Host].off, End(cut, Host)))
    ensures Parsed(isConnect, buf, m, auth)
  {
    hide StateAt, PartOf, HostStateAt, HostPartOf, FoundAt, HostEnd;
    AuthorityBytes(isConnect, buf, cut);
    forall f: Part, i: nat | i < |buf| && MainPart(f) && f != Host
      ensures In(m, f, i) <==> PartOf(StateAt(isConnect, buf, i + 1)) == Some(f)
    {
      assert In(cut, f, i) <==> In(m, f, i);
    }
    forall f <- m ensures m[f].len > 0 && End(m, f) <= |buf| {
      if MainPart(f) && f != Host {
        assert f in cut;
      }
    }
  }

  lemma Others(isConnect: bool, buf: string, m: Parts, auth: Option<Slice>)
    requires Parsed(isConnect, buf, m, auth)
    ensures forall m', a, v :: Valid(isConnect, buf, m', a, v) ==> m' == m
  {
    hide Parsed;
    forall m', a, v | Valid(isConnect, buf, m', a, v) ensures m' == m {
      ParsedUnique(isConnect, buf, m, auth, m', a);
    }
  }

  // The bytes of the port are digits.
  lemma PortDigits(isConnect: bool, buf: string, m: Parts, auth: Option<Slice>)
    requires Parsed(isConnect, buf, m, auth) && Port in m
    ensures End(m, Port) <= |buf| && Digits(buf[m[Port].off..End(m, Port)])
  {
    var a := auth.value;
    var at := FoundAt(isConnect, buf, |buf|);
    forall i: nat | m[Port].off <= i < End(m, Port) ensures IsNum(buf[i]) {
      assert In(m, Port, i);
      assert HostPartOf(HostStateAt(at, buf, a.off, i + 1)) == Some(Port);
      NextHostState(at, buf, a.off, i);
      DigitSource(HostStateAt(at, buf, a.off, i), buf[i]);
    }
  }

  lemma DigitSource(s: HostState, ch: char)
    requires HostPartOf(HostChar(s, ch)) == Some(Port)
    ensures IsNum(ch)
  {
  }

  lemma ParsedAlive(isConnect: bool, buf: string, m: Parts, auth: Option<Slice>)
    requires Parsed(isConnect, buf, m, auth)
    ensures StateAt(isConnect, buf, |buf|) != Dead
  {
  }

  lemma EndIsAlive(s: HostState)
    requires HostEnd(s)
    ensures s != HostDead
  {
  }
}
