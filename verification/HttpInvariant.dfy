/**
  What holds of the HTTP parser between any two bytes, whatever the bytes are. It implies that no
  `assert` of `http_parser_execute` can fail and that no matcher reads past its keyword.
 */
module HttpInvariant {
  import opened HttpChars
  import opened HttpStep
  import opened HttpTrace
  import opened Text

  // Header states that `s_header_field` knows, with the length of the match so far.
  predicate FieldMatching(hs: HeaderState, index: nat) {
    match hs
    case HGeneral => true
    case HC => index <= 0
    case HCO => index <= 1
    case HCON => index <= 2
    case HMatchingConnection => index <= |CONNECTION| - 2
    case HMatchingProxyConnection => index <= |PROXY_CONNECTION| - 2
    case HMatchingContentLength => index <= |CONTENT_LENGTH| - 2
    case HMatchingTransferEncoding => index <= |TRANSFER_ENCODING| - 2
    case HMatchingUpgrade => index <= |UPGRADE| - 2
    case HConnection => true
    case HContentLength => true
    case HTransferEncoding => true
    case HUpgrade => true
    case _ => false
  }

  // Header states that may occur inside a header value.
  predicate ValueMatching(hs: HeaderState, index: nat) {
    match hs
    case HGeneral => true
    case HContentLengthNum => true
    case HContentLengthWs => true
    case HMatchingTeTokenStart => index == 0
    case HMatchingTeChunked => index <= |CHUNKED| - 2
    case HMatchingTeToken => true
    case HMatchingConnTokenStart => index == 0
    case HMatchingConnKeepAlive => index <= |KEEP_ALIVE| - 2
    case HMatchingConnClose => index <= |CLOSE| - 2
    case HMatchingConnUpgrade => index <= |UPGRADE| - 2
    case HMatchingConnToken => true
    case HTeChunked => true
    case HConnKeepAlive => true
    case HConnClose => true
    case HConnUpgrade => true
    case _ => false
  }

  predicate LengthKnown(p: Parser) { 0 < p.contentLength < NO_LENGTH }

  predicate StateInv(p: Parser) {
    && (p.state.ReqMethod? ==> p.index <= |MethodName(p.verb)|)
    && (p.state.HeaderField? ==> FieldMatching(p.hs, p.index))
    && (p.state.HeaderValue? ==> ValueMatching(p.hs, p.index))
    && (p.state.ChunkSizeStart? ==> p.flags.chunked && p.nread == 0)
    && (InChunkHeader(p.state) ==> p.flags.chunked && p.contentLength < NO_LENGTH)
    && (p.state.ChunkData? ==> p.flags.chunked && LengthKnown(p))
    && (p.state.ChunkDataAlmostDone? ==> p.flags.chunked && p.contentLength == 0)
    && (p.state.ChunkDataDone? ==> p.flags.chunked)
    && (p.state.BodyIdentity? ==> LengthKnown(p))
    && !p.state.HeaderValueStart? && !p.state.HeadersDone? && !p.state.MessageDone?
  }

  predicate InChunkHeader(s: State) { s.ChunkSize? || s.ChunkParameters? || s.ChunkSizeAlmostDone? }

  // The fields fit their C widths: five bits of `index`, 64 of `content_length`, 32 of `nread`.
  predicate WidthsOk(cfg: Config, p: Parser) {
    p.index <= 18 && p.contentLength <= NO_LENGTH && p.nread <= cfg.maxHeader && p.status <= 999
    && p.major <= 9 && p.minor <= 9
  }

  predicate Inv(cfg: Config, p: Parser) { WidthsOk(cfg, p) && StateInv(p) }

  // What the switch is entered with: the byte is counted.
  predicate Entered(cfg: Config, p: Parser) {
    && WidthsOk(cfg, p)
    && (if p.state == ChunkSizeStart then p.flags.chunked && p.nread == 1 else StateInv(p))
  }

  // The byte leaves the parser in a good state, and its callback operations never set a second
  // mark, never notify over pending data and leave exactly the mark that the new state needs.
  predicate Keeps(cfg: Config, o: Outcome, open: Option<Field>) {
    match o
    case Next(q, acts) => Inv(cfg, q) && Tidy(acts, open) && Left(acts, open) == Open(q.state)
    case Exit(q, acts) =>
      Inv(cfg, q) && Tidy(acts, open) && Left(acts, open) == None == Open(q.state)
    case Fail(e) => e != OK
    case Broken => false
  }

  // The states that consume body bytes.
  predicate BodyBytes(s: State) { s.BodyIdentity? || s.ChunkData? || s.BodyIdentityEof? }

  // A body byte that is not the last one of a message sets the body mark.
  predicate KeepsBody(cfg: Config, o: Outcome) {
    o.Next? && Inv(cfg, o.p) && o.acts == [Mark(Body)]
    && (BodyBytes(o.p.state) || o.p.state == ChunkDataAlmostDone)
  }

  // The common shapes of an outcome: at most one callback operation.
  predicate Simple(cfg: Config, o: Outcome, open: Option<Field>) {
    || (o.Fail? && o.errno != OK)
    || (&& o.Next?
        && Inv(cfg, o.p)
        && (if |o.acts| == 0 then Open(o.p.state) == open
            else |o.acts| == 1 && TidyOne(o.acts[0], open) && LeftOne(o.acts[0]) == Open(o.p.state)))
  }

  lemma TidySingle(a: Act, open: Option<Field>)
    requires TidyOne(a, open)
    ensures Tidy([a], open) && Left([a], open) == LeftOne(a)
  {
    assert [a][1..] == [];
    assert Tidy([], LeftOne(a)) && Left([], LeftOne(a)) == LeftOne(a);
  }

  lemma SimpleGood(cfg: Config, o: Outcome, open: Option<Field>)
    requires Simple(cfg, o, open)
    ensures Keeps(cfg, o, open)
  {
    hide Inv, Open;
    if o.Next? && o.acts != [] {
      assert o.acts == [o.acts[0]];
      TidySingle(o.acts[0], open);
    }
  }

  // States that bring no obligation of their own.
  predicate Calm(s: State) {
    && Open(s) == None
    && !s.ReqMethod? && !s.ChunkSizeStart? && !InChunkHeader(s) && !s.ChunkData?
    && !s.ChunkDataAlmostDone? && !s.ChunkDataDone? && !s.BodyIdentity?
    && !s.HeaderValueStart? && !s.HeadersDone? && !s.MessageDone?
  }

  lemma CalmSimple(cfg: Config, o: Outcome)
    requires (o.Fail? && o.errno != OK) || (o.Next? && o.acts == [] && Calm(o.p.state) && WidthsOk(cfg, o.p))
    ensures Simple(cfg, o, None)
  {
    hide WidthsOk;
  }

  lemma SimpleExpect(cfg: Config, p: Parser, ch: char, want: char, e: Errno, to: State)
    requires WidthsOk(cfg, p) && Calm(to) && e != OK
    ensures Simple(cfg, Expect(p, ch, want, e, to), None)
  {
    hide Simple, Calm;
    CalmSimple(cfg, Expect(p, ch, want, e, to));
  }

  lemma SimpleStartRequest(cfg: Config, p: Parser, ch: char)
    requires WidthsOk(cfg, p) && p.state == StartReq
    ensures Simple(cfg, StartRequest(p, ch), None)
  {
    hide MethodName;
  }

  lemma SimpleStart(cfg: Config, p: Parser, ch: char)
    requires WidthsOk(cfg, p) && p.state in {ResOrRespH, StartRes}
    ensures Simple(cfg, StartMessage(p, ch), None)
  {
    hide MethodName;
    match p.state
    case ResOrRespH => assert |MethodName(HEAD)| >= 3;
    case StartRes =>
  }

  lemma SimpleIdle(cfg: Config, p: Parser, ch: char)
    requires WidthsOk(cfg, p) && p.state in {Dead, StartReqOrRes}
    ensures Simple(cfg, StartMessage(p, ch), None)
  {
    hide StartRequest, MethodName;
    if p.state == StartReqOrRes {
      hide Simple;
      SimpleStartRequest(cfg, Fresh(p).(kind := Request, state := StartReq), ch);
      SimpleFirst(cfg, p, ch);
    }
  }

  lemma SimpleFirst(cfg: Config, p: Parser, ch: char)
    requires WidthsOk(cfg, p) && p.state == StartReqOrRes
    ensures Simple(cfg, Next(p, []), None)
    ensures Simple(cfg, Next(Fresh(p).(state := ResOrRespH), [Notify(MessageBegin)]), None)
  {
    hide MethodName;
  }

  lemma GoodStart(cfg: Config, p: Parser, ch: char)
    requires Entered(cfg, p) && GroupOf(p.state) == GStart
    ensures Keeps(cfg, StartMessage(p, ch), Open(p.state))
  {
    hide Keeps, Simple, StartRequest, WidthsOk;
    match p.state
    case Dead => SimpleIdle(cfg, p, ch); SimpleGood(cfg, StartMessage(p, ch), None);
    case StartReqOrRes => SimpleIdle(cfg, p, ch); SimpleGood(cfg, StartMessage(p, ch), None);
    case ResOrRespH => SimpleStart(cfg, p, ch); SimpleGood(cfg, StartMessage(p, ch), None);
    case StartRes => SimpleStart(cfg, p, ch); SimpleGood(cfg, StartMessage(p, ch), None);
    case StartReq => SimpleStartRequest(cfg, p, ch); SimpleGood(cfg, StartRequest(p, ch), None);
  }

  lemma GoodStatusText(cfg: Config, p: Parser, ch: char)
    requires WidthsOk(cfg, p)
    ensures Simple(cfg, StatusText(p, ch), Some(Status))
  {
  }

  lemma GoodStatusStart(cfg: Config, p: Parser, ch: char)
    requires WidthsOk(cfg, p)
    ensures Keeps(cfg, StatusStart(p, ch), None)
  {
    hide Keeps, StatusText, Prefix;
    var q := p.(index := 0);
    GoodStatusText(cfg, q, ch);
    SimpleGood(cfg, StatusText(q, ch), Some(Status));
    GoodPrefix(cfg, [Mark(Status)], StatusText(q, ch), None, Some(Status));
  }

  lemma GoodStatusCode(cfg: Config, p: Parser, ch: char)
    requires WidthsOk(cfg, p) && p.state == ResStatusCode
    ensures Keeps(cfg, StatusCode(p, ch), None)
  {
    hide Keeps, StatusStart, Simple;
    GoodStatusStart(cfg, p, ch);
    var o := StatusCode(p, ch);
    if IsNum(ch) || (ch != CR && ch != LF) {
      CalmSimple(cfg, o);
      SimpleGood(cfg, o, None);
    }
  }

  predicate ResWord(s: State) {
    s in {ResH, ResHT, ResHTT, ResHTTP, ResHttpDot, ResHttpEnd, ResLineAlmostDone}
  }

  lemma SimpleResWord(cfg: Config, p: Parser, ch: char)
    requires WidthsOk(cfg, p) && ResWord(p.state)
    ensures Simple(cfg, ResponseLine(p, ch), None)
  {
    hide Simple, Expect, WidthsOk;
    match p.state
    case ResH => SimpleExpect(cfg, p, ch, 'T', STRICT, ResHT);
    case ResHT => SimpleExpect(cfg, p, ch, 'T', STRICT, ResHTT);
    case ResHTT => SimpleExpect(cfg, p, ch, 'P', STRICT, ResHTTP);
    case ResHTTP => SimpleExpect(cfg, p, ch, '/', STRICT, ResHttpMajor);
    case ResHttpDot => SimpleExpect(cfg, p, ch, '.', INVALID_VERSION, ResHttpMinor);
    case ResHttpEnd => SimpleExpect(cfg, p, ch, ' ', INVALID_VERSION, ResFirstStatusCode);
    case ResLineAlmostDone => SimpleExpect(cfg, p, ch, LF, STRICT, HeaderFieldStart);
  }

  lemma SimpleResVersion(cfg: Config, p: Parser, ch: char)
    requires WidthsOk(cfg, p) && p.state in {ResHttpMajor, ResHttpMinor, ResFirstStatusCode}
    ensures Simple(cfg, ResponseLine(p, ch), None)
  {
    hide Simple, Expect, StatusCode, StatusStart, StatusText;
    match p.state
    case ResHttpMajor => CalmSimple(cfg, ResponseLine(p, ch));
    case ResHttpMinor => CalmSimple(cfg, ResponseLine(p, ch));
    case ResFirstStatusCode => CalmSimple(cfg, ResponseLine(p, ch));
  }

  lemma GoodResponse(cfg: Config, p: Parser, ch: char)
    requires Entered(cfg, p) && GroupOf(p.state) == GResponse
    ensures Keeps(cfg, ResponseLine(p, ch), Open(p.state))
  {
    hide Simple, Keeps, StatusStart, StatusCode, StatusText, Expect, WidthsOk;
    if p.state == ResStatusCode {
      GoodStatusCode(cfg, p, ch);
    } else if p.state == ResStatusStart {
      GoodStatusStart(cfg, p, ch);
    } else if p.state == ResStatus {
      GoodStatusText(cfg, p, ch);
      SimpleGood(cfg, ResponseLine(p, ch), Some(Status));
    } else {
      if ResWord(p.state) {
        SimpleResWord(cfg, p, ch);
      } else {
        SimpleResVersion(cfg, p, ch);
      }
      SimpleGood(cfg, ResponseLine(p, ch), None);
    }
  }

  lemma OtherMethodFits(m: Method, index: nat, ch: char)
    requires OtherMethod(m, index, ch) != m
    ensures index + 1 <= |MethodName(OtherMethod(m, index, ch))|
  {
  }

  lemma SimpleMethod(cfg: Config, p: Parser, ch: char)
    requires Entered(cfg, p) && p.state == ReqMethod
    ensures Simple(cfg, MethodByte(p, ch), None)
  {
    hide OtherMethod, MethodName;
    if OtherMethod(p.verb, p.index, ch) != p.verb {
      OtherMethodFits(p.verb, p.index, ch);
    }
  }

  predicate HttpWord(s: State) {
    s in {ReqHttpH, ReqHttpHT, ReqHttpHTT, ReqHttpI, ReqHttpIC, ReqHttpHTTP, ReqHttpDot, ReqLineAlmostDone}
  }

  lemma SimpleHttpWord(cfg: Config, p: Parser, ch: char)
    requires WidthsOk(cfg, p) && HttpWord(p.state)
    ensures Simple(cfg, RequestLine(p, ch), None)
  {
    hide Simple, Expect, WidthsOk;
    match p.state
    case ReqHttpH => SimpleExpect(cfg, p, ch, 'T', STRICT, ReqHttpHT);
    case ReqHttpHT => SimpleExpect(cfg, p, ch, 'T', STRICT, ReqHttpHTT);
    case ReqHttpHTT => SimpleExpect(cfg, p, ch, 'P', STRICT, ReqHttpHTTP);
    case ReqHttpI => SimpleExpect(cfg, p, ch, 'C', STRICT, ReqHttpIC);
    case ReqHttpIC => SimpleExpect(cfg, p, ch, 'E', STRICT, ReqHttpHTTP);
    case ReqHttpHTTP => SimpleExpect(cfg, p, ch, '/', STRICT, ReqHttpMajor);
    case ReqHttpDot => SimpleExpect(cfg, p, ch, '.', INVALID_VERSION, ReqHttpMinor);
    case ReqLineAlmostDone => SimpleExpect(cfg, p, ch, LF, LF_EXPECTED, HeaderFieldStart);
  }

  lemma SimpleHttpVersion(cfg: Config, p: Parser, ch: char)
    requires WidthsOk(cfg, p) && p.state in {ReqHttpMajor, ReqHttpMinor}
    ensures Simple(cfg, RequestLine(p, ch), None)
  {
    hide Simple, Expect, MethodByte, MethodName;
    CalmSimple(cfg, RequestLine(p, ch));
  }

  lemma SimpleHttpRest(cfg: Config, p: Parser, ch: char)
    requires WidthsOk(cfg, p) && p.state in {ReqHttpStart, ReqHttpEnd}
    ensures Simple(cfg, RequestLine(p, ch), None)
  {
    hide Simple, Expect, MethodByte, MethodName;
    CalmSimple(cfg, RequestLine(p, ch));
  }

  lemma GoodRequest(cfg: Config, p: Parser, ch: char)
    requires Entered(cfg, p) && GroupOf(p.state) == GRequest
    ensures Keeps(cfg, RequestLine(p, ch), Open(p.state))
  {
    hide MethodByte, Keeps, Simple, Expect, WidthsOk;
    if p.state == ReqMethod {
      SimpleMethod(cfg, p, ch);
    } else if HttpWord(p.state) {
      SimpleHttpWord(cfg, p, ch);
    } else if p.state == ReqHttpMajor || p.state == ReqHttpMinor {
      SimpleHttpVersion(cfg, p, ch);
    } else {
      SimpleHttpRest(cfg, p, ch);
    }
    SimpleGood(cfg, RequestLine(p, ch), None);
  }

  lemma UrlInv(cfg: Config, p: Parser, s: State)
    requires WidthsOk(cfg, p) && UrlPart(s)
    ensures Inv(cfg, p.(state := s)) && Open(s) == Some(Url)
  {
    hide MethodName;
  }

  lemma SimpleUrl(cfg: Config, p: Parser, ch: char)
    requires WidthsOk(cfg, p) && UrlPart(p.state)
    ensures Simple(cfg, UrlByte(p, ch), Some(Url))
    ensures Simple(cfg, UrlByteOrEnd(p, ch), Some(Url))
  {
    hide UrlByte, ParseUrlChar, MethodName, Simple, Calm, WidthsOk;
    SimpleUrlByte(cfg, p, ch);
    SimpleUrlEnd(cfg, p, ReqHttpStart);
    var q := p.(major := 0, minor := 9);
    assert WidthsOk(cfg, q) by {
      StillWide(cfg, p);
    }
    SimpleUrlEnd(cfg, q, ReqLineAlmostDone);
    SimpleUrlEnd(cfg, q, HeaderFieldStart);
  }

  lemma StillWide(cfg: Config, p: Parser)
    requires WidthsOk(cfg, p)
    ensures WidthsOk(cfg, p.(major := 0, minor := 9))
  {
  }

  // The URL is delivered, and the rest of the request line follows.
  lemma SimpleUrlEnd(cfg: Config, p: Parser, s: State)
    requires WidthsOk(cfg, p) && s in {ReqHttpStart, ReqLineAlmostDone, HeaderFieldStart}
    ensures Simple(cfg, Next(p.(state := s), [Flush(Url)]), Some(Url))
  {
  }

  lemma SimpleUrlByte(cfg: Config, p: Parser, ch: char)
    requires WidthsOk(cfg, p) && UrlPart(p.state)
    ensures Simple(cfg, UrlByte(p, ch), Some(Url))
  {
    hide ParseUrlChar, MethodName, Inv;
    var s := ParseUrlChar(p.state, ch);
    if s != Dead {
      UrlInv(cfg, p, s);
    }
  }

  lemma SimpleFirstUrl(cfg: Config, p: Parser, ch: char)
    requires WidthsOk(cfg, p)
    ensures Simple(cfg, Prefix([Mark(Url)], UrlByte(p, ch)), None)
  {
    hide ParseUrlChar, MethodName;
  }

  lemma GoodUrl(cfg: Config, p: Parser, ch: char)
    requires Entered(cfg, p) && GroupOf(p.state) == GUrl
    ensures Keeps(cfg, UrlState(p, ch), Open(p.state))
  {
    hide Keeps, UrlByte, UrlByteOrEnd, Prefix;
    if p.state == ReqSpacesBeforeUrl {
      SimpleFirstUrl(cfg, p, ch);
      SimpleFirstUrl(cfg, p.(state := ReqServerStart), ch);
    } else {
      SimpleUrl(cfg, p, ch);
    }
    SimpleGood(cfg, UrlState(p, ch), Open(p.state));
  }

  lemma GoodPrefix(cfg: Config, first: seq<Act>, o: Outcome, open: Option<Field>, mid: Option<Field>)
    requires Tidy(first, open) && Left(first, open) == mid && first != []
    requires Keeps(cfg, o, mid)
    ensures Keeps(cfg, Prefix(first, o), open)
  {
    if o.Next? || o.Exit? {
      TidyConcat(first, o.acts, open, mid);
    }
  }

  lemma {:induction false} TidyConcat(a: seq<Act>, b: seq<Act>, open: Option<Field>, mid: Option<Field>)
    requires Tidy(a, open) && Left(a, open) == mid && Tidy(b, mid)
    ensures Tidy(a + b, open) && Left(a + b, open) == Left(b, mid)
    decreases |a|
  {
    if a == [] {
      assert a + b == b;
    } else {
      assert (a + b)[1..] == a[1..] + b;
      TidyConcat(a[1..], b, LeftOne(a[0]), mid);
    }
  }

  lemma FramingInv(cfg: Config, p: Parser, ch: char)
    requires WidthsOk(cfg, p)
    ensures
      match Framing(cfg, p, ch)
      case Next(q, acts) => Inv(cfg, q) && Open(q.state) == None && acts in {[], [Notify(MessageComplete)]}
      case Exit(q, acts) => Inv(cfg, q) && Open(q.state) == None && acts == [Notify(MessageComplete)]
      case Fail(e) => e != OK
      case Broken => false
  {
    hide NeedsEof, KeepAlive, NewMessage, Inv, Open, WidthsOk;
    var q := p.(nread := 0);
    FramingStates(cfg, p);
    FramingOver(cfg, q);
  }

  // The states that a body may start with.
  lemma FramingStates(cfg: Config, p: Parser)
    requires WidthsOk(cfg, p)
    ensures var q := p.(nread := 0);
      && (p.flags.chunked ==> Inv(cfg, q.(state := ChunkSizeStart)))
      && (p.contentLength != 0 && p.contentLength != NO_LENGTH ==> Inv(cfg, q.(state := BodyIdentity)))
      && Inv(cfg, q.(state := BodyIdentityEof)) && WidthsOk(cfg, q)
    ensures Open(ChunkSizeStart) == None == Open(BodyIdentity) == Open(BodyIdentityEof)
  {
    hide MethodName;
  }

  lemma FramingOver(cfg: Config, q: Parser)
    requires WidthsOk(cfg, q)
    ensures Inv(cfg, q.(state := NewMessage(q))) && Open(NewMessage(q)) == None
  {
    hide MethodName, KeepAlive, NeedsEof;
  }

  lemma GoodFraming(cfg: Config, p: Parser, ch: char)
    requires WidthsOk(cfg, p)
    ensures Keeps(cfg, Framing(cfg, p, ch), None)
  {
    hide Framing, Inv, Open;
    FramingInv(cfg, p, ch);
    TidySingle(Notify(MessageComplete), None);
  }

  lemma GoodEndOfMessage(cfg: Config, p: Parser)
    requires WidthsOk(cfg, p)
    ensures Keeps(cfg, EndOfMessage(p), None)
  {
    FramingOver(cfg, p);
    TidySingle(Notify(MessageComplete), None);
    hide Inv, Open, NewMessage, WidthsOk, Tidy, Left;
  }

  lemma GoodEndOfHeaders(cfg: Config, p: Parser, ch: char)
    requires WidthsOk(cfg, p)
    ensures Keeps(cfg, EndOfHeaders(cfg, p, ch), None)
  {
    hide Framing, EndOfMessage, Prefix, Keeps;
    var o := EndOfHeaders(cfg, p, ch);
    if ch != LF || o == Fail(UNEXPECTED_CONTENT_LENGTH) {
      GoodFail(cfg, o, None);
    } else if p.flags.trailing {
      GoodEndOfMessage(cfg, p);
      GoodPrefix(cfg, [Notify(ChunkComplete)], EndOfMessage(p), None, None);
    } else {
      var up := if p.flags.upgrade && p.flags.connectionUpgrade
                then p.kind == Request || p.status == 101
                else p.verb == CONNECT;
      var q := p.(state := HeadersDone, upgrade := up);
      var r := match cfg.onHeadersComplete(HeadOf(q))
        case Continue => q
        case NoBody => q.(flags := q.flags.(skipBody := true))
        case NoBodyUpgrade => q.(flags := q.flags.(skipBody := true), upgrade := true);
      GoodFraming(cfg, r, ch);
      GoodPrefix(cfg, [Notify(HeadersComplete)], Framing(cfg, r, ch), None, None);
    }
  }

  lemma GoodFail(cfg: Config, o: Outcome, open: Option<Field>)
    requires o.Fail? && o.errno != OK
    ensures Keeps(cfg, o, open)
  {
  }

  lemma GoodFieldStart(cfg: Config, p: Parser, ch: char)
    requires WidthsOk(cfg, p)
    ensures Keeps(cfg, FieldStart(cfg, p, ch), None)
  {
    hide EndOfHeaders, MethodName;
    GoodEndOfHeaders(cfg, p.(state := HeadersAlmostDone), ch);
  }

  lemma MatchedFits(word: string, index: nat, c: char)
    requires index < |word|
    ensures Matched(word, index, c) == Partial ==> index <= |word| - 2
  {
  }

  // The part of the invariant that speaks of the matchers.
  predicate MatcherOk(m: Matcher) { m.index <= 18 && m.contentLength <= NO_LENGTH }

  lemma WordFits(m: Matcher, word: string, c: char, whole: HeaderState, miss: HeaderState)
    requires MatcherOk(m) && 2 <= |word| <= 18 && m.index <= |word| - 2
    ensures
      var r := WordByte(m, word, c, whole, miss);
      && MatcherOk(r) && r.index <= |word| - 1
      && (r.hs in {whole, miss} || (r.hs == m.hs && r.index <= |word| - 2))
  {
    hide Matched;
    MatchedFits(word, m.index + 1, c);
  }

  lemma FieldMatchFits(m: Matcher, ch: char, c: char)
    requires MatcherOk(m) && FieldMatching(m.hs, m.index)
    ensures
      var r := FieldMatch(m, ch, c);
      r.Good? && MatcherOk(r.m) && FieldMatching(r.m.hs, r.m.index)
  {
    hide WordByte;
    match m.hs
    case HMatchingConnection => WordFits(m, CONNECTION, c, HConnection, HGeneral);
    case HMatchingProxyConnection => WordFits(m, PROXY_CONNECTION, c, HConnection, HGeneral);
    case HMatchingContentLength => WordFits(m, CONTENT_LENGTH, c, HContentLength, HGeneral);
    case HMatchingTransferEncoding => WordFits(m, TRANSFER_ENCODING, c, HTransferEncoding, HGeneral);
    case HMatchingUpgrade => WordFits(m, UPGRADE, c, HUpgrade, HGeneral);
    case HGeneral =>
    case HC =>
    case HCO =>
    case HCON =>
    case HConnection =>
    case HContentLength =>
    case HTransferEncoding =>
    case HUpgrade =>
  }

  lemma GoodField(cfg: Config, p: Parser, ch: char)
    requires Entered(cfg, p) && p.state == HeaderField
    ensures Keeps(cfg, FieldByte(p, ch), Some(FieldName))
  {
    hide Keeps, FieldMatch, Token, MethodName;
    FieldMatchFits(MatcherOf(p), ch, Token(ch));
    SimpleGood(cfg, FieldByte(p, ch), Some(FieldName));
  }

  lemma GoodValueStart(cfg: Config, p: Parser, ch: char)
    requires WidthsOk(cfg, p)
    ensures Keeps(cfg, ValueStart(p, ch), None)
  {
    hide Keeps, LowerBit, MethodName;
    assert Simple(cfg, ValueStart(p, ch), None);
    SimpleGood(cfg, ValueStart(p, ch), None);
  }

  lemma ValueMatchFits(m: Matcher, ch: char)
    requires MatcherOk(m) && ValueMatching(m.hs, m.index)
    ensures
      var r := ValueMatch(m, ch);
      && !r.Impossible?
      && (r.Good? ==> MatcherOk(r.m) && ValueMatching(r.m.hs, r.m.index))
      && (r.Bad? ==> r.errno != OK)
  {
    hide WordByte, LowerBit, Token;
    var c := LowerBit(ch);
    match m.hs
    case HMatchingTeChunked => WordFits(m, CHUNKED, c, HTeChunked, HMatchingTeToken);
    case HMatchingConnKeepAlive => WordFits(m, KEEP_ALIVE, c, HConnKeepAlive, HMatchingConnToken);
    case HMatchingConnClose => WordFits(m, CLOSE, c, HConnClose, HMatchingConnToken);
    case HMatchingConnUpgrade => WordFits(m, UPGRADE, c, HConnUpgrade, HMatchingConnToken);
    case HGeneral =>
    case HContentLengthNum => LengthFits(m, ch);
    case HContentLengthWs =>
    case HMatchingTeTokenStart =>
    case HMatchingTeToken =>
    case HMatchingConnTokenStart =>
    case HMatchingConnToken =>
    case HTeChunked =>
    case HConnKeepAlive => hide Concluded;
    case HConnClose => hide Concluded;
    case HConnUpgrade => hide Concluded;
  }

  lemma LengthFits(m: Matcher, ch: char)
    requires MatcherOk(m)
    ensures
      var r := LengthDigit(m, ch);
      && !r.Impossible? && (r.Bad? ==> r.errno != OK)
      && (r.Good? ==> MatcherOk(r.m) && r.m.hs in {HContentLengthNum, HContentLengthWs})
  {
  }

  lemma GoodValue(cfg: Config, p: Parser, ch: char)
    requires Entered(cfg, p) && p.state == HeaderValue
    ensures Keeps(cfg, ValueByte(cfg, p, ch), Some(FieldValue))
  {
    hide Keeps, ValueMatch, IsHeaderChar, MethodName;
    ValueMatchFits(MatcherOf(p), ch);
    SimpleGood(cfg, ValueByte(cfg, p, ch), Some(FieldValue));
  }

  lemma GoodDiscardWs(cfg: Config, p: Parser, ch: char)
    requires WidthsOk(cfg, p) && p.state == HeaderValueDiscardWs
    ensures Keeps(cfg, DiscardWs(p, ch), None)
  {
    hide Keeps, ValueStart, Simple;
    GoodValueStart(cfg, p, ch);
    if ch == ' ' || ch == '\t' || ch == CR || ch == LF {
      CalmSimple(cfg, DiscardWs(p, ch));
      SimpleGood(cfg, DiscardWs(p, ch), None);
    }
  }

  lemma GoodDiscardLws(cfg: Config, p: Parser, ch: char)
    requires WidthsOk(cfg, p) && p.state == HeaderValueDiscardLws
    ensures Keeps(cfg, DiscardLws(cfg, p, ch), None)
  {
    hide Keeps, FieldStart, Simple, Prefix;
    var o := DiscardLws(cfg, p, ch);
    if ch == ' ' || ch == '\t' || p.hs == HContentLength {
      CalmSimple(cfg, o);
      SimpleGood(cfg, o, None);
    } else {
      var q := p.(flags := Concluded(p.hs, p.flags), state := HeaderFieldStart);
      GoodFieldStart(cfg, q, ch);
      GoodPrefix(cfg, [Mark(FieldValue), Flush(FieldValue)], FieldStart(cfg, q, ch), None, None);
    }
  }

  lemma GoodValueLws(cfg: Config, p: Parser, ch: char)
    requires WidthsOk(cfg, p)
    ensures Keeps(cfg, ValueLws(cfg, p, ch), None)
  {
    hide Keeps, FieldStart, ValueStart;
    GoodValueStart(cfg, p, ch);
    GoodValueStart(cfg, p.(hs := HContentLengthWs), ch);
    GoodFieldStart(cfg, p.(flags := Concluded(p.hs, p.flags), state := HeaderFieldStart), ch);
  }

  lemma GoodHeader(cfg: Config, p: Parser, ch: char)
    requires Entered(cfg, p) && GroupOf(p.state) == GHeader
    ensures Keeps(cfg, HeaderByte(cfg, p, ch), Open(p.state))
  {
    hide EndOfHeaders, FieldStart, FieldByte, ValueByte, ValueStart, DiscardWs, DiscardLws, ValueLws;
    hide Keeps, Simple, Expect, FieldMatching, ValueMatching, Framing, MethodName;
    var o := HeaderByte(cfg, p, ch);
    match p.state
    case HeaderFieldStart => GoodFieldStart(cfg, p, ch);
    case HeaderField => GoodField(cfg, p, ch);
    case HeaderValueDiscardWs => GoodDiscardWs(cfg, p, ch);
    case HeaderValueDiscardWsAlmostDone =>
      SimpleExpect(cfg, p, ch, LF, STRICT, HeaderValueDiscardLws);
      SimpleGood(cfg, o, None);
    case HeaderValueDiscardLws => GoodDiscardLws(cfg, p, ch);
    case HeaderValue => GoodValue(cfg, p, ch);
    case HeaderValueLws => GoodValueLws(cfg, p, ch);
    case HeaderAlmostDone =>
      SimpleExpect(cfg, p, ch, LF, LF_EXPECTED, HeaderValueLws);
      SimpleGood(cfg, o, None);
    case HeadersAlmostDone => GoodEndOfHeaders(cfg, p, ch);
  }

  lemma SimpleChunkHeader(cfg: Config, p: Parser, ch: char)
    requires Entered(cfg, p) && InChunkHeader(p.state)
    ensures Simple(cfg, BodyState(p, ch), None)
  {
    hide Unhex, MethodName, ChunkSizeByte, ChunkSizeEnd;
    match p.state
    case ChunkSize => SimpleChunkSize(cfg, p, ch);
    case ChunkParameters =>
    case ChunkSizeAlmostDone => SimpleChunkSizeEnd(cfg, p, ch);
  }

  lemma SimpleChunkSize(cfg: Config, p: Parser, ch: char)
    requires Entered(cfg, p) && p.state == ChunkSize
    ensures Simple(cfg, ChunkSizeByte(p, ch), None)
  {
    hide Unhex, MethodName;
  }

  lemma SimpleChunkSizeEnd(cfg: Config, p: Parser, ch: char)
    requires Entered(cfg, p) && p.state == ChunkSizeAlmostDone
    ensures Simple(cfg, ChunkSizeEnd(p, ch), None)
  {
    hide MethodName;
  }

  lemma SimpleChunkStart(cfg: Config, p: Parser, ch: char)
    requires Entered(cfg, p) && p.state == ChunkSizeStart
    ensures Simple(cfg, BodyState(p, ch), None)
  {
    hide Unhex, MethodName;
  }

  lemma SimpleDataEnd(cfg: Config, p: Parser, ch: char)
    requires Entered(cfg, p) && p.state == ChunkDataAlmostDone
    ensures Simple(cfg, BodyState(p, ch), None)
  {
    hide MethodName;
  }

  lemma SimpleChunkEnd(cfg: Config, p: Parser, ch: char)
    requires Entered(cfg, p) && p.state == ChunkDataDone
    ensures Simple(cfg, BodyState(p, ch), None)
  {
    hide MethodName;
  }

  lemma GoodBodyByte(cfg: Config, p: Parser, ch: char)
    requires Entered(cfg, p) && BodyBytes(p.state)
    ensures KeepsBody(cfg, BodyState(p, ch)) || Keeps(cfg, BodyState(p, ch), None)
  {
    hide EndOfMessage, Prefix, Keeps, MethodName;
    if p.state == BodyIdentity && p.contentLength == 1 {
      var q := p.(contentLength := p.contentLength - 1, state := MessageDone);
      GoodEndOfMessage(cfg, q);
      GoodPrefix(cfg, [Mark(Body), FlushThis(Body)], EndOfMessage(q), None, None);
    }
  }

  lemma GoodBody(cfg: Config, p: Parser, ch: char)
    requires Entered(cfg, p) && GroupOf(p.state) == GBody && !BodyBytes(p.state)
    ensures Keeps(cfg, BodyState(p, ch), None)
  {
    hide Keeps, Simple;
    if InChunkHeader(p.state) {
      SimpleChunkHeader(cfg, p, ch);
    } else if p.state == ChunkSizeStart {
      SimpleChunkStart(cfg, p, ch);
    } else if p.state == ChunkDataAlmostDone {
      SimpleDataEnd(cfg, p, ch);
    } else {
      SimpleChunkEnd(cfg, p, ch);
    }
    SimpleGood(cfg, BodyState(p, ch), None);
  }

  /** No byte can break a good state. */
  lemma GoodStep(cfg: Config, p: Parser, ch: char)
    requires Inv(cfg, p)
    ensures Keeps(cfg, Step(cfg, p, ch), Open(p.state))
            || (BodyBytes(p.state) && KeepsBody(cfg, Step(cfg, p, ch)))
  {
    hide StartMessage, ResponseLine, RequestLine, UrlState, HeaderByte, BodyState, Keeps, KeepsBody;
    if ParsingHeader(p.state) && p.nread + 1 > cfg.maxHeader {
      GoodFail(cfg, Step(cfg, p, ch), Open(p.state));
    } else {
      var q := Counted(p);
      match GroupOf(p.state)
      case GStart => GoodStart(cfg, q, ch);
      case GResponse => GoodResponse(cfg, q, ch);
      case GRequest => GoodRequest(cfg, q, ch);
      case GUrl => GoodUrl(cfg, q, ch);
      case GHeader => GoodHeader(cfg, q, ch);
      case GBody =>
        if BodyBytes(p.state) {
          GoodBodyByte(cfg, q, ch);
        } else {
          GoodBody(cfg, q, ch);
        }
    }
  }

  // A run between two bytes: a field that is still being delivered has been delivered in part.
  predicate RunInv(cfg: Config, r: Run) {
    match r
    case Going(p, log) => Inv(cfg, p) && (Open(p.state).Some? ==> EndsWith(log, Open(p.state).value))
    case Exited(p, _, _) => Inv(cfg, p) && Open(p.state) == None
    case Failed(_) => true
    case AssertionFailure => false
  }

  lemma ResumedPending(s: State, log: Log, data: string)
    requires Open(s).Some? ==> EndsWith(log, Open(s).value)
    ensures Pending(Open(s), Resumed(s), log, data, 0, log)
  {
    assert data[0..0] == "";
    if Open(s).Some? {
      EmitNothing(log, Open(s).value);
    }
  }

  lemma PendingEnds(open: Option<Field>, marks: Marks, log: Log, data: string, end: nat, whole: Log)
    requires open.Some? && Pending(open, marks, log, data, end, whole)
    ensures EndsWith(whole, open.value)
  {
  }

  lemma ActsInBuffer(acts: seq<Act>, s: State, marks: Marks, log: Log, data: string, pos: nat, whole: Log)
    requires pos < |data| && Tidy(acts, Open(s))
    requires Open(s).Some? ==> EndsWith(whole, Open(s).value)
    requires Pending(Open(s), marks, log, data, pos, whole)
    ensures Within(marks, pos)
    ensures
      var r := Perform(acts, marks, log, data, pos);
      var one := Perform(acts, Resumed(s), whole, [data[pos]], 0);
      var left := Left(acts, Open(s));
      var w := CloseAll(r.0, r.1, data, pos + 1);
      && Pending(left, r.0, r.1, data, pos + 1, w)
      && CloseAll(one.0, one.1, [data[pos]], 1) == w
      && (left == None ==> r.0 == map[] && r.1 == one.1)
      && (left.Some? ==> EndsWith(w, left.value))
  {
    hide Emit, Tidy, Left, Perform, CloseAll, Resumed, Open;
    ResumedPending(s, whole, [data[pos]]);
    ClosePending(Open(s), marks, log, data, pos, whole);
    SameByte(acts, Open(s), marks, log, data, pos, Resumed(s), whole, [data[pos]], 0, whole);
    var r := Perform(acts, marks, log, data, pos);
    var one := Perform(acts, Resumed(s), whole, [data[pos]], 0);
    var left := Left(acts, Open(s));
    var w := CloseAll(r.0, r.1, data, pos + 1);
    ClosePending(left, one.0, one.1, [data[pos]], 1, w);
    if left.Some? {
      PendingEnds(left, r.0, r.1, data, pos + 1, w);
    }
  }

  /** A byte inside a longer buffer has the effect that it has in a buffer of its own. */
  lemma ByteInBuffer(cfg: Config, p: Parser, marks: Marks, log: Log, data: string, pos: nat, whole: Log)
    requires pos < |data| && RunInv(cfg, Going(p, whole))
    requires Pending(Open(p.state), marks, log, data, pos, whole)
    ensures Within(marks, pos)
    ensures
      var o := Step(cfg, p, data[pos]);
      var byte := OneByte(cfg, p, whole, data[pos], pos);
      && !o.Broken?
      && RunInv(cfg, byte)
      && (o.Fail? ==> byte == Failed(o.errno) && o.errno != OK)
      && (o.Next? ==>
           var r := Perform(o.acts, marks, log, data, pos);
           var left := Left(o.acts, Open(p.state));
           && (left == Open(o.p.state) || (BodyBytes(p.state) && left == Some(Body)))
           && byte == Going(o.p, CloseAll(r.0, r.1, data, pos + 1))
           && Pending(left, r.0, r.1, data, pos + 1, byte.log))
      && (o.Exit? ==>
           var r := Perform(o.acts, marks, log, data, pos);
           byte == Exited(o.p, r.1, pos + 1) && r.0 == map[])
  {
    hide Step, Emit, Inv, Tidy, Left, Perform, CloseAll, Resumed, Pending, EndsWith;
    GoodStep(cfg, p, data[pos]);
    TidySingle(Mark(Body), None);
    PendingWithin(Open(p.state), marks, log, data, pos, whole, pos);
    var o := Step(cfg, p, data[pos]);
    if o.Next? || o.Exit? {
      ActsInBuffer(o.acts, p.state, marks, log, data, pos, whole);
    }
  }

  lemma {:induction false} PerByteGood(cfg: Config, r: Run, data: string)
    requires RunInv(cfg, r)
    ensures RunInv(cfg, PerByte(cfg, r, data))
  {
    hide OneByte, Inv;
    if data != "" {
      var n := |data| - 1;
      PerByteGood(cfg, r, data[..n]);
      var q := PerByte(cfg, r, data[..n]);
      if q.Going? {
        ResumedPending(q.p.state, q.log, [data[n]]);
        ByteInBuffer(cfg, q.p, Resumed(q.p.state), q.log, [data[n]], 0, q.log);
        OneByteShift(cfg, q.p, q.log, data[n], 0, n);
      }
    }
  }

  lemma Started(cfg: Config, kind: Kind)
    ensures RunInv(cfg, Going(Init(kind), []))
  {
    hide MethodName;
  }

  lemma RunCounts(cfg: Config, p: Parser, log: Log)
    requires RunInv(cfg, Going(p, log))
    ensures Inv(cfg, p) && p.nread <= cfg.maxHeader
  {
  }

  /** From `http_parser_init` over any bytes no assert fails, and the invariant holds. */
  lemma Reachable(cfg: Config, kind: Kind, data: string)
    ensures RunInv(cfg, PerByte(cfg, Going(Init(kind), []), data))
  {
    hide PerByte;
    PerByteGood(cfg, Going(Init(kind), []), data);
  }

  // ---- The end of the stream.

  /**
    A call with no bytes completes a message that is read until the end of the stream, exactly once,
    is of no consequence between messages, and is an error inside one.
   */
  lemma EndOfStream(p: Parser)
    ensures AtEof(p).Next? <==> p.state in {BodyIdentityEof, Dead, StartReqOrRes, StartRes, StartReq}
    ensures AtEof(p).Next? ==>
              AtEof(p) == Next(p, if p.state == BodyIdentityEof then [Notify(MessageComplete)] else [])
    ensures !AtEof(p).Next? ==> AtEof(p) == Fail(INVALID_EOF_STATE)
  {
  }
}
