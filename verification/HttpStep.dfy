/**
  What the switch of `http_parser_execute` does with one byte: the new parser fields and the
  callback operations, with every `goto reexecute` as a call of the state it re-enters.
 */
module HttpStep {
  import opened HttpChars

  // `ULLONG_MAX`: no Content-Length header was seen.
  const NO_LENGTH: nat := 0xFFFF_FFFF_FFFF_FFFF

  datatype Kind = Request | Response | Both

  datatype State =
    | Dead
    | StartReqOrRes | ResOrRespH | StartRes
    | ResH | ResHT | ResHTT | ResHTTP | ResHttpMajor | ResHttpDot | ResHttpMinor | ResHttpEnd
    | ResFirstStatusCode | ResStatusCode | ResStatusStart | ResStatus | ResLineAlmostDone
    | StartReq
    | ReqMethod | ReqSpacesBeforeUrl
    | ReqSchema | ReqSchemaSlash | ReqSchemaSlashSlash
    | ReqServerStart | ReqServer | ReqServerWithAt
    | ReqPath | ReqQueryStringStart | ReqQueryString | ReqFragmentStart | ReqFragment
    | ReqHttpStart | ReqHttpH | ReqHttpHT | ReqHttpHTT | ReqHttpHTTP | ReqHttpI | ReqHttpIC
    | ReqHttpMajor | ReqHttpDot | ReqHttpMinor | ReqHttpEnd | ReqLineAlmostDone
    | HeaderFieldStart | HeaderField
    | HeaderValueDiscardWs | HeaderValueDiscardWsAlmostDone | HeaderValueDiscardLws
    | HeaderValueStart | HeaderValue | HeaderValueLws
    | HeaderAlmostDone
    | ChunkSizeStart | ChunkSize | ChunkParameters | ChunkSizeAlmostDone
    | HeadersAlmostDone | HeadersDone
    | ChunkData | ChunkDataAlmostDone | ChunkDataDone
    | BodyIdentity | BodyIdentityEof
    | MessageDone

  datatype HeaderState =
    | HGeneral | HC | HCO | HCON
    | HMatchingConnection | HMatchingProxyConnection | HMatchingContentLength
    | HMatchingTransferEncoding | HMatchingUpgrade
    | HConnection | HContentLength | HContentLengthNum | HContentLengthWs
    | HTransferEncoding | HUpgrade
    | HMatchingTeTokenStart | HMatchingTeChunked | HMatchingTeToken
    | HMatchingConnTokenStart | HMatchingConnKeepAlive | HMatchingConnClose
    | HMatchingConnUpgrade | HMatchingConnToken
    | HTeChunked | HConnKeepAlive | HConnClose | HConnUpgrade

  datatype Method =
    | DELETE | GET | HEAD | POST | PUT | CONNECT | OPTIONS | TRACE | COPY | LOCK | MKCOL | MOVE
    | PROPFIND | PROPPATCH | SEARCH | UNLOCK | BIND | REBIND | UNBIND | ACL | REPORT | MKACTIVITY
    | CHECKOUT | MERGE | MSEARCH | NOTIFY | SUBSCRIBE | UNSUBSCRIBE | PATCH | PURGE | MKCALENDAR
    | LINK | UNLINK | SOURCE

  function MethodName(m: Method): (s: string)
    ensures 3 <= |s| <= 11
  {
    match m
    case DELETE => "DELETE" case GET => "GET" case HEAD => "HEAD" case POST => "POST"
    case PUT => "PUT" case CONNECT => "CONNECT" case OPTIONS => "OPTIONS" case TRACE => "TRACE"
    case COPY => "COPY" case LOCK => "LOCK" case MKCOL => "MKCOL" case MOVE => "MOVE"
    case PROPFIND => "PROPFIND" case PROPPATCH => "PROPPATCH" case SEARCH => "SEARCH"
    case UNLOCK => "UNLOCK" case BIND => "BIND" case REBIND => "REBIND" case UNBIND => "UNBIND"
    case ACL => "ACL" case REPORT => "REPORT" case MKACTIVITY => "MKACTIVITY"
    case CHECKOUT => "CHECKOUT" case MERGE => "MERGE" case MSEARCH => "M-SEARCH"
    case NOTIFY => "NOTIFY" case SUBSCRIBE => "SUBSCRIBE" case UNSUBSCRIBE => "UNSUBSCRIBE"
    case PATCH => "PATCH" case PURGE => "PURGE" case MKCALENDAR => "MKCALENDAR"
    case LINK => "LINK" case UNLINK => "UNLINK" case SOURCE => "SOURCE"
  }

  datatype Flags = Flags(chunked: bool, keepAlive: bool, close: bool, connectionUpgrade: bool,
                         trailing: bool, upgrade: bool, skipBody: bool, contentLength: bool)

  const NO_FLAGS := Flags(false, false, false, false, false, false, false, false)

  // The fields of `struct http_parser` that parsing reads or writes.
  datatype Parser = Parser(
    kind: Kind, flags: Flags, state: State, hs: HeaderState, index: nat, usesTe: bool,
    nread: nat, contentLength: nat, major: nat, minor: nat, status: nat, verb: Method,
    upgrade: bool)

  datatype Errno =
    | OK | INVALID_EOF_STATE | HEADER_OVERFLOW | CLOSED_CONNECTION | INVALID_VERSION
    | INVALID_STATUS | INVALID_METHOD | INVALID_URL | LF_EXPECTED | INVALID_HEADER_TOKEN
    | INVALID_CONTENT_LENGTH | UNEXPECTED_CONTENT_LENGTH | INVALID_CHUNK_SIZE | INVALID_CONSTANT
    | STRICT | INVALID_TRANSFER_ENCODING

  datatype Field = FieldName | FieldValue | Url | Body | Status

  datatype Notice =
    | MessageBegin | HeadersComplete | MessageComplete | ChunkHeader | ChunkComplete

  // `MARK`, `CALLBACK_DATA` up to the current byte or including it, `CALLBACK_NOTIFY`.
  datatype Act = Mark(field: Field) | Flush(field: Field) | FlushThis(field: Field)
               | Notify(notice: Notice)

  // `Exit`: the message ended in an upgrade and the parser returns right after this byte.
  // `Broken`: an `assert` fails or a matcher is read past its terminator.
  datatype Outcome = Next(p: Parser, acts: seq<Act>) | Exit(p: Parser, acts: seq<Act>)
                   | Fail(errno: Errno) | Broken

  // What `on_headers_complete` may look at, and its answers 0, 1 and 2.
  datatype Head = Head(kind: Kind, flags: Flags, usesTe: bool, contentLength: nat, major: nat,
                       minor: nat, status: nat, verb: Method, upgrade: bool)

  datatype Reply = Continue | NoBody | NoBodyUpgrade

  datatype Config = Config(lenient: bool, allowChunkedLength: bool, maxHeader: nat,
                           onHeadersComplete: Head -> Reply)

  function HeadOf(p: Parser): Head {
    Head(p.kind, p.flags, p.usesTe, p.contentLength, p.major, p.minor, p.status, p.verb,
         p.upgrade)
  }

  // `http_parser_init`
  function Init(kind: Kind): Parser {
    Parser(kind, NO_FLAGS,
           match kind { case Request => StartReq case Response => StartRes case Both => StartReqOrRes },
           HGeneral, 0, false, 0, 0, 0, 0, 0, DELETE, false)
  }

  predicate ParsingHeader(s: State) {
    !(s.ChunkData? || s.ChunkDataAlmostDone? || s.ChunkDataDone? || s.BodyIdentity?
      || s.BodyIdentityEof? || s.MessageDone?)
  }

  // `http_message_needs_eof`
  predicate NeedsEof(p: Parser) {
    if p.kind == Request then false
    else if p.status / 100 == 1 || p.status == 204 || p.status == 304 || p.flags.skipBody then false
    else if p.usesTe && !p.flags.chunked then true
    else !p.flags.chunked && p.contentLength == NO_LENGTH
  }

  // `http_should_keep_alive`
  predicate KeepAlive(p: Parser) {
    && (if p.major > 0 && p.minor > 0 then !p.flags.close else p.flags.keepAlive)
    && !NeedsEof(p)
  }

  // `NEW_MESSAGE`
  function NewMessage(p: Parser): (r: State)
    ensures r == Dead || r == StartReq || r == StartRes
  {
    if !KeepAlive(p) then Dead else if p.kind == Request then StartReq else StartRes
  }

  function Fresh(p: Parser): Parser {
    p.(flags := NO_FLAGS, usesTe := false, contentLength := NO_LENGTH)
  }

  function Prefix(acts: seq<Act>, o: Outcome): Outcome {
    match o
    case Next(p, more) => Next(p, acts + more)
    case Exit(p, more) => Exit(p, acts + more)
    case Fail(_) => o
    case Broken => o
  }

  // A strict check for one expected byte.
  function Expect(p: Parser, ch: char, want: char, e: Errno, to: State): Outcome {
    if ch == want then Next(p.(state := to), []) else Fail(e)
  }

  // ---- Start of a message and the response line.

  function StartRequest(p: Parser, ch: char): Outcome {
    if ch == CR || ch == LF then Next(p, [])
    else
      var q := Fresh(p).(index := 1, state := ReqMethod);
      var begun := [Notify(MessageBegin)];
      match ch
      case 'A' => Next(q.(verb := ACL), begun)
      case 'B' => Next(q.(verb := BIND), begun)
      case 'C' => Next(q.(verb := CONNECT), begun)
      case 'D' => Next(q.(verb := DELETE), begun)
      case 'G' => Next(q.(verb := GET), begun)
      case 'H' => Next(q.(verb := HEAD), begun)
      case 'L' => Next(q.(verb := LOCK), begun)
      case 'M' => Next(q.(verb := MKCOL), begun)
      case 'N' => Next(q.(verb := NOTIFY), begun)
      case 'O' => Next(q.(verb := OPTIONS), begun)
      case 'P' => Next(q.(verb := POST), begun)
      case 'R' => Next(q.(verb := REPORT), begun)
      case 'S' => Next(q.(verb := SUBSCRIBE), begun)
      case 'T' => Next(q.(verb := TRACE), begun)
      case 'U' => Next(q.(verb := UNLOCK), begun)
      case _ => Fail(INVALID_METHOD)
  }

  function StartMessage(p: Parser, ch: char): Outcome {
    match p.state
    case Dead => if ch == CR || ch == LF then Next(p, []) else Fail(CLOSED_CONNECTION)
    case StartReqOrRes =>
      if ch == CR || ch == LF then Next(p, [])
      else if ch == 'H' then Next(Fresh(p).(state := ResOrRespH), [Notify(MessageBegin)])
      else StartRequest(Fresh(p).(kind := Request, state := StartReq), ch)
    case ResOrRespH =>
      if ch == 'T' then Next(p.(kind := Response, state := ResHT), [])
      else if ch == 'E' then Next(p.(kind := Request, verb := HEAD, index := 2, state := ReqMethod), [])
      else Fail(INVALID_CONSTANT)
    case StartRes =>
      if ch == CR || ch == LF then Next(p, [])
      else if ch == 'H' then Next(Fresh(p).(state := ResH), [Notify(MessageBegin)])
      else Fail(INVALID_CONSTANT)
    case StartReq => StartRequest(p, ch)
    case _ => Broken
  }

  function StatusText(p: Parser, ch: char): Outcome {
    if ch == CR then Next(p.(state := ResLineAlmostDone), [Flush(Status)])
    else if ch == LF then Next(p.(state := HeaderFieldStart), [Flush(Status)])
    else Next(p.(state := ResStatus), [])
  }

  function StatusStart(p: Parser, ch: char): Outcome {
    Prefix([Mark(Status)], StatusText(p.(index := 0), ch))
  }

  function StatusCode(p: Parser, ch: char): Outcome {
    if IsNum(ch) then
      var code := p.status * 10 + DigitValue(ch);
      if code > 999 then Fail(INVALID_STATUS) else Next(p.(status := code), [])
    else if ch == ' ' then Next(p.(state := ResStatusStart), [])
    else if ch == CR || ch == LF then StatusStart(p, ch)
    else Fail(INVALID_STATUS)
  }

  function ResponseLine(p: Parser, ch: char): Outcome {
    match p.state
    case ResH => Expect(p, ch, 'T', STRICT, ResHT)
    case ResHT => Expect(p, ch, 'T', STRICT, ResHTT)
    case ResHTT => Expect(p, ch, 'P', STRICT, ResHTTP)
    case ResHTTP => Expect(p, ch, '/', STRICT, ResHttpMajor)
    case ResHttpMajor =>
      if IsNum(ch) then Next(p.(major := DigitValue(ch), state := ResHttpDot), []) else Fail(INVALID_VERSION)
    case ResHttpDot => Expect(p, ch, '.', INVALID_VERSION, ResHttpMinor)
    case ResHttpMinor =>
      if IsNum(ch) then Next(p.(minor := DigitValue(ch), state := ResHttpEnd), []) else Fail(INVALID_VERSION)
    case ResHttpEnd => Expect(p, ch, ' ', INVALID_VERSION, ResFirstStatusCode)
    case ResFirstStatusCode =>
      if IsNum(ch) then Next(p.(status := DigitValue(ch), state := ResStatusCode), [])
      else if ch == ' ' then Next(p, [])
      else Fail(INVALID_STATUS)
    case ResStatusCode => StatusCode(p, ch)
    case ResStatusStart => StatusStart(p, ch)
    case ResStatus => StatusText(p, ch)
    case ResLineAlmostDone => Expect(p, ch, LF, STRICT, HeaderFieldStart)
    case _ => Broken
  }

  // ---- The request line.

  // The corrections of a method guessed from its first letters.
  function OtherMethod(m: Method, index: nat, ch: char): (r: Method)
    ensures r != m ==> 1 <= index <= 4
  {
    match (m, index, ch)
    case (POST, 1, 'U') => PUT
    case (POST, 1, 'A') => PATCH
    case (POST, 1, 'R') => PROPFIND
    case (PUT, 2, 'R') => PURGE
    case (CONNECT, 1, 'H') => CHECKOUT
    case (CONNECT, 2, 'P') => COPY
    case (MKCOL, 1, 'O') => MOVE
    case (MKCOL, 1, 'E') => MERGE
    case (MKCOL, 1, '-') => MSEARCH
    case (MKCOL, 2, 'A') => MKACTIVITY
    case (MKCOL, 3, 'A') => MKCALENDAR
    case (SUBSCRIBE, 1, 'E') => SEARCH
    case (SUBSCRIBE, 1, 'O') => SOURCE
    case (REPORT, 2, 'B') => REBIND
    case (PROPFIND, 4, 'P') => PROPPATCH
    case (LOCK, 1, 'I') => LINK
    case (UNLOCK, 2, 'S') => UNSUBSCRIBE
    case (UNLOCK, 2, 'B') => UNBIND
    case (UNLOCK, 3, 'I') => UNLINK
    case _ => m
  }

  function MethodByte(p: Parser, ch: char): Outcome {
    var name := MethodName(p.verb);
    if ch == NUL then Fail(INVALID_METHOD)
    else if p.index > |name| then Broken
    else if ch == ' ' && p.index == |name| then
      Next(p.(state := ReqSpacesBeforeUrl, index := p.index + 1), [])
    else if p.index < |name| && ch == name[p.index] then Next(p.(index := p.index + 1), [])
    else if ('A' <= ch <= 'Z') || ch == '-' then
      var m := OtherMethod(p.verb, p.index, ch);
      if m == p.verb then Fail(INVALID_METHOD) else Next(p.(verb := m, index := p.index + 1), [])
    else Fail(INVALID_METHOD)
  }

  predicate UrlPart(s: State) {
    s.ReqPath? || s.ReqSchema? || s.ReqSchemaSlash? || s.ReqSchemaSlashSlash? || s.ReqServerStart?
    || s.ReqServer? || s.ReqServerWithAt? || s.ReqQueryStringStart? || s.ReqQueryString?
    || s.ReqFragmentStart? || s.ReqFragment?
  }

  // `parse_url_char`, shared with the URL parser; `Dead` means an error.
  function ParseUrlChar(s: State, ch: char): (r: State)
    ensures r == Dead || UrlPart(r)
  {
    if ch in " \r\n\t" || ch as int == 12 then Dead
    else match s
      case ReqSpacesBeforeUrl =>
        if ch == '/' || ch == '*' then ReqPath else if IsAlpha(ch) then ReqSchema else Dead
      case ReqSchema =>
        if IsAlpha(ch) then ReqSchema else if ch == ':' then ReqSchemaSlash else Dead
      case ReqSchemaSlash => if ch == '/' then ReqSchemaSlashSlash else Dead
      case ReqSchemaSlashSlash => if ch == '/' then ReqServerStart else Dead
      case ReqServerWithAt => if ch == '@' then Dead else ServerChar(ch)
      case ReqServerStart => ServerChar(ch)
      case ReqServer => ServerChar(ch)
      case ReqPath =>
        if IsUrlChar(ch) then ReqPath
        else if ch == '?' then ReqQueryStringStart
        else if ch == '#' then ReqFragmentStart
        else Dead
      case ReqQueryStringStart => QueryChar(ch)
      case ReqQueryString => QueryChar(ch)
      case ReqFragmentStart =>
        if IsUrlChar(ch) || ch == '?' then ReqFragment else if ch == '#' then ReqFragmentStart else Dead
      case ReqFragment => if IsUrlChar(ch) || ch == '?' || ch == '#' then ReqFragment else Dead
      case _ => Dead
  }

  function ServerChar(ch: char): (r: State)
    ensures r == Dead || UrlPart(r)
  {
    if ch == '/' then ReqPath
    else if ch == '?' then ReqQueryStringStart
    else if ch == '@' then ReqServerWithAt
    else if IsUserinfoChar(ch) || ch == '[' || ch == ']' then ReqServer
    else Dead
  }

  function QueryChar(ch: char): (r: State)
    ensures r == Dead || UrlPart(r)
  {
    if IsUrlChar(ch) || ch == '?' then ReqQueryString else if ch == '#' then ReqFragmentStart else Dead
  }

  function UrlByte(p: Parser, ch: char): Outcome {
    var s := ParseUrlChar(p.state, ch);
    if s == Dead then Fail(INVALID_URL) else Next(p.(state := s), [])
  }

  function UrlState(p: Parser, ch: char): Outcome {
    match p.state
    case ReqSpacesBeforeUrl =>
      if ch == ' ' then Next(p, [])
      else Prefix([Mark(Url)], UrlByte(if p.verb == CONNECT then p.(state := ReqServerStart) else p, ch))
    case ReqSchema => UrlByte(p, ch)
    case ReqSchemaSlash => UrlByte(p, ch)
    case ReqSchemaSlashSlash => UrlByte(p, ch)
    case ReqServerStart => UrlByte(p, ch)
    case ReqServer => UrlByteOrEnd(p, ch)
    case ReqServerWithAt => UrlByteOrEnd(p, ch)
    case ReqPath => UrlByteOrEnd(p, ch)
    case ReqQueryStringStart => UrlByteOrEnd(p, ch)
    case ReqQueryString => UrlByteOrEnd(p, ch)
    case ReqFragmentStart => UrlByteOrEnd(p, ch)
    case ReqFragment => UrlByteOrEnd(p, ch)
    case _ => Broken
  }

  function UrlByteOrEnd(p: Parser, ch: char): Outcome {
    if ch == ' ' then Next(p.(state := ReqHttpStart), [Flush(Url)])
    else if ch == CR then Next(p.(major := 0, minor := 9, state := ReqLineAlmostDone), [Flush(Url)])
    else if ch == LF then Next(p.(major := 0, minor := 9, state := HeaderFieldStart), [Flush(Url)])
    else UrlByte(p, ch)
  }

  function RequestLine(p: Parser, ch: char): Outcome {
    match p.state
    case ReqMethod => MethodByte(p, ch)
    case ReqHttpStart =>
      if ch == ' ' then Next(p, [])
      else if ch == 'H' then Next(p.(state := ReqHttpH), [])
      else if ch == 'I' && p.verb == SOURCE then Next(p.(state := ReqHttpI), [])
      else Fail(INVALID_CONSTANT)
    case ReqHttpH => Expect(p, ch, 'T', STRICT, ReqHttpHT)
    case ReqHttpHT => Expect(p, ch, 'T', STRICT, ReqHttpHTT)
    case ReqHttpHTT => Expect(p, ch, 'P', STRICT, ReqHttpHTTP)
    case ReqHttpI => Expect(p, ch, 'C', STRICT, ReqHttpIC)
    case ReqHttpIC => Expect(p, ch, 'E', STRICT, ReqHttpHTTP)
    case ReqHttpHTTP => Expect(p, ch, '/', STRICT, ReqHttpMajor)
    case ReqHttpMajor =>
      if IsNum(ch) then Next(p.(major := DigitValue(ch), state := ReqHttpDot), []) else Fail(INVALID_VERSION)
    case ReqHttpDot => Expect(p, ch, '.', INVALID_VERSION, ReqHttpMinor)
    case ReqHttpMinor =>
      if IsNum(ch) then Next(p.(minor := DigitValue(ch), state := ReqHttpEnd), []) else Fail(INVALID_VERSION)
    case ReqHttpEnd =>
      if ch == CR then Next(p.(state := ReqLineAlmostDone), [])
      else if ch == LF then Next(p.(state := HeaderFieldStart), [])
      else Fail(INVALID_VERSION)
    case ReqLineAlmostDone => Expect(p, ch, LF, LF_EXPECTED, HeaderFieldStart)
    case _ => Broken
  }

  // ---- Headers.

  const CONNECTION := "connection"
  const PROXY_CONNECTION := "proxy-connection"
  const CONTENT_LENGTH := "content-length"
  const TRANSFER_ENCODING := "transfer-encoding"
  const UPGRADE := "upgrade"
  const CHUNKED := "chunked"
  const KEEP_ALIVE := "keep-alive"
  const CLOSE := "close"

  datatype Match = Miss | Partial | Whole

  // Compare the byte at `index` of a keyword; the C code may look at the terminating NUL but never
  // past it.
  function Matched(word: string, index: nat, c: char): Match {
    if index > |word| || c != (if index < |word| then word[index] else NUL) then Miss
    else if index == |word| - 1 then Whole
    else Partial
  }

  // The fields that the header matchers read and write.
  datatype Matcher = Matcher(hs: HeaderState, index: nat, flags: Flags, contentLength: nat, usesTe: bool)

  datatype Matching = Good(m: Matcher) | Bad(errno: Errno) | Impossible

  function MatcherOf(p: Parser): Matcher { Matcher(p.hs, p.index, p.flags, p.contentLength, p.usesTe) }

  function With(p: Parser, m: Matcher): Parser {
    p.(hs := m.hs, index := m.index, flags := m.flags, contentLength := m.contentLength, usesTe := m.usesTe)
  }

  function Applied(p: Parser, r: Matching): Outcome {
    match r
    case Good(m) => Next(With(p, m), [])
    case Bad(e) => Fail(e)
    case Impossible => Broken
  }

  // One more byte of a keyword: on to `whole` at its end, back to `miss` where it differs.
  function WordByte(m: Matcher, word: string, c: char, whole: HeaderState, miss: HeaderState): Matcher {
    m.(index := m.index + 1,
       hs := match Matched(word, m.index + 1, c)
             case Miss => miss
             case Whole => whole
             case Partial => m.hs)
  }

  // One more token character `c` (lower-cased) of a header name.
  function FieldMatch(m: Matcher, ch: char, c: char): Matching {
    var i := m.index + 1;
    match m.hs
    case HGeneral => Good(m)
    case HC => Good(m.(index := i, hs := if c == 'o' then HCO else HGeneral))
    case HCO => Good(m.(index := i, hs := if c == 'n' then HCON else HGeneral))
    case HCON =>
      Good(m.(index := i, hs := if c == 'n' then HMatchingConnection
                                else if c == 't' then HMatchingContentLength
                                else HGeneral))
    case HMatchingConnection => Good(WordByte(m, CONNECTION, c, HConnection, HGeneral))
    case HMatchingProxyConnection => Good(WordByte(m, PROXY_CONNECTION, c, HConnection, HGeneral))
    case HMatchingContentLength => Good(WordByte(m, CONTENT_LENGTH, c, HContentLength, HGeneral))
    case HMatchingTransferEncoding =>
      var q := WordByte(m, TRANSFER_ENCODING, c, HTransferEncoding, HGeneral);
      Good(if q.hs == HTransferEncoding then q.(usesTe := true) else q)
    case HMatchingUpgrade => Good(WordByte(m, UPGRADE, c, HUpgrade, HGeneral))
    case HConnection => Good(if ch != ' ' then m.(hs := HGeneral) else m)
    case HContentLength => Good(if ch != ' ' then m.(hs := HGeneral) else m)
    case HTransferEncoding => Good(if ch != ' ' then m.(hs := HGeneral) else m)
    case HUpgrade => Good(if ch != ' ' then m.(hs := HGeneral) else m)
    case _ => Impossible
  }

  function FieldByte(p: Parser, ch: char): Outcome {
    if Token(ch) != NUL then Applied(p, FieldMatch(MatcherOf(p), ch, Token(ch)))
    else if ch == ':' then Next(p.(state := HeaderValueDiscardWs), [Flush(FieldName)])
    else Fail(INVALID_HEADER_TOKEN)
  }

  function FieldStart(cfg: Config, p: Parser, ch: char): Outcome {
    if ch == CR then Next(p.(state := HeadersAlmostDone), [])
    else if ch == LF then EndOfHeaders(cfg, p.(state := HeadersAlmostDone), ch)
    else if Token(ch) == NUL then Fail(INVALID_HEADER_TOKEN)
    else
      var hs := match Token(ch)
        case 'c' => HC
        case 'p' => HMatchingProxyConnection
        case 't' => HMatchingTransferEncoding
        case 'u' => HMatchingUpgrade
        case _ => HGeneral;
      Next(p.(index := 0, state := HeaderField, hs := hs), [Mark(FieldName)])
  }

  function ConnectionToken(c: char): HeaderState {
    if c == 'k' then HMatchingConnKeepAlive
    else if c == 'c' then HMatchingConnClose
    else if c == 'u' then HMatchingConnUpgrade
    else HMatchingConnToken
  }

  // The first byte of a header value.
  function ValueStart(p: Parser, ch: char): Outcome {
    var c := LowerBit(ch);
    var q := p.(state := HeaderValue, index := 0);
    var mark := [Mark(FieldValue)];
    match p.hs
    case HUpgrade => Next(q.(flags := p.flags.(upgrade := true), hs := HGeneral), mark)
    case HTransferEncoding => Next(q.(hs := if c == 'c' then HMatchingTeChunked else HMatchingTeToken), mark)
    case HMatchingTeTokenStart => Next(q, mark)
    case HContentLength =>
      if !IsNum(ch) then Fail(INVALID_CONTENT_LENGTH)
      else if p.flags.contentLength then Fail(UNEXPECTED_CONTENT_LENGTH)
      else Next(q.(flags := p.flags.(contentLength := true), contentLength := DigitValue(ch),
                   hs := HContentLengthNum), mark)
    case HContentLengthWs => Next(q, mark)
    case HConnection => Next(q.(hs := ConnectionToken(c)), mark)
    case HMatchingConnTokenStart => Next(q, mark)
    case _ => Next(q.(hs := HGeneral), mark)
  }

  function DiscardWs(p: Parser, ch: char): Outcome {
    if ch == ' ' || ch == '\t' then Next(p, [])
    else if ch == CR then Next(p.(state := HeaderValueDiscardWsAlmostDone), [])
    else if ch == LF then Next(p.(state := HeaderValueDiscardLws), [])
    else ValueStart(p, ch)
  }

  // The effect of a complete `Connection` or `Transfer-Encoding` token.
  function Concluded(hs: HeaderState, flags: Flags): Flags {
    match hs
    case HConnKeepAlive => flags.(keepAlive := true)
    case HConnClose => flags.(close := true)
    case HConnUpgrade => flags.(connectionUpgrade := true)
    case HTeChunked => flags.(chunked := true)
    case _ => flags
  }

  function LengthDigit(m: Matcher, ch: char): Matching {
    if ch == ' ' then Good(m.(hs := HContentLengthWs))
    else if !IsNum(ch) then Bad(INVALID_CONTENT_LENGTH)
    else if (NO_LENGTH - 10) / 10 < m.contentLength then Bad(INVALID_CONTENT_LENGTH)
    else Good(m.(contentLength := m.contentLength * 10 + DigitValue(ch), hs := HContentLengthNum))
  }

  function TokenListByte(m: Matcher, ch: char, start: HeaderState): Matching {
    Good(if ch == ',' then m.(hs := start, index := 0) else m)
  }

  // A byte of a header value other than CR and LF.
  function ValueMatch(m: Matcher, ch: char): Matching {
    var c := LowerBit(ch);
    match m.hs
    case HGeneral => Good(m)
    case HConnection => Impossible
    case HTransferEncoding => Impossible
    case HContentLength => if ch == ' ' then Good(m) else LengthDigit(m, ch)
    case HContentLengthNum => LengthDigit(m, ch)
    case HContentLengthWs => if ch == ' ' then Good(m) else Bad(INVALID_CONTENT_LENGTH)
    case HMatchingTeTokenStart =>
      Good(m.(hs := if c == 'c' then HMatchingTeChunked
                    else if Token(c) != NUL then HMatchingTeToken
                    else if c == ' ' || c == '\t' then m.hs
                    else HGeneral))
    case HMatchingTeChunked => Good(WordByte(m, CHUNKED, c, HTeChunked, HMatchingTeToken))
    case HMatchingTeToken => TokenListByte(m, ch, HMatchingTeTokenStart)
    case HMatchingConnTokenStart =>
      Good(m.(hs := if Token(c) != NUL then ConnectionToken(c)
                    else if c == ' ' || c == '\t' then m.hs
                    else HGeneral))
    case HMatchingConnKeepAlive => Good(WordByte(m, KEEP_ALIVE, c, HConnKeepAlive, HMatchingConnToken))
    case HMatchingConnClose => Good(WordByte(m, CLOSE, c, HConnClose, HMatchingConnToken))
    case HMatchingConnUpgrade => Good(WordByte(m, UPGRADE, c, HConnUpgrade, HMatchingConnToken))
    case HMatchingConnToken => TokenListByte(m, ch, HMatchingConnTokenStart)
    case HTeChunked => Good(if ch != ' ' then m.(hs := HMatchingTeToken) else m)
    case HConnKeepAlive => ConnectionWordEnd(m, ch)
    case HConnClose => ConnectionWordEnd(m, ch)
    case HConnUpgrade => ConnectionWordEnd(m, ch)
    case _ => Good(m.(hs := HGeneral))
  }

  function ConnectionWordEnd(m: Matcher, ch: char): Matching {
    if ch == ',' then
      Good(m.(flags := Concluded(m.hs, m.flags), hs := HMatchingConnTokenStart, index := 0))
    else if ch != ' ' then Good(m.(hs := HMatchingConnToken))
    else Good(m)
  }

  function ValueByte(cfg: Config, p: Parser, ch: char): Outcome {
    if ch == CR then Next(p.(state := HeaderAlmostDone), [Flush(FieldValue)])
    else if ch == LF then Next(p.(state := HeaderValueLws), [Flush(FieldValue)])
    else if !cfg.lenient && !IsHeaderChar(ch) then Fail(INVALID_HEADER_TOKEN)
    else Applied(p, ValueMatch(MatcherOf(p), ch))
  }

  // After the line end of a header: a folded line goes on with the value.
  function ValueLws(cfg: Config, p: Parser, ch: char): Outcome {
    if ch == ' ' || ch == '\t' then
      ValueStart(if p.hs == HContentLengthNum then p.(hs := HContentLengthWs) else p, ch)
    else FieldStart(cfg, p.(flags := Concluded(p.hs, p.flags), state := HeaderFieldStart), ch)
  }

  // After the line end of a value that has been empty so far.
  function DiscardLws(cfg: Config, p: Parser, ch: char): Outcome {
    if ch == ' ' || ch == '\t' then Next(p.(state := HeaderValueDiscardWs), [])
    else if p.hs == HContentLength then Fail(INVALID_CONTENT_LENGTH)
    else Prefix([Mark(FieldValue), Flush(FieldValue)],
                FieldStart(cfg, p.(flags := Concluded(p.hs, p.flags), state := HeaderFieldStart), ch))
  }

  function HeaderByte(cfg: Config, p: Parser, ch: char): Outcome {
    match p.state
    case HeaderFieldStart => FieldStart(cfg, p, ch)
    case HeaderField => FieldByte(p, ch)
    case HeaderValueDiscardWs => DiscardWs(p, ch)
    case HeaderValueDiscardWsAlmostDone => Expect(p, ch, LF, STRICT, HeaderValueDiscardLws)
    case HeaderValueDiscardLws => DiscardLws(cfg, p, ch)
    case HeaderValueStart => ValueStart(p, ch)
    case HeaderValue => ValueByte(cfg, p, ch)
    case HeaderValueLws => ValueLws(cfg, p, ch)
    case HeaderAlmostDone => Expect(p, ch, LF, LF_EXPECTED, HeaderValueLws)
    case HeadersAlmostDone => EndOfHeaders(cfg, p, ch)
    case HeadersDone => Framing(cfg, p, ch)
    case _ => Broken
  }

  // ---- Framing: from the empty line after the headers on.

  // `s_headers_almost_done`
  function EndOfHeaders(cfg: Config, p: Parser, ch: char): Outcome {
    if ch != LF then Fail(STRICT)
    else if p.flags.trailing then
      Prefix([Notify(ChunkComplete)], EndOfMessage(p))
    else if p.usesTe && p.flags.contentLength
         && !(if p.flags.chunked then cfg.allowChunkedLength else cfg.lenient) then
      Fail(UNEXPECTED_CONTENT_LENGTH)
    else
      var q := p.(state := HeadersDone,
                  upgrade := if p.flags.upgrade && p.flags.connectionUpgrade
                             then p.kind == Request || p.status == 101
                             else p.verb == CONNECT);
      var r := match cfg.onHeadersComplete(HeadOf(q))
        case Continue => q
        case NoBody => q.(flags := q.flags.(skipBody := true))
        case NoBodyUpgrade => q.(flags := q.flags.(skipBody := true), upgrade := true);
      Prefix([Notify(HeadersComplete)], Framing(cfg, r, ch))
  }

  predicate HasBody(p: Parser) {
    p.flags.chunked || (p.contentLength > 0 && p.contentLength != NO_LENGTH)
  }

  // `s_headers_done`: how the body is framed, section 3.3.3 of RFC 7230.
  function Framing(cfg: Config, p: Parser, ch: char): Outcome {
    if ch != LF then Fail(STRICT)
    else
      var q := p.(nread := 0);
      var over := q.(state := NewMessage(q));
      var complete := [Notify(MessageComplete)];
      if q.upgrade && (q.verb == CONNECT || q.flags.skipBody || !HasBody(q)) then Exit(over, complete)
      else if q.flags.skipBody then Next(over, complete)
      else if q.flags.chunked then Next(q.(state := ChunkSizeStart), [])
      else if q.usesTe then
        if q.kind == Request && !cfg.lenient then Fail(INVALID_TRANSFER_ENCODING)
        else Next(q.(state := BodyIdentityEof), [])
      else if q.contentLength == 0 then Next(over, complete)
      else if q.contentLength != NO_LENGTH then Next(q.(state := BodyIdentity), [])
      else if !NeedsEof(q) then Next(over, complete)
      else Next(q.(state := BodyIdentityEof), [])
  }

  // `s_message_done`
  function EndOfMessage(p: Parser): Outcome {
    var q := p.(state := NewMessage(p));
    if q.upgrade then Exit(q, [Notify(MessageComplete)]) else Next(q, [Notify(MessageComplete)])
  }

  function BodyByte(p: Parser): Outcome {
    if p.contentLength == 0 || p.contentLength == NO_LENGTH then Broken
    else
      var q := p.(contentLength := p.contentLength - 1);
      if q.contentLength == 0 then
        Prefix([Mark(Body), FlushThis(Body)], EndOfMessage(q.(state := MessageDone)))
      else Next(q, [Mark(Body)])
  }

  function ChunkByte(p: Parser): Outcome {
    if p.contentLength == 0 || p.contentLength == NO_LENGTH then Broken
    else
      var q := p.(contentLength := p.contentLength - 1);
      Next(if q.contentLength == 0 then q.(state := ChunkDataAlmostDone) else q, [Mark(Body)])
  }

  function ChunkSizeByte(p: Parser, ch: char): Outcome {
    if ch == CR then Next(p.(state := ChunkSizeAlmostDone), [])
    else if Unhex(ch) == -1 then
      if ch == ';' || ch == ' ' then Next(p.(state := ChunkParameters), []) else Fail(INVALID_CHUNK_SIZE)
    else if (NO_LENGTH - 16) / 16 < p.contentLength then Fail(INVALID_CONTENT_LENGTH)
    else Next(p.(contentLength := p.contentLength * 16 + Unhex(ch)), [])
  }

  function ChunkSizeEnd(p: Parser, ch: char): Outcome {
    if ch != LF then Fail(STRICT)
    else
      var q := p.(nread := 0);
      Next(if q.contentLength == 0
           then q.(flags := q.flags.(trailing := true), state := HeaderFieldStart)
           else q.(state := ChunkData), [Notify(ChunkHeader)])
  }

  function BodyState(p: Parser, ch: char): Outcome {
    match p.state
    case BodyIdentity => BodyByte(p)
    case BodyIdentityEof => Next(p, [Mark(Body)])
    case MessageDone => EndOfMessage(p)
    case ChunkSizeStart =>
      if p.nread != 1 || !p.flags.chunked then Broken
      else if Unhex(ch) == -1 then Fail(INVALID_CHUNK_SIZE)
      else Next(p.(contentLength := Unhex(ch), state := ChunkSize), [])
    case ChunkSize => if !p.flags.chunked then Broken else ChunkSizeByte(p, ch)
    case ChunkParameters =>
      if !p.flags.chunked then Broken
      else Next(if ch == CR then p.(state := ChunkSizeAlmostDone) else p, [])
    case ChunkSizeAlmostDone => if !p.flags.chunked then Broken else ChunkSizeEnd(p, ch)
    case ChunkData => if !p.flags.chunked then Broken else ChunkByte(p)
    case ChunkDataAlmostDone =>
      if !p.flags.chunked || p.contentLength != 0 then Broken
      else if ch != CR then Fail(STRICT)
      else Next(p.(state := ChunkDataDone), [Flush(Body)])
    case ChunkDataDone =>
      if !p.flags.chunked then Broken
      else if ch != LF then Fail(STRICT)
      else Next(p.(nread := 0, state := ChunkSizeStart), [Notify(ChunkComplete)])
    case _ => Broken
  }

  // ---- The whole switch, and the header size limit in front of it.

  datatype Group = GStart | GResponse | GRequest | GUrl | GHeader | GBody

  function GroupOf(s: State): Group {
    match s
    case Dead => GStart case StartReqOrRes => GStart case ResOrRespH => GStart
    case StartRes => GStart case StartReq => GStart
    case ResH => GResponse case ResHT => GResponse case ResHTT => GResponse case ResHTTP => GResponse
    case ResHttpMajor => GResponse case ResHttpDot => GResponse case ResHttpMinor => GResponse
    case ResHttpEnd => GResponse case ResFirstStatusCode => GResponse case ResStatusCode => GResponse
    case ResStatusStart => GResponse case ResStatus => GResponse case ResLineAlmostDone => GResponse
    case ReqMethod => GRequest
    case ReqSpacesBeforeUrl => GUrl case ReqSchema => GUrl case ReqSchemaSlash => GUrl
    case ReqSchemaSlashSlash => GUrl case ReqServerStart => GUrl case ReqServer => GUrl
    case ReqServerWithAt => GUrl case ReqPath => GUrl case ReqQueryStringStart => GUrl
    case ReqQueryString => GUrl case ReqFragmentStart => GUrl case ReqFragment => GUrl
    case ReqHttpStart => GRequest case ReqHttpH => GRequest case ReqHttpHT => GRequest
    case ReqHttpHTT => GRequest case ReqHttpHTTP => GRequest case ReqHttpI => GRequest
    case ReqHttpIC => GRequest case ReqHttpMajor => GRequest case ReqHttpDot => GRequest
    case ReqHttpMinor => GRequest case ReqHttpEnd => GRequest case ReqLineAlmostDone => GRequest
    case HeaderFieldStart => GHeader case HeaderField => GHeader case HeaderValueDiscardWs => GHeader
    case HeaderValueDiscardWsAlmostDone => GHeader case HeaderValueDiscardLws => GHeader
    case HeaderValueStart => GHeader case HeaderValue => GHeader case HeaderValueLws => GHeader
    case HeaderAlmostDone => GHeader case HeadersAlmostDone => GHeader case HeadersDone => GHeader
    case ChunkSizeStart => GBody case ChunkSize => GBody case ChunkParameters => GBody
    case ChunkSizeAlmostDone => GBody case ChunkData => GBody case ChunkDataAlmostDone => GBody
    case ChunkDataDone => GBody case BodyIdentity => GBody case BodyIdentityEof => GBody
    case MessageDone => GBody
  }

  function Switch(cfg: Config, p: Parser, ch: char): Outcome {
    match GroupOf(p.state)
    case GStart => StartMessage(p, ch)
    case GResponse => ResponseLine(p, ch)
    case GRequest => RequestLine(p, ch)
    case GUrl => UrlState(p, ch)
    case GHeader => HeaderByte(cfg, p, ch)
    case GBody => BodyState(p, ch)
  }

  // `COUNT_HEADER_SIZE(1)` as it stands at the head of the loop.
  function Counted(p: Parser): Parser {
    if ParsingHeader(p.state) then p.(nread := p.nread + 1) else p
  }

  function Step(cfg: Config, p: Parser, ch: char): Outcome {
    if ParsingHeader(p.state) && p.nread + 1 > cfg.maxHeader then Fail(HEADER_OVERFLOW)
    else Switch(cfg, Counted(p), ch)
  }

  // `http_parser_execute` with length 0: the end of the stream.
  function AtEof(p: Parser): Outcome {
    match p.state
    case BodyIdentityEof => Next(p, [Notify(MessageComplete)])
    case Dead => Next(p, [])
    case StartReqOrRes => Next(p, [])
    case StartRes => Next(p, [])
    case StartReq => Next(p, [])
    case _ => Fail(INVALID_EOF_STATE)
  }
}
