/**
  Whole HTTP messages: what the callbacks are given for a message of the grammar, however the stream
  is cut.
 */
module HttpMessage {
  import opened HttpChars
  import opened HttpStep
  import opened HttpTrace
  import opened HttpInvariant
  import opened HttpBulk
  import opened HttpExecute
  import opened HttpChunked
  import opened HttpRuns
  import opened HttpName
  import opened HttpHeader
  import opened HttpLine
  import opened HttpFraming
  import opened Text
  import G = HttpGrammar

  // ---- The header fields.

  lemma TokenStart(h: G.Header)
    requires G.IsToken(h.name)
    ensures G.HeaderText(h) != "" && G.HeaderText(h)[0] == h.name[0]
    ensures h.name[0] != ' ' && h.name[0] != '\t'
  {
    hide G.ValueText, G.Eol;
    TokenIs(h.name[0]);
    assert G.TokenByte(h.name[0]);
  }

  lemma HeadersFirst(hs: seq<G.Header>, t: string)
    requires hs != []
    ensures G.HeadersText(hs) + t == G.HeaderText(hs[0]) + (G.HeadersText(hs[1..]) + t)
    ensures |G.HeadersText(hs)| == |G.HeaderText(hs[0])| + |G.HeadersText(hs[1..])|
    ensures G.HeadersEvents(hs) == G.HeaderEvents(hs[0]) + G.HeadersEvents(hs[1..])
  {
    hide G.HeaderText, G.HeaderEvents;
    ConcatAssoc(G.HeaderText(hs[0]), G.HeadersText(hs[1..]), t);
  }

  // Behind the fields the text goes on without a blank.
  predicate Starts(t: string) { t != "" && t[0] != ' ' && t[0] != '\t' }

  lemma RestStarts(lenient: bool, i: G.Info, hs: seq<G.Header>, t: string)
    requires G.HeadersOk(lenient, i, hs) && Starts(t)
    ensures Starts(G.HeadersText(hs) + t)
  {
    if hs == [] {
      assert "" + t == t;
    } else {
      TokenStart(hs[0]);
      hide G.HeaderText;
      HeadersFirst(hs, t);
    }
  }

  lemma HeadedTwice(p: Parser, q: Parser, n: nat, i: G.Info, r: Parser, k: nat, j: G.Info)
    requires Headed(p, q, n, i) && Headed(q, r, k, j)
    ensures Headed(p, r, n + k, j)
  {
  }

  lemma HeadedIs(p: Parser, q: Parser, n: nat, i: G.Info)
    requires Headed(p, q, n, i)
    ensures InfoOf(q) == i && q.nread == p.nread + n
  {
  }

  lemma HeadersOkFirst(lenient: bool, i: G.Info, hs: seq<G.Header>)
    requires G.HeadersOk(lenient, i, hs) && hs != []
    ensures G.HeaderOk(lenient, hs[0]) && G.Fits(i, hs[0]) && G.HeadersOk(lenient, G.HeaderMeans(i, hs[0]), hs[1..])
    ensures G.HeadersMean(i, hs) == G.HeadersMean(G.HeaderMeans(i, hs[0]), hs[1..])
  {
  }

  lemma EventsEnd(log: Log, h: G.Header)
    ensures !EndsWith(log + G.HeaderEvents(h), FieldName)
  {
  }

  lemma ShiftTwice(r: Run, n: nat, k: nat)
    ensures Shift(Shift(r, n), k) == Shift(r, n + k)
  {
  }

  /** Header fields in front of any text. */
  lemma {:induction false} HeadersRead(cfg: Config, p: Parser, log: Log, hs: seq<G.Header>, t: string) returns (q: Parser)
    requires p.state == HeaderFieldStart && !EndsWith(log, FieldName)
    requires p.nread + |G.HeadersText(hs)| + 1 <= cfg.maxHeader
    requires G.HeadersOk(cfg.lenient, InfoOf(p), hs) && Starts(t)
    ensures PerByte(cfg, Going(p, log), G.HeadersText(hs) + t)
         == Shift(PerByte(cfg, Going(q, log + G.HeadersEvents(hs)), t), |G.HeadersText(hs)|)
    ensures Headed(p, q, |G.HeadersText(hs)|, G.HeadersMean(InfoOf(p), hs)) && q.state == HeaderFieldStart
    decreases |hs|
  {
    hide PerByte, G.HeadersOk, G.HeaderText, G.HeaderOk, G.Fits, G.HeaderMeans, G.HeadersMean, G.HeaderEvents, Emit, Headed,
         G.HeadersText, G.HeadersEvents;
    if hs == [] {
      q := p;
      NoHeaders(cfg, p, log, t);
    } else {
      var h, rest := hs[0], G.HeadersText(hs[1..]) + t;
      HeadersOkFirst(cfg.lenient, InfoOf(p), hs);
      HeadersFirst(hs, t);
      RestStarts(cfg.lenient, G.HeaderMeans(InfoOf(p), h), hs[1..], t);
      var q1 := HeaderRead(cfg, p, log, h, rest);
      HeadedIs(p, q1, |G.HeaderText(h)|, G.HeaderMeans(InfoOf(p), h));
      EventsEnd(log, h);
      var l := log + G.HeaderEvents(h);
      q := HeadersRead(cfg, q1, l, hs[1..], t);
      var r := PerByte(cfg, Going(q, l + G.HeadersEvents(hs[1..])), t);
      ShiftTwice(r, |G.HeadersText(hs[1..])|, |G.HeaderText(h)|);
      assert l + G.HeadersEvents(hs[1..]) == log + G.HeadersEvents(hs);
      HeadedTwice(p, q1, |G.HeaderText(h)|, G.HeaderMeans(InfoOf(p), h), q, |G.HeadersText(hs[1..])|,
                  G.HeadersMean(InfoOf(q1), hs[1..]));
    }
  }

  lemma NoHeaders(cfg: Config, p: Parser, log: Log, t: string)
    ensures PerByte(cfg, Going(p, log), G.HeadersText([]) + t)
         == Shift(PerByte(cfg, Going(p, log + G.HeadersEvents([])), t), |G.HeadersText([])|)
    ensures Headed(p, p, |G.HeadersText([])|, G.HeadersMean(InfoOf(p), []))
  {
    assert "" + t == t && log + [] == log;
    hide PerByte;
  }

  // ---- The empty line.

  lemma NotifyTwice(log: Log, n: Notice, k: Notice)
    ensures Perform([Notify(n), Notify(k)], map[], log, [LF], 0) == (map[], log + [Called(n), Called(k)])
  {
    var none: Marks := map[];
    assert [Notify(n), Notify(k)] == [Notify(n)] + [Notify(k)];
    hide Perform, PerformOne;
    PerformCons(Notify(n), [Notify(k)], none, log, [LF], 0);
    BodyNotify(log, LF, n);
    PerformSingle(Notify(k), none, log + [Called(n)], [LF], 0);
    BodyNotify(log + [Called(n)], LF, k);
    assert log + [Called(n)] + [Called(k)] == log + [Called(n), Called(k)];
  }

  // The run after a byte that raises two notifications.
  lemma TwoNotices(cfg: Config, p: Parser, log: Log, q: Parser, n: Notice, k: Notice)
    requires Resumed(p.state) == map[]
    requires Step(cfg, p, LF) == Next(q, [Notify(n), Notify(k)]) || Step(cfg, p, LF) == Exit(q, [Notify(n), Notify(k)])
    ensures PerByte(cfg, Going(p, log), [LF])
         == var l := log + [Called(n), Called(k)];
            if Step(cfg, p, LF).Next? then Going(q, l) else Exited(q, l, 1)
  {
    NotifyTwice(log, n, k);
    Single(cfg, p, log, LF);
    NothingEnd(log + [Called(n), Called(k)], LF);
    hide Step, Perform, CloseAll, Emit;
  }

  // What `on_headers_complete` is given: the meaning of the head, next to what was there before.
  function HeadMeant(kind: Kind, status: nat, verb: Method, major: nat, minor: nat, i: G.Info): Head {
    Head(kind, i.flags, i.usesTe, i.length, major, minor, status, verb,
         if i.flags.upgrade && i.flags.connectionUpgrade then kind == Request || status == 101 else verb == CONNECT)
  }

  function MeantBy(p: Parser): Head { HeadMeant(p.kind, p.status, p.verb, p.major, p.minor, InfoOf(p)) }

  // The parser behind the empty line.
  function AfterHead(cfg: Config, p: Parser, h: Head): Parser {
    var q := p.(nread := 0, upgrade := Upgrades(cfg, h),
                flags := if Skips(cfg, h) then p.flags.(skipBody := true) else p.flags);
    match FrameOf(cfg, h)
    case Chunks => q.(state := ChunkSizeStart)
    case Sized(_) => q.(state := BodyIdentity)
    case UntilClose => q.(state := BodyIdentityEof)
    case _ => q.(state := NextStart(h, Skips(cfg, h)))
  }

  // The line feed of the empty line, in front of a body.
  function HeadOutcome(cfg: Config, p: Parser): Outcome {
    var h := MeantBy(p);
    var q := AfterHead(cfg, p, h);
    match FrameOf(cfg, h)
    case Refused(e) => Fail(e)
    case Leaves => Exit(q, [Notify(HeadersComplete), Notify(MessageComplete)])
    case Empty => Next(q, [Notify(HeadersComplete), Notify(MessageComplete)])
    case _ => Next(q, [Notify(HeadersComplete)])
  }

  lemma Together(n: Notice, k: Notice)
    ensures [Notify(n)] + [Notify(k)] == [Notify(n), Notify(k)] && [Notify(n)] + [] == [Notify(n)]
  {
  }

  lemma NeedsEofIs(p: Parser, h: Head)
    requires h.kind == p.kind && h.status == p.status && h.usesTe == p.usesTe && h.contentLength == p.contentLength
    requires h.flags.chunked == p.flags.chunked && p.kind != Both
    ensures NeedsEof(p) == EndsWithStream(h, p.flags.skipBody)
  {
  }

  lemma NewMessageIs(p: Parser, h: Head, skip: bool)
    requires h == Head(p.kind, h.flags, p.usesTe, p.contentLength, p.major, p.minor, p.status, h.verb, h.upgrade)
    requires h.flags.chunked == p.flags.chunked && h.flags.close == p.flags.close && h.flags.keepAlive == p.flags.keepAlive
    requires skip == p.flags.skipBody && p.kind != Both
    ensures NewMessage(p) == NextStart(h, skip)
  {
    NeedsEofIs(p, h);
    hide NeedsEof, EndsWithStream;
  }

  // The parser as `on_headers_complete` leaves it.
  function Replied(cfg: Config, p: Parser, h: Head): Parser {
    p.(state := HeadersDone, upgrade := Upgrades(cfg, h),
       flags := if Skips(cfg, h) then p.flags.(skipBody := true) else p.flags)
  }

  lemma HeadersEnd(cfg: Config, p: Parser)
    requires !p.flags.trailing
    ensures
      var h := MeantBy(p);
      EndOfHeaders(cfg, p, LF)
      == if Conflict(cfg, h) then Fail(UNEXPECTED_CONTENT_LENGTH)
         else Prefix([Notify(HeadersComplete)], Framing(cfg, Replied(cfg, p, h), LF))
  {
    hide Framing, Prefix;
  }

  // The same for the framing by itself.
  lemma BodyFraming(cfg: Config, p: Parser, h: Head)
    requires h == MeantBy(p) && !Skips(cfg, h) && !p.flags.skipBody && p.kind != Both
    requires !(Upgrades(cfg, h) && (h.verb == CONNECT || !Announced(h)))
    ensures
      var o := Framing(cfg, Replied(cfg, p, h), LF);
      var q := Replied(cfg, p, h).(nread := 0);
      match BodyFrame(cfg, h)
      case Refused(e) => o == Fail(e)
      case Leaves => true
      case Chunks => o == Next(q.(state := ChunkSizeStart), [])
      case Sized(_) => o == Next(q.(state := BodyIdentity), [])
      case UntilClose => o == Next(q.(state := BodyIdentityEof), [])
      case Empty => o == Next(q.(state := NewMessage(q)), [Notify(MessageComplete)])
  {
    NeedsEofIs(Replied(cfg, p, h).(nread := 0), h);
    hide NewMessage, NeedsEof, Upgrades;
  }

  lemma ShortFraming(cfg: Config, p: Parser, h: Head)
    requires h == MeantBy(p) && !p.flags.skipBody && p.kind != Both
    requires Skips(cfg, h) || (Upgrades(cfg, h) && (h.verb == CONNECT || !Announced(h)))
    ensures
      var o := Framing(cfg, Replied(cfg, p, h), LF);
      var q := Replied(cfg, p, h).(nread := 0);
      var over := q.(state := NewMessage(q));
      o == if Upgrades(cfg, h) then Exit(over, [Notify(MessageComplete)]) else Next(over, [Notify(MessageComplete)])
  {
    hide NewMessage, NeedsEof, Upgrades;
  }

  lemma RepliedEnds(cfg: Config, p: Parser, h: Head)
    requires h == MeantBy(p) && !p.flags.skipBody && p.kind != Both
    ensures
      var q := Replied(cfg, p, h).(nread := 0);
      NewMessage(q) == NextStart(h, Skips(cfg, h))
  {
    NewMessageIs(Replied(cfg, p, h).(nread := 0), h, Skips(cfg, h));
    hide NewMessage, NextStart, Upgrades;
  }

  lemma BodyFrames(cfg: Config, h: Head)
    ensures !BodyFrame(cfg, h).Leaves?
  {
  }

  lemma FramingIs(cfg: Config, p: Parser, h: Head)
    requires h == MeantBy(p) && !Conflict(cfg, h) && !p.flags.skipBody && p.kind != Both
    ensures
      var o := Framing(cfg, Replied(cfg, p, h), LF);
      var q := AfterHead(cfg, p, h);
      match FrameOf(cfg, h)
      case Refused(e) => o == Fail(e)
      case Leaves => o == Exit(q, [Notify(MessageComplete)])
      case Empty => o == Next(q, [Notify(MessageComplete)])
      case _ => o == Next(q, [])
  {
    hide NewMessage, NeedsEof, NextStart, Conflict, Upgrades, Framing, BodyFrame, Announced, MeantBy;
    RepliedEnds(cfg, p, h);
    BodyFrames(cfg, h);
    if Skips(cfg, h) || (Upgrades(cfg, h) && (h.verb == CONNECT || !Announced(h))) {
      ShortFraming(cfg, p, h);
    } else {
      BodyFraming(cfg, p, h);
    }
  }

  lemma HeadOutcomeIs(cfg: Config, p: Parser)
    requires !p.flags.trailing && !p.flags.skipBody && p.kind != Both
    ensures EndOfHeaders(cfg, p, LF) == HeadOutcome(cfg, p)
  {
    var h := MeantBy(p);
    HeadersEnd(cfg, p);
    Together(HeadersComplete, MessageComplete);
    if !Conflict(cfg, h) {
      FramingIs(cfg, p, h);
    }
    hide EndOfHeaders, Framing, Conflict, Upgrades, Skips, AfterHead, BodyFrame, Announced, MeantBy;
  }

  lemma HeadIs(cfg: Config, p: Parser, ch: char)
    ensures p.state == HeaderFieldStart ==> HeaderByte(cfg, p, ch) == FieldStart(cfg, p, ch) && GroupOf(p.state) == GHeader
    ensures p.state == HeadersAlmostDone ==> HeaderByte(cfg, p, ch) == EndOfHeaders(cfg, p, ch) && GroupOf(p.state) == GHeader
  {
    hide FieldStart, FieldMatch, ValueStart, ValueMatch, ValueByte, EndOfHeaders, Framing;
  }

  lemma AlmostDone(cfg: Config, p: Parser)
    requires p.state == HeaderFieldStart && p.nread + 1 <= cfg.maxHeader
    ensures Step(cfg, p, CR) == Next(Counts(p, 1).(state := HeadersAlmostDone), [])
    ensures Step(cfg, p, LF) == EndOfHeaders(cfg, Counts(p, 1).(state := HeadersAlmostDone), LF)
    ensures Resumed(p.state) == map[]
  {
    HeadIs(cfg, Counts(p, 1), CR);
    HeadIs(cfg, Counts(p, 1), LF);
    hide EndOfHeaders, HeaderByte, GroupOf, Step, Resumed;
    HeaderStep(cfg, p, CR);
    HeaderStep(cfg, p, LF);
  }

  lemma DoneStep(cfg: Config, p: Parser)
    requires p.state == HeadersAlmostDone && p.nread + 1 <= cfg.maxHeader
    ensures Step(cfg, p, LF) == EndOfHeaders(cfg, Counts(p, 1), LF) && Resumed(p.state) == map[]
  {
    HeadIs(cfg, Counts(p, 1), LF);
    hide EndOfHeaders, HeaderByte, GroupOf, Step, Resumed, FieldStart;
    HeaderStep(cfg, p, LF);
  }

  // The run of the line feed.
  function Ended(cfg: Config, p: Parser, log: Log, n: nat): Run {
    var h := MeantBy(p);
    var q := AfterHead(cfg, p, h);
    match FrameOf(cfg, h)
    case Refused(e) => Failed(e)
    case Leaves => Exited(q, log + [Called(HeadersComplete), Called(MessageComplete)], n)
    case Empty => Going(q, log + [Called(HeadersComplete), Called(MessageComplete)])
    case _ => Going(q, log + [Called(HeadersComplete)])
  }

  lemma LfEnds(cfg: Config, p: Parser, log: Log, s: Parser)
    requires s.kind != Both && !s.flags.trailing && !s.flags.skipBody && Resumed(p.state) == map[]
    requires Step(cfg, p, LF) == EndOfHeaders(cfg, s, LF)
    ensures PerByte(cfg, Going(p, log), [LF]) == Ended(cfg, s, log, 1)
  {
    hide PerByte, OneByte, EndOfHeaders, Step, MeantBy, AfterHead, FrameOf;
    HeadOutcomeIs(cfg, s);
    var h := MeantBy(s);
    var q := AfterHead(cfg, s, h);
    Single(cfg, p, log, LF);
    match FrameOf(cfg, h) {
      case Refused(e) => FailingByte(cfg, p, log, LF, 0, e);
      case Leaves => TwoNotices(cfg, p, log, q, HeadersComplete, MessageComplete);
      case Empty => TwoNotices(cfg, p, log, q, HeadersComplete, MessageComplete);
      case Chunks => NotifyingByte(cfg, p, log, LF, 0, q, HeadersComplete);
      case Sized(_) => NotifyingByte(cfg, p, log, LF, 0, q, HeadersComplete);
      case UntilClose => NotifyingByte(cfg, p, log, LF, 0, q, HeadersComplete);
    }
  }

  lemma SameMeaning(cfg: Config, p: Parser, q: Parser)
    requires p.(nread := q.nread, state := q.state) == q
    ensures MeantBy(p) == MeantBy(q) && AfterHead(cfg, p, MeantBy(p)) == AfterHead(cfg, q, MeantBy(q))
  {
  }

  // The empty line behind the header fields.
  lemma EmptyLine(cfg: Config, p: Parser, log: Log, bare: bool)
    requires p.state == HeaderFieldStart && p.kind != Both && !p.flags.trailing && !p.flags.skipBody
    requires p.nread + |G.Eol(bare)| <= cfg.maxHeader
    ensures PerByte(cfg, Going(p, log), G.Eol(bare)) == Ended(cfg, p, log, |G.Eol(bare)|)
  {
    hide PerByte, OneByte, EndOfHeaders, Step, MeantBy, AfterHead, FrameOf, Resumed, Goes, Ended;
    EolIs();
    AlmostDone(cfg, p);
    var q := Counts(p, 1).(state := HeadersAlmostDone);
    if bare {
      LfEnds(cfg, p, log, q);
      SameEnd(cfg, p, q, log, 1);
    } else {
      DoneStep(cfg, q);
      QuietGoes(cfg, p, log, CR, q);
      LfEnds(cfg, q, log, Counts(q, 1));
      GoesConcat(cfg, p, log, [CR], q, log, [LF]);
      EndedShift(cfg, Counts(q, 1), log, 1, 1);
      SameEnd(cfg, p, Counts(q, 1), log, 2);
    }
  }

  lemma SameEnd(cfg: Config, p: Parser, q: Parser, log: Log, n: nat)
    requires p.(nread := q.nread, state := q.state) == q
    ensures Ended(cfg, p, log, n) == Ended(cfg, q, log, n)
  {
    SameMeaning(cfg, p, q);
    hide MeantBy, AfterHead, FrameOf;
  }

  // ---- Messages.

  // A body: the bytes as they are, or chunks, with the last chunk and the trailer fields.
  datatype Body = Bytes(bytes: string)
                | ChunkList(chunks: seq<Chunk>, zeros: string, ext: string, trailer: seq<G.Header>, end: bool)

  datatype Message = Message(line: G.Line, headers: seq<G.Header>, bare: bool, body: Body)

  function HeadText(m: Message): string
    requires G.VersionOk(m.line.version)
  {
    G.LineText(m.line) + (G.HeadersText(m.headers) + G.Eol(m.bare))
  }

  function BodyText(body: Body): string {
    match body
    case Bytes(bytes) => bytes
    case ChunkList(chunks, zeros, ext, trailer, end) =>
      EncodeAll(chunks) + ((zeros + ext + CRLF) + (G.HeadersText(trailer) + G.Eol(end)))
  }

  ghost predicate HeadOk(cfg: Config, m: Message) {
    G.LineOk(m.line) && G.HeadersOk(cfg.lenient, G.NOTHING, m.headers)
  }

  // The head of the message, as it is meant. A request says nothing of a status and a response
  // nothing of a method: there the fields keep what they were.
  function MeantHead(m: Message, status: nat, verb: Method): Head {
    var simple := m.line.RequestLine? && m.line.simple;
    HeadMeant(if m.line.RequestLine? then Request else Response,
              if m.line.StatusLine? then G.Number(m.line.code) else status,
              if m.line.RequestLine? then m.line.verb else verb,
              if simple then 0 else m.line.version.major, if simple then 9 else m.line.version.minor,
              G.HeadersMean(G.NOTHING, m.headers))
  }

  function HeadEvents(m: Message): Log { LineEvents(m.line) + G.HeadersEvents(m.headers) }

  // ---- Heads.

  lemma {:induction false} MeanKeeps(i: G.Info, hs: seq<G.Header>)
    ensures
      var f, g := i.flags, G.HeadersMean(i, hs).flags;
      g.trailing == f.trailing && g.skipBody == f.skipBody && (f.chunked ==> g.chunked)
    decreases |hs|
  {
    if hs != [] {
      MeanOne(i, hs[0]);
      hide G.HeaderMeans;
      MeanKeeps(G.HeaderMeans(i, hs[0]), hs[1..]);
    }
  }

  lemma MeanOne(i: G.Info, h: G.Header)
    ensures
      var f, g := i.flags, G.HeaderMeans(i, h).flags;
      g.trailing == f.trailing && g.skipBody == f.skipBody && (f.chunked ==> g.chunked)
  {
    hide G.RoleOf, G.EndsChunked, G.HasOption, Fold;
  }

  lemma LineFacts(p: Parser, line: G.Line)
    ensures
      var q := LineParser(p, line);
      && q.state == HeaderFieldStart && q.nread == p.nread && InfoOf(q) == G.NOTHING && q.kind != Both
      && q.kind == (if line.RequestLine? then Request else Response)
    ensures forall log: Log :: !EndsWith(log + LineEvents(line), FieldName)
  {
  }

  lemma HeadedMeans(p: Parser, q: Parser, m: Message, n: nat, k: nat)
    requires Headed(Counts(LineParser(p, m.line), k), q, n, G.HeadersMean(G.NOTHING, m.headers))
    ensures MeantBy(q) == MeantHead(m, p.status, p.verb)
  {
    hide G.HeadersMean;
  }

  lemma EolStarts(bare: bool, t: string)
    ensures Starts(G.Eol(bare) + t) && G.Eol(bare) != ""
  {
  }

  // The run of a head ends at its empty line.
  lemma HeadRead(cfg: Config, p: Parser, log: Log, m: Message) returns (q: Parser)
    requires HeadOk(cfg, m) && CanStart(p, m.line) && p.nread + |HeadText(m)| <= cfg.maxHeader
    ensures PerByte(cfg, Going(p, log), HeadText(m)) == Ended(cfg, q, log + HeadEvents(m), |HeadText(m)|)
    ensures MeantBy(q) == MeantHead(m, p.status, p.verb)
    ensures InfoOf(q) == G.HeadersMean(G.NOTHING, m.headers) && q.kind == (if m.line.RequestLine? then Request else Response)
    ensures !q.flags.trailing && !q.flags.skipBody
  {
    hide PerByte, G.TargetOk, G.HeadersOk, CanStart, G.LineText, G.HeadersText, LineParser, LineEvents, G.HeadersMean,
         Goes, G.HeadersEvents, Emit, MeantBy, MeantHead, Headed, Ended, G.Eol;
    var a, b, e := G.LineText(m.line), G.HeadersText(m.headers), G.Eol(m.bare);
    LineFacts(p, m.line);
    LineRead(cfg, p, log, m.line);
    var q0, l := Counts(LineParser(p, m.line), |a|), log + LineEvents(m.line);
    assert InfoOf(q0) == G.NOTHING;
    EolStarts(m.bare, "");
    assert e + "" == e;
    q := HeadersRead(cfg, q0, l, m.headers, e);
    HeadedMeans(p, q, m, |b|, |a|);
    HeadedKeeps(q0, q, |b|, G.HeadersMean(G.NOTHING, m.headers));
    MeanKeeps(G.NOTHING, m.headers);
    EmptyLine(cfg, q, l + G.HeadersEvents(m.headers), m.bare);
    assert l + G.HeadersEvents(m.headers) == log + HeadEvents(m);
    GoesConcat(cfg, p, log, a, q0, l, b + e);
    EndedShift(cfg, q, log + HeadEvents(m), |e|, |b|);
    EndedShift(cfg, q, log + HeadEvents(m), |b| + |e|, |a|);
  }

  lemma HeadedKeeps(p: Parser, q: Parser, n: nat, i: G.Info)
    requires Headed(p, q, n, i)
    ensures q.kind == p.kind && q.flags == i.flags && InfoOf(q) == i && q.nread == p.nread + n
  {
  }

  lemma GoesConcat(cfg: Config, p: Parser, log: Log, a: string, q: Parser, l: Log, b: string)
    requires Goes(cfg, p, log, a, q, l)
    ensures PerByte(cfg, Going(p, log), a + b) == Shift(PerByte(cfg, Going(q, l), b), |a|)
  {
    hide PerByte;
    PerByteConcat(cfg, Going(p, log), a, b);
  }

  lemma EndedShift(cfg: Config, p: Parser, log: Log, n: nat, k: nat)
    ensures Shift(Ended(cfg, p, log, n), k) == Ended(cfg, p, log, n + k)
  {
    hide MeantBy, FrameOf, AfterHead;
  }

  // ---- Bodies of known length.

  lemma EndIs(p: Parser, h: Head)
    requires p.kind != Both && h.kind == p.kind && h.major == p.major && h.minor == p.minor && h.status == p.status
    requires h.flags.close == p.flags.close && h.flags.keepAlive == p.flags.keepAlive
    requires h.flags.chunked == p.flags.chunked && h.usesTe == p.usesTe
    requires p.flags.chunked || (p.contentLength != NO_LENGTH && h.contentLength != NO_LENGTH)
    ensures NewMessage(p) == NextStart(h, p.flags.skipBody)
  {
  }

  // The end of a message: on to the next one, or away.
  function Finished(q: Parser, log: Log, n: nat): Run { if q.upgrade then Exited(q, log, n) else Going(q, log) }

  lemma SizedRead(cfg: Config, p: Parser, log: Log, bytes: string, h: Head)
    requires Inv(cfg, p) && p.state == BodyIdentity && p.contentLength == |bytes| > 0 && p.kind != Both
    requires h == MeantBy(p) && !EndsWith(log, Body) && !h.flags.chunked
    ensures
      var q := p.(contentLength := 0, state := NextStart(h, p.flags.skipBody));
      PerByte(cfg, Going(p, log), bytes)
      == Finished(q, log + [Data(Body, bytes), Called(MessageComplete)], |bytes|)
  {
    hide PerByte, NewMessage, NextStart;
    ManyBodyBytes(cfg, p, log, bytes);
    EmitNew(log, Body, bytes);
    InvLength(cfg, p);
    EndIs(p.(contentLength := 0, state := MessageDone), h);
    assert log + [Data(Body, bytes)] + [Called(MessageComplete)] == log + [Data(Body, bytes), Called(MessageComplete)];
  }

  lemma InvLength(cfg: Config, p: Parser)
    requires Inv(cfg, p) && p.state == BodyIdentity
    ensures 0 < p.contentLength < NO_LENGTH
  {
    hide MethodName;
  }

  // ---- Chunked bodies.

  function TrailerInfo(p: Parser): G.Info { G.Info(p.flags.(trailing := true), p.usesTe, 0) }

  ghost predicate ChunksOk(cfg: Config, body: Body, i: G.Info) {
    && body.ChunkList?
    && (forall c <- body.chunks :: ChunkOk(cfg, c))
    && SizeLine(cfg, body.zeros, body.ext) && SizeValue(body.zeros) == 0
    && |G.HeadersText(body.trailer)| + 2 <= cfg.maxHeader
    && G.HeadersOk(cfg.lenient, i, body.trailer)
  }

  function BodyEvents(body: Body): Log {
    match body
    case Bytes(bytes) => if bytes == "" then [] else [Data(HttpStep.Body, bytes)]
    case ChunkList(chunks, _, _, trailer, _) =>
      Callbacks(chunks) + [Called(ChunkHeader)] + G.HeadersEvents(trailer) + [Called(ChunkComplete)]
  }

  // The line feed behind the trailer.
  lemma TrailerLf(cfg: Config, p: Parser, log: Log, s: Parser)
    requires s.flags.trailing && Resumed(p.state) == map[] && Step(cfg, p, LF) == EndOfHeaders(cfg, s, LF)
    ensures PerByte(cfg, Going(p, log), [LF])
         == Finished(s.(state := NewMessage(s)), log + [Called(ChunkComplete), Called(MessageComplete)], 1)
  {
    hide PerByte, Step, NewMessage, Framing;
    Together(ChunkComplete, MessageComplete);
    TwoNotices(cfg, p, log, s.(state := NewMessage(s)), ChunkComplete, MessageComplete);
  }

  lemma TrailerEnd(cfg: Config, p: Parser, log: Log, bare: bool, h: Head)
    requires p.state == HeaderFieldStart && p.flags.trailing && p.flags.chunked && p.kind != Both
    requires h.kind == p.kind && h.major == p.major && h.minor == p.minor && h.status == p.status
    requires h.flags == p.flags && h.usesTe == p.usesTe && p.nread + |G.Eol(bare)| <= cfg.maxHeader
    ensures
      var q := Counts(p, |G.Eol(bare)|).(state := NextStart(h, p.flags.skipBody));
      PerByte(cfg, Going(p, log), G.Eol(bare))
      == Finished(q, log + [Called(ChunkComplete), Called(MessageComplete)], |G.Eol(bare)|)
  {
    hide PerByte, OneByte, EndOfHeaders, Step, NewMessage, NextStart, Resumed, Goes, HeaderByte;
    EolIs();
    AlmostDone(cfg, p);
    var q := Counts(p, 1).(state := HeadersAlmostDone);
    if bare {
      TrailerLf(cfg, p, log, q);
      EndIs(q, h);
    } else {
      QuietGoes(cfg, p, log, CR, q);
      TrailerDone(cfg, q, log, h);
      GoesConcat(cfg, p, log, [CR], q, log, [LF]);
    }
  }

  lemma TrailerDone(cfg: Config, q: Parser, log: Log, h: Head)
    requires q.state == HeadersAlmostDone && q.flags.trailing && q.flags.chunked && q.kind != Both
    requires h.kind == q.kind && h.major == q.major && h.minor == q.minor && h.status == q.status
    requires h.flags == q.flags && h.usesTe == q.usesTe && q.nread + 1 <= cfg.maxHeader
    ensures PerByte(cfg, Going(q, log), [LF])
         == Finished(Counts(q, 1).(state := NextStart(h, q.flags.skipBody)),
                     log + [Called(ChunkComplete), Called(MessageComplete)], 1)
  {
    hide PerByte, OneByte, EndOfHeaders, Step, NewMessage, NextStart, Resumed;
    DoneStep(cfg, q);
    TrailerLf(cfg, q, log, Counts(q, 1));
    EndIs(Counts(q, 1), h);
  }

  // The chunks and the line of the last chunk.
  lemma ChunksPart(cfg: Config, p: Parser, log: Log, body: Body, i: G.Info)
    requires Inv(cfg, p) && p.state == ChunkSizeStart && ChunksOk(cfg, body, i)
    ensures Goes(cfg, p, log, EncodeAll(body.chunks) + (body.zeros + body.ext + CRLF), AfterSize(p, 0),
                 log + Callbacks(body.chunks) + [Called(ChunkHeader)])
  {
    hide PerByte, SizeValue, SizeLine, MethodName, Callbacks, EncodeAll, ChunkOk, G.HeadersOk, G.HeadersText;
    ChunksRun(cfg, p, log, body.chunks);
    var q := if body.chunks == [] then p else p.(contentLength := 0);
    var l := log + Callbacks(body.chunks);
    SizeLineRun(cfg, q, l, body.zeros, body.ext);
    assert AfterSize(q, 0) == AfterSize(p, 0);
    Then(cfg, Going(p, log), EncodeAll(body.chunks), Going(q, l), body.zeros + body.ext + CRLF,
         Going(AfterSize(q, 0), l + [Called(ChunkHeader)]));
  }

  // The head, with the flags that the trailer may have changed.
  function Trailed(h: Head, body: Body): Head {
    if body.Bytes? then h
    else
      h.(flags := G.HeadersMean(G.Info(h.flags.(trailing := true), h.usesTe, 0), body.trailer).flags,
         usesTe := G.HeadersMean(G.Info(h.flags.(trailing := true), h.usesTe, 0), body.trailer).usesTe)
  }

  lemma ChunkedRead(cfg: Config, p: Parser, log: Log, body: Body, h: Head) returns (q: Parser)
    requires Inv(cfg, p) && p.state == ChunkSizeStart && ChunksOk(cfg, body, TrailerInfo(p)) && p.kind != Both
    requires h == Head(p.kind, h.flags, p.usesTe, h.contentLength, p.major, p.minor, p.status, h.verb, h.upgrade)
    requires h.flags == p.flags
    ensures PerByte(cfg, Going(p, log), BodyText(body))
         == Finished(q, log + BodyEvents(body) + [Called(MessageComplete)], |BodyText(body)|)
    ensures q.state == NextStart(Trailed(h, body), p.flags.skipBody) && q.nread == |G.HeadersText(body.trailer)| + |G.Eol(body.end)|
    ensures q.upgrade == p.upgrade && q.kind == p.kind && q.status == p.status && q.verb == p.verb
  {
    hide PerByte, MethodName, Callbacks, EncodeAll, ChunkOk, G.HeadersOk, G.HeadersText, G.HeadersEvents, G.HeadersMean, Goes,
         Emit, NextStart, SizeValue, SizeLine, Headed, G.Eol, BodyText, BodyEvents;
    var a, b, e := EncodeAll(body.chunks) + (body.zeros + body.ext + CRLF), G.HeadersText(body.trailer), G.Eol(body.end);
    var l := log + Callbacks(body.chunks) + [Called(ChunkHeader)];
    ChunkedFlag(cfg, p);
    ChunksPart(cfg, p, log, body, TrailerInfo(p));
    var q0 := AfterSize(p, 0);
    assert InfoOf(q0) == TrailerInfo(p) && q0.nread == 0 && q0.state == HeaderFieldStart;
    EolStarts(body.end, "");
    assert e + "" == e;
    var q1 := HeadersRead(cfg, q0, l, body.trailer, e);
    HeadedKeeps(q0, q1, |b|, G.HeadersMean(TrailerInfo(p), body.trailer));
    HeadedRest(q0, q1, |b|, G.HeadersMean(TrailerInfo(p), body.trailer));
    MeanKeeps(TrailerInfo(p), body.trailer);
    var l1 := l + G.HeadersEvents(body.trailer);
    EolLength(body.end);
    TrailerEnd(cfg, q1, l1, body.end, Trailed(h, body));
    q := Counts(q1, |e|).(state := NextStart(Trailed(h, body), q1.flags.skipBody));
    GoesConcat(cfg, p, log, a, q0, l, b + e);
    assert a + (b + e) == BodyText(body) by { ChunkText(body); }
    ChunkEvents(log, body);
  }

  lemma ChunkText(body: Body)
    requires body.ChunkList?
    ensures BodyText(body)
         == EncodeAll(body.chunks) + (body.zeros + body.ext + CRLF) + (G.HeadersText(body.trailer) + G.Eol(body.end))
  {
    hide EncodeAll, G.HeadersText, G.Eol;
    ConcatAssoc(EncodeAll(body.chunks), body.zeros + body.ext + CRLF, G.HeadersText(body.trailer) + G.Eol(body.end));
  }

  lemma ChunkEvents(log: Log, body: Body)
    requires body.ChunkList?
    ensures log + Callbacks(body.chunks) + [Called(ChunkHeader)] + G.HeadersEvents(body.trailer)
            + [Called(ChunkComplete), Called(MessageComplete)]
         == log + BodyEvents(body) + [Called(MessageComplete)]
  {
    hide Callbacks, G.HeadersEvents;
  }

  lemma ChunkedFlag(cfg: Config, p: Parser)
    requires Inv(cfg, p) && p.state == ChunkSizeStart
    ensures p.flags.chunked && p.nread == 0
  {
    hide MethodName;
  }

  lemma EolLength(bare: bool)
    ensures |G.Eol(bare)| <= 2
  {
  }

  lemma HeadedRest(p: Parser, q: Parser, n: nat, i: G.Info)
    requires Headed(p, q, n, i)
    ensures q.upgrade == p.upgrade && q.status == p.status && q.verb == p.verb && q.major == p.major && q.minor == p.minor
    ensures q.usesTe == i.usesTe
  {
  }

  // ---- Whole messages.

  function MessageText(m: Message): string
    requires G.VersionOk(m.line.version)
  {
    HeadText(m) + BodyText(m.body)
  }

  // The body has the framing that the head announces.
  ghost predicate BodyFits(cfg: Config, h: Head, body: Body) {
    match FrameOf(cfg, h)
    case Chunks => ChunksOk(cfg, body, G.Info(h.flags.(trailing := true), h.usesTe, 0))
    case Sized(n) => body.Bytes? && |body.bytes| == n
    case UntilClose => body.Bytes?
    case _ => body == Bytes("")
  }

  // What the callbacks are given. A body that ends with the stream is not complete before.
  function MessageEvents(cfg: Config, h: Head, m: Message): Log {
    HeadEvents(m) + [Called(HeadersComplete)] + BodyEvents(m.body)
    + if FrameOf(cfg, h) == UntilClose then [] else [Called(MessageComplete)]
  }

  // What is known of the parser behind a message.
  predicate Followed(p: Parser, q: Parser, cfg: Config, h: Head, m: Message) {
    && q.kind == h.kind && q.status == h.status && q.verb == h.verb && q.upgrade == Upgrades(cfg, h)
    && q.state == (if FrameOf(cfg, h) == UntilClose then BodyIdentityEof else NextStart(Trailed(h, m.body), Skips(cfg, h)))
    && q.nread == if m.body.ChunkList? then |G.HeadersText(m.body.trailer)| + |G.Eol(m.body.end)| else 0
  }

  function Behind(cfg: Config, h: Head, q: Parser, l: Log, n: nat): Run {
    match FrameOf(cfg, h)
    case Refused(e) => Failed(e)
    case Leaves => Exited(q, l, n)
    case UntilClose => Going(q, l)
    case _ => Finished(q, l, n)
  }

  lemma AfterFields(cfg: Config, p: Parser, h: Head)
    requires h == MeantBy(p) && !p.flags.skipBody
    ensures
      var q := AfterHead(cfg, p, h);
      && q.kind == h.kind == p.kind && q.status == h.status && q.verb == h.verb && q.upgrade == Upgrades(cfg, h) && q.nread == 0
      && q.major == h.major && q.minor == h.minor && q.usesTe == h.usesTe && q.contentLength == h.contentLength
      && q.flags.skipBody == Skips(cfg, h)
    ensures !Skips(cfg, h) ==> AfterHead(cfg, p, h).flags == h.flags
  {
    hide NextStart, FrameOf, Upgrades, Skips;
  }

  lemma AfterState(cfg: Config, p: Parser, h: Head)
    ensures AfterHead(cfg, p, h).state
         == match FrameOf(cfg, h)
            case Chunks => ChunkSizeStart
            case Sized(n) => BodyIdentity
            case UntilClose => BodyIdentityEof
            case _ => NextStart(h, Skips(cfg, h))
  {
    hide NextStart, FrameOf, Upgrades, Skips;
  }

  lemma FrameFacts(cfg: Config, h: Head)
    ensures match FrameOf(cfg, h)
            case Chunks => !Skips(cfg, h)
            case Sized(n) => !Skips(cfg, h) && n == h.contentLength > 0 && !h.flags.chunked
            case UntilClose => !Skips(cfg, h)
            case Empty => !Upgrades(cfg, h)
            case _ => true
  {
    hide Conflict;
  }

  lemma AfterFacts(cfg: Config, p: Parser, h: Head)
    requires h == MeantBy(p) && !p.flags.skipBody
    ensures
      var q := AfterHead(cfg, p, h);
      && q.kind == h.kind == p.kind && q.status == h.status && q.verb == h.verb && q.upgrade == Upgrades(cfg, h) && q.nread == 0
      && q.major == h.major && q.minor == h.minor && q.usesTe == h.usesTe && q.contentLength == h.contentLength
      && q.flags.skipBody == Skips(cfg, h)
    ensures !Skips(cfg, h) ==> AfterHead(cfg, p, h).flags == h.flags
    ensures match FrameOf(cfg, h)
            case Chunks => AfterHead(cfg, p, h).state == ChunkSizeStart && !Skips(cfg, h)
            case Sized(n) =>
              AfterHead(cfg, p, h).state == BodyIdentity && !Skips(cfg, h) && n == h.contentLength > 0 && !h.flags.chunked
            case UntilClose => AfterHead(cfg, p, h).state == BodyIdentityEof && !Skips(cfg, h)
            case Refused(_) => true
            case _ => AfterHead(cfg, p, h).state == NextStart(h, Skips(cfg, h)) && (FrameOf(cfg, h).Empty? ==> !Upgrades(cfg, h))
  {
    hide *;
    AfterFields(cfg, p, h);
    AfterState(cfg, p, h);
    FrameFacts(cfg, h);
  }

  lemma MeantAgain(cfg: Config, p: Parser, h: Head)
    requires h == MeantBy(p) && !Skips(cfg, h)
    ensures MeantBy(AfterHead(cfg, p, h)) == h
  {
    hide FrameOf, NextStart, Upgrades;
  }

  // Behind the head the parser is in a good state.
  lemma AfterInv(cfg: Config, p: Parser, log: Log, text: string, q: Parser, l: Log)
    requires Inv(cfg, p) && Open(p.state) == None && PerByte(cfg, Going(p, log), text) == Going(q, l)
    ensures Inv(cfg, q)
  {
    hide PerByte, Inv;
    PerByteGood(cfg, Going(p, log), text);
  }

  lemma StartIsClosed(p: Parser, line: G.Line)
    requires CanStart(p, line)
    ensures Open(p.state) == None
  {
  }

  // The body, once the head is read.
  lemma BodyRead(cfg: Config, p: Parser, log: Log, m: Message, h: Head, q: Parser, l: Log) returns (q': Parser)
    requires h == MeantBy(p) && !p.flags.skipBody && p.kind != Both && BodyFits(cfg, h, m.body)
    requires q == AfterHead(cfg, p, h) && Inv(cfg, q) && l != [] && l[|l| - 1].Called?
    requires FrameOf(cfg, h) == Chunks || FrameOf(cfg, h).Sized? || FrameOf(cfg, h) == UntilClose
    ensures
      PerByte(cfg, Going(q, l), BodyText(m.body))
      == Behind(cfg, h, q', l + BodyEvents(m.body) + (if FrameOf(cfg, h) == UntilClose then [] else [Called(MessageComplete)]),
                |BodyText(m.body)|)
    ensures Followed(p, q', cfg, h, m)
  {
    hide PerByte, Inv, MeantBy, NextStart, FrameOf, AfterHead, Upgrades, Skips, G.HeadersText, G.HeadersMean, G.HeadersOk,
         Callbacks, EncodeAll, ChunkOk, SizeLine, SizeValue;
    AfterFacts(cfg, p, h);
    MeantAgain(cfg, p, h);
    match FrameOf(cfg, h) {
      case Chunks =>
        q' := ChunkedRead(cfg, q, l, m.body, h.(flags := q.flags));
      case Sized(n) =>
        SizedRead(cfg, q, l, m.body.bytes, h);
        q' := q.(contentLength := 0, state := NextStart(h, q.flags.skipBody));
        assert l + [Data(HttpStep.Body, m.body.bytes)] + [Called(MessageComplete)]
            == l + [Data(HttpStep.Body, m.body.bytes), Called(MessageComplete)];
      case UntilClose =>
        EofRead(cfg, q, l, m.body.bytes);
        q' := q;
        assert l + BodyEvents(m.body) + [] == l + BodyEvents(m.body);
    }
  }

  lemma EofRead(cfg: Config, p: Parser, log: Log, bytes: string)
    requires p.state == BodyIdentityEof && log != [] && log[|log| - 1].Called?
    ensures PerByte(cfg, Going(p, log), bytes) == Going(p, log + BodyEvents(Bytes(bytes)))
  {
    if bytes == "" {
      assert log + [] == log;
    } else {
      hide PerByte;
      ManyEofBytes(cfg, p, log, bytes);
    }
  }

  // A message without a body, or one that is refused or left at its head.
  lemma HeadOnly(cfg: Config, p: Parser, log: Log, m: Message, p1: Parser)
    requires HeadOk(cfg, m) && BodyFits(cfg, MeantHead(m, p.status, p.verb), m.body)
    requires MeantBy(p1) == MeantHead(m, p.status, p.verb) && !p1.flags.skipBody
    requires PerByte(cfg, Going(p, log), HeadText(m)) == Ended(cfg, p1, log + HeadEvents(m), |HeadText(m)|)
    requires var f := FrameOf(cfg, MeantBy(p1)); !(f == Chunks || f.Sized? || f == UntilClose)
    ensures
      var h := MeantHead(m, p.status, p.verb);
      var q := AfterHead(cfg, p1, h);
      && PerByte(cfg, Going(p, log), MessageText(m))
         == Behind(cfg, h, q, log + MessageEvents(cfg, h, m), |MessageText(m)|)
      && (!FrameOf(cfg, h).Refused? ==> Followed(p, q, cfg, h, m))
  {
    hide PerByte, MeantBy, MeantHead, NextStart, FrameOf, AfterHead, Upgrades, Skips, G.HeadersText, G.HeadersMean, HeadText,
         BodyText, BodyEvents, HeadEvents, ChunksOk, G.TargetOk, G.HeadersOk;
    var h, l := MeantHead(m, p.status, p.verb), log + HeadEvents(m);
    AfterFacts(cfg, p1, h);
    NoBodyText();
    assert MessageText(m) == HeadText(m);
    assert l + [Called(HeadersComplete), Called(MessageComplete)] == log + MessageEvents(cfg, h, m);
    NotTrailed(h);
  }

  // A message with a body.
  lemma HeadAndBody(cfg: Config, p: Parser, log: Log, m: Message, p1: Parser) returns (q: Parser)
    requires HeadOk(cfg, m) && BodyFits(cfg, MeantHead(m, p.status, p.verb), m.body)
    requires Inv(cfg, p) && Open(p.state) == None && p1.kind != Both
    requires MeantBy(p1) == MeantHead(m, p.status, p.verb) && !p1.flags.skipBody
    requires PerByte(cfg, Going(p, log), HeadText(m)) == Ended(cfg, p1, log + HeadEvents(m), |HeadText(m)|)
    requires var f := FrameOf(cfg, MeantBy(p1)); f == Chunks || f.Sized? || f == UntilClose
    ensures
      var h := MeantHead(m, p.status, p.verb);
      && PerByte(cfg, Going(p, log), MessageText(m))
         == Behind(cfg, h, q, log + MessageEvents(cfg, h, m), |MessageText(m)|)
      && Followed(p, q, cfg, h, m)
  {
    hide PerByte, Inv, MeantBy, MeantHead, FrameOf, AfterHead, HeadText, BodyText, BodyEvents, HeadEvents, G.TargetOk,
         G.HeadersOk, BodyFits, Behind, Followed;
    var h, a, l := MeantHead(m, p.status, p.verb), HeadText(m), log + HeadEvents(m);
    var q1, l1 := AfterHead(cfg, p1, h), l + [Called(HeadersComplete)];
    AfterInv(cfg, p, log, a, q1, l1);
    q := BodyRead(cfg, p1, log, m, h, q1, l1);
    PerByteConcat(cfg, Going(p, log), a, BodyText(m.body));
    var last := if FrameOf(cfg, h) == UntilClose then [] else [Called(MessageComplete)];
    assert l1 + BodyEvents(m.body) + last == log + MessageEvents(cfg, h, m);
    BehindShift(cfg, h, q, log + MessageEvents(cfg, h, m), |BodyText(m.body)|, |a|);
    FollowedFrom(p, p1, q, cfg, h, m);
  }

  lemma BehindShift(cfg: Config, h: Head, q: Parser, l: Log, n: nat, k: nat)
    ensures Shift(Behind(cfg, h, q, l, n), k) == Behind(cfg, h, q, l, n + k)
  {
    hide FrameOf;
  }

  /**
    A message of the grammar, read from its first byte on: the callbacks are given its parts, in
    order, and then the parser waits for the next message, leaves, or refuses, as the head demands.
   */
  lemma MessageRead(cfg: Config, p: Parser, log: Log, m: Message) returns (q: Parser)
    requires Inv(cfg, p) && HeadOk(cfg, m) && CanStart(p, m.line) && p.nread + |HeadText(m)| <= cfg.maxHeader
    requires BodyFits(cfg, MeantHead(m, p.status, p.verb), m.body)
    ensures
      var h := MeantHead(m, p.status, p.verb);
      && PerByte(cfg, Going(p, log), MessageText(m))
         == Behind(cfg, h, q, log + MessageEvents(cfg, h, m), |MessageText(m)|)
      && (!FrameOf(cfg, h).Refused? ==> Followed(p, q, cfg, h, m))
  {
    hide *;
    var p1 := HeadRead(cfg, p, log, m);
    StartIsClosed(p, m.line);
    var frame := FrameOf(cfg, MeantHead(m, p.status, p.verb));
    if frame == Chunks || frame.Sized? || frame == UntilClose {
      q := HeadAndBody(cfg, p, log, m, p1);
    } else {
      HeadOnly(cfg, p, log, m, p1);
      q := AfterHead(cfg, p1, MeantHead(m, p.status, p.verb));
    }
  }

  lemma FollowedFrom(p: Parser, p1: Parser, q: Parser, cfg: Config, h: Head, m: Message)
    requires Followed(p1, q, cfg, h, m)
    ensures Followed(p, q, cfg, h, m)
  {
  }

  lemma NoBodyText()
    ensures BodyText(Bytes("")) == "" && BodyEvents(Bytes("")) == []
  {
  }

  lemma NotTrailed(h: Head)
    ensures Trailed(h, Bytes("")) == h
  {
  }

  // ---- Streams of messages.

  // What is left between two messages, and how many bytes of a trailer are already counted.
  datatype Between = Between(kind: Kind, status: nat, verb: Method, read: nat)

  predicate Waits(p: Parser, b: Between) {
    && p.kind == b.kind && p.status == b.status && p.verb == b.verb && p.nread == b.read
    && p.state == match b.kind case Request => StartReq case Response => StartRes case Both => StartReqOrRes
  }

  predicate Expected(kind: Kind, line: G.Line) { if line.RequestLine? then kind != Response else kind != Request }

  function Next1(h: Head, m: Message): Between {
    Between(h.kind, h.status, h.verb,
            if m.body.ChunkList? then |G.HeadersText(m.body.trailer)| + |G.Eol(m.body.end)| else 0)
  }

  // The message ends before the stream does, and without an upgrade.
  predicate Completes(cfg: Config, h: Head) {
    !Upgrades(cfg, h)
    && match FrameOf(cfg, h) case Empty => true case Sized(_) => true case Chunks => true case _ => false
  }

  // Messages one after the other: every one but the last leaves the connection open.
  ghost predicate StreamOk(cfg: Config, b: Between, ms: seq<Message>)
    decreases |ms|
  {
    ms == []
    || var m, h := ms[0], MeantHead(ms[0], b.status, b.verb);
       && Expected(b.kind, m.line) && HeadOk(cfg, m) && b.read + |HeadText(m)| <= cfg.maxHeader
       && BodyFits(cfg, h, m.body) && Completes(cfg, h)
       && (|ms| > 1 ==> Persists(Trailed(h, m.body), Skips(cfg, h)))
       && StreamOk(cfg, Next1(h, m), ms[1..])
  }

  function StreamText(ms: seq<Message>): string
    requires forall m <- ms :: G.VersionOk(m.line.version)
  {
    if ms == [] then "" else MessageText(ms[0]) + StreamText(ms[1..])
  }

  function StreamEvents(cfg: Config, b: Between, ms: seq<Message>): Log
    decreases |ms|
  {
    if ms == [] then []
    else
      var h := MeantHead(ms[0], b.status, b.verb);
      MessageEvents(cfg, h, ms[0]) + StreamEvents(cfg, Next1(h, ms[0]), ms[1..])
  }

  lemma {:induction false} StreamVersions(cfg: Config, b: Between, ms: seq<Message>)
    requires StreamOk(cfg, b, ms)
    ensures forall m <- ms :: G.VersionOk(m.line.version)
    decreases |ms|
  {
    hide MeantHead, HeadText, BodyFits, Completes, Trailed, Persists, Skips, Expected, G.HeadersOk, G.TargetOk;
    if ms != [] {
      var h := MeantHead(ms[0], b.status, b.verb);
      StreamVersions(cfg, Next1(h, ms[0]), ms[1..]);
      assert ms == [ms[0]] + ms[1..];
    }
  }

  lemma WaitsStarts(p: Parser, b: Between, line: G.Line)
    requires Waits(p, b) && Expected(b.kind, line)
    ensures CanStart(p, line)
  {
  }

  lemma FollowedWaits(cfg: Config, p: Parser, q: Parser, h: Head, m: Message)
    requires Followed(p, q, cfg, h, m) && h.kind != Both && Completes(cfg, h)
    requires Persists(Trailed(h, m.body), Skips(cfg, h))
    ensures Waits(q, Next1(h, m)) && !q.upgrade
  {
    hide Persists, G.HeadersMean, Upgrades, FrameOf;
  }

  lemma CompletesBehind(cfg: Config, p: Parser, q: Parser, l: Log, n: nat, h: Head, m: Message)
    requires Completes(cfg, h) && Followed(p, q, cfg, h, m)
    ensures Behind(cfg, h, q, l, n) == Going(q, l) && !FrameOf(cfg, h).Refused?
  {
    hide FrameOf, NextStart, Skips;
  }

  lemma NotRefused(cfg: Config, h: Head)
    requires Completes(cfg, h)
    ensures !FrameOf(cfg, h).Refused?
  {
    hide FrameOf, Upgrades;
  }

  lemma MeantKind(m: Message, status: nat, verb: Method)
    ensures MeantHead(m, status, verb).kind != Both
  {
  }

  lemma StreamFirst(cfg: Config, b: Between, ms: seq<Message>)
    requires StreamOk(cfg, b, ms) && ms != [] && forall m <- ms :: G.VersionOk(m.line.version)
    ensures
      var m, h := ms[0], MeantHead(ms[0], b.status, b.verb);
      && Expected(b.kind, m.line) && HeadOk(cfg, m) && b.read + |HeadText(m)| <= cfg.maxHeader
      && BodyFits(cfg, h, m.body) && Completes(cfg, h)
      && (|ms| > 1 ==> Persists(Trailed(h, m.body), Skips(cfg, h)))
      && StreamOk(cfg, Next1(h, m), ms[1..])
      && StreamText(ms) == MessageText(m) + StreamText(ms[1..])
      && StreamEvents(cfg, b, ms) == MessageEvents(cfg, h, m) + StreamEvents(cfg, Next1(h, m), ms[1..])
  {
    hide MessageText, MessageEvents, MeantHead, HeadText;
  }

  lemma OneMessage(cfg: Config, p: Parser, log: Log, b: Between, ms: seq<Message>)
    requires ms != [] && ms[1..] == [] && forall m <- ms :: G.VersionOk(m.line.version)
    ensures StreamText(ms) == MessageText(ms[0])
    ensures StreamEvents(cfg, b, ms) == MessageEvents(cfg, MeantHead(ms[0], b.status, b.verb), ms[0])
  {
    hide MessageText, MessageEvents;
    assert StreamText(ms[1..]) == "";
  }

  /** A stream of messages: the callbacks are given all of them, one after the other. */
  lemma {:induction false} StreamRead(cfg: Config, p: Parser, log: Log, b: Between, ms: seq<Message>) returns (q: Parser)
    requires Inv(cfg, p) && Waits(p, b) && StreamOk(cfg, b, ms) && forall m <- ms :: G.VersionOk(m.line.version)
    ensures Goes(cfg, p, log, StreamText(ms), q, log + StreamEvents(cfg, b, ms))
    ensures ms != [] ==> q.state == StartReq || q.state == StartRes || q.state == Dead
    decreases |ms|
  {
    hide PerByte, Inv, MessageText, MessageEvents, MeantHead, HeadText, HeadOk, BodyFits, FrameOf, Skips, Upgrades, Waits,
         Followed, Completes, StreamOk, StreamText, StreamEvents, G.VersionOk, CanStart, Expected;
    if ms == [] {
      q := p;
      NoMessages(cfg, p, log, b);
    } else {
      var m, h := ms[0], MeantHead(ms[0], b.status, b.verb);
      StreamFirst(cfg, b, ms);
      WaitsStarts(p, b, m.line);
      WaitsIs(p, b);
      var q1 := MessageRead(cfg, p, log, m);
      NotRefused(cfg, h);
      CompletesBehind(cfg, p, q1, log + MessageEvents(cfg, h, m), |MessageText(m)|, h, m);
      FollowedState(cfg, p, q1, h, m);
      if |ms| == 1 {
        OneMessage(cfg, p, log, b, ms);
        q := q1;
      } else {
        MeantKind(m, b.status, b.verb);
        FollowedWaits(cfg, p, q1, h, m);
        StartIsClosed(p, m.line);
        AfterInv(cfg, p, log, MessageText(m), q1, log + MessageEvents(cfg, h, m));
        q := StreamRead(cfg, q1, log + MessageEvents(cfg, h, m), Next1(h, m), ms[1..]);
        PerByteConcat(cfg, Going(p, log), MessageText(m), StreamText(ms[1..]));
        ConcatAssoc(log, MessageEvents(cfg, h, m), StreamEvents(cfg, Next1(h, m), ms[1..]));
      }
    }
  }

  lemma NoMessages(cfg: Config, p: Parser, log: Log, b: Between)
    ensures Goes(cfg, p, log, StreamText([]), p, log + StreamEvents(cfg, b, []))
  {
    assert log + [] == log;
  }

  lemma WaitsIs(p: Parser, b: Between)
    requires Waits(p, b)
    ensures p.status == b.status && p.verb == b.verb && p.nread == b.read
  {
  }

  lemma FollowedState(cfg: Config, p: Parser, q: Parser, h: Head, m: Message)
    requires Followed(p, q, cfg, h, m) && Completes(cfg, h)
    ensures q.state == StartReq || q.state == StartRes || q.state == Dead
  {
    hide FrameOf, Persists, G.HeadersMean, Upgrades;
  }

  /**
    A stream of messages, cut into buffers anywhere: every callback is made for every message, and
    with exactly its parts.
   */
  method ReceiveStream(cfg: Config, parser: HttpParser, pieces: seq<string>, ghost b: Between, ghost ms: seq<Message>)
    returns (consumed: nat)
    requires parser.errno == OK && parser.Valid(cfg) && Waits(parser.s, b)
    requires forall piece <- pieces :: piece != "" && |piece| + cfg.maxHeader < 0x1_0000_0000
    requires StreamOk(cfg, b, ms) && forall m <- ms :: G.VersionOk(m.line.version)
    requires Joined(pieces) == StreamText(ms)
    modifies parser
    ensures parser.errno == OK && consumed == |Joined(pieces)|
    ensures parser.log == old(parser.log) + StreamEvents(cfg, b, ms)
  {
    hide PerByte, Inv, StreamOk, StreamText, StreamEvents, G.VersionOk, Waits, Joined;
    ghost var log := parser.log;
    ghost var q := StreamRead(cfg, parser.s, log, b, ms);
    consumed := parser.Feed(cfg, pieces);
  }

  /** A field in front of the body with its length in decimal: the body is delivered whole, once. */
  lemma LengthDelivers(cfg: Config, p: Parser, log: Log, line: G.Line, name: string, body: string) returns (q: Parser)
    requires Inv(cfg, p) && G.LineOk(line) && CanStart(p, line) && body != "" && |body| <= G.MAX_LENGTH
    requires G.IsToken(name) && Fold(name) == CONTENT_LENGTH
    requires line.RequestLine? ==> line.verb != CONNECT
    requires line.StatusLine? ==> p.verb != CONNECT
    requires forall h: Head :: cfg.onHeadersComplete(h) == Continue
    ensures G.IsToken(name) && Decimal(|body|) != ""
    ensures
      var m := Message(line, [G.Header(name, " ", G.Length(Decimal(|body|), ""), false)], false, Bytes(body));
      p.nread + |HeadText(m)| <= cfg.maxHeader ==>
        && PerByte(cfg, Going(p, log), MessageText(m))
           == Going(q, log + LineEvents(line)
                       + [Data(FieldName, name), Data(FieldValue, Decimal(|body|)), Called(HeadersComplete),
                          Data(HttpStep.Body, body), Called(MessageComplete)])
  {
    hide G.TargetOk, Inv, CanStart, LineEvents, HeadText, MessageText, PerByte;
    var header := G.Header(name, " ", G.Length(Decimal(|body|), ""), false);
    var m := Message(line, [header], false, Bytes(body));
    DecimalRoundTrip(|body|);
    q := p;
    if p.nread + |HeadText(m)| <= cfg.maxHeader {
      LengthMeant(cfg, header, name, |body|);
      LengthHead(cfg, m, p.status, p.verb, |body|);
      q := MessageRead(cfg, p, log, m);
      LengthEvents(cfg, MeantHead(m, p.status, p.verb), m, header);
      var l := [Data(FieldName, name), Data(FieldValue, Decimal(|body|)), Called(HeadersComplete),
                Data(HttpStep.Body, body), Called(MessageComplete)];
      assert log + MessageEvents(cfg, MeantHead(m, p.status, p.verb), m) == log + LineEvents(line) + l;
    }
  }

  lemma LengthMeant(cfg: Config, h: G.Header, name: string, n: nat)
    requires h == G.Header(name, " ", G.Length(Decimal(n), ""), false) && G.IsToken(name) && Fold(name) == CONTENT_LENGTH
    requires n <= G.MAX_LENGTH && DecimalValue(Decimal(n)) == n
    ensures G.HeadersOk(cfg.lenient, G.NOTHING, [h])
    ensures G.HeadersMean(G.NOTHING, [h]) == G.Info(NO_FLAGS.(contentLength := true), false, n)
  {
    LengthHeader(cfg.lenient, h, n);
    assert [h][1..] == [];
    hide G.HeaderOk, G.HeaderMeans;
  }

  lemma LengthHeader(lenient: bool, h: G.Header, n: nat)
    requires h == G.Header(h.name, " ", G.Length(Decimal(n), ""), false) && G.IsToken(h.name) && Fold(h.name) == CONTENT_LENGTH
    requires n <= G.MAX_LENGTH && DecimalValue(Decimal(n)) == n
    ensures G.HeaderOk(lenient, h)
    ensures G.HeaderMeans(G.NOTHING, h) == G.Info(NO_FLAGS.(contentLength := true), false, n)
  {
    hide Decimal, DecimalValue, Fold, G.IsToken;
    assert G.Digits(Decimal(n));
    assert !(TRANSFER_ENCODING <= CONTENT_LENGTH);
  }

  lemma LengthHead(cfg: Config, m: Message, status: nat, verb: Method, n: nat)
    requires G.HeadersMean(G.NOTHING, m.headers) == G.Info(NO_FLAGS.(contentLength := true), false, n) && 0 < n <= G.MAX_LENGTH
    requires forall h: Head :: cfg.onHeadersComplete(h) == Continue
    requires (if m.line.RequestLine? then m.line.verb else verb) != CONNECT
    ensures
      var h := MeantHead(m, status, verb);
      FrameOf(cfg, h) == Sized(n) && !Upgrades(cfg, h)
  {
    hide G.HeadersMean, G.Number;
  }

  lemma LengthEvents(cfg: Config, h: Head, m: Message, header: G.Header)
    requires m.headers == [header] && header.value.Length? && header.value.spaces == "" && header.folds == []
    requires m.body.Bytes? && m.body.bytes != ""
    requires FrameOf(cfg, h).Sized? && !Upgrades(cfg, h)
    ensures MessageEvents(cfg, h, m)
         == LineEvents(m.line)
            + [Data(FieldName, header.name), Data(FieldValue, header.value.digits), Called(HeadersComplete),
               Data(HttpStep.Body, m.body.bytes), Called(MessageComplete)]
  {
    hide LineEvents;
    assert [header][1..] == [];
    assert G.HeadersEvents([header]) == G.HeaderEvents(header) + [];
    NoFoldsText();
    assert header.value.digits + "" + "" == header.value.digits;
  }
}
