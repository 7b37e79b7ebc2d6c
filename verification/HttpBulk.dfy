/**
  What whole runs of bytes do that `http_parser_execute` consumes in one go: body bytes, and the
  bytes of a header name or value, whose size is counted only after the run.
 */
module HttpBulk {
  import opened HttpChars
  import opened HttpStep
  import opened HttpTrace
  import opened HttpInvariant
  import opened Text

  lemma PerformCons(a: Act, acts: seq<Act>, marks: Marks, log: Log, data: string, pos: nat)
    requires pos < |data| && Within(marks, pos)
    ensures Perform([a] + acts, marks, log, data, pos)
         == var r := PerformOne(a, marks, log, data, pos); Perform(acts, r.0, r.1, data, pos)
  {
    hide PerformOne;
    assert ([a] + acts)[1..] == acts;
  }

  lemma PerformSingle(a: Act, marks: Marks, log: Log, data: string, pos: nat)
    requires pos < |data| && Within(marks, pos)
    ensures Perform([a], marks, log, data, pos) == PerformOne(a, marks, log, data, pos)
  {
    hide PerformOne;
    assert [a] == [a] + [];
    PerformCons(a, [], marks, log, data, pos);
  }

  // ---- Bodies.

  // One body byte in a buffer of its own.
  lemma MarkOneByte(log: Log, ch: char)
    ensures
      var r := Perform([Mark(Body)], map[], log, [ch], 0);
      CloseAll(r.0, r.1, [ch], 1) == Emit(log, Body, [ch])
  {
    hide Emit;
    PerformSingle(Mark(Body), map[], log, [ch], 0);
    assert [ch][0..1] == [ch];
    ClosePending(Some(Body), map[Body := 0], log, [ch], 1, Emit(log, Body, [ch]));
  }

  lemma LastBodyByte(log: Log, ch: char, n: Notice)
    ensures
      var r := Perform([Mark(Body), FlushThis(Body), Notify(n)], map[], log, [ch], 0);
      r == (map[], Emit(log, Body, [ch]) + [Called(n)])
  {
    hide Emit, PerformOne;
    var acts := [Mark(Body), FlushThis(Body), Notify(n)];
    assert acts == [Mark(Body)] + [FlushThis(Body), Notify(n)];
    assert acts[1..] == [FlushThis(Body)] + [Notify(n)];
    PerformCons(Mark(Body), [FlushThis(Body), Notify(n)], map[], log, [ch], 0);
    BodyMark(log, ch);
    PerformCons(FlushThis(Body), [Notify(n)], map[Body := 0], log, [ch], 0);
    PerformSingle(Notify(n), map[], Emit(log, Body, [ch]), [ch], 0);
    BodyNotify(Emit(log, Body, [ch]), ch, n);
  }

  lemma BodyMark(log: Log, ch: char)
    ensures PerformOne(Mark(Body), map[], log, [ch], 0) == (map[Body := 0], log)
    ensures PerformOne(FlushThis(Body), map[Body := 0], log, [ch], 0) == (map[], Emit(log, Body, [ch]))
  {
    hide Emit;
    assert [ch][0..1] == [ch];
    assert (map[Body := 0] - {Body}) == map[];
  }

  lemma BodyNotify(log: Log, ch: char, n: Notice)
    ensures PerformOne(Notify(n), map[], log, [ch], 0) == (map[], log + [Called(n)])
  {
  }

  // The end of a body of known length: the bytes are delivered, then the message is complete.
  function BodyComplete(p: Parser, log: Log, used: nat): Run
    requires p.state == BodyIdentity
  {
    var done := log + [Called(MessageComplete)];
    match EndOfMessage(p.(contentLength := 0, state := MessageDone))
    case Next(q, _) => Going(q, done)
    case Exit(q, _) => Exited(q, done, used)
    case Fail(e) => Failed(e)
    case Broken => AssertionFailure
  }

  // `n` body bytes, all of them inside the body.
  function BodyRun(p: Parser, log: Log, bytes: string): Run
    requires p.state == ChunkData || p.state == BodyIdentity
    requires |bytes| <= p.contentLength
  {
    var l := Emit(log, Body, bytes);
    if |bytes| < p.contentLength then Going(p.(contentLength := p.contentLength - |bytes|), l)
    else if p.state == ChunkData then Going(p.(contentLength := 0, state := ChunkDataAlmostDone), l)
    else BodyComplete(p, l, |bytes|)
  }

  lemma OneBodyByte(cfg: Config, p: Parser, log: Log, ch: char, before: nat)
    requires Inv(cfg, p) && (p.state == ChunkData || p.state == BodyIdentity)
    ensures OneByte(cfg, p, log, ch, before) == Shift(BodyRun(p, log, [ch]), before)
  {
    hide Perform, CloseAll, Emit;
    MarkOneByte(log, ch);
    var acts := [Mark(Body), FlushThis(Body), Notify(MessageComplete)];
    assert [Mark(Body), FlushThis(Body)] + [Notify(MessageComplete)] == acts;
    LastBodyByte(log, ch, MessageComplete);
    var l := Emit(log, Body, [ch]) + [Called(MessageComplete)];
    ClosePending(None, map[], l, [ch], 1, l);
  }

  /** Any number of body bytes, one call each, is one callback with all of them. */
  lemma {:induction false} ManyBodyBytes(cfg: Config, p: Parser, log: Log, bytes: string)
    requires Inv(cfg, p) && (p.state == ChunkData || p.state == BodyIdentity)
    requires 0 < |bytes| <= p.contentLength
    ensures PerByte(cfg, Going(p, log), bytes) == BodyRun(p, log, bytes)
  {
    hide OneByte, Emit, EndOfMessage;
    var n := |bytes| - 1;
    if n == 0 {
      OneBodyByte(cfg, p, log, bytes[0], 0);
      assert bytes == [bytes[0]] && bytes[..0] == "";
    } else {
      ManyBodyBytes(cfg, p, log, bytes[..n]);
      var q := p.(contentLength := p.contentLength - n);
      assert Inv(cfg, q);
      OneBodyByte(cfg, q, Emit(log, Body, bytes[..n]), bytes[n], n);
      EmitTwice(log, Body, bytes[..n], [bytes[n]]);
      assert bytes[..n] + [bytes[n]] == bytes;
    }
  }

  lemma OneEofByte(cfg: Config, p: Parser, log: Log, ch: char, before: nat)
    requires p.state == BodyIdentityEof
    ensures OneByte(cfg, p, log, ch, before) == Going(p, Emit(log, Body, [ch]))
  {
    hide Perform, CloseAll, Emit;
    MarkOneByte(log, ch);
  }

  lemma {:induction false} ManyEofBytes(cfg: Config, p: Parser, log: Log, bytes: string)
    requires p.state == BodyIdentityEof && bytes != ""
    ensures PerByte(cfg, Going(p, log), bytes) == Going(p, Emit(log, Body, bytes))
  {
    hide OneByte, Emit;
    var n := |bytes| - 1;
    if n == 0 {
      OneEofByte(cfg, p, log, bytes[0], 0);
      assert bytes == [bytes[0]] && bytes[..0] == "";
    } else {
      ManyEofBytes(cfg, p, log, bytes[..n]);
      OneEofByte(cfg, p, Emit(log, Body, bytes[..n]), bytes[n], n);
      EmitTwice(log, Body, bytes[..n], [bytes[n]]);
      assert bytes[..n] + [bytes[n]] == bytes;
    }
  }

  // ---- Agreement of the parser after a run of bytes with one call per byte.

  // The failure `e` of one call per byte and the error `errno` of the parser: the header size
  // limit may be noticed late, after another error.
  predicate SameError(errno: Errno, e: Errno) {
    errno != OK && (e != HEADER_OVERFLOW ==> errno == e)
  }

  // The bytes of `data` up to `end` fail, one call each.
  ghost predicate FailsBy(cfg: Config, r: Run, data: string, end: nat, errno: Errno) {
    && end <= |data|
    && PerByte(cfg, r, data[..end]).Failed?
    && SameError(errno, PerByte(cfg, r, data[..end]).errno)
  }

  // The bytes from `start` to `end`, one call each, agree with `s`, `w` and `errno`.
  ghost predicate Consumed(cfg: Config, p0: Parser, w0: Log, data: string, start: nat, end: nat,
                           s: Parser, errno: Errno, w: Log)
    requires start <= end < |data|
  {
    && (errno != OK ==> FailsBy(cfg, Going(p0, w0), data[start..], end + 1 - start, errno))
    && (errno == OK ==> PerByte(cfg, Going(p0, w0), data[start..][..end + 1 - start]) == Going(s, w))
  }

  // ---- Header names and values.

  function ScanField(s: State): Field
    requires s == HeaderField || s == HeaderValue
  {
    if s == HeaderField then FieldName else FieldValue
  }

  // The bytes of a header name or value, one call each, lead from `p` to `q`, unless the header
  // has become too long in between. `q` has not counted them.
  ghost predicate Tracks(cfg: Config, p: Parser, log: Log, piece: string, q: Parser)
    requires p.state == HeaderField || p.state == HeaderValue
  {
    PerByte(cfg, Going(p, log), piece)
    == if p.nread + |piece| <= cfg.maxHeader
       then Going(q.(nread := p.nread + |piece|), Emit(log, ScanField(p.state), piece))
       else Failed(HEADER_OVERFLOW)
  }

  lemma TracksNothing(cfg: Config, p: Parser, log: Log)
    requires p.state == HeaderField || p.state == HeaderValue
    requires RunInv(cfg, Going(p, log))
    ensures Tracks(cfg, p, log, "", p)
  {
    EmitNothing(log, ScanField(p.state));
  }

  // Past the limit it no longer matters what the bytes are.
  lemma TracksOverflow(cfg: Config, p: Parser, log: Log, piece: string, q: Parser, ch: char, q': Parser)
    requires p.state == HeaderField || p.state == HeaderValue
    requires q.state == p.state && Tracks(cfg, p, log, piece, q)
    requires p.nread + |piece| + 1 > cfg.maxHeader
    ensures Tracks(cfg, p, log, piece + [ch], q')
  {
    hide Emit, Switch;
    assert (piece + [ch])[..|piece|] == piece;
  }

  // One byte that stays in the header name or value.
  lemma TracksByte(cfg: Config, p: Parser, log: Log, piece: string, q: Parser, ch: char, q': Parser)
    requires p.state == HeaderField || p.state == HeaderValue
    requires q.state == p.state == q'.state && Tracks(cfg, p, log, piece, q)
    requires p.nread + |piece| + 1 <= cfg.maxHeader
    requires var q1 := q.(nread := p.nread + |piece| + 1);
             Switch(cfg, q1, ch) == Next(q'.(nread := q1.nread), [])
    ensures Tracks(cfg, p, log, piece + [ch], q')
  {
    hide Emit, OneByte;
    assert (piece + [ch])[..|piece|] == piece;
    var k := ScanField(p.state);
    OneScanByte(cfg, q.(nread := p.nread + |piece|), q'.(nread := p.nread + |piece| + 1),
                Emit(log, k, piece), ch, |piece|);
    EmitTwice(log, k, piece, [ch]);
  }

  lemma OneScanByte(cfg: Config, q: Parser, q': Parser, log: Log, ch: char, before: nat)
    requires q.state == HeaderField || q.state == HeaderValue
    requires q.nread + 1 <= cfg.maxHeader && Switch(cfg, q.(nread := q.nread + 1), ch) == Next(q', [])
    ensures OneByte(cfg, q, log, ch, before) == Going(q', Emit(log, ScanField(q.state), [ch]))
  {
    hide Emit, Switch, CloseAll;
    var k := ScanField(q.state);
    assert [ch][0..1] == [ch];
    ClosePending(Some(k), map[k := 0], log, [ch], 1, Emit(log, k, [ch]));
  }

  lemma TracksSame(cfg: Config, p: Parser, log: Log, piece: string, q: Parser, q': Parser)
    requires p.state == HeaderField || p.state == HeaderValue
    requires Tracks(cfg, p, log, piece, q) && q.(nread := 0) == q'.(nread := 0)
    ensures Tracks(cfg, p, log, piece, q')
  {
    hide Emit, PerByte;
    assert q.(nread := p.nread + |piece|) == q'.(nread := p.nread + |piece|);
  }

  lemma TracksName(cfg: Config, p: Parser, log: Log, piece: string, q: Parser, ch: char, m: Matcher)
    requires p.state == q.state == HeaderField && Tracks(cfg, p, log, piece, q)
    requires Token(ch) != NUL && FieldMatch(MatcherOf(q), ch, Token(ch)) == Good(m)
    ensures Tracks(cfg, p, log, piece + [ch], With(q, m))
  {
    hide FieldMatch, Token, Tracks;
    if p.nread + |piece| + 1 > cfg.maxHeader {
      TracksOverflow(cfg, p, log, piece, q, ch, With(q, m));
    } else {
      TracksByte(cfg, p, log, piece, q, ch, With(q, m));
    }
  }

  lemma TracksValue(cfg: Config, p: Parser, log: Log, piece: string, q: Parser, ch: char, m: Matcher)
    requires p.state == q.state == HeaderValue && Tracks(cfg, p, log, piece, q)
    requires ch != CR && ch != LF && (cfg.lenient || IsHeaderChar(ch))
    requires ValueMatch(MatcherOf(q), ch) == Good(m)
    ensures Tracks(cfg, p, log, piece + [ch], With(q, m))
  {
    hide ValueMatch, IsHeaderChar, Tracks;
    if p.nread + |piece| + 1 > cfg.maxHeader {
      TracksOverflow(cfg, p, log, piece, q, ch, With(q, m));
    } else {
      TracksByte(cfg, p, log, piece, q, ch, With(q, m));
    }
  }

  lemma GeneralByte(q: Parser, ch: char)
    requires q.hs == HGeneral
    ensures FieldMatch(MatcherOf(q), ch, Token(ch)) == Good(MatcherOf(q))
    ensures ValueMatch(MatcherOf(q), ch) == Good(MatcherOf(q))
    ensures With(q, MatcherOf(q)) == q
  {
  }

  predicate Scanning(cfg: Config, p: Parser, q: Parser) {
    p.state == q.state && (q.state == HeaderField || q.state == HeaderValue)
    && q.nread == p.nread + 1 && Inv(cfg, q)
  }

  lemma ScanStarts(cfg: Config, p: Parser, log: Log)
    requires p.state == HeaderField || p.state == HeaderValue
    requires RunInv(cfg, Going(p, log)) && p.nread + 1 <= cfg.maxHeader
    ensures Scanning(cfg, p, p.(nread := p.nread + 1))
    ensures Tracks(cfg, p, log, "", p.(nread := p.nread + 1))
  {
    hide Tracks, MethodName;
    TracksNothing(cfg, p, log);
    TracksSame(cfg, p, log, "", p, p.(nread := p.nread + 1));
  }

  lemma ScanInv(cfg: Config, p: Parser, q: Parser)
    requires Scanning(cfg, p, q)
    ensures MatcherOk(MatcherOf(q))
    ensures q.state == HeaderField ==> FieldMatching(q.hs, q.index)
    ensures q.state == HeaderValue ==> ValueMatching(q.hs, q.index)
  {
  }

  // One byte of a header name inside the scan.
  lemma ScanName(cfg: Config, p: Parser, w: Log, data: string, start: nat, at: nat, q: Parser)
    requires start <= at < |data| && Scanning(cfg, p, q) && q.state == HeaderField
    requires Tracks(cfg, p, w, data[start..][..at - start], q) && Token(data[at]) != NUL
    ensures
      var r := FieldMatch(MatcherOf(q), data[at], Token(data[at]));
      && r.Good?
      && Scanning(cfg, p, With(q, r.m))
      && Tracks(cfg, p, w, data[start..][..at + 1 - start], With(q, r.m))
  {
    hide FieldMatch, Token, Tracks, FieldMatching, MethodName;
    var tail := data[start..];
    ScanInv(cfg, p, q);
    FieldMatchFits(MatcherOf(q), data[at], Token(data[at]));
    var m := FieldMatch(MatcherOf(q), data[at], Token(data[at])).m;
    TracksName(cfg, p, w, tail[..at - start], q, data[at], m);
    assert tail[..at - start] + [data[at]] == tail[..at + 1 - start];
  }

  lemma ScanValue(cfg: Config, p: Parser, w: Log, data: string, start: nat, at: nat, q: Parser)
    requires start <= at < |data| && Scanning(cfg, p, q) && q.state == HeaderValue
    requires Tracks(cfg, p, w, data[start..][..at - start], q)
    requires data[at] != CR && data[at] != LF && (cfg.lenient || IsHeaderChar(data[at]))
    ensures
      var r := ValueMatch(MatcherOf(q), data[at]);
      && !r.Impossible? && (r.Bad? ==> r.errno != OK)
      && (r.Good? ==> Scanning(cfg, p, With(q, r.m))
                      && Tracks(cfg, p, w, data[start..][..at + 1 - start], With(q, r.m)))
  {
    hide ValueMatch, IsHeaderChar, Tracks, ValueMatching, MethodName;
    var tail := data[start..];
    ScanInv(cfg, p, q);
    ValueMatchFits(MatcherOf(q), data[at]);
    var r := ValueMatch(MatcherOf(q), data[at]);
    if r.Good? {
      TracksValue(cfg, p, w, tail[..at - start], q, data[at], r.m);
      assert tail[..at - start] + [data[at]] == tail[..at + 1 - start];
    }
  }

  lemma ScanCounts(cfg: Config, p: Parser, q: Parser)
    requires Scanning(cfg, p, q)
    ensures q.nread == p.nread + 1 <= cfg.maxHeader && q.state == p.state
  {
  }

  // The scan reaches the end of the buffer.
  lemma ScanEnds(cfg: Config, p: Parser, w: Log, q: Parser, marks: Marks, log: Log,
                 data: string, start: nat, errno: Errno) returns (whole: Log)
    requires start < |data| && Scanning(cfg, p, q)
    requires Tracks(cfg, p, w, data[start..], q)
    requires Pending(Some(ScanField(p.state)), marks, log, data, start, w)
    requires errno == if p.nread + |data| - start > cfg.maxHeader then HEADER_OVERFLOW else OK
    ensures Consumed(cfg, p, w, data, start, |data| - 1, q.(nread := p.nread + |data| - start), errno, whole)
    ensures errno == OK ==> Pending(Open(q.state), marks, log, data, |data|, whole)
  {
    hide Emit, Inv, PerByte;
    whole := Emit(w, ScanField(p.state), data[start..]);
    PendingMore(Some(ScanField(p.state)), marks, log, data, start, |data|, w);
    assert data[start..] == data[start..|data|] == data[start..][..|data| - start];
  }

  // The scan has passed the limit before the byte after `n` bytes.
  lemma ScanTooLong(cfg: Config, p: Parser, w: Log, q: Parser, data: string, start: nat, n: nat,
                    s: Parser, errno: Errno, whole: Log)
    requires start + n < |data| && Scanning(cfg, p, q)
    requires Tracks(cfg, p, w, data[start..][..n], q) && p.nread + n + 1 > cfg.maxHeader
    requires errno != OK
    ensures Consumed(cfg, p, w, data, start, start + n, s, errno, whole)
  {
    hide Emit, Inv, PerByte;
    var tail := data[start..];
    TracksOverflow(cfg, p, w, tail[..n], q, tail[n], q);
    assert tail[..n] + [tail[n]] == tail[..n + 1];
  }

  // The scan, cut before the byte at `start + n`, when the limit has not been passed.
  lemma ScanRun(cfg: Config, p: Parser, w: Log, q: Parser, marks: Marks, log: Log,
                data: string, start: nat, n: nat)
    requires start + n < |data| && p.nread + n + 1 <= cfg.maxHeader
    requires RunInv(cfg, Going(p, w)) && Scanning(cfg, p, q)
    requires Pending(Some(ScanField(p.state)), marks, log, data, start, w)
    requires Tracks(cfg, p, w, data[start..][..n], q)
    ensures
      var run := PerByte(cfg, Going(p, w), data[start..][..n]);
      && run.Going? && run.p == q.(nread := p.nread + n) && RunInv(cfg, run)
      && Pending(Some(ScanField(p.state)), marks, log, data, start + n, run.log)
  {
    hide Emit, PerByte, MethodName, FieldMatching, ValueMatching;
    var k := ScanField(p.state);
    var whole := Emit(w, k, data[start..][..n]);
    assert data[start..][..n] == data[start..start + n];
    PendingMore(Some(k), marks, log, data, start, start + n, w);
    PendingEnds(Some(k), marks, log, data, start + n, whole);
  }

  // The byte at which the scan stops, when the limit has not been passed: `q` is what the scan has
  // led to and `n` the number of bytes scanned, from `start` to `start + n`.
  lemma ScanStops(cfg: Config, p: Parser, w: Log, q: Parser, marks: Marks, log: Log,
                  data: string, start: nat, n: nat)
    requires start + n < |data| && p.nread + n + 1 <= cfg.maxHeader
    requires RunInv(cfg, Going(p, w)) && Scanning(cfg, p, q)
    requires Pending(Some(ScanField(p.state)), marks, log, data, start, w)
    requires Tracks(cfg, p, w, data[start..][..n], q)
    ensures
      var o := Switch(cfg, q.(nread := p.nread + n + 1), data[start + n]);
      var run := PerByte(cfg, Going(p, w), data[start..][..n + 1]);
      && Within(marks, start + n)
      && !o.Broken?
      && (o.Fail? ==> run == Failed(o.errno))
      && (o.Next? ==>
           var r := Perform(o.acts, marks, log, data, start + n);
           && run.Going? && run.p == o.p
           && Pending(Left(o.acts, Some(ScanField(p.state))), r.0, r.1, data, start + n + 1, run.log))
  {
    hide Emit, Switch, PerByte, OneByte, CloseAll, Perform, Left, Inv, Tracks, RunInv, Pending;
    ScanRun(cfg, p, w, q, marks, log, data, start, n);
    var run := PerByte(cfg, Going(p, w), data[start..][..n]);
    ByteInBuffer(cfg, run.p, marks, log, data, start + n, run.log);
    OneByteShift(cfg, run.p, run.log, data[start + n], n, start);
    PerByteNext(cfg, Going(p, w), data[start..], n);
    assert Counted(run.p) == q.(nread := p.nread + n + 1);
  }

  // The byte that ends a header name.
  lemma NameStops(cfg: Config, p: Parser, w: Log, q: Parser, marks: Marks, log: Log,
                  data: string, start: nat, n: nat, s: Parser) returns (whole: Log)
    requires p.state == HeaderField && start + n < |data| && p.nread + n + 1 <= cfg.maxHeader
    requires RunInv(cfg, Going(p, w)) && Scanning(cfg, p, q)
    requires Pending(Some(FieldName), marks, log, data, start, w)
    requires Tracks(cfg, p, w, data[start..][..n], q) && Token(data[start + n]) == NUL
    ensures Within(marks, start + n)
    ensures
      var q' := q.(nread := p.nread + n + 1, state := HeaderValueDiscardWs);
      if data[start + n] == ':' then
        && Consumed(cfg, p, w, data, start, start + n, q', OK, whole)
        && Pending(None, marks - {FieldName}, FlushMark(marks, log, FieldName, data, start + n),
                   data, start + n + 1, whole)
      else Consumed(cfg, p, w, data, start, start + n, s, INVALID_HEADER_TOKEN, whole)
  {
    hide PerByte, Emit, FieldMatch, Token, Tracks, RunInv, Pending, FlushMark, Inv;
    ScanStops(cfg, p, w, q, marks, log, data, start, n);
    whole := w;
    if data[start + n] == ':' {
      whole := PerByte(cfg, Going(p, w), data[start..][..n + 1]).log;
      PerformSingle(Flush(FieldName), marks, log, data, start + n);
      TidySingle(Flush(FieldName), Some(FieldName));
    }
  }

  // The line end after a header value.
  lemma ValueStops(cfg: Config, p: Parser, w: Log, q: Parser, marks: Marks, log: Log,
                   data: string, start: nat, n: nat) returns (whole: Log)
    requires p.state == HeaderValue && start + n < |data| && p.nread + n + 1 <= cfg.maxHeader
    requires RunInv(cfg, Going(p, w)) && Scanning(cfg, p, q)
    requires Pending(Some(FieldValue), marks, log, data, start, w)
    requires Tracks(cfg, p, w, data[start..][..n], q)
    requires data[start + n] == CR || data[start + n] == LF
    ensures Within(marks, start + n)
    ensures
      var to := if data[start + n] == CR then HeaderAlmostDone else HeaderValueLws;
      && Consumed(cfg, p, w, data, start, start + n, q.(nread := p.nread + n + 1, state := to), OK, whole)
      && Pending(None, marks - {FieldValue}, FlushMark(marks, log, FieldValue, data, start + n),
                 data, start + n + 1, whole)
  {
    hide PerByte, Emit, ValueMatch, Tracks, RunInv, Pending, FlushMark, Inv;
    ScanStops(cfg, p, w, q, marks, log, data, start, n);
    whole := PerByte(cfg, Going(p, w), data[start..][..n + 1]).log;
    PerformSingle(Flush(FieldValue), marks, log, data, start + n);
    TidySingle(Flush(FieldValue), Some(FieldValue));
  }

  // A byte that a header value cannot have, before or after the limit is passed.
  lemma ValueRejected(cfg: Config, p: Parser, w: Log, q: Parser, marks: Marks, log: Log,
                      data: string, start: nat, n: nat, s: Parser, errno: Errno, whole: Log)
    requires p.state == HeaderValue && start + n < |data| && errno != OK
    requires RunInv(cfg, Going(p, w)) && Scanning(cfg, p, q)
    requires Pending(Some(FieldValue), marks, log, data, start, w)
    requires Tracks(cfg, p, w, data[start..][..n], q)
    requires ValueByte(cfg, q.(nread := p.nread + n + 1), data[start + n]) == Fail(errno)
    ensures Consumed(cfg, p, w, data, start, start + n, s, errno, whole)
  {
    hide PerByte, Emit, ValueByte, Tracks, RunInv, Pending, FlushMark, Inv;
    if p.nread + n + 1 > cfg.maxHeader {
      ScanTooLong(cfg, p, w, q, data, start, n, s, errno, whole);
    } else {
      ScanStops(cfg, p, w, q, marks, log, data, start, n);
    }
  }

  lemma MatchRejected(cfg: Config, q: Parser, ch: char, n: nat)
    requires ch != CR && ch != LF && (cfg.lenient || IsHeaderChar(ch))
    requires ValueMatch(MatcherOf(q), ch).Bad?
    ensures ValueByte(cfg, q.(nread := n), ch) == Fail(ValueMatch(MatcherOf(q), ch).errno)
  {
    hide ValueMatch, IsHeaderChar;
    assert MatcherOf(q.(nread := n)) == MatcherOf(q);
  }

  lemma NoneOpen()
    ensures Open(HeaderAlmostDone) == None == Open(HeaderValueLws)
    ensures Open(HeaderValueDiscardWs) == None
  {
  }

  // Past the limit a byte may be skipped unseen.
  lemma SkipUnseen(cfg: Config, p: Parser, w: Log, q: Parser, data: string, start: nat, at: nat)
    requires start <= at < |data| && Scanning(cfg, p, q)
    requires Tracks(cfg, p, w, data[start..][..at - start], q) && p.nread + at - start + 1 > cfg.maxHeader
    ensures Tracks(cfg, p, w, data[start..][..at + 1 - start], q)
  {
    hide Tracks;
    var tail := data[start..];
    TracksOverflow(cfg, p, w, tail[..at - start], q, data[at], q);
    assert tail[..at - start] + [data[at]] == tail[..at + 1 - start];
  }

  // ---- A byte at a time inside a buffer.

  // The marks between two bytes: that of the field the state delivers, or a body mark that waits
  // for the end of a chunk.
  predicate MarksFit(s: State, open: Option<Field>) {
    open == Open(s) || (open == Some(Body) && s == ChunkDataAlmostDone)
  }

  lemma ChunkEndByte(cfg: Config, p: Parser, whole: Log, ch: char, before: nat)
    requires Inv(cfg, p) && p.state == ChunkDataAlmostDone
    ensures Switch(cfg, p, ch) == if ch == CR then Next(p.(state := ChunkDataDone), [Flush(Body)]) else Fail(STRICT)
    ensures OneByte(cfg, p, whole, ch, before)
         == if ch == CR then Going(p.(state := ChunkDataDone), whole) else Failed(STRICT)
  {
    hide Emit, MethodName, Perform;
    var none: Marks := map[];
    PerformSingle(Flush(Body), none, whole, [ch], 0);
    assert none - {Body} == none;
  }

  lemma ChunkEndInBuffer(cfg: Config, p: Parser, marks: Marks, log: Log, data: string, pos: nat, whole: Log)
    requires pos < |data| && RunInv(cfg, Going(p, whole)) && p.state == ChunkDataAlmostDone
    requires Pending(Some(Body), marks, log, data, pos, whole)
    ensures Within(marks, pos)
    ensures
      var o := Switch(cfg, p, data[pos]);
      var byte := OneByte(cfg, p, whole, data[pos], pos);
      if data[pos] == CR then
        && o == Next(p.(state := ChunkDataDone), [Flush(Body)])
        && byte == Going(o.p, whole) && RunInv(cfg, byte)
        && Perform(o.acts, marks, log, data, pos) == (map[], whole)
      else o == Fail(STRICT) && byte == Failed(STRICT) && RunInv(cfg, byte)
  {
    hide Emit, MethodName, Switch, OneByte, Perform, FieldMatching, ValueMatching;
    ChunkEndByte(cfg, p, whole, data[pos], pos);
    PerformSingle(Flush(Body), marks, log, data, pos);
    assert marks - {Body} == map[];
  }

  // A byte that no bulk loop consumes.
  lemma ByteThere(cfg: Config, p: Parser, open: Option<Field>, marks: Marks, log: Log,
                  data: string, pos: nat, whole: Log)
    requires pos < |data| && RunInv(cfg, Going(p, whole)) && !BodyBytes(p.state)
    requires MarksFit(p.state, open) && Pending(open, marks, log, data, pos, whole)
    requires ParsingHeader(p.state) ==> p.nread + 1 <= cfg.maxHeader
    ensures Within(marks, pos)
    ensures
      var o := Switch(cfg, Counted(p), data[pos]);
      var byte := OneByte(cfg, p, whole, data[pos], pos);
      && !o.Broken? && RunInv(cfg, byte)
      && (o.Fail? ==> byte == Failed(o.errno) && o.errno != OK)
      && (o.Next? ==>
           var r := Perform(o.acts, marks, log, data, pos);
           && byte.Going? && byte.p == o.p
           && Pending(Open(o.p.state), r.0, r.1, data, pos + 1, byte.log))
      && (o.Exit? ==>
           var r := Perform(o.acts, marks, log, data, pos);
           byte == Exited(o.p, r.1, pos + 1) && r.0 == map[])
  {
    hide Emit, Switch, RunInv, OneByte, CloseAll, Perform, Left, Inv, Pending;
    if open == Open(p.state) {
      ByteInBuffer(cfg, p, marks, log, data, pos, whole);
    } else {
      ChunkEndInBuffer(cfg, p, marks, log, data, pos, whole);
      NothingPending(whole, data, pos + 1);
    }
  }

  lemma NothingPending(log: Log, data: string, end: nat)
    requires end <= |data|
    ensures Pending(None, map[], log, data, end, log)
  {
  }

  // The body mark, set at `start`, with `n` bytes behind it.
  lemma BodyPending(log: Log, data: string, start: nat, n: nat)
    requires start + n <= |data|
    ensures Pending(Some(Body), map[Body := start], log, data, start + n, Emit(log, Body, data[start..][..n]))
    ensures FlushMark(map[Body := start], log, Body, data, start + n) == Emit(log, Body, data[start..][..n])
  {
    hide Emit;
    assert data[start..][..n] == data[start..start + n];
  }

  // The bytes from `start` to `end`, one call each, agree with the parser: it goes on with the log
  // completed to `w`, it has left the protocol, or it has failed.
  ghost predicate Turned(cfg: Config, p0: Parser, w0: Log, data: string, start: nat, end: nat,
                         s: Parser, errno: Errno, log: Log, exited: bool, w: Log)
    requires start <= end < |data|
  {
    if exited then
      errno == OK && PerByte(cfg, Going(p0, w0), data[start..][..end + 1 - start]) == Exited(s, log, end + 1 - start)
    else
      Consumed(cfg, p0, w0, data, start, end, s, errno, w)
  }

  lemma FirstByte(cfg: Config, p: Parser, w: Log, data: string, start: nat)
    requires start < |data|
    ensures Shift(PerByte(cfg, Going(p, w), data[start..][..1]), start) == OneByte(cfg, p, w, data[start], start)
  {
    hide OneByte;
    var one := data[start..][..1];
    assert one[..0] == "" && one[0] == data[start];
    OneByteShift(cfg, p, w, data[start], 0, start);
  }

  // The size limit stops the parser in front of a byte.
  lemma CountFails(cfg: Config, p: Parser, w: Log, data: string, start: nat, s: Parser, log: Log, whole: Log)
    requires start < |data| && ParsingHeader(p.state) && p.nread + 1 > cfg.maxHeader
    ensures Turned(cfg, p, w, data, start, start, s, HEADER_OVERFLOW, log, false, whole)
  {
    hide Switch, Emit;
    FirstByte(cfg, p, w, data, start);
  }

  // A byte that no bulk loop consumes, carried out on the buffer.
  lemma ByteTurns(cfg: Config, p: Parser, open: Option<Field>, marks: Marks, log: Log,
                  data: string, pos: nat, w: Log) returns (whole: Log)
    requires pos < |data| && RunInv(cfg, Going(p, w)) && !BodyBytes(p.state)
    requires MarksFit(p.state, open) && Pending(open, marks, log, data, pos, w)
    requires ParsingHeader(p.state) ==> p.nread + 1 <= cfg.maxHeader
    ensures Within(marks, pos)
    ensures
      var o := Switch(cfg, Counted(p), data[pos]);
      && !o.Broken?
      && (o.Next? ==>
           var r := Perform(o.acts, marks, log, data, pos);
           && Turned(cfg, p, w, data, pos, pos, o.p, OK, r.1, false, whole)
           && Pending(Open(o.p.state), r.0, r.1, data, pos + 1, whole))
      && (o.Exit? ==>
           Turned(cfg, p, w, data, pos, pos, o.p, OK, Perform(o.acts, marks, log, data, pos).1, true, whole))
      && (o.Fail? ==>
           o.errno != OK && Turned(cfg, p, w, data, pos, pos, Counted(p), o.errno, log, false, whole))
  {
    hide Emit, Switch, RunInv, OneByte, Perform, Inv, Pending, PerByte;
    ByteThere(cfg, p, open, marks, log, data, pos, w);
    FirstByte(cfg, p, w, data, pos);
    var run := PerByte(cfg, Going(p, w), data[pos..][..1]);
    whole := if run.Going? then run.log else w;
  }

  lemma EofTurns(cfg: Config, p: Parser, w: Log, data: string, start: nat)
    requires start < |data| && p.state == BodyIdentityEof
    ensures
      var whole := Emit(w, Body, data[start..]);
      && Turned(cfg, p, w, data, start, |data| - 1, p, OK, w, false, whole)
      && Pending(Some(Body), map[Body := start], w, data, |data|, whole)
  {
    hide Emit, PerByte;
    assert data[start..][..|data| - start] == data[start..];
    BodyPending(w, data, start, |data| - start);
    ManyEofBytes(cfg, p, w, data[start..]);
  }

  lemma ConsumedTurns(cfg: Config, p0: Parser, w0: Log, data: string, start: nat, end: nat,
                      s: Parser, errno: Errno, log: Log, w: Log)
    requires start <= end < |data| && Consumed(cfg, p0, w0, data, start, end, s, errno, w)
    ensures Turned(cfg, p0, w0, data, start, end, s, errno, log, false, w)
  {
  }

  lemma NothingWaits(marks: Marks, log: Log, data: string, end: nat, whole: Log)
    requires Pending(None, marks, log, data, end, whole)
    ensures marks == map[] && log == whole
  {
  }

  lemma TurnStarts(cfg: Config, p: Parser, log: Log, open: Option<Field>)
    requires RunInv(cfg, Going(p, log)) && MarksFit(p.state, open)
    ensures Inv(cfg, p) && p.nread <= cfg.maxHeader
    ensures p.state == HeaderField ==> open == Some(FieldName) && ParsingHeader(p.state)
    ensures p.state == HeaderValue ==> open == Some(FieldValue) && ParsingHeader(p.state)
    ensures BodyBytes(p.state) ==> open == None && !ParsingHeader(p.state)
    ensures Counted(p) == if ParsingHeader(p.state) then p.(nread := p.nread + 1) else p
  {
  }

  lemma FitsOpen()
    ensures forall s: State :: MarksFit(s, Open(s))
  {
  }

  lemma BodyLength(cfg: Config, p: Parser)
    requires Inv(cfg, p) && (p.state == BodyIdentity || p.state == ChunkData)
    ensures 0 < p.contentLength < NO_LENGTH
  {
  }

  lemma IdentityEnds(cfg: Config, p: Parser, w: Log, data: string, start: nat, s: Parser, log: Log, exited: bool)
    requires Inv(cfg, p) && p.state == BodyIdentity && start < |data|
    requires start + p.contentLength <= |data|
    requires log == Emit(w, Body, data[start..][..p.contentLength]) + [Called(MessageComplete)]
    requires EndOfMessage(p.(contentLength := 0, state := MessageDone))
             == if exited then Exit(s, [Notify(MessageComplete)]) else Next(s, [Notify(MessageComplete)])
    ensures p.contentLength > 0
    ensures Turned(cfg, p, w, data, start, start + p.contentLength - 1, s, OK, log, exited, log)
  {
    hide Emit, EndOfMessage, PerByte;
    ManyBodyBytes(cfg, p, w, data[start..][..p.contentLength]);
  }

  lemma IdentityGoesOn(cfg: Config, p: Parser, w: Log, data: string, start: nat)
    requires Inv(cfg, p) && p.state == BodyIdentity && start < |data| < start + p.contentLength
    ensures
      var n := |data| - start;
      var q := p.(contentLength := p.contentLength - n);
      Turned(cfg, p, w, data, start, |data| - 1, q, OK, w, false, Emit(w, Body, data[start..][..n]))
  {
    hide Emit, EndOfMessage, PerByte;
    ManyBodyBytes(cfg, p, w, data[start..][..|data| - start]);
  }

  // ---- The whole buffer.

  // The parser after a call has done what `r` says: `r` is the run of one call per byte.
  predicate Agrees(r: Run, s: Parser, log: Log, errno: Errno, consumed: nat, len: nat) {
    match r
    case Going(p, l) => errno == OK && s == p && log == l && consumed == len
    case Exited(p, l, used) => errno == OK && s == p && log == l && consumed == used
    case Failed(e) => SameError(errno, e)
    case AssertionFailure => false
  }

  // The state of the main loop before the byte at `pos`, or after the last byte.
  ghost predicate Between(cfg: Config, r0: Run, data: string, pos: nat, s: Parser, marks: Marks, log: Log,
                          open: Option<Field>, w: Log)
    requires pos <= |data|
  {
    && PerByte(cfg, r0, data[..pos]) == Going(s, w) && RunInv(cfg, Going(s, w))
    && (MarksFit(s.state, open) || (open == Some(Body) && pos == |data|))
    && Pending(open, marks, log, data, pos, w)
  }

  lemma BufferStarts(cfg: Config, s: Parser, log: Log, data: string)
    requires RunInv(cfg, Going(s, log))
    ensures Between(cfg, Going(s, log), data, 0, s, Resumed(s.state), log, Open(s.state), log)
  {
    hide Inv;
    ResumedPending(s.state, log, data);
  }

  lemma BufferGoesOn(cfg: Config, r0: Run, data: string, pos: nat, s: Parser, marks: Marks, log: Log,
                     open: Option<Field>, w: Log)
    requires pos < |data| && Between(cfg, r0, data, pos, s, marks, log, open, w)
    ensures RunInv(cfg, Going(s, w)) && MarksFit(s.state, open) && Pending(open, marks, log, data, pos, w)
  {
  }

  lemma BufferEnds(cfg: Config, r0: Run, data: string, s: Parser, marks: Marks, log: Log,
                   open: Option<Field>, w: Log)
    requires Between(cfg, r0, data, |data|, s, marks, log, open, w)
    ensures |marks| <= 1 && Within(marks, |data|) && CloseAll(marks, log, data, |data|) == w
    ensures Agrees(PerByte(cfg, r0, data), s, w, OK, |data|, |data|) && RunInv(cfg, Going(s, w))
  {
    hide CloseAll, PerByte, Inv;
    assert data[..|data|] == data;
    ClosePending(open, marks, log, data, |data|, w);
    AtMostOne(open, marks, log, data, |data|, w);
  }

  lemma AtMostOne(open: Option<Field>, marks: Marks, log: Log, data: string, end: nat, whole: Log)
    requires Pending(open, marks, log, data, end, whole)
    ensures |marks| <= 1
  {
    assert |marks| == |marks.Keys|;
  }

  lemma TurnJoins(cfg: Config, r0: Run, data: string, start: nat, end: nat, p0: Parser, w0: Log,
                  marks0: Marks, log0: Log, open0: Option<Field>,
                  s: Parser, errno: Errno, log: Log, exited: bool, w: Log)
    requires start <= end < |data| && RunInv(cfg, r0) && r0.Going?
    requires Between(cfg, r0, data, start, p0, marks0, log0, open0, w0)
    requires Turned(cfg, p0, w0, data, start, end, s, errno, log, exited, w)
    ensures errno == OK && !exited ==>
              PerByte(cfg, r0, data[..end + 1]) == Going(s, w) && RunInv(cfg, Going(s, w))
    ensures errno == OK && exited ==>
              && Agrees(PerByte(cfg, r0, data), s, log, OK, end + 1, |data|)
              && RunInv(cfg, Going(s, log))
    ensures errno != OK ==> !exited && Agrees(PerByte(cfg, r0, data), s, log, errno, end, |data|)
  {
    hide PerByte, RunInv, SameError, Pending, OneByte, MarksFit;
    var tail := data[start..];
    var n := end + 1 - start;
    assert data[..start] + tail[..n] == data[..end + 1];
    PerByteConcat(cfg, r0, data[..start], tail[..n]);
    PerByteGood(cfg, r0, data[..end + 1]);
    if errno != OK {
      PerByteStops(cfg, r0, data, end + 1);
    } else if exited {
      PerByteStops(cfg, r0, data, end + 1);
      ExitedGood(cfg, s, log, end + 1);
    }
  }

  lemma BufferTurns(cfg: Config, r0: Run, data: string, end: nat, s: Parser, marks: Marks, log: Log,
                    open: Option<Field>, w: Log)
    requires end < |data| && PerByte(cfg, r0, data[..end + 1]) == Going(s, w) && RunInv(cfg, Going(s, w))
    requires MarksFit(s.state, open) || (open == Some(Body) && end + 1 == |data|)
    requires Pending(open, marks, log, data, end + 1, w)
    ensures Between(cfg, r0, data, end + 1, s, marks, log, open, w)
  {
  }

  lemma ExitedGood(cfg: Config, s: Parser, log: Log, used: nat)
    requires RunInv(cfg, Exited(s, log, used))
    ensures RunInv(cfg, Going(s, log))
  {
    hide Inv;
  }

  // ---- A stream in pieces.

  function Joined(pieces: seq<string>): string {
    if pieces == [] then "" else Joined(pieces[..|pieces| - 1]) + pieces[|pieces| - 1]
  }

  lemma JoinedNothing(cfg: Config, s: Parser, log: Log)
    ensures PerByte(cfg, Going(s, log), Joined([])) == Going(s, log)
  {
  }

  lemma GoingAgrees(cfg: Config, r0: Run, data: string, s: Parser, log: Log)
    ensures PerByte(cfg, r0, data) == Going(s, log) ==>
              Agrees(PerByte(cfg, r0, data), s, log, OK, |data|, |data|)
  {
    hide PerByte;
  }

  lemma {:induction false} JoinedPrefix(pieces: seq<string>, i: nat)
    requires i <= |pieces|
    ensures |Joined(pieces[..i])| <= |Joined(pieces)|
    ensures Joined(pieces)[..|Joined(pieces[..i])|] == Joined(pieces[..i])
    decreases |pieces| - i
  {
    if i == |pieces| {
      assert pieces[..i] == pieces;
    } else {
      JoinedPrefix(pieces, i + 1);
      assert pieces[..i + 1][..i] == pieces[..i];
      var a, b := Joined(pieces[..i]), Joined(pieces[..i + 1]);
      assert b == a + pieces[i];
      assert Joined(pieces)[..|b|][..|a|] == Joined(pieces)[..|a|];
    }
  }

  // One more piece.
  lemma FeedJoins(cfg: Config, r0: Run, pieces: seq<string>, i: nat, p0: Parser, w0: Log,
                  s: Parser, log: Log, errno: Errno, n: nat)
    requires i < |pieces| && r0.Going?
    requires PerByte(cfg, r0, Joined(pieces[..i])) == Going(p0, w0) || PerByte(cfg, r0, Joined(pieces)).Exited?
    requires Agrees(PerByte(cfg, Going(p0, w0), pieces[i]), s, log, errno, n, |pieces[i]|)
    ensures |Joined(pieces[..i + 1])| == |Joined(pieces[..i])| + |pieces[i]|
    ensures
      var m := |Joined(pieces[..i])| + n;
      var all := PerByte(cfg, r0, Joined(pieces));
      || all.Exited?
      || (errno != OK && Agrees(all, s, log, errno, m, |Joined(pieces)|))
      || (errno == OK && n == |pieces[i]| && PerByte(cfg, r0, Joined(pieces[..i + 1])) == Going(s, log))
  {
    hide PerByte;
    assert pieces[..i + 1][..i] == pieces[..i];
    if PerByte(cfg, r0, Joined(pieces[..i])) == Going(p0, w0) {
      var a := Joined(pieces[..i]);
      assert Joined(pieces[..i + 1]) == a + pieces[i];
      PerByteConcat(cfg, r0, a, pieces[i]);
      JoinedPrefix(pieces, i + 1);
      if !PerByte(cfg, r0, a + pieces[i]).Going? {
        PerByteStops(cfg, r0, Joined(pieces), |a + pieces[i]|);
      }
    }
  }
}
