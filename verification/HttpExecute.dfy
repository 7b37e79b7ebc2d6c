/**
  `http_parser_execute`: a resumable loop over a buffer that consumes runs of bytes at once, counts
  header bytes after the run, and keeps marks into the buffer for the data callbacks. It is proved
  to do what one call per byte does, however the stream is cut into buffers.
 */
module HttpExecute {
  import opened HttpChars
  import opened HttpStep
  import opened HttpTrace
  import opened HttpInvariant
  import opened HttpBulk
  import opened Text

  // The value of a 32-bit counter.
  function Wrap32(n: nat): (r: nat)
    ensures n < 0x1_0000_0000 ==> r == n
  {
    n % 0x1_0000_0000
  }

  lemma NameIsScanned()
    ensures ScanField(HeaderField) == FieldName && ScanField(HeaderValue) == FieldValue
  {
  }

  class HttpParser {
    var s: Parser
    var errno: Errno
    var log: Log

    // A parser that has not failed is between two bytes of a run.
    ghost predicate Valid(cfg: Config)
      reads this
    {
      errno == OK ==> RunInv(cfg, Going(s, log))
    }

    constructor (kind: Kind)
      ensures s == Init(kind) && errno == OK && log == []
    {
      s := Init(kind);
      errno := OK;
      log := [];
    }

    // `COUNT_HEADER_SIZE(v)` on the 32-bit counter.
    method Count(cfg: Config, v: nat)
      requires errno == OK
      modifies this
      ensures log == old(log)
      ensures s == old(s).(nread := Wrap32(old(s).nread + v))
      ensures errno == if s.nread > cfg.maxHeader then HEADER_OVERFLOW else OK
    {
      s := s.(nread := Wrap32(s.nread + v));
      if s.nread > cfg.maxHeader {
        errno := HEADER_OVERFLOW;
      }
    }

    // `CALLBACK_DATA(k)` at offset `p`.
    method Callback(k: Field, marks: Marks, data: string, p: nat) returns (after: Marks)
      requires p <= |data| && Within(marks, p)
      modifies this
      ensures s == old(s) && errno == old(errno)
      ensures log == FlushMark(marks, old(log), k, data, p) && after == marks - {k}
    {
      if k in marks {
        log := Emit(log, k, data[marks[k]..p]);
      }
      after := marks - {k};
    }

    // The loop of `s_header_field` over token characters. `p0` and `w0` are the parser before its
    // byte at `start` was counted and the log completed up to there.
    method SkipName(cfg: Config, data: string, start: nat, ghost p0: Parser, ghost w0: Log)
      returns (p: nat)
      requires start < |data| && s.state == HeaderField && Scanning(cfg, p0, s)
      requires Tracks(cfg, p0, w0, data[start..][..0], s)
      modifies this`s
      ensures start <= p <= |data| && (p == |data| || Token(data[p]) == NUL)
      ensures s.state == HeaderField && Scanning(cfg, p0, s) && Tracks(cfg, p0, w0, data[start..][..p - start], s)
    {
      hide FieldMatch, Token, Tracks, Inv;
      p := start;
      assert data[start..][..p - start] == data[start..][..0];
      while p < |data| && Token(data[p]) != NUL
        invariant start <= p <= |data| && s.state == HeaderField
        invariant Scanning(cfg, p0, s) && Tracks(cfg, p0, w0, data[start..][..p - start], s)
      {
        if s.hs == HGeneral {
          var left := |data| - p;
          var pe := p + (if left < cfg.maxHeader then left else cfg.maxHeader);
          ghost var q := s;
          while p + 1 < pe && Token(data[p + 1]) != NUL
            invariant start <= p < |data| && pe <= |data| && Token(data[p]) != NUL && s == q
            invariant Scanning(cfg, p0, s) && Tracks(cfg, p0, w0, data[start..][..p - start], s)
          {
            ScanName(cfg, p0, w0, data, start, p, s);
            GeneralByte(s, data[p]);
            p := p + 1;
          }
          ScanName(cfg, p0, w0, data, start, p, s);
          GeneralByte(s, data[p]);
        } else {
          ScanName(cfg, p0, w0, data, start, p, s);
          s := With(s, FieldMatch(MatcherOf(s), data[p], Token(data[p])).m);
        }
        p := p + 1;
      }
    }

    // The scan of a header name or value has reached the end of the buffer.
    method ScanToEnd(cfg: Config, data: string, start: nat, marks: Marks, ghost p0: Parser, ghost w0: Log)
      returns (ghost w: Log)
      requires |data| + cfg.maxHeader < 0x1_0000_0000 && start < |data| && errno == OK
      requires Scanning(cfg, p0, s) && Tracks(cfg, p0, w0, data[start..], s)
      requires Pending(Some(ScanField(s.state)), marks, log, data, start, w0)
      modifies this
      ensures Consumed(cfg, p0, w0, data, start, |data| - 1, s, errno, w)
      ensures errno == OK ==> Pending(Open(s.state), marks, log, data, |data|, w)
    {
      hide Wrap32, Tracks, Pending, Consumed, ScanField, Scanning;
      ScanCounts(cfg, p0, s);
      ghost var q := s;
      Count(cfg, |data| - 1 - start);
      w := ScanEnds(cfg, p0, w0, q, marks, log, data, start, errno);
    }

    // The byte after a header name, at `p`.
    method NameEnd(cfg: Config, data: string, start: nat, p: nat, marks: Marks,
                   ghost p0: Parser, ghost w0: Log)
      returns (after: Marks, ghost w: Log)
      requires |data| + cfg.maxHeader < 0x1_0000_0000 && start <= p < |data| && errno == OK
      requires p0.state == HeaderField && RunInv(cfg, Going(p0, w0)) && Scanning(cfg, p0, s)
      requires Pending(Some(FieldName), marks, log, data, start, w0)
      requires Tracks(cfg, p0, w0, data[start..][..p - start], s) && Token(data[p]) == NUL
      modifies this
      ensures Consumed(cfg, p0, w0, data, start, p, s, errno, w)
      ensures errno == OK ==> Pending(None, after, log, data, p + 1, w) && Open(s.state) == None
    {
      hide *;
      NoneOpen();
      ghost var q := s;
      ScanCounts(cfg, p0, q);
      after, w := marks, w0;
      Count(cfg, p - start);
      if errno != OK {
        ScanTooLong(cfg, p0, w0, q, data, start, p - start, s, errno, w);
        return;
      }
      w := NameStops(cfg, p0, w0, q, marks, log, data, start, p - start, s);
      if data[p] == ':' {
        s := s.(state := HeaderValueDiscardWs);
        after := Callback(FieldName, marks, data, p);
      } else {
        errno := INVALID_HEADER_TOKEN;
      }
    }

    // `s_header_field`
    method HeaderName(cfg: Config, data: string, start: nat, marks: Marks, ghost p0: Parser, ghost w0: Log)
      returns (end: nat, after: Marks, ghost w: Log)
      requires |data| + cfg.maxHeader < 0x1_0000_0000 && start < |data| && errno == OK
      requires p0.state == HeaderField && RunInv(cfg, Going(p0, w0))
      requires s == p0.(nread := p0.nread + 1) && s.nread <= cfg.maxHeader
      requires Pending(Some(FieldName), marks, log, data, start, w0)
      modifies this
      ensures start <= end < |data| && Consumed(cfg, p0, w0, data, start, end, s, errno, w)
      ensures errno == OK ==> Pending(Open(s.state), after, log, data, end + 1, w)
    {
      hide *;
      NameIsScanned();
      ScanStarts(cfg, p0, w0);
      assert data[start..][..0] == "";
      var p := SkipName(cfg, data, start, p0, w0);
      ScanCounts(cfg, p0, s);
      if p == |data| {
        assert data[start..][..p - start] == data[start..];
        end, after := p - 1, marks;
        w := ScanToEnd(cfg, data, start, marks, p0, w0);
      } else {
        end := p;
        after, w := NameEnd(cfg, data, start, p, marks, p0, w0);
      }
    }

    // The loop of `s_header_value` up to a line end. A run of ordinary characters is consumed at
    // once; if it is as long as the size limit, the byte after it is stepped over unseen.
    method SkipValue(cfg: Config, data: string, start: nat, marks: Marks, ghost p0: Parser, ghost w0: Log)
      returns (p: nat)
      requires start < |data| && s.state == HeaderValue && Scanning(cfg, p0, s) && errno == OK
      requires RunInv(cfg, Going(p0, w0)) && Pending(Some(FieldValue), marks, log, data, start, w0)
      requires Tracks(cfg, p0, w0, data[start..][..0], s)
      modifies this
      ensures log == old(log) && start <= p <= |data|
      ensures errno != OK ==> p < |data| && Consumed(cfg, p0, w0, data, start, p, s, errno, w0)
      ensures errno == OK ==>
                && (p == |data| || data[p] == CR || data[p] == LF)
                && s.state == HeaderValue && Scanning(cfg, p0, s)
                && Tracks(cfg, p0, w0, data[start..][..p - start], s)
    {
      hide ValueMatch, IsHeaderChar, Tracks, Inv, RunInv, Pending, Consumed;
      p := start;
      assert data[start..][..p - start] == data[start..][..0];
      ScanCounts(cfg, p0, s);
      while p < |data| && data[p] != CR && data[p] != LF
        invariant start <= p <= |data| && s.state == HeaderValue && errno == OK && log == old(log)
        invariant Scanning(cfg, p0, s) && Tracks(cfg, p0, w0, data[start..][..p - start], s)
      {
        if !cfg.lenient && !IsHeaderChar(data[p]) {
          ValueRejected(cfg, p0, w0, s, marks, log, data, start, p - start, s, INVALID_HEADER_TOKEN, w0);
          errno := INVALID_HEADER_TOKEN;
          return;
        }
        if s.hs == HGeneral {
          p := SkipGeneral(cfg, data, start, p, marks, p0, w0);
          if errno != OK {
            return;
          }
        } else {
          ScanValue(cfg, p0, w0, data, start, p, s);
          match ValueMatch(MatcherOf(s), data[p])
          case Bad(e) =>
            MatchRejected(cfg, s, data[p], p0.nread + p - start + 1);
            ValueRejected(cfg, p0, w0, s, marks, log, data, start, p - start, s, e, w0);
            errno := e;
            return;
          case Good(m) => s := With(s, m);
          case Impossible => assert false;
        }
        p := p + 1;
      }
    }

    // The inner loop for ordinary header values.
    method SkipGeneral(cfg: Config, data: string, start: nat, from: nat, marks: Marks,
                       ghost p0: Parser, ghost w0: Log)
      returns (p: nat)
      requires start <= from < |data| && s.state == HeaderValue && Scanning(cfg, p0, s) && errno == OK
      requires RunInv(cfg, Going(p0, w0)) && Pending(Some(FieldValue), marks, log, data, start, w0)
      requires s.hs == HGeneral && data[from] != CR && data[from] != LF
      requires Tracks(cfg, p0, w0, data[start..][..from - start], s)
      modifies this`errno
      ensures from <= p < |data|
      ensures errno != OK ==> Consumed(cfg, p0, w0, data, start, p, s, errno, w0)
      ensures errno == OK ==> Tracks(cfg, p0, w0, data[start..][..p + 1 - start], s)
    {
      hide ValueMatch, IsHeaderChar, Tracks, Inv, RunInv, Pending, Consumed;
      ScanCounts(cfg, p0, s);
      p := from;
      var left := |data| - p;
      var pe := p + (if left < cfg.maxHeader then left else cfg.maxHeader);
      while p != pe && data[p] != CR && data[p] != LF
        invariant from <= p <= pe <= |data| && errno == OK
        invariant p == from ==> p != pe && data[p] != CR && data[p] != LF
        invariant Tracks(cfg, p0, w0, data[start..][..p - start], s)
      {
        if !cfg.lenient && !IsHeaderChar(data[p]) {
          ValueRejected(cfg, p0, w0, s, marks, log, data, start, p - start, s, INVALID_HEADER_TOKEN, w0);
          errno := INVALID_HEADER_TOKEN;
          return;
        }
        GeneralByte(s, data[p]);
        ScanValue(cfg, p0, w0, data, start, p, s);
        p := p + 1;
      }
      if p != pe || p == |data| {
        p := p - 1;
      } else {
        SkipUnseen(cfg, p0, w0, s, data, start, p);
      }
    }

    // The line end after a header value, at `p`.
    method ValueEnd(cfg: Config, data: string, start: nat, p: nat, marks: Marks,
                    ghost p0: Parser, ghost w0: Log)
      returns (after: Marks, ghost w: Log)
      requires |data| + cfg.maxHeader < 0x1_0000_0000 && start <= p < |data| && errno == OK
      requires p0.state == HeaderValue && RunInv(cfg, Going(p0, w0)) && Scanning(cfg, p0, s)
      requires Pending(Some(FieldValue), marks, log, data, start, w0)
      requires Tracks(cfg, p0, w0, data[start..][..p - start], s)
      requires data[p] == CR || data[p] == LF
      modifies this
      ensures Consumed(cfg, p0, w0, data, start, p, s, errno, w)
      ensures errno == OK ==> Pending(None, after, log, data, p + 1, w) && Open(s.state) == None
    {
      hide *;
      NoneOpen();
      ghost var q := s;
      ScanCounts(cfg, p0, q);
      after, w := marks, w0;
      PendingWithin(Some(FieldValue), marks, log, data, start, w0, p);
      if q.nread + p - start <= cfg.maxHeader {
        w := ValueStops(cfg, p0, w0, q, marks, log, data, start, p - start);
      }
      s := s.(state := HeaderAlmostDone);
      if data[p] == CR {
        after := Callback(FieldValue, marks, data, p);
        Count(cfg, p - start);
      } else {
        Count(cfg, p - start);
        if errno == OK {
          after := Callback(FieldValue, marks, data, p);
          s := s.(state := HeaderValueLws);
        }
      }
      if errno != OK {
        ScanTooLong(cfg, p0, w0, q, data, start, p - start, s, errno, w);
      }
    }

    // `s_header_value`
    method HeaderText(cfg: Config, data: string, start: nat, marks: Marks, ghost p0: Parser, ghost w0: Log)
      returns (end: nat, after: Marks, ghost w: Log)
      requires |data| + cfg.maxHeader < 0x1_0000_0000 && start < |data| && errno == OK
      requires p0.state == HeaderValue && RunInv(cfg, Going(p0, w0))
      requires s == p0.(nread := p0.nread + 1) && s.nread <= cfg.maxHeader
      requires Pending(Some(FieldValue), marks, log, data, start, w0)
      modifies this
      ensures start <= end < |data| && Consumed(cfg, p0, w0, data, start, end, s, errno, w)
      ensures errno == OK ==> Pending(Open(s.state), after, log, data, end + 1, w)
    {
      hide Wrap32, Tracks, Pending, Consumed, Scanning, RunInv, FlushMark, Inv;
      ScanStarts(cfg, p0, w0);
      assert data[start..][..0] == "";
      var p := SkipValue(cfg, data, start, marks, p0, w0);
      end, after, w := p, marks, w0;
      if errno != OK {
        return;
      }
      ScanCounts(cfg, p0, s);
      if p == |data| {
        assert data[start..][..p - start] == data[start..];
        end := p - 1;
        w := ScanToEnd(cfg, data, start, marks, p0, w0);
        return;
      }
      after, w := ValueEnd(cfg, data, start, p, marks, p0, w0);
    }

    // `s_message_done`
    method EndMessage() returns (exited: bool)
      requires s.state == MessageDone && errno == OK
      modifies this
      ensures errno == OK && log == old(log) + [Called(MessageComplete)] && Open(s.state) == None
      ensures EndOfMessage(old(s)) == (if exited then Exit(s, [Notify(MessageComplete)])
                                       else Next(s, [Notify(MessageComplete)]))
    {
      s := s.(state := NewMessage(s));
      log := log + [Called(MessageComplete)];
      exited := s.upgrade;
    }

    // `s_chunk_data`: as much of the chunk as the buffer holds.
    method ChunkBody(cfg: Config, data: string, start: nat)
      returns (end: nat, after: Marks, ghost w: Log)
      requires start < |data| && errno == OK && Inv(cfg, s) && s.state == ChunkData
      modifies this`s
      ensures start <= end < |data|
      ensures Turned(cfg, old(s), log, data, start, end, s, OK, log, false, w)
      ensures MarksFit(s.state, Some(Body)) || end + 1 == |data|
      ensures Pending(Some(Body), after, log, data, end + 1, w)
    {
      hide PerByte, Emit, Pending, FlushMark, EndOfMessage, MethodName, Inv;
      var left := |data| - start;
      var toRead := if s.contentLength < left then s.contentLength else left;
      BodyLength(cfg, s);
      assert s.contentLength != 0 && s.contentLength != NO_LENGTH;
      ManyBodyBytes(cfg, s, log, data[start..][..toRead]);
      BodyPending(log, data, start, toRead);
      w := Emit(log, Body, data[start..][..toRead]);
      after := map[Body := start];
      end := start + toRead - 1;
      s := s.(contentLength := s.contentLength - toRead);
      if s.contentLength == 0 {
        s := s.(state := ChunkDataAlmostDone);
      }
    }

    // The last byte of a body of known length is in the buffer.
    method IdentityEnd(cfg: Config, data: string, ghost start: nat, end: nat, marks: Marks, ghost p0: Parser)
      returns (after: Marks, exited: bool)
      requires start < end == start + p0.contentLength <= |data| && errno == OK && marks == map[Body := start]
      requires Inv(cfg, p0) && p0.state == BodyIdentity && s == p0.(contentLength := 0)
      modifies this
      ensures errno == OK && Open(s.state) == None
      ensures Turned(cfg, p0, old(log), data, start, end - 1, s, OK, log, exited, log)
      ensures Pending(None, after, log, data, end, log)
    {
      hide *;
      ghost var n := p0.contentLength;
      ghost var w0 := log;
      BodyPending(log, data, start, n);
      s := s.(state := MessageDone);
      after := Callback(Body, marks, data, end);
      exited := EndMessage();
      IdentityEnds(cfg, p0, w0, data, start, s, log, exited);
      assert after == map[];
      NothingPending(log, data, end);
    }

    // `s_body_identity`: the same for a body of known length, after which the message is complete.
    method IdentityBody(cfg: Config, data: string, start: nat)
      returns (end: nat, after: Marks, exited: bool, ghost open: Option<Field>, ghost w: Log)
      requires start < |data| && errno == OK && Inv(cfg, s) && s.state == BodyIdentity
      modifies this
      ensures start <= end < |data| && errno == OK
      ensures Turned(cfg, old(s), old(log), data, start, end, s, OK, log, exited, w)
      ensures open == Open(s.state) || (open == Some(Body) && end + 1 == |data|)
      ensures !exited ==> Pending(open, after, log, data, end + 1, w)
    {
      hide *;
      var left := |data| - start;
      var toRead := if s.contentLength < left then s.contentLength else left;
      BodyLength(cfg, s);
      assert s.contentLength != 0 && s.contentLength != NO_LENGTH;
      ghost var p0, w0 := s, log;
      BodyPending(w0, data, start, toRead);
      w := Emit(w0, Body, data[start..][..toRead]);
      after, open, exited := map[Body := start], Some(Body), false;
      end := start + toRead - 1;
      s := s.(contentLength := s.contentLength - toRead);
      if s.contentLength == 0 {
        after, exited := IdentityEnd(cfg, data, start, end + 1, after, p0);
        w, open := log, None;
      } else {
        IdentityGoesOn(cfg, p0, w0, data, start);
      }
    }

    // The states that consume body bytes.
    method BodyTurn(cfg: Config, data: string, pos: nat)
      returns (end: nat, after: Marks, exited: bool, ghost left: Option<Field>, ghost w: Log)
      requires pos < |data| && errno == OK && Inv(cfg, s) && BodyBytes(s.state)
      modifies this
      ensures pos <= end < |data| && errno == OK
      ensures Turned(cfg, old(s), old(log), data, pos, end, s, OK, log, exited, w)
      ensures !exited ==>
                && (MarksFit(s.state, left) || (left == Some(Body) && end + 1 == |data|))
                && Pending(left, after, log, data, end + 1, w)
    {
      hide Emit, Inv, Pending, Turned;
      exited := false;
      if s.state == BodyIdentity {
        end, after, exited, left, w := IdentityBody(cfg, data, pos);
      } else if s.state == ChunkData {
        end, after, w := ChunkBody(cfg, data, pos);
        left := Some(Body);
      } else {
        EofTurns(cfg, s, log, data, pos);
        end, after, w, left := |data| - 1, map[Body := pos], Emit(log, Body, data[pos..]), Some(Body);
      }
    }

    // Every other state: the switch on one byte, with its callbacks.
    method OtherByte(cfg: Config, data: string, pos: nat, marks: Marks,
                     ghost p0: Parser, ghost w0: Log, ghost open: Option<Field>)
      returns (after: Marks, exited: bool, ghost w: Log)
      requires pos < |data| && errno == OK && s == Counted(p0) && RunInv(cfg, Going(p0, w0))
      requires !BodyBytes(p0.state) && MarksFit(p0.state, open) && Pending(open, marks, log, data, pos, w0)
      requires ParsingHeader(p0.state) ==> p0.nread + 1 <= cfg.maxHeader
      modifies this
      ensures Turned(cfg, p0, w0, data, pos, pos, s, errno, log, exited, w)
      ensures errno == OK && !exited ==> Pending(Open(s.state), after, log, data, pos + 1, w)
    {
      hide Emit, Switch, RunInv, Perform, Inv, Pending, PerByte, Turned;
      w := ByteTurns(cfg, p0, open, marks, log, data, pos, w0);
      after, exited := marks, false;
      match Switch(cfg, s, data[pos])
      case Next(q, acts) =>
        var r := Perform(acts, marks, log, data, pos);
        s, after, log := q, r.0, r.1;
      case Exit(q, acts) =>
        var r := Perform(acts, marks, log, data, pos);
        s, after, log, exited := q, r.0, r.1, true;
      case Fail(e) => errno := e;
      case Broken => assert false;
    }

    // The switch, entered with the byte at `pos` counted.
    method Dispatch(cfg: Config, data: string, pos: nat, marks: Marks,
                    ghost p0: Parser, ghost w0: Log, ghost open: Option<Field>)
      returns (end: nat, after: Marks, exited: bool, ghost w: Log, ghost left: Option<Field>)
      requires |data| + cfg.maxHeader < 0x1_0000_0000 && pos < |data| && errno == OK
      requires RunInv(cfg, Going(p0, w0)) && s == Counted(p0)
      requires ParsingHeader(p0.state) ==> p0.nread + 1 <= cfg.maxHeader
      requires MarksFit(p0.state, open) && Pending(open, marks, log, data, pos, w0)
      modifies this
      ensures pos <= end < |data|
      ensures Turned(cfg, p0, w0, data, pos, end, s, errno, log, exited, w)
      ensures errno == OK && !exited ==>
                && (MarksFit(s.state, left) || (left == Some(Body) && end + 1 == |data|))
                && Pending(left, after, log, data, end + 1, w)
    {
      hide *;
      end, exited := pos, false;
      TurnStarts(cfg, p0, w0, open);
      FitsOpen();
      if s.state == HeaderField {
        end, after, w := HeaderName(cfg, data, pos, marks, p0, w0);
        ConsumedTurns(cfg, p0, w0, data, pos, end, s, errno, log, w);
        left := Open(s.state);
      } else if s.state == HeaderValue {
        end, after, w := HeaderText(cfg, data, pos, marks, p0, w0);
        ConsumedTurns(cfg, p0, w0, data, pos, end, s, errno, log, w);
        left := Open(s.state);
      } else if BodyBytes(s.state) {
        NothingWaits(marks, log, data, pos, w0);
        end, after, exited, left, w := BodyTurn(cfg, data, pos);
      } else {
        after, exited, w := OtherByte(cfg, data, pos, marks, p0, w0, open);
        left := Open(s.state);
      }
    }

    // One turn of the main loop: the byte at `pos` is counted and the switch entered. It may
    // consume more bytes, up to `end`.
    method Turn(cfg: Config, data: string, pos: nat, marks: Marks, ghost w0: Log, ghost open: Option<Field>)
      returns (end: nat, after: Marks, exited: bool, ghost w: Log, ghost left: Option<Field>)
      requires |data| + cfg.maxHeader < 0x1_0000_0000 && pos < |data| && errno == OK
      requires RunInv(cfg, Going(s, w0))
      requires MarksFit(s.state, open) && Pending(open, marks, log, data, pos, w0)
      modifies this
      ensures pos <= end < |data|
      ensures Turned(cfg, old(s), w0, data, pos, end, s, errno, log, exited, w)
      ensures errno == OK && !exited ==>
                && (MarksFit(s.state, left) || (left == Some(Body) && end + 1 == |data|))
                && Pending(left, after, log, data, end + 1, w)
    {
      hide *;
      ghost var p0 := s;
      end, after, exited, w, left := pos, marks, false, w0, open;
      TurnStarts(cfg, s, w0, open);
      if ParsingHeader(s.state) {
        Count(cfg, 1);
        if errno != OK {
          CountFails(cfg, p0, w0, data, pos, s, log, w);
          return;
        }
      }
      end, after, exited, w, left := Dispatch(cfg, data, pos, marks, p0, w0, open);
    }

    // `http_parser_execute` on a buffer that is not empty.
    method ExecuteBuffer(cfg: Config, data: string) returns (consumed: nat)
      requires |data| + cfg.maxHeader < 0x1_0000_0000 && data != "" && errno == OK && RunInv(cfg, Going(s, log))
      modifies this
      ensures consumed <= |data| && (errno == OK ==> RunInv(cfg, Going(s, log)))
      ensures Agrees(PerByte(cfg, Going(old(s), old(log)), data), s, log, errno, consumed, |data|)
    {
      hide *;
      ghost var r0 := Going(s, log);
      var marks := Resumed(s.state);
      var pos := 0;
      ghost var open, w := Open(s.state), log;
      BufferStarts(cfg, s, log, data);
      while pos < |data|
        invariant pos <= |data| && errno == OK
        invariant Between(cfg, r0, data, pos, s, marks, log, open, w)
      {
        ghost var p0, w0, start, log0, marks0, open0 := s, w, pos, log, marks, open;
        BufferGoesOn(cfg, r0, data, pos, s, marks, log, open, w);
        var exited;
        pos, marks, exited, w, open := Turn(cfg, data, pos, marks, w, open);
        TurnJoins(cfg, r0, data, start, pos, p0, w0, marks0, log0, open0, s, errno, log, exited, w);
        if errno != OK {
          return pos;
        }
        if exited {
          return pos + 1;
        }
        BufferTurns(cfg, r0, data, pos, s, marks, log, open, w);
        pos := pos + 1;
      }
      BufferEnds(cfg, r0, data, s, marks, log, open, w);
      assert |marks| <= 1;
      log := CloseAll(marks, log, data, pos);
      return pos;
    }

    /** `http_parser_execute`. An empty buffer tells the parser that the stream has ended. */
    method Execute(cfg: Config, data: string) returns (consumed: nat)
      requires |data| + cfg.maxHeader < 0x1_0000_0000 && Valid(cfg)
      modifies this
      ensures Valid(cfg)
      ensures old(errno) != OK ==> consumed == 0 && s == old(s) && log == old(log) && errno == old(errno)
      ensures old(errno) == OK && data != "" ==>
                && consumed <= |data|
                && Agrees(PerByte(cfg, Going(old(s), old(log)), data), s, log, errno, consumed, |data|)
      ensures old(errno) == OK && data == "" ==>
                && s == old(s)
                && match AtEof(s)
                   case Next(_, acts) =>
                     && errno == OK && consumed == 0
                     && log == old(log) + (if acts == [] then [] else [Called(MessageComplete)])
                   case Exit(_, _) => false
                   case Fail(e) => errno == e && consumed == 1 && log == old(log)
                   case Broken => false
    {
      if errno != OK {
        return 0;
      }
      if data == "" {
        if s.state == BodyIdentityEof {
          log := log + [Called(MessageComplete)];
          return 0;
        }
        if s.state == Dead || s.state == StartReqOrRes || s.state == StartRes || s.state == StartReq {
          return 0;
        }
        errno := INVALID_EOF_STATE;
        return 1;
      }
      hide PerByte, RunInv;
      consumed := ExecuteBuffer(cfg, data);
    }

    /**
      However a stream is cut into buffers, calling `http_parser_execute` on each of them in turn
      leaves the parser, the callbacks and the number of consumed bytes that one call on the whole
      stream leaves.
     */
    method Feed(cfg: Config, pieces: seq<string>) returns (consumed: nat)
      requires errno == OK && Valid(cfg)
      requires forall piece <- pieces :: piece != "" && |piece| + cfg.maxHeader < 0x1_0000_0000
      modifies this
      ensures Valid(cfg)
      ensures
        var whole := PerByte(cfg, Going(old(s), old(log)), Joined(pieces));
        !whole.Exited? ==> Agrees(whole, s, log, errno, consumed, |Joined(pieces)|)
    {
      hide PerByte, RunInv, Inv, AtEof, Agrees;
      consumed := 0;
      ghost var r0 := Going(s, log);
      JoinedNothing(cfg, s, log);
      for i := 0 to |pieces|
        invariant Valid(cfg) && errno == OK && consumed == |Joined(pieces[..i])|
        invariant PerByte(cfg, r0, Joined(pieces[..i])) == Going(s, log)
                  || PerByte(cfg, r0, Joined(pieces)).Exited?
      {
        ghost var p0, w0 := s, log;
        assert pieces[i] in pieces;
        var n := Execute(cfg, pieces[i]);
        FeedJoins(cfg, r0, pieces, i, p0, w0, s, log, errno, n);
        consumed := consumed + n;
        if errno != OK || n < |pieces[i]| {
          return;
        }
      }
      assert pieces[..|pieces|] == pieces;
      GoingAgrees(cfg, r0, Joined(pieces), s, log);
    }
  }

  /**
    From `http_parser_init` over any list of buffers: no assert fails, whatever the bytes are; a
    parser that has not failed is in a state that satisfies the invariant, with its header count
    within the limit.
   */
  method Session(cfg: Config, kind: Kind, pieces: seq<string>) returns (parser: HttpParser, consumed: nat)
    requires forall piece <- pieces :: piece != "" && |piece| + cfg.maxHeader < 0x1_0000_0000
    ensures fresh(parser)
    ensures parser.errno == OK ==> Inv(cfg, parser.s) && parser.s.nread <= cfg.maxHeader
    ensures
      var whole := PerByte(cfg, Going(Init(kind), []), Joined(pieces));
      && !whole.AssertionFailure?
      && (!whole.Exited? ==> Agrees(whole, parser.s, parser.log, parser.errno, consumed, |Joined(pieces)|))
  {
    hide PerByte, Inv, Agrees, Joined;
    parser := new HttpParser(kind);
    Started(cfg, kind);
    Reachable(cfg, kind, Joined(pieces));
    consumed := parser.Feed(cfg, pieces);
    if parser.errno == OK {
      RunCounts(cfg, parser.s, parser.log);
    }
  }

  /**
    A body that lasts until the end of the stream, in any cut: all of it is delivered, and the end of
    the stream completes the message once.
   */
  method ReadToEnd(cfg: Config, parser: HttpParser, pieces: seq<string>)
    requires parser.errno == OK && parser.Valid(cfg) && parser.s.state == BodyIdentityEof
    requires forall piece <- pieces :: piece != "" && |piece| + cfg.maxHeader < 0x1_0000_0000
    requires pieces != []
    modifies parser
    ensures parser.errno == OK && parser.s == old(parser.s)
    ensures parser.log == Emit(old(parser.log), Body, Joined(pieces)) + [Called(MessageComplete)]
  {
    hide PerByte, Emit, Inv;
    var last := pieces[|pieces| - 1];
    assert last in pieces;
    ManyEofBytes(cfg, parser.s, parser.log, Joined(pieces));
    var consumed := parser.Feed(cfg, pieces);
    consumed := parser.Execute(cfg, "");
  }
}
