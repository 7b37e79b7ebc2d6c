/**
  The chunked transfer coding, section 4.1 of RFC 7230: what `http_parser_execute` makes of the
  encoding of a list of chunks.
 */
module HttpChunked {
  import opened HttpChars
  import opened HttpStep
  import opened HttpTrace
  import opened HttpInvariant
  import opened HttpBulk
  import opened HttpExecute
  import opened Text

  // A chunk on the wire: its size in hexadecimal, an extension that is skipped, and its data.
  datatype Chunk = Chunk(digits: string, ext: string, data: string)

  const CRLF := "\r\n"

  // A byte that the size line takes as a digit: `unhex` gives it a value.
  predicate Reads(c: char) { Unhex(c) != -1 }

  predicate SizeBytes(s: string) { forall i :: 0 <= i < |s| ==> Reads(s[i]) }

  // The size that the parser computes from such bytes.
  function SizeValue(digits: string): nat
    requires SizeBytes(digits)
  {
    if digits == "" then 0
    else SizeValue(digits[..|digits| - 1]) * 16 + Unhex(digits[|digits| - 1])
  }

  // The largest size that `s_chunk_size` accepts.
  const MAX_SIZE: nat := 0xFFFF_FFFF_FFFF_FFEF

  predicate SizeLine(cfg: Config, digits: string, ext: string) {
    && digits != "" && SizeBytes(digits)
    && (ext != "" ==> (ext[0] == ';' || ext[0] == ' ') && CR !in ext)
    && |digits| + |ext| + 2 <= cfg.maxHeader
  }

  predicate ChunkOk(cfg: Config, c: Chunk) {
    SizeLine(cfg, c.digits, c.ext) && SizeValue(c.digits) == |c.data| && 0 < |c.data| <= MAX_SIZE
  }

  function Encode(c: Chunk): string { c.digits + c.ext + CRLF + c.data + CRLF }

  function EncodeAll(chunks: seq<Chunk>): string {
    if chunks == [] then "" else EncodeAll(chunks[..|chunks| - 1]) + Encode(chunks[|chunks| - 1])
  }

  function Content(chunks: seq<Chunk>): string {
    if chunks == [] then "" else Content(chunks[..|chunks| - 1]) + chunks[|chunks| - 1].data
  }

  function Callbacks(chunks: seq<Chunk>): Log {
    if chunks == [] then []
    else Callbacks(chunks[..|chunks| - 1])
         + [Called(ChunkHeader), Data(Body, chunks[|chunks| - 1].data), Called(ChunkComplete)]
  }

  // What `on_body` has received.
  function BodyOf(log: Log): string {
    if log == [] then ""
    else
      var last := log[|log| - 1];
      BodyOf(log[..|log| - 1]) + (if last.Data? && last.field == Body then last.bytes else "")
  }

  // ---- Single bytes that set no mark.

  lemma QuietByte(cfg: Config, p: Parser, log: Log, ch: char, before: nat, q: Parser)
    requires Resumed(p.state) == map[] && Step(cfg, p, ch) == Next(q, [])
    ensures OneByte(cfg, p, log, ch, before) == Going(q, log)
  {
    hide Step, Emit;
  }

  lemma NotifyingByte(cfg: Config, p: Parser, log: Log, ch: char, before: nat, q: Parser, n: Notice)
    requires Resumed(p.state) == map[] && Step(cfg, p, ch) == Next(q, [Notify(n)])
    ensures OneByte(cfg, p, log, ch, before) == Going(q, log + [Called(n)])
  {
    hide Step, Emit, Perform, PerformOne;
    PerformSingle(Notify(n), map[], log, [ch], 0);
    BodyNotify(log, ch, n);
  }

  // ---- The size line.

  lemma SizeDigit(c: char)
    requires Reads(c)
    ensures 0 <= Unhex(c) < 16 && c != CR
  {
  }

  function SizeRun(p: Parser, log: Log, digits: string): Run
    requires SizeBytes(digits)
  {
    if SizeValue(digits) <= MAX_SIZE
    then Going(p.(state := ChunkSize, nread := |digits|, contentLength := SizeValue(digits)), log)
    else Failed(INVALID_CONTENT_LENGTH)
  }

  /**
    The size is read without wrap-around, one digit after the other; a size above the limit is
    refused.
   */
  lemma {:induction false} ChunkSizeRead(cfg: Config, p: Parser, log: Log, digits: string)
    requires Inv(cfg, p) && p.state == ChunkSizeStart
    requires digits != "" && SizeBytes(digits) && |digits| <= cfg.maxHeader
    ensures PerByte(cfg, Going(p, log), digits) == SizeRun(p, log, digits)
    decreases |digits|
  {
    hide OneByte, Unhex, Reads, Inv, SizeRun;
    var n := |digits| - 1;
    assert digits == digits[..n] + [digits[n]];
    if n == 0 {
      FirstDigit(cfg, p, log, digits[0]);
      OneDigit(cfg, p, log, digits);
    } else {
      ChunkSizeRead(cfg, p, log, digits[..n]);
      ChunkSizeStep(cfg, p, log, digits, n);
    }
  }

  lemma SizeValueStep(digits: string, n: nat)
    requires SizeBytes(digits) && |digits| == n + 1
    ensures SizeBytes(digits[..n]) && SizeValue(digits) == SizeValue(digits[..n]) * 16 + Unhex(digits[n])
    ensures n == 0 ==> digits[..n] == "" && SizeValue(digits[..n]) == 0
  {
    hide Unhex, Reads;
  }

  lemma OneDigit(cfg: Config, p: Parser, log: Log, digits: string)
    requires |digits| == 1 && SizeBytes(digits)
    requires OneByte(cfg, p, log, digits[0], 0)
          == Going(p.(state := ChunkSize, nread := 1, contentLength := Unhex(digits[0])), log)
    ensures PerByte(cfg, Going(p, log), digits) == SizeRun(p, log, digits)
  {
    SizeValueStep(digits, 0);
    hide OneByte, Unhex, SizeValue, PerByte, SizeBytes, Reads;
    SizeDigit(digits[0]);
    assert digits == [digits[0]];
    Single(cfg, p, log, digits[0]);
  }

  lemma ChunkSizeStep(cfg: Config, p: Parser, log: Log, digits: string, n: nat)
    requires Inv(cfg, p) && p.state == ChunkSizeStart
    requires 0 < n == |digits| - 1 && SizeBytes(digits) && |digits| <= cfg.maxHeader
    requires PerByte(cfg, Going(p, log), digits[..n]) == SizeRun(p, log, digits[..n])
    ensures PerByte(cfg, Going(p, log), digits) == SizeRun(p, log, digits)
  {
    hide OneByte, Unhex, Inv, PerByte, SizeValue, SizeBytes, Reads, MethodName;
    SizeValueStep(digits, n);
    DigitFacts(cfg, p, digits, n);
    if SizeValue(digits[..n]) <= MAX_SIZE {
      var q := p.(state := ChunkSize, nread := n, contentLength := SizeValue(digits[..n]));
      NextDigit(cfg, q, log, digits[n], n);
      assert digits[..n + 1] == digits;
      PerByteNext(cfg, Going(p, log), digits, n);
    } else {
      PerByteStops(cfg, Going(p, log), digits, n);
    }
  }

  lemma DigitFacts(cfg: Config, p: Parser, digits: string, n: nat)
    requires Inv(cfg, p) && p.state == ChunkSizeStart && SizeBytes(digits) && n < |digits|
    ensures p.flags.chunked && Reads(digits[n]) && 0 <= Unhex(digits[n]) < 16
  {
    SizeDigit(digits[n]);
  }

  lemma FirstDigit(cfg: Config, p: Parser, log: Log, ch: char)
    requires Inv(cfg, p) && p.state == ChunkSizeStart && 1 <= cfg.maxHeader && Reads(ch)
    ensures OneByte(cfg, p, log, ch, 0)
         == Going(p.(state := ChunkSize, nread := 1, contentLength := Unhex(ch)), log)
  {
    SizeDigit(ch);
    hide Unhex, Reads, OneByte, MethodName;
    QuietByte(cfg, p, log, ch, 0, p.(state := ChunkSize, nread := 1, contentLength := Unhex(ch)));
  }

  lemma NextDigit(cfg: Config, p: Parser, log: Log, ch: char, before: nat)
    requires p.state == ChunkSize && p.flags.chunked && p.nread + 1 <= cfg.maxHeader && Reads(ch)
    ensures
      var v := p.contentLength * 16 + Unhex(ch);
      OneByte(cfg, p, log, ch, before)
      == if v <= MAX_SIZE then Going(p.(nread := p.nread + 1, contentLength := v), log)
         else Failed(INVALID_CONTENT_LENGTH)
  {
    SizeDigit(ch);
    hide Unhex, Reads, OneByte;
    var v := p.contentLength * 16 + Unhex(ch);
    if v <= MAX_SIZE {
      QuietByte(cfg, p, log, ch, before, p.(nread := p.nread + 1, contentLength := v));
    } else {
      FailingByte(cfg, p, log, ch, before, INVALID_CONTENT_LENGTH);
    }
  }

  lemma FailingByte(cfg: Config, p: Parser, log: Log, ch: char, before: nat, e: Errno)
    requires Step(cfg, p, ch) == Fail(e)
    ensures OneByte(cfg, p, log, ch, before) == Failed(e)
  {
    hide Step;
  }

  // ---- When the size is the hexadecimal value.

  // Every byte is a hexadecimal digit; in particular it is below 128.
  predicate HexText(s: string) { forall i :: 0 <= i < |s| ==> IsHex(s[i]) }

  lemma HexIsRead(c: char)
    ensures IsHex(c) <==> Reads(c) && c as int < 128
  {
  }

  lemma {:induction false} HexNumeralIs(s: string)
    ensures HexNumeral(s).Some? <==> HexText(s)
    ensures HexText(s) ==> SizeBytes(s) && HexNumeral(s) == Some(SizeValue(s))
  {
    if s != "" {
      var n := |s| - 1;
      HexNumeralIs(s[..n]);
      HexIsRead(s[n]);
      assert HexText(s) <==> HexText(s[..n]) && IsHex(s[n]);
    }
  }

  // A byte that is no digit ends the run; unless it is one of the three delimiters, with an error.
  lemma UnreadByte(cfg: Config, p: Parser, log: Log, ch: char, before: nat)
    requires Inv(cfg, p) && (p.state == ChunkSizeStart || p.state == ChunkSize)
    requires p.nread + 1 <= cfg.maxHeader && !Reads(ch) && ch != CR && ch != ';' && ch != ' '
    ensures OneByte(cfg, p, log, ch, before) == Failed(INVALID_CHUNK_SIZE)
  {
    hide Unhex, OneByte, MethodName;
    FailingByte(cfg, p, log, ch, before, INVALID_CHUNK_SIZE);
  }

  predicate NoDelimiter(s: string) { CR !in s && ';' !in s && ' ' !in s }

  lemma {:induction false} SizeAccepted(cfg: Config, p: Parser, log: Log, digits: string)
    requires Inv(cfg, p) && p.state == ChunkSizeStart
    requires digits != "" && NoDelimiter(digits) && |digits| <= cfg.maxHeader
    ensures PerByte(cfg, Going(p, log), digits).Going? <==> SizeBytes(digits) && SizeValue(digits) <= MAX_SIZE
    ensures !PerByte(cfg, Going(p, log), digits).Going? ==> PerByte(cfg, Going(p, log), digits).Failed?
    decreases |digits|
  {
    hide OneByte, Unhex, Inv, SizeValue, PerByte, Reads;
    var n := |digits| - 1;
    if SizeBytes(digits) {
      ChunkSizeRead(cfg, p, log, digits);
    } else if n > 0 && !SizeBytes(digits[..n]) {
      SizeAccepted(cfg, p, log, digits[..n]);
      PerByteStops(cfg, Going(p, log), digits, n);
    } else {
      assert !Reads(digits[n]);
      UnreadEnd(cfg, p, log, digits, n);
    }
  }

  lemma UnreadEnd(cfg: Config, p: Parser, log: Log, digits: string, n: nat)
    requires Inv(cfg, p) && p.state == ChunkSizeStart
    requires |digits| == n + 1 && NoDelimiter(digits) && |digits| <= cfg.maxHeader
    requires SizeBytes(digits[..n]) && !Reads(digits[n])
    ensures PerByte(cfg, Going(p, log), digits).Failed?
  {
    hide OneByte, Unhex, SizeValue, PerByte, Reads, MethodName;
    assert digits[n] in digits && digits[..n + 1] == digits;
    if n == 0 {
      assert digits == [digits[0]];
      Single(cfg, p, log, digits[0]);
      UnreadByte(cfg, p, log, digits[0], 0);
    } else {
      ChunkSizeRead(cfg, p, log, digits[..n]);
      if SizeValue(digits[..n]) <= MAX_SIZE {
        var q := p.(state := ChunkSize, nread := n, contentLength := SizeValue(digits[..n]));
        UnreadByte(cfg, q, log, digits[n], n);
        PerByteNext(cfg, Going(p, log), digits, n);
      } else {
        PerByteStops(cfg, Going(p, log), digits, n);
      }
    }
  }

  /**
    The bytes in front of the first delimiter are accepted as a chunk size with their exact
    hexadecimal value if and only if they all are hexadecimal digits, none above 127, and the value
    passes the overflow guard.
   */
  lemma SizeIsExactly(cfg: Config, p: Parser, log: Log, digits: string)
    requires Inv(cfg, p) && p.state == ChunkSizeStart
    requires digits != "" && NoDelimiter(digits) && |digits| <= cfg.maxHeader
    ensures
      var r := PerByte(cfg, Going(p, log), digits);
      && (r.Going? && HexNumeral(digits) == Some(r.p.contentLength)
          <==> HexText(digits) && (match HexNumeral(digits) case Some(v) => v <= MAX_SIZE case None => false))
      && (r.Going? ==> r.p.state == ChunkSize && r.log == log)
  {
    hide PerByte, SizeValue, HexNumeral, Inv;
    SizeAccepted(cfg, p, log, digits);
    HexNumeralIs(digits);
    if SizeBytes(digits) {
      ChunkSizeRead(cfg, p, log, digits);
    }
  }

  /** The table `unhex` leaves the bytes above 127 at 0, so they are accepted as digits. */
  lemma HighByteIsDigit(cfg: Config, p: Parser, log: Log)
    requires Inv(cfg, p) && p.state == ChunkSizeStart && cfg.maxHeader >= 2
    ensures
      var digits := ['1', 200 as char];
      var r := PerByte(cfg, Going(p, log), digits);
      HexNumeral(digits) == None && r.Going? && r.p.state == ChunkSize && r.p.contentLength == 16
  {
    var digits := ['1', 200 as char];
    hide PerByte, Inv;
    assert digits[..1] == ['1'] && digits[..1][..0] == "";
    assert SizeValue(digits[..1]) == 1;
    ChunkSizeRead(cfg, p, log, digits);
  }

  // Runs that neither fail nor leave the protocol compose.
  lemma Then(cfg: Config, r: Run, a: string, mid: Run, b: string, end: Run)
    requires r.Going? && mid.Going? && end.Going?
    requires PerByte(cfg, r, a) == mid && PerByte(cfg, mid, b) == end
    ensures PerByte(cfg, r, a + b) == end
  {
    hide PerByte;
    PerByteConcat(cfg, r, a, b);
  }

  lemma Single(cfg: Config, p: Parser, log: Log, ch: char)
    ensures PerByte(cfg, Going(p, log), [ch]) == OneByte(cfg, p, log, ch, 0)
  {
    hide OneByte;
    assert [ch][..0] == "";
  }

  lemma ExtByte(cfg: Config, p: Parser, log: Log, ch: char, before: nat)
    requires p.flags.chunked && p.nread + 1 <= cfg.maxHeader
    requires (p.state == ChunkSize && (ch == ';' || ch == ' ')) || (p.state == ChunkParameters && ch != CR)
    ensures OneByte(cfg, p, log, ch, before) == Going(p.(state := ChunkParameters, nread := p.nread + 1), log)
  {
    hide OneByte;
    QuietByte(cfg, p, log, ch, before, p.(state := ChunkParameters, nread := p.nread + 1));
  }

  lemma {:induction false} ExtensionRun(cfg: Config, p: Parser, log: Log, ext: string)
    requires p.state == ChunkSize && p.flags.chunked && p.nread + |ext| <= cfg.maxHeader
    requires ext != "" && (ext[0] == ';' || ext[0] == ' ') && CR !in ext
    ensures PerByte(cfg, Going(p, log), ext)
         == Going(p.(state := ChunkParameters, nread := p.nread + |ext|), log)
    decreases |ext|
  {
    hide OneByte;
    var n := |ext| - 1;
    if n == 0 {
      assert ext == [ext[0]];
      Single(cfg, p, log, ext[0]);
      ExtByte(cfg, p, log, ext[0], 0);
    } else {
      assert ext[..n][0] == ext[0] && ext[n] in ext;
      ExtensionRun(cfg, p, log, ext[..n]);
      ExtByte(cfg, p.(state := ChunkParameters, nread := p.nread + n), log, ext[n], n);
    }
  }

  // The parser after a size line with value `v`.
  function AfterSize(p: Parser, v: nat): Parser {
    if v == 0
    then p.(nread := 0, contentLength := 0, flags := p.flags.(trailing := true), state := HeaderFieldStart)
    else p.(nread := 0, contentLength := v, state := ChunkData)
  }

  lemma SizeCr(cfg: Config, p: Parser)
    requires (p.state == ChunkSize || p.state == ChunkParameters) && p.flags.chunked
    requires p.nread + 1 <= cfg.maxHeader
    ensures Step(cfg, p, CR) == Next(p.(state := ChunkSizeAlmostDone, nread := p.nread + 1), [])
  {
  }

  lemma SizeLf(cfg: Config, p: Parser)
    requires p.state == ChunkSizeAlmostDone && p.flags.chunked && p.nread + 1 <= cfg.maxHeader
    ensures Step(cfg, p, LF) == Next(AfterSize(p, p.contentLength), [Notify(ChunkHeader)])
  {
  }

  lemma SizeLineEnd(cfg: Config, p: Parser, log: Log)
    requires (p.state == ChunkSize || p.state == ChunkParameters) && p.flags.chunked
    requires p.nread + 2 <= cfg.maxHeader
    ensures PerByte(cfg, Going(p, log), CRLF)
         == Going(AfterSize(p, p.contentLength), log + [Called(ChunkHeader)])
  {
    hide OneByte, PerByte, Emit, Step;
    var q := p.(state := ChunkSizeAlmostDone, nread := p.nread + 1);
    SizeCr(cfg, p);
    QuietByte(cfg, p, log, CR, 0, q);
    Single(cfg, p, log, CR);
    SizeLf(cfg, q);
    NotifyingByte(cfg, q, log, LF, 0, AfterSize(p, p.contentLength), ChunkHeader);
    Single(cfg, q, log, LF);
    assert CRLF == [CR] + [LF];
    Then(cfg, Going(p, log), [CR], Going(q, log), [LF],
         Going(AfterSize(p, p.contentLength), log + [Called(ChunkHeader)]));
  }

  lemma SizeLineRun(cfg: Config, p: Parser, log: Log, digits: string, ext: string)
    requires Inv(cfg, p) && p.state == ChunkSizeStart && SizeLine(cfg, digits, ext)
    requires SizeValue(digits) <= MAX_SIZE
    ensures PerByte(cfg, Going(p, log), digits + ext + CRLF)
         == Going(AfterSize(p, SizeValue(digits)), log + [Called(ChunkHeader)])
  {
    hide PerByte, SizeValue;
    ChunkSizeRead(cfg, p, log, digits);
    var q := p.(state := ChunkSize, nread := |digits|, contentLength := SizeValue(digits));
    var end := Going(AfterSize(p, SizeValue(digits)), log + [Called(ChunkHeader)]);
    if ext == "" {
      assert digits + ext == digits;
      SizeLineEnd(cfg, q, log);
      Then(cfg, Going(p, log), digits, Going(q, log), CRLF, end);
    } else {
      ExtensionRun(cfg, q, log, ext);
      var q2 := q.(state := ChunkParameters, nread := |digits| + |ext|);
      Then(cfg, Going(p, log), digits, Going(q, log), ext, Going(q2, log));
      SizeLineEnd(cfg, q2, log);
      Then(cfg, Going(p, log), digits + ext, Going(q2, log), CRLF, end);
    }
  }

  lemma DataLf(cfg: Config, p: Parser)
    requires p.flags.chunked
    ensures Step(cfg, p.(state := ChunkDataDone), LF)
         == Next(p.(nread := 0, state := ChunkSizeStart), [Notify(ChunkComplete)])
  {
  }

  lemma DataEnd(cfg: Config, p: Parser, log: Log)
    requires Inv(cfg, p) && p.state == ChunkDataAlmostDone && p.flags.chunked
    ensures PerByte(cfg, Going(p, log), CRLF)
         == Going(p.(nread := 0, state := ChunkSizeStart), log + [Called(ChunkComplete)])
  {
    hide OneByte, PerByte, Emit, MethodName, Step, Switch, Inv, Open;
    DataLf(cfg, p);
    var q := p.(state := ChunkDataDone);
    ChunkEndByte(cfg, p, log, CR, 0);
    Single(cfg, p, log, CR);
    var end := p.(nread := 0, state := ChunkSizeStart);
    NotifyingByte(cfg, q, log, LF, 0, end, ChunkComplete);
    Single(cfg, q, log, LF);
    assert CRLF == [CR] + [LF];
    Then(cfg, Going(p, log), [CR], Going(q, log), [LF], Going(end, log + [Called(ChunkComplete)]));
  }

  lemma ChunkRun(cfg: Config, p: Parser, log: Log, c: Chunk)
    requires Inv(cfg, p) && p.state == ChunkSizeStart && ChunkOk(cfg, c)
    ensures
      var events := [Called(ChunkHeader), Data(Body, c.data), Called(ChunkComplete)];
      PerByte(cfg, Going(p, log), Encode(c)) == Going(p.(contentLength := 0), log + events)
  {
    hide PerByte, SizeValue, MethodName;
    SizeLineRun(cfg, p, log, c.digits, c.ext);
    var q := p.(contentLength := |c.data|, state := ChunkData);
    var l := log + [Called(ChunkHeader)];
    var line := c.digits + c.ext + CRLF;
    ManyBodyBytes(cfg, q, l, c.data);
    var q2 := p.(contentLength := 0, state := ChunkDataAlmostDone);
    assert Emit(l, Body, c.data) == l + [Data(Body, c.data)];
    Then(cfg, Going(p, log), line, Going(q, l), c.data, Going(q2, l + [Data(Body, c.data)]));
    DataEnd(cfg, q2, l + [Data(Body, c.data)]);
    var end := log + [Called(ChunkHeader), Data(Body, c.data), Called(ChunkComplete)];
    assert l + [Data(Body, c.data)] + [Called(ChunkComplete)] == end;
    Then(cfg, Going(p, log), line + c.data, Going(q2, l + [Data(Body, c.data)]), CRLF,
         Going(p.(contentLength := 0), end));
  }

  lemma {:induction false} ChunksRun(cfg: Config, p: Parser, log: Log, chunks: seq<Chunk>)
    requires Inv(cfg, p) && p.state == ChunkSizeStart
    requires forall c <- chunks :: ChunkOk(cfg, c)
    ensures PerByte(cfg, Going(p, log), EncodeAll(chunks))
         == Going(if chunks == [] then p else p.(contentLength := 0), log + Callbacks(chunks))
    decreases |chunks|
  {
    hide PerByte, Encode, ChunkOk, MethodName;
    if chunks == [] {
      NoBytes(cfg, Going(p, log));
      assert log + [] == log;
    } else {
      var n := |chunks| - 1;
      ChunksRun(cfg, p, log, chunks[..n]);
      var q := if n == 0 then p else p.(contentLength := 0);
      var l := log + Callbacks(chunks[..n]);
      ChunkRun(cfg, q, l, chunks[n]);
      var events := [Called(ChunkHeader), Data(Body, chunks[n].data), Called(ChunkComplete)];
      assert l + events == log + Callbacks(chunks);
      Then(cfg, Going(p, log), EncodeAll(chunks[..n]), Going(q, l), Encode(chunks[n]),
           Going(p.(contentLength := 0), l + events));
    }
  }

  lemma NoBytes(cfg: Config, r: Run)
    ensures PerByte(cfg, r, "") == r
  {
  }

  lemma TrailerCr(cfg: Config, p: Parser)
    requires p.state == HeaderFieldStart && p.nread + 1 <= cfg.maxHeader
    ensures Step(cfg, p, CR) == Next(p.(state := HeadersAlmostDone, nread := p.nread + 1), [])
  {
  }

  // The empty line after the last chunk.
  lemma BodyEnd(cfg: Config, p: Parser, log: Log)
    requires p.state == HeaderFieldStart && p.flags.trailing && !p.upgrade && p.nread + 2 <= cfg.maxHeader
    ensures
      var q := p.(nread := p.nread + 2);
      PerByte(cfg, Going(p, log), CRLF)
      == Going(q.(state := NewMessage(q)), log + [Called(ChunkComplete), Called(MessageComplete)])
  {
    TrailerCr(cfg, p);
    hide OneByte, PerByte, Emit, NewMessage, Step;
    var q := p.(state := HeadersAlmostDone, nread := p.nread + 1);
    QuietByte(cfg, p, log, CR, 0, q);
    Single(cfg, p, log, CR);
    EndByte(cfg, q, log);
    Single(cfg, q, log, LF);
    assert CRLF == [CR] + [LF];
    SameNewMessage(p.(nread := p.nread + 2), q.(nread := q.nread + 1));
    Then(cfg, Going(p, log), [CR], Going(q, log), [LF], OneByte(cfg, q, log, LF, 0));
  }

  lemma SameNewMessage(p: Parser, q: Parser)
    requires p.(state := Dead) == q.(state := Dead)
    ensures NewMessage(p) == NewMessage(q)
  {
  }

  lemma EndByte(cfg: Config, p: Parser, log: Log)
    requires p.state == HeadersAlmostDone && p.flags.trailing && !p.upgrade && p.nread + 1 <= cfg.maxHeader
    ensures
      var q := p.(nread := p.nread + 1);
      OneByte(cfg, p, log, LF, 0)
      == Going(q.(state := NewMessage(q)), log + [Called(ChunkComplete), Called(MessageComplete)])
  {
    TrailerLf(cfg, p);
    hide Emit, NewMessage, Perform, PerformOne, Step;
    var acts := [Notify(ChunkComplete)] + [Notify(MessageComplete)];
    var none: Marks := map[];
    PerformCons(Notify(ChunkComplete), [Notify(MessageComplete)], none, log, [LF], 0);
    BodyNotify(log, LF, ChunkComplete);
    PerformSingle(Notify(MessageComplete), none, log + [Called(ChunkComplete)], [LF], 0);
    BodyNotify(log + [Called(ChunkComplete)], LF, MessageComplete);
    assert log + [Called(ChunkComplete)] + [Called(MessageComplete)]
        == log + [Called(ChunkComplete), Called(MessageComplete)];
  }

  lemma TrailerLf(cfg: Config, p: Parser)
    requires p.state == HeadersAlmostDone && p.flags.trailing && !p.upgrade && p.nread + 1 <= cfg.maxHeader
    ensures
      var q := p.(nread := p.nread + 1);
      Step(cfg, p, LF) == Next(q.(state := NewMessage(q)), [Notify(ChunkComplete)] + [Notify(MessageComplete)])
  {
    hide NewMessage;
  }

  /**
    The parser, at the start of a chunked body, reads the encoding of a list of chunks and the last
    chunk: the callbacks are those of the chunks, in order, and one for the end of the message.
   */
  lemma ChunkedDecodes(cfg: Config, p: Parser, log: Log, chunks: seq<Chunk>, zeros: string, ext: string)
    requires Inv(cfg, p) && p.state == ChunkSizeStart && !p.upgrade
    requires forall c <- chunks :: ChunkOk(cfg, c)
    requires SizeLine(cfg, zeros, ext) && SizeValue(zeros) == 0
    ensures
      var r := PerByte(cfg, Going(p, log), EncodeAll(chunks) + (zeros + ext + CRLF) + CRLF);
      && r.Going?
      && r.log == log + Callbacks(chunks)
                  + [Called(ChunkHeader), Called(ChunkComplete), Called(MessageComplete)]
      && r.p.state == NewMessage(r.p) && r.p.flags.trailing
  {
    hide PerByte, SizeValue, SizeLine, NewMessage, MethodName, Callbacks, EncodeAll;
    ChunksRun(cfg, p, log, chunks);
    var q := if chunks == [] then p else p.(contentLength := 0);
    var l := log + Callbacks(chunks);
    var line := zeros + ext + CRLF;
    SizeLineRun(cfg, q, l, zeros, ext);
    var q2 := AfterSize(q, 0);
    var l2 := l + [Called(ChunkHeader)];
    Then(cfg, Going(p, log), EncodeAll(chunks), Going(q, l), line, Going(q2, l2));
    LineNeeds(cfg, zeros, ext);
    BodyEnd(cfg, q2, l2);
    var q3 := q2.(nread := 2);
    var q4 := q3.(state := NewMessage(q3));
    SameNewMessage(q3, q4);
    var l3 := l2 + [Called(ChunkComplete), Called(MessageComplete)];
    assert l3 == l + [Called(ChunkHeader), Called(ChunkComplete), Called(MessageComplete)];
    Then(cfg, Going(p, log), EncodeAll(chunks) + line, Going(q2, l2), CRLF, Going(q4, l3));
  }

  lemma LineNeeds(cfg: Config, digits: string, ext: string)
    requires SizeLine(cfg, digits, ext)
    ensures cfg.maxHeader >= 3
  {
  }

  lemma {:induction false} BodyOfCallbacks(log: Log, chunks: seq<Chunk>)
    ensures BodyOf(log + Callbacks(chunks)) == BodyOf(log) + Content(chunks)
    decreases |chunks|
  {
    hide BodyOf;
    if chunks == [] {
      assert log + [] == log;
    } else {
      var n := |chunks| - 1;
      var l := log + Callbacks(chunks[..n]);
      BodyOfCallbacks(log, chunks[..n]);
      BodyOfAppend(l, Called(ChunkHeader));
      BodyOfAppend(l + [Called(ChunkHeader)], Data(Body, chunks[n].data));
      BodyOfAppend(l + [Called(ChunkHeader)] + [Data(Body, chunks[n].data)], Called(ChunkComplete));
      assert log + Callbacks(chunks)
          == l + [Called(ChunkHeader)] + [Data(Body, chunks[n].data)] + [Called(ChunkComplete)];
    }
  }

  lemma BodyOfAppend(log: Log, e: Event)
    ensures BodyOf(log + [e]) == BodyOf(log) + (if e.Data? && e.field == Body then e.bytes else "")
  {
    assert (log + [e])[..|log|] == log;
  }

  /**
    A chunked body, cut into buffers anywhere, delivers exactly the concatenation of its chunks to
    `on_body` and completes the message.
   */
  method ReceiveChunked(cfg: Config, parser: HttpParser, pieces: seq<string>,
                        ghost chunks: seq<Chunk>, ghost zeros: string, ghost ext: string)
    returns (consumed: nat)
    requires parser.errno == OK && parser.Valid(cfg)
    requires parser.s.state == ChunkSizeStart && !parser.s.upgrade
    requires forall piece <- pieces :: piece != "" && |piece| + cfg.maxHeader < 0x1_0000_0000
    requires forall c <- chunks :: ChunkOk(cfg, c)
    requires SizeLine(cfg, zeros, ext) && SizeValue(zeros) == 0
    requires Joined(pieces) == EncodeAll(chunks) + (zeros + ext + CRLF) + CRLF
    modifies parser
    ensures parser.errno == OK && consumed == |Joined(pieces)|
    ensures BodyOf(parser.log) == BodyOf(old(parser.log)) + Content(chunks)
    ensures parser.log == old(parser.log) + Callbacks(chunks)
                          + [Called(ChunkHeader), Called(ChunkComplete), Called(MessageComplete)]
    ensures parser.s.state == NewMessage(parser.s)
  {
    hide PerByte, SizeLine, SizeValue, ChunkOk, MethodName, EncodeAll, Callbacks, NewMessage, BodyOf, Joined, Content, Inv;
    ghost var log := parser.log;
    ChunkedDecodes(cfg, parser.s, log, chunks, zeros, ext);
    consumed := parser.Feed(cfg, pieces);
    BodyOfCallbacks(log, chunks);
    ghost var l := log + Callbacks(chunks);
    BodyOfAppend(l, Called(ChunkHeader));
    BodyOfAppend(l + [Called(ChunkHeader)], Called(ChunkComplete));
    BodyOfAppend(l + [Called(ChunkHeader)] + [Called(ChunkComplete)], Called(MessageComplete));
    assert l + [Called(ChunkHeader)] + [Called(ChunkComplete)] + [Called(MessageComplete)] == parser.log;
  }
}
