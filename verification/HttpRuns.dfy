/**
  Runs of bytes in the head of a message, one call each: how they add up, and what a single byte does
  to the log when a mark is set, kept or flushed.
 */
module HttpRuns {
  import opened HttpChars
  import opened HttpStep
  import opened HttpTrace
  import opened HttpBulk
  import opened HttpChunked
  import opened Text

  // The bytes of `s` lead from one parser and log to another.
  ghost predicate Goes(cfg: Config, p: Parser, log: Log, s: string, q: Parser, l: Log) {
    PerByte(cfg, Going(p, log), s) == Going(q, l)
  }

  lemma GoesNowhere(cfg: Config, p: Parser, log: Log)
    ensures Goes(cfg, p, log, "", p, log)
  {
  }

  lemma GoesOn(cfg: Config, p: Parser, log: Log, a: string, q: Parser, l: Log, b: string, q': Parser, l': Log)
    requires Goes(cfg, p, log, a, q, l) && Goes(cfg, q, l, b, q', l')
    ensures Goes(cfg, p, log, a + b, q', l')
  {
    hide PerByte;
    Then(cfg, Going(p, log), a, Going(q, l), b, Going(q', l'));
  }

  // A byte of the head is counted.
  function Counts(p: Parser, n: nat): Parser { p.(nread := p.nread + n) }

  lemma QuietGoes(cfg: Config, p: Parser, log: Log, ch: char, q: Parser)
    requires Resumed(p.state) == map[] && Step(cfg, p, ch) == Next(q, [])
    ensures Goes(cfg, p, log, [ch], q, log)
  {
    hide Step, PerByte, OneByte;
    QuietByte(cfg, p, log, ch, 0, q);
    Single(cfg, p, log, ch);
  }

  lemma NotifyGoes(cfg: Config, p: Parser, log: Log, ch: char, q: Parser, n: Notice)
    requires Resumed(p.state) == map[] && Step(cfg, p, ch) == Next(q, [Notify(n)])
    ensures Goes(cfg, p, log, [ch], q, log + [Called(n)])
  {
    hide Step, PerByte, OneByte;
    NotifyingByte(cfg, p, log, ch, 0, q, n);
    Single(cfg, p, log, ch);
  }

  lemma MarkedEnd(log: Log, k: Field, ch: char)
    ensures CloseAll(map[k := 0], log, [ch], 1) == Emit(log, k, [ch])
  {
    hide Emit, CloseAll;
    assert [ch][0..1] == [ch];
    ClosePending(Some(k), map[k := 0], log, [ch], 1, Emit(log, k, [ch]));
  }

  lemma NothingEnd(log: Log, ch: char)
    ensures CloseAll(map[], log, [ch], 1) == log
  {
    hide Emit, CloseAll;
    ClosePending(None, map[], log, [ch], 1, log);
  }

  // The first byte of a field.
  lemma MarkGoes(cfg: Config, p: Parser, log: Log, ch: char, q: Parser, k: Field)
    requires Resumed(p.state) == map[] && Step(cfg, p, ch) == Next(q, [Mark(k)])
    ensures Goes(cfg, p, log, [ch], q, Emit(log, k, [ch]))
  {
    PerformSingle(Mark(k), map[], log, [ch], 0);
    MarkedEnd(log, k, ch);
    Single(cfg, p, log, ch);
    hide Step, Perform, CloseAll, Emit;
  }

  // A byte inside a field.
  lemma InsideGoes(cfg: Config, p: Parser, log: Log, ch: char, q: Parser, k: Field)
    requires Resumed(p.state) == map[k := 0] && Step(cfg, p, ch) == Next(q, [])
    ensures Goes(cfg, p, log, [ch], q, Emit(log, k, [ch]))
  {
    NoActs(map[k := 0], log, [ch]);
    MarkedEnd(log, k, ch);
    Single(cfg, p, log, ch);
    hide Step, Perform, CloseAll, Emit;
  }

  lemma NoActs(marks: Marks, log: Log, data: string)
    requires data != "" && Within(marks, 0)
    ensures Perform([], marks, log, data, 0) == (marks, log)
  {
  }

  // The byte behind a field.
  lemma FlushGoes(cfg: Config, p: Parser, log: Log, ch: char, q: Parser, k: Field)
    requires Resumed(p.state) == map[k := 0] && Step(cfg, p, ch) == Next(q, [Flush(k)]) && EndsWith(log, k)
    ensures Goes(cfg, p, log, [ch], q, log)
  {
    PerformSingle(Flush(k), map[k := 0], log, [ch], 0);
    FlushNothing(log, k, ch);
    NothingEnd(log, ch);
    Single(cfg, p, log, ch);
    hide Step, Perform, PerformOne, CloseAll, Emit;
  }

  lemma FlushNothing(log: Log, k: Field, ch: char)
    requires EndsWith(log, k)
    ensures PerformOne(Flush(k), map[k := 0], log, [ch], 0) == (map[], log)
  {
    EmitNothing(log, k);
    assert [ch][0..0] == "";
    assert map[k := 0] - {k} == map[];
    hide Emit;
  }

  // An empty field, in front of what the byte does otherwise.
  lemma EmptyField(cfg: Config, p: Parser, q: Parser, log: Log, ch: char, k: Field)
    requires Resumed(p.state) == map[] == Resumed(q.state)
    requires Step(cfg, p, ch) == Prefix([Mark(k), Flush(k)], Step(cfg, q, ch))
    ensures OneByte(cfg, p, log, ch, 0) == OneByte(cfg, q, Emit(log, k, ""), ch, 0)
  {
    var o := Step(cfg, q, ch);
    if o.Next? || o.Exit? {
      EmptyActs(o.acts, log, ch, k);
    }
    hide Step, Perform, CloseAll, Emit;
  }

  lemma EmptyActs(acts: seq<Act>, log: Log, ch: char, k: Field)
    ensures Perform([Mark(k), Flush(k)] + acts, map[], log, [ch], 0) == Perform(acts, map[], Emit(log, k, ""), [ch], 0)
  {
    assert [Mark(k), Flush(k)] + acts == [Mark(k)] + ([Flush(k)] + acts);
    PerformCons(Mark(k), [Flush(k)] + acts, map[], log, [ch], 0);
    assert PerformOne(Mark(k), map[], log, [ch], 0) == (map[k := 0], log);
    PerformCons(Flush(k), acts, map[k := 0], log, [ch], 0);
    assert [ch][0..0] == "";
    assert map[k := 0] - {k} == map[];
    assert PerformOne(Flush(k), map[k := 0], log, [ch], 0) == (map[], Emit(log, k, ""));
    hide Perform, PerformOne, Emit;
  }

  lemma EmitNew(log: Log, k: Field, s: string)
    requires !EndsWith(log, k)
    ensures Emit(log, k, s) == log + [Data(k, s)]
  {
  }

  lemma EmitMore(log: Log, k: Field, s: string, t: string)
    ensures Emit(log + [Data(k, s)], k, t) == log + [Data(k, s + t)]
    ensures EndsWith(log + [Data(k, s)], k)
  {
    assert (log + [Data(k, s)])[..|log|] == log;
  }

  // A text made of one byte and more.
  lemma SplitLast(s: string)
    requires s != ""
    ensures s == s[..|s| - 1] + [s[|s| - 1]]
  {
  }

  // ---- The switch, one group of states at a time.

  lemma StartStep(cfg: Config, p: Parser, ch: char)
    requires GroupOf(p.state) == GStart && p.nread + 1 <= cfg.maxHeader
    ensures Step(cfg, p, ch) == StartMessage(Counts(p, 1), ch) && Resumed(p.state) == map[]
  {
    hide StartMessage, ResponseLine, RequestLine, UrlState, HeaderByte, BodyState;
  }

  lemma ResponseStep(cfg: Config, p: Parser, ch: char)
    requires GroupOf(p.state) == GResponse && p.nread + 1 <= cfg.maxHeader
    ensures Step(cfg, p, ch) == ResponseLine(Counts(p, 1), ch)
    ensures Resumed(p.state) == if p.state == ResStatus then map[Status := 0] else map[]
  {
    hide StartMessage, ResponseLine, RequestLine, UrlState, HeaderByte, BodyState;
  }

  lemma RequestStep(cfg: Config, p: Parser, ch: char)
    requires GroupOf(p.state) == GRequest && p.nread + 1 <= cfg.maxHeader
    ensures Step(cfg, p, ch) == RequestLine(Counts(p, 1), ch) && Resumed(p.state) == map[]
  {
    hide StartMessage, ResponseLine, RequestLine, UrlState, HeaderByte, BodyState;
  }

  lemma UrlStep(cfg: Config, p: Parser, ch: char)
    requires GroupOf(p.state) == GUrl && p.nread + 1 <= cfg.maxHeader
    ensures Step(cfg, p, ch) == UrlState(Counts(p, 1), ch)
    ensures Resumed(p.state) == if p.state == ReqSpacesBeforeUrl then map[] else map[Url := 0]
  {
    hide StartMessage, ResponseLine, RequestLine, UrlState, HeaderByte, BodyState;
  }

  lemma HeaderStep(cfg: Config, p: Parser, ch: char)
    requires GroupOf(p.state) == GHeader && p.nread + 1 <= cfg.maxHeader
    ensures Step(cfg, p, ch) == HeaderByte(cfg, Counts(p, 1), ch)
    ensures Resumed(p.state) == if p.state == HeaderField then map[FieldName := 0]
                                else if p.state == HeaderValue then map[FieldValue := 0] else map[]
  {
    hide StartMessage, ResponseLine, RequestLine, UrlState, HeaderByte, BodyState;
  }

  // A quiet byte in each group.
  lemma RequestGoes(cfg: Config, p: Parser, log: Log, ch: char, q: Parser)
    requires GroupOf(p.state) == GRequest && p.nread + 1 <= cfg.maxHeader && RequestLine(Counts(p, 1), ch) == Next(q, [])
    ensures Goes(cfg, p, log, [ch], q, log)
  {
    hide *;
    RequestStep(cfg, p, ch);
    QuietGoes(cfg, p, log, ch, q);
  }

  lemma ResponseGoes(cfg: Config, p: Parser, log: Log, ch: char, q: Parser)
    requires GroupOf(p.state) == GResponse && p.state != ResStatus && p.nread + 1 <= cfg.maxHeader
    requires ResponseLine(Counts(p, 1), ch) == Next(q, [])
    ensures Goes(cfg, p, log, [ch], q, log)
  {
    hide *;
    ResponseStep(cfg, p, ch);
    QuietGoes(cfg, p, log, ch, q);
  }

  lemma HeaderGoes(cfg: Config, p: Parser, log: Log, ch: char, q: Parser)
    requires GroupOf(p.state) == GHeader && p.state != HeaderField && p.state != HeaderValue && p.nread + 1 <= cfg.maxHeader
    requires HeaderByte(cfg, Counts(p, 1), ch) == Next(q, [])
    ensures Goes(cfg, p, log, [ch], q, log)
  {
    hide *;
    HeaderStep(cfg, p, ch);
    QuietGoes(cfg, p, log, ch, q);
  }

  // A byte that shows an empty field.
  lemma EmptyGoes(cfg: Config, p: Parser, log: Log, ch: char, q: Parser, k: Field)
    requires Resumed(p.state) == map[] && Step(cfg, p, ch) == Next(q, [Mark(k), Flush(k)])
    ensures Goes(cfg, p, log, [ch], q, Emit(log, k, ""))
  {
    EmptyActs([], log, ch, k);
    assert [Mark(k), Flush(k)] + [] == [Mark(k), Flush(k)];
    NoActs(map[], Emit(log, k, ""), [ch]);
    NothingEnd(Emit(log, k, ""), ch);
    Single(cfg, p, log, ch);
    hide Step, Perform, CloseAll, Emit;
  }
}
