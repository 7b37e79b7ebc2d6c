/**
  What a run of the HTTP parser shows to its callbacks, and the reference semantics: one call of
  `http_parser_execute` per byte.
 */
module HttpTrace {
  import opened HttpStep
  import opened Text

  datatype Event = Data(field: Field, bytes: string) | Called(notice: Notice)

  type Log = seq<Event>

  // A data callback. Consecutive callbacks for the same field are one event: an application may
  // only rely on their concatenation.
  function Emit(log: Log, k: Field, bytes: string): (r: Log)
    ensures |log| <= |r|
  {
    if log != [] && log[|log| - 1].Data? && log[|log| - 1].field == k then
      log[..|log| - 1] + [Data(k, log[|log| - 1].bytes + bytes)]
    else
      log + [Data(k, bytes)]
  }

  lemma EmitTwice(log: Log, k: Field, a: string, b: string)
    ensures Emit(Emit(log, k, a), k, b) == Emit(log, k, a + b)
  {
    var once := Emit(log, k, a);
    assert once[|once| - 1].Data? && once[|once| - 1].field == k;
    if log != [] && log[|log| - 1].Data? && log[|log| - 1].field == k {
      assert (log[|log| - 1].bytes + a) + b == log[|log| - 1].bytes + (a + b);
      assert once[..|once| - 1] == log[..|log| - 1];
    } else {
      assert once[..|once| - 1] == log;
    }
  }

  predicate EndsWith(log: Log, k: Field) {
    log != [] && log[|log| - 1].Data? && log[|log| - 1].field == k
  }

  lemma EmitNothing(log: Log, k: Field)
    requires EndsWith(log, k)
    ensures Emit(log, k, "") == log
  {
    var last := log[|log| - 1];
    assert last.bytes + "" == last.bytes;
    assert log[..|log| - 1] + [last] == log;
  }

  // The five mark pointers: the fields whose mark is set, with its offset in the buffer.
  type Marks = map<Field, nat>

  ghost predicate Within(marks: Marks, pos: nat) {
    forall k <- marks :: marks[k] <= pos
  }

  // The callback for one mark, if it is set.
  function FlushMark(marks: Marks, log: Log, k: Field, data: string, end: nat): Log
    requires end <= |data| && Within(marks, end)
  {
    if k in marks then Emit(log, k, data[marks[k]..end]) else log
  }

  // Carry out one callback operation, then all those of one byte, at offset `pos`.
  function PerformOne(act: Act, marks: Marks, log: Log, data: string, pos: nat): (r: (Marks, Log))
    requires pos < |data| && Within(marks, pos)
    ensures Within(r.0, pos)
  {
    match act
    case Mark(k) => (if k in marks then marks else marks[k := pos], log)
    case Flush(k) => (marks - {k}, FlushMark(marks, log, k, data, pos))
    case FlushThis(k) => (marks - {k}, FlushMark(marks, log, k, data, pos + 1))
    case Notify(n) => (marks, log + [Called(n)])
  }

  function Perform(acts: seq<Act>, marks: Marks, log: Log, data: string, pos: nat): (r: (Marks, Log))
    requires pos < |data| && Within(marks, pos)
    ensures Within(r.0, pos) && Within(r.0, pos + 1)
    decreases |acts|
  {
    if acts == [] then (marks, log)
    else
      var r := PerformOne(acts[0], marks, log, data, pos);
      Perform(acts[1..], r.0, r.1, data, pos)
  }

  // The data callbacks after the last byte of a buffer.
  function CloseAll(marks: Marks, log: Log, data: string, end: nat): Log
    requires end <= |data| && Within(marks, end)
  {
    var a := FlushMark(marks, log, FieldName, data, end);
    var b := FlushMark(marks, a, FieldValue, data, end);
    var c := FlushMark(marks, b, Url, data, end);
    var d := FlushMark(marks, c, Body, data, end);
    FlushMark(marks, d, Status, data, end)
  }

  // The marks that a call of `http_parser_execute` starts with.
  function Resumed(s: State): (r: Marks)
    ensures Within(r, 0)
  {
    if s == HeaderField then map[FieldName := 0]
    else if s == HeaderValue then map[FieldValue := 0]
    else if UrlPart(s) then map[Url := 0]
    else if s == ResStatus then map[Status := 0]
    else map[]
  }

  datatype Run = Going(p: Parser, log: Log)
               | Exited(p: Parser, log: Log, used: nat)
               | Failed(errno: Errno)
               | AssertionFailure

  // A call with the one-byte buffer `[ch]`.
  function OneByte(cfg: Config, p: Parser, log: Log, ch: char, before: nat): Run {
    hide Perform, CloseAll, Switch;
    match Step(cfg, p, ch)
    case Next(q, acts) =>
      var (marks, l) := Perform(acts, Resumed(p.state), log, [ch], 0);
      Going(q, CloseAll(marks, l, [ch], 1))
    case Exit(q, acts) =>
      var (marks, l) := Perform(acts, Resumed(p.state), log, [ch], 0);
      Exited(q, l, before + 1)
    case Fail(e) => Failed(e)
    case Broken => AssertionFailure
  }

  // The bytes of `data`, one call each, until the parser fails or leaves the protocol.
  function PerByte(cfg: Config, r: Run, data: string): Run {
    if data == "" then r
    else
      var n := |data| - 1;
      match PerByte(cfg, r, data[..n])
      case Going(p, log) => OneByte(cfg, p, log, data[n], n)
      case Exited(p, log, used) => Exited(p, log, used)
      case Failed(e) => Failed(e)
      case AssertionFailure => AssertionFailure
  }

  function Shift(r: Run, n: nat): Run {
    match r
    case Going(_, _) => r
    case Exited(p, log, used) => Exited(p, log, used + n)
    case Failed(_) => r
    case AssertionFailure => r
  }

  lemma OneByteShift(cfg: Config, p: Parser, log: Log, ch: char, before: nat, n: nat)
    ensures OneByte(cfg, p, log, ch, before + n) == Shift(OneByte(cfg, p, log, ch, before), n)
  {
    hide Step, Perform, CloseAll;
  }

  // A stream cut in two is the stream: the second part goes on where the first part stopped.
  lemma {:induction false} PerByteConcat(cfg: Config, r: Run, a: string, b: string)
    requires r.Going?
    ensures PerByte(cfg, r, a + b)
         == var q := PerByte(cfg, r, a); if q.Going? then Shift(PerByte(cfg, q, b), |a|) else q
  {
    hide OneByte;
    if b == "" {
      assert a + b == a;
    } else {
      var n := |b| - 1;
      assert (a + b)[..|a + b| - 1] == a + b[..n];
      PerByteConcat(cfg, r, a, b[..n]);
      var q := PerByte(cfg, r, a);
      if q.Going? {
        var s := PerByte(cfg, q, b[..n]);
        if s.Going? {
          OneByteShift(cfg, s.p, s.log, b[n], n, |a|);
        }
      }
    }
  }

  lemma PerByteStops(cfg: Config, r: Run, data: string, n: nat)
    requires n <= |data|
    requires !PerByte(cfg, r, data[..n]).Going?
    ensures PerByte(cfg, r, data) == PerByte(cfg, r, data[..n])
  {
    hide OneByte;
    if n == |data| {
      assert data[..n] == data;
    } else {
      assert data[..|data| - 1][..n] == data[..n];
      PerByteStops(cfg, r, data[..|data| - 1], n);
    }
  }

  lemma PerByteNext(cfg: Config, r: Run, data: string, n: nat)
    requires n < |data|
    requires PerByte(cfg, r, data[..n]).Going?
    ensures PerByte(cfg, r, data[..n + 1])
         == var q := PerByte(cfg, r, data[..n]); OneByte(cfg, q.p, q.log, data[n], n)
  {
    hide OneByte;
    assert data[..n + 1][..n] == data[..n];
  }

  // ---- Marks and logs: the same byte inside a buffer and in a buffer of its own.

  function Open(s: State): Option<Field> {
    if s == HeaderField then Some(FieldName)
    else if s == HeaderValue then Some(FieldValue)
    else if UrlPart(s) then Some(Url)
    else if s == ResStatus then Some(Status)
    else None
  }

  // Operations that keep at most one mark set and never notify over pending data; `open` is the
  // field whose mark is set before them.
  predicate TidyOne(act: Act, open: Option<Field>) {
    match act
    case Mark(k) => open == None || open == Some(k)
    case Flush(k) => open == None || open == Some(k)
    case FlushThis(k) => open == Some(k)
    case Notify(_) => open == None
  }

  // The field whose mark is set after it.
  function LeftOne(act: Act): Option<Field> {
    match act
    case Mark(k) => Some(k)
    case Flush(_) => None
    case FlushThis(_) => None
    case Notify(_) => None
  }

  predicate Tidy(acts: seq<Act>, open: Option<Field>)
    decreases |acts|
  {
    acts == [] || (TidyOne(acts[0], open) && Tidy(acts[1..], LeftOne(acts[0])))
  }

  function Left(acts: seq<Act>, open: Option<Field>): Option<Field>
    decreases |acts|
  {
    if acts == [] then open else Left(acts[1..], LeftOne(acts[0]))
  }

  // Exactly the mark of `open` is set, and the log completed up to `end` is `whole`.
  ghost predicate Pending(open: Option<Field>, marks: Marks, log: Log, data: string, end: nat, whole: Log)
  {
    && end <= |data|
    && (open == None ==> marks == map[] && whole == log)
    && (open.Some? ==>
         && marks.Keys == {open.value}
         && marks[open.value] <= end
         && whole == Emit(log, open.value, data[marks[open.value]..end]))
  }

  lemma ClosePending(open: Option<Field>, marks: Marks, log: Log, data: string, end: nat, whole: Log)
    requires Pending(open, marks, log, data, end, whole)
    ensures Within(marks, end) && CloseAll(marks, log, data, end) == whole
  {
    if open.Some? {
      assert forall k :: k in marks <==> k == open.value;
    }
  }

  lemma PendingWithin(open: Option<Field>, marks: Marks, log: Log, data: string, end: nat, whole: Log, next: nat)
    requires Pending(open, marks, log, data, end, whole) && end <= next
    ensures Within(marks, next)
  {
  }

  lemma PendingMore(open: Option<Field>, marks: Marks, log: Log, data: string, end: nat, next: nat, whole: Log)
    requires open.Some? && Pending(open, marks, log, data, end, whole) && end <= next <= |data|
    ensures Pending(open, marks, log, data, next, Emit(whole, open.value, data[end..next]))
  {
    var m := marks[open.value];
    EmitTwice(log, open.value, data[m..end], data[end..next]);
    assert data[m..end] + data[end..next] == data[m..next];
  }

  function Grown(act: Act, open: Option<Field>, whole: Log, ch: char): Log {
    match act
    case Mark(k) => if open == None then Emit(whole, k, "") else whole
    case Flush(_) => whole
    case FlushThis(k) => Emit(whole, k, [ch])
    case Notify(n) => whole + [Called(n)]
  }

  lemma OneAct(act: Act, open: Option<Field>, marks: Marks, log: Log, data: string, pos: nat, whole: Log)
    requires TidyOne(act, open)
    requires pos < |data| && Pending(open, marks, log, data, pos, whole)
    ensures Within(marks, pos)
    ensures
      var r := PerformOne(act, marks, log, data, pos);
      Pending(LeftOne(act), r.0, r.1, data, pos, Grown(act, open, whole, data[pos]))
  {
    hide Emit;
    match act
    case Mark(k) =>
      assert data[pos..pos] == "";
    case Flush(k) =>
      assert (marks - {k}) == map[];
    case FlushThis(k) =>
      assert (marks - {k}) == map[];
      PendingMore(open, marks, log, data, pos, pos + 1, whole);
      assert data[pos..pos + 1] == [data[pos]];
    case Notify(n) =>
  }

  // Two buffers that hold the same byte at their current offsets, with the same fields pending and
  // logs that agree up to these offsets, agree after the byte.
  lemma {:induction false} SameByte(acts: seq<Act>, open: Option<Field>,
                                    marks: Marks, log: Log, data: string, pos: nat,
                                    marks': Marks, log': Log, data': string, pos': nat, whole: Log)
    requires Tidy(acts, open)
    requires pos < |data| && pos' < |data'| && data[pos] == data'[pos']
    requires Pending(open, marks, log, data, pos, whole)
    requires Pending(open, marks', log', data', pos', whole)
    ensures Within(marks, pos) && Within(marks', pos')
    ensures
      var r := Perform(acts, marks, log, data, pos);
      var r' := Perform(acts, marks', log', data', pos');
      var o := Left(acts, open);
      var w := CloseAll(r.0, r.1, data, pos + 1);
      && Pending(o, r.0, r.1, data, pos + 1, w)
      && Pending(o, r'.0, r'.1, data', pos' + 1, w)
    decreases |acts|
  {
    hide Emit, CloseAll, Grown, PerformOne, TidyOne, LeftOne;
    ClosePending(open, marks, log, data, pos, whole);
    ClosePending(open, marks', log', data', pos', whole);
    if acts == [] {
      SameEnd(open, marks, log, data, pos, marks', log', data', pos', whole);
    } else {
      OneAct(acts[0], open, marks, log, data, pos, whole);
      OneAct(acts[0], open, marks', log', data', pos', whole);
      var r := PerformOne(acts[0], marks, log, data, pos);
      var r' := PerformOne(acts[0], marks', log', data', pos');
      SameByte(acts[1..], LeftOne(acts[0]), r.0, r.1, data, pos, r'.0, r'.1, data', pos',
               Grown(acts[0], open, whole, data[pos]));
    }
  }

  lemma SameEnd(open: Option<Field>, marks: Marks, log: Log, data: string, pos: nat,
                marks': Marks, log': Log, data': string, pos': nat, whole: Log)
    requires pos < |data| && pos' < |data'| && data[pos] == data'[pos']
    requires Pending(open, marks, log, data, pos, whole)
    requires Pending(open, marks', log', data', pos', whole)
    ensures Within(marks, pos + 1)
    ensures
      var w := CloseAll(marks, log, data, pos + 1);
      && Pending(open, marks, log, data, pos + 1, w)
      && Pending(open, marks', log', data', pos' + 1, w)
  {
    hide Emit, CloseAll;
    if open == None {
      ClosePending(open, marks, log, data, pos + 1, whole);
    } else {
      PendingMore(open, marks, log, data, pos, pos + 1, whole);
      PendingMore(open, marks', log', data', pos', pos' + 1, whole);
      assert data[pos..pos + 1] == [data[pos]] == data'[pos'..pos' + 1];
      ClosePending(open, marks, log, data, pos + 1, Emit(whole, open.value, [data[pos]]));
    }
  }
}
