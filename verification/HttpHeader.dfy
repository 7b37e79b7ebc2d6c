/**
  How the parser reads a header field and the end of its line.
 */
module HttpHeader {
  import opened HttpChars
  import opened HttpStep
  import opened HttpTrace
  import opened HttpChunked
  import opened HttpRuns
  import opened HttpList
  import opened HttpName
  import opened HttpValue
  import opened Text
  import G = HttpGrammar

  lemma RoleIs(name: string)
    ensures RoleState(G.RoleOf(name), NameState(Fold(name)))
    ensures G.RoleOf(name) == G.LengthField <==> NameState(Fold(name)) == HContentLength
  {
  }

  // ---- From the name to the value.

  lemma HeaderSteps(cfg: Config, p: Parser, ch: char)
    ensures p.state == HeaderField && ch == ':' ==>
              HeaderByte(cfg, p, ch) == Next(p.(state := HeaderValueDiscardWs), [Flush(FieldName)])
    ensures p.state == HeaderValueDiscardWs && (ch == ' ' || ch == '\t') ==> HeaderByte(cfg, p, ch) == Next(p, [])
    ensures p.state == HeaderValueDiscardWs && ch == CR ==>
              HeaderByte(cfg, p, ch) == Next(p.(state := HeaderValueDiscardWsAlmostDone), [])
    ensures (p.state == HeaderValueDiscardWs || p.state == HeaderValueDiscardWsAlmostDone) && ch == LF ==>
              HeaderByte(cfg, p, ch) == Next(p.(state := HeaderValueDiscardLws), [])
    ensures p.state == HeaderValue && ch == CR ==>
              HeaderByte(cfg, p, ch) == Next(p.(state := HeaderAlmostDone), [Flush(FieldValue)])
    ensures p.state == HeaderValue && ch == LF ==>
              HeaderByte(cfg, p, ch) == Next(p.(state := HeaderValueLws), [Flush(FieldValue)])
    ensures p.state == HeaderAlmostDone && ch == LF ==> HeaderByte(cfg, p, ch) == Next(p.(state := HeaderValueLws), [])
  {
    hide ValueStart, ValueMatch, FieldStart, FieldMatch, EndOfHeaders, Framing, IsHeaderChar;
  }

  lemma HeaderGroup(s: State)
    requires s in {HeaderField, HeaderValueDiscardWs, HeaderValueDiscardWsAlmostDone, HeaderValue, HeaderAlmostDone,
                   HeaderValueLws, HeaderValueDiscardLws, HeaderFieldStart}
    ensures GroupOf(s) == GHeader
  {
  }

  lemma ColonGoes(cfg: Config, p: Parser, log: Log)
    requires p.state == HeaderField && p.nread + 1 <= cfg.maxHeader && EndsWith(log, FieldName)
    ensures Goes(cfg, p, log, ":", Counts(p, 1).(state := HeaderValueDiscardWs), log)
  {
    hide Goes, Emit, HeaderByte, GroupOf, Step, Resumed;
    HeaderSteps(cfg, Counts(p, 1), ':');
    HeaderGroup(p.state);
    HeaderStep(cfg, p, ':');
    FlushGoes(cfg, p, log, ':', Counts(p, 1).(state := HeaderValueDiscardWs), FieldName);
  }

  lemma {:induction false} BlanksGo(cfg: Config, p: Parser, log: Log, s: string)
    requires p.state == HeaderValueDiscardWs && p.nread + |s| <= cfg.maxHeader && G.Blanks(s)
    ensures Goes(cfg, p, log, s, Counts(p, |s|), log)
    decreases |s|
  {
    hide Goes, HeaderByte, GroupOf;
    if s == "" {
      GoesNowhere(cfg, p, log);
    } else {
      var n := |s| - 1;
      BlanksGo(cfg, p, log, s[..n]);
      var q := Counts(p, n);
      HeaderSteps(cfg, Counts(q, 1), s[n]);
      HeaderGroup(p.state);
      HeaderGoes(cfg, q, log, s[n], Counts(p, |s|));
      SplitLast(s);
      GoesOn(cfg, p, log, s[..n], q, log, [s[n]], Counts(p, |s|), log);
    }
  }

  // ---- The end of the line.

  // The byte behind a value.
  lemma ValueStops(cfg: Config, p: Parser, log: Log, c: char)
    requires p.state == HeaderValue && p.nread + 1 <= cfg.maxHeader && EndsWith(log, FieldValue) && (c == CR || c == LF)
    ensures Goes(cfg, p, log, [c], Counts(p, 1).(state := if c == LF then HeaderValueLws else HeaderAlmostDone), log)
  {
    hide Goes, Emit, HeaderByte, GroupOf, Step, Resumed;
    HeaderSteps(cfg, Counts(p, 1), c);
    HeaderGroup(p.state);
    HeaderStep(cfg, p, c);
    FlushGoes(cfg, p, log, c, Counts(p, 1).(state := if c == LF then HeaderValueLws else HeaderAlmostDone), FieldValue);
  }

  // A line feed that ends the line, or a carriage return in front of it.
  lemma LineByte(cfg: Config, p: Parser, log: Log, c: char)
    requires p.nread + 1 <= cfg.maxHeader
    requires (p.state == HeaderValueDiscardWs && (c == CR || c == LF))
             || ((p.state == HeaderAlmostDone || p.state == HeaderValueDiscardWsAlmostDone) && c == LF)
    ensures Goes(cfg, p, log, [c],
                 Counts(p, 1).(state := if c == CR then HeaderValueDiscardWsAlmostDone
                                        else if p.state == HeaderAlmostDone then HeaderValueLws
                                        else HeaderValueDiscardLws), log)
  {
    hide Goes, HeaderByte, GroupOf;
    HeaderSteps(cfg, Counts(p, 1), c);
    HeaderGroup(p.state);
    HeaderGoes(cfg, p, log, c,
               Counts(p, 1).(state := if c == CR then HeaderValueDiscardWsAlmostDone
                                      else if p.state == HeaderAlmostDone then HeaderValueLws else HeaderValueDiscardLws));
  }

  lemma EolIs()
    ensures G.Eol(true) == [LF] && G.Eol(false) == [CR] + [LF]
  {
  }

  lemma ValueEnds(cfg: Config, p: Parser, log: Log, bare: bool)
    requires p.state == HeaderValue && p.nread + |G.Eol(bare)| <= cfg.maxHeader && EndsWith(log, FieldValue)
    ensures Goes(cfg, p, log, G.Eol(bare), Counts(p, |G.Eol(bare)|).(state := HeaderValueLws), log)
  {
    hide Goes, Emit;
    EolIs();
    if bare {
      ValueStops(cfg, p, log, LF);
    } else {
      ValueStops(cfg, p, log, CR);
      var q := Counts(p, 1).(state := HeaderAlmostDone);
      CountsTwice(p, HeaderAlmostDone, HeaderValueLws);
      LineByte(cfg, q, log, LF);
      GoesOn(cfg, p, log, [CR], q, log, [LF], Counts(q, 1).(state := HeaderValueLws), log);
    }
  }

  lemma CountsTwice(p: Parser, s: State, t: State)
    ensures var q := Counts(p, 1).(state := s);
      Counts(q, 1).(state := t) == Counts(p, 2).(state := t) && q.nread == p.nread + 1
  {
  }

  lemma NothingEnds(cfg: Config, p: Parser, log: Log, bare: bool)
    requires p.state == HeaderValueDiscardWs && p.nread + |G.Eol(bare)| <= cfg.maxHeader
    ensures Goes(cfg, p, log, G.Eol(bare), Counts(p, |G.Eol(bare)|).(state := HeaderValueDiscardLws), log)
  {
    hide Goes, Emit;
    EolIs();
    if bare {
      LineByte(cfg, p, log, LF);
    } else {
      LineByte(cfg, p, log, CR);
      var q := Counts(p, 1).(state := HeaderValueDiscardWsAlmostDone);
      CountsTwice(p, HeaderValueDiscardWsAlmostDone, HeaderValueDiscardLws);
      LineByte(cfg, q, log, LF);
      GoesOn(cfg, p, log, [CR], q, log, [LF], Counts(q, 1).(state := HeaderValueDiscardLws), log);
    }
  }

  // The field is concluded, and the next line starts.
  function Settled(p: Parser): Parser { p.(flags := Concluded(p.hs, p.flags), state := HeaderFieldStart) }

  lemma NextLine(cfg: Config, p: Parser, ch: char)
    requires ch != ' ' && ch != '\t'
    ensures p.state == HeaderValueLws ==> HeaderByte(cfg, p, ch) == FieldStart(cfg, Settled(p), ch)
    ensures p.state == HeaderValueDiscardLws && p.hs != HContentLength ==>
              HeaderByte(cfg, p, ch) == Prefix([Mark(FieldValue), Flush(FieldValue)], FieldStart(cfg, Settled(p), ch))
    ensures p.state == HeaderFieldStart ==> HeaderByte(cfg, p, ch) == FieldStart(cfg, p, ch)
  {
    hide FieldStart, ValueStart, ValueMatch, FieldMatch, EndOfHeaders, Framing, IsHeaderChar, Concluded, Prefix;
  }

  lemma SettledCounts(p: Parser)
    ensures Settled(Counts(p, 1)) == Counts(Settled(p), 1) && Settled(p).state == HeaderFieldStart && Settled(p).nread == p.nread
  {
    hide Concluded;
  }

  lemma SameStep(cfg: Config, p: Parser, q: Parser, log: Log, ch: char)
    requires Step(cfg, p, ch) == Step(cfg, q, ch) && Resumed(p.state) == Resumed(q.state)
    ensures OneByte(cfg, p, log, ch, 0) == OneByte(cfg, q, log, ch, 0)
  {
    hide Step, Perform, CloseAll, Resumed;
  }

  // The first byte of the next line acts as at the start of a line.
  lemma LwsByte(cfg: Config, p: Parser, log: Log, ch: char)
    requires p.state == HeaderValueLws && ch != ' ' && ch != '\t' && p.nread + 1 <= cfg.maxHeader
    ensures OneByte(cfg, p, log, ch, 0) == OneByte(cfg, Settled(p), log, ch, 0)
  {
    hide *;
    SettledCounts(p);
    CountsState(p);
    CountsState(Settled(p));
    NextLine(cfg, Counts(p, 1), ch);
    NextLine(cfg, Counts(Settled(p), 1), ch);
    HeaderGroup(HeaderValueLws);
    HeaderGroup(HeaderFieldStart);
    HeaderStep(cfg, p, ch);
    HeaderStep(cfg, Settled(p), ch);
    SameStep(cfg, p, Settled(p), log, ch);
  }

  lemma CountsState(p: Parser)
    ensures Counts(p, 1).state == p.state && Counts(p, 1).hs == p.hs
  {
  }

  lemma DiscardByte(cfg: Config, p: Parser, log: Log, ch: char)
    requires p.state == HeaderValueDiscardLws && p.hs != HContentLength && ch != ' ' && ch != '\t'
    requires p.nread + 1 <= cfg.maxHeader && !EndsWith(log, FieldValue)
    ensures OneByte(cfg, p, log, ch, 0) == OneByte(cfg, Settled(p), log + [Data(FieldValue, "")], ch, 0)
  {
    hide *;
    SettledCounts(p);
    CountsState(p);
    CountsState(Settled(p));
    NextLine(cfg, Counts(p, 1), ch);
    NextLine(cfg, Counts(Settled(p), 1), ch);
    HeaderGroup(HeaderValueDiscardLws);
    HeaderGroup(HeaderFieldStart);
    HeaderStep(cfg, p, ch);
    HeaderStep(cfg, Settled(p), ch);
    EmitNew(log, FieldValue, "");
    EmptyField(cfg, p, Settled(p), log, ch, FieldValue);
  }

  // Runs that start with the same byte.
  lemma SameRun(cfg: Config, p: Parser, l: Log, q: Parser, l': Log, t: string)
    requires t != "" && OneByte(cfg, p, l, t[0], 0) == OneByte(cfg, q, l', t[0], 0)
    ensures PerByte(cfg, Going(p, l), t) == PerByte(cfg, Going(q, l'), t)
  {
    hide OneByte, PerByte;
    assert t == [t[0]] + t[1..];
    Single(cfg, p, l, t[0]);
    Single(cfg, q, l', t[0]);
    PerByteConcat(cfg, Going(p, l), [t[0]], t[1..]);
    PerByteConcat(cfg, Going(q, l'), [t[0]], t[1..]);
  }

  // ---- A whole field.

  // What the parser knows from the header fields.
  function InfoOf(p: Parser): G.Info { G.Info(p.flags, p.usesTe, p.contentLength) }

  // The parser behind a field, at the start of a line.
  predicate Headed(p: Parser, q: Parser, n: nat, i: G.Info) {
    && q == p.(nread := p.nread + n, hs := q.hs, index := q.index, flags := q.flags, usesTe := q.usesTe,
               contentLength := q.contentLength)
    && InfoOf(q) == i
  }

  lemma MeansIs(i: G.Info, h: G.Header)
    ensures
      var role := G.RoleOf(h.name);
      G.HeaderMeans(i, h)
      == G.Info(FlagsMean(role, i.flags, h.value), i.usesTe || TRANSFER_ENCODING <= Fold(h.name),
                LengthMeans(role, i.length, h.value))
  {
    hide G.RoleOf, G.Heard, G.EndsChunked, G.Any, Fold;
  }

  // The value of any field, if it is not empty.
  lemma AnyValue(cfg: Config, p: Parser, log: Log, role: G.Role, v: G.Value) returns (q: Parser)
    requires p.state == HeaderValueDiscardWs && p.nread + |G.ValueText(v)| <= cfg.maxHeader
    requires !EndsWith(log, FieldValue) && RoleState(role, p.hs) && G.ValueOk(cfg.lenient, role, v)
    requires G.ValueText(v) != "" && (role == G.LengthField ==> !p.flags.contentLength)
    ensures Goes(cfg, p, log, G.ValueText(v), q, log + [Data(FieldValue, G.ValueText(v))])
    ensures Valued(p, q, |G.ValueText(v)|, FlagsMean(role, p.flags, v), LengthMeans(role, p.contentLength, v))
    ensures v.Plain? ==> q.hs == HGeneral
  {
    hide Goes, Valued, Result, G.ListOk, G.ListText, G.FieldText;
    match role {
      case OtherField => q := PlainValue(cfg, p, log, role, v.text);
      case UpgradeField => q := PlainValue(cfg, p, log, role, v.text);
      case LengthField =>
        q := LengthValue(cfg, p, log, v.digits, v.spaces);
      case ConnectionField =>
        NoText();
        q := ListValue(cfg, p, log, Options, v.elems);
      case TransferField =>
        NoText();
        q := ListValue(cfg, p, log, Codings, v.elems);
    }
  }

  lemma NoText()
    ensures G.ListText([]) == ""
  {
  }

  // An empty value means nothing.
  lemma NoValue(lenient: bool, role: G.Role, f: Flags, length: nat, v: G.Value)
    requires G.ValueOk(lenient, role, v) && G.ValueText(v) == ""
    ensures role != G.LengthField
    ensures FlagsMean(role, f, v) == f && LengthMeans(role, length, v) == length
  {
    if v.List? && v.elems != [] {
      MembersOk(v.elems);
      ListParts(v.elems);
    }
    NoMembers(Options, f, true);
    NoMembers(Codings, f, true);
    hide Result;
  }

  lemma NoneConcluded(role: G.Role, hs: HeaderState, f: Flags)
    requires RoleState(role, hs)
    ensures Concluded(hs, f) == f
  {
  }

  // The name, its colon and the blanks behind it.
  lemma NamePart(cfg: Config, p: Parser, log: Log, h: G.Header) returns (q: Parser)
    requires p.state == HeaderFieldStart && !EndsWith(log, FieldName) && G.IsToken(h.name) && G.Blanks(h.ows)
    requires p.nread + |h.name| + 1 + |h.ows| <= cfg.maxHeader
    ensures Goes(cfg, p, log, h.name + ":" + h.ows, q, log + [Data(FieldName, h.name)])
    ensures Named(p, q, h) && RoleState(G.RoleOf(h.name), q.hs)
  {
    hide Goes, NameState, G.RoleOf, RoleState, Fold, Emit;
    var l := log + [Data(FieldName, h.name)];
    var q0 := NameRun(cfg, p, log, h.name);
    RoleIs(h.name);
    ColonGoes(cfg, q0, l);
    var q1 := Counts(q0, 1).(state := HeaderValueDiscardWs);
    GoesOn(cfg, p, log, h.name, q0, l, ":", q1, l);
    BlanksGo(cfg, q1, l, h.ows);
    q := Counts(q1, |h.ows|);
    GoesOn(cfg, p, log, h.name + ":", q1, l, h.ows, q, l);
  }

  lemma HeaderParts(h: G.Header)
    requires h.folds == []
    ensures G.HeaderText(h) == (h.name + ":" + h.ows) + G.ValueText(h.value) + G.Eol(h.bare)
  {
    hide G.ValueText, G.Eol;
  }

  // The field without the lines that go on with its value.
  function FirstLine(h: G.Header): G.Header { h.(folds := []) }

  lemma NoFoldsText()
    ensures G.FoldsText([]) == "" && G.FoldsValue([]) == ""
  {
  }

  lemma FoldParts(lenient: bool, i: G.Info, h: G.Header)
    requires G.HeaderOk(lenient, h)
    ensures G.HeaderText(h) == G.HeaderText(FirstLine(h)) + G.FoldsText(h.folds)
    ensures G.HeaderOk(lenient, FirstLine(h)) && (G.Fits(i, h) <==> G.Fits(i, FirstLine(h)))
    ensures G.HeaderMeans(i, FirstLine(h)) == G.HeaderMeans(i, h)
    ensures G.ValueText(h.value) == "" ==> h.folds == []
    ensures h.folds != [] ==> h.value.Plain?
    ensures forall k :: 0 <= k < |h.folds| ==> G.FoldOk(lenient, h.folds[k])
  {
    NoFoldsText();
    assert h.value.Plain? ==> G.ValueText(h.value) == h.value.text;
    hide G.Eol, G.FoldsText, G.FoldOk, G.IsToken, G.Blanks, G.ValueOk, G.RoleOf, G.ValueText;
    var v, e, f := G.ValueText(h.value), G.Eol(h.bare), G.FoldsText(h.folds);
    assert e + "" == e;
    ConcatAssoc(v, e, f);
    ConcatAssoc(h.ows, v + e, f);
    ConcatAssoc(":", h.ows + (v + e), f);
    ConcatAssoc(h.name, ":" + (h.ows + (v + e)), f);
  }

  // A field with a value, up to the end of its line.
  // The parser behind the name, with a value of `n` bytes and the end of the line still to come.
  predicate Named(p: Parser, q: Parser, h: G.Header) {
    q == p.(state := HeaderValueDiscardWs, nread := p.nread + |h.name| + 1 + |h.ows|, hs := q.hs, index := q.index,
            usesTe := p.usesTe || TRANSFER_ENCODING <= Fold(h.name))
  }

  lemma FullEnds(p: Parser, q1: Parser, q2: Parser, h: G.Header, q: Parser)
    requires Named(p, q1, h)
    requires Valued(q1, q2, |G.ValueText(h.value)|, FlagsMean(G.RoleOf(h.name), q1.flags, h.value),
                    LengthMeans(G.RoleOf(h.name), q1.contentLength, h.value))
    requires q == Counts(q2, |G.Eol(h.bare)|).(state := HeaderValueLws)
    requires |G.HeaderText(h)| == |h.name| + 1 + |h.ows| + |G.ValueText(h.value)| + |G.Eol(h.bare)|
    requires p.state == HeaderFieldStart
    ensures q.state == HeaderValueLws && Headed(p, Settled(q), |G.HeaderText(h)|, G.HeaderMeans(InfoOf(p), h))
    ensures q.hs == q2.hs
  {
    MeansIs(InfoOf(p), h);
    hide G.HeaderText, G.ValueText, G.Eol, Concluded, FlagsMean, LengthMeans, G.HeaderMeans, G.RoleOf, Fold;
  }

  lemma BareEnds(lenient: bool, p: Parser, q1: Parser, h: G.Header, q: Parser)
    requires Named(p, q1, h) && RoleState(G.RoleOf(h.name), q1.hs) && G.ValueText(h.value) == ""
    requires G.ValueOk(lenient, G.RoleOf(h.name), h.value)
    requires q == Counts(q1, |G.Eol(h.bare)|).(state := HeaderValueDiscardLws)
    requires |G.HeaderText(h)| == |h.name| + 1 + |h.ows| + |G.ValueText(h.value)| + |G.Eol(h.bare)|
    requires p.state == HeaderFieldStart
    ensures q.state == HeaderValueDiscardLws && q.hs != HContentLength
    ensures Headed(p, Settled(q), |G.HeaderText(h)|, G.HeaderMeans(InfoOf(p), h))
  {
    MeansIs(InfoOf(p), h);
    NoValue(lenient, G.RoleOf(h.name), p.flags, p.contentLength, h.value);
    NoneConcluded(G.RoleOf(h.name), q1.hs, p.flags);
    hide G.HeaderText, G.ValueText, G.Eol, Concluded, FlagsMean, LengthMeans, G.HeaderMeans, G.RoleOf, Fold, G.ValueOk;
  }

  lemma NamedReads(p: Parser, q: Parser, h: G.Header)
    requires Named(p, q, h)
    ensures q.state == HeaderValueDiscardWs && q.nread == p.nread + |h.name| + 1 + |h.ows| && q.flags == p.flags
  {
  }

  lemma ValuedReads(p: Parser, q: Parser, n: nat, flags: Flags, length: nat)
    requires Valued(p, q, n, flags, length)
    ensures q.state == HeaderValue && q.nread == p.nread + n
  {
    hide Concluded;
  }

  lemma FieldNeeds(lenient: bool, i: G.Info, h: G.Header)
    requires G.HeaderOk(lenient, h) && G.Fits(i, h)
    ensures G.IsToken(h.name) && G.Blanks(h.ows) && G.ValueOk(lenient, G.RoleOf(h.name), h.value)
    ensures G.RoleOf(h.name) == G.LengthField ==> !i.flags.contentLength
  {
    hide G.IsToken, G.Blanks, G.ValueOk, G.RoleOf;
  }

  lemma NotYet(log: Log, name: string)
    ensures !EndsWith(log + [Data(FieldName, name)], FieldValue)
    ensures EndsWith(log + [Data(FieldName, name)], FieldName)
  {
  }

  lemma FieldEvents(log: Log, h: G.Header)
    ensures G.WholeValue(h) == G.ValueText(h.value) + G.FoldsValue(h.folds)
    ensures h.folds == [] ==> G.WholeValue(h) == G.ValueText(h.value)
    ensures log + G.HeaderEvents(h) == log + [Data(FieldName, h.name)] + [Data(FieldValue, G.WholeValue(h))]
    ensures EndsWith(log + G.HeaderEvents(h), FieldValue)
  {
    NoFoldsText();
    hide G.ValueText, G.FoldsValue;
    if h.folds == [] {
      assert G.ValueText(h.value) + "" == G.ValueText(h.value);
    }
  }

  lemma InfoFlags(p: Parser)
    ensures InfoOf(p).flags == p.flags
  {
  }

  // A field with a value, up to the end of its line.
  lemma FullField(cfg: Config, p: Parser, log: Log, h: G.Header) returns (q: Parser)
    requires p.state == HeaderFieldStart && !EndsWith(log, FieldName) && p.nread + |G.HeaderText(h)| <= cfg.maxHeader
    requires G.HeaderOk(cfg.lenient, h) && G.Fits(InfoOf(p), h) && G.ValueText(h.value) != "" && h.folds == []
    ensures Goes(cfg, p, log, G.HeaderText(h), q, log + G.HeaderEvents(h)) && q.state == HeaderValueLws
    ensures Headed(p, Settled(q), |G.HeaderText(h)|, G.HeaderMeans(InfoOf(p), h))
    ensures h.value.Plain? ==> q.hs == HGeneral
  {
    hide *;
    HeaderParts(h);
    FieldNeeds(cfg.lenient, InfoOf(p), h);
    InfoFlags(p);
    var v, l, e, role := G.ValueText(h.value), log + [Data(FieldName, h.name)], G.Eol(h.bare), G.RoleOf(h.name);
    NotYet(log, h.name);
    FieldEvents(log, h);
    var q1 := NamePart(cfg, p, log, h);
    NamedReads(p, q1, h);
    var q2 := AnyValue(cfg, q1, l, role, h.value);
    ValuedReads(q1, q2, |v|, FlagsMean(role, q1.flags, h.value), LengthMeans(role, q1.contentLength, h.value));
    GoesOn(cfg, p, log, h.name + ":" + h.ows, q1, l, v, q2, log + G.HeaderEvents(h));
    ValueEnds(cfg, q2, log + G.HeaderEvents(h), h.bare);
    q := Counts(q2, |e|).(state := HeaderValueLws);
    FullEnds(p, q1, q2, h, q);
    GoesOn(cfg, p, log, h.name + ":" + h.ows + v, q2, log + G.HeaderEvents(h), e, q, log + G.HeaderEvents(h));
  }

  // A line that goes on with a plain value.
  lemma FoldStarts(cfg: Config, p: Parser, c: char)
    requires p.state == HeaderValueLws && p.hs == HGeneral && (c == ' ' || c == '\t')
    ensures HeaderByte(cfg, Counts(p, 1), c) == Next(Continued(p, 1), [Mark(FieldValue)])
  {
    hide FieldStart, ValueMatch, FieldMatch, EndOfHeaders, Framing, IsHeaderChar, LowerBit;
  }

  // The parser inside such a line, behind `n` bytes of it.
  function Continued(p: Parser, n: nat): Parser { Counts(p, n).(state := HeaderValue, index := 0) }

  lemma ContinuedIs(p: Parser, n: nat)
    requires p.state == HeaderValueLws && p.hs == HGeneral && n > 0
    ensures
      var q := Continued(p, 1);
      && q.state == HeaderValue && q.nread == p.nread + 1 && MatcherOf(q).hs == HGeneral
      && With(Counts(q, n - 1), MatcherOf(q)) == Continued(p, n)
    ensures Continued(p, n).state == HeaderValue && Continued(p, n).nread == p.nread + n
  {
  }

  lemma FoldFirst(cfg: Config, p: Parser, log: Log, t: string, c: char)
    requires p.state == HeaderValueLws && p.hs == HGeneral && p.nread + 1 <= cfg.maxHeader && (c == ' ' || c == '\t')
    ensures Goes(cfg, p, log + [Data(FieldValue, t)], [c], Continued(p, 1), log + [Data(FieldValue, t + [c])])
  {
    hide *;
    FoldStarts(cfg, p, c);
    HeaderGroup(HeaderValueLws);
    HeaderStep(cfg, p, c);
    EmitMore(log, FieldValue, t, [c]);
    MarkGoes(cfg, p, log + [Data(FieldValue, t)], c, Continued(p, 1), FieldValue);
  }

  lemma FoldText(cfg: Config, p: Parser, log: Log, t: string, s: string)
    requires p.state == HeaderValueLws && p.hs == HGeneral && p.nread + |s| <= cfg.maxHeader
    requires s != "" && (s[0] == ' ' || s[0] == '\t') && G.FieldText(cfg.lenient, s[1..])
    ensures Goes(cfg, p, log + [Data(FieldValue, t)], s, Continued(p, |s|), log + [Data(FieldValue, t + s)])
  {
    hide *;
    var c, rest, q := s[0], s[1..], Continued(p, 1);
    assert s == [c] + rest;
    assert t + [c] + rest == t + s;
    ContinuedIs(p, |s|);
    FoldFirst(cfg, p, log, t, c);
    DeafStays(MatcherOf(q), rest);
    ValueRun(cfg, q, log, t + [c], rest);
    GoesOn(cfg, p, log + [Data(FieldValue, t)], [c], q, log + [Data(FieldValue, t + [c])], rest, Continued(p, |s|),
           log + [Data(FieldValue, t + s)]);
  }

  lemma FoldRun(cfg: Config, p: Parser, log: Log, t: string, f: G.Extra)
    requires p.state == HeaderValueLws && p.hs == HGeneral && p.nread + |f.text| + |G.Eol(f.bare)| <= cfg.maxHeader
    requires G.FoldOk(cfg.lenient, f)
    ensures Goes(cfg, p, log + [Data(FieldValue, t)], f.text + G.Eol(f.bare), Folded(p, |f.text| + |G.Eol(f.bare)|),
                 log + [Data(FieldValue, t + f.text)])
  {
    var s, n, e := f.text, |f.text|, G.Eol(f.bare);
    assert G.FieldText(cfg.lenient, s[1..]);
    hide *;
    var l := log + [Data(FieldValue, t + s)];
    FoldText(cfg, p, log, t, s);
    ContinuedIs(p, n);
    EmitMore(log, FieldValue, t + s, "");
    ValueEnds(cfg, Continued(p, n), l, f.bare);
    FoldedIs(p, n, |e|);
    GoesOn(cfg, p, log + [Data(FieldValue, t)], s, Continued(p, n), l, e, Folded(p, n + |e|), l);
  }

  // The parser behind such lines.
  function Folded(p: Parser, n: nat): Parser { Counts(p, n).(index := 0) }

  lemma FoldedIs(p: Parser, n: nat, k: nat)
    requires p.state == HeaderValueLws
    ensures Counts(Continued(p, n), k).(state := HeaderValueLws) == Folded(p, n + k)
    ensures Folded(Folded(p, n), k) == Folded(p, n + k) && Folded(p, n).nread == p.nread + n
    ensures Folded(p, n).state == p.state && Folded(p, n).hs == p.hs
  {
  }

  lemma FoldsFirst(fs: seq<G.Extra>)
    requires fs != []
    ensures G.FoldsText(fs) == (fs[0].text + G.Eol(fs[0].bare)) + G.FoldsText(fs[1..])
    ensures |G.FoldsText(fs)| == |fs[0].text| + |G.Eol(fs[0].bare)| + |G.FoldsText(fs[1..])|
    ensures G.FoldsValue(fs) == fs[0].text + G.FoldsValue(fs[1..])
  {
    hide G.Eol;
  }

  lemma {:induction false} FoldsRun(cfg: Config, p: Parser, log: Log, t: string, fs: seq<G.Extra>) returns (q: Parser)
    requires p.state == HeaderValueLws && p.hs == HGeneral && p.nread + |G.FoldsText(fs)| <= cfg.maxHeader
    requires forall k :: 0 <= k < |fs| ==> G.FoldOk(cfg.lenient, fs[k])
    ensures Goes(cfg, p, log + [Data(FieldValue, t)], G.FoldsText(fs), q, log + [Data(FieldValue, t + G.FoldsValue(fs))])
    ensures q == p || q == Folded(p, |G.FoldsText(fs)|)
    ensures q.nread == p.nread + |G.FoldsText(fs)|
    decreases |fs|
  {
    hide Goes, G.FoldOk, Folded, Counts;
    if fs == [] {
      q := p;
      GoesNowhere(cfg, p, log + [Data(FieldValue, t)]);
      assert t + "" == t;
    } else {
      hide G.FoldsText, G.FoldsValue;
      FoldsFirst(fs);
      var n, k := |fs[0].text| + |G.Eol(fs[0].bare)|, |G.FoldsText(fs[1..])|;
      FoldRun(cfg, p, log, t, fs[0]);
      FoldedIs(p, n, k);
      var q1 := Folded(p, n);
      FoldedIs(p, n, 0);
      q := FoldsRun(cfg, q1, log, t + fs[0].text, fs[1..]);
      assert t + fs[0].text + G.FoldsValue(fs[1..]) == t + G.FoldsValue(fs);
      GoesOn(cfg, p, log + [Data(FieldValue, t)], fs[0].text + G.Eol(fs[0].bare), q1,
             log + [Data(FieldValue, t + fs[0].text)], G.FoldsText(fs[1..]), q, log + [Data(FieldValue, t + G.FoldsValue(fs))]);
    }
  }

  lemma FoldedHeaded(p: Parser, q1: Parser, q: Parser, n: nat, k: nat, i: G.Info)
    requires Headed(p, Settled(q1), n, i) && q1.hs == HGeneral && q1.state == HeaderValueLws
    requires (q == q1 || q == Folded(q1, k)) && q.nread == q1.nread + k
    ensures Headed(p, Settled(q), n + k, i) && q.state == HeaderValueLws
  {
  }

  // A field with a value and the lines that go on with it.
  lemma FoldedField(cfg: Config, p: Parser, log: Log, h: G.Header) returns (q: Parser)
    requires p.state == HeaderFieldStart && !EndsWith(log, FieldName) && p.nread + |G.HeaderText(h)| <= cfg.maxHeader
    requires G.HeaderOk(cfg.lenient, h) && G.Fits(InfoOf(p), h) && G.ValueText(h.value) != ""
    ensures Goes(cfg, p, log, G.HeaderText(h), q, log + G.HeaderEvents(h)) && q.state == HeaderValueLws
    ensures Headed(p, Settled(q), |G.HeaderText(h)|, G.HeaderMeans(InfoOf(p), h))
  {
    hide *;
    FoldParts(cfg.lenient, InfoOf(p), h);
    FirstLineIs(h);
    var q1 := FullField(cfg, p, log, FirstLine(h));
    q := q1;
    if h.folds != [] {
      var l, t := log + [Data(FieldName, h.name)], G.ValueText(h.value);
      FieldEvents(log, FirstLine(h));
      FieldEvents(log, h);
      HeadedReads(p, q1, |G.HeaderText(FirstLine(h))|, G.HeaderMeans(InfoOf(p), h));
      q := FoldsRun(cfg, q1, l, t, h.folds);
      FoldedHeaded(p, q1, q, |G.HeaderText(FirstLine(h))|, |G.FoldsText(h.folds)|, G.HeaderMeans(InfoOf(p), h));
      GoesOn(cfg, p, log, G.HeaderText(FirstLine(h)), q1, l + [Data(FieldValue, t)], G.FoldsText(h.folds), q,
             log + G.HeaderEvents(h));
    } else {
      NoFolds(h);
    }
  }

  lemma FirstLineIs(h: G.Header)
    ensures FirstLine(h).name == h.name && FirstLine(h).value == h.value && FirstLine(h).folds == []
  {
  }

  lemma NoFolds(h: G.Header)
    requires h.folds == []
    ensures FirstLine(h) == h
  {
  }

  lemma SettledState(p: Parser)
    ensures Settled(p).state == HeaderFieldStart
  {
  }

  lemma HeadedReads(p: Parser, q: Parser, n: nat, i: G.Info)
    requires Headed(p, Settled(q), n, i)
    ensures q.nread == p.nread + n
  {
    hide Concluded;
  }

  // A field without a value, up to the end of its line.
  lemma BareField(cfg: Config, p: Parser, log: Log, h: G.Header) returns (q: Parser)
    requires p.state == HeaderFieldStart && !EndsWith(log, FieldName) && p.nread + |G.HeaderText(h)| <= cfg.maxHeader
    requires G.HeaderOk(cfg.lenient, h) && G.Fits(InfoOf(p), h) && G.ValueText(h.value) == "" && h.folds == []
    ensures Goes(cfg, p, log, G.HeaderText(h), q, log + [Data(FieldName, h.name)]) && q.state == HeaderValueDiscardLws
    ensures Headed(p, Settled(q), |G.HeaderText(h)|, G.HeaderMeans(InfoOf(p), h)) && q.hs != HContentLength
  {
    hide *;
    HeaderParts(h);
    FieldNeeds(cfg.lenient, InfoOf(p), h);
    var l, e := log + [Data(FieldName, h.name)], G.Eol(h.bare);
    var q1 := NamePart(cfg, p, log, h);
    NamedReads(p, q1, h);
    NothingEnds(cfg, q1, l, h.bare);
    q := Counts(q1, |e|).(state := HeaderValueDiscardLws);
    assert h.name + ":" + h.ows + "" == h.name + ":" + h.ows;
    GoesOn(cfg, p, log, h.name + ":" + h.ows, q1, l, e, q, l);
    BareEnds(cfg.lenient, p, q1, h, q);
  }

  /**
    A header field in front of any text: the events are its name and its value, and what the parser
    knows afterwards is what the field means.
   */
  lemma HeaderRead(cfg: Config, p: Parser, log: Log, h: G.Header, t: string) returns (q: Parser)
    requires p.state == HeaderFieldStart && !EndsWith(log, FieldName)
    requires p.nread + |G.HeaderText(h)| + 1 <= cfg.maxHeader
    requires G.HeaderOk(cfg.lenient, h) && G.Fits(InfoOf(p), h) && t != "" && t[0] != ' ' && t[0] != '\t'
    ensures PerByte(cfg, Going(p, log), G.HeaderText(h) + t)
         == Shift(PerByte(cfg, Going(q, log + G.HeaderEvents(h)), t), |G.HeaderText(h)|)
    ensures Headed(p, q, |G.HeaderText(h)|, G.HeaderMeans(InfoOf(p), h)) && q.state == HeaderFieldStart
  {
    hide PerByte, OneByte, G.HeaderOk, G.Fits, G.ValueText, G.HeaderText, G.HeaderMeans, G.HeaderEvents, G.WholeValue, Emit,
         Concluded, Settled;
    FoldParts(cfg.lenient, InfoOf(p), h);
    var l := log + [Data(FieldName, h.name)];
    var all := log + G.HeaderEvents(h);
    FieldEvents(log, h);
    if G.ValueText(h.value) == "" {
      assert FirstLine(h) == h;
      var q1 := BareField(cfg, p, log, h);
      HeadedReads(p, q1, |G.HeaderText(h)|, G.HeaderMeans(InfoOf(p), h));
      SettledState(q1);
      q := Settled(q1);
      DiscardByte(cfg, q1, l, t[0]);
      SameRun(cfg, q1, l, q, all, t);
      PerByteConcat(cfg, Going(p, log), G.HeaderText(h), t);
    } else {
      var q1 := FoldedField(cfg, p, log, h);
      HeadedReads(p, q1, |G.HeaderText(h)|, G.HeaderMeans(InfoOf(p), h));
      SettledState(q1);
      q := Settled(q1);
      LwsByte(cfg, q1, all, t[0]);
      SameRun(cfg, q1, all, q, all, t);
      PerByteConcat(cfg, Going(p, log), G.HeaderText(h), t);
    }
  }
}
