/**
  How the parser reads the value of a header field: what it keeps of it, and what it shows.
 */
module HttpValue {
  import opened HttpChars
  import opened HttpStep
  import opened HttpTrace
  import opened HttpChunked
  import opened HttpRuns
  import opened HttpList
  import opened HttpName
  import opened Text
  import G = HttpGrammar

  // ---- Content-Length.

  lemma {:induction false} ValueGrows(digits: string, n: nat)
    requires G.Digits(digits) && 0 < n <= |digits|
    ensures G.Digits(digits[..n]) && DecimalValue(digits[..n]) <= DecimalValue(digits)
    decreases |digits| - n
  {
    DigitsPart(digits, n);
    if n == |digits| {
      assert digits[..n] == digits;
    } else {
      DigitsPart(digits, n + 1);
      assert digits[..n + 1][..n] == digits[..n];
      ValueGrows(digits, n + 1);
    }
  }

  lemma DigitsPart(digits: string, n: nat)
    requires G.Digits(digits) && 0 < n <= |digits|
    ensures G.Digits(digits[..n]) && IsDigit(digits[n - 1])
  {
    assert digits[n - 1] in digits;
    forall c | c in digits[..n] ensures IsDigit(c) {
    }
  }

  lemma NextDigit(m: Matcher, v: nat, c: char)
    requires m.hs == HContentLengthNum && IsDigit(c)
    requires v == m.contentLength * 10 + (c as int - '0' as int)
    ensures ValueMatch(m, c) == if v <= G.MAX_LENGTH then Good(m.(contentLength := v)) else Bad(INVALID_CONTENT_LENGTH)
  {
  }

  lemma {:induction false} DigitsFed(m: Matcher, digits: string, n: nat)
    requires G.Digits(digits) && 0 < n <= |digits| && DecimalValue(digits) <= G.MAX_LENGTH
    requires m.hs == HContentLengthNum && m.contentLength == digits[0] as int - '0' as int
    ensures G.Digits(digits[..n]) && Fed(m, digits[1..n]) == Good(m.(contentLength := DecimalValue(digits[..n])))
    decreases n
  {
    hide ValueMatch;
    DigitsPart(digits, n);
    assert digits[..n][..n - 1] == digits[..n - 1];
    if n == 1 {
      assert digits[..0] == "" && digits[1..1] == "";
    } else {
      DigitsFed(m, digits, n - 1);
      ValueGrows(digits, n);
      assert digits[1..n] == digits[1..n - 1] + [digits[n - 1]];
      NextDigit(m.(contentLength := DecimalValue(digits[..n - 1])), DecimalValue(digits[..n]), digits[n - 1]);
    }
  }

  lemma {:induction false} SpacesFed(m: Matcher, s: string)
    requires (m.hs == HContentLengthNum || m.hs == HContentLengthWs) && G.Spaces(s)
    ensures Fed(m, s) == Good(if s == "" then m else m.(hs := HContentLengthWs))
    decreases |s|
  {
    if s != "" {
      SpacesFed(m, s[..|s| - 1]);
    }
  }

  // The rest of a length, behind its first digit.
  lemma LengthFed(m: Matcher, digits: string, spaces: string)
    requires G.Digits(digits) && G.Spaces(spaces) && DecimalValue(digits) <= G.MAX_LENGTH
    requires m.hs == HContentLengthNum && m.contentLength == digits[0] as int - '0' as int
    ensures
      var r := Fed(m, digits[1..] + spaces);
      r == Good(m.(hs := if spaces == "" then HContentLengthNum else HContentLengthWs,
                   contentLength := DecimalValue(digits)))
  {
    hide ValueMatch, Fed, DecimalValue;
    DigitsFed(m, digits, |digits|);
    assert digits[1..|digits|] == digits[1..] && digits[..|digits|] == digits;
    FedConcat(m, digits[1..], spaces);
    SpacesFed(Fed(m, digits[1..]).m, spaces);
  }

  // ---- The bytes of a value, one call each.

  lemma TextIs(lenient: bool, c: char)
    ensures G.TextByte(lenient, c) <==> c != CR && c != LF && (lenient || IsHeaderChar(c))
  {
  }

  lemma ValueGoes(cfg: Config, p: Parser, log: Log, t: string, ch: char, m: Matcher)
    requires p.state == HeaderValue && p.nread + 1 <= cfg.maxHeader && G.TextByte(cfg.lenient, ch)
    requires ValueMatch(MatcherOf(p), ch) == Good(m)
    ensures Goes(cfg, p, log + [Data(FieldValue, t)], [ch], With(Counts(p, 1), m), log + [Data(FieldValue, t + [ch])])
  {
    TextIs(cfg.lenient, ch);
    MatchedByte(cfg, Counts(p, 1), ch, m);
    hide Goes, Emit, ValueMatch, G.TextByte, IsHeaderChar, ValueByte, HeaderByte, GroupOf, Step, Resumed;
    ValueByteIs(cfg, Counts(p, 1), ch);
    HeaderStep(cfg, p, ch);
    EmitMore(log, FieldValue, t, [ch]);
    InsideGoes(cfg, p, log + [Data(FieldValue, t)], ch, With(Counts(p, 1), m), FieldValue);
  }

  lemma MatchedByte(cfg: Config, p: Parser, ch: char, m: Matcher)
    requires ValueMatch(MatcherOf(p), ch) == Good(m) && ch != CR && ch != LF && (cfg.lenient || IsHeaderChar(ch))
    ensures ValueByte(cfg, p, ch) == Next(With(p, m), [])
  {
    hide ValueMatch, IsHeaderChar;
  }

  lemma {:induction false} ValueRun(cfg: Config, p: Parser, log: Log, t: string, s: string)
    requires p.state == HeaderValue && p.nread + |s| <= cfg.maxHeader && G.FieldText(cfg.lenient, s)
    requires Fed(MatcherOf(p), s).Good?
    ensures Goes(cfg, p, log + [Data(FieldValue, t)], s, With(Counts(p, |s|), Fed(MatcherOf(p), s).m),
                 log + [Data(FieldValue, t + s)])
    decreases |s|
  {
    hide Goes, ValueMatch, G.TextByte;
    var l := log + [Data(FieldValue, t)];
    if s == "" {
      GoesNowhere(cfg, p, l);
      assert t + s == t && With(p, MatcherOf(p)) == p && Counts(p, 0) == p;
    } else {
      var n := |s| - 1;
      ValueRun(cfg, p, log, t, s[..n]);
      var m := Fed(MatcherOf(p), s[..n]).m;
      var q := With(Counts(p, n), m);
      var m' := Fed(MatcherOf(p), s).m;
      assert MatcherOf(q) == m;
      ValueGoes(cfg, q, log, t + s[..n], s[n], m');
      SplitLast(s);
      assert t + s[..n] + [s[n]] == t + s;
      assert With(Counts(q, 1), m') == With(Counts(p, |s|), m');
      GoesOn(cfg, p, l, s[..n], q, log + [Data(FieldValue, t + s[..n])], [s[n]], With(Counts(q, 1), m'),
             log + [Data(FieldValue, t + s)]);
    }
  }

  // The first byte of a value that is not empty.
  lemma FirstGoes(cfg: Config, p: Parser, log: Log, ch: char, q: Parser)
    requires p.state == HeaderValueDiscardWs && p.nread + 1 <= cfg.maxHeader && !EndsWith(log, FieldValue)
    requires ch != ' ' && ch != '\t' && ch != CR && ch != LF
    requires ValueStart(Counts(p, 1), ch) == Next(q, [Mark(FieldValue)])
    ensures Goes(cfg, p, log, [ch], q, log + [Data(FieldValue, [ch])])
  {
    hide Goes, Emit, ValueStart, HeaderByte, GroupOf, Step, Resumed;
    DiscardIs(cfg, Counts(p, 1), ch);
    HeaderStep(cfg, p, ch);
    EmitNew(log, FieldValue, [ch]);
    MarkGoes(cfg, p, log, ch, q, FieldValue);
  }

  // A value from its first byte on.
  lemma WholeValue(cfg: Config, p: Parser, log: Log, s: string, q: Parser)
    requires p.state == HeaderValueDiscardWs && s != "" && p.nread + |s| <= cfg.maxHeader
    requires !EndsWith(log, FieldValue)
    requires s[0] != ' ' && s[0] != '\t' && s[0] != CR && s[0] != LF && G.FieldText(cfg.lenient, s[1..])
    requires ValueStart(Counts(p, 1), s[0]) == Next(q, [Mark(FieldValue)]) && q.state == HeaderValue
    requires q.nread == p.nread + 1 && Fed(MatcherOf(q), s[1..]).Good?
    ensures Goes(cfg, p, log, s, With(Counts(q, |s| - 1), Fed(MatcherOf(q), s[1..]).m), log + [Data(FieldValue, s)])
  {
    hide Goes, ValueMatch, ValueStart, Fed;
    FirstGoes(cfg, p, log, s[0], q);
    ValueRun(cfg, q, log, [s[0]], s[1..]);
    assert s == [s[0]] + s[1..];
    GoesOn(cfg, p, log, [s[0]], q, log + [Data(FieldValue, [s[0]])], s[1..],
           With(Counts(q, |s| - 1), Fed(MatcherOf(q), s[1..]).m), log + [Data(FieldValue, s)]);
  }

  // ---- The known fields.

  // The header state in which the value of a field starts.
  predicate RoleState(role: G.Role, hs: HeaderState) {
    match role
    case ConnectionField => hs == HConnection
    case LengthField => hs == HContentLength
    case TransferField => hs == HTransferEncoding
    case UpgradeField => hs == HUpgrade
    case OtherField =>
      hs !in {HUpgrade, HTransferEncoding, HMatchingTeTokenStart, HContentLength, HContentLengthWs, HConnection,
              HMatchingConnTokenStart, HConnKeepAlive, HConnClose, HConnUpgrade, HTeChunked}
  }

  // What a value adds.
  function FlagsMean(role: G.Role, f: Flags, v: G.Value): Flags {
    match (role, v)
    case (ConnectionField, List(elems)) => Result(Options, f, elems, true)
    case (TransferField, List(elems)) => Result(Codings, f, elems, true)
    case (LengthField, Length(_, _)) => f.(contentLength := true)
    case (UpgradeField, Plain(text)) => f.(upgrade := f.upgrade || text != "")
    case _ => f
  }

  function LengthMeans(role: G.Role, length: nat, v: G.Value): nat {
    if role == G.LengthField && v.Length? then G.Number(v.digits) else length
  }

  // The parser behind a value of `n` bytes.
  predicate Valued(p: Parser, q: Parser, n: nat, flags: Flags, length: nat) {
    && q == p.(state := HeaderValue, nread := p.nread + n, hs := q.hs, index := q.index, flags := q.flags,
               contentLength := length)
    && Concluded(q.hs, q.flags) == flags
  }

  lemma PlainStarts(p: Parser, role: G.Role, c: char)
    requires role == G.OtherField || role == G.UpgradeField
    requires RoleState(role, p.hs)
    ensures ValueStart(Counts(p, 1), c) == Next(PlainParser(p, role, 0), [Mark(FieldValue)])
  {
    hide LowerBit;
  }

  lemma PlainText(lenient: bool, role: G.Role, s: string)
    requires role == G.OtherField || role == G.UpgradeField
    requires G.ValueOk(lenient, role, G.Plain(s)) && s != ""
    ensures s[0] != ' ' && s[0] != '\t' && s[0] != CR && s[0] != LF && G.FieldText(lenient, s[1..])
  {
    assert G.TextByte(lenient, s[0]);
  }

  // The parser behind the first byte of such a value, and `n` bytes later.
  function PlainParser(p: Parser, role: G.Role, n: nat): Parser {
    Counts(p, 1 + n).(state := HeaderValue, index := 0, hs := HGeneral,
                      flags := if role == G.UpgradeField then p.flags.(upgrade := true) else p.flags)
  }

  lemma PlainFacts(p: Parser, role: G.Role, s: string)
    requires (role == G.OtherField || role == G.UpgradeField) && s != ""
    ensures
      var q := PlainParser(p, role, 0);
      && q.state == HeaderValue && q.nread == p.nread + 1 && MatcherOf(q).hs == HGeneral
      && With(Counts(q, |s| - 1), MatcherOf(q)) == PlainParser(p, role, |s| - 1)
      && PlainParser(p, role, |s| - 1).hs == HGeneral
      && Valued(p, PlainParser(p, role, |s| - 1), |s|, FlagsMean(role, p.flags, G.Plain(s)), p.contentLength)
  {
    hide Result;
  }

  lemma PlainValue(cfg: Config, p: Parser, log: Log, role: G.Role, s: string) returns (q: Parser)
    requires p.state == HeaderValueDiscardWs && p.nread + |s| <= cfg.maxHeader && !EndsWith(log, FieldValue)
    requires role == G.OtherField || role == G.UpgradeField
    requires RoleState(role, p.hs) && G.ValueOk(cfg.lenient, role, G.Plain(s)) && s != ""
    ensures Goes(cfg, p, log, s, q, log + [Data(FieldValue, s)])
    ensures Valued(p, q, |s|, FlagsMean(role, p.flags, G.Plain(s)), p.contentLength) && q.hs == HGeneral
  {
    hide *;
    PlainText(cfg.lenient, role, s);
    CountsKeeps(p);
    PlainStarts(p, role, s[0]);
    PlainFacts(p, role, s);
    q := PlainParser(p, role, 0);
    DeafStays(MatcherOf(q), s[1..]);
    WholeValue(cfg, p, log, s, q);
    q := PlainParser(p, role, |s| - 1);
  }

  // The parser behind a length, with its value so far.
  function LengthParser(p: Parser, n: nat, v: nat, hs: HeaderState): Parser {
    Counts(p, n).(state := HeaderValue, index := 0, flags := p.flags.(contentLength := true), contentLength := v, hs := hs)
  }

  lemma LengthFacts(p: Parser, n: nat, d: nat, v: nat, hs: HeaderState)
    requires n > 0
    ensures
      var q := LengthParser(p, 1, d, HContentLengthNum);
      && q.state == HeaderValue && q.nread == p.nread + 1 && MatcherOf(q).hs == HContentLengthNum
      && MatcherOf(q).contentLength == d
      && With(Counts(q, n - 1), MatcherOf(q).(hs := hs, contentLength := v)) == LengthParser(p, n, v, hs)
    ensures LengthParser(p, n, v, hs).flags == p.flags.(contentLength := true)
    ensures hs == HContentLengthNum || hs == HContentLengthWs ==>
              Valued(p, LengthParser(p, n, v, hs), n, p.flags.(contentLength := true), v)
  {
  }

  lemma LengthFirst(p: Parser, digits: string, spaces: string)
    requires G.Digits(digits) && p.hs == HContentLength && !p.flags.contentLength
    ensures
      var c := digits[0];
      && (digits + spaces)[0] == c && (digits + spaces)[1..] == digits[1..] + spaces && IsDigit(c)
      && c != ' ' && c != '\t' && c != CR && c != LF
      && ValueStart(Counts(p, 1), c)
         == Next(LengthParser(p, 1, c as int - '0' as int, HContentLengthNum), [Mark(FieldValue)])
  {
    assert digits[0] in digits;
    LengthOpens(Counts(p, 1), digits[0]);
    hide ValueStart;
  }

  lemma LengthValue(cfg: Config, p: Parser, log: Log, digits: string, spaces: string) returns (q: Parser)
    requires p.state == HeaderValueDiscardWs && p.nread + |digits| + |spaces| <= cfg.maxHeader
    requires !EndsWith(log, FieldValue) && p.hs == HContentLength && !p.flags.contentLength
    requires G.Digits(digits) && G.Spaces(spaces) && DecimalValue(digits) <= G.MAX_LENGTH
    ensures Goes(cfg, p, log, digits + spaces, q, log + [Data(FieldValue, digits + spaces)])
    ensures Valued(p, q, |digits| + |spaces|, p.flags.(contentLength := true), DecimalValue(digits))
    ensures q.flags == p.flags.(contentLength := true)
  {
    hide Goes, ValueStart, Fed, DecimalValue, G.Spaces, Emit, Valued, LengthParser, Counts, With, G.FieldText, EndsWith;
    var s, n := digits + spaces, |digits| + |spaces|;
    LengthFirst(p, digits, spaces);
    LengthText(cfg.lenient, digits, spaces);
    var d := digits[0] as int - '0' as int;
    var hs := if spaces == "" then HContentLengthNum else HContentLengthWs;
    LengthFacts(p, n, d, DecimalValue(digits), hs);
    q := LengthParser(p, 1, d, HContentLengthNum);
    LengthFed(MatcherOf(q), digits, spaces);
    WholeValue(cfg, p, log, s, q);
    q := LengthParser(p, n, DecimalValue(digits), hs);
  }

  lemma LengthText(lenient: bool, digits: string, spaces: string)
    requires G.Digits(digits) && G.Spaces(spaces)
    ensures digits != "" && G.FieldText(lenient, digits[1..] + spaces)
  {
    forall i | 1 <= i < |digits| ensures IsDigit(digits[i]) {
      assert digits[i] in digits;
    }
  }

  lemma FirstMember(k: Family, p: Parser, ch: char)
    requires G.TokenByte(ch) && p.hs == (if k == Options then HConnection else HTransferEncoding)
    ensures
      var q := p.(state := HeaderValue, index := 0, hs := WordState(k, [Lower(ch)]));
      ValueStart(p, ch) == Next(q, [Mark(FieldValue)]) && InWord(k, MatcherOf(q), [Lower(ch)])
  {
    LowerBitIs(ch);
    FirstState(k, Lower(ch));
    hide LowerBit, Lower, WordState, G.TokenByte;
  }

  lemma {:induction false} ListIsText(lenient: bool, elems: seq<G.Elem>)
    requires Members(elems)
    ensures G.FieldText(lenient, G.ListText(elems))
    decreases |elems|
  {
    if elems != [] {
      ElemIsText(lenient, elems[0]);
      hide G.ElemOk, G.TextByte, G.ElemText;
      assert G.TextByte(lenient, ',') by { CommaIsText(lenient); }
      if |elems| > 1 {
        ListIsText(lenient, elems[1..]);
      }
    }
  }

  lemma CommaIsText(lenient: bool)
    ensures G.TextByte(lenient, ',')
  {
  }

  lemma ElemIsText(lenient: bool, e: G.Elem)
    requires G.ElemOk(e)
    ensures G.FieldText(lenient, G.ElemText(e))
  {
    forall i | 0 <= i < |e.word| ensures G.TextByte(lenient, e.word[i]) {
      assert G.TokenByte(e.word[i]);
    }
  }

  lemma ListValue(cfg: Config, p: Parser, log: Log, k: Family, elems: seq<G.Elem>) returns (q: Parser)
    requires p.state == HeaderValueDiscardWs && p.nread + |G.ListText(elems)| <= cfg.maxHeader
    requires !EndsWith(log, FieldValue) && p.hs == (if k == Options then HConnection else HTransferEncoding)
    requires G.ListOk(elems) && elems != []
    ensures Goes(cfg, p, log, G.ListText(elems), q, log + [Data(FieldValue, G.ListText(elems))])
    ensures Valued(p, q, |G.ListText(elems)|, Result(k, p.flags, elems, true), p.contentLength)
  {
    hide *;
    var e, s := elems[0], G.ListText(elems);
    ListStarts(cfg, p, k, elems);
    var c, rest := e.word[0], e.word[1..] + e.trail;
    q := Counts(p, 1).(state := HeaderValue, index := 0, hs := WordState(k, [Lower(c)]));
    QIs(p, q, k, c);
    var m := MatcherOf(q);
    WordAndTrail(k, m, e);
    var m1 := Fed(m, rest).m;
    RestFed(k, m1, elems, true);
    FedConcat(m, rest, Following(elems));
    FedDone(m1, Fed(m1, Following(elems)), Result(k, m1.flags, elems, true));
    WholeValue(cfg, p, log, s, q);
    var m2 := Fed(m, s[1..]).m;
    var q0 := q;
    q := With(Counts(q0, |s| - 1), m2);
    ListDone(p, q0, q, k, m, m1, m2, s, elems);
  }

  lemma FedDone(m: Matcher, r: Matching, flags: Flags)
    requires Done(m, r, flags)
    ensures r.Good?
  {
  }

  // The first member of a list starts the value.
  lemma ListStarts(cfg: Config, p: Parser, k: Family, elems: seq<G.Elem>)
    requires G.ListOk(elems) && elems != [] && p.hs == (if k == Options then HConnection else HTransferEncoding)
    ensures Members(elems) && G.ElemOk(elems[0]) && elems[0].word != ""
    ensures
      var e := elems[0];
      var c, rest, s := e.word[0], e.word[1..] + e.trail, G.ListText(elems);
      var q := Counts(p, 1).(state := HeaderValue, index := 0, hs := WordState(k, [Lower(c)]));
      && s != "" && s[0] == c && s[1..] == rest + Following(elems) && G.FieldText(cfg.lenient, s[1..])
      && c != ' ' && c != '\t' && c != CR && c != LF
      && ValueStart(Counts(p, 1), c) == Next(q, [Mark(FieldValue)]) && InWord(k, MatcherOf(q), [Lower(c)])
  {
    hide *;
    MembersOk(elems);
    FirstText(cfg.lenient, elems);
    CountsKeeps(p);
    FirstMember(k, Counts(p, 1), elems[0].word[0]);
    NoSeparator(elems[0].word[0]);
  }

  lemma CountsKeeps(p: Parser)
    ensures Counts(p, 1).hs == p.hs
  {
  }

  lemma ElemStarts(e: G.Elem, t: string)
    requires e.lead == "" && e.word != ""
    ensures
      var s := G.ElemText(e) + t;
      s != "" && s[0] == e.word[0] && s[1..] == (e.word[1..] + e.trail) + t
  {
    assert G.ElemText(e) == [e.word[0]] + (e.word[1..] + e.trail);
  }

  lemma FirstText(lenient: bool, elems: seq<G.Elem>)
    requires Members(elems) && elems != [] && elems[0].lead == "" && elems[0].word != ""
    ensures G.TokenByte(elems[0].word[0])
    ensures
      var e := elems[0];
      var c, rest, s := e.word[0], e.word[1..] + e.trail, G.ListText(elems);
      s != "" && s[0] == c && s[1..] == rest + Following(elems) && G.FieldText(lenient, s[1..])
  {
    hide *;
    ListParts(elems);
    ListIsText(lenient, elems);
    FirstToken(elems);
    ElemStarts(elems[0], Following(elems));
    TextOk(lenient, G.ListText(elems));
  }

  lemma FirstToken(elems: seq<G.Elem>)
    requires Members(elems) && elems != [] && elems[0].word != ""
    ensures G.TokenByte(elems[0].word[0])
  {
    assert G.ElemOk(elems[0]);
  }

  lemma QIs(p: Parser, q: Parser, k: Family, c: char)
    requires q == Counts(p, 1).(state := HeaderValue, index := 0, hs := WordState(k, [Lower(c)]))
    ensures q.state == HeaderValue && q.nread == p.nread + 1
    ensures q == Counts(p, 1).(state := HeaderValue, index := 0, hs := q.hs)
    ensures var m := MatcherOf(q); m == Matcher(m.hs, 0, p.flags, p.contentLength, p.usesTe)
  {
  }

  lemma TextOk(lenient: bool, s: string)
    requires G.FieldText(lenient, s) && s != ""
    ensures G.FieldText(lenient, s[1..])
  {
    hide G.TextByte;
  }

  lemma MembersOk(elems: seq<G.Elem>)
    requires G.ListOk(elems) && elems != []
    ensures Members(elems) && G.ElemOk(elems[0]) && elems[0].lead == "" && elems[0].word != ""
  {
    forall i | 0 <= i < |elems| ensures G.ElemOk(elems[i]) {
      assert elems[i] in elems;
    }
  }

  lemma ListDone(p: Parser, q0: Parser, q: Parser, k: Family, m: Matcher, m1: Matcher, m2: Matcher, s: string,
                 elems: seq<G.Elem>)
    requires s != "" && q0 == Counts(p, 1).(state := HeaderValue, index := 0, hs := q0.hs)
    requires m == Matcher(m.hs, 0, p.flags, p.contentLength, p.usesTe)
    requires m1 == m.(hs := m1.hs, index := m1.index)
    requires Done(m1, Good(m2), Result(k, m1.flags, elems, true))
    requires q == With(Counts(q0, |s| - 1), m2)
    ensures Valued(p, q, |s|, Result(k, p.flags, elems, true), p.contentLength)
  {
    hide Result, Concluded;
  }

  // ---- Exactly which lengths are accepted.

  // `n` digits and only spaces behind them.
  predicate LengthAt(v: string, n: nat) {
    0 < n <= |v| && G.Digits(v[..n]) && G.Spaces(v[n..]) && DecimalValue(v[..n]) <= G.MAX_LENGTH
  }

  // The parser inside a length.
  predicate InLength(p: Parser, v: string, n: nat) {
    && p.state == HeaderValue && LengthAt(v, n) && p.contentLength == DecimalValue(v[..n])
    && p.hs == if n == |v| then HContentLengthNum else HContentLengthWs
  }

  lemma DiscardIs(cfg: Config, p: Parser, c: char)
    requires p.state == HeaderValueDiscardWs && c != ' ' && c != '\t' && c != CR && c != LF
    ensures HeaderByte(cfg, p, c) == ValueStart(p, c) && GroupOf(p.state) == GHeader
  {
    hide ValueByte, ValueStart, FieldStart, FieldMatch, EndOfHeaders, Framing;
  }

  lemma LengthOpens(p: Parser, c: char)
    requires p.hs == HContentLength
    ensures
      var o := ValueStart(p, c);
      if IsDigit(c) && !p.flags.contentLength then
        o == Next(p.(state := HeaderValue, index := 0, flags := p.flags.(contentLength := true),
                     contentLength := c as int - '0' as int, hs := HContentLengthNum), [Mark(FieldValue)])
      else o.Fail?
  {
    hide LowerBit;
  }

  lemma LengthStarts(cfg: Config, p: Parser, log: Log, c: char)
    requires p.state == HeaderValueDiscardWs && p.hs == HContentLength && p.nread + 1 <= cfg.maxHeader
    requires c != ' ' && c != '\t' && c != CR && c != LF
    ensures
      var r := PerByte(cfg, Going(p, log), [c]);
      && (r.Going? <==> IsDigit(c) && !p.flags.contentLength)
      && (r.Going? ==> r.p.state == HeaderValue && r.p.hs == HContentLengthNum && r.p.nread == p.nread + 1
                       && r.p.contentLength == c as int - '0' as int)
      && (!r.Going? ==> r.Failed?)
  {
    LengthOpens(Counts(p, 1), c);
    Single(cfg, p, log, c);
    hide Perform, CloseAll, HeaderByte, ValueStart, GroupOf, Step, Resumed, PerByte;
    DiscardIs(cfg, Counts(p, 1), c);
    HeaderStep(cfg, p, c);
  }

  lemma LengthMatch(m: Matcher, c: char)
    requires m.hs == HContentLengthNum || m.hs == HContentLengthWs
    ensures
      var v := m.contentLength * 10 + (c as int - '0' as int);
      ValueMatch(m, c)
      == if c == ' ' then Good(m.(hs := HContentLengthWs))
         else if IsDigit(c) && m.hs == HContentLengthNum && v <= G.MAX_LENGTH then Good(m.(contentLength := v))
         else Bad(INVALID_CONTENT_LENGTH)
  {
    hide LowerBit;
  }

  lemma ValueByteIs(cfg: Config, p: Parser, c: char)
    requires p.state == HeaderValue && c != CR && c != LF
    ensures HeaderByte(cfg, p, c) == ValueByte(cfg, p, c) && GroupOf(p.state) == GHeader
  {
    hide ValueByte, ValueStart, FieldStart, FieldMatch, EndOfHeaders, Framing;
  }

  lemma LengthOutcome(cfg: Config, p: Parser, c: char)
    requires p.state == HeaderValue && (p.hs == HContentLengthNum || p.hs == HContentLengthWs) && c != CR && c != LF
    ensures
      var o := ValueByte(cfg, p, c);
      var v := p.contentLength * 10 + (c as int - '0' as int);
      if c == ' ' then o == Next(p.(hs := HContentLengthWs), [])
      else if IsDigit(c) && p.hs == HContentLengthNum && v <= G.MAX_LENGTH then o == Next(p.(contentLength := v), [])
      else o.Fail?
  {
    LengthMatch(MatcherOf(p), c);
    hide ValueMatch;
  }

  lemma LengthByte(cfg: Config, p: Parser, log: Log, c: char, before: nat)
    requires p.state == HeaderValue && (p.hs == HContentLengthNum || p.hs == HContentLengthWs)
    requires p.nread + 1 <= cfg.maxHeader && c != CR && c != LF
    ensures
      var r := OneByte(cfg, p, log, c, before);
      var v := p.contentLength * 10 + (c as int - '0' as int);
      if c == ' ' then
        r.Going? && r.p == Counts(p, 1).(hs := HContentLengthWs)
      else if IsDigit(c) && p.hs == HContentLengthNum && v <= G.MAX_LENGTH then
        r.Going? && r.p == Counts(p, 1).(contentLength := v)
      else r.Failed?
  {
    LengthOutcome(cfg, Counts(p, 1), c);
    hide Perform, CloseAll, HeaderByte, ValueByte, GroupOf, Step, Resumed;
    ValueByteIs(cfg, Counts(p, 1), c);
    HeaderStep(cfg, p, c);
  }

  lemma {:induction false} LengthRun(cfg: Config, p: Parser, log: Log, v: string) returns (n: nat)
    requires p.state == HeaderValueDiscardWs && p.hs == HContentLength && v != "" && p.nread + |v| <= cfg.maxHeader
    requires v[0] != ' ' && v[0] != '\t' && G.NoLineEnd(v)
    ensures
      var r := PerByte(cfg, Going(p, log), v);
      && (r.Going? ==> InLength(r.p, v, n) && r.p.nread == p.nread + |v| && !p.flags.contentLength)
      && (!r.Going? ==> r.Failed?)
    decreases |v|
  {
    hide OneByte, DecimalValue;
    var k := |v| - 1;
    if k == 0 {
      assert v == [v[0]];
      n := 1;
      LengthStarts(cfg, p, log, v[0]);
      if IsDigit(v[0]) {
        OneDigitValue(v);
      }
    } else {
      n := LengthRun(cfg, p, log, v[..k]);
      var r := PerByte(cfg, Going(p, log), v[..k]);
      if r.Going? {
        LengthByte(cfg, r.p, r.log, v[k], k);
        n := LengthNext(r.p, v, n);
      }
    }
  }

  lemma OneDigitValue(v: string)
    requires |v| == 1 && IsDigit(v[0])
    ensures LengthAt(v, 1) && DecimalValue(v[..1]) == v[0] as int - '0' as int
  {
    assert v[..1] == v && v[..1][..0] == "";
  }

  // One byte more, if it is accepted.
  lemma LengthNext(p: Parser, v: string, n: nat) returns (n': nat)
    requires |v| > 1 && InLength(p, v[..|v| - 1], n)
    ensures
      var c := v[|v| - 1];
      var d := p.contentLength * 10 + (c as int - '0' as int);
      && (c == ' ' ==> LengthAt(v, n') && n' < |v| && DecimalValue(v[..n']) == p.contentLength)
      && (IsDigit(c) && p.hs == HContentLengthNum && d <= G.MAX_LENGTH ==>
            LengthAt(v, n') && n' == |v| && DecimalValue(v[..n']) == d)
  {
    var k, c := |v| - 1, v[|v| - 1];
    var u := v[..k];
    assert u[..n] == v[..n] && v[n..] == u[n..] + [c];
    n' := n;
    if IsDigit(c) && p.hs == HContentLengthNum {
      n' := |v|;
      assert v[..|v|] == v && v[..|v|][..k] == u && u[..k] == u && v == u + [c];
    }
  }

  lemma LengthBytes(v: string, n: nat)
    requires LengthAt(v, n)
    ensures forall i :: 0 <= i < n ==> IsDigit(v[i])
    ensures forall i :: n <= i < |v| ==> v[i] == ' '
  {
    forall i | 0 <= i < n ensures IsDigit(v[i]) {
      assert v[..n][i] in v[..n];
    }
    forall i | n <= i < |v| ensures v[i] == ' ' {
      assert v[n..][i - n] == v[i];
    }
  }

  lemma LengthUnique(v: string, n: nat, k: nat)
    requires LengthAt(v, n) && LengthAt(v, k)
    ensures n == k
  {
    LengthBytes(v, n);
    LengthBytes(v, k);
    var a := if n < |v| then v[n] else ' ';
    var b := if k < |v| then v[k] else ' ';
    hide LengthAt;
  }

  /**
    Behind an open Content-Length header a value is accepted, with the value of its decimal numeral,
    if and only if it is digits and then spaces, within the overflow guard, and the first length.
   */
  lemma LengthIsExactly(cfg: Config, p: Parser, log: Log, v: string)
    requires p.state == HeaderValueDiscardWs && p.hs == HContentLength && v != "" && p.nread + |v| <= cfg.maxHeader
    requires v[0] != ' ' && v[0] != '\t' && G.NoLineEnd(v) && !EndsWith(log, FieldValue)
    ensures
      var r := PerByte(cfg, Going(p, log), v);
      && (r.Going? <==> !p.flags.contentLength && exists n: nat :: LengthAt(v, n))
      && (r.Going? ==> forall n: nat :: LengthAt(v, n) ==> r.p.contentLength == G.Number(v[..n]))
      && (!r.Going? ==> r.Failed?)
  {
    hide PerByte, DecimalValue, G.Digits, G.Spaces, Emit;
    var k := LengthRun(cfg, p, log, v);
    var r := PerByte(cfg, Going(p, log), v);
    forall n: nat | LengthAt(v, n) && !p.flags.contentLength ensures r.Going? {
      var q := LengthValue(cfg, p, log, v[..n], v[n..]);
      assert v[..n] + v[n..] == v;
      GoesGoing(cfg, p, log, v, q, log + [Data(FieldValue, v)]);
    }
    if r.Going? {
      forall n: nat | LengthAt(v, n) ensures r.p.contentLength == G.Number(v[..n]) {
        LengthUnique(v, n, k);
      }
    }
  }

  lemma GoesGoing(cfg: Config, p: Parser, log: Log, s: string, q: Parser, l: Log)
    requires Goes(cfg, p, log, s, q, l)
    ensures PerByte(cfg, Going(p, log), s).Going?
  {
    hide PerByte;
  }
}
