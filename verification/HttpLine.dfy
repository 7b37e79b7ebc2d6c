/**
  How the parser reads the first line of a message.
 */
module HttpLine {
  import opened HttpChars
  import opened HttpStep
  import opened HttpTrace
  import opened HttpInvariant
  import opened HttpChunked
  import opened HttpRuns
  import opened Text
  import G = HttpGrammar
  import P = HttpUrlParts
  import U = HttpUrlGrammar

  // ---- The method.

  // The method that the parser takes it for after `k` letters: another one with the same beginning,
  // up to the letter that tells them apart.
  function Guess(m: Method, k: nat): Method {
    match m
    case PUT => if k < 2 then POST else PUT
    case PATCH => if k < 2 then POST else PATCH
    case PROPFIND => if k < 2 then POST else PROPFIND
    case PROPPATCH => if k < 2 then POST else if k < 5 then PROPFIND else PROPPATCH
    case PURGE => if k < 2 then POST else if k < 3 then PUT else PURGE
    case CHECKOUT => if k < 2 then CONNECT else CHECKOUT
    case COPY => if k < 3 then CONNECT else COPY
    case MOVE => if k < 2 then MKCOL else MOVE
    case MERGE => if k < 2 then MKCOL else MERGE
    case MSEARCH => if k < 2 then MKCOL else MSEARCH
    case MKACTIVITY => if k < 3 then MKCOL else MKACTIVITY
    case MKCALENDAR => if k < 4 then MKCOL else MKCALENDAR
    case SEARCH => if k < 2 then SUBSCRIBE else SEARCH
    case SOURCE => if k < 2 then SUBSCRIBE else SOURCE
    case REBIND => if k < 3 then REPORT else REBIND
    case LINK => if k < 2 then LOCK else LINK
    case UNSUBSCRIBE => if k < 3 then UNLOCK else UNSUBSCRIBE
    case UNBIND => if k < 3 then UNLOCK else UNBIND
    case UNLINK => if k < 4 then UNLOCK else UNLINK
    case _ => m
  }

  lemma GuessAtEnd(m: Method)
    ensures Guess(m, |MethodName(m)|) == m
  {
  }

  // The guess at the first letter.
  function Initial(c: char): Method {
    match c
    case 'A' => ACL case 'B' => BIND case 'C' => CONNECT case 'D' => DELETE case 'G' => GET case 'H' => HEAD
    case 'L' => LOCK case 'M' => MKCOL case 'N' => NOTIFY case 'O' => OPTIONS case 'P' => POST case 'R' => REPORT
    case 'S' => SUBSCRIBE case 'T' => TRACE case _ => UNLOCK
  }

  lemma GuessAtStart(m: Method)
    ensures Guess(m, 1) == Initial(MethodName(m)[0]) && MethodName(m)[0] in "ABCDGHLMNOPRSTU"
  {
    FirstKnown(m);
    SameInitial(m);
    InitialIs(Guess(m, 1));
    GuessTwice(m);
    hide Guess, MethodName, Initial;
  }

  lemma SameInitial(m: Method)
    ensures MethodName(Guess(m, 1))[0] == MethodName(m)[0]
  {
    hide OtherMethod;
  }

  lemma GuessTwice(m: Method)
    ensures Guess(Guess(m, 1), 1) == Guess(m, 1)
  {
    hide MethodName;
  }

  lemma InitialIs(g: Method)
    requires Guess(g, 1) == g
    ensures Initial(MethodName(g)[0]) == g
  {
  }

  lemma FirstKnown(m: Method)
    ensures MethodName(m)[0] in "ABCDGHLMNOPRSTU"
  {
  }

  // The next letter either goes on with the guess or corrects it.
  predicate GuessGoes(m: Method, k: nat)
    requires k < |MethodName(m)|
  {
    var g, c := Guess(m, k), MethodName(m)[k];
    if Guess(m, k + 1) == g then k < |MethodName(g)| && MethodName(g)[k] == c
    else
      && k <= |MethodName(g)| && !(k < |MethodName(g)| && MethodName(g)[k] == c)
      && OtherMethod(g, k, c) == Guess(m, k + 1)
  }

  lemma GuessStep(m: Method, k: nat)
    requires 0 < k < |MethodName(m)|
    ensures GuessGoes(m, k)
  {
    if Guess(m, k) == m {
      GuessStays(m, k);
    } else if Guess(m, k + 1) == Guess(m, k) {
      GuessShares(m, k);
    } else {
      GuessTurns(m, k);
    }
  }

  lemma GuessStays(m: Method, k: nat)
    requires Guess(m, k) == m
    ensures Guess(m, k + 1) == m
  {
    hide MethodName;
  }

  // Names with the same beginning.
  lemma GuessShares(m: Method, k: nat)
    requires 0 < k < |MethodName(m)| && Guess(m, k + 1) == Guess(m, k) != m
    ensures k < |MethodName(Guess(m, k))| && MethodName(Guess(m, k))[k] == MethodName(m)[k]
  {
    GuessShort(m, k + 1);
    hide OtherMethod;
  }

  lemma GuessShort(m: Method, k: nat)
    requires Guess(m, k) != m
    ensures k < 5
  {
    hide MethodName;
  }

  // The letter that tells them apart.
  lemma GuessTurns(m: Method, k: nat)
    requires 0 < k < |MethodName(m)| && Guess(m, k + 1) != Guess(m, k)
    ensures GuessGoes(m, k)
  {
    if k == 1 {
      FirstTurn(m);
    } else {
      LaterTurn(m, k);
    }
  }

  lemma FirstTurn(m: Method)
    requires Guess(m, 2) != Guess(m, 1)
    ensures GuessGoes(m, 1)
  {
    TurnsAtFirst(m);
    FirstTurnLetter(m, Guess(m, 1), Guess(m, 2));
    hide Guess, MethodName, OtherMethod;
  }

  // The guess and what it turns into at the second letter.
  lemma TurnsAtFirst(m: Method)
    requires Guess(m, 2) != Guess(m, 1)
    ensures Guess(m, 1) == POST ==> m in {PUT, PATCH, PROPFIND, PROPPATCH, PURGE}
    ensures Guess(m, 1) == MKCOL ==> m in {MOVE, MERGE, MSEARCH}
    ensures Guess(m, 1) == SUBSCRIBE ==> m in {SEARCH, SOURCE}
    ensures Guess(m, 1) == CONNECT ==> m == CHECKOUT
    ensures Guess(m, 1) == LOCK ==> m == LINK
    ensures Guess(m, 1) in {POST, MKCOL, SUBSCRIBE, CONNECT, LOCK}
  {
    hide MethodName, OtherMethod;
  }

  lemma FirstTurnLetter(m: Method, g: Method, h: Method)
    requires g == Guess(m, 1) != h == Guess(m, 2) && g in {POST, MKCOL, SUBSCRIBE, CONNECT, LOCK}
    requires m in {PUT, PATCH, PROPFIND, PROPPATCH, PURGE, MOVE, MERGE, MSEARCH, SEARCH, SOURCE, CHECKOUT, LINK}
    ensures
      && 1 < |MethodName(m)| && 1 < |MethodName(g)| && MethodName(g)[1] != MethodName(m)[1]
      && OtherMethod(g, 1, MethodName(m)[1]) == h
  {
  }

  lemma LaterTurn(m: Method, k: nat)
    requires 1 < k < |MethodName(m)| && Guess(m, k + 1) != Guess(m, k)
    ensures GuessGoes(m, k)
  {
  }

  predicate Letters(s: string) { forall i :: 0 <= i < |s| ==> 'A' <= s[i] <= 'Z' || s[i] == '-' }

  // The names in two halves.
  predicate Early(m: Method) {
    m in {DELETE, GET, HEAD, POST, PUT, CONNECT, OPTIONS, TRACE, COPY, LOCK, MKCOL, MOVE, PROPFIND, PROPPATCH, SEARCH,
          UNLOCK, BIND}
  }

  lemma EarlyLetters(m: Method)
    requires Early(m)
    ensures Letters(MethodName(m))
  {
  }

  lemma LateLetters(m: Method)
    requires !Early(m)
    ensures Letters(MethodName(m))
  {
  }

  lemma MethodLetters(m: Method)
    ensures Letters(MethodName(m))
  {
    hide *;
    if Early(m) {
      EarlyLetters(m);
    } else {
      LateLetters(m);
    }
  }

  // The parser inside a method, after `k` letters.
  function InMethod(p: Parser, m: Method, k: nat): Parser { p.(state := ReqMethod, verb := Guess(m, k), index := k) }

  lemma MethodLine(p: Parser, ch: char)
    requires p.state == ReqMethod
    ensures RequestLine(p, ch) == MethodByte(p, ch) && GroupOf(p.state) == GRequest
  {
    hide MethodByte, Expect;
  }

  lemma LetterStep(p: Parser, m: Method, k: nat)
    requires 0 < k < |MethodName(m)|
    ensures MethodByte(InMethod(p, m, k), MethodName(m)[k]) == Next(InMethod(p, m, k + 1), [])
  {
    GuessStep(m, k);
    MethodLetters(m);
    var c := MethodName(m)[k];
    assert 'A' <= c <= 'Z' || c == '-';
    hide MethodName, Guess, OtherMethod;
  }

  lemma LetterGoes(cfg: Config, p: Parser, log: Log, m: Method, k: nat)
    requires 0 < k < |MethodName(m)| && p.nread + 1 <= cfg.maxHeader
    ensures Goes(cfg, InMethod(p, m, k), log, [MethodName(m)[k]], InMethod(Counts(p, 1), m, k + 1), log)
  {
    LetterStep(Counts(p, 1), m, k);
    hide MethodName, Guess, MethodByte, Goes, RequestLine, GroupOf;
    MethodLine(Counts(InMethod(p, m, k), 1), MethodName(m)[k]);
    RequestGoes(cfg, InMethod(p, m, k), log, MethodName(m)[k], InMethod(Counts(p, 1), m, k + 1));
  }

  lemma {:induction false} MethodRun(cfg: Config, p: Parser, log: Log, m: Method, n: nat)
    requires 0 < n <= |MethodName(m)| && p.nread + n <= cfg.maxHeader
    ensures Goes(cfg, InMethod(Counts(p, 1), m, 1), log, MethodName(m)[1..n], InMethod(Counts(p, n), m, n), log)
    decreases n
  {
    hide Goes, MethodName, Guess;
    if n == 1 {
      GoesNowhere(cfg, InMethod(Counts(p, 1), m, 1), log);
      assert MethodName(m)[1..1] == "";
    } else {
      MethodRun(cfg, p, log, m, n - 1);
      LetterGoes(cfg, Counts(p, n - 1), log, m, n - 1);
      assert Counts(Counts(p, n - 1), 1) == Counts(p, n);
      assert MethodName(m)[1..n] == MethodName(m)[1..n - 1] + [MethodName(m)[n - 1]];
      GoesOn(cfg, InMethod(Counts(p, 1), m, 1), log, MethodName(m)[1..n - 1], InMethod(Counts(p, n - 1), m, n - 1), log,
             [MethodName(m)[n - 1]], InMethod(Counts(p, n), m, n), log);
    }
  }

  lemma SpaceStep(p: Parser, m: Method)
    ensures
      var n := |MethodName(m)|;
      MethodByte(InMethod(p, m, n), ' ') == Next(p.(state := ReqSpacesBeforeUrl, verb := m, index := n + 1), [])
  {
    GuessAtEnd(m);
    hide MethodName, Guess, OtherMethod;
  }

  lemma SpaceGoes(cfg: Config, p: Parser, log: Log, m: Method)
    requires p.nread + 1 <= cfg.maxHeader
    ensures
      var n := |MethodName(m)|;
      Goes(cfg, InMethod(p, m, n), log, " ", Counts(p, 1).(state := ReqSpacesBeforeUrl, verb := m, index := n + 1), log)
  {
    hide MethodName, Guess, MethodByte, Goes, RequestLine, GroupOf, Step, Resumed;
    SpaceStep(Counts(p, 1), m);
    var n := |MethodName(m)|;
    MethodLine(Counts(InMethod(p, m, n), 1), ' ');
    RequestGoes(cfg, InMethod(p, m, n), log, ' ', Counts(p, 1).(state := ReqSpacesBeforeUrl, verb := m, index := n + 1));
  }

  // The parser starts a request here, with a new message.
  function Begun(p: Parser): Parser { Fresh(p).(kind := Request) }

  lemma FirstStep(p: Parser, m: Method)
    ensures StartRequest(p, MethodName(m)[0])
         == Next(InMethod(Fresh(p), m, 1), [Notify(MessageBegin)])
    ensures MethodName(m)[0] != CR && MethodName(m)[0] != LF
  {
    GuessAtStart(m);
    hide MethodName, Guess;
  }

  lemma StartsRequest(p: Parser, m: Method)
    requires (p.state == StartReq && p.kind == Request) || (p.state == StartReqOrRes && m != HEAD)
    ensures StartMessage(p, MethodName(m)[0]) == Next(InMethod(Begun(p), m, 1), [Notify(MessageBegin)])
    ensures GroupOf(p.state) == GStart
  {
    FirstStep(p, m);
    FirstStep(Fresh(p).(kind := Request, state := StartReq), m);
    OnlyHead(m);
    hide MethodName, Guess, StartRequest;
  }

  lemma FirstLetter(cfg: Config, p: Parser, log: Log, m: Method)
    requires p.nread + 1 <= cfg.maxHeader
    requires (p.state == StartReq && p.kind == Request) || (p.state == StartReqOrRes && m != HEAD)
    ensures
      Goes(cfg, p, log, [MethodName(m)[0]], InMethod(Counts(Begun(p), 1), m, 1), log + [Called(MessageBegin)])
  {
    StartsRequest(Counts(p, 1), m);
    hide MethodName, Guess, Goes, StartMessage, GroupOf, Step, Resumed;
    StartStep(cfg, p, MethodName(m)[0]);
    NotifyGoes(cfg, p, log, MethodName(m)[0], InMethod(Counts(Begun(p), 1), m, 1), MessageBegin);
  }

  lemma OnlyHead(m: Method)
    ensures MethodName(m)[0] == 'H' <==> m == HEAD
  {
  }

  // The two bytes by which such a parser tells a request from a response.
  lemma EitherStep(p: Parser)
    ensures p.state == StartReqOrRes ==>
              StartMessage(p, 'H') == Next(Fresh(p).(state := ResOrRespH), [Notify(MessageBegin)])
    ensures p.state == ResOrRespH ==>
              StartMessage(p, 'T') == Next(p.(kind := Response, state := ResHT), [])
              && StartMessage(p, 'E') == Next(p.(kind := Request, verb := HEAD, index := 2, state := ReqMethod), [])
    ensures p.state == StartRes ==> StartMessage(p, 'H') == Next(Fresh(p).(state := ResH), [Notify(MessageBegin)])
    ensures p.state == StartReqOrRes || p.state == ResOrRespH || p.state == StartRes ==> GroupOf(p.state) == GStart
  {
    hide StartRequest;
  }

  lemma EitherGoes(cfg: Config, p: Parser, log: Log, ch: char, q: Parser)
    requires p.nread + 2 <= cfg.maxHeader && p.state == StartReqOrRes
    requires StartMessage(Counts(Fresh(p), 2).(state := ResOrRespH), ch) == Next(q, [])
    ensures Goes(cfg, p, log, "H" + [ch], q, log + [Called(MessageBegin)])
  {
    EitherStep(Counts(p, 1));
    var r := Counts(Fresh(p), 1).(state := ResOrRespH);
    EitherStep(r);
    hide Goes, StartMessage, GroupOf, Step, Resumed;
    StartStep(cfg, p, 'H');
    NotifyGoes(cfg, p, log, 'H', r, MessageBegin);
    StartStep(cfg, r, ch);
    QuietGoes(cfg, r, log + [Called(MessageBegin)], ch, q);
    GoesOn(cfg, p, log, "H", r, log + [Called(MessageBegin)], [ch], q, log + [Called(MessageBegin)]);
  }

  // A parser that waits for either kind decides at the second byte.
  lemma HeadStarts(cfg: Config, p: Parser, log: Log)
    requires p.nread + 2 <= cfg.maxHeader && p.state == StartReqOrRes
    ensures Goes(cfg, p, log, "HE", InMethod(Counts(Begun(p), 2), HEAD, 2), log + [Called(MessageBegin)])
  {
    hide Goes, StartMessage, GroupOf, MethodName, OtherMethod;
    EitherStep(Counts(Fresh(p), 2).(state := ResOrRespH));
    EitherGoes(cfg, p, log, 'E', InMethod(Counts(Begun(p), 2), HEAD, 2));
    assert "H" + ['E'] == "HE";
  }

  predicate RequestStart(p: Parser) { (p.state == StartReq && p.kind == Request) || p.state == StartReqOrRes }

  // The method and the space behind it.
  lemma MethodGoes(cfg: Config, p: Parser, log: Log, m: Method)
    requires RequestStart(p) && p.nread + |MethodName(m)| + 1 <= cfg.maxHeader
    ensures
      var n := |MethodName(m)|;
      Goes(cfg, p, log, MethodName(m) + " ",
           Counts(Begun(p), n + 1).(state := ReqSpacesBeforeUrl, verb := m, index := n + 1), log + [Called(MessageBegin)])
  {
    hide Goes, MethodName, Guess, Begun, InMethod, Counts;
    var n, name, l, b := |MethodName(m)|, MethodName(m), log + [Called(MessageBegin)], Begun(p);
    BegunReads(p);
    CountsReads(b, n);
    NameGoes(cfg, p, log, m);
    SpaceGoes(cfg, Counts(b, n), l, m);
    NameCounts(b, m, n);
    GoesOn(cfg, p, log, name, InMethod(Counts(b, n), m, n), l, " ",
           Counts(b, n + 1).(state := ReqSpacesBeforeUrl, verb := m, index := n + 1), l);
  }

  lemma CountsReads(p: Parser, n: nat)
    ensures Counts(p, n).nread == p.nread + n
  {
  }

  lemma NameCounts(b: Parser, m: Method, n: nat)
    ensures Counts(Counts(b, n), 1).(state := ReqSpacesBeforeUrl, verb := m, index := n + 1)
         == Counts(b, n + 1).(state := ReqSpacesBeforeUrl, verb := m, index := n + 1)
  {
  }

  lemma NameGoes(cfg: Config, p: Parser, log: Log, m: Method)
    requires RequestStart(p) && p.nread + |MethodName(m)| <= cfg.maxHeader
    ensures
      var n := |MethodName(m)|;
      Goes(cfg, p, log, MethodName(m), InMethod(Counts(Begun(p), n), m, n), log + [Called(MessageBegin)])
  {
    hide Goes, MethodName, Guess, Begun, InMethod, Counts;
    var n, name, l, b := |MethodName(m)|, MethodName(m), log + [Called(MessageBegin)], Begun(p);
    var end := InMethod(Counts(b, n), m, n);
    BegunReads(p);
    NameNotEmpty(m);
    if p.state == StartReqOrRes && m == HEAD {
      HeadStarts(cfg, p, log);
      HeadName();
      MethodTail(cfg, b, l);
      GoesOn(cfg, p, log, "HE", InMethod(Counts(b, 2), HEAD, 2), l, "AD", end, l);
      assert name == "HE" + "AD";
    } else {
      FirstLetter(cfg, p, log, m);
      MethodRun(cfg, b, l, m, n);
      assert name[1..n] == name[1..] && name == [name[0]] + name[1..];
      GoesOn(cfg, p, log, [name[0]], InMethod(Counts(b, 1), m, 1), l, name[1..], end, l);
    }
  }

  lemma NameNotEmpty(m: Method)
    ensures MethodName(m) != ""
  {
  }

  lemma BegunReads(p: Parser)
    ensures Begun(p).nread == p.nread
  {
  }

  lemma HeadName()
    ensures MethodName(HEAD) == "HEAD" == "HE" + "AD"
  {
  }

  lemma MethodTail(cfg: Config, p: Parser, log: Log)
    requires p.nread + 4 <= cfg.maxHeader
    ensures Goes(cfg, InMethod(Counts(p, 2), HEAD, 2), log, "AD", InMethod(Counts(p, 4), HEAD, 4), log)
  {
    hide Goes;
    LetterGoes(cfg, Counts(p, 2), log, HEAD, 2);
    LetterGoes(cfg, Counts(p, 3), log, HEAD, 3);
    assert Counts(Counts(p, 2), 1) == Counts(p, 3) && Counts(Counts(p, 3), 1) == Counts(p, 4);
    assert "AD" == ['A'] + ['D'];
    GoesOn(cfg, InMethod(Counts(p, 2), HEAD, 2), log, ['A'], InMethod(Counts(p, 3), HEAD, 3), log, ['D'],
           InMethod(Counts(p, 4), HEAD, 4), log);
  }

  // ---- The target.

  // The parser after `n` bytes of the target `t`.
  function InTarget(p: Parser, t: string, n: nat): Parser
    requires n <= |t|
  {
    p.(state := P.StateAt(p.verb == CONNECT, t, n))
  }

  lemma UrlStates(s: State, ch: char)
    requires ParseUrlChar(s, ch) != Dead
    ensures UrlPart(ParseUrlChar(s, ch)) && ch != ' ' && ch != CR && ch != LF
  {
  }

  lemma UrlGroup(s: State)
    ensures UrlPart(s) || s == ReqSpacesBeforeUrl ==> GroupOf(s) == GUrl
    ensures UrlPart(s) ==> s != ReqSpacesBeforeUrl
  {
  }

  // One byte of a target.
  lemma UrlSteps(p: Parser, ch: char)
    requires UrlPart(p.state)
    ensures ParseUrlChar(p.state, ch) != Dead ==> UrlState(p, ch) == Next(p.(state := ParseUrlChar(p.state, ch)), [])
    ensures TargetEnd(p.state) ==> UrlState(p, ch) == UrlByteOrEnd(p, ch)
  {
    if ParseUrlChar(p.state, ch) != Dead {
      UrlStates(p.state, ch);
    }
    hide ParseUrlChar;
  }

  lemma FirstUrlStep(p: Parser, ch: char)
    requires p.state == ReqSpacesBeforeUrl && ParseUrlChar(P.UrlStart(p.verb == CONNECT), ch) != Dead
    ensures UrlState(p, ch) == Next(p.(state := ParseUrlChar(P.UrlStart(p.verb == CONNECT), ch)), [Mark(Url)])
  {
    UrlStates(P.UrlStart(p.verb == CONNECT), ch);
    assert [Mark(Url)] + [] == [Mark(Url)];
    hide ParseUrlChar;
  }

  lemma FirstTargetByte(cfg: Config, p: Parser, log: Log, ch: char)
    requires p.state == ReqSpacesBeforeUrl && p.nread + 1 <= cfg.maxHeader && !EndsWith(log, Url)
    requires ParseUrlChar(P.UrlStart(p.verb == CONNECT), ch) != Dead
    ensures Goes(cfg, p, log, [ch], Counts(p, 1).(state := ParseUrlChar(P.UrlStart(p.verb == CONNECT), ch)),
                 log + [Data(Url, [ch])])
  {
    FirstUrlStep(Counts(p, 1), ch);
    hide Goes, Emit, ParseUrlChar, UrlState, GroupOf, Step, Resumed;
    UrlGroup(p.state);
    UrlStep(cfg, p, ch);
    EmitNew(log, Url, [ch]);
    MarkGoes(cfg, p, log, ch, Counts(p, 1).(state := ParseUrlChar(P.UrlStart(p.verb == CONNECT), ch)), Url);
  }

  lemma TargetByte(cfg: Config, p: Parser, log: Log, t: string, ch: char)
    requires UrlPart(p.state) && p.nread + 1 <= cfg.maxHeader && ParseUrlChar(p.state, ch) != Dead
    ensures Goes(cfg, p, log + [Data(Url, t)], [ch], Counts(p, 1).(state := ParseUrlChar(p.state, ch)),
                 log + [Data(Url, t + [ch])])
  {
    UrlSteps(Counts(p, 1), ch);
    hide Goes, Emit, ParseUrlChar, UrlState, GroupOf, Step, Resumed, UrlPart;
    UrlGroup(p.state);
    UrlStep(cfg, p, ch);
    EmitMore(log, Url, t, [ch]);
    InsideGoes(cfg, p, log + [Data(Url, t)], ch, Counts(p, 1).(state := ParseUrlChar(p.state, ch)), Url);
  }

  lemma {:induction false} TargetRun(cfg: Config, p: Parser, log: Log, t: string, n: nat)
    requires p.state == ReqSpacesBeforeUrl && 0 < n <= |t| && p.nread + n <= cfg.maxHeader && !EndsWith(log, Url)
    requires P.StateAt(p.verb == CONNECT, t, n) != Dead
    ensures Goes(cfg, p, log, t[..n], InTarget(Counts(p, n), t, n), log + [Data(Url, t[..n])])
    ensures UrlPart(P.StateAt(p.verb == CONNECT, t, n))
    decreases n
  {
    hide Goes, ParseUrlChar, UrlPart;
    var connect := p.verb == CONNECT;
    assert P.StateAt(connect, t, n) == ParseUrlChar(P.StateAt(connect, t, n - 1), t[n - 1]);
    UrlStates(P.StateAt(connect, t, n - 1), t[n - 1]);
    if n == 1 {
      assert t[..1] == [t[0]] && P.StateAt(connect, t, 0) == P.UrlStart(connect);
      FirstTargetByte(cfg, p, log, t[0]);
    } else {
      U.DeadMove(t[n - 1]);
      TargetRun(cfg, p, log, t, n - 1);
      var q := InTarget(Counts(p, n - 1), t, n - 1);
      TargetByte(cfg, q, log, t[..n - 1], t[n - 1]);
      assert t[..n] == t[..n - 1] + [t[n - 1]];
      GoesOn(cfg, p, log, t[..n - 1], q, log + [Data(Url, t[..n - 1])], [t[n - 1]], InTarget(Counts(p, n), t, n),
             log + [Data(Url, t[..n])]);
    }
  }

  // The states in which a target may end.
  predicate TargetEnd(s: State) {
    s == ReqServer || s == ReqServerWithAt || s == ReqPath || s == ReqQueryStringStart || s == ReqQueryString
    || s == ReqFragmentStart || s == ReqFragment
  }

  lemma TargetState(verb: Method, target: string)
    requires G.TargetOk(verb, target)
    ensures target != "" && TargetEnd(P.StateAt(verb == CONNECT, target, |target|))
  {
    var u :| U.UrlOk(verb == CONNECT, u) && U.UrlText(u) == target && G.WholeTarget(u);
    U.PartsRead(verb == CONNECT, u);
    WholeState(verb == CONNECT, u);
  }

  lemma WholeState(connect: bool, u: U.Url)
    requires U.UrlOk(connect, u) && G.WholeTarget(u)
    ensures TargetEnd(U.StateOf(connect, u)) && U.UrlText(u) != ""
  {
    U.TextLength(u);
    U.EmptyTail(u);
    assert u.frag.Some? ==> U.FragText(u.frag) != "";
  }

  lemma TargetGoes(cfg: Config, p: Parser, log: Log, target: string)
    requires p.state == ReqSpacesBeforeUrl && p.nread + |target| <= cfg.maxHeader && !EndsWith(log, Url)
    requires G.TargetOk(p.verb, target)
    ensures Goes(cfg, p, log, target, InTarget(Counts(p, |target|), target, |target|), log + [Data(Url, target)])
    ensures TargetEnd(P.StateAt(p.verb == CONNECT, target, |target|))
  {
    hide Goes, G.TargetOk, TargetEnd, P.StateAt;
    TargetState(p.verb, target);
    EndAlive(P.StateAt(p.verb == CONNECT, target, |target|));
    TargetRun(cfg, p, log, target, |target|);
    assert target[..|target|] == target;
  }

  lemma EndAlive(s: State)
    requires TargetEnd(s)
    ensures s != Dead && UrlPart(s)
  {
  }

  // ---- The version.

  // The bytes of the words "HTTP/" and "ICE/" and of the line ends, with the states between them.
  predicate Fixed(s: State, ch: char, t: State) { FixedRequest(s, ch, t) || FixedResponse(s, ch, t) }

  predicate FixedRequest(s: State, ch: char, t: State) {
    || (s == ReqHttpStart && ch == 'H' && t == ReqHttpH)
    || (s == ReqHttpH && ch == 'T' && t == ReqHttpHT)
    || (s == ReqHttpHT && ch == 'T' && t == ReqHttpHTT)
    || (s == ReqHttpHTT && ch == 'P' && t == ReqHttpHTTP)
    || (s == ReqHttpHTTP && ch == '/' && t == ReqHttpMajor)
    || (s == ReqHttpI && ch == 'C' && t == ReqHttpIC)
    || (s == ReqHttpIC && ch == 'E' && t == ReqHttpHTTP)
    || (s == ReqHttpDot && ch == '.' && t == ReqHttpMinor)
    || (s == ReqHttpEnd && ch == CR && t == ReqLineAlmostDone)
    || (s == ReqHttpEnd && ch == LF && t == HeaderFieldStart)
    || (s == ReqLineAlmostDone && ch == LF && t == HeaderFieldStart)
  }

  predicate FixedResponse(s: State, ch: char, t: State) {
    || (s == ResH && ch == 'T' && t == ResHT)
    || (s == ResHT && ch == 'T' && t == ResHTT)
    || (s == ResHTT && ch == 'P' && t == ResHTTP)
    || (s == ResHTTP && ch == '/' && t == ResHttpMajor)
    || (s == ResHttpDot && ch == '.' && t == ResHttpMinor)
    || (s == ResHttpEnd && ch == ' ' && t == ResFirstStatusCode)
    || (s == ResLineAlmostDone && ch == LF && t == HeaderFieldStart)
  }

  lemma FixedRequestLine(p: Parser, ch: char, t: State)
    requires FixedRequest(p.state, ch, t)
    ensures RequestLine(p, ch) == Next(p.(state := t), [])
  {
    hide MethodByte, DigitValue, IsNum;
  }

  lemma FixedResponseLine(p: Parser, ch: char, t: State)
    requires FixedResponse(p.state, ch, t)
    ensures ResponseLine(p, ch) == Next(p.(state := t), [])
  {
    hide StatusCode, StatusStart, StatusText, DigitValue, IsNum;
  }

  lemma FixedRequestIs(s: State, ch: char, t: State)
    requires FixedRequest(s, ch, t)
    ensures GroupOf(s) == GRequest
  {
  }

  lemma FixedResponseIs(s: State, ch: char, t: State)
    requires FixedResponse(s, ch, t)
    ensures GroupOf(s) == GResponse && s != ResStatus
  {
  }

  lemma FixedGoes(cfg: Config, p: Parser, log: Log, ch: char, t: State)
    requires Fixed(p.state, ch, t) && p.nread + 1 <= cfg.maxHeader
    ensures Goes(cfg, p, log, [ch], Counts(p, 1).(state := t), log)
  {
    hide Goes, RequestLine, ResponseLine, FixedRequest, FixedResponse, GroupOf;
    if FixedRequest(p.state, ch, t) {
      FixedRequestLine(Counts(p, 1), ch, t);
      FixedRequestIs(p.state, ch, t);
      RequestGoes(cfg, p, log, ch, Counts(p, 1).(state := t));
    } else {
      FixedResponseLine(Counts(p, 1), ch, t);
      FixedResponseIs(p.state, ch, t);
      ResponseGoes(cfg, p, log, ch, Counts(p, 1).(state := t));
    }
  }

  lemma LineSteps(p: Parser, ch: char)
    ensures p.state == ReqHttpStart && p.verb == SOURCE ==> RequestLine(p, 'I') == Next(p.(state := ReqHttpI), [])
    ensures p.state == ReqHttpMajor && IsDigit(ch) ==>
              RequestLine(p, ch) == Next(p.(major := ch as int - '0' as int, state := ReqHttpDot), [])
    ensures p.state == ReqHttpMinor && IsDigit(ch) ==>
              RequestLine(p, ch) == Next(p.(minor := ch as int - '0' as int, state := ReqHttpEnd), [])
    ensures p.state in {ReqHttpStart, ReqHttpMajor, ReqHttpMinor} ==> GroupOf(p.state) == GRequest
  {
    hide MethodByte, Expect;
  }

  lemma IceGoes(cfg: Config, p: Parser, log: Log)
    requires p.state == ReqHttpStart && p.verb == SOURCE && p.nread + 1 <= cfg.maxHeader
    ensures Goes(cfg, p, log, "I", Counts(p, 1).(state := ReqHttpI), log)
  {
    LineSteps(Counts(p, 1), 'I');
    hide Goes, RequestLine, GroupOf;
    RequestGoes(cfg, p, log, 'I', Counts(p, 1).(state := ReqHttpI));
  }

  function DigitChar(n: nat): char
    requires n < 10
  {
    (n + 48) as char
  }

  lemma ReqDigit(cfg: Config, p: Parser, log: Log, d: nat)
    requires d < 10 && (p.state == ReqHttpMajor || p.state == ReqHttpMinor) && p.nread + 1 <= cfg.maxHeader
    ensures Goes(cfg, p, log, [DigitChar(d)],
                 if p.state == ReqHttpMajor then Counts(p, 1).(major := d, state := ReqHttpDot)
                 else Counts(p, 1).(minor := d, state := ReqHttpEnd), log)
  {
    LineSteps(Counts(p, 1), DigitChar(d));
    hide Goes, RequestLine, GroupOf;
    RequestGoes(cfg, p, log, DigitChar(d),
                if p.state == ReqHttpMajor then Counts(p, 1).(major := d, state := ReqHttpDot)
                else Counts(p, 1).(minor := d, state := ReqHttpEnd));
  }

  lemma StatusSteps(p: Parser, ch: char)
    ensures p.state == ResHttpMajor && IsDigit(ch) ==>
              ResponseLine(p, ch) == Next(p.(major := ch as int - '0' as int, state := ResHttpDot), [])
    ensures p.state == ResHttpMinor && IsDigit(ch) ==>
              ResponseLine(p, ch) == Next(p.(minor := ch as int - '0' as int, state := ResHttpEnd), [])
    ensures p.state == ResFirstStatusCode && IsDigit(ch) ==>
              ResponseLine(p, ch) == Next(p.(state := ResStatusCode, status := ch as int - '0' as int), [])
    ensures p.state == ResStatusCode ==> ResponseLine(p, ch) == StatusCode(p, ch)
    ensures p.state == ResStatusStart ==> ResponseLine(p, ch) == StatusStart(p, ch)
    ensures p.state == ResStatus ==> ResponseLine(p, ch) == StatusText(p, ch)
    ensures p.state in {ResHttpMajor, ResHttpMinor, ResFirstStatusCode, ResStatusCode, ResStatusStart, ResStatus} ==>
              GroupOf(p.state) == GResponse
  {
    hide StatusCode, StatusStart, StatusText, Expect;
  }

  lemma ResDigit(cfg: Config, p: Parser, log: Log, d: nat)
    requires d < 10 && (p.state == ResHttpMajor || p.state == ResHttpMinor) && p.nread + 1 <= cfg.maxHeader
    ensures Goes(cfg, p, log, [DigitChar(d)],
                 if p.state == ResHttpMajor then Counts(p, 1).(major := d, state := ResHttpDot)
                 else Counts(p, 1).(minor := d, state := ResHttpEnd), log)
  {
    StatusSteps(Counts(p, 1), DigitChar(d));
    hide Goes, ResponseLine, GroupOf;
    ResponseGoes(cfg, p, log, DigitChar(d),
                 if p.state == ResHttpMajor then Counts(p, 1).(major := d, state := ResHttpDot)
                 else Counts(p, 1).(minor := d, state := ResHttpEnd));
  }

  // One more byte of such a word.
  lemma FixedNext(cfg: Config, p: Parser, log: Log, s: string, q: Parser, ch: char, t: State)
    requires Goes(cfg, p, log, s, q, log) && Fixed(q.state, ch, t) && q.nread + 1 <= cfg.maxHeader
    ensures Goes(cfg, p, log, s + [ch], Counts(q, 1).(state := t), log)
  {
    hide Goes, Fixed;
    FixedGoes(cfg, q, log, ch, t);
    GoesOn(cfg, p, log, s, q, log, [ch], Counts(q, 1).(state := t), log);
  }

  lemma Spelled()
    ensures "I" + ['C'] == "IC" && "IC" + ['E'] == "ICE" && "ICE" + ['/'] == "ICE/"
    ensures "H" + ['T'] == "HT" && "HT" + ['T'] == "HTT" && "HTT" + ['P'] == "HTTP" && "HTTP" + ['/'] == "HTTP/"
  {
  }

  lemma RequestWord()
    ensures Fixed(ReqHttpStart, 'H', ReqHttpH) && Fixed(ReqHttpH, 'T', ReqHttpHT) && Fixed(ReqHttpHT, 'T', ReqHttpHTT)
    ensures Fixed(ReqHttpHTT, 'P', ReqHttpHTTP) && Fixed(ReqHttpHTTP, '/', ReqHttpMajor)
    ensures Fixed(ReqHttpI, 'C', ReqHttpIC) && Fixed(ReqHttpIC, 'E', ReqHttpHTTP)
    ensures Fixed(ReqHttpDot, '.', ReqHttpMinor) && Fixed(ReqHttpEnd, CR, ReqLineAlmostDone)
    ensures Fixed(ReqHttpEnd, LF, HeaderFieldStart) && Fixed(ReqLineAlmostDone, LF, HeaderFieldStart)
  {
  }

  lemma ResponseWord()
    ensures Fixed(ResHT, 'T', ResHTT) && Fixed(ResH, 'T', ResHT) && Fixed(ResHTT, 'P', ResHTTP) && Fixed(ResHTTP, '/', ResHttpMajor)
    ensures Fixed(ResHttpDot, '.', ResHttpMinor) && Fixed(ResHttpEnd, ' ', ResFirstStatusCode)
    ensures Fixed(ResLineAlmostDone, LF, HeaderFieldStart)
  {
  }

  lemma IceWord(cfg: Config, p: Parser, log: Log)
    requires p.state == ReqHttpStart && p.nread + 4 <= cfg.maxHeader && p.verb == SOURCE
    ensures Goes(cfg, p, log, "ICE/", Counts(p, 4).(state := ReqHttpMajor), log)
  {
    hide Goes, Fixed;
    Spelled();
    RequestWord();
    IceGoes(cfg, p, log);
    FixedNext(cfg, p, log, "I", Counts(p, 1).(state := ReqHttpI), 'C', ReqHttpIC);
    FixedNext(cfg, p, log, "IC", Counts(p, 2).(state := ReqHttpIC), 'E', ReqHttpHTTP);
    FixedNext(cfg, p, log, "ICE", Counts(p, 3).(state := ReqHttpHTTP), '/', ReqHttpMajor);
  }

  lemma HttpWord(cfg: Config, p: Parser, log: Log)
    requires p.state == ReqHttpStart && p.nread + 5 <= cfg.maxHeader
    ensures Goes(cfg, p, log, "HTTP/", Counts(p, 5).(state := ReqHttpMajor), log)
  {
    hide Goes, Fixed;
    Spelled();
    RequestWord();
    FixedGoes(cfg, p, log, 'H', ReqHttpH);
    FixedNext(cfg, p, log, "H", Counts(p, 1).(state := ReqHttpH), 'T', ReqHttpHT);
    FixedNext(cfg, p, log, "HT", Counts(p, 2).(state := ReqHttpHT), 'T', ReqHttpHTT);
    FixedNext(cfg, p, log, "HTT", Counts(p, 3).(state := ReqHttpHTT), 'P', ReqHttpHTTP);
    FixedNext(cfg, p, log, "HTTP", Counts(p, 4).(state := ReqHttpHTTP), '/', ReqHttpMajor);
  }

  lemma ProtocolGoes(cfg: Config, p: Parser, log: Log, ice: bool)
    requires p.state == ReqHttpStart && p.nread + 5 <= cfg.maxHeader && (ice ==> p.verb == SOURCE)
    ensures
      var word := if ice then "ICE/" else "HTTP/";
      Goes(cfg, p, log, word, Counts(p, |word|).(state := ReqHttpMajor), log)
  {
    hide Goes;
    if ice {
      IceWord(cfg, p, log);
    } else {
      HttpWord(cfg, p, log);
    }
  }

  lemma DotGoes(cfg: Config, p: Parser, log: Log)
    requires (p.state == ReqHttpDot || p.state == ResHttpDot) && p.nread + 1 <= cfg.maxHeader
    ensures Goes(cfg, p, log, ".", Counts(p, 1).(state := if p.state == ReqHttpDot then ReqHttpMinor else ResHttpMinor), log)
  {
    hide Goes, Fixed;
    RequestWord();
    ResponseWord();
    FixedGoes(cfg, p, log, '.', if p.state == ReqHttpDot then ReqHttpMinor else ResHttpMinor);
  }

  // The version of a request.
  lemma MajorGoes(cfg: Config, p: Parser, log: Log, word: string, q: Parser, d: nat)
    requires Goes(cfg, p, log, word, q, log) && d < 10 && q.state == ReqHttpMajor && q.nread + 2 <= cfg.maxHeader
    ensures Goes(cfg, p, log, word + [DigitChar(d)] + ".", Counts(q, 2).(major := d, state := ReqHttpMinor), log)
  {
    hide Goes;
    ReqDigit(cfg, q, log, d);
    var q1 := Counts(q, 1).(major := d, state := ReqHttpDot);
    GoesOn(cfg, p, log, word, q, log, [DigitChar(d)], q1, log);
    DotGoes(cfg, q1, log);
    GoesOn(cfg, p, log, word + [DigitChar(d)], q1, log, ".", Counts(q, 2).(major := d, state := ReqHttpMinor), log);
  }

  lemma VersionGoes(cfg: Config, p: Parser, log: Log, v: G.Version)
    requires p.state == ReqHttpStart && G.VersionOk(v) && p.nread + |G.VersionText(v)| <= cfg.maxHeader
    requires v.ice ==> p.verb == SOURCE
    ensures Goes(cfg, p, log, G.VersionText(v),
                 Counts(p, |G.VersionText(v)|).(major := v.major, minor := v.minor, state := ReqHttpEnd), log)
  {
    hide Goes;
    var word := if v.ice then "ICE/" else "HTTP/";
    ProtocolGoes(cfg, p, log, v.ice);
    var q := Counts(p, |word|).(state := ReqHttpMajor);
    MajorGoes(cfg, p, log, word, q, v.major);
    var q2 := Counts(q, 2).(major := v.major, state := ReqHttpMinor);
    ReqDigit(cfg, q2, log, v.minor);
    var q3 := Counts(q2, 1).(minor := v.minor, state := ReqHttpEnd);
    GoesOn(cfg, p, log, word + [DigitChar(v.major)] + ".", q2, log, [DigitChar(v.minor)], q3, log);
    assert word + [DigitChar(v.major)] + "." + [DigitChar(v.minor)] == G.VersionText(v);
  }

  // ---- The end of a request line.

  lemma LineEnds(cfg: Config, p: Parser, log: Log, bare: bool)
    requires p.state == ReqHttpEnd && p.nread + |G.Eol(bare)| <= cfg.maxHeader
    ensures Goes(cfg, p, log, G.Eol(bare), Counts(p, |G.Eol(bare)|).(state := HeaderFieldStart), log)
  {
    hide Goes, Fixed;
    RequestWord();
    if bare {
      FixedGoes(cfg, p, log, LF, HeaderFieldStart);
      assert G.Eol(true) == [LF];
    } else {
      FixedGoes(cfg, p, log, CR, ReqLineAlmostDone);
      FixedNext(cfg, p, log, [CR], Counts(p, 1).(state := ReqLineAlmostDone), LF, HeaderFieldStart);
      assert G.Eol(false) == [CR] + [LF];
    }
  }

  // The space behind the target.
  lemma TargetSpace(cfg: Config, p: Parser, log: Log)
    requires TargetEnd(p.state) && p.nread + 1 <= cfg.maxHeader && EndsWith(log, Url)
    ensures Goes(cfg, p, log, " ", Counts(p, 1).(state := ReqHttpStart), log)
  {
    EndAlive(p.state);
    UrlSteps(Counts(p, 1), ' ');
    hide Goes, Emit, ParseUrlChar, UrlState, GroupOf, Step, Resumed, UrlPart, UrlByte;
    UrlGroup(p.state);
    UrlStep(cfg, p, ' ');
    FlushGoes(cfg, p, log, ' ', Counts(p, 1).(state := ReqHttpStart), Url);
  }

  // The byte behind the target, if it is not a space.
  lemma TargetLine(cfg: Config, p: Parser, log: Log, c: char)
    requires TargetEnd(p.state) && p.nread + 1 <= cfg.maxHeader && EndsWith(log, Url) && (c == CR || c == LF)
    ensures Goes(cfg, p, log, [c],
                 Counts(p, 1).(major := 0, minor := 9, state := if c == LF then HeaderFieldStart else ReqLineAlmostDone), log)
  {
    EndAlive(p.state);
    UrlSteps(Counts(p, 1), c);
    hide Goes, Emit, ParseUrlChar, UrlState, GroupOf, Step, Resumed, UrlPart, UrlByte;
    UrlGroup(p.state);
    UrlStep(cfg, p, c);
    FlushGoes(cfg, p, log, c,
              Counts(p, 1).(major := 0, minor := 9, state := if c == LF then HeaderFieldStart else ReqLineAlmostDone), Url);
  }

  // The end of a simple request, behind the target.
  lemma SimpleEnds(cfg: Config, p: Parser, log: Log, bare: bool)
    requires TargetEnd(p.state) && p.nread + |G.Eol(bare)| <= cfg.maxHeader && EndsWith(log, Url)
    ensures Goes(cfg, p, log, G.Eol(bare), Counts(p, |G.Eol(bare)|).(major := 0, minor := 9, state := HeaderFieldStart), log)
  {
    hide Goes, Emit, TargetEnd, Fixed;
    RequestWord();
    if bare {
      TargetLine(cfg, p, log, LF);
      assert G.Eol(true) == [LF];
    } else {
      TargetLine(cfg, p, log, CR);
      var q := Counts(p, 1).(major := 0, minor := 9, state := ReqLineAlmostDone);
      FixedNext(cfg, p, log, [CR], q, LF, HeaderFieldStart);
      assert G.Eol(false) == [CR] + [LF];
    }
  }

  // ---- Whole request lines.

  // The events of a first line.
  function LineEvents(line: G.Line): Log {
    [Called(MessageBegin),
     match line
     case RequestLine(_, target, _, _, _) => Data(Url, target)
     case StatusLine(_, _, reason, _) => Data(Status, if reason.None? then "" else reason.value)]
  }

  // The parser behind a first line.
  function LineParser(p: Parser, line: G.Line): Parser {
    var simple := line.RequestLine? && line.simple;
    var b := Fresh(p).(state := HeaderFieldStart, major := if simple then 0 else line.version.major,
                       minor := if simple then 9 else line.version.minor);
    match line
    case RequestLine(verb, _, _, _, _) => b.(kind := Request, verb := verb, index := |MethodName(verb)| + 1)
    case StatusLine(_, code, _, _) => b.(kind := Response, status := G.Number(code), index := 0)
  }

  lemma RequestParts(line: G.Line)
    requires line.RequestLine? && G.VersionOk(line.version)
    ensures
      var name, t, e := MethodName(line.verb), line.target, G.Eol(line.bare);
      G.LineText(line)
      == if line.simple then name + " " + t + e else name + " " + t + " " + G.VersionText(line.version) + e
  {
    hide G.VersionText, G.Eol, MethodName;
    var name, t, e, v := MethodName(line.verb), line.target, G.Eol(line.bare), G.VersionText(line.version);
    if line.simple {
      assert G.LineText(line) == name + (" " + (t + ("" + e)));
    } else {
      assert G.LineText(line) == name + (" " + (t + ((" " + v) + e)));
    }
  }

  // The method and the target.
  lemma TargetPart(cfg: Config, p: Parser, log: Log, verb: Method, target: string) returns (q: Parser)
    requires RequestStart(p) && p.nread + |MethodName(verb)| + 1 + |target| <= cfg.maxHeader
    requires G.TargetOk(verb, target)
    ensures
      var n := |MethodName(verb)| + 1;
      q == Counts(Begun(p), n + |target|).(state := q.state, verb := verb, index := n) && TargetEnd(q.state)
    ensures Goes(cfg, p, log, MethodName(verb) + " " + target, q, log + [Called(MessageBegin), Data(Url, target)])
  {
    hide Goes, TargetEnd, G.TargetOk, MethodName, P.StateAt, Begun;
    var n, l := |MethodName(verb)| + 1, log + [Called(MessageBegin)];
    BegunReads(p);
    MethodGoes(cfg, p, log, verb);
    var q0 := Counts(Begun(p), n).(state := ReqSpacesBeforeUrl, verb := verb, index := n);
    TargetGoes(cfg, q0, l, target);
    q := InTarget(Counts(q0, |target|), target, |target|);
    assert l + [Data(Url, target)] == log + [Called(MessageBegin), Data(Url, target)];
    GoesOn(cfg, p, log, MethodName(verb) + " ", q0, l, target, q, l + [Data(Url, target)]);
  }

  lemma RequestLineRead(cfg: Config, p: Parser, log: Log, line: G.Line)
    requires line.RequestLine? && G.LineOk(line) && RequestStart(p) && p.nread + |G.LineText(line)| <= cfg.maxHeader
    ensures Goes(cfg, p, log, G.LineText(line), Counts(LineParser(p, line), |G.LineText(line)|), log + LineEvents(line))
  {
    hide Goes, TargetEnd, G.TargetOk, MethodName, G.VersionText, G.Eol;
    RequestParts(line);
    var head, t := MethodName(line.verb) + " " + line.target, line.target;
    var l := log + [Called(MessageBegin), Data(Url, t)];
    assert l == log + LineEvents(line);
    var q := TargetPart(cfg, p, log, line.verb, t);
    assert EndsWith(l, Url);
    hide G.LineText;
    var rest := LineRest(line);
    assert head + rest == G.LineText(line);
    RestRead(cfg, q, l, line);
    var q1 := LineParserFrom(q, line);
    GoesOn(cfg, p, log, head, q, l, rest, q1, l);
    LineParserIsFrom(p, q, line);
  }

  // What stands behind the target.
  function LineRest(line: G.Line): string
    requires line.RequestLine? && G.VersionOk(line.version)
  {
    if line.simple then G.Eol(line.bare) else " " + (G.VersionText(line.version) + G.Eol(line.bare))
  }

  function LineParserFrom(q: Parser, line: G.Line): Parser
    requires line.RequestLine? && G.VersionOk(line.version)
  {
    Counts(q, |LineRest(line)|).(major := if line.simple then 0 else line.version.major,
                                 minor := if line.simple then 9 else line.version.minor, state := HeaderFieldStart)
  }

  lemma RestRead(cfg: Config, q: Parser, l: Log, line: G.Line)
    requires line.RequestLine? && G.VersionOk(line.version) && (line.version.ice ==> q.verb == SOURCE)
    requires TargetEnd(q.state) && q.nread + |LineRest(line)| <= cfg.maxHeader && EndsWith(l, Url)
    ensures Goes(cfg, q, l, LineRest(line), LineParserFrom(q, line), l)
  {
    hide Goes, TargetEnd, G.VersionText, G.Eol;
    if line.simple {
      SimpleEnds(cfg, q, l, line.bare);
    } else {
      var v := G.VersionText(line.version) + G.Eol(line.bare);
      TargetSpace(cfg, q, l);
      var q1 := Counts(q, 1).(state := ReqHttpStart);
      VersionEnds(cfg, q1, l, line.version, line.bare);
      var q2 := Counts(q1, |v|).(major := line.version.major, minor := line.version.minor, state := HeaderFieldStart);
      GoesOn(cfg, q, l, " ", q1, l, v, q2, l);
    }
  }

  lemma LineParserIsFrom(p: Parser, q: Parser, line: G.Line)
    requires line.RequestLine? && G.VersionOk(line.version)
    requires
      var n := |MethodName(line.verb)| + 1;
      q == Counts(Begun(p), n + |line.target|).(state := q.state, verb := line.verb, index := n)
    ensures LineParserFrom(q, line) == Counts(LineParser(p, line), |G.LineText(line)|)
  {
    RequestParts(line);
    hide G.VersionText, G.Eol, MethodName, G.LineText;
  }

  lemma VersionEnds(cfg: Config, p: Parser, log: Log, v: G.Version, bare: bool)
    requires p.state == ReqHttpStart && G.VersionOk(v) && (v.ice ==> p.verb == SOURCE)
    requires p.nread + |G.VersionText(v) + G.Eol(bare)| <= cfg.maxHeader
    ensures
      var s := G.VersionText(v) + G.Eol(bare);
      Goes(cfg, p, log, s, Counts(p, |s|).(major := v.major, minor := v.minor, state := HeaderFieldStart), log)
  {
    hide Goes, G.VersionText, G.Eol;
    VersionGoes(cfg, p, log, v);
    var q := Counts(p, |G.VersionText(v)|).(major := v.major, minor := v.minor, state := ReqHttpEnd);
    LineEnds(cfg, q, log, bare);
    GoesOn(cfg, p, log, G.VersionText(v), q, log, G.Eol(bare), Counts(q, |G.Eol(bare)|).(state := HeaderFieldStart), log);
  }

  // ---- Status lines.

  predicate ResponseStart(p: Parser) { (p.state == StartRes && p.kind == Response) || p.state == StartReqOrRes }

  // The parser starts a response here.
  function Answered(p: Parser): Parser { Fresh(p).(kind := Response) }

  lemma FirstH(cfg: Config, p: Parser, log: Log)
    requires p.state == StartRes && p.nread + 1 <= cfg.maxHeader
    ensures Goes(cfg, p, log, "H", Counts(Fresh(p), 1).(state := ResH), log + [Called(MessageBegin)])
  {
    EitherStep(Counts(p, 1));
    hide Goes, StartMessage, GroupOf, Step, Resumed;
    StartStep(cfg, p, 'H');
    NotifyGoes(cfg, p, log, 'H', Counts(Fresh(p), 1).(state := ResH), MessageBegin);
  }

  lemma EitherH(cfg: Config, p: Parser, log: Log)
    requires p.state == StartReqOrRes && p.nread + 2 <= cfg.maxHeader
    ensures Goes(cfg, p, log, "HT", Counts(Answered(p), 2).(state := ResHT), log + [Called(MessageBegin)])
  {
    EitherStep(Counts(Fresh(p), 2).(state := ResOrRespH));
    hide Goes, StartMessage;
    EitherGoes(cfg, p, log, 'T', Counts(Answered(p), 2).(state := ResHT));
    assert "H" + ['T'] == "HT";
  }

  lemma StatusWord(cfg: Config, p: Parser, log: Log)
    requires ResponseStart(p) && p.nread + 5 <= cfg.maxHeader
    ensures Goes(cfg, p, log, "HTTP/", Counts(Answered(p), 5).(state := ResHttpMajor), log + [Called(MessageBegin)])
  {
    hide Goes, Fixed;
    Spelled();
    ResponseWord();
    var b, l := Answered(p), log + [Called(MessageBegin)];
    var q := Counts(b, 2).(state := ResHT);
    if p.state == StartRes {
      FirstH(cfg, p, log);
      var q0 := Counts(Fresh(p), 1).(state := ResH);
      FixedGoes(cfg, q0, l, 'T', ResHT);
      GoesOn(cfg, p, log, "H", q0, l, ['T'], q, l);
    } else {
      EitherH(cfg, p, log);
    }
    FixedGoes(cfg, q, l, 'T', ResHTT);
    GoesOn(cfg, p, log, "HT", q, l, ['T'], Counts(b, 3).(state := ResHTT), l);
    FixedGoes(cfg, Counts(b, 3).(state := ResHTT), l, 'P', ResHTTP);
    GoesOn(cfg, p, log, "HTT", Counts(b, 3).(state := ResHTT), l, ['P'], Counts(b, 4).(state := ResHTTP), l);
    FixedGoes(cfg, Counts(b, 4).(state := ResHTTP), l, '/', ResHttpMajor);
    GoesOn(cfg, p, log, "HTTP", Counts(b, 4).(state := ResHTTP), l, ['/'], Counts(b, 5).(state := ResHttpMajor), l);
  }

  lemma StatusMajor(cfg: Config, p: Parser, log: Log, d: nat)
    requires ResponseStart(p) && d < 10 && p.nread + 7 <= cfg.maxHeader
    ensures Goes(cfg, p, log, "HTTP/" + [DigitChar(d)] + ".", Counts(Answered(p), 7).(major := d, state := ResHttpMinor),
                 log + [Called(MessageBegin)])
  {
    hide Goes, ResponseStart, Answered;
    AnsweredReads(p);
    var b, l := Answered(p), log + [Called(MessageBegin)];
    StatusWord(cfg, p, log);
    var q := Counts(b, 5).(state := ResHttpMajor);
    ResDigit(cfg, q, l, d);
    var q1 := Counts(q, 1).(major := d, state := ResHttpDot);
    GoesOn(cfg, p, log, "HTTP/", q, l, [DigitChar(d)], q1, l);
    DotGoes(cfg, q1, l);
    GoesOn(cfg, p, log, "HTTP/" + [DigitChar(d)], q1, l, ".", Counts(q1, 1).(state := ResHttpMinor), l);
  }

  // The version of a response and the space behind it.
  lemma StatusVersion(cfg: Config, p: Parser, log: Log, v: G.Version)
    requires ResponseStart(p) && G.VersionOk(v) && !v.ice && p.nread + 9 <= cfg.maxHeader
    ensures |G.VersionText(v)| == 8
    ensures Goes(cfg, p, log, G.VersionText(v) + " ",
                 Counts(Answered(p), 9).(major := v.major, minor := v.minor, state := ResFirstStatusCode),
                 log + [Called(MessageBegin)])
  {
    hide Goes, Fixed, ResponseStart, Answered;
    AnsweredReads(p);
    ResponseWord();
    var b, l := Answered(p), log + [Called(MessageBegin)];
    var a, z := [DigitChar(v.major)], [DigitChar(v.minor)];
    StatusMajor(cfg, p, log, v.major);
    var q2 := Counts(b, 7).(major := v.major, state := ResHttpMinor);
    ResDigit(cfg, q2, l, v.minor);
    var q3 := Counts(q2, 1).(minor := v.minor, state := ResHttpEnd);
    GoesOn(cfg, p, log, "HTTP/" + a + ".", q2, l, z, q3, l);
    FixedGoes(cfg, q3, l, ' ', ResFirstStatusCode);
    GoesOn(cfg, p, log, "HTTP/" + a + "." + z, q3, l, [' '], Counts(q3, 1).(state := ResFirstStatusCode), l);
    assert "HTTP/" + a + "." + z == G.VersionText(v);
  }

  // ---- The status code.

  lemma FirstCode(cfg: Config, p: Parser, log: Log, c: char)
    requires p.state == ResFirstStatusCode && IsDigit(c) && p.nread + 1 <= cfg.maxHeader
    ensures Goes(cfg, p, log, [c], Counts(p, 1).(state := ResStatusCode, status := c as int - '0' as int), log)
  {
    StatusSteps(Counts(p, 1), c);
    hide Goes, ResponseLine, GroupOf;
    ResponseGoes(cfg, p, log, c, Counts(p, 1).(state := ResStatusCode, status := c as int - '0' as int));
  }

  lemma NextCode(cfg: Config, p: Parser, log: Log, c: char)
    requires p.state == ResStatusCode && IsDigit(c) && p.nread + 1 <= cfg.maxHeader
    requires p.status * 10 + (c as int - '0' as int) <= 999
    ensures Goes(cfg, p, log, [c], Counts(p, 1).(status := p.status * 10 + (c as int - '0' as int)), log)
  {
    StatusSteps(Counts(p, 1), c);
    hide Goes, ResponseLine, GroupOf, StatusStart;
    ResponseGoes(cfg, p, log, c, Counts(p, 1).(status := p.status * 10 + (c as int - '0' as int)));
  }

  lemma DigitsPart(code: string, n: nat)
    requires G.Digits(code) && 0 < n <= |code|
    ensures G.Digits(code[..n]) && IsDigit(code[n - 1]) && code[..n][..n - 1] == code[..n - 1]
    ensures DecimalValue(code[..n]) <= DecimalValue(code)
    ensures n > 1 ==>
              G.Digits(code[..n - 1])
              && DecimalValue(code[..n]) == DecimalValue(code[..n - 1]) * 10 + (code[n - 1] as int - '0' as int)
    ensures n == 1 ==> DecimalValue(code[..n]) == code[0] as int - '0' as int
    decreases |code| - n
  {
    assert code[n - 1] in code;
    forall c | c in code[..n] ensures IsDigit(c) {
    }
    assert code[..n][..n - 1] == code[..n - 1];
    assert DecimalValue("") == 0;
    if n == |code| {
      assert code[..n] == code;
    } else {
      DigitsPart(code, n + 1);
    }
  }

  lemma {:induction false} CodeRun(cfg: Config, p: Parser, log: Log, code: string, n: nat)
    requires p.state == ResFirstStatusCode && G.Digits(code) && DecimalValue(code) <= 999 && 0 < n <= |code|
    requires p.nread + n <= cfg.maxHeader
    ensures G.Digits(code[..n])
    ensures Goes(cfg, p, log, code[..n], Counts(p, n).(state := ResStatusCode, status := DecimalValue(code[..n])), log)
    decreases n
  {
    hide Goes, DecimalValue;
    DigitsPart(code, n);
    if n == 1 {
      assert code[..1] == [code[0]];
      FirstCode(cfg, p, log, code[0]);
    } else {
      CodeRun(cfg, p, log, code, n - 1);
      var q := Counts(p, n - 1).(state := ResStatusCode, status := DecimalValue(code[..n - 1]));
      NextCode(cfg, q, log, code[n - 1]);
      assert code[..n] == code[..n - 1] + [code[n - 1]];
      GoesOn(cfg, p, log, code[..n - 1], q, log, [code[n - 1]],
             Counts(p, n).(state := ResStatusCode, status := DecimalValue(code[..n])), log);
    }
  }

  // ---- The reason.

  lemma ReasonFirst(cfg: Config, p: Parser, log: Log, c: char)
    requires p.state == ResStatusStart && p.nread + 1 <= cfg.maxHeader && c != CR && c != LF && !EndsWith(log, Status)
    ensures Goes(cfg, p, log, [c], Counts(p, 1).(state := ResStatus, index := 0), log + [Data(Status, [c])])
  {
    StatusSteps(Counts(p, 1), c);
    assert [Mark(Status)] + [] == [Mark(Status)];
    hide Goes, Emit, ResponseLine, GroupOf, Step, Resumed;
    ResponseStep(cfg, p, c);
    EmitNew(log, Status, [c]);
    MarkGoes(cfg, p, log, c, Counts(p, 1).(state := ResStatus, index := 0), Status);
  }

  lemma ReasonByte(cfg: Config, p: Parser, log: Log, t: string, c: char)
    requires p.state == ResStatus && p.nread + 1 <= cfg.maxHeader && c != CR && c != LF
    ensures Goes(cfg, p, log + [Data(Status, t)], [c], Counts(p, 1), log + [Data(Status, t + [c])])
  {
    StatusSteps(Counts(p, 1), c);
    hide Goes, Emit, ResponseLine, GroupOf, Step, Resumed;
    ResponseStep(cfg, p, c);
    EmitMore(log, Status, t, [c]);
    InsideGoes(cfg, p, log + [Data(Status, t)], c, Counts(p, 1), Status);
  }

  lemma {:induction false} ReasonRun(cfg: Config, p: Parser, log: Log, s: string, n: nat)
    requires p.state == ResStatusStart && 0 < n <= |s| && G.NoLineEnd(s) && p.nread + n <= cfg.maxHeader
    requires !EndsWith(log, Status)
    ensures Goes(cfg, p, log, s[..n], Counts(p, n).(state := ResStatus, index := 0), log + [Data(Status, s[..n])])
    decreases n
  {
    hide Goes, Emit;
    if n == 1 {
      assert s[..1] == [s[0]];
      ReasonFirst(cfg, p, log, s[0]);
    } else {
      ReasonRun(cfg, p, log, s, n - 1);
      var q := Counts(p, n - 1).(state := ResStatus, index := 0);
      ReasonByte(cfg, q, log, s[..n - 1], s[n - 1]);
      assert s[..n] == s[..n - 1] + [s[n - 1]];
      GoesOn(cfg, p, log, s[..n - 1], q, log + [Data(Status, s[..n - 1])], [s[n - 1]], Counts(q, 1),
             log + [Data(Status, s[..n])]);
    }
  }

  // The byte that ends the reason, or the code without one.
  lemma ReasonEnds(cfg: Config, p: Parser, log: Log, c: char)
    requires p.state == ResStatus && p.nread + 1 <= cfg.maxHeader && (c == CR || c == LF) && EndsWith(log, Status)
    ensures Goes(cfg, p, log, [c],
                 Counts(p, 1).(state := if c == LF then HeaderFieldStart else ResLineAlmostDone), log)
  {
    StatusSteps(Counts(p, 1), c);
    hide Goes, Emit, ResponseLine, GroupOf, Step, Resumed;
    ResponseStep(cfg, p, c);
    FlushGoes(cfg, p, log, c, Counts(p, 1).(state := if c == LF then HeaderFieldStart else ResLineAlmostDone), Status);
  }

  lemma NoReason(cfg: Config, p: Parser, log: Log, c: char)
    requires (p.state == ResStatusStart || p.state == ResStatusCode) && p.nread + 1 <= cfg.maxHeader
    requires (c == CR || c == LF) && !EndsWith(log, Status)
    ensures Goes(cfg, p, log, [c],
                 Counts(p, 1).(state := if c == LF then HeaderFieldStart else ResLineAlmostDone, index := 0),
                 log + [Data(Status, "")])
  {
    StatusSteps(Counts(p, 1), c);
    assert [Mark(Status)] + [Flush(Status)] == [Mark(Status), Flush(Status)];
    hide Goes, Emit, ResponseLine, GroupOf, Step, Resumed;
    ResponseStep(cfg, p, c);
    EmitNew(log, Status, "");
    EmptyGoes(cfg, p, log, c, Counts(p, 1).(state := if c == LF then HeaderFieldStart else ResLineAlmostDone, index := 0),
              Status);
  }

  lemma CodeSpace(cfg: Config, p: Parser, log: Log)
    requires p.state == ResStatusCode && p.nread + 1 <= cfg.maxHeader
    ensures Goes(cfg, p, log, " ", Counts(p, 1).(state := ResStatusStart), log)
  {
    StatusSteps(Counts(p, 1), ' ');
    hide Goes, ResponseLine, GroupOf;
    ResponseGoes(cfg, p, log, ' ', Counts(p, 1).(state := ResStatusStart));
  }

  // The line feed behind a carriage return.
  lemma LastLf(cfg: Config, p: Parser, log: Log, s: string, q: Parser, l: Log, bare: bool)
    requires Goes(cfg, p, log, s + [if bare then LF else CR], q, l)
    requires q.state == (if bare then HeaderFieldStart else ResLineAlmostDone)
    requires !bare ==> q.nread + 1 <= cfg.maxHeader
    ensures Goes(cfg, p, log, s + G.Eol(bare), (if bare then q else Counts(q, 1)).(state := HeaderFieldStart), l)
  {
    hide Goes, Fixed;
    ResponseWord();
    if bare {
      assert G.Eol(true) == [LF];
    } else {
      FixedGoes(cfg, q, l, LF, HeaderFieldStart);
      GoesOn(cfg, p, log, s + [CR], q, l, [LF], Counts(q, 1).(state := HeaderFieldStart), l);
      assert s + [CR] + [LF] == s + G.Eol(false);
    }
  }

  // What stands behind the code.
  function ReasonText(reason: Option<string>): string { if reason.None? then "" else " " + reason.value }

  // Without a reason, or with an empty one.
  lemma EmptyReason(cfg: Config, p: Parser, log: Log, reason: Option<string>, bare: bool)
    requires p.state == ResStatusCode && !EndsWith(log, Status) && (reason.Some? ==> reason.value == "")
    requires p.nread + |ReasonText(reason)| + 1 <= cfg.maxHeader
    ensures Goes(cfg, p, log, ReasonText(reason) + [if bare then LF else CR],
                 Counts(p, |ReasonText(reason)| + 1).(state := if bare then HeaderFieldStart else ResLineAlmostDone, index := 0),
                 log + [Data(Status, "")])
  {
    hide Goes, Emit;
    var c := if bare then LF else CR;
    var end := if bare then HeaderFieldStart else ResLineAlmostDone;
    if reason.None? {
      NoReason(cfg, p, log, c);
      assert ReasonText(reason) + [c] == [c];
    } else {
      CodeSpace(cfg, p, log);
      var q := Counts(p, 1).(state := ResStatusStart);
      NoReason(cfg, q, log, c);
      GoesOn(cfg, p, log, " ", q, log, [c], Counts(q, 1).(state := end, index := 0), log + [Data(Status, "")]);
      assert ReasonText(reason) == " ";
    }
  }

  lemma FullReason(cfg: Config, p: Parser, log: Log, r: string, bare: bool)
    requires p.state == ResStatusCode && !EndsWith(log, Status) && r != "" && G.NoLineEnd(r)
    requires p.nread + |r| + 2 <= cfg.maxHeader
    ensures Goes(cfg, p, log, " " + r + [if bare then LF else CR],
                 Counts(p, |r| + 2).(state := if bare then HeaderFieldStart else ResLineAlmostDone, index := 0),
                 log + [Data(Status, r)])
  {
    hide Goes, Emit;
    var c := if bare then LF else CR;
    var l := log + [Data(Status, r)];
    CodeSpace(cfg, p, log);
    var q := Counts(p, 1).(state := ResStatusStart);
    ReasonRun(cfg, q, log, r, |r|);
    assert r[..|r|] == r;
    var q1 := Counts(q, |r|).(state := ResStatus, index := 0);
    GoesOn(cfg, p, log, " ", q, log, r, q1, l);
    ReasonEnds(cfg, q1, l, c);
    GoesOn(cfg, p, log, " " + r, q1, l, [c], Counts(q1, 1).(state := if bare then HeaderFieldStart else ResLineAlmostDone), l);
  }

  lemma ReasonPart(cfg: Config, p: Parser, log: Log, reason: Option<string>, bare: bool)
    requires p.state == ResStatusCode && !EndsWith(log, Status) && (reason.Some? ==> G.NoLineEnd(reason.value))
    requires p.nread + |ReasonText(reason)| + |G.Eol(bare)| <= cfg.maxHeader
    ensures
      var s := ReasonText(reason) + G.Eol(bare);
      Goes(cfg, p, log, s, Counts(p, |s|).(state := HeaderFieldStart, index := 0),
           log + [Data(Status, if reason.None? then "" else reason.value)])
  {
    hide Goes, Emit;
    var r := if reason.None? then "" else reason.value;
    if r == "" {
      EmptyReason(cfg, p, log, reason, bare);
    } else {
      FullReason(cfg, p, log, r, bare);
    }
    var q := Counts(p, |ReasonText(reason)| + 1).(state := if bare then HeaderFieldStart else ResLineAlmostDone, index := 0);
    LastLf(cfg, p, log, ReasonText(reason), q, log + [Data(Status, r)], bare);
  }

  lemma StatusParts(line: G.Line)
    requires line.StatusLine? && G.VersionOk(line.version)
    ensures G.LineText(line)
         == (G.VersionText(line.version) + " ") + line.code + (ReasonText(line.reason) + G.Eol(line.bare))
  {
    hide G.VersionText, G.Eol;
    assert G.LineText(line)
        == G.VersionText(line.version) + (" " + (line.code + (ReasonText(line.reason) + G.Eol(line.bare))));
  }

  lemma StatusLineRead(cfg: Config, p: Parser, log: Log, line: G.Line)
    requires line.StatusLine? && G.LineOk(line) && ResponseStart(p) && p.nread + |G.LineText(line)| <= cfg.maxHeader
    ensures Goes(cfg, p, log, G.LineText(line), Counts(LineParser(p, line), |G.LineText(line)|), log + LineEvents(line))
  {
    hide Goes, G.VersionText, G.Eol, DecimalValue, Answered, ReasonText;
    StatusParts(line);
    AnsweredReads(p);
    hide G.LineText;
    var v, code, rest := G.VersionText(line.version) + " ", line.code, ReasonText(line.reason) + G.Eol(line.bare);
    var l := log + [Called(MessageBegin)];
    StatusVersionLength(line.version);
    StatusVersion(cfg, p, log, line.version);
    var q := Counts(Answered(p), 9).(major := line.version.major, minor := line.version.minor, state := ResFirstStatusCode);
    CodeRun(cfg, q, l, code, |code|);
    assert code[..|code|] == code;
    var q1 := Counts(q, |code|).(state := ResStatusCode, status := DecimalValue(code));
    GoesOn(cfg, p, log, v, q, l, code, q1, l);
    ReasonPart(cfg, q1, l, line.reason, line.bare);
    var q2 := Counts(q1, |rest|).(state := HeaderFieldStart, index := 0);
    var all := l + [Data(Status, if line.reason.None? then "" else line.reason.value)];
    GoesOn(cfg, p, log, v + code, q1, l, rest, q2, all);
    assert all == log + LineEvents(line);
    LineParserIs(p, line, q2);
  }

  lemma StatusVersionLength(v: G.Version)
    requires G.VersionOk(v) && !v.ice
    ensures |G.VersionText(v)| == 8
  {
  }

  lemma AnsweredReads(p: Parser)
    ensures Answered(p).nread == p.nread
  {
  }

  lemma LineParserIs(p: Parser, line: G.Line, q: Parser)
    requires line.StatusLine? && G.LineOk(line)
    requires q == Answered(p).(state := HeaderFieldStart, nread := q.nread, major := line.version.major,
                               minor := line.version.minor, status := DecimalValue(line.code), index := 0)
    requires q.nread == p.nread + |G.LineText(line)|
    ensures q == Counts(LineParser(p, line), |G.LineText(line)|)
  {
    hide G.LineText, DecimalValue;
  }

  // Which parsers can read a line.
  predicate CanStart(p: Parser, line: G.Line) { if line.RequestLine? then RequestStart(p) else ResponseStart(p) }

  /** The first line of a message. */
  lemma LineRead(cfg: Config, p: Parser, log: Log, line: G.Line)
    requires G.LineOk(line) && CanStart(p, line) && p.nread + |G.LineText(line)| <= cfg.maxHeader
    ensures Goes(cfg, p, log, G.LineText(line), Counts(LineParser(p, line), |G.LineText(line)|), log + LineEvents(line))
  {
    hide Goes, G.LineText, LineParser, LineEvents, G.LineOk, RequestStart, ResponseStart;
    if line.RequestLine? {
      RequestLineRead(cfg, p, log, line);
    } else {
      StatusLineRead(cfg, p, log, line);
    }
  }

  // ---- Exactly which methods are accepted.

  lemma OtherBegins(m: Method, k: nat, c: char)
    requires k <= |MethodName(m)| && OtherMethod(m, k, c) != m
    ensures
      var name := MethodName(OtherMethod(m, k, c));
      k < |name| && name[k] == c && forall i :: 0 <= i < k ==> name[i] == MethodName(m)[i]
  {
    if m == POST || m == PUT || m == CONNECT || m == MKCOL {
      OtherFirst(m, k, c);
    } else {
      OtherLast(m, k, c);
    }
    hide MethodName, OtherMethod;
  }

  lemma OtherFirst(m: Method, k: nat, c: char)
    requires k <= |MethodName(m)| && OtherMethod(m, k, c) != m && (m == POST || m == PUT || m == CONNECT || m == MKCOL)
    ensures
      var name := MethodName(OtherMethod(m, k, c));
      k < |name| && name[k] == c && forall i :: 0 <= i < k ==> name[i] == MethodName(m)[i]
  {
  }

  lemma OtherLast(m: Method, k: nat, c: char)
    requires k <= |MethodName(m)| && OtherMethod(m, k, c) != m && !(m == POST || m == PUT || m == CONNECT || m == MKCOL)
    ensures
      var name := MethodName(OtherMethod(m, k, c));
      k < |name| && name[k] == c && forall i :: 0 <= i < k ==> name[i] == MethodName(m)[i]
  {
  }

  // The parser has read `w` as the beginning of its method.
  predicate MethodSoFar(p: Parser, w: string) {
    && p.state == ReqMethod && p.index == |w| <= |MethodName(p.verb)|
    && forall i :: 0 <= i < |w| ==> MethodName(p.verb)[i] == w[i]
  }

  lemma MethodBegins(cfg: Config, p: Parser, log: Log, c: char)
    requires p.state == StartReq && p.nread + 1 <= cfg.maxHeader && c != CR && c != LF
    ensures
      var r := PerByte(cfg, Going(p, log), [c]);
      if r.Going? then MethodSoFar(r.p, [c]) && r.p.nread == p.nread + 1 else r.Failed?
  {
    Single(cfg, p, log, c);
    FirstBegins(Counts(p, 1), c);
    hide Perform, CloseAll, StartRequest, MethodName, Step, Resumed;
    StartStep(cfg, p, c);
  }

  lemma FirstBegins(p: Parser, c: char)
    requires c != CR && c != LF
    ensures
      var o := StartRequest(p, c);
      (o.Next? || o.Fail?) && (o.Next? ==> MethodSoFar(o.p, [c]) && o.p.nread == p.nread)
  {
  }

  lemma OtherByteStep(p: Parser, w: string, c: char)
    requires MethodSoFar(p, w) && OtherMethod(p.verb, p.index, c) != p.verb
    ensures MethodSoFar(p.(verb := OtherMethod(p.verb, p.index, c), index := p.index + 1), w + [c])
  {
    OtherBegins(p.verb, p.index, c);
    hide OtherMethod, MethodName;
  }

  lemma SameByteStep(p: Parser, w: string, c: char)
    requires MethodSoFar(p, w) && p.index < |MethodName(p.verb)| && c == MethodName(p.verb)[p.index]
    ensures MethodSoFar(p.(index := p.index + 1), w + [c])
  {
    hide MethodName;
  }

  lemma MethodByteStep(p: Parser, w: string, c: char)
    requires MethodSoFar(p, w) && c != ' '
    ensures
      var o := MethodByte(p, c);
      (o == Fail(INVALID_METHOD)) || (o.Next? && o.acts == [] && MethodSoFar(o.p, w + [c]) && o.p.nread == p.nread)
  {
    if p.index < |MethodName(p.verb)| && c == MethodName(p.verb)[p.index] {
      SameByteStep(p, w, c);
    }
    if OtherMethod(p.verb, p.index, c) != p.verb {
      OtherByteStep(p, w, c);
    }
    MethodIndex(p, w);
    hide OtherMethod, MethodName, MethodSoFar;
  }

  lemma MethodIndex(p: Parser, w: string)
    requires MethodSoFar(p, w)
    ensures p.index <= |MethodName(p.verb)|
  {
    hide MethodName;
  }

  lemma MethodByteGoes(cfg: Config, p: Parser, log: Log, w: string, c: char, before: nat)
    requires MethodSoFar(p, w) && p.nread + 1 <= cfg.maxHeader && c != ' '
    ensures
      var r := OneByte(cfg, p, log, c, before);
      if r.Going? then MethodSoFar(r.p, w + [c]) && r.p.nread == p.nread + 1 else r.Failed?
  {
    MethodByteStep(Counts(p, 1), w, c);
    MethodLine(Counts(p, 1), c);
    hide Perform, CloseAll, OtherMethod, MethodName, RequestLine, MethodByte, GroupOf, Resumed, Step;
    RequestStep(cfg, p, c);
  }

  lemma MethodSpace(cfg: Config, p: Parser, log: Log, w: string, before: nat)
    requires MethodSoFar(p, w) && p.nread + 1 <= cfg.maxHeader
    ensures
      var r := OneByte(cfg, p, log, ' ', before);
      if w == MethodName(p.verb) then r.Going? && r.p.state == ReqSpacesBeforeUrl && r.p.verb == p.verb else r.Failed?
  {
    MethodLine(Counts(p, 1), ' ');
    MethodLetters(p.verb);
    hide Perform, CloseAll, OtherMethod, MethodName, RequestLine, GroupOf, Resumed, Step;
    RequestStep(cfg, p, ' ');
    assert |w| == |MethodName(p.verb)| ==> w == MethodName(p.verb);
  }

  lemma {:induction false} MethodPrefix(cfg: Config, p: Parser, log: Log, w: string)
    requires p.state == StartReq && w != "" && p.nread + |w| <= cfg.maxHeader
    requires ' ' !in w && w[0] != CR && w[0] != LF
    ensures
      var r := PerByte(cfg, Going(p, log), w);
      if r.Going? then MethodSoFar(r.p, w) && r.p.nread == p.nread + |w| else r.Failed?
    decreases |w|
  {
    hide OneByte, MethodSoFar;
    var k := |w| - 1;
    if k == 0 {
      assert w == [w[0]];
      MethodBegins(cfg, p, log, w[0]);
    } else {
      MethodPrefix(cfg, p, log, w[..k]);
      assert w[k] in w && w == w[..k] + [w[k]];
      var r := PerByte(cfg, Going(p, log), w[..k]);
      if r.Going? {
        MethodByteGoes(cfg, r.p, r.log, w[..k], w[k], k);
      }
    }
  }

  /** The bytes in front of the first space are accepted as a method exactly if they are its name. */
  lemma MethodIsExactly(cfg: Config, p: Parser, log: Log, w: string)
    requires p.state == StartReq && p.kind == Request && w != "" && p.nread + |w| + 1 <= cfg.maxHeader
    requires ' ' !in w && w[0] != CR && w[0] != LF
    ensures
      var r := PerByte(cfg, Going(p, log), w + " ");
      && (r.Going? <==> exists m :: MethodName(m) == w)
      && (r.Going? ==> r.p.state == ReqSpacesBeforeUrl && MethodName(r.p.verb) == w)
      && (!r.Going? ==> r.Failed?)
  {
    hide OneByte, MethodSoFar, MethodName;
    MethodPrefix(cfg, p, log, w);
    assert (w + " ")[..|w|] == w && w + " " == w + [' '];
    var r := PerByte(cfg, Going(p, log), w);
    if r.Going? {
      MethodSpace(cfg, r.p, r.log, w, |w|);
    }
    forall m | MethodName(m) == w ensures PerByte(cfg, Going(p, log), w + " ").Going? {
      hide PerByte;
      MethodGoes(cfg, p, log, m);
    }
  }
}
