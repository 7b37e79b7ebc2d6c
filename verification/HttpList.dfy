/**
  How the parser reads the lists in `Connection` and `Transfer-Encoding`, member by member.
 */
module HttpList {
  import opened HttpChars
  import opened HttpStep
  import opened Text
  import opened HttpName
  import G = HttpGrammar

  // ---- Several bytes of a value, as far as the matcher is concerned.

  function Fed(m: Matcher, s: string): Matching {
    if s == "" then Good(m)
    else
      match Fed(m, s[..|s| - 1])
      case Good(m') => ValueMatch(m', s[|s| - 1])
      case Bad(e) => Bad(e)
      case Impossible => Impossible
  }

  lemma {:induction false} FedConcat(m: Matcher, a: string, b: string)
    requires Fed(m, a).Good?
    ensures Fed(m, a + b) == Fed(Fed(m, a).m, b)
    decreases |b|
  {
    hide ValueMatch;
    if b == "" {
      assert a + b == a;
    } else {
      assert (a + b)[..|a + b| - 1] == a + b[..|b| - 1];
      FedConcat(m, a, b[..|b| - 1]);
    }
  }

  lemma FedOne(m: Matcher, c: char)
    ensures Fed(m, [c]) == ValueMatch(m, c)
  {
    assert [c][..0] == "";
    hide ValueMatch;
  }

  // One byte, then more.
  lemma FedFirst(m: Matcher, c: char, s: string)
    requires ValueMatch(m, c).Good?
    ensures Fed(m, [c] + s) == Fed(ValueMatch(m, c).m, s)
  {
    hide ValueMatch, Fed;
    FedOne(m, c);
    FedConcat(m, [c], s);
  }

  // ---- The two lists.

  datatype Family = Options | Codings

  function Words(k: Family): set<string> { if k == Options then G.OPTIONS else {CHUNKED} }

  function Start(k: Family): HeaderState { if k == Options then HMatchingConnTokenStart else HMatchingTeTokenStart }

  function Other(k: Family): HeaderState { if k == Options then HMatchingConnToken else HMatchingTeToken }

  // The state after the beginning of a member, in lower case.
  function WordState(k: Family, w: string): HeaderState {
    if k == Options then
      if w == KEEP_ALIVE then HConnKeepAlive
      else if w == CLOSE then HConnClose
      else if w == UPGRADE then HConnUpgrade
      else if w < KEEP_ALIVE then HMatchingConnKeepAlive
      else if w < CLOSE then HMatchingConnClose
      else if w < UPGRADE then HMatchingConnUpgrade
      else HMatchingConnToken
    else if w == CHUNKED then HTeChunked
    else if w < CHUNKED then HMatchingTeChunked
    else HMatchingTeToken
  }

  predicate Partial1(hs: HeaderState) {
    hs == HMatchingConnKeepAlive || hs == HMatchingConnClose || hs == HMatchingConnUpgrade || hs == HMatchingTeChunked
  }

  predicate Whole1(hs: HeaderState) {
    hs == HConnKeepAlive || hs == HConnClose || hs == HConnUpgrade || hs == HTeChunked
  }

  predicate InWord(k: Family, m: Matcher, w: string) {
    w != "" && m.hs == WordState(k, w) && (Partial1(m.hs) ==> m.index + 1 == |w|)
  }

  // Letters in lower case; any other byte of a token stays apart from the letters.
  lemma LowerBitIs(c: char)
    ensures 'a' <= Lower(c) <= 'z' <==> 'a' <= LowerBit(c) <= 'z'
    ensures 'a' <= Lower(c) <= 'z' ==> Lower(c) == LowerBit(c)
    ensures G.TokenByte(c) ==> (LowerBit(c) == '-' <==> c == '-') && (Lower(c) == '-' <==> c == '-')
  {
  }

  predicate Lettered(word: string) {
    |word| > 1 && forall i :: 0 <= i < |word| ==> 'a' <= word[i] <= 'z' || word[i] == '-'
  }

  lemma SameLetter(c: char, word: string, i: nat)
    requires Lettered(word) && i < |word| && G.TokenByte(c)
    ensures LowerBit(c) == word[i] <==> Lower(c) == word[i]
  {
    LowerBitIs(c);
    assert 'a' <= word[i] <= 'z' || word[i] == '-';
    hide LowerBit, Lower, G.TokenByte;
  }

  lemma WordsLettered()
    ensures Lettered(KEEP_ALIVE) && Lettered(CLOSE) && Lettered(UPGRADE) && Lettered(CHUNKED)
  {
  }

  predicate WordOf(k: Family, reading: HeaderState, whole: HeaderState, word: string) {
    || (k == Options && reading == HMatchingConnKeepAlive && whole == HConnKeepAlive && word == KEEP_ALIVE)
    || (k == Options && reading == HMatchingConnClose && whole == HConnClose && word == CLOSE)
    || (k == Options && reading == HMatchingConnUpgrade && whole == HConnUpgrade && word == UPGRADE)
    || (k == Codings && reading == HMatchingTeChunked && whole == HTeChunked && word == CHUNKED)
  }

  lemma OneOption(w: string)
    ensures Of(w, KEEP_ALIVE) ==> !Of(w, CLOSE) && !Of(w, UPGRADE)
    ensures Of(w, CLOSE) ==> !Of(w, UPGRADE)
  {
    if Of(w, KEEP_ALIVE) { Apart(w, KEEP_ALIVE); }
    if Of(w, CLOSE) { Apart(w, CLOSE); }
    if Of(w, UPGRADE) { Apart(w, UPGRADE); }
  }

  lemma StateIsWord(k: Family, w: string, reading: HeaderState, whole: HeaderState, word: string)
    requires WordOf(k, reading, whole, word) && w != ""
    ensures Of(w, word) ==> WordState(k, w) == if w == word then whole else reading
    ensures WordState(k, w) == reading || WordState(k, w) == whole ==> Of(w, word)
    ensures WordState(k, w) == reading ==> w != word
    ensures WordState(k, w) == whole ==> w == word
  {
    OneOption(w);
  }

  // The words of the family that `w` may begin.
  predicate OfAny(k: Family, w: string) {
    if k == Options then Of(w, KEEP_ALIVE) || Of(w, CLOSE) || Of(w, UPGRADE) else Of(w, CHUNKED)
  }

  lemma StateIsOther(k: Family, w: string)
    requires w != ""
    ensures WordState(k, w) == Other(k) <==> !OfAny(k, w)
  {
  }

  // A word goes on, or it turns into another one.
  lemma WordGoes(k: Family, w: string, ch: char, m: Matcher, reading: HeaderState, whole: HeaderState, word: string)
    requires WordOf(k, reading, whole, word) && InWord(k, m, w) && m.hs == reading && G.TokenByte(ch)
    ensures
      var m' := WordByte(m, word, LowerBit(ch), whole, Other(k));
      InWord(k, m', w + [Lower(ch)]) && m' == m.(hs := m'.hs, index := m'.index)
  {
    var c, v := Lower(ch), w + [Lower(ch)];
    StateIsWord(k, w, reading, whole, word);
    OnePrefix(w, c, word);
    WordsLettered();
    SameLetter(ch, word, |w|);
    StateIsWord(k, v, reading, whole, word);
    if !Of(v, word) {
      OneOption(w);
      NotAny(k, w, c, word);
      StateIsOther(k, v);
    }
    hide WordState, LowerBit, Lower, Lettered;
  }

  lemma NotAny(k: Family, w: string, c: char, word: string)
    requires w != "" && Of(w, word) && !Of(w + [c], word)
    requires k == Options ==> word in {KEEP_ALIVE, CLOSE, UPGRADE}
    requires k == Codings ==> word == CHUNKED
    ensures !OfAny(k, w + [c])
  {
    OneOption(w);
    hide Of;
    if k == Options {
      if word != KEEP_ALIVE { Longer(w, c, KEEP_ALIVE); }
      if word != CLOSE { Longer(w, c, CLOSE); }
      if word != UPGRADE { Longer(w, c, UPGRADE); }
    }
  }

  lemma WholeEnds(k: Family, w: string, c: char)
    requires w != "" && Whole1(WordState(k, w))
    ensures WordState(k, w + [c]) == Other(k)
  {
    var v := w + [c];
    OneOption(w);
    if k == Options {
      if w != KEEP_ALIVE { Longer(w, c, KEEP_ALIVE); }
      if w != CLOSE { Longer(w, c, CLOSE); }
      if w != UPGRADE { Longer(w, c, UPGRADE); }
    }
    StateIsOther(k, v);
  }

  lemma OtherStays(k: Family, w: string, c: char)
    requires w != "" && WordState(k, w) == Other(k)
    ensures WordState(k, w + [c]) == Other(k)
  {
    StateIsOther(k, w);
    hide Of, WordState;
    if k == Options {
      Longer(w, c, KEEP_ALIVE);
      Longer(w, c, CLOSE);
      Longer(w, c, UPGRADE);
    } else {
      Longer(w, c, CHUNKED);
    }
    StateIsOther(k, w + [c]);
  }

  function WordIn(hs: HeaderState): string {
    match hs
    case HMatchingConnKeepAlive => KEEP_ALIVE
    case HMatchingConnClose => CLOSE
    case HMatchingConnUpgrade => UPGRADE
    case _ => CHUNKED
  }

  function Ends(hs: HeaderState): HeaderState {
    match hs
    case HMatchingConnKeepAlive => HConnKeepAlive
    case HMatchingConnClose => HConnClose
    case HMatchingConnUpgrade => HConnUpgrade
    case _ => HTeChunked
  }

  // The steps of the matcher in these states.
  lemma MatchPartial(k: Family, w: string, m: Matcher, c: char)
    requires InWord(k, m, w) && Partial1(m.hs)
    ensures ValueMatch(m, c) == Good(WordByte(m, WordIn(m.hs), LowerBit(c), Ends(m.hs), Other(k)))
  {
    StateKinds(k, w);
    hide WordState, LowerBit, WordByte;
  }

  lemma MatchWhole(k: Family, m: Matcher, c: char)
    requires Whole1(m.hs) && (k == Codings <==> m.hs == HTeChunked)
    ensures ValueMatch(m, c)
         == Good(if c == ' ' then m
                 else if c == ',' && k == Options then m.(flags := Concluded(m.hs, m.flags), hs := Start(k), index := 0)
                 else m.(hs := Other(k)))
  {
    hide LowerBit;
  }

  lemma MatchOther(k: Family, m: Matcher, c: char)
    requires m.hs == Other(k)
    ensures ValueMatch(m, c) == Good(if c == ',' then m.(hs := Start(k), index := 0) else m)
  {
    hide LowerBit;
  }

  // One more byte of a member.
  lemma MemberByte(k: Family, w: string, ch: char, m: Matcher)
    requires InWord(k, m, w) && G.TokenByte(ch)
    ensures
      var r := ValueMatch(m, ch);
      r.Good? && InWord(k, r.m, w + [Lower(ch)]) && r.m == m.(hs := r.m.hs, index := r.m.index)
  {
    var hs := WordState(k, w);
    NoSeparator(ch);
    StateKinds(k, w);
    hide WordState, LowerBit, Lower, G.TokenByte, ValueMatch, WordByte;
    if Partial1(hs) {
      MatchPartial(k, w, m, ch);
      PartialWord(k, hs);
      WordGoes(k, w, ch, m, hs, Ends(hs), WordIn(hs));
    } else if Whole1(hs) {
      MatchWhole(k, m, ch);
      WholeEnds(k, w, Lower(ch));
    } else {
      MatchOther(k, m, ch);
      OtherStays(k, w, Lower(ch));
    }
  }

  lemma PartialWord(k: Family, hs: HeaderState)
    requires Partial1(hs) && (k == Codings <==> hs == HMatchingTeChunked)
    ensures WordOf(k, hs, Ends(hs), WordIn(hs))
  {
  }

  lemma NoSeparator(ch: char)
    requires G.TokenByte(ch)
    ensures ch != ',' && ch != ' ' && ch != '\t' && ch != CR && ch != LF
  {
  }

  // The rest of a member.
  lemma {:induction false} MemberRest(k: Family, word: string, n: nat, m: Matcher)
    requires 0 < n <= |word| && (forall i :: 0 <= i < |word| ==> G.TokenByte(word[i])) && InWord(k, m, Fold(word[..n]))
    ensures
      var r := Fed(m, word[n..]);
      r.Good? && InWord(k, r.m, Fold(word)) && r.m == m.(hs := r.m.hs, index := r.m.index)
    decreases |word| - n
  {
    hide WordState, ValueMatch, InWord, Fed, G.TokenByte, Fold;
    if n == |word| {
      assert word[..n] == word && word[n..] == "";
      TrailNothing(m);
    } else {
      MemberByte(k, Fold(word[..n]), word[n], m);
      FoldSnoc(word, n);
      var m1 := ValueMatch(m, word[n]).m;
      MemberRest(k, word, n + 1, m1);
      FedFirst(m, word[n], word[n + 1..]);
      assert word[n..] == [word[n]] + word[n + 1..];
    }
  }

  // The first byte of a member behind a comma.
  lemma MemberStarts(k: Family, ch: char, m: Matcher)
    requires m.hs == Start(k) && m.index == 0 && G.TokenByte(ch)
    ensures
      var r := ValueMatch(m, ch);
      r.Good? && (if ch == '_' then r.m == m.(hs := HGeneral)
                  else InWord(k, r.m, [Lower(ch)]) && r.m == m.(hs := r.m.hs))
  {
    LowerBitIs(ch);
    FirstState(k, Lower(ch));
    LowerToken(ch);
    assert LowerBit(ch) != ' ';
    hide LowerBit, Lower, Token, WordState, G.TokenByte;
  }

  lemma LowerToken(ch: char)
    requires G.TokenByte(ch)
    ensures Token(LowerBit(ch)) != NUL <==> ch != '_'
    ensures LowerBit(ch) != ' ' && LowerBit(ch) != '\t'
  {
  }

  lemma FirstState(k: Family, c: char)
    ensures WordState(k, [c])
         == if k == Options then ConnectionToken(c)
            else if c == 'c' then HMatchingTeChunked else HMatchingTeToken
  {
    assert [c] == "" + [c];
    OnePrefix("", c, KEEP_ALIVE);
    OnePrefix("", c, CLOSE);
    OnePrefix("", c, UPGRADE);
    OnePrefix("", c, CHUNKED);
  }

  // A byte of a value after which nothing more is read.
  lemma {:induction false} DeafStays(m: Matcher, s: string)
    requires m.hs == HGeneral
    ensures Fed(m, s) == Good(m)
    decreases |s|
  {
    if s != "" {
      DeafStays(m, s[..|s| - 1]);
    }
  }

  // Without a comma, what is no known word stays so.
  lemma {:induction false} OtherSkips(k: Family, m: Matcher, s: string)
    requires m.hs == Other(k) && ',' !in s
    ensures Fed(m, s) == Good(m)
    decreases |s|
  {
    if s != "" {
      var n := |s| - 1;
      assert s[n] in s;
      OtherSkips(k, m, s[..n]);
    }
  }

  // Blanks in front of a member: a tab makes the parser deaf.
  lemma MatchStart(k: Family, m: Matcher, c: char)
    requires m.hs == Start(k) && (c == ' ' || c == '\t')
    ensures ValueMatch(m, c) == Good(if c == '\t' then m.(hs := HGeneral) else m)
  {
  }

  lemma {:induction false} LeadFed(k: Family, m: Matcher, s: string)
    requires m.hs == Start(k) && G.Blanks(s)
    ensures Fed(m, s) == Good(if '\t' in s then m.(hs := HGeneral) else m)
    decreases |s|
  {
    hide ValueMatch;
    if s != "" {
      var n := |s| - 1;
      LeadFed(k, m, s[..n]);
      assert s == s[..n] + [s[n]];
      if '\t' in s[..n] {
        DeafByte(m.(hs := HGeneral), s[n]);
      } else {
        MatchStart(k, m, s[n]);
      }
    }
  }

  lemma DeafByte(m: Matcher, c: char)
    requires m.hs == HGeneral
    ensures ValueMatch(m, c) == Good(m)
  {
    hide LowerBit;
  }

  // Blanks behind a member.
  lemma {:induction false} TrailFed(k: Family, w: string, m: Matcher, s: string)
    requires InWord(k, m, w) && G.Blanks(s)
    ensures
      var r := Fed(m, s);
      && r.Good? && r.m == m.(hs := r.m.hs, index := r.m.index)
      && r.m.hs == if s == "" || (Whole1(m.hs) && '\t' !in s) then m.hs else Other(k)
    decreases |s|
  {
    hide ValueMatch, WordState;
    if s != "" {
      var n := |s| - 1;
      TrailFed(k, w, m, s[..n]);
      assert s == s[..n] + [s[n]];
      var m1 := Fed(m, s[..n]).m;
      StateKinds(k, w);
      if n == 0 && Partial1(m.hs) {
        PartialBlank(k, w, m, s[n]);
      }
      BlankByte(k, m1, s[n]);
    }
  }

  lemma StateKinds(k: Family, w: string)
    ensures var hs := WordState(k, w);
      (Whole1(hs) || Partial1(hs) || hs == Other(k))
      && (Whole1(hs) || Partial1(hs) ==> (k == Codings <==> hs == HTeChunked || hs == HMatchingTeChunked))
  {
  }

  lemma BlankByte(k: Family, m: Matcher, c: char)
    requires c == ' ' || c == '\t'
    ensures m.hs == Other(k) ==> ValueMatch(m, c) == Good(m)
    ensures Whole1(m.hs) && (k == Codings <==> m.hs == HTeChunked) ==>
              ValueMatch(m, c) == Good(if c == ' ' then m else m.(hs := Other(k)))
  {
    hide ValueMatch;
    if m.hs == Other(k) {
      MatchOther(k, m, c);
    } else if Whole1(m.hs) && (k == Codings <==> m.hs == HTeChunked) {
      MatchWhole(k, m, c);
    }
  }

  // A blank is no byte of a word.
  lemma PartialBlank(k: Family, w: string, m: Matcher, c: char)
    requires InWord(k, m, w) && Partial1(m.hs) && (c == ' ' || c == '\t' || c == ',')
    ensures ValueMatch(m, c) == Good(m.(hs := Other(k), index := m.index + 1))
  {
    StateKinds(k, w);
    PartialWord(k, m.hs);
    StateIsWord(k, w, m.hs, Ends(m.hs), WordIn(m.hs));
    WordsLettered();
    NoLetter(c);
    MatchPartial(k, w, m, c);
    var word := WordIn(m.hs);
    hide ValueMatch, WordState, LowerBit, WordIn, Ends, Other;
    assert |w| < |word| && m.index + 1 == |w|;
    assert 'a' <= word[|w|] <= 'z' || word[|w|] == '-';
  }

  lemma NoLetter(c: char)
    requires c == ' ' || c == '\t' || c == ','
    ensures !('a' <= LowerBit(c) <= 'z') && LowerBit(c) != '-'
  {
  }

  // ---- Whole lists.

  // The state behind a member.
  function MemberState(k: Family, e: G.Elem): HeaderState {
    var hs := WordState(k, Fold(e.word));
    if e.trail == "" || (Whole1(hs) && '\t' !in e.trail) then hs else Other(k)
  }

  predicate Behind(k: Family, m: Matcher, e: G.Elem) {
    m.hs == MemberState(k, e) && (Partial1(m.hs) ==> InWord(k, m, Fold(e.word)))
  }

  lemma WordAndTrail(k: Family, m: Matcher, e: G.Elem)
    requires G.ElemOk(e) && InWord(k, m, [Lower(e.word[0])])
    ensures
      var r := Fed(m, e.word[1..] + e.trail);
      r.Good? && Behind(k, r.m, e) && r.m == m.(hs := r.m.hs, index := r.m.index)
  {
    hide WordState, ValueMatch, Fed, G.TokenByte;
    assert e.word[..1] == [e.word[0]] && e.word[..1][1..] == "" && Fold(e.word[..1]) == [Lower(e.word[0])];
    MemberRest(k, e.word, 1, m);
    var m1 := Fed(m, e.word[1..]).m;
    TrailFed(k, Fold(e.word), m1, e.trail);
    FedConcat(m, e.word[1..], e.trail);
    TrailNothing(m1);
    StateKinds(k, Fold(e.word));
  }

  lemma TrailNothing(m: Matcher)
    ensures Fed(m, "") == Good(m)
  {
  }

  // A member behind a comma.
  lemma MemberFed(k: Family, m: Matcher, e: G.Elem)
    requires G.ElemOk(e) && m.hs == Start(k) && m.index == 0
    ensures
      var r := Fed(m, G.ElemText(e));
      r.Good? && r.m == m.(hs := r.m.hs, index := r.m.index)
      && if G.Muted(e) then r.m.hs == HGeneral else Behind(k, r.m, e)
  {
    hide WordState, ValueMatch, Fed, G.TokenByte, InWord, MemberState;
    LeadFed(k, m, e.lead);
    var m1 := Fed(m, e.lead).m;
    var s := e.word + e.trail;
    FedConcat(m, e.lead, s);
    var c, rest := e.word[0], e.word[1..] + e.trail;
    assert s == [c] + rest;
    if '\t' in e.lead {
      DeafStays(m1, s);
    } else {
      MemberStarts(k, c, m1);
      FedFirst(m1, c, rest);
      var m2 := ValueMatch(m1, c).m;
      if c == '_' {
        DeafStays(m2, rest);
      } else {
        WordAndTrail(k, m2, e);
      }
    }
  }

  lemma CommaByte(k: Family, m: Matcher, e: G.Elem)
    requires G.ElemOk(e) && Behind(k, m, e)
    ensures
      var hs := m.hs;
      ValueMatch(m, ',')
      == Good(if Partial1(hs) then m.(hs := Other(k), index := m.index + 1)
              else if hs == HTeChunked then m.(hs := Other(k))
              else m.(flags := Concluded(hs, m.flags), hs := Start(k), index := 0))
  {
    StateKinds(k, Fold(e.word));
    hide WordState, ValueMatch;
    if Partial1(m.hs) {
      PartialBlank(k, Fold(e.word), m, ',');
    } else if Whole1(m.hs) {
      MatchWhole(k, m, ',');
    } else {
      MatchOther(k, m, ',');
    }
  }

  // Which word a member is, or begins.
  lemma MemberIs(k: Family, e: G.Elem)
    requires G.ElemOk(e)
    ensures G.Swallows(e, Words(k)) <==> Partial1(MemberState(k, e))
    ensures k == Options ==>
              && (G.Is(e, KEEP_ALIVE) <==> MemberState(k, e) == HConnKeepAlive)
              && (G.Is(e, CLOSE) <==> MemberState(k, e) == HConnClose)
              && (G.Is(e, UPGRADE) <==> MemberState(k, e) == HConnUpgrade)
    ensures k == Codings ==> (G.Is(e, CHUNKED) <==> MemberState(k, e) == HTeChunked)
  {
    var w := Fold(e.word);
    assert w != "";
    if k == Options {
      StateIsWord(k, w, HMatchingConnKeepAlive, HConnKeepAlive, KEEP_ALIVE);
      StateIsWord(k, w, HMatchingConnClose, HConnClose, CLOSE);
      StateIsWord(k, w, HMatchingConnUpgrade, HConnUpgrade, UPGRADE);
      OptionWords(w);
    } else {
      StateIsWord(k, w, HMatchingTeChunked, HTeChunked, CHUNKED);
      assert (exists x <- Words(k) :: G.PartOfWord(w, x)) <==> G.PartOfWord(w, CHUNKED);
    }
    StateKinds(k, w);
    hide WordState;
  }

  lemma OptionWords(w: string)
    ensures (exists x <- Words(Options) :: G.PartOfWord(w, x))
        <==> G.PartOfWord(w, KEEP_ALIVE) || G.PartOfWord(w, CLOSE) || G.PartOfWord(w, UPGRADE)
  {
    assert KEEP_ALIVE in Words(Options) && CLOSE in Words(Options) && UPGRADE in Words(Options);
  }

  // The flags after a list.
  function Result(k: Family, f: Flags, elems: seq<G.Elem>, first: bool): Flags {
    if k == Options then Raised(f, G.Heard(elems, first))
    else f.(chunked := f.chunked || G.EndsChunked(elems, first))
  }

  function Raised(f: Flags, heard: seq<G.Elem>): Flags {
    f.(keepAlive := f.keepAlive || G.Any(heard, "keep-alive"), close := f.close || G.Any(heard, "close"),
       connectionUpgrade := f.connectionUpgrade || G.Any(heard, "upgrade"))
  }

  lemma AnyOf(e: G.Elem, heard: seq<G.Elem>, word: string)
    ensures G.Any([e] + heard, word) <==> G.Is(e, word) || G.Any(heard, word)
  {
    hide G.Is;
    var all := [e] + heard;
    assert all[0] == e;
    forall x | x in heard ensures x in all {
      var i :| 0 <= i < |heard| && heard[i] == x;
      assert all[i + 1] == x;
    }
  }

  lemma RaisedMore(f: Flags, e: G.Elem, heard: seq<G.Elem>)
    requires G.ElemOk(e)
    ensures Raised(f, [e] + heard) == Raised(Concluded(MemberState(Options, e), f), heard)
  {
    AnyOf(e, heard, KEEP_ALIVE);
    AnyOf(e, heard, CLOSE);
    AnyOf(e, heard, UPGRADE);
    MemberIs(Options, e);
    StateKinds(Options, Fold(e.word));
    hide WordState, G.Any, G.Is;
  }

  lemma NothingRaised(f: Flags)
    ensures Raised(f, []) == f
  {
  }

  // What is after the value: the list has had its effect, and nothing else has changed.
  predicate Done(m: Matcher, r: Matching, flags: Flags) {
    r.Good? && Concluded(r.m.hs, r.m.flags) == flags && r.m.contentLength == m.contentLength && r.m.usesTe == m.usesTe
  }

  predicate Members(elems: seq<G.Elem>) { forall i :: 0 <= i < |elems| ==> G.ElemOk(elems[i]) }

  function Following(elems: seq<G.Elem>): string
    requires elems != []
  {
    if |elems| == 1 then "" else "," + G.ListText(elems[1..])
  }

  lemma ListParts(elems: seq<G.Elem>)
    requires elems != []
    ensures G.ListText(elems) == G.ElemText(elems[0]) + Following(elems)
  {
  }

  lemma NoComma(e: G.Elem)
    requires G.ElemOk(e)
    ensures ',' !in G.ElemText(e)
  {
    var s := G.ElemText(e);
    forall i | 0 <= i < |s| ensures s[i] != ',' {
      if |e.lead| <= i < |e.lead| + |e.word| {
        assert s[i] == e.word[i - |e.lead|];
      }
    }
  }

  // The only member: the end of the value concludes it.
  lemma OneHeard(e: G.Elem, first: bool)
    requires first || !G.Muted(e)
    ensures G.Heard([e], first) == if G.Swallows(e, G.OPTIONS) then [] else [e] + []
  {
    assert [e][1..] == [];
    hide G.Muted, G.Swallows;
  }

  lemma OneOptionMember(m: Matcher, e: G.Elem, first: bool)
    requires G.ElemOk(e) && Behind(Options, m, e) && (first || !G.Muted(e))
    ensures Concluded(m.hs, m.flags) == Raised(m.flags, G.Heard([e], first))
  {
    OneHeard(e, first);
    MemberIs(Options, e);
    NothingRaised(m.flags);
    RaisedMore(m.flags, e, []);
    NothingRaised(Concluded(m.hs, m.flags));
    hide WordState, G.Muted, G.Is, G.Swallows, Raised, G.Heard, MemberState;
  }

  lemma OneCoding(m: Matcher, e: G.Elem, first: bool)
    requires G.ElemOk(e) && Behind(Codings, m, e) && (first || !G.Muted(e))
    ensures Concluded(m.hs, m.flags) == m.flags.(chunked := m.flags.chunked || G.EndsChunked([e], first))
  {
    MemberIs(Codings, e);
    StateKinds(Codings, Fold(e.word));
    hide WordState, G.Muted, G.Is, G.Swallows;
  }

  lemma OneMember(k: Family, m: Matcher, e: G.Elem, first: bool)
    requires G.ElemOk(e) && Behind(k, m, e) && (first || !G.Muted(e))
    ensures Concluded(m.hs, m.flags) == Result(k, m.flags, [e], first)
  {
    hide Concluded, G.Muted, Behind, Raised, G.EndsChunked;
    if k == Options {
      OneOptionMember(m, e, first);
    } else {
      OneCoding(m, e, first);
    }
  }

  lemma MoreMembers(k: Family, m: Matcher, elems: seq<G.Elem>, first: bool)
    requires |elems| > 1 && Members(elems) && Behind(k, m, elems[0]) && (first || !G.Muted(elems[0]))
    ensures
      Result(k, m.flags, elems, first)
      == if Partial1(m.hs) || m.hs == HTeChunked then Result(k, m.flags, elems[2..], false)
         else Result(k, Concluded(m.hs, m.flags), elems[1..], false)
  {
    MemberIs(k, elems[0]);
    StateKinds(k, Fold(elems[0].word));
    if k == Options && !Partial1(m.hs) {
      RaisedMore(m.flags, elems[0], G.Heard(elems[1..], false));
    }
    hide WordState, G.Muted, G.Is, G.Swallows, Raised;
  }

  lemma NoMembers(k: Family, f: Flags, first: bool)
    ensures Result(k, f, [], first) == f
  {
  }

  // What follows a member.
  lemma {:induction false} RestFed(k: Family, m: Matcher, elems: seq<G.Elem>, first: bool)
    requires elems != [] && Members(elems) && Behind(k, m, elems[0]) && (first || !G.Muted(elems[0]))
    ensures Done(m, Fed(m, Following(elems)), Result(k, m.flags, elems, first))
    decreases |elems|, 0
  {
    hide Fed, ValueMatch, Result, G.ElemOk, G.Muted, MemberState, G.ListText, G.ElemText;
    if |elems| == 1 {
      assert elems == [elems[0]];
      OneMember(k, m, elems[0], first);
      TrailNothing(m);
    } else {
      MoreMembers(k, m, elems, first);
      CommaByte(k, m, elems[0]);
      var m1 := ValueMatch(m, ',').m;
      var tail := elems[1..];
      FedFirst(m, ',', G.ListText(tail));
      assert Following(elems) == [','] + G.ListText(tail);
      if Partial1(m.hs) || m.hs == HTeChunked {
        assert elems[2..] == tail[1..];
        HsOther(k, m, elems[0]);
        SwallowFed(k, m1, tail);
      } else {
        ListFed(k, m1, tail);
      }
    }
  }

  lemma HsOther(k: Family, m: Matcher, e: G.Elem)
    requires Behind(k, m, e) && (Partial1(m.hs) || m.hs == HTeChunked)
    ensures k == Codings <==> m.hs == HMatchingTeChunked || m.hs == HTeChunked
  {
    StateKinds(k, Fold(e.word));
  }

  // A member that is taken for the rest of the one before.
  lemma {:induction false} SwallowFed(k: Family, m: Matcher, elems: seq<G.Elem>)
    requires elems != [] && Members(elems) && m.hs == Other(k)
    ensures Done(m, Fed(m, G.ListText(elems)), Result(k, m.flags, elems[1..], false))
    decreases |elems|, 1
  {
    hide Fed, ValueMatch, Result, G.ElemOk, G.Muted, G.ListText, G.ElemText;
    ListParts(elems);
    NoComma(elems[0]);
    OtherSkips(k, m, G.ElemText(elems[0]));
    FedConcat(m, G.ElemText(elems[0]), Following(elems));
    if |elems| == 1 {
      TrailNothing(m);
      NoMembers(k, m.flags, false);
      assert elems[1..] == [];
    } else {
      OtherComma(k, m);
      var m1 := ValueMatch(m, ',').m;
      FedFirst(m, ',', G.ListText(elems[1..]));
      assert Following(elems) == [','] + G.ListText(elems[1..]);
      ListFed(k, m1, elems[1..]);
    }
  }

  lemma OtherComma(k: Family, m: Matcher)
    requires m.hs == Other(k)
    ensures ValueMatch(m, ',') == Good(m.(hs := Start(k), index := 0))
  {
    hide ValueMatch;
    MatchOther(k, m, ',');
  }

  // A list behind a comma.
  lemma {:induction false} ListFed(k: Family, m: Matcher, elems: seq<G.Elem>)
    requires elems != [] && Members(elems) && m.hs == Start(k) && m.index == 0
    ensures Done(m, Fed(m, G.ListText(elems)), Result(k, m.flags, elems, false))
    decreases |elems|, 1
  {
    hide Fed, ValueMatch, G.ElemOk, MemberState, G.ListText, G.ElemText, Raised;
    ListParts(elems);
    var e := elems[0];
    MemberFed(k, m, e);
    var m1 := Fed(m, G.ElemText(e)).m;
    FedConcat(m, G.ElemText(e), Following(elems));
    if G.Muted(e) {
      DeafStays(m1, Following(elems));
      NothingRaised(m.flags);
    } else {
      hide Result;
      RestFed(k, m1, elems, false);
    }
  }
}
