/**
  How the parser recognises the header fields that it knows, byte by byte.
 */
module HttpName {
  import opened HttpChars
  import opened HttpStep
  import opened HttpTrace
  import opened HttpRuns
  import opened Text
  import G = HttpGrammar

  // The header state after the name `w`, in lower case.
  function NameState(w: string): HeaderState {
    if w == CONNECTION || w == PROXY_CONNECTION then HConnection
    else if w == CONTENT_LENGTH then HContentLength
    else if w == TRANSFER_ENCODING then HTransferEncoding
    else if w == UPGRADE then HUpgrade
    else if w == "c" then HC
    else if w == "co" then HCO
    else if w == "con" then HCON
    else if |w| > 3 && w < CONNECTION then HMatchingConnection
    else if |w| > 3 && w < CONTENT_LENGTH then HMatchingContentLength
    else if w != "" && w < PROXY_CONNECTION then HMatchingProxyConnection
    else if w != "" && w < TRANSFER_ENCODING then HMatchingTransferEncoding
    else if w != "" && w < UPGRADE then HMatchingUpgrade
    else HGeneral
  }

  predicate Complete(hs: HeaderState) {
    hs == HConnection || hs == HContentLength || hs == HTransferEncoding || hs == HUpgrade
  }

  predicate Matching1(hs: HeaderState) { hs != HGeneral && !Complete(hs) }

  // The matcher after the name `w`.
  predicate After(m: Matcher, w: string) {
    m.hs == NameState(w) && (Matching1(m.hs) ==> m.index + 1 == |w|)
  }

  lemma TokenIs(c: char)
    ensures G.TokenByte(c) <==> Token(c) != NUL
    ensures G.TokenByte(c) ==> Token(c) == Lower(c) && c != ' ' && c != ':' && c != CR && c != LF && Token(c) != NUL
  {
  }

  lemma OnePrefix(w: string, c: char, word: string)
    ensures w + [c] <= word <==> w < word && word[|w|] == c
    ensures w + [c] == word <==> w < word && word[|w|] == c && |word| == |w| + 1
    ensures w + [c] < word <==> w < word && word[|w|] == c && |word| > |w| + 1
  {
    if w + [c] <= word {
      assert word[..|w|] == (w + [c])[..|w|] == w;
    }
    if w < word && word[|w|] == c {
      assert word[..|w| + 1] == word[..|w|] + [word[|w|]];
    }
  }

  lemma FirstIs(c: char)
    ensures NameState([c])
         == match c
            case 'c' => HC
            case 'p' => HMatchingProxyConnection
            case 't' => HMatchingTransferEncoding
            case 'u' => HMatchingUpgrade
            case _ => HGeneral
  {
    assert [c] == "" + [c];
    OnePrefix("", c, PROXY_CONNECTION);
    OnePrefix("", c, TRANSFER_ENCODING);
    OnePrefix("", c, UPGRADE);
  }

  // The words start differently.
  lemma Apart(w: string, word: string)
    requires w <= word && w != ""
    ensures w[0] == word[0] && (|w| > 3 ==> w[3] == word[3])
  {
    assert w == word[..|w|];
  }

  predicate Of(w: string, word: string) { w != "" && w <= word }

  // At most one of the words begins with `w`, and `c`, `co` and `con` begin two.
  lemma OneWord(w: string)
    ensures Of(w, CONNECTION) ==> !Of(w, PROXY_CONNECTION) && !Of(w, TRANSFER_ENCODING) && !Of(w, UPGRADE)
    ensures Of(w, CONTENT_LENGTH) ==> !Of(w, PROXY_CONNECTION) && !Of(w, TRANSFER_ENCODING) && !Of(w, UPGRADE)
    ensures Of(w, PROXY_CONNECTION) ==> !Of(w, TRANSFER_ENCODING) && !Of(w, UPGRADE)
    ensures Of(w, TRANSFER_ENCODING) ==> !Of(w, UPGRADE)
    ensures |w| > 3 && Of(w, CONNECTION) ==> !Of(w, CONTENT_LENGTH)
  {
    if Of(w, CONNECTION) { Apart(w, CONNECTION); }
    if Of(w, CONTENT_LENGTH) { Apart(w, CONTENT_LENGTH); }
    if Of(w, PROXY_CONNECTION) { Apart(w, PROXY_CONNECTION); }
    if Of(w, TRANSFER_ENCODING) { Apart(w, TRANSFER_ENCODING); }
    if Of(w, UPGRADE) { Apart(w, UPGRADE); }
  }

  // A word, told apart by its state while it is read and at its end.
  predicate StateWord(reading: HeaderState, whole: HeaderState, word: string) {
    || (reading == HMatchingConnection && whole == HConnection && word == CONNECTION)
    || (reading == HMatchingProxyConnection && whole == HConnection && word == PROXY_CONNECTION)
    || (reading == HMatchingContentLength && whole == HContentLength && word == CONTENT_LENGTH)
    || (reading == HMatchingTransferEncoding && whole == HTransferEncoding && word == TRANSFER_ENCODING)
    || (reading == HMatchingUpgrade && whole == HUpgrade && word == UPGRADE)
  }

  lemma StateOfWord(w: string, reading: HeaderState, whole: HeaderState, word: string)
    requires StateWord(reading, whole, word) && Of(w, word) && (word[0] == 'c' ==> |w| > 3)
    ensures NameState(w) == if w == word then whole else reading
  {
    OneWord(w);
  }

  lemma StateOfNone(w: string)
    requires !Of(w, CONNECTION) && !Of(w, CONTENT_LENGTH) && !Of(w, PROXY_CONNECTION) && !Of(w, TRANSFER_ENCODING)
    requires !Of(w, UPGRADE)
    ensures NameState(w) == HGeneral
  {
    assert "c" == CONNECTION[..1] && "co" == CONNECTION[..2] && "con" == CONNECTION[..3];
  }

  lemma StateTells(w: string, reading: HeaderState, whole: HeaderState, word: string)
    requires StateWord(reading, whole, word) && NameState(w) == reading
    ensures Of(w, word) && w != word && (word[0] == 'c' ==> |w| > 3)
  {
  }

  lemma Longer(w: string, c: char, word: string)
    requires !Of(w, word) && w != ""
    ensures !Of(w + [c], word)
  {
    OnePrefix(w, c, word);
  }

  // Inside a word.
  lemma WordStep(w: string, c: char, m: Matcher, reading: HeaderState, whole: HeaderState, word: string)
    requires StateWord(reading, whole, word) && NameState(w) == reading && After(m, w) && c != NUL
    ensures
      var m' := WordByte(m, word, c, whole, HGeneral);
      After(m', w + [c]) && m' == m.(hs := m'.hs, index := m'.index)
    ensures NameState(w + [c]) == whole <==> w + [c] == word
  {
    hide NameState;
    StateTells(w, reading, whole, word);
    OnePrefix(w, c, word);
    var v := w + [c];
    if Of(v, word) {
      StateOfWord(v, reading, whole, word);
    } else {
      OneWord(w);
      NotElsewhere(w, c, reading, whole, word);
      StateOfNone(v);
    }
  }

  lemma NotElsewhere(w: string, c: char, reading: HeaderState, whole: HeaderState, word: string)
    requires StateWord(reading, whole, word) && Of(w, word) && (word[0] == 'c' ==> |w| > 3)
    requires !Of(w + [c], word)
    ensures var v := w + [c];
      && !Of(v, CONNECTION) && !Of(v, CONTENT_LENGTH) && !Of(v, PROXY_CONNECTION) && !Of(v, TRANSFER_ENCODING)
      && !Of(v, UPGRADE)
  {
    OneWord(w);
    assert w != "";
    hide Of;
    if word != CONNECTION { Longer(w, c, CONNECTION); }
    if word != CONTENT_LENGTH { Longer(w, c, CONTENT_LENGTH); }
    if word != PROXY_CONNECTION { Longer(w, c, PROXY_CONNECTION); }
    if word != TRANSFER_ENCODING { Longer(w, c, TRANSFER_ENCODING); }
    if word != UPGRADE { Longer(w, c, UPGRADE); }
  }

  lemma CompleteStep(w: string, c: char)
    requires Complete(NameState(w))
    ensures NameState(w + [c]) == HGeneral
  {
    var v := w + [c];
    OneWord(w);
    forall word | word in {CONNECTION, CONTENT_LENGTH, PROXY_CONNECTION, TRANSFER_ENCODING, UPGRADE}
      ensures !Of(v, word)
    {
      if w != word {
        Longer(w, c, word);
      }
    }
    StateOfNone(v);
  }

  lemma PrefixIs(w: string, word: string)
    ensures Of(w, word) ==> |w| <= |word| && w == word[..|w|]
  {
  }

  lemma GeneralTells(w: string)
    requires NameState(w) == HGeneral && w != ""
    ensures !Of(w, CONNECTION) && !Of(w, CONTENT_LENGTH) && !Of(w, PROXY_CONNECTION) && !Of(w, TRANSFER_ENCODING)
    ensures !Of(w, UPGRADE)
  {
    assert CONNECTION[..1] == CONTENT_LENGTH[..1] == "c" && CONNECTION[..2] == CONTENT_LENGTH[..2] == "co";
    assert CONNECTION[..3] == CONTENT_LENGTH[..3] == "con";
    PrefixIs(w, CONNECTION);
    PrefixIs(w, CONTENT_LENGTH);
  }

  lemma GeneralStep(w: string, c: char)
    requires NameState(w) == HGeneral && w != ""
    ensures NameState(w + [c]) == HGeneral
  {
    GeneralTells(w);
    hide Of, NameState;
    Longer(w, c, CONNECTION);
    Longer(w, c, CONTENT_LENGTH);
    Longer(w, c, PROXY_CONNECTION);
    Longer(w, c, TRANSFER_ENCODING);
    Longer(w, c, UPGRADE);
    StateOfNone(w + [c]);
  }

  lemma ConState(w: string)
    requires w == "c" || w == "co" || w == "con"
    ensures NameState(w) == if w == "c" then HC else if w == "co" then HCO else HCON
  {
  }

  // The words that start with `con`, up to where they differ.
  lemma ConStep(w: string, c: char)
    requires w == "c" || w == "co" || w == "con"
    ensures NameState(w) == if w == "c" then HC else if w == "co" then HCO else HCON
    ensures NameState(w + [c])
         == if w == "c" then (if c == 'o' then HCO else HGeneral)
            else if w == "co" then (if c == 'n' then HCON else HGeneral)
            else if c == 'n' then HMatchingConnection
            else if c == 't' then HMatchingContentLength
            else HGeneral
  {
    ConState(w);
    ConWords(w, c);
    var v := w + [c];
    if !Of(v, CONNECTION) && !Of(v, CONTENT_LENGTH) {
      StateOfNone(v);
    } else if w == "con" {
      if c == 'n' {
        StateOfWord(v, HMatchingConnection, HConnection, CONNECTION);
      } else {
        StateOfWord(v, HMatchingContentLength, HContentLength, CONTENT_LENGTH);
      }
    } else {
      assert v == if w == "c" then "co" else "con";
      ConState(v);
    }
    hide NameState, Of;
  }

  lemma ConWords(w: string, c: char)
    requires w == "c" || w == "co" || w == "con"
    ensures
      var v := w + [c];
      && !Of(v, PROXY_CONNECTION) && !Of(v, TRANSFER_ENCODING) && !Of(v, UPGRADE)
      && (Of(v, CONNECTION) <==> c == if w == "c" then 'o' else 'n')
      && (Of(v, CONTENT_LENGTH) <==> c == if w == "c" then 'o' else if w == "co" then 'n' else 't')
      && |v| == |w| + 1 && v != CONNECTION && v != CONTENT_LENGTH
  {
    assert w == CONNECTION[..|w|] == CONTENT_LENGTH[..|w|];
    OnePrefix(w, c, CONNECTION);
    OnePrefix(w, c, CONTENT_LENGTH);
    OneWord(w);
    Longer(w, c, PROXY_CONNECTION);
    Longer(w, c, TRANSFER_ENCODING);
    Longer(w, c, UPGRADE);
  }

  lemma StepByState(w: string, ch: char, m: Matcher)
    requires w != "" && After(m, w) && G.TokenByte(ch)
    ensures
      var r := FieldMatch(m, ch, Token(ch));
      && r.Good? && After(r.m, w + [Token(ch)])
      && r.m == m.(hs := r.m.hs, index := r.m.index, usesTe := r.m.usesTe)
      && r.m.usesTe == (m.usesTe || w + [Token(ch)] == TRANSFER_ENCODING)
  {
    var c := Token(ch);
    TokenIs(ch);
    NameStates(w);
    hide Token, NameState;
    match m.hs {
      case HMatchingConnection =>
        WordStep(w, c, m, HMatchingConnection, HConnection, CONNECTION);
        NotTe(w + [c]);
      case HMatchingProxyConnection =>
        WordStep(w, c, m, HMatchingProxyConnection, HConnection, PROXY_CONNECTION);
        NotTe(w + [c]);
      case HMatchingContentLength =>
        WordStep(w, c, m, HMatchingContentLength, HContentLength, CONTENT_LENGTH);
        NotTe(w + [c]);
      case HMatchingTransferEncoding =>
        WordStep(w, c, m, HMatchingTransferEncoding, HTransferEncoding, TRANSFER_ENCODING);
        NotTe(w + [c]);
      case HMatchingUpgrade =>
        WordStep(w, c, m, HMatchingUpgrade, HUpgrade, UPGRADE);
        NotTe(w + [c]);
      case HGeneral =>
        GeneralStep(w, c);
        NotTe(w + [c]);
      case _ =>
        SmallStep(w, c, m);
        NotTe(w + [c]);
    }
  }

  lemma NameStates(w: string)
    ensures NameState(w) in {HGeneral, HC, HCO, HCON, HMatchingConnection, HMatchingProxyConnection,
                             HMatchingContentLength, HMatchingTransferEncoding, HMatchingUpgrade, HConnection,
                             HContentLength, HTransferEncoding, HUpgrade}
  {
  }

  // The name is "transfer-encoding" exactly in its state.
  lemma NotTe(w: string)
    ensures w == TRANSFER_ENCODING <==> NameState(w) == HTransferEncoding
  {
  }

  lemma SmallStep(w: string, c: char, m: Matcher)
    requires After(m, w) && m.hs in {HC, HCO, HCON, HConnection, HContentLength, HTransferEncoding, HUpgrade}
    requires c != NUL
    ensures
      (m.hs == HC ==> w == "c" && NameState(w + [c]) == if c == 'o' then HCO else HGeneral)
      && (m.hs == HCO ==> w == "co" && NameState(w + [c]) == if c == 'n' then HCON else HGeneral)
      && (m.hs == HCON ==>
            w == "con"
            && NameState(w + [c])
               == if c == 'n' then HMatchingConnection else if c == 't' then HMatchingContentLength else HGeneral)
      && (Complete(m.hs) ==> NameState(w + [c]) == HGeneral)
  {
    if Complete(m.hs) {
      CompleteStep(w, c);
    } else {
      SmallIs(w);
      ConStep(w, c);
    }
  }

  lemma SmallIs(w: string)
    requires NameState(w) in {HC, HCO, HCON}
    ensures w == "c" || w == "co" || w == "con"
  {
  }

  // ---- The bytes of a name, one call each.

  // The parser inside the name of a header, after `w` in lower case.
  predicate Naming(p: Parser, q: Parser, w: string, n: nat) {
    && q == p.(state := HeaderField, nread := p.nread + n, hs := NameState(w), index := q.index,
               usesTe := p.usesTe || TRANSFER_ENCODING <= w)
    && After(MatcherOf(q), w)
  }

  lemma NameSteps(cfg: Config, p: Parser, ch: char)
    requires Token(ch) != NUL
    ensures p.state == HeaderFieldStart ==> HeaderByte(cfg, p, ch) == FieldStart(cfg, p, ch) && GroupOf(p.state) == GHeader
    ensures p.state == HeaderField ==>
              HeaderByte(cfg, p, ch) == Applied(p, FieldMatch(MatcherOf(p), ch, Token(ch))) && GroupOf(p.state) == GHeader
  {
    hide FieldStart, FieldMatch, ValueStart, ValueMatch, ValueByte, EndOfHeaders, Framing, Token;
  }

  lemma FirstStep(cfg: Config, p: Parser, ch: char)
    requires G.TokenByte(ch)
    ensures FieldStart(cfg, p, ch)
         == Next(p.(index := 0, state := HeaderField, hs := NameState([Lower(ch)])), [Mark(FieldName)])
  {
    TokenIs(ch);
    FirstIs(Lower(ch));
    hide NameState, Token, EndOfHeaders, G.TokenByte;
  }

  lemma FirstNaming(p: Parser, c: char)
    requires p.state == HeaderFieldStart
    ensures Naming(p, Counts(p, 1).(index := 0, state := HeaderField, hs := NameState([c])), [c], 1)
  {
    hide NameState;
  }

  lemma NameStarts(cfg: Config, p: Parser, log: Log, ch: char) returns (q: Parser)
    requires p.state == HeaderFieldStart && p.nread + 1 <= cfg.maxHeader && G.TokenByte(ch) && !EndsWith(log, FieldName)
    ensures Naming(p, q, [Lower(ch)], 1) && Goes(cfg, p, log, [ch], q, log + [Data(FieldName, [ch])])
  {
    TokenIs(ch);
    FirstStep(cfg, Counts(p, 1), ch);
    FirstNaming(p, Lower(ch));
    hide NameState, Token, Goes, Emit, FieldStart, HeaderByte, GroupOf, Step, Resumed, G.TokenByte, Naming, Lower;
    q := Counts(p, 1).(index := 0, state := HeaderField, hs := NameState([Lower(ch)]));
    NameSteps(cfg, Counts(p, 1), ch);
    HeaderStep(cfg, p, ch);
    EmitNew(log, FieldName, [ch]);
    MarkGoes(cfg, p, log, ch, q, FieldName);
  }

  lemma TeGrows(w: string, c: char)
    ensures TRANSFER_ENCODING <= w + [c] <==> TRANSFER_ENCODING <= w || w + [c] == TRANSFER_ENCODING
  {
    if TRANSFER_ENCODING <= w + [c] && |TRANSFER_ENCODING| <= |w| {
      assert (w + [c])[..|TRANSFER_ENCODING|] == w[..|TRANSFER_ENCODING|];
    }
    if TRANSFER_ENCODING <= w {
      assert (w + [c])[..|TRANSFER_ENCODING|] == w[..|TRANSFER_ENCODING|];
    }
  }

  lemma MoreNaming(p: Parser, q: Parser, w: string, n: nat, ch: char)
    requires Naming(p, q, w, n) && w != "" && G.TokenByte(ch)
    ensures
      var r := FieldMatch(MatcherOf(q), ch, Token(ch));
      r.Good? && Naming(p, With(Counts(q, 1), r.m), w + [Lower(ch)], n + 1)
  {
    TokenIs(ch);
    StepByState(w, ch, MatcherOf(q));
    TeGrows(w, Lower(ch));
    hide NameState, Token, FieldMatch, Lower, G.TokenByte;
  }

  lemma NameGoes(cfg: Config, p: Parser, q: Parser, log: Log, name: string, ch: char, w: string) returns (q': Parser)
    requires Naming(p, q, w, |name|) && w != "" && q.nread + 1 <= cfg.maxHeader && G.TokenByte(ch)
    ensures Naming(p, q', w + [Lower(ch)], |name| + 1)
    ensures Goes(cfg, q, log + [Data(FieldName, name)], [ch], q', log + [Data(FieldName, name + [ch])])
  {
    TokenIs(ch);
    MoreNaming(p, q, w, |name|, ch);
    NamingState(p, q, w, |name|);
    hide NameState, Token, Goes, Emit, FieldMatch, HeaderByte, GroupOf, Step, Resumed, G.TokenByte, Naming, Lower;
    var m := FieldMatch(MatcherOf(q), ch, Token(ch)).m;
    q' := With(Counts(q, 1), m);
    NameSteps(cfg, Counts(q, 1), ch);
    HeaderStep(cfg, q, ch);
    EmitMore(log, FieldName, name, [ch]);
    InsideGoes(cfg, q, log + [Data(FieldName, name)], ch, q', FieldName);
  }

  lemma NamingState(p: Parser, q: Parser, w: string, n: nat)
    requires Naming(p, q, w, n)
    ensures q.state == HeaderField && MatcherOf(Counts(q, 1)) == MatcherOf(q)
  {
  }

  // The bytes of a whole name.
  lemma {:induction false} NameRun(cfg: Config, p: Parser, log: Log, name: string) returns (q: Parser)
    requires p.state == HeaderFieldStart && p.nread + |name| <= cfg.maxHeader && G.IsToken(name)
    requires !EndsWith(log, FieldName)
    ensures Naming(p, q, Fold(name), |name|) && Goes(cfg, p, log, name, q, log + [Data(FieldName, name)])
    decreases |name|
  {
    hide Goes, Naming, NameState, PerByte;
    var n := |name| - 1;
    if n == 0 {
      assert name == [name[0]] && name[1..] == "" && Fold(name) == [Lower(name[0])];
      q := NameStarts(cfg, p, log, name[0]);
    } else {
      q := NameRun(cfg, p, log, name[..n]);
      NamingCounts(p, q, Fold(name[..n]), n);
      FoldSnoc(name, n);
      assert name[..n + 1] == name;
      var q' := NameGoes(cfg, p, q, log, name[..n], name[n], Fold(name[..n]));
      SplitLast(name);
      GoesOn(cfg, p, log, name[..n], q, log + [Data(FieldName, name[..n])], [name[n]], q',
             log + [Data(FieldName, name)]);
      q := q';
    }
  }

  lemma NamingCounts(p: Parser, q: Parser, w: string, n: nat)
    requires Naming(p, q, w, n)
    ensures q.nread == p.nread + n
  {
  }
}
