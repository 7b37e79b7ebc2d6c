/**
  What an authority is, without the automaton: user information, a host name or an address in
  brackets, and a port.
 */
module HttpUrlHost {
  import opened HttpChars
  import opened HttpUrlParts
  import opened Text
  import G = HttpUrlGrammar

  // `at`, `open` and `close`: the delimiters '@', '[' and ']' are there. An address in brackets may
  // have a zone.
  datatype Authority = Authority(userinfo: string, at: bool, open: bool, addr: string, zone: Option<string>,
                                 close: bool, port: Option<string>)

  function Mark(b: bool, s: string): string { if b then s else "" }

  function ZoneText(z: Option<string>): string { if z.None? then "" else "%" + z.value }

  function PortSuffix(p: Option<string>): string { if p.None? then "" else ":" + p.value }

  function NameText(h: Authority): string { h.addr + ZoneText(h.zone) }

  function ServerText(h: Authority): string {
    h.userinfo + Mark(h.at, "@") + Mark(h.open, "[") + NameText(h) + Mark(h.close, "]") + PortSuffix(h.port)
  }

  predicate AlphaNum(c: char) { 'a' <= c <= 'z' || 'A' <= c <= 'Z' || '0' <= c <= '9' }

  predicate UserByte(c: char) { AlphaNum(c) || c in "-_.!~*'()%;:&=+$," }

  predicate NameByte(c: char) { AlphaNum(c) || c == '.' || c == '-' }

  predicate AddressByte(c: char) {
    '0' <= c <= '9' || 'a' <= c <= 'f' || 'A' <= c <= 'F' || c == ':' || c == '.'
  }

  predicate ZoneByte(c: char) { AlphaNum(c) || c in "%.-_~" }

  predicate UserOk(s: string) { forall i :: 0 <= i < |s| ==> UserByte(s[i]) }

  predicate NameOk(s: string) { forall i :: 0 <= i < |s| ==> NameByte(s[i]) }

  predicate AddressOk(s: string) { forall i :: 0 <= i < |s| ==> AddressByte(s[i]) }

  predicate ZoneOk(s: string) { forall i :: 0 <= i < |s| ==> ZoneByte(s[i]) }

  predicate PortOk(s: string) { forall i :: 0 <= i < |s| ==> '0' <= s[i] <= '9' }

  predicate NoHost(h: Authority) { !h.open && h.addr == "" && NoRest(h) }

  predicate NoRest(h: Authority) { h.zone.None? && !h.close && h.port.None? }

  // An authority or the beginning of one; `foundAt` if it has user information.
  predicate Begun(foundAt: bool, h: Authority) {
    && UserOk(h.userinfo)
    && (!foundAt ==> h.userinfo == "" && !h.at)
    && (foundAt && !h.at ==> NoHost(h))
    && (if h.open then AddressOk(h.addr) else NameOk(h.addr) && h.zone.None? && !h.close)
    && (h.addr == "" ==> NoRest(h))
    && (h.zone.Some? ==> ZoneOk(h.zone.value) && (h.close ==> h.zone.value != ""))
    && (h.port.Some? ==> PortOk(h.port.value) && (h.open ==> h.close))
  }

  predicate Complete(foundAt: bool, h: Authority) {
    && h.at == foundAt && h.addr != "" && h.close == h.open
    && (h.port.Some? ==> h.port.value != "")
  }

  predicate AuthorityOk(h: Authority) { Begun(h.at, h) && Complete(h.at, h) }

  // ---- The automaton on such a text.

  function HStateOf(foundAt: bool, h: Authority): HostState {
    if h.port.Some? then (if h.port.value == "" then PortStart else PortText)
    else if h.close then V6End
    else if h.zone.Some? then (if h.zone.value == "" then ZoneStart else Zone)
    else if h.addr != "" then (if h.open then V6 else HostText)
    else if h.open then V6Start
    else if h.at == foundAt then HostStart
    else if h.userinfo != "" then UserinfoText
    else UserinfoStart
  }

  lemma CompleteEnds(foundAt: bool, h: Authority)
    requires Begun(foundAt, h)
    ensures HostEnd(HStateOf(foundAt, h)) <==> Complete(foundAt, h)
  {
  }

  function Shorter(h: Authority): Authority
    requires ServerText(h) != ""
  {
    if h.port.Some? then h.(port := if h.port.value == "" then None else Some(G.Front(h.port.value)))
    else if h.close then h.(close := false)
    else if h.zone.Some? then h.(zone := if h.zone.value == "" then None else Some(G.Front(h.zone.value)))
    else if h.addr != "" then h.(addr := G.Front(h.addr))
    else if h.open then h.(open := false)
    else if h.at then h.(at := false)
    else h.(userinfo := G.Front(h.userinfo))
  }

  lemma FrontOf(a: string, b: string)
    requires b != ""
    ensures G.Front(a + b) == a + G.Front(b)
  {
  }

  lemma ShorterText(h: Authority)
    requires ServerText(h) != ""
    ensures ServerText(Shorter(h)) == G.Front(ServerText(h))
  {
    var front := h.userinfo + Mark(h.at, "@") + Mark(h.open, "[");
    if h.port.Some? {
      FrontOf(front + NameText(h) + Mark(h.close, "]"), PortSuffix(h.port));
    } else if h.close {
    } else if h.zone.Some? {
      FrontOf(front + h.addr, ZoneText(h.zone));
      ShorterZone(h, front);
    } else {
      ShorterFront(h);
    }
  }

  lemma ShorterZone(h: Authority, front: string)
    requires h.zone.Some? && !h.close && h.port.None?
    requires front == h.userinfo + Mark(h.at, "@") + Mark(h.open, "[")
    ensures ServerText(h) == (front + h.addr) + ZoneText(h.zone)
    ensures ServerText(Shorter(h)) == (front + h.addr) + G.Front(ZoneText(h.zone))
  {
    var v := Shorter(h);
    assert ZoneText(v.zone) == G.Front(ZoneText(h.zone));
    assert Mark(false, "]") == "" && PortSuffix(None) == "";
    hide ZoneText, G.Front, Mark;
    assert ServerText(h) == front + (h.addr + ZoneText(h.zone)) + "" + "";
    assert ServerText(v) == front + (v.addr + ZoneText(v.zone)) + "" + "";
  }

  lemma ShorterFront(h: Authority)
    requires NoRest(h) && ServerText(h) != ""
    ensures ServerText(Shorter(h)) == G.Front(ServerText(h))
  {
  }

  lemma FrontOk(s: string)
    requires s != ""
    ensures UserOk(s) ==> UserOk(G.Front(s))
    ensures NameOk(s) ==> NameOk(G.Front(s))
    ensures AddressOk(s) ==> AddressOk(G.Front(s))
    ensures ZoneOk(s) ==> ZoneOk(G.Front(s))
    ensures PortOk(s) ==> PortOk(G.Front(s))
  {
    hide UserByte, NameByte, AddressByte, ZoneByte;
  }

  lemma ShorterOk(foundAt: bool, h: Authority)
    requires ServerText(h) != "" && Begun(foundAt, h)
    ensures Begun(foundAt, Shorter(h))
  {
    if h.port.Some? {
      if h.port.value != "" {
        FrontOk(h.port.value);
      }
    } else if h.close {
    } else if h.zone.Some? {
      if h.zone.value != "" {
        FrontOk(h.zone.value);
      }
    } else if h.addr != "" {
      FrontOk(h.addr);
    } else if !h.open && !h.at {
      FrontOk(h.userinfo);
    }
    EmptyOk();
    hide UserOk, NameOk, AddressOk, ZoneOk, PortOk, G.Front;
  }

  lemma EmptyOk()
    ensures UserOk("") && NameOk("") && AddressOk("") && ZoneOk("") && PortOk("")
  {
  }

  // ---- The moves of the automaton.

  lemma AlphaNumIs(c: char)
    ensures AlphaNum(c) <==> IsAlphaNum(c)
    ensures UserByte(c) <==> IsUserinfoChar(c)
    ensures NameByte(c) <==> IsHostChar(c)
    ensures AddressByte(c) <==> IsHex(c) || c == ':' || c == '.'
    ensures ZoneByte(c) <==> IsAlphaNum(c) || c in "%.-_~"
  {
    assert IsAlpha(c) <==> 'a' <= c <= 'z' || 'A' <= c <= 'Z';
    assert 'a' <= LowerBit(c) <= 'f' <==> 'a' <= c <= 'f' || 'A' <= c <= 'F';
    hide IsAlpha, LowerBit;
  }

  lemma Moves(s: HostState, c: char)
    ensures
      HostChar(s, c)
      == match s
         case UserinfoStart => if c == '@' then HostStart else if UserByte(c) then UserinfoText else HostDead
         case UserinfoText => if c == '@' then HostStart else if UserByte(c) then UserinfoText else HostDead
         case HostStart => if c == '[' then V6Start else if NameByte(c) then HostText else HostDead
         case HostText => if NameByte(c) then HostText else if c == ':' then PortStart else HostDead
         case V6Start => if AddressByte(c) then V6 else HostDead
         case V6 => if c == ']' then V6End else if AddressByte(c) then V6 else if c == '%' then ZoneStart else HostDead
         case V6End => if c == ':' then PortStart else HostDead
         case ZoneStart => if ZoneByte(c) then Zone else HostDead
         case Zone => if c == ']' then V6End else if ZoneByte(c) then Zone else HostDead
         case PortStart => if '0' <= c <= '9' then PortText else HostDead
         case PortText => if '0' <= c <= '9' then PortText else HostDead
         case HostDead => HostDead
  {
    AlphaNumIs(c);
    hide IsUserinfoChar, IsHostChar, IsHex, IsAlphaNum, UserByte, NameByte, AddressByte, ZoneByte;
  }

  lemma NoDelimiter(c: char)
    ensures UserByte(c) ==> c != '@'
    ensures NameByte(c) ==> c != '[' && c != ':'
    ensures AddressByte(c) ==> c != ']' && c != '%'
    ensures ZoneByte(c) ==> c != ']'
    ensures AlphaNum(c) ==> c != ':'
  {
  }

  lemma LastOfServer(h: Authority)
    requires ServerText(h) != ""
    ensures
      var c := G.LastOf(ServerText(h));
      if h.port.Some? then c == (if h.port.value == "" then ':' else G.LastOf(h.port.value))
      else if h.close then c == ']'
      else if h.zone.Some? then c == (if h.zone.value == "" then '%' else G.LastOf(h.zone.value))
      else if h.addr != "" then c == G.LastOf(h.addr)
      else if h.open then c == '['
      else if h.at then c == '@'
      else h.userinfo != "" && c == G.LastOf(h.userinfo)
  {
  }

  lemma ShorterState(foundAt: bool, h: Authority)
    requires ServerText(h) != "" && Begun(foundAt, h)
    ensures HStateOf(foundAt, h) == HostChar(HStateOf(foundAt, Shorter(h)), G.LastOf(ServerText(h)))
  {
    var c := G.LastOf(ServerText(h));
    LastOfServer(h);
    Moves(HStateOf(foundAt, Shorter(h)), c);
    NoDelimiter(c);
    hide HostChar, UserByte, NameByte, AddressByte, ZoneByte, ServerText;
  }

  // ---- One byte more.

  function Longer(foundAt: bool, h: Authority, c: char): Authority {
    match HStateOf(foundAt, h)
    case UserinfoStart => if c == '@' then h.(at := true) else h.(userinfo := h.userinfo + [c])
    case UserinfoText => if c == '@' then h.(at := true) else h.(userinfo := h.userinfo + [c])
    case HostStart => if c == '[' then h.(open := true) else h.(addr := h.addr + [c])
    case HostText => if c == ':' then h.(port := Some("")) else h.(addr := h.addr + [c])
    case V6Start => h.(addr := h.addr + [c])
    case V6 =>
      if c == ']' then h.(close := true)
      else if c == '%' then h.(zone := Some(""))
      else h.(addr := h.addr + [c])
    case V6End => h.(port := Some(""))
    case ZoneStart => if h.zone.Some? then h.(zone := Some(h.zone.value + [c])) else h
    case Zone =>
      if c == ']' then h.(close := true) else if h.zone.Some? then h.(zone := Some(h.zone.value + [c])) else h
    case PortStart => if h.port.Some? then h.(port := Some(h.port.value + [c])) else h
    case PortText => if h.port.Some? then h.(port := Some(h.port.value + [c])) else h
    case HostDead => h
  }

  lemma LongerUser(foundAt: bool, h: Authority, c: char)
    requires Begun(foundAt, h) && HStateOf(foundAt, h) in {UserinfoStart, UserinfoText, HostStart}
    requires HostChar(HStateOf(foundAt, h), c) != HostDead
    ensures Begun(foundAt, Longer(foundAt, h, c))
    ensures HStateOf(foundAt, Longer(foundAt, h, c)) == HostChar(HStateOf(foundAt, h), c)
  {
    Moves(HStateOf(foundAt, h), c);
    NoDelimiter(c);
    OneMore(h.userinfo, c);
    OneMore(h.addr, c);
    EmptyOk();
    hide HostChar, UserByte, NameByte, AddressByte, ZoneByte, UserOk, NameOk, AddressOk, ZoneOk, PortOk;
  }

  lemma LongerHost(foundAt: bool, h: Authority, c: char)
    requires Begun(foundAt, h) && HStateOf(foundAt, h) !in {UserinfoStart, UserinfoText, HostStart}
    requires HostChar(HStateOf(foundAt, h), c) != HostDead
    ensures Begun(foundAt, Longer(foundAt, h, c))
    ensures HStateOf(foundAt, Longer(foundAt, h, c)) == HostChar(HStateOf(foundAt, h), c)
  {
    Moves(HStateOf(foundAt, h), c);
    NoDelimiter(c);
    OneMore(h.addr, c);
    OneMore(if h.zone.Some? then h.zone.value else "", c);
    OneMore(if h.port.Some? then h.port.value else "", c);
    EmptyOk();
    hide HostChar, UserByte, NameByte, AddressByte, ZoneByte, UserOk, NameOk, AddressOk, ZoneOk, PortOk;
  }

  lemma LongerOk(foundAt: bool, h: Authority, c: char)
    requires Begun(foundAt, h) && HostChar(HStateOf(foundAt, h), c) != HostDead
    ensures Begun(foundAt, Longer(foundAt, h, c))
    ensures HStateOf(foundAt, Longer(foundAt, h, c)) == HostChar(HStateOf(foundAt, h), c)
  {
    hide *;
    if HStateOf(foundAt, h) in {UserinfoStart, UserinfoText, HostStart} {
      LongerUser(foundAt, h, c);
    } else {
      LongerHost(foundAt, h, c);
    }
  }

  lemma OneMore(s: string, c: char)
    ensures UserOk(s) && UserByte(c) ==> UserOk(s + [c])
    ensures NameOk(s) && NameByte(c) ==> NameOk(s + [c])
    ensures AddressOk(s) && AddressByte(c) ==> AddressOk(s + [c])
    ensures ZoneOk(s) && ZoneByte(c) ==> ZoneOk(s + [c])
    ensures PortOk(s) && '0' <= c <= '9' ==> PortOk(s + [c])
  {
    hide UserByte, NameByte, AddressByte, ZoneByte;
  }

  predicate Something(h: Authority) {
    h.userinfo != "" || h.at || h.open || h.addr != "" || h.zone.Some? || h.close || h.port.Some?
  }

  lemma SomethingIs(h: Authority)
    ensures Something(h) <==> ServerText(h) != ""
  {
    assert h.zone.Some? ==> ZoneText(h.zone) != "";
    assert h.port.Some? ==> PortSuffix(h.port) != "";
  }

  lemma LongerBack(foundAt: bool, h: Authority, c: char)
    requires Begun(foundAt, h) && HostChar(HStateOf(foundAt, h), c) != HostDead
    ensures var v := Longer(foundAt, h, c);
      ServerText(v) != "" && Shorter(v) == h && G.LastOf(ServerText(v)) == c
  {
    var v := Longer(foundAt, h, c);
    Moves(HStateOf(foundAt, h), c);
    hide HostChar, UserByte, NameByte, AddressByte, ZoneByte, UserOk, NameOk, AddressOk, ZoneOk, PortOk, ServerText;
    assert Something(v);
    SomethingIs(v);
    LastOfServer(v);
  }

  lemma LongerText(foundAt: bool, h: Authority, c: char)
    requires Begun(foundAt, h) && HostChar(HStateOf(foundAt, h), c) != HostDead
    ensures ServerText(Longer(foundAt, h, c)) == ServerText(h) + [c]
  {
    var v := Longer(foundAt, h, c);
    LongerBack(foundAt, h, c);
    hide *;
    ShorterText(v);
    FrontAndLast(ServerText(v));
  }

  lemma FrontAndLast(s: string)
    requires s != ""
    ensures s == G.Front(s) + [G.LastOf(s)]
  {
  }

  const NO_AUTHORITY := Authority.Authority("", false, false, "", None, false, None)

  function Reading(foundAt: bool, s: string): Authority {
    if s == "" then NO_AUTHORITY else Longer(foundAt, Reading(foundAt, G.Front(s)), G.LastOf(s))
  }

  lemma NothingRead(foundAt: bool)
    ensures Begun(foundAt, NO_AUTHORITY) && ServerText(NO_AUTHORITY) == ""
    ensures HStateOf(foundAt, NO_AUTHORITY) == HostStateAt(foundAt, "", 0, 0)
  {
  }

  lemma OnlyNothing(h: Authority)
    requires ServerText(h) == ""
    ensures h == NO_AUTHORITY
  {
    SomethingIs(h);
  }

  // The automaton sees only the bytes that it has read.
  lemma {:induction false} StateMoves(foundAt: bool, buf: string, from: nat, s: string, n: nat)
    requires n <= |s| && from + n <= |buf| && buf[from..from + n] == s[..n]
    ensures HostStateAt(foundAt, buf, from, from + n) == HostStateAt(foundAt, s, 0, n)
    decreases n
  {
    hide HostChar;
    if n > 0 {
      assert buf[from..from + n][..n - 1] == buf[from..from + (n - 1)] && s[..n][..n - 1] == s[..n - 1];
      assert buf[from..from + n][n - 1] == s[..n][n - 1];
      StateMoves(foundAt, buf, from, s, n - 1);
    }
  }

  lemma LastState(foundAt: bool, s: string)
    requires s != ""
    ensures HostStateAt(foundAt, s, 0, |s|)
         == HostChar(HostStateAt(foundAt, G.Front(s), 0, |s| - 1), G.LastOf(s))
  {
    hide HostChar;
    assert G.Front(s)[0..|s| - 1] == s[..|s| - 1];
    StateMoves(foundAt, G.Front(s), 0, s, |s| - 1);
  }

  lemma DeadMove(c: char)
    ensures HostChar(HostDead, c) == HostDead
  {
  }

  // Every text that the automaton accepts is the beginning of an authority.
  lemma {:induction false} HasParts(foundAt: bool, s: string)
    requires HostStateAt(foundAt, s, 0, |s|) != HostDead
    ensures var h := Reading(foundAt, s);
      Begun(foundAt, h) && ServerText(h) == s && HStateOf(foundAt, h) == HostStateAt(foundAt, s, 0, |s|)
    decreases |s|
  {
    hide HostChar, Begun, ServerText, HStateOf, Longer, HostStateAt;
    NothingRead(foundAt);
    if s != "" {
      LastState(foundAt, s);
      DeadMove(G.LastOf(s));
      HasParts(foundAt, G.Front(s));
      LongerOk(foundAt, Reading(foundAt, G.Front(s)), G.LastOf(s));
      LongerText(foundAt, Reading(foundAt, G.Front(s)), G.LastOf(s));
      FrontAndLast(s);
    }
  }

  // The automaton accepts every beginning of an authority.
  lemma {:induction false} PartsRead(foundAt: bool, h: Authority)
    requires Begun(foundAt, h)
    ensures HostStateAt(foundAt, ServerText(h), 0, |ServerText(h)|) == HStateOf(foundAt, h)
    decreases |ServerText(h)|
  {
    hide HostChar, Begun, ServerText, HStateOf, Shorter, HostStateAt;
    var s := ServerText(h);
    NothingRead(foundAt);
    if s == "" {
      OnlyNothing(h);
    } else {
      LastState(foundAt, s);
      ShorterText(h);
      ShorterOk(foundAt, h);
      ShorterState(foundAt, h);
      PartsRead(foundAt, Shorter(h));
    }
  }

  // ---- Where the parts are, from the start of the authority.

  function HostAt(h: Authority): nat { |h.userinfo| + (if h.at then 1 else 0) + (if h.open then 1 else 0) }

  function PortAt(h: Authority): nat { HostAt(h) + |NameText(h)| + (if h.close then 1 else 0) + 1 }

  function HostSlice(h: Authority, f: Part): Option<Slice> {
    match f
    case Userinfo => G.Cutout(0, h.userinfo)
    case Host => G.Cutout(HostAt(h), NameText(h))
    case Port => if h.port.None? then None else G.Cutout(PortAt(h), h.port.value)
    case _ => None
  }

  lemma LastPart(foundAt: bool, h: Authority, f: Part)
    requires Begun(foundAt, h) && ServerText(h) != "" && HostPart(f)
    ensures HostPartOf(HStateOf(foundAt, h)) == Some(f) <==> InSlice(HostSlice(h, f), |ServerText(h)| - 1)
  {
    hide UserOk, NameOk, AddressOk, ZoneOk, PortOk;
  }

  lemma ShorterParts(foundAt: bool, h: Authority, f: Part, i: nat)
    requires Begun(foundAt, h) && i < |ServerText(h)| - 1 && HostPart(f)
    ensures InSlice(HostSlice(h, f), i) <==> InSlice(HostSlice(Shorter(h), f), i)
  {
    hide UserOk, NameOk, AddressOk, ZoneOk, PortOk;
  }

  // The automaton counts exactly the bytes of a part as that part.
  lemma {:induction false} PartsAre(foundAt: bool, h: Authority, f: Part, i: nat)
    requires Begun(foundAt, h) && i < |ServerText(h)| && HostPart(f)
    ensures HostPartOf(HostStateAt(foundAt, ServerText(h), 0, i + 1)) == Some(f) <==> InSlice(HostSlice(h, f), i)
    decreases |ServerText(h)|
  {
    hide HostChar, Begun, ServerText, HStateOf, Shorter, HostStateAt, HostSlice, InSlice, HostPartOf;
    var s := ServerText(h);
    if i == |s| - 1 {
      PartsRead(foundAt, h);
      LastPart(foundAt, h, f);
    } else {
      ShorterText(h);
      ShorterOk(foundAt, h);
      PartsAre(foundAt, Shorter(h), f, i);
      ShorterParts(foundAt, h, f, i);
      assert G.Front(s)[0..i + 1] == s[..i + 1];
      StateMoves(foundAt, G.Front(s), 0, s, i + 1);
    }
  }

  // No part but the delimiter holds an '@'.
  lemma NoAt(s: string, c: char)
    requires c in s
    ensures UserOk(s) || NameOk(s) || AddressOk(s) || ZoneOk(s) || PortOk(s) ==> c != '@'
  {
    var i :| 0 <= i < |s| && s[i] == c;
  }

  predicate AtFree(s: string) { '@' !in s }

  lemma PartsAtFree(foundAt: bool, h: Authority)
    requires Begun(foundAt, h)
    ensures AtFree(h.userinfo) && AtFree(h.addr) && AtFree(ZoneText(h.zone)) && AtFree(PortSuffix(h.port))
  {
    if '@' in h.userinfo { NoAt(h.userinfo, '@'); }
    if '@' in h.addr { NoAt(h.addr, '@'); }
    if h.zone.Some? && '@' in h.zone.value { NoAt(h.zone.value, '@'); }
    if h.port.Some? && '@' in h.port.value { NoAt(h.port.value, '@'); }
    hide UserOk, NameOk, AddressOk, ZoneOk, PortOk;
  }

  lemma AtIn(foundAt: bool, h: Authority)
    requires Begun(foundAt, h)
    ensures '@' in ServerText(h) <==> h.at
  {
    PartsAtFree(foundAt, h);
    hide Begun, ZoneText, PortSuffix;
  }
}
