/**
  JSON Pointer (RFC 6901) as cJSON_Utils reads and writes it. A node is identified by its
  location: the child indices on the way down from the root.
 */
module Pointer {
  import opened Text
  import opened Json

  type Location = seq<nat>

  function Children(t: Json): seq<Json> {
    match t
    case Array(items) => items
    case Object(ms, _) => seq(|ms|, i requires 0 <= i < |ms| => ms[i].value)
    case _ => []
  }

  predicate ValidAt(t: Json, at: Location) {
    at == [] || (at[0] < |Children(t)| && ValidAt(Children(t)[at[0]], at[1..]))
  }

  function NodeAt(t: Json, at: Location): Json
    requires ValidAt(t, at)
  {
    if at == [] then t else NodeAt(Children(t)[at[0]], at[1..])
  }

  // The tree after the node at `at` has been changed into `x` in place.
  function ReplaceAt(t: Json, at: Location, x: Json): Json
    requires ValidAt(t, at)
  {
    if at == [] then x
    else WithChild(t, at[0], ReplaceAt(Children(t)[at[0]], at[1..], x))
  }

  function WithChild(t: Json, i: nat, x: Json): (r: Json)
    requires i < |Children(t)|
    ensures Children(r) == Children(t)[i := x]
  {
    match t
    case Array(items) => Array(items[i := x])
    case Object(ms, stale) => Object(ms[i := Member(ms[i].key, x)], stale)
  }

  // ----- reference tokens -----

  // cJSONUtils_PointerEncodedstrcpy
  function Encode(s: string): string {
    if s == [] then [] else EncodeChar(s[0]) + Encode(s[1..])
  }

  function EncodeChar(c: char): string {
    if c == '/' then "~1" else if c == '~' then "~0" else [c]
  }

  // cJSONUtils_InplaceDecodePointerString; None where it would run past the terminator.
  function Decode(s: string): Option<string> {
    if s == [] then Some([])
    else if s[0] != '~' then
      match Decode(s[1..])
      case None => None
      case Some(r) => Some([s[0]] + r)
    else if |s| == 1 then None
    else
      match Decode(s[2..])
      case None => None
      case Some(r) => Some([if s[1] == '0' then '~' else '/'] + r)
  }

  predicate AtTokenEnd(p: string) { p == [] || p[0] == '/' }

  // cJSONUtils_Pstrcasecmp(key, p) == 0: `key` is the token that `p` starts with.
  predicate TokenMatches(key: string, p: string) {
    if key == [] || AtTokenEnd(p) then key == [] && AtTokenEnd(p)
    else if p[0] == '~' then
      |p| > 1 && ((p[1] == '0' && key[0] == '~') || (p[1] == '1' && key[0] == '/'))
      && TokenMatches(key[1..], p[2..])
    else Lower(key[0]) == Lower(p[0]) && TokenMatches(key[1..], p[1..])
  }

  function SkipToken(p: string): (r: string)
    ensures |r| <= |p| && AtTokenEnd(r)
  {
    if AtTokenEnd(p) then p else SkipToken(p[1..])
  }

  // The child loop of cJSONUtils_GetPointer.
  function FindMember(ms: seq<Member>, p: string): (i: nat)
    ensures i <= |ms|
  {
    if ms == [] || TokenMatches(ms[0].key, p) then 0 else 1 + FindMember(ms[1..], p)
  }

  // cJSONUtils_GetPointer: where the pointer leads, None for NULL.
  function GetPointer(t: Json, p: string): Option<Location>
    decreases |p|, 0
  {
    if p == [] || p[0] != '/' then Some([])
    else
      var token := p[1..];
      match t
      case Array(items) =>
        var n := DigitRun(token);
        if !AtTokenEnd(token[n..]) then None
        else Descend(t, DecimalValue(token[..n]), token[n..])
      case Object(ms, _) => Descend(t, FindMember(ms, token), SkipToken(token))
      case _ => None
  }

  function Descend(t: Json, i: nat, rest: string): Option<Location>
    decreases |rest|, 1
  {
    if i >= |Children(t)| then None
    else
      match GetPointer(Children(t)[i], rest)
      case None => None
      case Some(at) => Some([i] + at)
  }

  // cJSONUtils_FindPointerFromObjectTo: a depth-first search for the node itself. `here` is
  // where the search has got to.
  function FindPointer(t: Json, here: Location, target: Location): Option<string>
    decreases t, |Children(t)| + 2
  {
    if here == target then Some("") else FindPointerFrom(t, 0, here, target)
  }

  function FindPointerFrom(t: Json, c: nat, here: Location, target: Location): Option<string>
    requires c <= |Children(t)|
    decreases t, |Children(t)| + 1 - c
  {
    if c == |Children(t)| then None
    else
      assert Children(t)[c] < t;
      match FindPointer(Children(t)[c], here + [c], target)
      case None => FindPointerFrom(t, c + 1, here, target)
      case Some(found) => Some("/" + Token(t, c) + found)
  }

  // How a container names its child in a pointer.
  function Token(t: Json, i: nat): string
    requires i < |Children(t)|
  {
    match t
    case Array(_) => Decimal(i)
    case Object(ms, _) => Encode(ms[i].key)
  }

  // ----- the round trip -----

  lemma {:induction false} DecodeEncode(s: string)
    ensures Decode(Encode(s)) == Some(s)
  {
    if s != [] {
      DecodeEncode(s[1..]);
      assert Encode(s)[|EncodeChar(s[0])|..] == Encode(s[1..]);
      assert s == [s[0]] + s[1..];
    }
  }

  lemma {:induction false} EncodeHasNoSlash(s: string)
    ensures '/' !in Encode(s)
  {
    if s != [] {
      EncodeHasNoSlash(s[1..]);
    }
  }

  lemma {:induction false} DecodeOfPlain(s: string)
    requires '~' !in s
    ensures Decode(s) == Some(s)
  {
    if s != [] {
      DecodeOfPlain(s[1..]);
      assert s == [s[0]] + s[1..];
    }
  }

  lemma TokenMatchesHead(key: string, c: char, q: string)
    ensures TokenMatches(key, EncodeChar(c) + q) <==>
      key != [] && Lower(key[0]) == Lower(c) && TokenMatches(key[1..], q)
  {
    var p := EncodeChar(c) + q;
    assert p[|EncodeChar(c)|..] == q;
  }

  // Matching against an encoded key is equality of the folded keys.
  lemma {:induction false} TokenMatchesEncoded(key: string, k: string, rest: string)
    requires AtTokenEnd(rest)
    ensures TokenMatches(key, Encode(k) + rest) <==> Fold(key) == Fold(k)
  {
    if k == [] {
      assert Encode(k) + rest == rest;
    } else {
      assert Encode(k) + rest == EncodeChar(k[0]) + (Encode(k[1..]) + rest);
      TokenMatchesHead(key, k[0], Encode(k[1..]) + rest);
      if key != [] {
        TokenMatchesEncoded(key[1..], k[1..], rest);
        FoldCons(key, k);
      }
    }
  }

  lemma {:induction false} SkipTokenOf(token: string, rest: string)
    requires '/' !in token && AtTokenEnd(rest)
    ensures SkipToken(token + rest) == rest
  {
    if token == [] {
      assert token + rest == rest;
    } else {
      assert (token + rest)[1..] == token[1..] + rest;
      SkipTokenOf(token[1..], rest);
    }
  }

  lemma {:induction false} FindMemberEncoded(ms: seq<Member>, k: string, rest: string)
    requires AtTokenEnd(rest)
    ensures FindMember(ms, Encode(k) + rest) == IndexOf(ms, Fold(k))
  {
    if ms != [] {
      TokenMatchesEncoded(ms[0].key, k, rest);
      FindMemberEncoded(ms[1..], k, rest);
    }
  }

  lemma PointerIntoObject(t: Json, k: string, rest: string)
    requires t.Object? && AtTokenEnd(rest)
    ensures GetPointer(t, "/" + Encode(k) + rest) == Descend(t, IndexOf(t.members, Fold(k)), rest)
  {
    var p := "/" + Encode(k) + rest;
    assert p[1..] == Encode(k) + rest;
    EncodeHasNoSlash(k);
    SkipTokenOf(Encode(k), rest);
    FindMemberEncoded(t.members, k, rest);
  }

  lemma PointerIntoArray(items: seq<Json>, i: nat, rest: string)
    requires AtTokenEnd(rest)
    ensures GetPointer(Array(items), "/" + Decimal(i) + rest) == Descend(Array(items), i, rest)
  {
    var p := "/" + Decimal(i) + rest;
    assert p[1..] == Decimal(i) + rest;
    DigitRunOf(Decimal(i), rest);
    DecimalRoundTrip(i);
    assert p[1..][..|Decimal(i)|] == Decimal(i) && p[1..][|Decimal(i)|..] == rest;
  }

  // One token of a pointer leads to the child it names.
  lemma PointerIntoChild(t: Json, i: nat, rest: string)
    requires i < |Children(t)| && AtTokenEnd(rest)
    requires t.Object? ==> DistinctKeys(t.members)
    ensures GetPointer(t, "/" + Token(t, i) + rest) == Descend(t, i, rest)
  {
    match t
    case Array(items) => PointerIntoArray(items, i, rest);
    case Object(ms, _) =>
      PointerIntoObject(t, ms[i].key, rest);
      IndexOfDistinct(ms, i);
  }

  lemma ChildCaseDistinct(t: Json, i: nat)
    requires i < |Children(t)| && CaseDistinct(t)
    ensures CaseDistinct(Children(t)[i])
    ensures t.Object? ==> DistinctKeys(t.members)
  {
    match t
    case Array(items) =>
    case Object(ms, _) => assert ms[i] in ms;
  }

  lemma {:induction false} SearchMisses(t: Json, c: nat, here: Location, target: Location)
    requires c <= |Children(t)|
    requires !(exists j :: c <= j < |Children(t)| && here + [j] <= target)
    ensures FindPointerFrom(t, c, here, target) == None
    decreases t, |Children(t)| - c
  {
    if c < |Children(t)| {
      assert !(here + [c] <= target);
      var child := Children(t)[c];
      assert child < t;
      forall j | 0 <= j < |Children(child)|
        ensures !(here + [c] + [j] <= target)
      {
        assert here + [c] + [j] <= target ==> here + [c] <= target;
      }
      SearchMisses(child, 0, here + [c], target);
      SearchMisses(t, c + 1, here, target);
    }
  }

  // The search finds the target below `t`, and its pointer resolves to the very same node.
  lemma {:induction false} PointerRoundTripFrom(t: Json, here: Location, at: Location)
    requires CaseDistinct(t) && ValidAt(t, at)
    ensures var p := FindPointer(t, here, here + at);
      p.Some? && AtTokenEnd(p.value) && GetPointer(t, p.value) == Some(at)
    decreases t, |Children(t)| + 1
  {
    if at == [] {
      assert here + at == here;
    } else {
      assert here + at != here;
      PointerRoundTripChild(t, 0, here, at);
    }
  }

  lemma {:induction false} PointerRoundTripChild(t: Json, c: nat, here: Location, at: Location)
    requires CaseDistinct(t) && at != [] && ValidAt(t, at) && c <= at[0]
    ensures var p := FindPointerFrom(t, c, here, here + at);
      p.Some? && AtTokenEnd(p.value) && GetPointer(t, p.value) == Some(at)
    decreases t, |Children(t)| - c
  {
    hide GetPointer, CaseDistinct, Token;
    var child := Children(t)[c];
    assert child < t;
    if c < at[0] {
      SearchMissesSibling(t, c, here, at);
      PointerRoundTripChild(t, c + 1, here, at);
    } else {
      ChildCaseDistinct(t, c);
      assert here + at == here + [c] + at[1..];
      PointerRoundTripFrom(child, here + [c], at[1..]);
      PointerToChild(t, at, FindPointer(child, here + [c], here + at).value);
    }
  }

  lemma PointerToChild(t: Json, at: Location, found: string)
    requires at != [] && ValidAt(t, at) && (t.Object? ==> DistinctKeys(t.members))
    requires AtTokenEnd(found) && GetPointer(Children(t)[at[0]], found) == Some(at[1..])
    ensures GetPointer(t, "/" + Token(t, at[0]) + found) == Some(at)
  {
    PointerIntoChild(t, at[0], found);
    assert [at[0]] + at[1..] == at;
  }

  lemma SearchMissesSibling(t: Json, c: nat, here: Location, at: Location)
    requires at != [] && c < |Children(t)| && c != at[0]
    ensures FindPointer(Children(t)[c], here + [c], here + at) == None
  {
    var child := Children(t)[c];
    assert (here + at)[|here|] == at[0];
    assert (here + [c])[|here|] == c;
    forall j | 0 <= j < |Children(child)|
      ensures !(here + [c] + [j] <= here + at)
    {
      assert (here + [c] + [j])[|here|] == c;
    }
    SearchMisses(child, 0, here + [c], here + at);
  }

  // For every node of a tree whose sibling keys differ by more than case, looking up the
  // pointer that was found for it gives that node and no other.
  lemma PointerRoundTrip(t: Json, at: Location)
    requires CaseDistinct(t) && ValidAt(t, at)
    ensures var p := FindPointer(t, [], at); p.Some? && GetPointer(t, p.value) == Some(at)
  {
    PointerRoundTripFrom(t, [], at);
    assert [] + at == at;
  }

  // The search only ever finds nodes of the tree.
  lemma {:induction false} GetPointerValid(t: Json, p: string)
    ensures GetPointer(t, p).Some? ==> ValidAt(t, GetPointer(t, p).value)
    decreases |p|
  {
    if p != [] && p[0] == '/' {
      var token := p[1..];
      match t
      case Array(items) =>
        var n := DigitRun(token);
        var i := DecimalValue(token[..n]);
        if i < |items| {
          GetPointerValid(items[i], token[n..]);
        }
      case Object(ms, _) =>
        var i := FindMember(ms, token);
        if i < |ms| {
          GetPointerValid(ms[i].value, SkipToken(token));
        }
      case _ =>
    }
  }
}
