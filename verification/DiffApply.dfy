/**
  Generating a patch and applying it: cJSON_Utils turns `from` into `to` exactly when no array
  has to lose more than one element and no stale link is followed.
 */
module DiffApply {
  import opened Text
  import opened Json
  import opened Pointer
  import opened Sort
  import opened Compare
  import opened Patch

  // ----- what the generated patches make of `from` -----

  // Removing indices c, c+1, ... from a tail leaves every second element of it.
  function Odds<T>(s: seq<T>): seq<T> {
    if |s| < 2 then [] else [s[1]] + Odds(s[2..])
  }

  function Patched(from: Json, to: Json): Val
  {
    if from.Array? && to.Array? then VArray(PatchedItems(from.items, to.items))
    else if from.Object? && to.Object? then VObject(PatchedMembers(from.members, to.members))
    else Canon(to)
  }

  function PatchedItems(from: seq<Json>, to: seq<Json>): seq<Val>
  {
    if from == [] then CanonItems(to)
    else if to == [] then Odds(CanonItems(from))
    else [Patched(from[0], to[0])] + PatchedItems(from[1..], to[1..])
  }

  function PatchedMembers(from: seq<Member>, to: seq<Member>): map<string, Val>
  {
    if to == [] then map[]
    else PatchedMembers(from, to[1..])[Fold(to[0].key) := PatchedMember(from, to[0])]
  }

  function PatchedMember(from: seq<Member>, m: Member): Val
  {
    var i := IndexOf(from, Fold(m.key));
    if i < |from| then Patched(from[i].value, m.value) else Canon(m.value)
  }

  // No aligned pair of arrays shrinks by more than one element.
  predicate LosesAtMostOne(from: Json, to: Json)
  {
    if from.Array? && to.Array? then
      && |from.items| <= |to.items| + 1
      && forall i :: 0 <= i < |to.items| && i < |from.items| ==> LosesAtMostOne(from.items[i], to.items[i])
    else if from.Object? && to.Object? then
      forall m <- to.members :: MemberLosesAtMostOne(from.members, m)
    else true
  }

  predicate MemberLosesAtMostOne(from: seq<Member>, m: Member) {
    var i := IndexOf(from, Fold(m.key));
    i < |from| ==> LosesAtMostOne(from[i].value, m.value)
  }

  // The patch leaves the node in its place: it has no edit of it, or only edits below it.
  predicate Kept(from: Json, to: Json) {
    SameKind(from, to) && (IsContainer(from) || Canon(from) == Canon(to))
  }

  // Where a list of `doc` has a stale link, the patch does not take its first member away.
  predicate HeadsHold(doc: Json, from: Json, to: Json)
    decreases from
  {
    if doc.Array? && from.Array? && to.Array? then
      forall i :: 0 <= i < |from.items| && i < |doc.items| && i < |to.items| ==>
        HeadsHold(doc.items[i], from.items[i], to.items[i])
    else if doc.Object? && from.Object? && to.Object? then
      && (Stale(doc) ==> KeyKept(Fold(doc.members[0].key), from.members, to.members))
      && forall m <- from.members :: MemberHolds(doc.members, m, to.members)
    else true
  }

  predicate KeyKept(k: string, from: seq<Member>, to: seq<Member>) {
    HasKey(from, k) && HasKey(to, k) && Kept(from[IndexOf(from, k)].value, to[IndexOf(to, k)].value)
  }

  predicate MemberHolds(doc: seq<Member>, m: Member, to: seq<Member>)
    decreases m
  {
    var k := Fold(m.key);
    HasKey(doc, k) && HasKey(to, k) ==> HeadsHold(doc[IndexOf(doc, k)].value, m.value, to[IndexOf(to, k)].value)
  }

  lemma {:induction false} PatchedItemsShape(from: seq<Json>, to: seq<Json>)
    ensures |from| <= |to| ==> |PatchedItems(from, to)| == |to|
    ensures |from| > |to| ==> |PatchedItems(from, to)| == |to| + (|from| - |to|) / 2
    ensures forall i :: 0 <= i < |from| && i < |to| ==> PatchedItems(from, to)[i] == Patched(from[i], to[i])
    ensures forall i :: |from| <= i < |to| ==> PatchedItems(from, to)[i] == Canon(to[i])
  {
    if from != [] && to == [] {
      OddsLength(CanonItems(from));
    } else if from != [] {
      PatchedItemsShape(from[1..], to[1..]);
    }
  }

  lemma {:induction false} OddsLength<T>(s: seq<T>)
    ensures |Odds(s)| == |s| / 2
  {
    if |s| >= 2 {
      OddsLength(s[2..]);
    }
  }

  lemma {:induction false} PatchedAt(from: seq<Member>, to: seq<Member>, fk: string)
    ensures fk in PatchedMembers(from, to) <==> HasKey(to, fk)
    ensures HasKey(to, fk) ==> PatchedMembers(from, to)[fk] == PatchedMember(from, to[IndexOf(to, fk)])
  {
    if to != [] {
      PatchedAt(from, to[1..], fk);
    }
  }

  lemma {:induction false} PatchedArrayIsTarget(from: seq<Json>, to: seq<Json>)
    requires forall x <- to :: CaseDistinct(x)
    ensures PatchedItems(from, to) == CanonItems(to) <==>
      && |from| <= |to| + 1
      && forall i :: 0 <= i < |to| && i < |from| ==> LosesAtMostOne(from[i], to[i])
  {
    var p := PatchedItems(from, to);
    PatchedItemsShape(from, to);
    forall i | 0 <= i < |to| && i < |from|
      ensures p[i] == Canon(to[i]) <==> LosesAtMostOne(from[i], to[i])
    {
      PatchedIsTarget(from[i], to[i]);
    }
    assert |p| == |to| <==> |from| <= |to| + 1;
    if p == CanonItems(to) {
      assert forall i :: 0 <= i < |to| ==> p[i] == CanonItems(to)[i];
    }
  }

  lemma {:induction false} PatchedMemberIsTarget(from: seq<Member>, m: Member)
    requires CaseDistinct(m.value)
    ensures PatchedMember(from, m) == Canon(m.value) <==> MemberLosesAtMostOne(from, m)
  {
    var i := IndexOf(from, Fold(m.key));
    if i < |from| {
      PatchedIsTarget(from[i].value, m.value);
    }
  }

  lemma {:induction false} PatchedObjectIsTarget(from: seq<Member>, to: seq<Member>)
    requires DistinctKeys(to) && forall m <- to :: CaseDistinct(m.value)
    ensures PatchedMembers(from, to) == CanonMembers(to) <==>
      forall m <- to :: MemberLosesAtMostOne(from, m)
  {
    var p, f := PatchedMembers(from, to), CanonMembers(to);
    forall m | m in to
      ensures PatchedMember(from, m) == Canon(m.value) <==> MemberLosesAtMostOne(from, m)
    {
      PatchedMemberIsTarget(from, m);
    }
    if forall m <- to :: PatchedMember(from, m) == Canon(m.value) {
      SameMap(from, to);
    }
    if p == f {
      forall m | m in to ensures PatchedMember(from, m) == Canon(m.value) {
        var i :| 0 <= i < |to| && to[i] == m;
        CanonMember(to, i);
        PatchedAt(from, to, Fold(m.key));
        IndexOfDistinct(to, i);
      }
    }
  }

  lemma SameMap(from: seq<Member>, to: seq<Member>)
    requires forall m <- to :: PatchedMember(from, m) == Canon(m.value)
    ensures PatchedMembers(from, to) == CanonMembers(to)
  {
    forall k
      ensures k in PatchedMembers(from, to) <==> k in CanonMembers(to)
      ensures k in CanonMembers(to) ==> PatchedMembers(from, to)[k] == CanonMembers(to)[k]
    {
      PatchedAt(from, to, k);
      CanonAt(to, k);
    }
  }

  // The exact condition, as a statement about the result alone.
  lemma {:induction false} PatchedIsTarget(from: Json, to: Json)
    requires CaseDistinct(to)
    ensures Patched(from, to) == Canon(to) <==> LosesAtMostOne(from, to)
  {
    if from.Array? && to.Array? {
      PatchedArrayIsTarget(from.items, to.items);
    } else if from.Object? && to.Object? {
      PatchedObjectIsTarget(from.members, to.members);
    }
  }

  // ----- applying edits one by one -----

  function ApplyEdits(doc: Json, es: seq<Edit>): Outcome
    decreases es
  {
    if es == [] then Done(0, doc)
    else
      var r := ApplyOperation(doc, es[0].op, es[0].path, None, es[0].value);
      if r.Undefined? || r.code != 0 then r else ApplyEdits(r.doc, es[1..])
  }

  lemma MadeFields(e: Edit)
    ensures GetObjectItem(MakePatch(e), "op") == Some(String(OpName(e.op)))
    ensures GetObjectItem(MakePatch(e), "path") == Some(String(e.path))
    ensures GetObjectItem(MakePatch(e), "value") == if e.value.None? then None else Some(Duplicate(e.value.value))
    ensures GetObjectItem(MakePatch(e), "from") == None
  {
    hide OpName;
    var ms := MakePatch(e).members;
    assert ms[1..][0] == ms[1];
    assert Fold("from")[0] == 'f' && Fold("path")[0] == 'p';
    assert |Fold("op")| == 2 && |Fold("path")| == 4 && |Fold("value")| == 5 && |Fold("from")| == 4;
    hide Fold;
    assert ms[0].key == "op" && ms[1].key == "path" && (|ms| > 2 ==> ms[2].key == "value");
  }

  lemma MadeOp(op: Op)
    ensures OpOf(OpName(op)) == Some(op)
  {
  }

  lemma MadePatch(doc: Json, e: Edit)
    requires e.op != Test
    ensures ApplyPatch(doc, MakePatch(e)) == ApplyOperation(doc, e.op, e.path, None, e.value)
  {
    MadeFields(e);
    MadeOp(e.op);
    if e.value.Some? {
      DuplicateIsClean(e.value.value);
      DuplicateOfClean(Duplicate(e.value.value));
    }
  }

  lemma {:induction false} ApplyMadePatches(doc: Json, es: seq<Edit>)
    requires forall e <- es :: e.op != Test
    ensures ApplyEach(doc, MakePatches(es)) == ApplyEdits(doc, es)
    decreases es
  {
    if es != [] {
      MadePatch(doc, es[0]);
      var r := ApplyPatch(doc, MakePatch(es[0]));
      assert MakePatches(es)[1..] == MakePatches(es[1..]);
      if !r.Undefined? && r.code == 0 {
        ApplyMadePatches(r.doc, es[1..]);
      }
    }
  }

  lemma {:induction false} ApplyConcat(doc: Json, es: seq<Edit>, es': seq<Edit>)
    ensures var r := ApplyEdits(doc, es);
      ApplyEdits(doc, es + es') == if r.Done? && r.code == 0 then ApplyEdits(r.doc, es') else r
    decreases es
  {
    hide ApplyOperation;
    if es == [] {
      assert es + es' == es';
    } else {
      assert (es + es')[0] == es[0] && (es + es')[1..] == es[1..] + es';
      var r := ApplyOperation(doc, es[0].op, es[0].path, None, es[0].value);
      if r.Done? && r.code == 0 {
        ApplyConcat(r.doc, es[1..], es');
      }
    }
  }

  // ----- edits below a child -----

  function Rebase(prefix: string, es: seq<Edit>): seq<Edit> {
    if es == [] then [] else [es[0].(path := prefix + es[0].path)] + Rebase(prefix, es[1..])
  }

  predicate Inner(es: seq<Edit>) {
    forall e <- es :: e.path != [] && e.path[0] == '/' && e.op in {Add, Remove, Replace}
  }

  lemma {:induction false} RebaseConcat(prefix: string, es: seq<Edit>, es': seq<Edit>)
    ensures Rebase(prefix, es + es') == Rebase(prefix, es) + Rebase(prefix, es')
  {
    if es == [] {
      assert es + es' == es';
    } else {
      assert (es + es')[0] == es[0] && (es + es')[1..] == es[1..] + es';
      RebaseConcat(prefix, es[1..], es');
    }
  }

  lemma JoinRebased(p: string, q: string, suffix: string)
    ensures Join(p + q, suffix) == p + Join(q, suffix)
  {
  }

  lemma {:induction false} AppendsRebased(p: string, q: string, to: seq<Json>)
    ensures Appends(p + q, to) == Rebase(p, Appends(q, to))
    ensures AtTokenEnd(q) ==> Inner(Appends(q, to))
  {
    hide Encode;
    if to != [] {
      var e, rest := Edit(Add, Join(q, "-"), Some(to[0])), Appends(q, to[1..]);
      AppendsRebased(p, q, to[1..]);
      JoinRebased(p, q, "-");
      RebaseCons(p, e, rest);
    }
  }

  lemma {:induction false} RemovesRebased(p: string, q: string, c: nat, n: nat)
    ensures Removes(p + q, c, n) == Rebase(p, Removes(q, c, n))
    ensures AtTokenEnd(q) ==> Inner(Removes(q, c, n))
    decreases n
  {
    hide Decimal, Encode;
    if n > 0 {
      var e, rest := Edit(Remove, Join(q, Decimal(c)), None), Removes(q, c + 1, n - 1);
      RemovesRebased(p, q, c + 1, n - 1);
      JoinRebased(p, q, Decimal(c));
      RebaseCons(p, e, rest);
    }
  }

  lemma RebaseCons(p: string, e: Edit, es: seq<Edit>)
    ensures Rebase(p, [e] + es) == [e.(path := p + e.path)] + Rebase(p, es)
  {
    assert ([e] + es)[1..] == es;
  }

  lemma {:induction false} CompareRebased(p: string, q: string, from: Json, to: Json)
    ensures CompareToPatch(p + q, from, to) == Rebase(p, CompareToPatch(q, from, to))
    ensures (q != [] && q[0] == '/') || (q == [] && SameKind(from, to) && IsContainer(from)) ==>
      Inner(CompareToPatch(q, from, to))
    decreases from, 1, 0
  {
    if SameKind(from, to) {
      match from
      case Array(items) => ItemsRebased(p, q, 0, items, to.items);
      case Object(ms, _) =>
        SortListSorts(ms);
        MembersRebased(p, q, from, SortList(ms), SortList(to.members));
      case _ =>
    }
  }

  lemma {:induction false} ItemsRebased(p: string, q: string, c: nat, from: seq<Json>, to: seq<Json>)
    ensures DiffItems(p + q, c, from, to) == Rebase(p, DiffItems(q, c, from, to))
    ensures AtTokenEnd(q) ==> Inner(DiffItems(q, c, from, to))
    decreases from, 0, 0
  {
    if from == [] {
      AppendsRebased(p, q, to);
    } else if to == [] {
      RemovesRebased(p, q, c, |from|);
    } else {
      var q' := q + "/" + Decimal(c);
      assert p + q + "/" + Decimal(c) == p + q';
      CompareRebased(p, q', from[0], to[0]);
      ItemsRebased(p, q, c + 1, from[1..], to[1..]);
      RebaseConcat(p, CompareToPatch(q', from[0], to[0]), DiffItems(q, c + 1, from[1..], to[1..]));
    }
  }

  lemma {:induction false} MembersRebased(p: string, q: string, from: Json, a: seq<Member>, b: seq<Member>)
    requires from.Object? && forall m <- a :: m in from.members
    ensures DiffMembers(p + q, from, a, b) == Rebase(p, DiffMembers(q, from, a, b))
    ensures AtTokenEnd(q) ==> Inner(DiffMembers(q, from, a, b))
    decreases from, 0, |a| + |b|
  {
    if a != [] || b != [] {
      var diff := if a == [] then 1 else if b == [] then -1 else CaseCmp(a[0].key, b[0].key);
      if diff == 0 {
        assert a[0] in from.members;
        JoinRebased(p, q, a[0].key);
        CompareRebased(p, Join(q, a[0].key), a[0].value, b[0].value);
        MembersRebased(p, q, from, a[1..], b[1..]);
        RebaseConcat(p, CompareToPatch(Join(q, a[0].key), a[0].value, b[0].value),
                     DiffMembers(q, from, a[1..], b[1..]));
      } else if diff < 0 {
        JoinRebased(p, q, a[0].key);
        MembersRebased(p, q, from, a[1..], b);
      } else {
        JoinRebased(p, q, b[0].key);
        MembersRebased(p, q, from, a, b[1..]);
      }
    }
  }

  // `name` is the decoded token that leads from `t` to its child `i`.
  predicate Names(t: Json, name: string, i: nat) {
    i < |Children(t)| && (if t.Object? then IndexOf(t.members, Fold(name)) == i else name == Decimal(i))
  }

  lemma {:induction false} EncodePlain(s: string)
    requires '/' !in s && '~' !in s
    ensures Encode(s) == s
  {
    if s != [] {
      EncodePlain(s[1..]);
    }
  }

  lemma EncodeDecimal(n: nat)
    ensures Encode(Decimal(n)) == Decimal(n)
  {
    EncodePlain(Decimal(n));
  }

  lemma PointerByName(t: Json, name: string, i: nat, rest: string)
    requires Names(t, name, i) && AtTokenEnd(rest)
    ensures GetPointer(t, Join("", name) + rest) == Descend(t, i, rest)
  {
    assert Join("", name) + rest == "/" + Encode(name) + rest;
    if t.Object? {
      PointerIntoObject(t, name, rest);
    } else {
      EncodeDecimal(i);
      PointerIntoArray(t.items, i, rest);
    }
  }

  lemma ResolveSplit(t: Json, path: string, parent: string, token: string)
    requires '/' !in token && path == parent + "/" + token
    ensures Resolve(t, path) == MakeTarget(GetPointer(t, parent), Decode(token))
  {
    assert path[|parent| + 1..] == token;
    LastSlashIs(path, |parent|);
    assert path[..|parent|] == parent;
  }

  lemma LastSlashIs(p: string, i: nat)
    requires i < |p| && p[i] == '/' && '/' !in p[i + 1..]
    ensures LastSlash(p) == i
  {
    var j := LastSlash(p);
    assert '/' in p;
    forall k | i < k < |p| ensures p[k] != '/' {
      assert p[k] == p[i + 1..][k - i - 1];
    }
    forall k | j < k < |p| ensures p[k] != '/' {
      assert p[k] == p[j + 1..][k - j - 1];
    }
  }

  function InChild(i: nat, r: Target): Target {
    if r.Target? then Target([i] + r.at, r.child) else r
  }

  lemma SplitLast(q: string) returns (parent: string, token: string)
    requires q != [] && q[0] == '/'
    ensures q == parent + "/" + token && '/' !in token && AtTokenEnd(parent)
  {
    assert '/' in q;
    var l := LastSlash(q);
    parent, token := q[..l], q[l + 1..];
  }

  lemma ResolveJoined(t: Json, name: string, i: nat, parent: string, token: string)
    requires Names(t, name, i) && AtTokenEnd(parent) && '/' !in token
    ensures Resolve(t, Join("", name) + (parent + "/" + token))
         == InChild(i, Resolve(Children(t)[i], parent + "/" + token))
  {
    var p := Join("", name);
    assert p + (parent + "/" + token) == (p + parent) + "/" + token;
    ResolveSplit(Children(t)[i], parent + "/" + token, parent, token);
    ResolveSplit(t, p + (parent + "/" + token), p + parent, token);
    PointerByName(t, name, i, parent);
  }

  lemma ResolveInChild(t: Json, name: string, i: nat, q: string)
    requires Names(t, name, i) && q != [] && q[0] == '/'
    ensures Resolve(t, Join("", name) + q) == InChild(i, Resolve(Children(t)[i], q))
  {
    var parent, token := SplitLast(q);
    ResolveJoined(t, name, i, parent, token);
  }

  function OutcomeInChild(t: Json, i: nat, r: Outcome): Outcome
    requires i < |Children(t)|
  {
    if r.Undefined? then r else Done(r.code, WithChild(t, i, r.doc))
  }

  lemma NamesAfter(t: Json, name: string, i: nat, x: Json)
    requires Names(t, name, i)
    ensures Names(WithChild(t, i, x), name, i)
  {
    if t.Object? {
      IndexOfSameKeys(t.members, WithChild(t, i, x).members, Fold(name));
    }
  }

  lemma WithChildTwice(t: Json, i: nat, x: Json, y: Json)
    requires i < |Children(t)|
    ensures WithChild(WithChild(t, i, x), i, y) == WithChild(t, i, y)
    ensures WithChild(t, i, Children(t)[i]) == t
  {
    match t
    case Array(items) =>
      assert items[i := x][i := y] == items[i := y] && items[i := items[i]] == items;
    case Object(ms, stale) =>
      var ms' := ms[i := Member(ms[i].key, x)];
      assert ms'[i := Member(ms'[i].key, y)] == ms[i := Member(ms[i].key, y)];
      assert ms[i := Member(ms[i].key, ms[i].value)] == ms;
  }

  lemma AddAtInChild(t: Json, name: string, i: nat, q: string, v: Json)
    requires Names(t, name, i) && q != [] && q[0] == '/'
    ensures AddAt(t, Join("", name) + q, v) == OutcomeInChild(t, i, AddAt(Children(t)[i], q, v))
  {
    ResolveInChild(t, name, i, q);
    WithChildTwice(t, i, Children(t)[i], Children(t)[i]);
  }

  lemma DetachInChild(t: Json, name: string, i: nat, q: string)
    requires Names(t, name, i) && q != [] && q[0] == '/'
    ensures var d, d' := PatchDetach(t, Join("", name) + q), PatchDetach(Children(t)[i], q);
      (d.DetachUndefined? <==> d'.DetachUndefined?) && (d.Detached? ==> d.doc == WithChild(t, i, d'.doc))
  {
    ResolveInChild(t, name, i, q);
    WithChildTwice(t, i, Children(t)[i], Children(t)[i]);
  }

  lemma AddValueInChild(t: Json, name: string, i: nat, q: string, value: Option<Json>)
    requires Names(t, name, i) && q != [] && q[0] == '/'
    ensures AddValue(t, Join("", name) + q, value) == OutcomeInChild(t, i, AddValue(Children(t)[i], q, value))
  {
    hide AddAt;
    WithChildTwice(t, i, Children(t)[i], Children(t)[i]);
    if value.Some? {
      AddAtInChild(t, name, i, q, Duplicate(value.value));
    }
  }

  function Removed(d: Detached): Outcome {
    if d.DetachUndefined? then Undefined else Done(0, d.doc)
  }

  lemma OperationIs(t: Json, path: string, value: Option<Json>)
    ensures ApplyOperation(t, Add, path, None, value) == AddValue(t, path, value)
    ensures ApplyOperation(t, Remove, path, None, value) == Removed(PatchDetach(t, path))
    ensures ApplyOperation(t, Replace, path, None, value)
         == var d := PatchDetach(t, path); if d.DetachUndefined? then Undefined else AddValue(d.doc, path, value)
  {
    hide AddValue, PatchDetach;
  }

  // An edit whose path goes on below a child acts on the child alone.
  lemma EditInChild(t: Json, name: string, i: nat, e: Edit)
    requires Names(t, name, i) && Inner([e])
    ensures ApplyOperation(t, e.op, Join("", name) + e.path, None, e.value)
         == OutcomeInChild(t, i, ApplyOperation(Children(t)[i], e.op, e.path, None, e.value))
  {
    hide ApplyOperation, AddValue, PatchDetach, WithChild;
    assert e in [e];
    var child, path := Children(t)[i], Join("", name) + e.path;
    OperationIs(t, path, e.value);
    OperationIs(child, e.path, e.value);
    if e.op == Add {
      AddValueInChild(t, name, i, e.path, e.value);
    } else {
      DetachInChild(t, name, i, e.path);
      var d := PatchDetach(child, e.path);
      if e.op == Replace && d.Detached? {
        NamesAfter(t, name, i, d.doc);
        AddValueInChild(WithChild(t, i, d.doc), name, i, e.path, e.value);
        if AddValue(d.doc, e.path, e.value).Done? {
          WithChildTwice(t, i, d.doc, AddValue(d.doc, e.path, e.value).doc);
        }
      }
    }
  }

  lemma {:induction false} EditsInChild(t: Json, name: string, i: nat, es: seq<Edit>)
    requires Names(t, name, i) && Inner(es)
    ensures ApplyEdits(t, Rebase(Join("", name), es)) == OutcomeInChild(t, i, ApplyEdits(Children(t)[i], es))
    decreases es
  {
    hide ApplyOperation;
    WithChildTwice(t, i, Children(t)[i], Children(t)[i]);
    if es != [] {
      assert Inner([es[0]]);
      EditInChild(t, name, i, es[0]);
      var r := ApplyOperation(Children(t)[i], es[0].op, es[0].path, None, es[0].value);
      if r.Done? && r.code == 0 {
        NamesAfter(t, name, i, r.doc);
        if ApplyEdits(r.doc, es[1..]).Done? {
          WithChildTwice(t, i, r.doc, ApplyEdits(r.doc, es[1..]).doc);
        }
        EditsInChild(WithChild(t, i, r.doc), name, i, es[1..]);
      }
    }
  }

  // ----- edits of a direct child -----

  lemma ResolveHere(t: Json, name: string)
    ensures Resolve(t, Join("", name)) == Target([], name)
  {
    EncodeHasNoSlash(name);
    DecodeEncode(name);
    ResolveSplit(t, Join("", name), "", Encode(name));
  }

  predicate CanDetachName(t: Json, name: string) { t.Object? ==> CanDetach(t, IndexOf(t.members, Fold(name))) }

  lemma DetachHere(t: Json, name: string)
    ensures Removed(PatchDetach(t, Join("", name)))
         == if CanDetachName(t, name) then Done(0, RemoveChild(t, name)) else Undefined
  {
    hide Encode;
    ResolveHere(t, name);
  }

  lemma RemoveHere(t: Json, name: string)
    ensures ApplyOperation(t, Remove, Join("", name), None, None)
         == if CanDetachName(t, name) then Done(0, RemoveChild(t, name)) else Undefined
  {
    hide ApplyOperation, PatchDetach;
    OperationIs(t, Join("", name), None);
    DetachHere(t, name);
  }

  lemma AddValueHere(t: Json, name: string, v: Json)
    ensures AddValue(t, Join("", name), Some(v))
         == if CanDetachName(t, name) then Done(0, AddChild(t, name, Duplicate(v))) else Undefined
  {
    hide Encode;
    ResolveHere(t, name);
  }

  lemma AddHere(t: Json, name: string, v: Json)
    ensures ApplyOperation(t, Add, Join("", name), None, Some(v))
         == if CanDetachName(t, name) then Done(0, AddChild(t, name, Duplicate(v))) else Undefined
  {
    hide ApplyOperation, AddValue;
    OperationIs(t, Join("", name), Some(v));
    AddValueHere(t, name, v);
  }

  lemma ReplaceHere(t: Json, name: string, v: Json)
    requires OwnKeysDistinct(t)
    ensures ApplyOperation(t, Replace, Join("", name), None, Some(v))
         == if CanDetachName(t, name) then Done(0, AddChild(RemoveChild(t, name), name, Duplicate(v))) else Undefined
  {
    hide ApplyOperation, AddValue, PatchDetach, AddChild;
    OperationIs(t, Join("", name), Some(v));
    DetachHere(t, name);
    AddValueHere(RemoveChild(t, name), name, v);
    if t.Object? {
      GoneAfterDrop(t.members, name);
    }
  }

  lemma GoneAfterDrop(ms: seq<Member>, name: string)
    requires DistinctKeys(ms)
    ensures IndexOf(DropKey(ms, name), Fold(name)) == |DropKey(ms, name)|
  {
    CanonDropKey(ms, name);
    CanonAt(DropKey(ms, name), Fold(name));
  }

  lemma FirstEdit(doc: Json, e: Edit, es: seq<Edit>, d: Json)
    requires ApplyOperation(doc, e.op, e.path, None, e.value) == Done(0, d)
    ensures ApplyEdits(doc, [e] + es) == ApplyEdits(d, es)
  {
    hide ApplyOperation;
    assert ([e] + es)[1..] == es;
  }

  // ----- arrays -----

  lemma AtoiDecimal(n: nat)
    ensures ListIndex(Decimal(n)) == n && Decimal(n) != "-"
  {
    var s := Decimal(n);
    assert IsDigit(s[0]);
    DigitRunOf(s, "");
    assert s + "" == s && s[..|s|] == s;
    DecimalRoundTrip(n);
  }

  lemma RemoveFirst(items: seq<Json>, c: nat, es: seq<Edit>)
    ensures ApplyEdits(Array(items), [Edit(Remove, Join("", Decimal(c)), None)] + es)
         == ApplyEdits(Array(Without(items, c)), es)
  {
    AtoiDecimal(c);
    RemoveHere(Array(items), Decimal(c));
    FirstEdit(Array(items), Edit(Remove, Join("", Decimal(c)), None), es, Array(Without(items, c)));
  }

  lemma AppendFirst(items: seq<Json>, v: Json, es: seq<Edit>)
    ensures ApplyEdits(Array(items), [Edit(Add, Join("", "-"), Some(v))] + es)
         == ApplyEdits(Array(items + [Duplicate(v)]), es)
  {
    AddHere(Array(items), "-", v);
    FirstEdit(Array(items), Edit(Add, Join("", "-"), Some(v)), es, Array(items + [Duplicate(v)]));
  }

  lemma {:induction false} RemovesPastEnd(items: seq<Json>, c: nat, n: nat)
    requires |items| <= c
    ensures ApplyEdits(Array(items), Removes("", c, n)) == Done(0, Array(items))
    decreases n
  {
    hide ApplyOperation;
    if n > 0 {
      RemoveFirst(items, c, Removes("", c + 1, n - 1));
      RemovesPastEnd(items, c + 1, n - 1);
    }
  }

  lemma {:induction false} ApplyRemoves(items: seq<Json>, c: nat, n: nat)
    requires c <= |items| <= c + n
    ensures ApplyEdits(Array(items), Removes("", c, n)) == Done(0, Array(items[..c] + Odds(items[c..])))
    decreases n
  {
    hide ApplyOperation, ApplyEdits, Removes, Odds, Decimal, Without;
    RemovesStep(items, c, n);
    if |items| <= c + 1 {
      OddsShort(items, c);
    }
    if n > 0 {
      if |items| <= c + 1 {
        RemovesPastEnd(Without(items, c), c + 1, n - 1);
      } else {
        ApplyRemoves(Without(items, c), c + 1, n - 1);
        OddsStep(items, c);
      }
    }
  }

  lemma RemovesStep(items: seq<Json>, c: nat, n: nat)
    requires c <= |items|
    ensures |Without(items, c)| == (if c < |items| then |items| - 1 else |items|)
    ensures n == 0 ==> ApplyEdits(Array(items), Removes("", c, n)) == Done(0, Array(items))
    ensures n > 0 ==> ApplyEdits(Array(items), Removes("", c, n))
                      == ApplyEdits(Array(Without(items, c)), Removes("", c + 1, n - 1))
  {
    hide ApplyOperation;
    if n > 0 {
      RemoveFirst(items, c, Removes("", c + 1, n - 1));
    }
  }

  lemma OddsShort(items: seq<Json>, c: nat)
    requires c <= |items| <= c + 1
    ensures Without(items, c) == items[..c] + Odds(items[c..])
    ensures |items| == c ==> items == items[..c] + Odds(items[c..])
  {
  }

  lemma OddsStep(items: seq<Json>, c: nat)
    requires c + 1 < |items|
    ensures var rest := Without(items, c);
      items[..c] + Odds(items[c..]) == rest[..c + 1] + Odds(rest[c + 1..])
  {
    var rest := Without(items, c);
    var x := items[c..];
    assert rest == items[..c] + x[1..];
    assert rest[..c + 1] == items[..c] + [x[1]];
    assert rest[c + 1..] == x[2..];
    OddsPair(items[..c], x);
  }

  lemma OddsPair(a: seq<Json>, x: seq<Json>)
    requires |x| >= 2
    ensures a + Odds(x) == a + [x[1]] + Odds(x[2..])
  {
    assert Odds(x) == [x[1]] + Odds(x[2..]);
  }

  lemma {:induction false} ApplyAppends(items: seq<Json>, to: seq<Json>)
    ensures ApplyEdits(Array(items), Appends("", to)) == Done(0, Array(items + DuplicateItems(to)))
    decreases |to|
  {
    hide ApplyOperation;
    if to == [] {
      assert items + [] == items;
    } else {
      var x := Duplicate(to[0]);
      AppendFirst(items, to[0], Appends("", to[1..]));
      ApplyAppends(items + [x], to[1..]);
      assert items + [x] + DuplicateItems(to[1..]) == items + DuplicateItems(to);
    }
  }

  lemma CanonConcat(a: seq<Json>, b: seq<Json>)
    ensures CanonItems(a + b) == CanonItems(a) + CanonItems(b)
  {
  }

  lemma CanonDuplicates(items: seq<Json>)
    ensures CanonItems(DuplicateItems(items)) == CanonItems(items)
  {
    forall i | 0 <= i < |items| ensures Canon(Duplicate(items[i])) == Canon(items[i]) {
      DuplicateCanon(items[i]);
    }
  }

  lemma {:induction false} CanonOdds(a: seq<Json>)
    ensures CanonItems(Odds(a)) == Odds(CanonItems(a))
  {
    if |a| >= 2 {
      CanonOdds(a[2..]);
      assert CanonItems(a)[2..] == CanonItems(a[2..]);
    }
  }

  // `doc` is what the patch for (from, to) is about to be applied to: equal to `from` up to
  // member order and key case.
  predicate Ready(doc: Json, from: Json, to: Json) {
    Canon(doc) == Canon(from) && CaseDistinct(doc) && CaseDistinct(from) && CaseDistinct(to)
  }

  predicate GivesPatched(r: Outcome, v: Val) {
    r.Done? && r.code == 0 && Canon(r.doc) == v
  }

  // Patching the child named `name` gives it the value Patched(from, to); in an object the
  // child may have moved to the end of the list.
  predicate ChildPatched(t: Json, name: string, i: nat, r: Outcome, v: Val) {
    && r.Done? && r.code == 0 && SameKind(t, r.doc)
    && (t.Array? ==>
          && i < |t.items| == |r.doc.items|
          && r.doc.items == t.items[i := r.doc.items[i]] && Canon(r.doc.items[i]) == v)
    && (t.Object? ==>
          && DistinctKeys(r.doc.members) && SameHead(t, r.doc)
          && CanonMembers(r.doc.members) == CanonMembers(t.members)[Fold(name) := v]
          && forall m <- r.doc.members :: m in t.members || Fold(m.key) == Fold(name))
  }

  predicate OwnKeysDistinct(t: Json) { t.Object? ==> DistinctKeys(t.members) }

  lemma ChildReplacedInPlace(t: Json, name: string, i: nat, x: Json)
    requires Names(t, name, i) && IsContainer(t) && OwnKeysDistinct(t)
    ensures ChildPatched(t, name, i, Done(0, WithChild(t, i, x)), Canon(x))
  {
    if t.Object? {
      CanonUpdate(t.members, i, x);
    }
  }

  lemma DropTwice(ms: seq<Member>, name: string)
    requires DistinctKeys(ms)
    ensures DropKey(DropKey(ms, name), name) == DropKey(ms, name)
  {
    GoneAfterDrop(ms, name);
  }

  lemma InsertBack(items: seq<Json>, i: nat, v: Json)
    requires i < |items|
    ensures InsertAt(Without(items, i), i, v) == items[i := v]
  {
  }

  lemma ChildReplacedByEdit(t: Json, name: string, i: nat, v: Json)
    requires Names(t, name, i) && IsContainer(t) && OwnKeysDistinct(t) && CanDetachName(t, name)
    ensures ChildPatched(t, name, i, Done(0, AddChild(RemoveChild(t, name), name, v)), Canon(v))
  {
    if t.Array? {
      AtoiDecimal(i);
      InsertBack(t.items, i, v);
    } else {
      DropTwice(t.members, name);
      CanonPut(t, name, v);
      HeadAfterPut(t, name, v);
    }
  }

  // The edits of the child can be carried out.
  predicate ChildHolds(t: Json, i: nat, from: Json, to: Json)
    requires i < |Children(t)|
  {
    if Kept(from, to) then HeadsHold(Children(t)[i], from, to) else CanDetach(t, i)
  }

  lemma {:induction false} PatchChild(t: Json, name: string, i: nat, from: Json, to: Json)
    requires Names(t, name, i) && IsContainer(t) && OwnKeysDistinct(t) && Ready(Children(t)[i], from, to)
    ensures var r := ApplyEdits(t, CompareToPatch(Join("", name), from, to));
      if ChildHolds(t, i, from, to) then ChildPatched(t, name, i, r, Patched(from, to)) else r.Undefined?
    decreases from, 2, 0
  {
    hide ApplyOperation, ApplyEdits, ChildPatched, WithChild, Encode, HeadsHold, CanDetach;
    var child, p := Children(t)[i], Join("", name);
    if SameKind(from, to) && IsContainer(from) {
      assert p + "" == p;
      CompareRebased(p, "", from, to);
      PatchContainer(child, from, to);
      var inner := CompareToPatch("", from, to);
      EditsInChild(t, name, i, inner);
      if HeadsHold(child, from, to) {
        ChildReplacedInPlace(t, name, i, ApplyEdits(child, inner).doc);
      }
    } else {
      PatchLeaf(t, name, i, from, to);
    }
  }

  lemma PatchLeaf(t: Json, name: string, i: nat, from: Json, to: Json)
    requires Names(t, name, i) && IsContainer(t) && OwnKeysDistinct(t) && Ready(Children(t)[i], from, to)
    requires !(SameKind(from, to) && IsContainer(from))
    ensures var r := ApplyEdits(t, CompareToPatch(Join("", name), from, to));
      if ChildHolds(t, i, from, to) then ChildPatched(t, name, i, r, Patched(from, to)) else r.Undefined?
  {
    hide ApplyOperation, ChildPatched, WithChild, Encode;
    var child, p := Children(t)[i], Join("", name);
    var es := CompareToPatch(p, from, to);
    assert Patched(from, to) == Canon(to);
    if Kept(from, to) {
      assert es == [];
      WithChildTwice(t, i, child, child);
      ChildReplacedInPlace(t, name, i, child);
    } else {
      assert es == [Edit(Replace, p, Some(to))];
      ReplaceHere(t, name, to);
      assert [es[0]] + [] == es;
      if CanDetach(t, i) {
        FirstEdit(t, es[0], [], AddChild(RemoveChild(t, name), name, Duplicate(to)));
        ChildReplacedByEdit(t, name, i, Duplicate(to));
        DuplicateCanon(to);
      }
    }
  }

  lemma LeftoverItems(items: seq<Json>, c: nat, from: seq<Json>, to: seq<Json>)
    requires c <= |items| && CanonItems(items[c..]) == CanonItems(from)
    requires from == [] || to == []
    ensures ApplyEdits(Array(items), DiffItems("", c, from, to)).Done?
    ensures GivesPatched(ApplyEdits(Array(items), DiffItems("", c, from, to)),
                         VArray(CanonItems(items[..c]) + PatchedItems(from, to)))
  {
    hide ApplyOperation;
    assert |items| == c + |from|;
    if from == [] {
      ApplyAppends(items, to);
      CanonConcat(items, DuplicateItems(to));
      CanonDuplicates(to);
      assert items[..c] == items;
    } else {
      ApplyRemoves(items, c, |from|);
      CanonConcat(items[..c], Odds(items[c..]));
      CanonOdds(items[c..]);
    }
  }

  lemma {:induction false} PatchItem(items: seq<Json>, c: nat, from: Json, to: Json) returns (x: Json)
    requires c < |items| && Ready(items[c], from, to)
    ensures var r := ApplyEdits(Array(items), CompareToPatch("" + "/" + Decimal(c), from, to));
      if HeadsHold(items[c], from, to) then Canon(x) == Patched(from, to) && r == Done(0, Array(items[c := x]))
      else r.Undefined?
    decreases from, 3, 0
  {
    hide ApplyOperation, ApplyEdits, CompareToPatch, Patched;
    EncodeDecimal(c);
    PatchChild(Array(items), Decimal(c), c, from, to);
    x := items[c];
    if HeadsHold(items[c], from, to) {
      x := ApplyEdits(Array(items), CompareToPatch(Join("", Decimal(c)), from, to)).doc.items[c];
    }
  }

  lemma NextItem(items: seq<Json>, c: nat, x: Json)
    requires c < |items|
    ensures items[c := x][c + 1..] == items[c..][1..]
    ensures CanonItems(items[c..][1..]) == CanonItems(items[c..])[1..]
    ensures CanonItems(items[c := x][..c + 1]) == CanonItems(items[..c]) + [Canon(x)]
  {
    assert items[c := x][..c + 1] == items[..c] + [x];
    CanonConcat(items[..c], [x]);
  }

  lemma PatchedItemsStep(from: seq<Json>, to: seq<Json>)
    requires from != [] && to != []
    ensures PatchedItems(from, to) == [Patched(from[0], to[0])] + PatchedItems(from[1..], to[1..])
    ensures CanonItems(from)[1..] == CanonItems(from[1..])
  {
  }

  predicate ItemsHold(items: seq<Json>, from: seq<Json>, to: seq<Json>) {
    forall i :: 0 <= i < |from| && i < |items| && i < |to| ==> HeadsHold(items[i], from[i], to[i])
  }

  lemma NothingHolds(items: seq<Json>, from: seq<Json>, to: seq<Json>)
    requires from == [] || to == []
    ensures ItemsHold(items, from, to)
  {
  }

  lemma ItemsHoldStep(items: seq<Json>, from: seq<Json>, to: seq<Json>)
    requires items != [] && from != [] && to != []
    ensures ItemsHold(items, from, to) <==> HeadsHold(items[0], from[0], to[0]) && ItemsHold(items[1..], from[1..], to[1..])
  {
    if HeadsHold(items[0], from[0], to[0]) && ItemsHold(items[1..], from[1..], to[1..]) {
      forall i | 0 <= i < |from| && i < |items| && i < |to| ensures HeadsHold(items[i], from[i], to[i]) {
        if i > 0 {
          assert items[i] == items[1..][i - 1] && from[i] == from[1..][i - 1] && to[i] == to[1..][i - 1];
        }
      }
    }
  }

  lemma {:induction false} PatchItems(items: seq<Json>, c: nat, from: seq<Json>, to: seq<Json>)
    requires c <= |items| && CanonItems(items[c..]) == CanonItems(from)
    requires forall x <- items[c..] + from + to :: CaseDistinct(x)
    ensures var r := ApplyEdits(Array(items), DiffItems("", c, from, to));
      if ItemsHold(items[c..], from, to)
      then GivesPatched(r, VArray(CanonItems(items[..c]) + PatchedItems(from, to))) else r.Undefined?
    decreases from, 0, 0
  {
    hide ApplyOperation, CompareToPatch, Decimal, Encode, CaseDistinct, PatchedItems, Patched, Canon, CanonItems,
         HeadsHold, ItemsHold;
    if from == [] || to == [] {
      LeftoverItems(items, c, from, to);
      NothingHolds(items[c..], from, to);
    } else {
      assert items[c] == items[c..][0];
      assert Canon(items[c]) == CanonItems(items[c..])[0] == Canon(from[0]);
      var x := PatchItem(items, c, from[0], to[0]);
      ItemsHoldStep(items[c..], from, to);
      ApplyConcat(Array(items), CompareToPatch("" + "/" + Decimal(c), from[0], to[0]),
                  DiffItems("", c + 1, from[1..], to[1..]));
      if HeadsHold(items[c], from[0], to[0]) {
        NextItem(items, c, x);
        ConcatAssoc(CanonItems(items[..c]), [Canon(x)], PatchedItems(from[1..], to[1..]));
        PatchedItemsStep(from, to);
        forall y | y in items[c := x][c + 1..] + from[1..] + to[1..] ensures CaseDistinct(y) {
          assert y in items[c..] || y in from || y in to;
          assert y in items[c..] + from + to;
        }
        PatchItems(items[c := x], c + 1, from[1..], to[1..]);
      }
    }
  }

  // ----- objects -----

  // What a run of DiffMembers over the sorted lists `a` and `b` makes of the members `f`.
  ghost predicate MembersPatched(f: map<string, Val>, a: seq<Member>, b: seq<Member>, g: map<string, Val>) {
    forall k ::
      && (k in g <==> HasKey(b, k) || (k in f && !HasKey(a, k)))
      && (k in g ==> g[k] == if HasKey(b, k) then PatchedMember(a, b[IndexOf(b, k)]) else f[k])
  }

  // The members that the rest of the run starts from are still those of `from`.
  predicate MembersReady(ms: seq<Member>, a: seq<Member>, b: seq<Member>) {
    && DistinctKeys(ms) && StrictlySorted(a) && StrictlySorted(b)
    && (forall m <- a + b :: CaseDistinct(m.value))
    && (forall m <- ms :: HasKey(a, Fold(m.key)) ==> CaseDistinct(m.value))
    && (forall m <- a :: Fold(m.key) in CanonMembers(ms) && CanonMembers(ms)[Fold(m.key)] == Canon(m.value))
    && (forall m <- b :: HasKey(ms, Fold(m.key)) ==> HasKey(a, Fold(m.key)))
  }

  // The edits that the patch has for the member `m` of the source can be carried out.
  predicate EditHolds(t: Json, m: Member, b: seq<Member>)
    requires t.Object?
  {
    var i, j := IndexOf(t.members, Fold(m.key)), IndexOf(b, Fold(m.key));
    if j < |b| && Kept(m.value, b[j].value) then i < |t.members| ==> HeadsHold(t.members[i].value, m.value, b[j].value)
    else CanDetach(t, i)
  }

  predicate EditsHold(t: Json, a: seq<Member>, b: seq<Member>)
    requires t.Object?
  {
    forall m <- a :: EditHolds(t, m, b)
  }

  ghost predicate ObjectPatched(t: Json, a: seq<Member>, b: seq<Member>, r: Outcome)
    requires t.Object?
  {
    if EditsHold(t, a, b) then
      && r.Done? && r.code == 0 && r.doc.Object?
      && MembersPatched(CanonMembers(t.members), a, b, CanonMembers(r.doc.members))
    else r.Undefined?
  }

  lemma HeadKeyOnly(a: seq<Member>, k: string)
    requires StrictlySorted(a) && a != []
    ensures HasKey(a, k) <==> k == Fold(a[0].key) || HasKey(a[1..], k)
    ensures HasKey(a[1..], k) ==> k != Fold(a[0].key) && IndexOf(a, k) == IndexOf(a[1..], k) + 1
  {
    HeadKeyIsAbsentFromTail(a);
    CanonAt(a[1..], k);
  }

  lemma PatchedMemberTail(a: seq<Member>, m: Member)
    requires StrictlySorted(a) && a != [] && Fold(m.key) != Fold(a[0].key)
    ensures PatchedMember(a, m) == PatchedMember(a[1..], m)
  {
    HeadKeyOnly(a, Fold(m.key));
  }

  lemma StepBoth(f: map<string, Val>, a: seq<Member>, b: seq<Member>, g: map<string, Val>)
    requires a != [] && b != [] && StrictlySorted(a) && StrictlySorted(b) && Fold(a[0].key) == Fold(b[0].key)
    requires MembersPatched(f[Fold(a[0].key) := Patched(a[0].value, b[0].value)], a[1..], b[1..], g)
    ensures MembersPatched(f, a, b, g)
  {
    forall k
      ensures k in g <==> HasKey(b, k) || (k in f && !HasKey(a, k))
      ensures k in g ==> g[k] == if HasKey(b, k) then PatchedMember(a, b[IndexOf(b, k)]) else f[k]
    {
      HeadKeyOnly(a, k);
      HeadKeyOnly(b, k);
      if HasKey(b[1..], k) {
        PatchedMemberTail(a, b[IndexOf(b, k)]);
      }
    }
  }

  lemma StepRemove(f: map<string, Val>, a: seq<Member>, b: seq<Member>, g: map<string, Val>)
    requires a != [] && StrictlySorted(a) && StrictlySorted(b) && !HasKey(b, Fold(a[0].key))
    requires MembersPatched(f - {Fold(a[0].key)}, a[1..], b, g)
    ensures MembersPatched(f, a, b, g)
  {
    forall k
      ensures k in g <==> HasKey(b, k) || (k in f && !HasKey(a, k))
      ensures k in g ==> g[k] == if HasKey(b, k) then PatchedMember(a, b[IndexOf(b, k)]) else f[k]
    {
      HeadKeyOnly(a, k);
      if HasKey(b, k) {
        PatchedMemberTail(a, b[IndexOf(b, k)]);
      }
    }
  }

  lemma StepAdd(f: map<string, Val>, a: seq<Member>, b: seq<Member>, g: map<string, Val>)
    requires b != [] && StrictlySorted(a) && StrictlySorted(b) && !HasKey(a, Fold(b[0].key))
    requires MembersPatched(f[Fold(b[0].key) := Canon(b[0].value)], a, b[1..], g)
    ensures MembersPatched(f, a, b, g)
  {
    forall k
      ensures k in g <==> HasKey(b, k) || (k in f && !HasKey(a, k))
      ensures k in g ==> g[k] == if HasKey(b, k) then PatchedMember(a, b[IndexOf(b, k)]) else f[k]
    {
      HeadKeyOnly(b, k);
    }
  }

  lemma {:induction false} PatchMembers(t: Json, from: Json, a: seq<Member>, b: seq<Member>)
    requires t.Object? && from.Object? && (forall m <- a :: m in from.members) && MembersReady(t.members, a, b)
    ensures ObjectPatched(t, a, b, ApplyEdits(t, DiffMembers("", from, a, b)))
    decreases from, 0, |a| + |b|, 1
  {
    hide ApplyOperation, CompareToPatch, Encode;
    if a != [] || b != [] {
      var diff := if a == [] then 1 else if b == [] then -1 else CaseCmp(a[0].key, b[0].key);
      if diff == 0 {
        PatchMemberBoth(t, from, a, b);
      } else if diff < 0 {
        PatchMemberRemoved(t, from, a, b);
      } else {
        PatchMemberAdded(t, from, a, b);
      }
    }
  }

  // After an edit of the member `k`, the edits of the others can be carried out as before.
  lemma EditHoldsLater(t: Json, t': Json, k: string, m: Member, b: seq<Member>, b': seq<Member>)
    requires t.Object? && t'.Object? && DistinctKeys(t.members) && DistinctKeys(t'.members) && SameHead(t, t')
    requires Fold(m.key) != k && HasKey(t.members, Fold(m.key)) && HasKey(t'.members, Fold(m.key))
    requires forall n <- t'.members :: n in t.members || Fold(n.key) == k
    requires StrictlySorted(b) && (b' == b || (b != [] && b' == b[1..] && Fold(m.key) != Fold(b[0].key)))
    ensures EditHolds(t', m, b') <==> EditHolds(t, m, b)
  {
    hide HeadsHold, Kept;
    var fk := Fold(m.key);
    if b' != b {
      HeadKeyOnly(b, fk);
    }
    var n := t'.members[IndexOf(t'.members, fk)];
    assert n in t'.members && n in t.members;
    var i :| 0 <= i < |t.members| && t.members[i] == n;
    IndexOfDistinct(t.members, i);
  }

  lemma EditsHoldLater(t: Json, t': Json, k: string,
                       a: seq<Member>, a': seq<Member>, b: seq<Member>, b': seq<Member>)
    requires t.Object? && t'.Object? && MembersReady(t.members, a, b) && MembersReady(t'.members, a', b')
    requires SameHead(t, t') && forall n <- t'.members :: n in t.members || Fold(n.key) == k
    requires (a' == a && !HasKey(a, k)) || (a != [] && a' == a[1..] && k == Fold(a[0].key) && EditHolds(t, a[0], b))
    requires b' == b || (b != [] && b' == b[1..] && !HasKey(a', Fold(b[0].key)))
    ensures EditsHold(t', a', b') <==> EditsHold(t, a, b)
  {
    hide EditHolds, SameHead, CaseDistinct, CanonMembers, Canon;
    if a' != a {
      HeadKeyIsAbsentFromTail(a);
      CanonAt(a', k);
    }
    forall m | m in a'
      ensures m in a && EditHolds(t', m, b') == EditHolds(t, m, b)
    {
      var i :| 0 <= i < |a'| && a'[i] == m;
      assert a' != a ==> m == a[i + 1];
      CanonAt(t.members, Fold(m.key));
      CanonAt(t'.members, Fold(m.key));
      EditHoldsLater(t, t', k, m, b, b');
    }
    assert forall m <- a :: m in a' || (a' != a && m == a[0]);
  }

  lemma {:induction false} PatchMemberBoth(t: Json, from: Json, a: seq<Member>, b: seq<Member>)
    requires t.Object? && from.Object? && (forall m <- a :: m in from.members) && MembersReady(t.members, a, b)
    requires a != [] && b != [] && Fold(a[0].key) == Fold(b[0].key)
    ensures ObjectPatched(t, a, b, ApplyEdits(t, DiffMembers("", from, a, b)))
    decreases from, 0, |a| + |b|, 0
  {
    hide ApplyOperation, CompareToPatch, Encode, ApplyEdits, Patched, Decimal, Fold, EditHolds, EditsHold, ChildHolds;
    var x, y, k, ms := a[0], b[0], Fold(a[0].key), t.members;
    var i := IndexOf(ms, k);
    CanonAt(ms, k);
    assert x in from.members && x in a + b && y in a + b && ms[i] in ms;
    PatchChild(t, x.key, i, x.value, y.value);
    HeadEdit(t, a, b);
    var es := CompareToPatch(Join("", x.key), x.value, y.value);
    ApplyConcat(t, es, DiffMembers("", from, a[1..], b[1..]));
    if EditHolds(t, x, b) {
      var t' := ApplyEdits(t, es).doc;
      HeadKeyIsAbsentFromTail(a);
      HeadKeyIsAbsentFromTail(b);
      CanonAt(a[1..], k);
      CanonAt(b[1..], k);
      NextReady(ms, t'.members, k, a, b, a[1..], b[1..]);
      EditsHoldLater(t, t', k, a, a[1..], b, b[1..]);
      PatchMembers(t', from, a[1..], b[1..]);
      var r := ApplyEdits(t', DiffMembers("", from, a[1..], b[1..]));
      if EditsHold(t, a, b) {
        StepBoth(CanonMembers(ms), a, b, CanonMembers(r.doc.members));
      }
    }
  }

  // The first member of the rest, as a child.
  lemma HeadEdit(t: Json, a: seq<Member>, b: seq<Member>)
    requires t.Object? && a != [] && HasKey(t.members, Fold(a[0].key))
    ensures EditsHold(t, a, b) ==> EditHolds(t, a[0], b)
    ensures b != [] && Fold(a[0].key) == Fold(b[0].key) ==>
      (EditHolds(t, a[0], b) <==> ChildHolds(t, IndexOf(t.members, Fold(a[0].key)), a[0].value, b[0].value))
    ensures !HasKey(b, Fold(a[0].key)) ==> (EditHolds(t, a[0], b) <==> CanDetachName(t, a[0].key))
  {
    hide HeadsHold, Kept;
  }

  lemma RestOf(a: seq<Member>, a': seq<Member>)
    requires a' == a || (a != [] && a' == a[1..])
    ensures forall m <- a' :: m in a
  {
    forall m | m in a' ensures m in a {
      var i :| 0 <= i < |a'| && a'[i] == m;
      assert a' != a ==> m == a[i + 1];
    }
  }

  lemma NotInRest(a: seq<Member>, k: string)
    requires !HasKey(a, k)
    ensures forall m <- a :: Fold(m.key) != k
  {
    forall m | m in a ensures Fold(m.key) != k {
      var i :| 0 <= i < |a| && a[i] == m;
    }
  }

  lemma RestHasKey(a: seq<Member>, a': seq<Member>, k: string)
    requires StrictlySorted(a) && (a' == a || (a != [] && a' == a[1..]))
    ensures HasKey(a', k) ==> HasKey(a, k)
    ensures HasKey(a, k) && a' != a && k != Fold(a[0].key) ==> HasKey(a', k)
  {
    if a' != a {
      HeadKeyOnly(a, k);
    }
  }

  // Changing the member with key `k` leaves the run ready for the keys that are left.
  lemma NextReady(ms: seq<Member>, ms': seq<Member>, k: string,
                  a: seq<Member>, b: seq<Member>, a': seq<Member>, b': seq<Member>)
    requires MembersReady(ms, a, b)
    requires a' == a || (a != [] && a' == a[1..] && k == Fold(a[0].key))
    requires b' == b || (b != [] && b' == b[1..])
    requires !HasKey(a', k) && !HasKey(b', k)
    requires DistinctKeys(ms') && forall m <- ms' :: m in ms || Fold(m.key) == k
    requires forall j :: j != k ==> (j in CanonMembers(ms') <==> j in CanonMembers(ms))
    requires forall j :: j != k && j in CanonMembers(ms) ==> CanonMembers(ms')[j] == CanonMembers(ms)[j]
    ensures MembersReady(ms', a', b')
  {
    hide CaseDistinct, CanonMembers, Canon, Fold, HasKey, CaseCmp, DistinctKeys;
    RestOf(a, a');
    RestOf(b, b');
    NotInRest(a', k);
    NotInRest(b', k);
    forall m | m in ms' && HasKey(a', Fold(m.key)) ensures CaseDistinct(m.value) {
      RestHasKey(a, a', Fold(m.key));
    }
    assert forall m <- a' + b' :: m in a + b;
    forall m | m in b' && HasKey(ms', Fold(m.key)) ensures HasKey(a', Fold(m.key)) {
      CanonAt(ms, Fold(m.key));
      CanonAt(ms', Fold(m.key));
      RestHasKey(a, a', Fold(m.key));
    }
  }

  // What removing the first member of `a` makes of the object.
  ghost predicate RemovedFrom(t: Json, t': Json, a: seq<Member>, b: seq<Member>)
    requires a != []
  {
    var k := Fold(a[0].key);
    && t.Object? && t'.Object? && SameHead(t, t') && !HasKey(a[1..], k) && !HasKey(b, k)
    && DistinctKeys(t'.members) && (forall n <- t'.members :: n in t.members || Fold(n.key) == k)
    && CanonMembers(t'.members) == CanonMembers(t.members) - {k}
  }

  lemma RemoveMember(t: Json, a: seq<Member>, b: seq<Member>)
    requires t.Object? && MembersReady(t.members, a, b) && a != [] && CanDetachName(t, a[0].key)
    requires a != [] && (b == [] || CaseCmp(a[0].key, b[0].key) < 0)
    ensures RemovedFrom(t, RemoveChild(t, a[0].key), a, b)
  {
    hide Fold, CaseDistinct, CanonMembers, Canon, CaseCmp;
    var name := a[0].key;
    KeyBelowIsAbsent(b, name);
    CanonAt(b, Fold(name));
    HeadKeyOnly(a, Fold(name));
    CanonDropKey(t.members, name);
    HeadAfterDrop(t, name);
  }

  lemma {:induction false} PatchMemberRemoved(t: Json, from: Json, a: seq<Member>, b: seq<Member>)
    requires t.Object? && from.Object? && (forall m <- a :: m in from.members) && MembersReady(t.members, a, b)
    requires a != [] && (b == [] || CaseCmp(a[0].key, b[0].key) < 0)
    ensures ObjectPatched(t, a, b, ApplyEdits(t, DiffMembers("", from, a, b)))
    decreases from, 0, |a| + |b|, 0
  {
    hide ApplyOperation, CompareToPatch, Encode, EditHolds, EditsHold, MembersPatched, RemoveChild, CanDetachName,
         SameHead, CanonMembers, Canon, CaseDistinct;
    var name, ms := a[0].key, t.members;
    CanonAt(ms, Fold(name));
    KeyBelowIsAbsent(b, name);
    CanonAt(b, Fold(name));
    RemoveHere(t, name);
    HeadEdit(t, a, b);
    var e, es := Edit(Remove, Join("", name), None), DiffMembers("", from, a[1..], b);
    if CanDetachName(t, name) {
      var t' := RemoveChild(t, name);
      RemoveMember(t, a, b);
      FirstEdit(t, e, es, t');
      NextReady(ms, t'.members, Fold(name), a, b, a[1..], b);
      EditsHoldLater(t, t', Fold(name), a, a[1..], b, b);
      PatchMembers(t', from, a[1..], b);
      if EditsHold(t, a, b) {
        StepRemove(CanonMembers(ms), a, b, CanonMembers(ApplyEdits(t', es).doc.members));
      }
    }
  }

  lemma HeadAfterDrop(t: Json, name: string)
    requires t.Object? && CanDetachName(t, name)
    ensures SameHead(t, RemoveChild(t, name))
  {
  }

  // What adding the first member of `b` makes of the object.
  ghost predicate AddedTo(t: Json, t': Json, a: seq<Member>, b: seq<Member>)
    requires b != []
  {
    var k := Fold(b[0].key);
    && t.Object? && t'.Object? && SameHead(t, t') && !HasKey(a, k) && !HasKey(b[1..], k)
    && DistinctKeys(t'.members) && (forall n <- t'.members :: n in t.members || Fold(n.key) == k)
    && CanonMembers(t'.members) == CanonMembers(t.members)[k := Canon(b[0].value)]
  }

  lemma AddMember(t: Json, a: seq<Member>, b: seq<Member>)
    requires t.Object? && MembersReady(t.members, a, b)
    requires b != [] && (a == [] || CaseCmp(a[0].key, b[0].key) > 0)
    ensures CanDetachName(t, b[0].key) && AddedTo(t, AddChild(t, b[0].key, Duplicate(b[0].value)), a, b)
  {
    hide Fold, CaseDistinct, CanonMembers, Canon, CaseCmp, StrCmp;
    var name, v := b[0].key, b[0].value;
    if a != [] {
      CaseCmpAntisym(a[0].key, name);
    }
    KeyBelowIsAbsent(a, name);
    CanonAt(a, Fold(name));
    assert b[0] in b;
    HeadKeyIsAbsentFromTail(b);
    CanonAt(b[1..], Fold(name));
    CanonPut(t, name, Duplicate(v));
    DuplicateCanon(v);
    HeadAfterPut(t, name, Duplicate(v));
  }

  lemma {:induction false} PatchMemberAdded(t: Json, from: Json, a: seq<Member>, b: seq<Member>)
    requires t.Object? && from.Object? && (forall m <- a :: m in from.members) && MembersReady(t.members, a, b)
    requires b != [] && (a == [] || CaseCmp(a[0].key, b[0].key) > 0)
    ensures ObjectPatched(t, a, b, ApplyEdits(t, DiffMembers("", from, a, b)))
    decreases from, 0, |a| + |b|, 0
  {
    hide ApplyOperation, CompareToPatch, Encode, EditHolds, EditsHold, MembersPatched, AddChild, Fold, CanDetachName,
         SameHead, CanonMembers, Canon, CaseDistinct, Duplicate;
    var name, v, ms := b[0].key, b[0].value, t.members;
    var t', es := AddChild(t, name, Duplicate(v)), DiffMembers("", from, a, b[1..]);
    AddMember(t, a, b);
    AddHere(t, name, v);
    FirstEdit(t, Edit(Add, Join("", name), Some(v)), es, t');
    NextReady(ms, t'.members, Fold(name), a, b, a, b[1..]);
    EditsHoldLater(t, t', Fold(name), a, a, b, b[1..]);
    PatchMembers(t', from, a, b[1..]);
    if EditsHold(t, a, b) {
      StepAdd(CanonMembers(ms), a, b, CanonMembers(ApplyEdits(t', es).doc.members));
    }
  }

  // Sorting both sides first does not change what the patch gives.
  lemma SortedPatched(from: seq<Member>, to: seq<Member>, g: map<string, Val>)
    requires DistinctKeys(from) && DistinctKeys(to)
    requires MembersPatched(CanonMembers(from), SortList(from), SortList(to), g)
    ensures g == PatchedMembers(from, to)
  {
    var a, b := SortList(from), SortList(to);
    SortKeepsCanon(from);
    SortKeepsCanon(to);
    forall k
      ensures k in g <==> k in PatchedMembers(from, to)
      ensures k in g ==> g[k] == PatchedMembers(from, to)[k]
    {
      CanonAt(from, k);
      CanonAt(a, k);
      CanonAt(to, k);
      CanonAt(b, k);
      PatchedAt(from, to, k);
      if HasKey(to, k) {
        SortedLookup(to, k);
        if HasKey(from, k) {
          SortedLookup(from, k);
        }
      }
    }
  }

  lemma SourceMember(t: Json, from: Json, m: Member)
    requires Canon(t) == Canon(from) && t.Object? && from.Object? && DistinctKeys(from.members) && m in from.members
    ensures HasKey(t.members, Fold(m.key))
    ensures HasKey(from.members, Fold(m.key)) && from.members[IndexOf(from.members, Fold(m.key))] == m
  {
    var i :| 0 <= i < |from.members| && from.members[i] == m;
    IndexOfDistinct(from.members, i);
    CanonMember(from.members, i);
    CanonAt(t.members, Fold(m.key));
  }

  lemma SortedHolds(t: Json, from: Json, to: Json, m: Member)
    requires Ready(t, from, to) && t.Object? && from.Object? && to.Object? && m in from.members
    ensures EditHolds(t, m, SortList(to.members)) <==>
      && MemberHolds(t.members, m, to.members)
      && (KeyKept(Fold(m.key), from.members, to.members) || CanDetachName(t, m.key))
  {
    hide HeadsHold, CanDetach, Kept, SortList, Fold, IndexOf, Canon;
    var k := Fold(m.key);
    SourceMember(t, from, m);
    SortedTarget(to.members, k);
    if HasKey(to.members, k) && !Kept(m.value, to.members[IndexOf(to.members, k)].value) {
      NotKeptHolds(t.members[IndexOf(t.members, k)].value, m.value, to.members[IndexOf(to.members, k)].value);
    }
  }

  lemma NotKeptHolds(doc: Json, from: Json, to: Json)
    requires !Kept(from, to)
    ensures HeadsHold(doc, from, to)
  {
  }

  // The condition on the sorted lists, and the one on the trees.
  lemma EditsHoldSorted(t: Json, from: Json, to: Json)
    requires Ready(t, from, to) && t.Object? && from.Object? && to.Object?
    ensures EditsHold(t, SortList(from.members), SortList(to.members)) <==> HeadsHold(t, from, to)
  {
    hide EditHolds, MemberHolds, KeyKept;
    var a, b := SortList(from.members), SortList(to.members);
    SortListSorts(from.members);
    forall m | m in from.members
      ensures EditHolds(t, m, b) <==>
        MemberHolds(t.members, m, to.members)
        && (KeyKept(Fold(m.key), from.members, to.members) || CanDetachName(t, m.key))
    {
      SortedHolds(t, from, to, m);
    }
    if t.members != [] {
      var k := Fold(t.members[0].key);
      CanonMember(t.members, 0);
      CanonAt(from.members, k);
      var m := from.members[IndexOf(from.members, k)];
      assert m in from.members && Fold(m.key) == k;
      assert CanDetachName(t, m.key) <==> !t.stale;
    }
  }

  lemma {:induction false} PatchObject(t: Json, from: Json, to: Json)
    requires Ready(t, from, to) && t.Object? && from.Object? && to.Object?
    ensures var r := ApplyEdits(t, CompareToPatch("", from, to));
      if HeadsHold(t, from, to) then GivesPatched(r, Patched(from, to)) else r.Undefined?
    decreases from, 0, |from.members| + |to.members| + 1
  {
    hide ApplyOperation, HeadsHold, EditsHold;
    var a, b, ms := SortList(from.members), SortList(to.members), t.members;
    SortListSorts(from.members);
    SortListSorts(to.members);
    SortKeepsCanon(from.members);
    SortKeepsCanon(to.members);
    forall i | 0 <= i < |a|
      ensures Fold(a[i].key) in CanonMembers(ms) && CanonMembers(ms)[Fold(a[i].key)] == Canon(a[i].value)
    {
      CanonMember(a, i);
    }
    forall k ensures HasKey(ms, k) <==> HasKey(a, k) {
      CanonAt(ms, k);
      CanonAt(a, k);
    }
    assert |a| == |multiset(a)| == |from.members| && |b| == |multiset(b)| == |to.members|;
    EditsHoldSorted(t, from, to);
    PatchMembers(t, from, a, b);
    var r := ApplyEdits(t, DiffMembers("", from, a, b));
    if HeadsHold(t, from, to) {
      SortedPatched(from.members, to.members, CanonMembers(r.doc.members));
    }
  }

  lemma {:induction false} PatchArray(items: seq<Json>, from: Json, to: Json)
    requires Ready(Array(items), from, to) && from.Array? && to.Array?
    ensures var r := ApplyEdits(Array(items), CompareToPatch("", from, to));
      if HeadsHold(Array(items), from, to) then GivesPatched(r, Patched(from, to)) else r.Undefined?
    decreases from, 0, 0
  {
    hide ApplyOperation;
    PatchItems(items, 0, from.items, to.items);
    assert items[0..] == items && CanonItems(items[..0]) == [];
  }

  lemma {:induction false} PatchContainer(doc: Json, from: Json, to: Json)
    requires Ready(doc, from, to) && SameKind(from, to) && IsContainer(from)
    ensures var r := ApplyEdits(doc, CompareToPatch("", from, to));
      if HeadsHold(doc, from, to) then GivesPatched(r, Patched(from, to)) else r.Undefined?
    decreases from, 1, 0
  {
    hide ApplyOperation, CompareToPatch, Patched, HeadsHold;
    SameCanonSameKind(doc, from);
    if from.Array? {
      PatchArray(doc.items, from, to);
    } else {
      PatchObject(doc, from, to);
    }
  }

  // Diff then apply, to any document that is equal to the source. The patch can be carried out
  // exactly if it leaves the first member of every list with a stale link in its place. Then it
  // does not fail, and its result is `to`, up to member order and key case, if and only if no
  // aligned pair of arrays loses more than one element.
  lemma GenerateThenApply(doc: Json, from: Json, to: Json)
    requires Ready(doc, from, to) && SameKind(from, to) && IsContainer(from)
    ensures var r := ApplyPatches(doc, GeneratePatches(from, to));
      if HeadsHold(doc, from, to)
      then r.Done? && r.code == 0 && (Canon(r.doc) == Canon(to) <==> LosesAtMostOne(from, to))
      else r.Undefined?
  {
    hide ApplyOperation, HeadsHold;
    PatchContainer(doc, from, to);
    CompareRebased("", "", from, to);
    ApplyMadePatches(doc, CompareToPatch("", from, to));
    PatchedIsTarget(from, to);
  }

  // ----- applied to the source itself -----

  lemma {:induction false} DiffedKeepsItems(from: seq<Json>, to: seq<Json>)
    requires forall x <- from :: CaseDistinct(x)
    ensures CanonItems(DiffedItems(from, to)) == CanonItems(from)
    ensures forall x <- DiffedItems(from, to) :: CaseDistinct(x)
    decreases from, 0, 0
  {
    if from != [] && to != [] {
      DiffedKeeps(from[0], to[0]);
      DiffedKeepsItems(from[1..], to[1..]);
    }
  }

  lemma {:induction false} DiffedKeepsMembers(from: Json, a: seq<Member>, b: seq<Member>)
    requires from.Object? && forall m <- a :: m in from.members && CaseDistinct(m.value)
    ensures CanonMembers(DiffedMembers(from, a, b)) == CanonMembers(a)
    ensures forall m <- DiffedMembers(from, a, b) :: CaseDistinct(m.value)
    decreases from, 0, |a| + |b|
  {
    if a != [] && b != [] {
      var diff := CaseCmp(a[0].key, b[0].key);
      if diff == 0 {
        assert a[0] in from.members;
        DiffedKeeps(a[0].value, b[0].value);
        DiffedKeepsMembers(from, a[1..], b[1..]);
      } else if diff < 0 {
        DiffedKeepsMembers(from, a[1..], b);
      } else {
        DiffedKeepsMembers(from, a, b[1..]);
      }
    }
  }

  // The generator does not change the value of its source.
  lemma {:induction false} DiffedKeeps(from: Json, to: Json)
    requires CaseDistinct(from)
    ensures Canon(Diffed(from, to)) == Canon(from) && CaseDistinct(Diffed(from, to))
    decreases from, 1, 0
  {
    if from.Array? && to.Array? {
      DiffedKeepsItems(from.items, to.items);
    } else if from.Object? && to.Object? {
      var a, b := SortList(from.members), SortList(to.members);
      SortListSorts(from.members);
      SortKeepsCanon(from.members);
      DiffedKeepsMembers(from, a, b);
      SameKeysDistinct(a, DiffedMembers(from, a, b));
    }
  }

  lemma {:induction false} DiffedAt(from: Json, a: seq<Member>, b: seq<Member>, k: string)
    requires from.Object? && (forall m <- a :: m in from.members) && StrictlySorted(a) && StrictlySorted(b)
    requires HasKey(a, k) && HasKey(b, k)
    ensures var r := DiffedMembers(from, a, b);
      IndexOf(r, k) == IndexOf(a, k) && r[IndexOf(a, k)].value == Diffed(a[IndexOf(a, k)].value, b[IndexOf(b, k)].value)
    decreases from, 0, |a| + |b|
  {
    hide Diffed, Fold;
    var diff := CaseCmp(a[0].key, b[0].key);
    IndexOfSameKeys(a, DiffedMembers(from, a, b), k);
    HeadKeyOnly(a, k);
    HeadKeyOnly(b, k);
    if diff == 0 {
      if k != Fold(a[0].key) {
        DiffedAt(from, a[1..], b[1..], k);
      }
    } else if diff < 0 {
      KeyBelowIsAbsent(b, a[0].key);
      CanonAt(b, Fold(a[0].key));
      DiffedAt(from, a[1..], b, k);
    } else {
      CaseCmpAntisym(a[0].key, b[0].key);
      KeyBelowIsAbsent(a, b[0].key);
      CanonAt(a, Fold(b[0].key));
      DiffedAt(from, a, b[1..], k);
    }
  }

  // At every aligned pair of objects the member with the smallest key is the first one of the
  // source, or it is in the target too, with the same value or as a container of the same kind.
  predicate FirstStays(from: Json, to: Json)
    decreases from
  {
    if from.Array? && to.Array? then
      forall i :: 0 <= i < |from.items| && i < |to.items| ==> FirstStays(from.items[i], to.items[i])
    else if from.Object? && to.Object? then
      && SmallestStays(from, to.members)
      && forall m <- from.members :: MemberFirstStays(m, to.members)
    else true
  }

  predicate SmallestStays(from: Json, to: seq<Member>)
    requires from.Object?
  {
    var ms := from.members;
    forall m <- ms :: (forall n <- ms :: CaseCmp(m.key, n.key) <= 0) ==>
      (m == ms[0] && !from.stale) || KeyKept(Fold(m.key), ms, to)
  }

  predicate MemberFirstStays(m: Member, to: seq<Member>)
    decreases m
  {
    var j := IndexOf(to, Fold(m.key));
    j < |to| ==> FirstStays(m.value, to[j].value)
  }

  lemma SmallestIsHead(from: Json, to: seq<Member>)
    requires from.Object? && DistinctKeys(from.members) && from.members != []
    ensures var s := SortObject(from);
      s.members != []
      && (SmallestStays(from, to) <==> (s.stale ==> KeyKept(Fold(s.members[0].key), from.members, to)))
  {
    hide KeyKept, SortList, HeadIndex, CaseCmp, Fold;
    var ms := from.members;
    HeadIsAt(ms);
    HeadIsSmallest(ms);
    forall m | m in ms && (forall n <- ms :: CaseCmp(m.key, n.key) <= 0) ensures m == ms[HeadIndex(ms)] {
      SmallestIs(ms, m);
    }
    assert ms[HeadIndex(ms)] == ms[0] ==> HeadIndex(ms) == 0;
  }

  lemma {:induction false} SourceMemberHolds(from: Json, to: Json, m: Member)
    requires CaseDistinct(from) && CaseDistinct(to) && from.Object? && to.Object? && m in from.members
    ensures MemberHolds(Diffed(from, to).members, m, to.members) <==> MemberFirstStays(m, to.members)
    decreases from, 0
  {
    hide HeadsHold, FirstStays;
    var a, b, k := SortList(from.members), SortList(to.members), Fold(m.key);
    SortListSorts(from.members);
    SortKeepsCanon(from.members);
    SortKeepsCanon(to.members);
    SourceMember(from, from, m);
    SortedTarget(from.members, k);
    SortedTarget(to.members, k);
    if HasKey(to.members, k) {
      DiffedAt(from, a, b, k);
      var y := to.members[IndexOf(to.members, k)];
      assert y in to.members;
      SourceHolds(m.value, y.value);
    }
  }

  lemma DiffedHead(from: Json, to: Json)
    requires from.Object? && to.Object?
    ensures var r, s := Diffed(from, to), SortObject(from);
      r.Object? && |r.members| == |s.members| == |from.members| && r.stale == s.stale
      && (s.members != [] ==> r.members[0].key == s.members[0].key)
  {
    SortListSorts(from.members);
    assert |SortList(from.members)| == |multiset(SortList(from.members))| == |from.members|;
  }

  lemma {:induction false} SourceObjectHolds(from: Json, to: Json)
    requires CaseDistinct(from) && CaseDistinct(to) && from.Object? && to.Object?
    ensures HeadsHold(Diffed(from, to), from, to) <==> FirstStays(from, to)
    decreases from, 1, 0
  {
    hide Diffed, KeyKept, MemberHolds, MemberFirstStays, SmallestStays, SortObject;
    var doc := Diffed(from, to);
    DiffedHead(from, to);
    forall m | m in from.members
      ensures MemberHolds(doc.members, m, to.members) <==> MemberFirstStays(m, to.members)
    {
      SourceMemberHolds(from, to, m);
    }
    if from.members != [] {
      SmallestIsHead(from, to.members);
    } else {
      NoneSmallest(from, to.members);
    }
  }

  lemma NoneSmallest(from: Json, to: seq<Member>)
    requires from.Object? && from.members == []
    ensures SmallestStays(from, to)
  {
  }

  lemma {:induction false} SourceHolds(from: Json, to: Json)
    requires CaseDistinct(from) && CaseDistinct(to)
    ensures HeadsHold(Diffed(from, to), from, to) <==> FirstStays(from, to)
    decreases from, 1, 1
  {
    if from.Array? && to.Array? {
      var doc := Diffed(from, to);
      forall i | 0 <= i < |from.items| && i < |to.items|
        ensures HeadsHold(doc.items[i], from.items[i], to.items[i]) <==> FirstStays(from.items[i], to.items[i])
      {
        DiffedItemAt(from.items, to.items, i);
        SourceHolds(from.items[i], to.items[i]);
      }
    } else if from.Object? && to.Object? {
      SourceObjectHolds(from, to);
    }
  }

  lemma {:induction false} DiffedItemAt(from: seq<Json>, to: seq<Json>, i: nat)
    requires i < |from| && i < |to|
    ensures DiffedItems(from, to)[i] == Diffed(from[i], to[i])
  {
    if i > 0 {
      DiffedItemAt(from[1..], to[1..], i - 1);
    }
  }

  // Diff then apply, to the source that the generator has just sorted in place: the exact
  // condition on the trees that the caller starts from.
  lemma GenerateThenApplyToSource(from: Json, to: Json)
    requires CaseDistinct(from) && CaseDistinct(to) && SameKind(from, to) && IsContainer(from)
    ensures var r := ApplyPatches(Diffed(from, to), GeneratePatches(from, to));
      if FirstStays(from, to)
      then r.Done? && r.code == 0 && (Canon(r.doc) == Canon(to) <==> LosesAtMostOne(from, to))
      else r.Undefined?
  {
    hide ApplyPatches, GeneratePatches, HeadsHold, FirstStays, LosesAtMostOne;
    DiffedKeeps(from, to);
    SourceHolds(from, to);
    GenerateThenApply(Diffed(from, to), from, to);
  }

  // A document without stale links, like a copy of the source, can always be patched.
  lemma {:induction false} CleanHolds(doc: Json, from: Json, to: Json)
    requires Clean(doc)
    ensures HeadsHold(doc, from, to)
    decreases from
  {
    if doc.Array? && from.Array? && to.Array? {
      forall i | 0 <= i < |from.items| && i < |doc.items| && i < |to.items|
        ensures HeadsHold(doc.items[i], from.items[i], to.items[i])
      {
        CleanHolds(doc.items[i], from.items[i], to.items[i]);
      }
    } else if doc.Object? && from.Object? && to.Object? {
      forall m | m in from.members ensures MemberHolds(doc.members, m, to.members) {
        var k := Fold(m.key);
        if HasKey(doc.members, k) && HasKey(to.members, k) {
          var n := doc.members[IndexOf(doc.members, k)];
          assert n in doc.members;
          CleanHolds(n.value, m.value, to.members[IndexOf(to.members, k)].value);
        }
      }
    }
  }

  // An input on which the sorted source cannot be patched: {"b": 1, "a": v} to {"b": 1, "a": w}.
  lemma SortedSourceBreaks(v: Json, w: Json)
    requires v == Number(2, 2.0) && w == Number(3, 3.0)
    ensures var one := Number(1, 1.0);
      var from, to := Object([Member("b", one), Member("a", v)]), Object([Member("b", one), Member("a", w)]);
      Clean(from) && ApplyPatches(Diffed(from, to), GeneratePatches(from, to)).Undefined?
  {
    var one := Number(1, 1.0);
    var from, to := Object([Member("b", one), Member("a", v)]), Object([Member("b", one), Member("a", w)]);
    assert Fold("b") == "b" && Fold("a") == "a";
    var m := from.members[1];
    assert m in from.members && m != from.members[0];
    assert CaseCmp("a", "b") == -1 && CaseCmp("a", "a") == 0;
    IndexOfDistinct(from.members, 1);
    IndexOfDistinct(to.members, 1);
    assert !KeyKept("a", from.members, to.members);
    GenerateThenApplyToSource(from, to);
  }

  // ----- the sort that a `test` does -----

  // A `test` sorts what it compares. After an object without a stale link was tested, a member can
  // be removed from it unless it has the smallest key and was not the first one.
  lemma TestThenRemove(doc: Json, value: Json, name: string)
    requires doc.Object? && !doc.stale && DistinctKeys(doc.members) && value.Object?
    requires HasKey(doc.members, Fold(name))
    ensures var t := ApplyOperation(doc, Test, "", None, Some(value));
      t == Done(Compare.Compare(doc, value), Compared(doc, value))
      && (ApplyOperation(t.doc, Remove, Join("", name), None, None).Undefined? <==>
            !SmallestFirst(doc.members) && forall m <- doc.members :: CaseCmp(name, m.key) <= 0)
  {
    TestOf(doc, value);
    hide ApplyOperation, Compared, Compare.Compare, SortList, HeadIndex, SmallestFirst;
    var ms, r := doc.members, Compared(doc, value);
    HeadIsAt(ms);
    HeadStays(ms);
    HeadIsSmallest(ms);
    ComparedHead(doc, value);
    RemoveHere(r, name);
    CaseCmpAntisym(name, ms[HeadIndex(ms)].key);
    var i := IndexOf(ms, Fold(name));
    assert ms[i] in ms && CaseCmp(name, ms[i].key) == 0;
    CaseCmpAntisym(ms[i].key, ms[HeadIndex(ms)].key);
    assert CanDetachName(r, name) <==> !(r.stale && Fold(r.members[0].key) == Fold(name));
  }

  lemma TestOf(doc: Json, value: Json)
    ensures ApplyOperation(doc, Test, "", None, Some(value))
         == Done(Compare.Compare(doc, value), Compared(doc, value))
  {
  }

  lemma ComparedHead(a: Json, b: Json)
    requires a.Object? && b.Object? && SortList(a.members) != []
    ensures var r := Compared(a, b);
      r.Object? && r.members != [] && r.members[0].key == SortList(a.members)[0].key
      && r.stale == (a.stale || HeadIndex(a.members) != 0)
  {
    SortListSorts(a.members);
  }
}
