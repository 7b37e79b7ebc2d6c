/**
  When applying a generated merge patch gives the tree it was generated for.
 */
module MergeInverse {
  import opened Text
  import opened Json
  import opened Sort
  import opened Compare
  import opened MergePatch

  // A null member of the target survives only where the source already has it.
  predicate Restorable(f: map<string, Val>, to: Val)
    decreases to, 0
  {
    to.VObject? ==>
      forall k <- to.fields.Keys ::
        (k in f && f[k] == to.fields[k]) || (to.fields[k] != VNull && Restorable(Fields(At(f, k)), to.fields[k]))
  }

  lemma {:induction false} MergeIntoNothing(target: Option<Val>, v: Val)
    requires Fields(target) == map[]
    ensures RfcMerge(target, v) == v <==> Restorable(map[], v)
    decreases v
  {
    if v.VObject? {
      var r, p := RfcMerge(target, v).fields, v.fields;
      forall k | k in p
        ensures k in r <==> p[k] != VNull
        ensures k in r ==> (r[k] == p[k] <==> Restorable(map[], p[k]))
      {
        MergeIntoNothing(None, p[k]);
      }
      if Restorable(map[], v) {
        assert r == p;
      }
    }
  }

  // ----- what the walk of the generator can restore -----

  // The walk over both sorted lists compares keys byte by byte. A member of the target is restored
  // if it is met together with the one of the source, or is new, or comes after the null for the
  // member of the source with the same folded key.
  predicate Recovers(from: Json, to: Json)
    decreases from, 1, 0
  {
    if from.Object? && to.Object? then
      SortListSorts(from.members);
      WalkRecovers(from, SortList(from.members), SortList(to.members))
    else Restorable(map[], Canon(to))
  }

  predicate WalkRecovers(ghost from: Json, a: seq<Member>, b: seq<Member>)
    requires from.Object? && forall m <- a :: m in from.members
    decreases from, 0, |a| + |b|
  {
    if a == [] && b == [] then true
    else
      var compare := Ahead(a, b);
      if compare < 0 then WalkRecovers(from, a[1..], b)
      else if compare > 0 then !HasKey(a, Fold(b[0].key)) && NewRecovers(b[0].value) && WalkRecovers(from, a, b[1..])
      else
        assert a[0] in from.members;
        PairRecovers(from, a[0], b[0]) && WalkRecovers(from, a[1..], b[1..])
  }

  predicate NewRecovers(v: Json) { !v.Null? && Restorable(map[], Canon(v)) }

  predicate PairRecovers(ghost from: Json, x: Member, y: Member)
    requires from.Object? && x in from.members
    decreases from, 0, 0
  {
    Canon(x.value) == Canon(y.value) || (!y.value.Null? && Recovers(x.value, y.value))
  }

  // The lists of a step of the walk.
  predicate Inputs(a: seq<Member>, b: seq<Member>) {
    && StrictlySorted(a) && StrictlySorted(b)
    && (forall m <- a :: CaseDistinct(m.value)) && (forall m <- b :: CaseDistinct(m.value))
  }

  lemma InputsTail(a: seq<Member>, b: seq<Member>)
    requires Inputs(a, b)
    ensures a != [] ==> Inputs(a[1..], b) && CaseDistinct(a[0].value) && !HasKey(a[1..], Fold(a[0].key))
    ensures b != [] ==> Inputs(a, b[1..]) && CaseDistinct(b[0].value) && !HasKey(b[1..], Fold(b[0].key))
    ensures a != [] && b != [] ==> Inputs(a[1..], b[1..])
  {
    if a != [] {
      assert a[0] in a && forall m <- a[1..] :: m in a;
      HeadKeyIsAbsentFromTail(a);
      CanonAt(a[1..], Fold(a[0].key));
    }
    if b != [] {
      assert b[0] in b && forall m <- b[1..] :: m in b;
      HeadKeyIsAbsentFromTail(b);
      CanonAt(b[1..], Fold(b[0].key));
    }
  }

  lemma HeadOnly(a: seq<Member>, k: string)
    requires StrictlySorted(a) && a != []
    ensures HasKey(a, k) <==> k == Fold(a[0].key) || HasKey(a[1..], k)
    ensures k == Fold(a[0].key) ==> IndexOf(a, k) == 0 && !HasKey(a[1..], k)
    ensures HasKey(a[1..], k) ==> a[IndexOf(a, k)] == a[1..][IndexOf(a[1..], k)]
  {
    HeadKeyIsAbsentFromTail(a);
    CanonAt(a[1..], k);
  }

  // The same for one folded key.
  predicate KeyRecovers(ghost from: Json, a: seq<Member>, b: seq<Member>, k: string)
    requires from.Object? && forall m <- a :: m in from.members
    decreases from, 0, |a| + |b|
  {
    if a == [] && b == [] then true
    else
      var compare := Ahead(a, b);
      if compare < 0 then KeyRecovers(from, a[1..], b, k)
      else if compare > 0 then
        if Fold(b[0].key) == k then !HasKey(a, k) && NewRecovers(b[0].value) else KeyRecovers(from, a, b[1..], k)
      else if Fold(b[0].key) == k then
        assert a[0] in from.members;
        PairRecovers(from, a[0], b[0])
      else KeyRecovers(from, a[1..], b[1..], k)
  }

  lemma {:induction false} WalkRecoversKeys(from: Json, a: seq<Member>, b: seq<Member>)
    requires from.Object? && (forall m <- a :: m in from.members) && StrictlySorted(b)
    ensures WalkRecovers(from, a, b) <==> forall m <- b :: KeyRecovers(from, a, b, Fold(m.key))
    decreases from, 0, |a| + |b|
  {
    hide Fold, PairRecovers, NewRecovers;
    if a != [] || b != [] {
      var compare := Ahead(a, b);
      if compare < 0 {
        WalkRecoversKeys(from, a[1..], b);
      } else {
        assert b[0] in b && forall m <- b :: m == b[0] || m in b[1..];
        forall m | m in b[1..] ensures m in b && Fold(m.key) != Fold(b[0].key) {
          assert CaseCmp(b[0].key, m.key) < 0;
        }
        WalkRecoversKeys(from, if compare == 0 then a[1..] else a, b[1..]);
      }
    }
  }

  // What a value `v` at the key `k` is when the rest of the walk starts.
  ghost predicate Starts(v: Option<Val>, a: seq<Member>, b: seq<Member>, k: string) {
    HasKey(b, k) ==> v == if HasKey(a, k) then Some(Canon(a[IndexOf(a, k)].value)) else None
  }

  // The patch member for a pair that is met together.
  lemma {:induction false} PairGives(from: Json, x: Member, y: Member, f: map<string, Val>)
    requires from.Object? && x in from.members && CaseDistinct(x.value) && CaseDistinct(y.value)
    requires Fold(x.key) == Fold(y.key)
    ensures var g := MergedFields(f, GenerateMember(from, x, y));
      && (At(f, Fold(x.key)) == Some(Canon(x.value)) ==>
            (At(g, Fold(y.key)) == Some(Canon(y.value)) <==> PairRecovers(from, x, y)))
      && forall k :: k != Fold(y.key) ==> At(g, k) == At(f, k)
    decreases from, 0, 0
  {
    hide GenerateFor, Recovers, Merged, Fold, CaseDistinct, Compare.Compare;
    CompareDecides(x.value, y.value);
    GenerateRecovers(x.value, y.value);
    if Canon(x.value) != Canon(y.value) {
      var p := Member(y.key, GenerateFor(x.value, y.value).value);
      assert GenerateMember(from, x, y) == [p];
      assert MergedFields(f, [p]) == MergedField(f, p) by { assert [p][1..] == []; }
      GeneratedNull(x.value, y.value);
    } else {
      assert MergedFields(f, []) == f;
    }
  }

  lemma GeneratedNull(from: Json, to: Json)
    requires GenerateFor(from, to).Some?
    ensures GenerateFor(from, to).value.Null? <==> to.Null?
  {
  }

  lemma {:induction false} MergedConcat(f: map<string, Val>, ps: seq<Member>, qs: seq<Member>)
    ensures MergedFields(f, ps + qs) == MergedFields(MergedFields(f, ps), qs)
    decreases ps
  {
    hide MergedField;
    if ps == [] {
      assert ps + qs == qs;
    } else {
      assert (ps + qs)[0] == ps[0] && (ps + qs)[1..] == ps[1..] + qs;
      MergedConcat(MergedField(f, ps[0]), ps[1..], qs);
    }
  }

  lemma NewGives(t: Option<Val>, v: Json)
    requires CaseDistinct(v) && Fields(t) == map[]
    ensures Merged(t, Duplicate(v)) == Canon(v) <==> Restorable(map[], Canon(v))
  {
    DuplicateCanon(v);
    MergedIsRfc(t, Duplicate(v));
    MergeIntoNothing(t, Canon(v));
  }

  // What the patch makes of one key.
  lemma {:induction false} WalkGives(from: Json, a: seq<Member>, b: seq<Member>, f: map<string, Val>, k: string)
    requires from.Object? && (forall m <- a :: m in from.members) && Inputs(a, b) && Starts(At(f, k), a, b, k)
    ensures var g := MergedFields(f, GenerateMembers(from, a, b));
      && (HasKey(b, k) ==> (At(g, k) == Some(Canon(b[IndexOf(b, k)].value)) <==> KeyRecovers(from, a, b, k)))
      && (!HasKey(b, k) && HasKey(a, k) ==> k !in g)
      && (!HasKey(b, k) && !HasKey(a, k) ==> At(g, k) == At(f, k))
    decreases from, 0, |a| + |b|, 1
  {
    if a != [] || b != [] {
      var compare := Ahead(a, b);
      if compare < 0 {
        DropGives(from, a, b, f, k);
      } else if compare > 0 {
        AddGives(from, a, b, f, k);
      } else {
        BothGives(from, a, b, f, k);
      }
    }
  }

  lemma {:induction false} DropGives(from: Json, a: seq<Member>, b: seq<Member>, f: map<string, Val>, k: string)
    requires from.Object? && (forall m <- a :: m in from.members) && Inputs(a, b) && Starts(At(f, k), a, b, k)
    requires a != [] && Ahead(a, b) < 0
    ensures var g := MergedFields(f, GenerateMembers(from, a, b));
      && (HasKey(b, k) ==> (At(g, k) == Some(Canon(b[IndexOf(b, k)].value)) <==> KeyRecovers(from, a, b, k)))
      && (!HasKey(b, k) && HasKey(a, k) ==> k !in g)
      && (!HasKey(b, k) && !HasKey(a, k) ==> At(g, k) == At(f, k))
    decreases from, 0, |a| + |b|, 0
  {
    hide Fold, Canon, CaseDistinct, Restorable, Recovers, HasKey, StrCmp;
    InputsTail(a, b);
    HeadOnly(a, k);
    var p, rest := Member(a[0].key, Null), GenerateMembers(from, a[1..], b);
    MergedHead(f, p, rest);
    WalkGives(from, a[1..], b, f - {Fold(p.key)}, k);
  }

  lemma MergedHead(f: map<string, Val>, p: Member, ps: seq<Member>)
    ensures MergedFields(f, [p] + ps) == MergedFields(MergedField(f, p), ps)
    ensures p.value.Null? ==> MergedField(f, p) == f - {Fold(p.key)}
    ensures !p.value.Null? ==> MergedField(f, p) == f[Fold(p.key) := Merged(At(f, Fold(p.key)), p.value)]
  {
    assert ([p] + ps)[1..] == ps;
  }

  lemma {:induction false} AddGives(from: Json, a: seq<Member>, b: seq<Member>, f: map<string, Val>, k: string)
    requires from.Object? && (forall m <- a :: m in from.members) && Inputs(a, b) && Starts(At(f, k), a, b, k)
    requires b != [] && Ahead(a, b) > 0
    ensures var g := MergedFields(f, GenerateMembers(from, a, b));
      && (HasKey(b, k) ==> (At(g, k) == Some(Canon(b[IndexOf(b, k)].value)) <==> KeyRecovers(from, a, b, k)))
      && (!HasKey(b, k) && HasKey(a, k) ==> k !in g)
      && (!HasKey(b, k) && !HasKey(a, k) ==> At(g, k) == At(f, k))
    decreases from, 0, |a| + |b|, 0
  {
    hide Fold, Canon, CaseDistinct, Restorable, Recovers, HasKey, StrCmp, Duplicate;
    InputsTail(a, b);
    HeadOnly(b, k);
    var v := b[0].value;
    var p, rest := Member(b[0].key, Duplicate(v)), GenerateMembers(from, a, b[1..]);
    MergedHead(f, p, rest);
    DuplicateNull(v);
    NewGives(None, v);
    WalkGives(from, a, b[1..], MergedField(f, p), k);
  }

  lemma DuplicateNull(v: Json)
    ensures Duplicate(v).Null? <==> v.Null?
  {
  }

  lemma {:induction false} BothGives(from: Json, a: seq<Member>, b: seq<Member>, f: map<string, Val>, k: string)
    requires from.Object? && (forall m <- a :: m in from.members) && Inputs(a, b) && Starts(At(f, k), a, b, k)
    requires a != [] && b != [] && Ahead(a, b) == 0
    ensures var g := MergedFields(f, GenerateMembers(from, a, b));
      && (HasKey(b, k) ==> (At(g, k) == Some(Canon(b[IndexOf(b, k)].value)) <==> KeyRecovers(from, a, b, k)))
      && (!HasKey(b, k) && HasKey(a, k) ==> k !in g)
      && (!HasKey(b, k) && !HasKey(a, k) ==> At(g, k) == At(f, k))
    decreases from, 0, |a| + |b|, 0
  {
    hide Fold, Canon, CaseDistinct, Recovers, HasKey, StrCmp, GenerateMember, PairRecovers;
    InputsTail(a, b);
    HeadOnly(a, k);
    HeadOnly(b, k);
    assert a[0] in from.members;
    var ps, rest := GenerateMember(from, a[0], b[0]), GenerateMembers(from, a[1..], b[1..]);
    SameKeySameFold(a, b);
    MergedConcat(f, ps, rest);
    PairGives(from, a[0], b[0], f);
    WalkGives(from, a[1..], b[1..], MergedFields(f, ps), k);
  }

  lemma SameKeySameFold(a: seq<Member>, b: seq<Member>)
    requires a != [] && b != [] && Ahead(a, b) == 0
    ensures Fold(a[0].key) == Fold(b[0].key)
  {
  }

  // The same members: spelled alike and with equal values.
  predicate SameMembers(a: seq<Member>, b: seq<Member>) {
    |a| == |b| && forall i :: 0 <= i < |a| ==> a[i].key == b[i].key && Canon(a[i].value) == Canon(b[i].value)
  }

  lemma {:induction false} NothingGenerated(from: Json, a: seq<Member>, b: seq<Member>)
    requires from.Object? && (forall m <- a :: m in from.members) && Inputs(a, b)
    ensures GenerateMembers(from, a, b) == [] <==> SameMembers(a, b)
    decreases from, 0, |a| + |b|, 1
  {
    hide CaseDistinct, GenerateMember, Canon;
    if a != [] && b != [] && Ahead(a, b) == 0 {
      assert a[0] in from.members;
      InputsTail(a, b);
      NothingForPair(from, a[0], b[0]);
      NothingGenerated(from, a[1..], b[1..]);
      if SameMembers(a[1..], b[1..]) && Canon(a[0].value) == Canon(b[0].value) {
        forall i | 0 <= i < |a| ensures a[i].key == b[i].key && Canon(a[i].value) == Canon(b[i].value) {
          if i > 0 {
            assert a[i] == a[1..][i - 1] && b[i] == b[1..][i - 1];
          }
        }
      }
    }
  }

  lemma {:induction false} NothingForPair(from: Json, x: Member, y: Member)
    requires from.Object? && x in from.members && CaseDistinct(x.value) && CaseDistinct(y.value)
    ensures GenerateMember(from, x, y) == [] <==> Canon(x.value) == Canon(y.value)
    decreases from, 0, 0
  {
    hide GenerateFor;
    CompareDecides(x.value, y.value);
    GenerateRecovers(x.value, y.value);
  }

  lemma {:induction false} WalkRestores(from: Json, a: seq<Member>, b: seq<Member>)
    requires from.Object? && (forall m <- a :: m in from.members) && Inputs(a, b)
    ensures MergedFields(CanonMembers(a), GenerateMembers(from, a, b)) == CanonMembers(b) <==> WalkRecovers(from, a, b)
    decreases from, 0, |a| + |b|, 2
  {
    hide GenerateMembers, WalkRecovers, KeyRecovers, CanonMembers, Canon, Fold, CaseDistinct, MergedFields;
    var f, t := CanonMembers(a), CanonMembers(b);
    var g := MergedFields(f, GenerateMembers(from, a, b));
    forall k
      ensures At(t, k) == (if HasKey(b, k) then Some(Canon(b[IndexOf(b, k)].value)) else None)
      ensures HasKey(b, k) ==> (At(g, k) == At(t, k) <==> KeyRecovers(from, a, b, k))
      ensures !HasKey(b, k) ==> k !in g
    {
      CanonAt(a, k);
      CanonAt(b, k);
      WalkGives(from, a, b, f, k);
    }
    WalkRecoversKeys(from, a, b);
    forall m | m in b ensures HasKey(b, Fold(m.key)) {
      var i :| 0 <= i < |b| && b[i] == m;
    }
    if WalkRecovers(from, a, b) {
      forall k ensures At(g, k) == At(t, k) {
        if HasKey(b, k) {
          assert Fold(b[IndexOf(b, k)].key) == k && b[IndexOf(b, k)] in b;
        }
      }
      assert forall k :: k in g <==> At(g, k).Some?;
      assert forall k :: k in t <==> At(t, k).Some?;
    }
  }

  lemma {:induction false} GenerateObjects(from: Json, to: Json, a: seq<Member>, b: seq<Member>)
    requires from.Object? && to.Object? && (forall m <- a :: m in from.members) && Inputs(a, b)
    requires CanonMembers(a) == CanonMembers(from.members) && CanonMembers(b) == CanonMembers(to.members)
    ensures var p := GenerateMembers(from, a, b);
      && (p == [] <==> SameMembers(a, b)) && (p == [] ==> Canon(from) == Canon(to))
      && (Merged(Some(Canon(from)), Object(p)) == Canon(to) <==> WalkRecovers(from, a, b))
    decreases from, 0, |a| + |b|, 3
  {
    hide CaseDistinct, GenerateMembers, WalkRecovers, MergedFields, CanonMembers, StrictlySorted;
    NothingGenerated(from, a, b);
    if SameMembers(a, b) {
      SameCanonMembers(a, b);
    }
    WalkRestores(from, a, b);
  }

  // The generator has nothing to say exactly for objects with the same members; otherwise its
  // patch restores the target exactly if the walk recovers it.
  lemma {:induction false} GenerateRecovers(from: Json, to: Json)
    requires CaseDistinct(from) && CaseDistinct(to)
    ensures GenerateFor(from, to) == None <==>
      from.Object? && to.Object? && SameMembers(SortList(from.members), SortList(to.members))
    ensures Canon(from) != Canon(to) ==> GenerateFor(from, to).Some?
    ensures GenerateFor(from, to).Some? ==>
      (Merged(Some(Canon(from)), GenerateFor(from, to).value) == Canon(to) <==> Recovers(from, to))
    decreases from, 1, 0
  {
    if from.Object? && to.Object? {
      hide GenerateMembers, WalkRecovers, Merged, CanonMembers;
      SortListSorts(from.members);
      SortListSorts(to.members);
      SortKeepsCanon(from.members);
      SortKeepsCanon(to.members);
      GenerateObjects(from, to, SortList(from.members), SortList(to.members));
    } else if to.Object? {
      NewGives(Some(Canon(from)), to);
    } else {
      DuplicateCanon(to);
    }
  }

  // ----- when the patch can be applied -----

  // Where a list of `doc` has a stale link, the walk met the member at its front together with an
  // equal one, so that the patch does not touch it.
  predicate HeadsPass(doc: Json, from: Json, to: Json)
    decreases from, 1, 0
  {
    if doc.Object? && from.Object? && to.Object? then
      SortListSorts(from.members);
      WalkPasses(doc, from, SortList(from.members), SortList(to.members))
    else true
  }

  predicate WalkPasses(doc: Json, ghost from: Json, a: seq<Member>, b: seq<Member>)
    requires doc.Object? && from.Object? && forall m <- a :: m in from.members
    decreases from, 0, |a| + |b|
  {
    if a == [] then true
    else
      var compare := Ahead(a, b);
      if compare < 0 then CanDetach(doc, IndexOf(doc.members, Fold(a[0].key))) && WalkPasses(doc, from, a[1..], b)
      else if compare > 0 then WalkPasses(doc, from, a, b[1..])
      else
        assert a[0] in from.members;
        PairPasses(doc, from, a[0], b[0]) && WalkPasses(doc, from, a[1..], b[1..])
  }

  predicate PairPasses(doc: Json, ghost from: Json, x: Member, y: Member)
    requires doc.Object? && from.Object? && x in from.members
    decreases from, 0, 0
  {
    var i := IndexOf(doc.members, Fold(x.key));
    Canon(x.value) == Canon(y.value)
    || (CanDetach(doc, i) && (i < |doc.members| ==> HeadsPass(doc.members[i].value, x.value, y.value)))
  }

  // The document when the rest of the walk starts.
  ghost predicate DocReady(doc: Json, a: seq<Member>, b: seq<Member>) {
    && doc.Object? && AllDistinct(doc.members)
    && (forall m <- a :: At(CanonMembers(doc.members), Fold(m.key)) == Some(Canon(m.value)))
    && (forall m <- b :: HasKey(doc.members, Fold(m.key)) ==> HasKey(a, Fold(m.key)))
  }

  // An edit of the member `k` changes nothing for the others.
  ghost predicate EditOf(doc: Json, doc': Json, k: string) {
    && doc.Object? && doc'.Object? && SameHead(doc, doc') && AllDistinct(doc'.members)
    && forall j :: j != k ==> LookupFold(doc'.members, j) == LookupFold(doc.members, j)
  }

  function LookupFold(ms: seq<Member>, k: string): Option<Json> {
    if HasKey(ms, k) then Some(ms[IndexOf(ms, k)].value) else None
  }

  lemma SamePlace(doc: Json, doc': Json, k: string, j: string)
    requires EditOf(doc, doc', k) && j != k
    ensures CanDetach(doc', IndexOf(doc'.members, j)) <==> CanDetach(doc, IndexOf(doc.members, j))
    ensures HasKey(doc'.members, j) <==> HasKey(doc.members, j)
    ensures HasKey(doc.members, j) ==>
      doc'.members[IndexOf(doc'.members, j)].value == doc.members[IndexOf(doc.members, j)].value
  {
    assert LookupFold(doc'.members, j) == LookupFold(doc.members, j);
  }

  lemma {:induction false} PassesLater(doc: Json, doc': Json, k: string, from: Json, a: seq<Member>, b: seq<Member>)
    requires EditOf(doc, doc', k) && from.Object? && forall m <- a :: m in from.members && Fold(m.key) != k
    ensures WalkPasses(doc', from, a, b) <==> WalkPasses(doc, from, a, b)
    decreases |a| + |b|
  {
    hide HeadsPass, EditOf, CanDetach, Fold;
    if a != [] {
      assert a[0] in a && forall m <- a[1..] :: m in a;
      var compare := Ahead(a, b);
      SamePlace(doc, doc', k, Fold(a[0].key));
      if compare < 0 {
        PassesLater(doc, doc', k, from, a[1..], b);
      } else if compare > 0 {
        PassesLater(doc, doc', k, from, a, b[1..]);
      } else {
        PassesLater(doc, doc', k, from, a[1..], b[1..]);
      }
    }
  }

  lemma DropIsEdit(doc: Json, key: string)
    requires doc.Object? && AllDistinct(doc.members) && CanDetach(doc, IndexOf(doc.members, Fold(key)))
    ensures var doc' := Object(DropKey(doc.members, key), doc.stale);
      EditOf(doc, doc', Fold(key)) && !HasKey(doc'.members, Fold(key))
  {
    var ms, i := doc.members, IndexOf(doc.members, Fold(key));
    var w := DropKey(ms, key);
    CanonDropKey(ms, key);
    CanonAt(w, Fold(key));
    forall j | j != Fold(key) ensures LookupFold(w, j) == LookupFold(ms, j) {
      if i < |ms| {
        WithoutLookup(ms, i, j);
      }
    }
  }

  lemma PutIsEdit(doc: Json, key: string, v: Json)
    requires doc.Object? && AllDistinct(doc.members) && CaseDistinct(v)
    requires CanDetach(doc, IndexOf(doc.members, Fold(key)))
    ensures EditOf(doc, PutKey(doc, key, v), Fold(key))
  {
    hide Fold, CaseDistinct;
    DropIsEdit(doc, key);
    HeadAfterPut(doc, key, v);
    CanonPut(doc, key, v);
    var w := DropKey(doc.members, key);
    forall j | j != Fold(key) ensures LookupFold(PutKey(doc, key, v).members, j) == LookupFold(doc.members, j) {
      AppendLookup(w, Member(key, v), j);
    }
  }

  // The values in a generated patch have case-distinct keys, the patch itself may not.
  lemma {:induction false} GeneratedPuts(from: Json, to: Json)
    requires CaseDistinct(from) && CaseDistinct(to) && GenerateFor(from, to).Some?
    ensures PutsDistinct(GenerateFor(from, to).value)
    decreases from, 1, 0
  {
    if from.Object? && to.Object? {
      SortListSorts(from.members);
      SortListSorts(to.members);
      GeneratedMembersPut(from, SortList(from.members), SortList(to.members));
    } else {
      DuplicateCanon(to);
      DistinctPuts(Duplicate(to));
    }
  }

  lemma {:induction false} GeneratedMembersPut(from: Json, a: seq<Member>, b: seq<Member>)
    requires from.Object? && (forall m <- a :: m in from.members && CaseDistinct(m.value))
    requires forall m <- b :: CaseDistinct(m.value)
    ensures forall p <- GenerateMembers(from, a, b) :: PutsDistinct(p.value)
    decreases from, 0, |a| + |b|
  {
    hide CaseDistinct, StrCmp, PutsDistinct;
    if a != [] || b != [] {
      assert a != [] ==> a[0] in a && forall m <- a[1..] :: m in a;
      assert b != [] ==> b[0] in b && forall m <- b[1..] :: m in b;
      var compare := Ahead(a, b);
      if compare < 0 {
        NullPuts();
        GeneratedMembersPut(from, a[1..], b);
      } else if compare > 0 {
        DuplicateCanon(b[0].value);
        DistinctPuts(Duplicate(b[0].value));
        GeneratedMembersPut(from, a, b[1..]);
      } else {
        assert a[0] in from.members;
        if GenerateFor(a[0].value, b[0].value).Some? {
          GeneratedPuts(a[0].value, b[0].value);
        }
        GeneratedMembersPut(from, a[1..], b[1..]);
      }
    }
  }

  lemma NullPuts()
    ensures PutsDistinct(Null)
  {
  }

  lemma ReadyAfter(doc: Json, doc': Json, k: string, a: seq<Member>, b: seq<Member>, a': seq<Member>, b': seq<Member>)
    requires DocReady(doc, a, b) && EditOf(doc, doc', k) && StrictlySorted(a) && StrictlySorted(b)
    requires (a' == a && !HasKey(a, k)) || (a != [] && a' == a[1..] && k == Fold(a[0].key))
    requires b' == b || (b != [] && b' == b[1..])
    requires HasKey(doc'.members, k) ==> !HasKey(b', k)
    ensures DocReady(doc', a', b') && forall m <- a' :: Fold(m.key) != k
  {
    hide Canon, CanonMembers, Fold, CaseDistinct, SameHead;
    forall m | m in a'
      ensures m in a && Fold(m.key) != k && At(CanonMembers(doc'.members), Fold(m.key)) == Some(Canon(m.value))
    {
      var i :| 0 <= i < |a'| && a'[i] == m;
      assert a' != a ==> m == a[i + 1] && m in a[1..];
      if a' != a {
        HeadOnly(a, Fold(m.key));
      }
      SamePlace(doc, doc', k, Fold(m.key));
      CanonAt(doc.members, Fold(m.key));
      CanonAt(doc'.members, Fold(m.key));
    }
    forall m | m in b' && HasKey(doc'.members, Fold(m.key)) ensures HasKey(a', Fold(m.key)) {
      var i :| 0 <= i < |b'| && b'[i] == m;
      assert b' != b ==> m == b[i + 1];
      SamePlace(doc, doc', k, Fold(m.key));
      if a' != a {
        HeadOnly(a, Fold(m.key));
      }
    }
  }

  lemma SameIsEdit(doc: Json, k: string)
    requires doc.Object? && AllDistinct(doc.members)
    ensures EditOf(doc, doc, k)
  {
  }

  lemma {:induction false} WalkDefined(doc: Json, from: Json, a: seq<Member>, b: seq<Member>)
    requires from.Object? && (forall m <- a :: m in from.members) && Inputs(a, b) && DocReady(doc, a, b)
    requires WalkRecovers(from, a, b)
    ensures MergeMembers(doc, GenerateMembers(from, a, b)).Some? <==> WalkPasses(doc, from, a, b)
    decreases from, 0, |a| + |b|, 1
  {
    if a != [] || b != [] {
      var compare := Ahead(a, b);
      if compare < 0 {
        DropDefined(doc, from, a, b);
      } else if compare > 0 {
        AddDefined(doc, from, a, b);
      } else {
        BothDefined(doc, from, a, b);
      }
    }
  }

  lemma {:induction false} DropDefined(doc: Json, from: Json, a: seq<Member>, b: seq<Member>)
    requires from.Object? && (forall m <- a :: m in from.members) && Inputs(a, b) && DocReady(doc, a, b)
    requires WalkRecovers(from, a, b) && a != [] && Ahead(a, b) < 0
    ensures MergeMembers(doc, GenerateMembers(from, a, b)).Some? <==> WalkPasses(doc, from, a, b)
    decreases from, 0, |a| + |b|, 0
  {
    hide Fold, CaseDistinct, CanonMembers, Canon, StrCmp, EditOf, CanDetach;
    var k, rest := Fold(a[0].key), GenerateMembers(from, a[1..], b);
    InputsTail(a, b);
    assert ([Member(a[0].key, Null)] + rest)[1..] == rest;
    if CanDetach(doc, IndexOf(doc.members, k)) {
      DropIsEdit(doc, a[0].key);
      var doc' := Object(DropKey(doc.members, a[0].key), doc.stale);
      ReadyAfter(doc, doc', k, a, b, a[1..], b);
      PassesLater(doc, doc', k, from, a[1..], b);
      WalkDefined(doc', from, a[1..], b);
    }
  }

  lemma NewMerges(v: Json)
    requires CaseDistinct(v)
    ensures var r := Merge(None, Duplicate(v));
      r.Some? && CaseDistinct(r.value)
  {
    DuplicateCanon(v);
    NoStaleHolds(Duplicate(v));
    MergeIsRfc(None, Duplicate(v));
  }

  lemma {:induction false} AddDefined(doc: Json, from: Json, a: seq<Member>, b: seq<Member>)
    requires from.Object? && (forall m <- a :: m in from.members) && Inputs(a, b) && DocReady(doc, a, b)
    requires WalkRecovers(from, a, b) && b != [] && Ahead(a, b) > 0
    ensures MergeMembers(doc, GenerateMembers(from, a, b)).Some? <==> WalkPasses(doc, from, a, b)
    decreases from, 0, |a| + |b|, 0
  {
    hide Fold, CaseDistinct, CanonMembers, Canon, StrCmp, EditOf, Merge, NewRecovers, Duplicate;
    var y, k, rest := b[0], Fold(b[0].key), GenerateMembers(from, a, b[1..]);
    var p := Member(y.key, Duplicate(y.value));
    InputsTail(a, b);
    assert y in b && ([p] + rest)[1..] == rest;
    NewMerges(y.value);
    DuplicateNull(y.value);
    NotNull(y.value);
    var v := Merge(None, Duplicate(y.value)).value;
    assert !HasKey(doc.members, k);
    PutIsEdit(doc, y.key, v);
    var doc' := PutKey(doc, y.key, v);
    assert MergeMember(doc, p) == Some(doc');
    ReadyAfter(doc, doc', k, a, b, a, b[1..]);
    PassesLater(doc, doc', k, from, a, b[1..]);
    WalkDefined(doc', from, a, b[1..]);
  }

  lemma NotNull(v: Json)
    requires NewRecovers(v)
    ensures !v.Null?
  {
  }

  lemma {:induction false} BothDefined(doc: Json, from: Json, a: seq<Member>, b: seq<Member>)
    requires from.Object? && (forall m <- a :: m in from.members) && Inputs(a, b) && DocReady(doc, a, b)
    requires WalkRecovers(from, a, b) && a != [] && b != [] && Ahead(a, b) == 0
    ensures MergeMembers(doc, GenerateMembers(from, a, b)).Some? <==> WalkPasses(doc, from, a, b)
    decreases from, 0, |a| + |b|, 0
  {
    hide Fold, CaseDistinct, CanonMembers, Canon, StrCmp, EditOf, Merge, HeadsPass, Recovers, CanDetach, GenerateFor;
    var x, y, k, rest := a[0], b[0], Fold(a[0].key), GenerateMembers(from, a[1..], b[1..]);
    InputsTail(a, b);
    assert x in a && x in from.members;
    SameKeySameFold(a, b);
    NothingForPair(from, x, y);
    CanonAt(doc.members, k);
    var i := IndexOf(doc.members, k);
    if Canon(x.value) == Canon(y.value) {
      assert [] + rest == rest;
      SameIsEdit(doc, k);
      ReadyAfter(doc, doc, k, a, b, a[1..], b[1..]);
      WalkDefined(doc, from, a[1..], b[1..]);
    } else {
      var p := GenerateMember(from, x, y)[0];
      assert GenerateMember(from, x, y) == [p] && ([p] + rest)[1..] == rest;
      assert doc.members[i] in doc.members;
      PairDefined(doc.members[i].value, x.value, y.value);
      GeneratedNull(x.value, y.value);
      if CanDetach(doc, i) && HeadsPass(doc.members[i].value, x.value, y.value) {
        var v := Merge(Some(doc.members[i].value), p.value).value;
        PutIsEdit(doc, y.key, v);
        var doc' := PutKey(doc, y.key, v);
        ReadyAfter(doc, doc', k, a, b, a[1..], b[1..]);
        PassesLater(doc, doc', k, from, a[1..], b[1..]);
        WalkDefined(doc', from, a[1..], b[1..]);
      }
    }
  }

  lemma {:induction false} PairDefined(doc: Json, from: Json, to: Json)
    requires CaseDistinct(doc) && CaseDistinct(from) && CaseDistinct(to) && Canon(doc) == Canon(from)
    requires GenerateFor(from, to).Some? && Recovers(from, to)
    ensures var r := Merge(Some(doc), GenerateFor(from, to).value);
      (r.Some? <==> HeadsPass(doc, from, to)) && (r.Some? ==> CaseDistinct(r.value))
    decreases from, 1, 0
  {
    GeneratedPuts(from, to);
    MergeIsMerged(Some(doc), GenerateFor(from, to).value);
    if from.Object? && to.Object? {
      hide WalkPasses, WalkRecovers, GenerateMembers;
      var a, b := SortList(from.members), SortList(to.members);
      SortListSorts(from.members);
      SortListSorts(to.members);
      SortKeepsCanon(from.members);
      SortKeepsCanon(to.members);
      ReadyAtStart(doc, a, b);
      WalkDefined(doc, from, a, b);
    } else if to.Object? {
      NewMerges(to);
    }
  }

  lemma ReadyAtStart(doc: Json, a: seq<Member>, b: seq<Member>)
    requires doc.Object? && CaseDistinct(doc) && CanonMembers(doc.members) == CanonMembers(a) && DistinctKeys(a)
    ensures DocReady(doc, a, b)
  {
    forall m | m in a ensures At(CanonMembers(doc.members), Fold(m.key)) == Some(Canon(m.value)) {
      var i :| 0 <= i < |a| && a[i] == m;
      CanonMember(a, i);
    }
    forall m | m in b && HasKey(doc.members, Fold(m.key)) ensures HasKey(a, Fold(m.key)) {
      CanonAt(doc.members, Fold(m.key));
      CanonAt(a, Fold(m.key));
    }
  }

  // Generate, then apply to any document that is equal to the source. The generator has nothing to
  // say exactly when both are objects with the same members, spelled alike. Otherwise the patch
  // gives `to`, as nested maps, if and only if the walk recovers it and no stale link is followed.
  lemma GenerateThenMerge(doc: Json, from: Json, to: Json)
    requires CaseDistinct(doc) && CaseDistinct(from) && CaseDistinct(to) && Canon(doc) == Canon(from)
    ensures Generate(Some(from), Some(to)) == None <==>
      from.Object? && to.Object? && SameMembers(SortList(from.members), SortList(to.members))
    ensures var g := Generate(Some(from), Some(to));
      g.Some? ==>
        var r := ApplyMergePatch(Some(doc), g);
        (r.Some? && Canon(r.value) == Canon(to)) <==> Recovers(from, to) && HeadsPass(doc, from, to)
  {
    hide HeadsPass, Recovers, Merge;
    GenerateRecovers(from, to);
    var g := GenerateFor(from, to);
    if g.Some? {
      GeneratedPuts(from, to);
      MergeIsMerged(Some(doc), g.value);
      if Recovers(from, to) {
        PairDefined(doc, from, to);
      }
    }
  }

  // ----- keys whose byte order is their folded order -----

  // The sibling keys of both trees compare byte by byte as they do folded, down to where the
  // arrays begin.
  predicate SameOrder(from: Json, to: Json)
    decreases from
  {
    from.Object? && to.Object? ==> forall x <- from.members, y <- to.members :: SameOrderPair(x, y)
  }

  predicate SameOrderPair(x: Member, y: Member)
    decreases x
  {
    var c, d := StrCmp(x.key, y.key), CaseCmp(x.key, y.key);
    (c < 0 <==> d < 0) && (c == 0 <==> d == 0) && (d == 0 ==> SameOrder(x.value, y.value))
  }

  predicate NoUpper(key: string) { forall c <- key :: !IsUpper(c) }

  // No upper-case letter in a key, down to where the arrays begin.
  predicate LowerKeys(t: Json) {
    t.Object? ==> forall m <- t.members :: NoUpper(m.key) && LowerKeys(m.value)
  }

  lemma {:induction false} FoldLower(key: string)
    requires NoUpper(key)
    ensures Fold(key) == key
  {
    if key != [] {
      FoldLower(key[1..]);
    }
  }

  lemma {:induction false} LowerOrder(from: Json, to: Json)
    requires LowerKeys(from) && LowerKeys(to)
    ensures SameOrder(from, to)
    decreases from
  {
    if from.Object? && to.Object? {
      forall x, y | x in from.members && y in to.members ensures SameOrderPair(x, y) {
        FoldLower(x.key);
        FoldLower(y.key);
        LowerOrder(x.value, y.value);
      }
    }
  }

  predicate Ordered(a: seq<Member>, b: seq<Member>) { forall x <- a, y <- b :: SameOrderPair(x, y) }

  lemma OrderedTail(a: seq<Member>, b: seq<Member>)
    requires Ordered(a, b)
    ensures a != [] ==> Ordered(a[1..], b)
    ensures b != [] ==> Ordered(a, b[1..])
    ensures a != [] && b != [] ==> Ordered(a[1..], b[1..]) && SameOrderPair(a[0], b[0])
  {
    assert a != [] ==> a[0] in a && forall m <- a[1..] :: m in a;
    assert b != [] ==> b[0] in b && forall m <- b[1..] :: m in b;
  }

  // What the first comparison says about the folded keys.
  lemma AheadFolded(a: seq<Member>, b: seq<Member>)
    requires Ordered(a, b) && StrictlySorted(a) && StrictlySorted(b) && (a != [] || b != [])
    ensures Ahead(a, b) < 0 ==> a != [] && !HasKey(b, Fold(a[0].key))
    ensures Ahead(a, b) > 0 ==> b != [] && !HasKey(a, Fold(b[0].key))
    ensures Ahead(a, b) == 0 ==> a != [] && b != [] && Fold(a[0].key) == Fold(b[0].key)
  {
    hide Fold, StrCmp, CaseCmp, CanonMembers;
    OrderedTail(a, b);
    var compare := Ahead(a, b);
    if a != [] && b != [] {
      CaseCmpAntisym(a[0].key, b[0].key);
    }
    if compare < 0 {
      KeyBelowIsAbsent(b, a[0].key);
      CanonAt(b, Fold(a[0].key));
    } else if compare > 0 {
      if a != [] {
        NotBelow(a[0], b[0]);
      }
      KeyBelowIsAbsent(a, b[0].key);
      CanonAt(a, Fold(b[0].key));
    } else {
      SameKeySameFold(a, b);
    }
  }

  lemma NotBelow(x: Member, y: Member)
    requires SameOrderPair(x, y) && StrCmp(x.key, y.key) > 0
    ensures CaseCmp(y.key, x.key) < 0
  {
    CaseCmpAntisym(x.key, y.key);
  }

  predicate KeyIsRestored(ghost from: Json, a: seq<Member>, b: seq<Member>, k: string)
    requires from.Object? && (forall m <- a :: m in from.members) && HasKey(b, k)
  {
    var y := b[IndexOf(b, k)];
    if HasKey(a, k) then
      assert a[IndexOf(a, k)] in from.members;
      PairRecovers(from, a[IndexOf(a, k)], y)
    else NewRecovers(y.value)
  }

  lemma {:induction false} KeyInOrder(from: Json, a: seq<Member>, b: seq<Member>, k: string)
    requires from.Object? && (forall m <- a :: m in from.members) && HasKey(b, k)
    requires StrictlySorted(a) && StrictlySorted(b) && Ordered(a, b)
    ensures KeyRecovers(from, a, b, k) <==> KeyIsRestored(from, a, b, k)
    decreases |a| + |b|
  {
    hide Fold, StrCmp, CaseCmp, PairRecovers, NewRecovers, Ordered;
    OrderedTail(a, b);
    AheadFolded(a, b);
    var compare := Ahead(a, b);
    if a != [] {
      HeadOnly(a, k);
    }
    HeadOnly(b, k);
    if compare < 0 {
      KeyInOrder(from, a[1..], b, k);
    } else if Fold(b[0].key) != k {
      KeyInOrder(from, if compare == 0 then a[1..] else a, b[1..], k);
    }
  }

  predicate FieldRestorable(f: map<string, Val>, t: map<string, Val>, k: string)
    requires k in t
  {
    (k in f && f[k] == t[k]) || (t[k] != VNull && Restorable(Fields(At(f, k)), t[k]))
  }

  lemma RestorableFields(f: map<string, Val>, to: Val)
    requires to.VObject?
    ensures Restorable(f, to) <==> forall k <- to.fields.Keys :: FieldRestorable(f, to.fields, k)
  {
  }

  lemma {:induction false} WalkInOrder(from: Json, to: Json, a: seq<Member>, b: seq<Member>)
    requires CaseDistinct(from) && CaseDistinct(to) && SameOrder(from, to) && from.Object? && to.Object?
    requires (forall x <- a :: x in from.members) && (forall y <- b :: y in to.members)
    requires StrictlySorted(a) && StrictlySorted(b)
    ensures WalkRecovers(from, a, b) <==> Restorable(CanonMembers(a), VObject(CanonMembers(b)))
    decreases from, 1
  {
    hide CaseDistinct, SameOrder, KeyRecovers, WalkRecovers, Restorable, FieldRestorable, CanonMembers, Fold, StrictlySorted;
    var f, t := CanonMembers(a), CanonMembers(b);
    WalkRecoversKeys(from, a, b);
    RestorableFields(f, VObject(t));
    forall m | m in b
      ensures Fold(m.key) in t && (KeyRecovers(from, a, b, Fold(m.key)) <==> FieldRestorable(f, t, Fold(m.key)))
    {
      FieldInOrder(from, to, a, b, m);
    }
    forall k | k in t ensures HasKey(b, k) && b[IndexOf(b, k)] in b && Fold(b[IndexOf(b, k)].key) == k {
      CanonAt(b, k);
    }
  }

  // With such keys, the target is restored exactly if its null members are in the source.
  lemma {:induction false} RecoversInOrder(from: Json, to: Json)
    requires CaseDistinct(from) && CaseDistinct(to) && SameOrder(from, to)
    ensures Recovers(from, to) <==> Restorable(Fields(Some(Canon(from))), Canon(to))
    decreases from, 2
  {
    if from.Object? && to.Object? {
      hide CaseDistinct, SameOrder, WalkRecovers, Restorable;
      SortListSorts(from.members);
      SortListSorts(to.members);
      SortedAgain(from);
      SortedAgain(to);
      WalkInOrder(from, to, SortList(from.members), SortList(to.members));
    }
  }

  lemma SortedAgain(t: Json)
    requires CaseDistinct(t) && t.Object?
    ensures StrictlySorted(SortList(t.members)) && CanonMembers(SortList(t.members)) == CanonMembers(t.members)
  {
    SortKeepsCanon(t.members);
  }

  lemma {:induction false} FieldInOrder(from: Json, to: Json, a: seq<Member>, b: seq<Member>, m: Member)
    requires CaseDistinct(from) && CaseDistinct(to) && SameOrder(from, to) && from.Object? && to.Object?
    requires (forall x <- a :: x in from.members) && (forall y <- b :: y in to.members) && m in b
    requires StrictlySorted(a) && StrictlySorted(b)
    ensures Fold(m.key) in CanonMembers(b)
    ensures KeyRecovers(from, a, b, Fold(m.key)) <==> FieldRestorable(CanonMembers(a), CanonMembers(b), Fold(m.key))
    decreases from, 0
  {
    hide KeyRecovers, Restorable, Recovers, Fold;
    var k := Fold(m.key);
    StrictIsDistinct(b);
    var j :| 0 <= j < |b| && b[j] == m;
    CanonMember(b, j);
    IndexOfDistinct(b, j);
    assert Ordered(a, b);
    KeyInOrder(from, a, b, k);
    CanonAt(a, k);
    if HasKey(a, k) {
      var x := a[IndexOf(a, k)];
      assert x in from.members && m in to.members && SameOrderPair(x, m);
      assert CaseCmp(x.key, m.key) == 0;
      RecoversInOrder(x.value, m.value);
    }
  }

  // ----- applied to the source itself -----

  lemma {:induction false} WalkedKeepsMembers(from: Json, a: seq<Member>, b: seq<Member>)
    requires from.Object? && forall m <- a :: m in from.members && CaseDistinct(m.value)
    ensures CanonMembers(WalkedMembers(from, a, b)) == CanonMembers(a)
    ensures forall m <- WalkedMembers(from, a, b) :: CaseDistinct(m.value)
    decreases from, 0, |a| + |b|
  {
    hide Walked, Compared, Compare.Compare, StrCmp;
    if a != [] && b != [] {
      var compare := StrCmp(a[0].key, b[0].key);
      if compare < 0 {
        WalkedKeepsMembers(from, a[1..], b);
      } else if compare > 0 {
        WalkedKeepsMembers(from, a, b[1..]);
      } else {
        assert a[0] in from.members;
        ComparedKeeps(a[0].value, b[0].value);
        WalkedKeeps(a[0].value, b[0].value);
        WalkedKeepsMembers(from, a[1..], b[1..]);
      }
    }
  }

  // The generator does not change the value of its source.
  lemma {:induction false} WalkedKeeps(from: Json, to: Json)
    requires CaseDistinct(from)
    ensures Canon(Walked(from, to)) == Canon(from) && CaseDistinct(Walked(from, to))
    decreases from, 1
  {
    if from.Object? && to.Object? {
      var a, b := SortList(from.members), SortList(to.members);
      SortListSorts(from.members);
      SortKeepsCanon(from.members);
      WalkedKeepsMembers(from, a, b);
      SameKeysDistinct(a, WalkedMembers(from, a, b));
    }
  }

  predicate MemberPasses(doc: Json, ghost from: Json, m: Member, b: seq<Member>)
    requires doc.Object? && from.Object? && m in from.members
  {
    var k := Fold(m.key);
    if HasKey(b, k) then PairPasses(doc, from, m, b[IndexOf(b, k)])
    else CanDetach(doc, IndexOf(doc.members, k))
  }

  lemma MemberPassesTail(doc: Json, from: Json, m: Member, b: seq<Member>)
    requires doc.Object? && from.Object? && m in from.members && b != [] && StrictlySorted(b)
    ensures Fold(m.key) != Fold(b[0].key) ==> (MemberPasses(doc, from, m, b) <==> MemberPasses(doc, from, m, b[1..]))
    ensures Fold(m.key) == Fold(b[0].key) ==> (MemberPasses(doc, from, m, b) <==> PairPasses(doc, from, m, b[0]))
  {
    hide PairPasses, CanDetach, Fold;
    HeadOnly(b, Fold(m.key));
  }

  lemma {:induction false} PassesInOrder(doc: Json, from: Json, a: seq<Member>, b: seq<Member>)
    requires doc.Object? && from.Object? && forall m <- a :: m in from.members
    requires StrictlySorted(a) && StrictlySorted(b) && Ordered(a, b)
    ensures WalkPasses(doc, from, a, b) <==> forall m <- a :: MemberPasses(doc, from, m, b)
    decreases |a| + |b|
  {
    hide Fold, StrCmp, CaseCmp, PairPasses, MemberPasses, CanDetach, Ordered;
    if a != [] {
      OrderedTail(a, b);
      AheadFolded(a, b);
      var compare := Ahead(a, b);
      assert a[0] in a && forall m <- a :: m == a[0] || m in a[1..];
      if compare < 0 {
        AlonePasses(doc, from, a[0], b);
        PassesInOrder(doc, from, a[1..], b);
      } else {
        forall m | m in a
          ensures Fold(m.key) != Fold(b[0].key) || (compare == 0 && m == a[0])
        {
          KeyAt(a, m);
        }
        forall m | m in a[1..] ensures m in a && Fold(m.key) != Fold(a[0].key) {
          KeyAt(a[1..], m);
          HeadOnly(a, Fold(a[0].key));
        }
        forall m | m in a && Fold(m.key) != Fold(b[0].key)
          ensures MemberPasses(doc, from, m, b) <==> MemberPasses(doc, from, m, b[1..])
        {
          MemberPassesTail(doc, from, m, b);
        }
        MemberPassesTail(doc, from, a[0], b);
        PassesInOrder(doc, from, if compare == 0 then a[1..] else a, b[1..]);
      }
    }
  }

  lemma AlonePasses(doc: Json, from: Json, m: Member, b: seq<Member>)
    requires doc.Object? && from.Object? && m in from.members && !HasKey(b, Fold(m.key))
    ensures MemberPasses(doc, from, m, b) <==> CanDetach(doc, IndexOf(doc.members, Fold(m.key)))
  {
  }

  lemma KeyAt(a: seq<Member>, m: Member)
    requires StrictlySorted(a) && m in a
    ensures HasKey(a, Fold(m.key)) && a[IndexOf(a, Fold(m.key))] == m
  {
    StrictIsDistinct(a);
    var i :| 0 <= i < |a| && a[i] == m;
    IndexOfDistinct(a, i);
  }

  lemma {:induction false} WalkedAt(from: Json, a: seq<Member>, b: seq<Member>, k: string)
    requires from.Object? && (forall m <- a :: m in from.members)
    requires StrictlySorted(a) && StrictlySorted(b) && Ordered(a, b) && HasKey(a, k)
    ensures var r := WalkedMembers(from, a, b);
      IndexOf(r, k) == IndexOf(a, k) < |r|
      && (HasKey(b, k) ==> r[IndexOf(a, k)].value == WalkedPair(a[IndexOf(a, k)].value, b[IndexOf(b, k)].value))
    decreases |a| + |b|
  {
    hide Fold, StrCmp, CaseCmp, Ordered, WalkedPair;
    var r := WalkedMembers(from, a, b);
    IndexOfSameKeys(a, r, k);
    HeadOnly(a, k);
    if b != [] {
      OrderedTail(a, b);
      AheadFolded(a, b);
      HeadOnly(b, k);
      var compare := Ahead(a, b);
      if compare < 0 {
        if k != Fold(a[0].key) {
          WalkedAt(from, a[1..], b, k);
        }
      } else if compare > 0 {
        WalkedAt(from, a, b[1..], k);
      } else if k != Fold(a[0].key) {
        WalkedAt(from, a[1..], b[1..], k);
      }
    }
  }

  predicate EqualIn(m: Member, to: seq<Member>) {
    var k := Fold(m.key);
    HasKey(to, k) && Canon(m.value) == Canon(to[IndexOf(to, k)].value)
  }

  // At every aligned pair of objects that differ, the member with the smallest key is the first
  // one of the source, or the target has it with the same value.
  predicate FirstEqual(from: Json, to: Json)
    decreases from
  {
    from.Object? && to.Object? ==>
      SmallestEqual(from, to.members) && forall m <- from.members :: MemberFirstEqual(m, to.members)
  }

  predicate SmallestEqual(from: Json, to: seq<Member>)
    requires from.Object?
  {
    var ms := from.members;
    forall m <- ms :: (forall n <- ms :: CaseCmp(m.key, n.key) <= 0) ==>
      (m == ms[0] && !from.stale) || EqualIn(m, to)
  }

  predicate MemberFirstEqual(m: Member, to: seq<Member>)
    decreases m
  {
    var k := Fold(m.key);
    HasKey(to, k) && Canon(m.value) != Canon(to[IndexOf(to, k)].value) ==> FirstEqual(m.value, to[IndexOf(to, k)].value)
  }

  lemma SmallestEqualHead(from: Json, to: seq<Member>)
    requires from.Object? && DistinctKeys(from.members) && from.members != []
    ensures var s := SortObject(from);
      s.members != [] && (SmallestEqual(from, to) <==> (s.stale ==> EqualIn(s.members[0], to)))
  {
    hide EqualIn, SortList, HeadIndex, CaseCmp;
    var ms := from.members;
    HeadIsAt(ms);
    HeadIsSmallest(ms);
    forall m | m in ms && (forall n <- ms :: CaseCmp(m.key, n.key) <= 0) ensures m == ms[HeadIndex(ms)] {
      SmallestIs(ms, m);
    }
    assert ms[HeadIndex(ms)] == ms[0] ==> HeadIndex(ms) == 0;
  }

  lemma WalkedHead(from: Json, to: Json)
    requires from.Object? && to.Object?
    ensures var r, s := Walked(from, to), SortObject(from);
      r.Object? && |r.members| == |s.members| == |from.members| && r.stale == s.stale
      && (s.members != [] ==> r.members[0].key == s.members[0].key)
  {
    SortListSorts(from.members);
    assert |SortList(from.members)| == |multiset(SortList(from.members))| == |from.members|;
  }

  // What the walk asks for one member of the source.
  lemma {:induction false} SourceMemberPasses(from: Json, to: Json, m: Member)
    requires CaseDistinct(from) && CaseDistinct(to) && SameOrder(from, to) && from.Object? && to.Object?
    requires m in from.members
    ensures Walked(from, to).Object?
    ensures MemberPasses(Walked(from, to), from, m, SortList(to.members)) <==>
      EqualIn(m, to.members)
      || (CanDetach(Walked(from, to), IndexOf(Walked(from, to).members, Fold(m.key))) && MemberFirstEqual(m, to.members))
    decreases from, 0
  {
    hide HeadsPass, FirstEqual, SameOrder, CanDetach, WalkedMembers, Fold;
    var a, b, k := SortList(from.members), SortList(to.members), Fold(m.key);
    SortListSorts(from.members);
    SortListSorts(to.members);
    SortedAgain(from);
    SortedAgain(to);
    SortedTarget(to.members, k);
    KeyAt(a, m);
    OrderedSorted(from, to);
    WalkedAt(from, a, b, k);
    if HasKey(to.members, k) {
      var y := to.members[IndexOf(to.members, k)];
      assert y in to.members;
      WalkedPairPasses(from, to, m, y);
    }
  }

  lemma OrderedSorted(from: Json, to: Json)
    requires SameOrder(from, to) && from.Object? && to.Object?
    ensures Ordered(SortList(from.members), SortList(to.members))
  {
    SortListSorts(from.members);
    SortListSorts(to.members);
  }

  lemma {:induction false} WalkedPairPasses(from: Json, to: Json, x: Member, y: Member)
    requires CaseDistinct(from) && CaseDistinct(to) && SameOrder(from, to) && from.Object? && to.Object?
    requires x in from.members && y in to.members && Fold(x.key) == Fold(y.key)
    ensures Canon(x.value) == Canon(y.value)
      || (HeadsPass(WalkedPair(x.value, y.value), x.value, y.value) <==> FirstEqual(x.value, y.value))
    decreases from, 0, 0
  {
    CompareDecides(x.value, y.value);
    assert SameOrderPair(x, y);
    if x.value.Object? && y.value.Object? {
      SourcePasses(x.value, y.value);
    }
  }

  lemma {:induction false} SourceObjectPasses(from: Json, to: Json)
    requires CaseDistinct(from) && CaseDistinct(to) && SameOrder(from, to) && from.Object? && to.Object?
    ensures HeadsPass(Walked(from, to), from, to) <==> FirstEqual(from, to)
    decreases from, 1, 0
  {
    hide SameOrder, WalkPasses, MemberPasses, EqualIn, MemberFirstEqual, SmallestEqual, Walked, SortObject, Fold, CanDetach,
         StrictlySorted, Ordered, CaseDistinct, IndexOf;
    var doc, a, b := Walked(from, to), SortList(from.members), SortList(to.members);
    WalkedHead(from, to);
    SortListSorts(from.members);
    SortedAgain(from);
    SortedAgain(to);
    OrderedSorted(from, to);
    PassesInOrder(doc, from, a, b);
    forall m | m in from.members
      ensures m in a
      ensures MemberPasses(doc, from, m, b) <==>
        EqualIn(m, to.members) || (!(doc.stale && m == a[0]) && MemberFirstEqual(m, to.members))
      ensures EqualIn(m, to.members) ==> MemberFirstEqual(m, to.members)
    {
      SourceMemberPasses(from, to, m);
      SortedHead(from);
      assert m in a;
      DetachedHead(doc, a, m);
      if EqualIn(m, to.members) {
        EqualIsFine(m, to.members);
      }
    }
    HeadCondition(from, to, a);
    assert a != [] ==> a[0] in a && a[0] in from.members;
  }

  lemma HeadCondition(from: Json, to: Json, a: seq<Member>)
    requires CaseDistinct(from) && from.Object? && to.Object? && a == SortList(from.members)
    ensures (a == [] <==> from.members == [])
      && (SmallestEqual(from, to.members) <==> (Walked(from, to).stale && a != [] ==> EqualIn(a[0], to.members)))
  {
    hide EqualIn, SmallestEqual, Walked;
    WalkedHead(from, to);
    if from.members != [] {
      SmallestEqualHead(from, to.members);
    } else {
      NoneEqual(from, to.members);
    }
  }

  lemma {:induction false} SourcePasses(from: Json, to: Json)
    requires CaseDistinct(from) && CaseDistinct(to) && SameOrder(from, to)
    ensures HeadsPass(Walked(from, to), from, to) <==> FirstEqual(from, to)
    decreases from, 1, 1
  {
    if from.Object? && to.Object? {
      SourceObjectPasses(from, to);
    }
  }

  lemma SortedHead(from: Json)
    requires from.Object? && from.members != []
    ensures SortObject(from).members == SortList(from.members)
  {
  }

  lemma DetachedHead(doc: Json, a: seq<Member>, m: Member)
    requires doc.Object? && StrictlySorted(a) && m in a && doc.members != [] && doc.members[0].key == a[0].key
    ensures CanDetach(doc, IndexOf(doc.members, Fold(m.key))) <==> !(doc.stale && m == a[0])
  {
    KeyAt(a, m);
  }

  lemma EqualIsFine(m: Member, to: seq<Member>)
    requires EqualIn(m, to)
    ensures MemberFirstEqual(m, to)
  {
  }

  lemma NoneEqual(from: Json, to: seq<Member>)
    requires from.Object? && from.members == []
    ensures SmallestEqual(from, to)
  {
  }

  // Generate, then apply to the source that the generator has just sorted in place. With keys in
  // the same order, the condition is one on the trees that the caller starts from.
  lemma GenerateThenMergeToSource(from: Json, to: Json)
    requires CaseDistinct(from) && CaseDistinct(to)
    ensures var g := Generate(Some(from), Some(to));
      g.Some? ==>
        var doc := Walked(from, to);
        var r := ApplyMergePatch(Some(doc), g);
        && ((r.Some? && Canon(r.value) == Canon(to)) <==> Recovers(from, to) && HeadsPass(doc, from, to))
        && (SameOrder(from, to) ==>
              (Recovers(from, to) <==> Restorable(Fields(Some(Canon(from))), Canon(to)))
              && (HeadsPass(doc, from, to) <==> FirstEqual(from, to)))
  {
    hide Generate, ApplyMergePatch, Recovers, HeadsPass, FirstEqual, SameOrder, Restorable;
    WalkedKeeps(from, to);
    GenerateThenMerge(Walked(from, to), from, to);
    if SameOrder(from, to) {
      RecoversInOrder(from, to);
      SourcePasses(from, to);
    }
  }

  // A document without stale links, like a copy of the source, has no heads to lose.
  lemma {:induction false} CleanPasses(doc: Json, from: Json, to: Json)
    requires Clean(doc)
    ensures HeadsPass(doc, from, to)
    decreases from, 1
  {
    if doc.Object? && from.Object? && to.Object? {
      SortListSorts(from.members);
      CleanWalkPasses(doc, from, SortList(from.members), SortList(to.members));
    }
  }

  lemma {:induction false} CleanWalkPasses(doc: Json, from: Json, a: seq<Member>, b: seq<Member>)
    requires Clean(doc) && doc.Object? && from.Object? && forall m <- a :: m in from.members
    ensures WalkPasses(doc, from, a, b)
    decreases from, 0, |a| + |b|
  {
    hide Fold, StrCmp, HeadsPass;
    if a != [] {
      var compare, i := Ahead(a, b), IndexOf(doc.members, Fold(a[0].key));
      if compare < 0 {
        CleanWalkPasses(doc, from, a[1..], b);
      } else if compare > 0 {
        CleanWalkPasses(doc, from, a, b[1..]);
      } else {
        assert a[0] in from.members;
        if i < |doc.members| {
          assert doc.members[i] in doc.members;
          CleanPasses(doc.members[i].value, a[0].value, b[0].value);
        }
        CleanWalkPasses(doc, from, a[1..], b[1..]);
      }
    }
  }

  // ----- inputs that fail -----

  // With an upper-case letter the two orders disagree, and the added member is dropped again.
  lemma UpperCaseKeysBreakIt(v: Json, w: Json)
    requires v == Number(1, 1.0) && w == Number(2, 2.0)
    ensures var from, to := Object([Member("a", v)]), Object([Member("A", w)]);
      Generate(Some(from), Some(to)).Some?
      && Merge(Some(from), Generate(Some(from), Some(to)).value) == Some(Object([]))
  {
    var from, to := Object([Member("a", v)]), Object([Member("A", w)]);
    assert StrCmp("a", "A") == 1;
    assert Fold("a") == Fold("A") == "a" by {
      assert "a"[1..] == "" && "A"[1..] == "";
    }
    var patch := [Member("A", w), Member("a", Null)];
    var a, b := [Member("a", v)], [Member("A", w)];
    assert a[1..] == [] && b[1..] == [];
    assert GenerateMembers(from, a, b[1..]) == [Member("a", Null)];
    assert GenerateMembers(from, a, b) == patch;
    assert patch[1..] == [Member("a", Null)] && patch[1..][1..] == [];
    assert [] + [Member("A", w)] == to.members && DropKey(a, "A") == [] && DropKey(b, "a") == [];
    assert Merge(Some(v), w) == Some(w);
    assert MergeMember(from, patch[0]) == Some(to);
    assert MergeMember(to, patch[1]) == Some(Object([]));
    assert MergeMembers(to, patch[1..]) == Some(Object([]));
    assert MergeMembers(from, patch) == Some(Object([]));
  }

  lemma NumbersRestorable(f: map<string, Val>, t: map<string, Val>)
    requires forall k <- t :: t[k].VNumber?
    ensures Restorable(f, VObject(t))
  {
  }

  // {"b": 1, "a": x}
  function BA(x: int): Json { Object([Member("b", Number(1, 1.0)), Member("a", Number(x, x as real))]) }

  lemma TwoMembers(x: int)
    ensures var t := BA(x);
      && CaseDistinct(t) && Clean(t) && LowerKeys(t)
      && IndexOf(t.members, Fold("a")) == 1 && CaseCmp("a", "b") == -1 && CaseCmp("a", "a") == 0
      && Canon(t) == VObject(map["a" := VNumber(x, x as real), "b" := VNumber(1, 1.0)])
  {
    var ms := BA(x).members;
    assert Fold("b") == "b" && Fold("a") == "a";
    assert ms[1..] == [ms[1]] && ms[1..][1..] == [];
    assert CanonMembers(ms[1..]) == map["a" := VNumber(x, x as real)];
    assert CanonMembers(ms) == map["a" := VNumber(x, x as real), "b" := VNumber(1, 1.0)];
  }

  // With lower-case keys and no null, the sorted source {"b": 1, "a": 2} can still not be merged
  // into {"b": 1, "a": 3}.
  lemma SortedSourceBreaks()
    ensures var from, to := BA(2), BA(3);
      var g := Generate(Some(from), Some(to));
      && Clean(from) && LowerKeys(from) && LowerKeys(to) && Recovers(from, to)
      && g.Some? && Merge(Some(Walked(from, to)), g.value) == None
  {
    TwoMembers(2);
    TwoMembers(3);
    hide Fold, CaseCmp, IndexOf, Recovers, Walked, GenerateFor, HeadsPass, Canon, CanonMembers, LowerKeys, CaseDistinct,
         Restorable, Merge;
    var from, to := BA(2), BA(3);
    NotFirstEqual();
    LowerOrder(from, to);
    assert Canon(from).fields["a"] != Canon(to).fields["a"];
    GenerateRecovers(from, to);
    NumbersRestorable(Fields(Some(Canon(from))), Canon(to).fields);
    RecoversInOrder(from, to);
    WalkedKeeps(from, to);
    SourcePasses(from, to);
    PairDefined(Walked(from, to), from, to);
  }

  lemma NotFirstEqual()
    ensures !FirstEqual(BA(2), BA(3))
  {
    TwoMembers(2);
    TwoMembers(3);
    hide Fold, CaseCmp, IndexOf;
    var from, to := BA(2), BA(3);
    var m := from.members[1];
    assert m in from.members && m != from.members[0];
    assert !EqualIn(m, to.members);
    assert !SmallestEqual(from, to.members);
  }
}
