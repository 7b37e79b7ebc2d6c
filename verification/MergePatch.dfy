/**
  JSON Merge Patch (RFC 7396): application and generation.
 */
module MergePatch {
  import opened Text
  import opened Json
  import opened Sort
  import opened Compare

  // ----- the code -----

  // cJSONUtils_MergePatch for a patch that is not NULL; a target may be. The result is None where
  // a detach makes a list of members a circle.
  function Merge(target: Option<Json>, patch: Json): Option<Json>
    decreases patch
  {
    if patch.Object? then MergeMembers(ObjectOf(target), patch.members) else Some(Duplicate(patch))
  }

  // A target that is not an object is replaced by a new one.
  function ObjectOf(t: Option<Json>): (r: Json)
    ensures r.Object?
  {
    if t.Some? && t.value.Object? then t.value else Object([])
  }

  function Lookup(ms: seq<Member>, key: string): Option<Json> {
    var i := IndexOf(ms, Fold(key));
    if i < |ms| then Some(ms[i].value) else None
  }

  // The loop over the members of the patch.
  function MergeMembers(t: Json, patch: seq<Member>): (r: Option<Json>)
    requires t.Object?
    ensures r.Some? ==> r.value.Object?
    decreases patch
  {
    if patch == [] then Some(t)
    else
      match MergeMember(t, patch[0])
      case None => None
      case Some(t') => MergeMembers(t', patch[1..])
  }

  function MergeMember(t: Json, p: Member): (r: Option<Json>)
    requires t.Object?
    ensures r.Some? ==> r.value.Object?
    decreases p
  {
    if !CanDetach(t, IndexOf(t.members, Fold(p.key))) then None
    else if p.value.Null? then Some(Object(DropKey(t.members, p.key), t.stale))
    else
      match Merge(Lookup(t.members, p.key), p.value)
      case None => None
      case Some(v) => Some(PutKey(t, p.key, v))
  }

  function ApplyMergePatch(target: Option<Json>, patch: Option<Json>): Option<Json> {
    if patch.None? then None else Merge(target, patch.value)
  }

  // The C function, member by member.
  method MergePatchLoop(target: Option<Json>, patch: Json) returns (r: Option<Json>)
    ensures r == Merge(target, patch)
    decreases patch
  {
    if !patch.Object? {
      return Some(Duplicate(patch));
    }
    var t := ObjectOf(target);
    var i := 0;
    while i < |patch.members|
      invariant i <= |patch.members| && t.Object?
      invariant MergeMembers(t, patch.members[i..]) == MergeMembers(ObjectOf(target), patch.members)
    {
      var p := patch.members[i];
      assert patch.members[i..][1..] == patch.members[i + 1..];
      var replaceme := Lookup(t.members, p.key);
      if !CanDetach(t, IndexOf(t.members, Fold(p.key))) {
        return None;
      }
      if p.value.Null? {
        t := Object(DropKey(t.members, p.key), t.stale);
      } else {
        var merged := MergePatchLoop(replaceme, p.value);
        if merged.None? {
          return None;
        }
        t := PutKey(t, p.key, merged.value);
      }
      i := i + 1;
    }
    r := Some(t);
  }

  // cJSONUtils_GenerateMergePatch
  function Generate(from: Option<Json>, to: Option<Json>): Option<Json> {
    if to.None? then Some(Null) else if from.None? then Some(Duplicate(to.value)) else GenerateFor(from.value, to.value)
  }

  function GenerateFor(from: Json, to: Json): Option<Json>
    decreases from, 1, 0
  {
    if !to.Object? || !from.Object? then Some(Duplicate(to))
    else
      SortListSorts(from.members);
      var patch := GenerateMembers(from, SortList(from.members), SortList(to.members));
      if patch == [] then None else Some(Object(patch))
  }

  // Which list is ahead: the keys are compared byte by byte, although the lists are sorted by
  // their folded keys.
  function Ahead(a: seq<Member>, b: seq<Member>): int {
    if a == [] then 1 else if b == [] then -1 else StrCmp(a[0].key, b[0].key)
  }

  function GenerateMembers(ghost from: Json, a: seq<Member>, b: seq<Member>): seq<Member>
    requires from.Object? && forall m <- a :: m in from.members
    decreases from, 0, |a| + |b|
  {
    if a == [] && b == [] then []
    else
      var compare := Ahead(a, b);
      if compare < 0 then [Member(a[0].key, Null)] + GenerateMembers(from, a[1..], b)
      else if compare > 0 then [Member(b[0].key, Duplicate(b[0].value))] + GenerateMembers(from, a, b[1..])
      else
        assert a[0] in from.members;
        GenerateMember(from, a[0], b[0]) + GenerateMembers(from, a[1..], b[1..])
  }

  function GenerateMember(ghost from: Json, x: Member, y: Member): seq<Member>
    requires from.Object? && x in from.members
    decreases from, 0, 0
  {
    if Compare.Compare(x.value, y.value) == 0 then []
    else
      match GenerateFor(x.value, y.value)
      case None => []
      case Some(patch) => [Member(y.key, patch)]
  }

  // What the generator leaves of `from`: the objects that it walked through or compared are
  // sorted. (It may have sorted more in the members that the patch drops.)
  function Walked(from: Json, to: Json): Json
    decreases from, 1, 0
  {
    if !to.Object? || !from.Object? then from
    else
      SortListSorts(from.members);
      var s := SortObject(from);
      s.(members := WalkedMembers(from, s.members, SortList(to.members)))
  }

  function WalkedMembers(ghost from: Json, a: seq<Member>, b: seq<Member>): (r: seq<Member>)
    requires from.Object? && forall m <- a :: m in from.members
    ensures |r| == |a|
    ensures forall i :: 0 <= i < |a| ==> r[i].key == a[i].key
    decreases from, 0, |a| + |b|
  {
    if a == [] || b == [] then a
    else
      var compare := StrCmp(a[0].key, b[0].key);
      if compare < 0 then [a[0]] + WalkedMembers(from, a[1..], b)
      else if compare > 0 then WalkedMembers(from, a, b[1..])
      else
        assert a[0] in from.members;
        [Member(a[0].key, WalkedPair(a[0].value, b[0].value))] + WalkedMembers(from, a[1..], b[1..])
  }

  function WalkedPair(x: Json, y: Json): Json
    decreases x, 2, 0
  {
    if Compare.Compare(x, y) != 0 && x.Object? && y.Object? then Walked(x, y) else Compared(x, y)
  }

  // ----- on nested maps -----

  function Fields(t: Option<Val>): map<string, Val> {
    if t.Some? && t.value.VObject? then t.value.fields else map[]
  }

  function At(f: map<string, Val>, k: string): Option<Val> {
    if k in f then Some(f[k]) else None
  }

  function CanonOption(t: Option<Json>): Option<Val> {
    if t.None? then None else Some(Canon(t.value))
  }

  predicate DistinctOption(t: Option<Json>) { t.Some? ==> CaseDistinct(t.value) }

  predicate AllDistinct(ms: seq<Member>) { DistinctKeys(ms) && forall m <- ms :: CaseDistinct(m.value) }

  // What the loop makes of a value, for any patch: a generated patch can have two members with the
  // same folded key.
  function Merged(t: Option<Val>, patch: Json): Val
    decreases patch
  {
    if patch.Object? then VObject(MergedFields(Fields(t), patch.members)) else Canon(patch)
  }

  function MergedFields(f: map<string, Val>, ps: seq<Member>): map<string, Val>
    decreases ps
  {
    if ps == [] then f else MergedFields(MergedField(f, ps[0]), ps[1..])
  }

  function MergedField(f: map<string, Val>, p: Member): map<string, Val>
    decreases p
  {
    var k := Fold(p.key);
    if p.value.Null? then f - {k} else f[k := Merged(At(f, k), p.value)]
  }

  // The values that a patch puts in have case-distinct keys.
  predicate PutsDistinct(patch: Json) {
    if patch.Object? then forall p <- patch.members :: PutsDistinct(p.value) else CaseDistinct(patch)
  }

  lemma {:induction false} DistinctPuts(patch: Json)
    requires CaseDistinct(patch)
    ensures PutsDistinct(patch)
  {
    if patch.Object? {
      forall p | p in patch.members ensures PutsDistinct(p.value) {
        DistinctPuts(p.value);
      }
    }
  }

  lemma LookupCanon(ms: seq<Member>, key: string)
    requires AllDistinct(ms)
    ensures CanonOption(Lookup(ms, key)) == At(CanonMembers(ms), Fold(key)) && DistinctOption(Lookup(ms, key))
  {
    CanonAt(ms, Fold(key));
    if Lookup(ms, key).Some? {
      assert ms[IndexOf(ms, Fold(key))] in ms;
    }
  }

  lemma {:induction false} MergeMemberIsMerged(t: Json, p: Member)
    requires t.Object? && AllDistinct(t.members) && PutsDistinct(p.value)
    ensures var r := MergeMember(t, p);
      r.Some? ==>
        AllDistinct(r.value.members) && CanonMembers(r.value.members) == MergedField(CanonMembers(t.members), p)
    decreases p
  {
    hide CanonMembers;
    var ms := t.members;
    if p.value.Null? {
      CanonDropKey(ms, p.key);
    } else {
      LookupCanon(ms, p.key);
      MergeIsMerged(Lookup(ms, p.key), p.value);
      var v := Merge(Lookup(ms, p.key), p.value);
      if v.Some? {
        CanonPut(t, p.key, v.value);
      }
    }
  }

  lemma {:induction false} MergeMembersIsMerged(t: Json, ps: seq<Member>)
    requires t.Object? && AllDistinct(t.members) && forall p <- ps :: PutsDistinct(p.value)
    ensures var r := MergeMembers(t, ps);
      r.Some? ==>
        AllDistinct(r.value.members) && CanonMembers(r.value.members) == MergedFields(CanonMembers(t.members), ps)
    decreases ps
  {
    hide MergeMember, MergedField, CaseDistinct, PutsDistinct, CanonMembers, DistinctKeys;
    if ps != [] {
      MergeMemberIsMerged(t, ps[0]);
      var t' := MergeMember(t, ps[0]);
      if t'.Some? {
        MergeMembersIsMerged(t'.value, ps[1..]);
      }
    }
  }

  // The loop on trees is the loop on values.
  lemma {:induction false} MergeIsMerged(target: Option<Json>, patch: Json)
    requires DistinctOption(target) && PutsDistinct(patch)
    ensures var r := Merge(target, patch);
      r.Some? ==> CaseDistinct(r.value) && Canon(r.value) == Merged(CanonOption(target), patch)
    decreases patch
  {
    if patch.Object? {
      var t := ObjectOf(target);
      assert Fields(CanonOption(target)) == CanonMembers(t.members);
      MergeMembersIsMerged(t, patch.members);
    } else {
      DuplicateCanon(patch);
    }
  }

  // ----- RFC 7396, section 2, on maps -----

  function RfcMerge(target: Option<Val>, patch: Val): Val
    decreases patch
  {
    if !patch.VObject? then patch
    else
      var f, p := Fields(target), patch.fields;
      VObject(map k | k in f.Keys + p.Keys && !(k in p && p[k] == VNull) ::
                if k in p then RfcMerge(At(f, k), p[k]) else f[k])
  }

  ghost predicate RfcAt(f: map<string, Val>, p: map<string, Val>, r: map<string, Val>, k: string) {
    && (k in r <==> (k in f || k in p) && !(k in p && p[k] == VNull))
    && (k in r ==> r[k] == if k in p then RfcMerge(At(f, k), p[k]) else f[k])
  }

  lemma RfcStep(f: map<string, Val>, p: map<string, Val>, r: map<string, Val>, k0: string, v: Val, k: string)
    requires k0 !in p && RfcAt(if v == VNull then f - {k0} else f[k0 := RfcMerge(At(f, k0), v)], p, r, k)
    ensures RfcAt(f, p[k0 := v], r, k)
  {
  }

  lemma {:induction false} MergedAt(f: map<string, Val>, ps: seq<Member>, k: string)
    requires AllDistinct(ps)
    ensures RfcAt(f, CanonMembers(ps), MergedFields(f, ps), k)
    decreases ps
  {
    hide Merged, RfcMerge, CaseDistinct, Fold, RfcAt;
    if ps != [] {
      var p := ps[0];
      assert ps[1..] == Without(ps, 0);
      WithoutLookup(ps, 0, Fold(p.key));
      CanonAt(ps[1..], Fold(p.key));
      MergedAt(MergedField(f, p), ps[1..], k);
      MergedIsRfc(At(f, Fold(p.key)), p.value);
      RfcStep(f, CanonMembers(ps[1..]), MergedFields(f, ps), Fold(p.key), Canon(p.value), k);
    } else {
      RfcNothing(f, k);
    }
  }

  lemma RfcNothing(f: map<string, Val>, k: string)
    ensures RfcAt(f, map[], f, k)
  {
  }

  lemma RfcFields(target: Option<Val>, p: map<string, Val>, r: map<string, Val>)
    requires forall k :: RfcAt(Fields(target), p, r, k)
    ensures VObject(r) == RfcMerge(target, VObject(p))
  {
    var s := RfcMerge(target, VObject(p)).fields;
    forall k
      ensures k in r <==> k in s
      ensures k in r ==> r[k] == s[k]
    {
      assert RfcAt(Fields(target), p, r, k);
    }
  }

  lemma {:induction false} MergedIsRfc(t: Option<Val>, patch: Json)
    requires CaseDistinct(patch)
    ensures Merged(t, patch) == RfcMerge(t, Canon(patch))
    decreases patch
  {
    if patch.Object? {
      var ps, f := patch.members, Fields(t);
      forall k ensures RfcAt(f, CanonMembers(ps), MergedFields(f, ps), k) {
        MergedAt(f, ps, k);
      }
      RfcFields(t, CanonMembers(ps), MergedFields(f, ps));
    }
  }

  // ----- when it can be carried out -----

  // The first member of a list with a stale link is not in the patch.
  predicate MergeHolds(target: Option<Json>, patch: Json)
    decreases patch
  {
    patch.Object? ==>
      var t := ObjectOf(target);
      && (Stale(t) ==> !HasKey(patch.members, Fold(t.members[0].key)))
      && forall p <- patch.members :: MergeHolds(Lookup(t.members, p.key), p.value)
  }

  lemma {:induction false} NoStaleHolds(patch: Json)
    ensures MergeHolds(None, patch)
  {
    if patch.Object? {
      forall p | p in patch.members ensures MergeHolds(Lookup([], p.key), p.value) {
        NoStaleHolds(p.value);
      }
    }
  }

  lemma LookupOther(t: Json, t': Json, p: Member, key: string)
    requires t.Object? && DistinctKeys(t.members) && MergeMember(t, p) == Some(t')
    ensures Fold(key) != Fold(p.key) ==> Lookup(t'.members, key) == Lookup(t.members, key)
    ensures Fold(key) == Fold(p.key) ==> Lookup(t'.members, key) == if p.value.Null? then None else Merge(Lookup(t.members, key), p.value)
    ensures DistinctKeys(t'.members) && SameHead(t, t')
  {
    hide Merge, Fold;
    var ms, i := t.members, IndexOf(t.members, Fold(p.key));
    var w := DropKey(ms, p.key);
    CanonDropKey(ms, p.key);
    CanonAt(w, Fold(p.key));
    if i < |ms| {
      WithoutLookup(ms, i, Fold(key));
    }
    if !p.value.Null? {
      AppendLookup(w, Member(p.key, Merge(Lookup(ms, p.key), p.value).value), Fold(key));
    }
  }

  lemma {:induction false} AppendLookup(ms: seq<Member>, m: Member, k: string)
    requires DistinctKeys(ms) && !HasKey(ms, Fold(m.key))
    ensures DistinctKeys(ms + [m])
    ensures IndexOf(ms + [m], k) == if HasKey(ms, k) then IndexOf(ms, k) else if k == Fold(m.key) then |ms| else |ms| + 1
  {
    if ms != [] {
      assert (ms + [m])[1..] == ms[1..] + [m];
      AppendLookup(ms[1..], m, k);
    }
  }

  predicate MembersHold(t: Json, ps: seq<Member>)
    requires t.Object?
  {
    && (Stale(t) ==> !HasKey(ps, Fold(t.members[0].key)))
    && forall p <- ps :: MergeHolds(Lookup(t.members, p.key), p.value)
  }

  lemma NextHolds(t: Json, t': Json, ps: seq<Member>)
    requires t.Object? && DistinctKeys(t.members) && DistinctKeys(ps) && ps != []
    requires MergeMember(t, ps[0]) == Some(t') && MergeHolds(Lookup(t.members, ps[0].key), ps[0].value)
    ensures MembersHold(t', ps[1..]) <==> MembersHold(t, ps)
  {
    hide MergeMember, MergeHolds, Fold, Lookup;
    var p := ps[0];
    LookupOther(t, t', p, p.key);
    forall q | q in ps[1..]
      ensures q in ps && Fold(q.key) != Fold(p.key) && Lookup(t'.members, q.key) == Lookup(t.members, q.key)
    {
      var i :| 0 <= i < |ps[1..]| && ps[1..][i] == q;
      assert ps[i + 1] == q;
      LookupOther(t, t', p, q.key);
    }
    assert forall q <- ps :: q == p || q in ps[1..];
    if Stale(t) {
      HeadNotDropped(t, t', p);
    }
  }

  lemma HeadNotDropped(t: Json, t': Json, p: Member)
    requires t.Object? && MergeMember(t, p) == Some(t') && Stale(t)
    ensures Fold(t.members[0].key) != Fold(p.key)
  {
  }

  lemma {:induction false} MergeMembersDefined(t: Json, ps: seq<Member>)
    requires t.Object? && AllDistinct(t.members) && AllDistinct(ps)
    ensures MergeMembers(t, ps).Some? <==> MembersHold(t, ps)
    decreases ps
  {
    hide MergeMember, MergeHolds, Fold, Lookup, CaseDistinct;
    if ps != [] {
      var p := ps[0];
      assert forall q <- ps[1..] :: q in ps;
      LookupCanon(t.members, p.key);
      MergeDefined(Lookup(t.members, p.key), p.value);
      MemberDefined(t, p);
      var r := MergeMember(t, p);
      if r.Some? {
        DistinctPuts(p.value);
        MergeMemberIsMerged(t, p);
        NextHolds(t, r.value, ps);
        MergeMembersDefined(r.value, ps[1..]);
      }
    }
  }

  lemma MemberDefined(t: Json, p: Member)
    requires t.Object? && (Merge(Lookup(t.members, p.key), p.value).Some? <==> MergeHolds(Lookup(t.members, p.key), p.value))
    ensures MergeMember(t, p).Some? <==>
      !(Stale(t) && Fold(t.members[0].key) == Fold(p.key)) && MergeHolds(Lookup(t.members, p.key), p.value)
  {
  }

  // A merge runs into a circle exactly where a patch has the first member of a stale list.
  lemma {:induction false} MergeDefined(target: Option<Json>, patch: Json)
    requires DistinctOption(target) && CaseDistinct(patch)
    ensures Merge(target, patch).Some? <==> MergeHolds(target, patch)
    decreases patch
  {
    if patch.Object? {
      MergeMembersDefined(ObjectOf(target), patch.members);
    }
  }

  // MergePatch computes the function of the RFC, on nested maps, wherever it can be carried out.
  lemma MergeIsRfc(target: Option<Json>, patch: Json)
    requires DistinctOption(target) && CaseDistinct(patch)
    ensures var r := Merge(target, patch);
      if MergeHolds(target, patch)
      then r.Some? && CaseDistinct(r.value) && Canon(r.value) == RfcMerge(CanonOption(target), Canon(patch))
      else r.None?
  {
    DistinctPuts(patch);
    MergeDefined(target, patch);
    MergeIsMerged(target, patch);
    MergedIsRfc(CanonOption(target), patch);
  }

  lemma {:induction false} RfcMergeTwice(target: Option<Val>, patch: Val)
    ensures RfcMerge(Some(RfcMerge(target, patch)), patch) == RfcMerge(target, patch)
    decreases patch
  {
    if patch.VObject? {
      var once := RfcMerge(target, patch);
      var twice := RfcMerge(Some(once), patch);
      forall k | k in patch.fields && patch.fields[k] != VNull
        ensures k in once.fields && k in twice.fields && twice.fields[k] == once.fields[k]
      {
        RfcMergeTwice(At(Fields(target), k), patch.fields[k]);
      }
      assert twice.fields == once.fields;
    }
  }

  // What the loop leaves of the target, on trees.
  lemma {:induction false} MergedMembers(t: Json, ps: seq<Member>)
    requires t.Object? && AllDistinct(t.members) && AllDistinct(ps) && MergeMembers(t, ps).Some?
    ensures var r := MergeMembers(t, ps).value;
      SameHead(t, r) && AllDistinct(r.members)
      && forall p <- ps ::
           Lookup(r.members, p.key) == if p.value.Null? then None else Merge(Lookup(t.members, p.key), p.value)
    ensures var r := MergeMembers(t, ps).value;
      forall key :: !HasKey(ps, Fold(key)) ==> Lookup(r.members, key) == Lookup(t.members, key)
    decreases ps
  {
    hide MergeMember, Fold, Lookup, CaseDistinct;
    if ps != [] {
      var p := ps[0];
      var t' := MergeMember(t, p).value;
      DistinctPuts(p.value);
      MergeMemberIsMerged(t, p);
      assert forall q <- ps[1..] :: q in ps;
      MergedMembers(t', ps[1..]);
      var r := MergeMembers(t, ps).value;
      forall key ensures
        && (!HasKey(ps, Fold(key)) ==> Lookup(r.members, key) == Lookup(t.members, key))
        && (Fold(key) == Fold(p.key) ==> Lookup(r.members, key) == Lookup(t'.members, key))
        && (Fold(key) != Fold(p.key) ==> Lookup(t'.members, key) == Lookup(t.members, key))
      {
        LookupOther(t, t', p, key);
        TailKey(ps, Fold(key));
      }
      LookupOther(t, t', p, p.key);
      forall q | q in ps[1..] ensures Fold(q.key) != Fold(p.key) {
        var i :| 0 <= i < |ps[1..]| && ps[1..][i] == q;
        assert ps[i + 1] == q;
      }
      assert forall q <- ps :: q == p || q in ps[1..];
    }
  }

  lemma TailKey(ps: seq<Member>, k: string)
    requires ps != [] && DistinctKeys(ps)
    ensures HasKey(ps[1..], k) ==> HasKey(ps, k)
    ensures k == Fold(ps[0].key) ==> !HasKey(ps[1..], k)
  {
    if HasKey(ps[1..], k) {
      assert ps[1..][IndexOf(ps[1..], k)] == ps[IndexOf(ps[1..], k) + 1];
    }
  }

  // A merge that can be carried out can be carried out again.
  lemma {:induction false} HoldsAgain(target: Option<Json>, patch: Json)
    requires DistinctOption(target) && CaseDistinct(patch) && Merge(target, patch).Some?
    ensures MergeHolds(Merge(target, patch), patch)
    decreases patch
  {
    if patch.Object? {
      var t, r := ObjectOf(target), Merge(target, patch).value;
      var ps := patch.members;
      MergeDefined(target, patch);
      MergedMembers(t, ps);
      forall p | p in ps ensures MergeHolds(Lookup(r.members, p.key), p.value) {
        if p.value.Object? {
          LookupCanon(t.members, p.key);
          MergeDefined(Lookup(t.members, p.key), p.value);
          HoldsAgain(Lookup(t.members, p.key), p.value);
        }
      }
    }
  }

  // Applying a merge patch a second time changes no value.
  lemma MergeTwice(target: Option<Json>, patch: Json)
    requires DistinctOption(target) && CaseDistinct(patch) && Merge(target, patch).Some?
    ensures var once := Merge(target, patch);
      var twice := Merge(once, patch);
      twice.Some? && Canon(twice.value) == Canon(once.value)
  {
    hide Merge, MergeHolds;
    MergeIsRfc(target, patch);
    HoldsAgain(target, patch);
    MergeIsRfc(Merge(target, patch), patch);
    RfcMergeTwice(CanonOption(target), Canon(patch));
  }
}
