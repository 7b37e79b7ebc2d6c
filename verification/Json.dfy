/**
  cJSON trees. A sibling chain (`child`, `next`, ...) is a sequence; a child of an object
  carries its key. `Canon` forgets the order of the members and the case of the keys, which
  is what "the same tree" means to cJSON_Utils.
 */
module Json {
  import opened Text

  // `valuedouble` is exact: rounding of numbers is not part of the model. `stale` says that the
  // first member of the list has a `prev` that is not NULL, as a sort can leave it (see
  // `Sort.SortObject` and SortChain); all other links of a list are right.
  datatype Json =
    | Null
    | False
    | True
    | Number(valueint: int, valuedouble: real)
    | String(text: string)
    | Array(items: seq<Json>)
    | Object(members: seq<Member>, stale: bool := false)

  datatype Member = Member(key: string, value: Json)

  predicate SameKind(a: Json, b: Json) {
    && (a.Null? <==> b.Null?) && (a.False? <==> b.False?) && (a.True? <==> b.True?)
    && (a.Number? <==> b.Number?) && (a.String? <==> b.String?)
    && (a.Array? <==> b.Array?) && (a.Object? <==> b.Object?)
  }

  predicate IsContainer(t: Json) { t.Array? || t.Object? }

  // ----- member lists -----

  // The first member whose folded key is `fk`, or the length of the list.
  function IndexOf(ms: seq<Member>, fk: string): (i: nat)
    ensures i <= |ms|
    ensures i < |ms| ==> Fold(ms[i].key) == fk
    ensures forall j :: 0 <= j < i ==> Fold(ms[j].key) != fk
  {
    if ms == [] || Fold(ms[0].key) == fk then 0 else 1 + IndexOf(ms[1..], fk)
  }

  predicate HasKey(ms: seq<Member>, fk: string) { IndexOf(ms, fk) < |ms| }

  predicate DistinctKeys(ms: seq<Member>) {
    forall i, j :: 0 <= i < j < |ms| ==> Fold(ms[i].key) != Fold(ms[j].key)
  }

  // Sibling keys are distinct under case folding, at every level.
  predicate CaseDistinct(t: Json) {
    match t
    case Array(items) => forall x <- items :: CaseDistinct(x)
    case Object(ms, _) => DistinctKeys(ms) && forall m <- ms :: CaseDistinct(m.value)
    case _ => true
  }

  // ----- copies -----

  // cJSON_Duplicate with `recurse`: all links of the copy are new.
  function Duplicate(t: Json): Json {
    match t
    case Array(items) => Array(DuplicateItems(items))
    case Object(ms, _) => Object(DuplicateMembers(ms))
    case _ => t
  }

  function DuplicateItems(items: seq<Json>): (r: seq<Json>)
    ensures |r| == |items|
    ensures forall i :: 0 <= i < |items| ==> r[i] == Duplicate(items[i])
  {
    if items == [] then [] else [Duplicate(items[0])] + DuplicateItems(items[1..])
  }

  function DuplicateMembers(ms: seq<Member>): (r: seq<Member>)
    ensures |r| == |ms|
    ensures forall i :: 0 <= i < |ms| ==> r[i] == Member(ms[i].key, Duplicate(ms[i].value))
  {
    if ms == [] then [] else [Member(ms[0].key, Duplicate(ms[0].value))] + DuplicateMembers(ms[1..])
  }

  // No list below has a stale link.
  predicate Clean(t: Json) {
    match t
    case Array(items) => forall x <- items :: Clean(x)
    case Object(ms, stale) => !stale && forall m <- ms :: Clean(m.value)
    case _ => true
  }

  lemma {:induction false} DuplicateIsClean(t: Json)
    ensures Clean(Duplicate(t))
  {
    match t
    case Array(items) =>
      forall i | 0 <= i < |items| ensures Clean(Duplicate(items[i])) {
        DuplicateIsClean(items[i]);
      }
    case Object(ms, _) =>
      forall i | 0 <= i < |ms| ensures Clean(Duplicate(ms[i].value)) {
        DuplicateIsClean(ms[i].value);
      }
    case _ =>
  }

  lemma {:induction false} DuplicateOfClean(t: Json)
    requires Clean(t)
    ensures Duplicate(t) == t
  {
    match t
    case Array(items) =>
      forall i | 0 <= i < |items| ensures Duplicate(items[i]) == items[i] {
        DuplicateOfClean(items[i]);
      }
    case Object(ms, _) =>
      forall i | 0 <= i < |ms| ensures Duplicate(ms[i].value) == ms[i].value {
        DuplicateOfClean(ms[i].value);
      }
      assert DuplicateMembers(ms) == ms;
    case _ =>
  }

  // ----- cJSON's list edits, seen on the `next` chain -----

  // cJSON_GetObjectItem.
  function GetObjectItem(t: Json, key: string): Option<Json> {
    match t
    case Object(ms, _) =>
      var i := IndexOf(ms, Fold(key));
      if i < |ms| then Some(ms[i].value) else None
    case _ => None
  }

  function Without<T>(s: seq<T>, i: nat): seq<T> {
    if i < |s| then s[..i] + s[i + 1..] else s
  }

  function InsertAt<T>(s: seq<T>, i: nat, x: T): seq<T> {
    if i < |s| then s[..i] + [x] + s[i..] else s + [x]
  }

  // cJSON_DetachItemFromArray follows the `prev` of the item. For the first item of a list with a
  // stale link that closes a circle (SortChain.SortThenDetach), and there is no tree any more.
  predicate CanDetach(t: Json, i: nat) { Stale(t) ==> i != 0 }

  predicate Stale(t: Json) { t.Object? && t.stale && t.members != [] }

  // cJSON_DeleteItemFromObject.
  function DropKey(ms: seq<Member>, key: string): seq<Member> { Without(ms, IndexOf(ms, Fold(key))) }

  // cJSON_AddItemToObject after the key was dropped.
  function PutKey(t: Json, key: string, value: Json): (r: Json)
    requires t.Object?
    ensures r.Object?
  {
    var rest := DropKey(t.members, key);
    Object(rest + [Member(key, value)], t.stale && rest != [])
  }

  // There is a stale link as before, and the same member has it.
  predicate SameHead(t: Json, t': Json) {
    Stale(t) == Stale(t') && (Stale(t) ==> Fold(t'.members[0].key) == Fold(t.members[0].key))
  }

  // ----- the tree up to member order and key case -----

  datatype Val =
    | VNull
    | VFalse
    | VTrue
    | VNumber(valueint: int, valuedouble: real)
    | VString(text: string)
    | VArray(items: seq<Val>)
    | VObject(fields: map<string, Val>)

  function Canon(t: Json): Val {
    match t
    case Null => VNull
    case False => VFalse
    case True => VTrue
    case Number(i, d) => VNumber(i, d)
    case String(s) => VString(s)
    case Array(items) => VArray(CanonItems(items))
    case Object(ms, _) => VObject(CanonMembers(ms))
  }

  function CanonItems(items: seq<Json>): (r: seq<Val>)
    ensures |r| == |items|
    ensures forall i :: 0 <= i < |items| ==> r[i] == Canon(items[i])
  {
    if items == [] then [] else [Canon(items[0])] + CanonItems(items[1..])
  }

  // As for a lookup, the first of several members with the same key counts.
  function CanonMembers(ms: seq<Member>): map<string, Val> {
    if ms == [] then map[]
    else CanonMembers(ms[1..])[Fold(ms[0].key) := Canon(ms[0].value)]
  }

  lemma SameCanonSameKind(a: Json, b: Json)
    requires Canon(a) == Canon(b)
    ensures SameKind(a, b)
  {
  }

  lemma {:induction false} CanonAt(ms: seq<Member>, fk: string)
    ensures HasKey(ms, fk) <==> fk in CanonMembers(ms)
    ensures HasKey(ms, fk) ==> CanonMembers(ms)[fk] == Canon(ms[IndexOf(ms, fk)].value)
  {
    if ms != [] {
      CanonAt(ms[1..], fk);
    }
  }

  lemma IndexOfDistinct(ms: seq<Member>, i: nat)
    requires DistinctKeys(ms) && i < |ms|
    ensures IndexOf(ms, Fold(ms[i].key)) == i
  {
  }

  lemma CanonMember(ms: seq<Member>, i: nat)
    requires DistinctKeys(ms) && i < |ms|
    ensures Fold(ms[i].key) in CanonMembers(ms)
    ensures CanonMembers(ms)[Fold(ms[i].key)] == Canon(ms[i].value)
  {
    IndexOfDistinct(ms, i);
    CanonAt(ms, Fold(ms[i].key));
  }

  lemma WithoutLookup(ms: seq<Member>, i: nat, fk: string)
    requires DistinctKeys(ms) && i < |ms|
    ensures DistinctKeys(Without(ms, i))
    ensures HasKey(Without(ms, i), fk) <==> HasKey(ms, fk) && fk != Fold(ms[i].key)
    ensures HasKey(Without(ms, i), fk) ==>
      Without(ms, i)[IndexOf(Without(ms, i), fk)] == ms[IndexOf(ms, fk)]
  {
    var w, j := Without(ms, i), IndexOf(ms, fk);
    if j < |ms| && j != i {
      IndexOfDistinct(w, if j < i then j else j - 1);
    }
  }

  lemma CanonDropKey(ms: seq<Member>, key: string)
    requires DistinctKeys(ms)
    ensures DistinctKeys(DropKey(ms, key))
    ensures forall m <- DropKey(ms, key) :: m in ms
    ensures CanonMembers(DropKey(ms, key)) == CanonMembers(ms) - {Fold(key)}
  {
    var w, i := DropKey(ms, key), IndexOf(ms, Fold(key));
    forall k
      ensures k in CanonMembers(w) <==> k in CanonMembers(ms) && k != Fold(key)
      ensures k in CanonMembers(w) ==> CanonMembers(w)[k] == CanonMembers(ms)[k]
    {
      CanonAt(ms, k);
      CanonAt(w, k);
      if i < |ms| {
        WithoutLookup(ms, i, k);
      }
    }
  }

  lemma CanonAppend(ms: seq<Member>, m: Member)
    requires DistinctKeys(ms) && !HasKey(ms, Fold(m.key))
    ensures DistinctKeys(ms + [m])
    ensures CanonMembers(ms + [m]) == CanonMembers(ms)[Fold(m.key) := Canon(m.value)]
  {
    forall k
      ensures k in CanonMembers(ms + [m]) <==> k in CanonMembers(ms) || k == Fold(m.key)
      ensures k in CanonMembers(ms + [m]) ==>
        CanonMembers(ms + [m])[k] == CanonMembers(ms)[Fold(m.key) := Canon(m.value)][k]
    {
      CanonAt(ms, k);
      CanonAt(ms + [m], k);
      IndexOfDistinct(ms + [m], IndexOf(ms, if k in CanonMembers(ms) then k else Fold(m.key)));
    }
  }

  lemma CanonUpdate(ms: seq<Member>, i: nat, v: Json)
    requires DistinctKeys(ms) && i < |ms|
    ensures DistinctKeys(ms[i := Member(ms[i].key, v)])
    ensures CanonMembers(ms[i := Member(ms[i].key, v)]) == CanonMembers(ms)[Fold(ms[i].key) := Canon(v)]
  {
    var ms' := ms[i := Member(ms[i].key, v)];
    IndexOfDistinct(ms', i);
    forall k
      ensures k in CanonMembers(ms') <==> k in CanonMembers(ms) || k == Fold(ms[i].key)
      ensures k in CanonMembers(ms') ==>
        CanonMembers(ms')[k] == CanonMembers(ms)[Fold(ms[i].key) := Canon(v)][k]
    {
      CanonAt(ms, k);
      CanonAt(ms', k);
      var j := IndexOf(ms, k);
      if j < |ms| {
        IndexOfDistinct(ms', j);
      }
    }
  }

  lemma {:induction false} IndexOfSameKeys(ms: seq<Member>, ms': seq<Member>, fk: string)
    requires |ms| == |ms'| && forall k :: 0 <= k < |ms| ==> ms[k].key == ms'[k].key
    ensures IndexOf(ms, fk) == IndexOf(ms', fk)
  {
    if ms != [] {
      IndexOfSameKeys(ms[1..], ms'[1..], fk);
    }
  }

  lemma SameKeysDistinct(ms: seq<Member>, ms': seq<Member>)
    requires |ms| == |ms'| && forall i :: 0 <= i < |ms| ==> ms[i].key == ms'[i].key
    ensures DistinctKeys(ms) <==> DistinctKeys(ms')
  {
  }

  lemma {:induction false} SameCanonMembers(ms: seq<Member>, ms': seq<Member>)
    requires |ms| == |ms'|
    requires forall i :: 0 <= i < |ms| ==> ms[i].key == ms'[i].key && Canon(ms[i].value) == Canon(ms'[i].value)
    ensures CanonMembers(ms) == CanonMembers(ms')
  {
    if ms != [] {
      SameCanonMembers(ms[1..], ms'[1..]);
    }
  }

  // A copy has the same value.
  lemma {:induction false} DuplicateCanon(t: Json)
    ensures Canon(Duplicate(t)) == Canon(t)
    ensures CaseDistinct(t) ==> CaseDistinct(Duplicate(t))
  {
    match t
    case Array(items) =>
      forall i | 0 <= i < |items|
        ensures Canon(Duplicate(items[i])) == Canon(items[i])
        ensures CaseDistinct(items[i]) ==> CaseDistinct(Duplicate(items[i]))
      {
        DuplicateCanon(items[i]);
      }
      assert CanonItems(DuplicateItems(items)) == CanonItems(items);
    case Object(ms, _) =>
      var ds := DuplicateMembers(ms);
      forall i | 0 <= i < |ms|
        ensures Canon(ds[i].value) == Canon(ms[i].value)
        ensures CaseDistinct(ms[i].value) ==> CaseDistinct(ds[i].value)
      {
        DuplicateCanon(ms[i].value);
      }
      SameKeysDistinct(ms, ds);
      SameCanonMembers(ms, ds);
    case _ =>
  }

  lemma HeadAfterPut(t: Json, key: string, value: Json)
    requires t.Object? && CanDetach(t, IndexOf(t.members, Fold(key)))
    ensures SameHead(t, PutKey(t, key, value))
  {
  }

  lemma CanonPut(t: Json, key: string, value: Json)
    requires t.Object? && DistinctKeys(t.members)
    ensures var r := PutKey(t, key, value).members;
      && DistinctKeys(r) && CanonMembers(r) == CanonMembers(t.members)[Fold(key) := Canon(value)]
      && forall m <- r :: m in t.members || m == Member(key, value)
  {
    hide CanonMembers;
    var ms := t.members;
    var w := DropKey(ms, key);
    CanonDropKey(ms, key);
    CanonAt(w, Fold(key));
    CanonAppend(w, Member(key, value));
    assert CanonMembers(ms)[Fold(key) := Canon(value)] == (CanonMembers(ms) - {Fold(key)})[Fold(key) := Canon(value)];
  }
}
