/**
  cJSONUtils_Compare: equality of trees, with the members of objects compared in sorted order.
 */
module Compare {
  import opened Text
  import opened Json
  import opened Sort

  // 0, or a code that says what differs.
  function Compare(a: Json, b: Json): int
    decreases a, 1, 0
  {
    if !SameKind(a, b) then -1
    else
      match a
      case Number(i, d) => if i != b.valueint || d != b.valuedouble then -2 else 0
      case String(s) => if s != b.text then -3 else 0
      case Array(items) => CompareItems(items, b.items)
      case Object(ms, _) =>
        SortListSorts(ms);
        CompareMembers(a, SortList(ms), SortList(b.members))
      case _ => 0
  }

  function CompareItems(xs: seq<Json>, ys: seq<Json>): int
    decreases xs, 0, 0
  {
    if xs == [] || ys == [] then (if xs == [] && ys == [] then 0 else -4)
    else
      var err := Compare(xs[0], ys[0]);
      if err != 0 then err else CompareItems(xs[1..], ys[1..])
  }

  function CompareMembers(ghost a: Json, xs: seq<Member>, ys: seq<Member>): int
    requires a.Object? && forall m <- xs :: m in a.members
    decreases a, 0, |xs|
  {
    if xs == [] || ys == [] then (if xs == [] && ys == [] then 0 else -5)
    else if CaseCmp(xs[0].key, ys[0].key) != 0 then -6
    else
      assert xs[0] in a.members;
      var err := Compare(xs[0].value, ys[0].value);
      if err != 0 then err else CompareMembers(a, xs[1..], ys[1..])
  }

  // What the comparison leaves of `a`: the objects that it looked into are sorted.
  function Compared(a: Json, b: Json): Json
    decreases a, 1, 0
  {
    if a.Array? && b.Array? then Array(ComparedItems(a.items, b.items))
    else if a.Object? && b.Object? then
      SortListSorts(a.members);
      var s := SortObject(a);
      s.(members := ComparedMembers(a, s.members, SortList(b.members)))
    else a
  }

  function ComparedItems(xs: seq<Json>, ys: seq<Json>): (r: seq<Json>)
    ensures |r| == |xs|
    decreases xs, 0, 0
  {
    if xs == [] || ys == [] then xs
    else
      [Compared(xs[0], ys[0])]
      + if Compare(xs[0], ys[0]) != 0 then xs[1..] else ComparedItems(xs[1..], ys[1..])
  }

  function ComparedMembers(ghost a: Json, xs: seq<Member>, ys: seq<Member>): (r: seq<Member>)
    requires a.Object? && forall m <- xs :: m in a.members
    ensures |r| == |xs|
    ensures forall i :: 0 <= i < |xs| ==> r[i].key == xs[i].key
    decreases a, 0, |xs|
  {
    if xs == [] || ys == [] || CaseCmp(xs[0].key, ys[0].key) != 0 then xs
    else
      assert xs[0] in a.members;
      [Member(xs[0].key, Compared(xs[0].value, ys[0].value))]
      + if Compare(xs[0].value, ys[0].value) != 0 then xs[1..] else ComparedMembers(a, xs[1..], ys[1..])
  }

  // A key below the first one is not in a sorted list at all.
  lemma KeyBelowIsAbsent(ms: seq<Member>, key: string)
    requires StrictlySorted(ms)
    requires ms == [] || CaseCmp(key, ms[0].key) < 0
    ensures Fold(key) !in CanonMembers(ms)
  {
    CanonAt(ms, Fold(key));
    var i := IndexOf(ms, Fold(key));
    if 0 < i < |ms| {
      assert ms[i] == ms[1..][i - 1];
      assert ms[i] in ms[1..];
      CaseCmpTrans(key, ms[0].key, ms[i].key);
      assert false;
    }
  }

  lemma HeadKeyIsAbsentFromTail(ms: seq<Member>)
    requires StrictlySorted(ms) && ms != []
    ensures Fold(ms[0].key) !in CanonMembers(ms[1..])
  {
    if |ms| > 1 {
      assert ms[1] in ms[1..];
    }
    KeyBelowIsAbsent(ms[1..], ms[0].key);
  }

  lemma {:induction false} CompareItemsDecides(xs: seq<Json>, ys: seq<Json>)
    requires forall x <- xs :: CaseDistinct(x)
    requires forall y <- ys :: CaseDistinct(y)
    ensures CompareItems(xs, ys) == 0 <==> CanonItems(xs) == CanonItems(ys)
    decreases xs, 0, 0
  {
    if xs != [] && ys != [] {
      CompareDecides(xs[0], ys[0]);
      CompareItemsDecides(xs[1..], ys[1..]);
      assert CanonItems(xs)[0] == Canon(xs[0]) && CanonItems(ys)[0] == Canon(ys[0]);
      assert CanonItems(xs)[1..] == CanonItems(xs[1..]) && CanonItems(ys)[1..] == CanonItems(ys[1..]);
    }
  }

  lemma SplitMap(fx: map<string, Val>, fy: map<string, Val>, tx: map<string, Val>, ty: map<string, Val>, k: string)
    requires k in fx && k in fy && k !in tx && k !in ty
    requires fx == tx[k := fx[k]] && fy == ty[k := fy[k]]
    ensures fx == fy <==> fx[k] == fy[k] && tx == ty
  {
    assert fx - {k} == tx && fy - {k} == ty;
  }

  lemma {:induction false} CompareMembersDecides(a: Json, xs: seq<Member>, ys: seq<Member>)
    requires a.Object? && forall m <- xs :: m in a.members && CaseDistinct(m.value)
    requires forall m <- ys :: CaseDistinct(m.value)
    requires StrictlySorted(xs) && StrictlySorted(ys)
    ensures CompareMembers(a, xs, ys) == 0 <==> CanonMembers(xs) == CanonMembers(ys)
    decreases a, 0, |xs|
  {
    if xs == [] || ys == [] {
      assert xs != [] ==> Fold(xs[0].key) in CanonMembers(xs);
      assert ys != [] ==> Fold(ys[0].key) in CanonMembers(ys);
    } else {
      var fx, fy := CanonMembers(xs), CanonMembers(ys);
      var tx, ty := CanonMembers(xs[1..]), CanonMembers(ys[1..]);
      var kx, ky := Fold(xs[0].key), Fold(ys[0].key);
      if kx != ky {
        CaseCmpAntisym(xs[0].key, ys[0].key);
        if CaseCmp(xs[0].key, ys[0].key) < 0 {
          KeyBelowIsAbsent(ys, xs[0].key);
          assert kx in fx;
        } else {
          KeyBelowIsAbsent(xs, ys[0].key);
          assert ky in fy;
        }
      } else {
        assert xs[0] in a.members;
        CompareDecides(xs[0].value, ys[0].value);
        CompareMembersDecides(a, xs[1..], ys[1..]);
        HeadKeyIsAbsentFromTail(xs);
        HeadKeyIsAbsentFromTail(ys);
        assert fx[kx] == Canon(xs[0].value) && fy[kx] == Canon(ys[0].value);
        SplitMap(fx, fy, tx, ty, kx);
      }
    }
  }

  // Compare returns 0 exactly for trees that are equal as nested maps and sequences.
  lemma {:induction false} CompareDecides(a: Json, b: Json)
    requires CaseDistinct(a) && CaseDistinct(b)
    ensures Compare(a, b) == 0 <==> Canon(a) == Canon(b)
    decreases a, 1, 0
  {
    if SameKind(a, b) {
      match a
      case Array(items) => CompareItemsDecides(items, b.items);
      case Object(ms, _) =>
        SortListSorts(ms);
        SortListSorts(b.members);
        SortKeepsCanon(ms);
        SortKeepsCanon(b.members);
        CompareMembersDecides(a, SortList(ms), SortList(b.members));
      case _ =>
    } else if Canon(a) == Canon(b) {
      SameCanonSameKind(a, b);
    }
  }

  // ----- the comparison does not change the value -----

  lemma {:induction false} ComparedKeepsItems(xs: seq<Json>, ys: seq<Json>)
    requires forall x <- xs :: CaseDistinct(x)
    ensures CanonItems(ComparedItems(xs, ys)) == CanonItems(xs)
    ensures forall x <- ComparedItems(xs, ys) :: CaseDistinct(x)
    decreases xs, 0, 0
  {
    if xs != [] && ys != [] {
      ComparedKeeps(xs[0], ys[0]);
      ComparedKeepsItems(xs[1..], ys[1..]);
    }
  }

  lemma {:induction false} ComparedKeepsMembers(a: Json, xs: seq<Member>, ys: seq<Member>)
    requires a.Object? && forall m <- xs :: m in a.members && CaseDistinct(m.value)
    ensures CanonMembers(ComparedMembers(a, xs, ys)) == CanonMembers(xs)
    ensures forall m <- ComparedMembers(a, xs, ys) :: CaseDistinct(m.value)
    decreases a, 0, |xs|
  {
    if xs != [] && ys != [] && CaseCmp(xs[0].key, ys[0].key) == 0 {
      assert xs[0] in a.members;
      ComparedKeeps(xs[0].value, ys[0].value);
      ComparedKeepsMembers(a, xs[1..], ys[1..]);
    }
  }

  lemma {:induction false} ComparedKeeps(a: Json, b: Json)
    requires CaseDistinct(a)
    ensures Canon(Compared(a, b)) == Canon(a) && CaseDistinct(Compared(a, b))
    decreases a, 1, 0
  {
    if a.Array? && b.Array? {
      ComparedKeepsItems(a.items, b.items);
    } else if a.Object? && b.Object? {
      var s := SortList(a.members);
      SortListSorts(a.members);
      SortKeepsCanon(a.members);
      ComparedKeepsMembers(a, s, SortList(b.members));
      SameKeysDistinct(s, ComparedMembers(a, s, SortList(b.members)));
    }
  }
}
