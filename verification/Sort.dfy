/**
  cJSONUtils_SortList on the `next` chain: a merge sort of the members by key, ignoring case.
 */
module Sort {
  import opened Text
  import opened Json

  // The scan for an already sorted list.
  predicate Ascending(ms: seq<Member>) {
    |ms| < 2 || (CaseCmp(ms[0].key, ms[1].key) < 0 && Ascending(ms[1..]))
  }

  function SortList(ms: seq<Member>): seq<Member>
    decreases |ms|
  {
    if |ms| < 2 || Ascending(ms) then ms
    else
      // One pointer walks twice as fast as the other, so the first half is the longer one.
      var half := (|ms| + 1) / 2;
      MergeLists(SortList(ms[..half]), SortList(ms[half..]))
  }

  function MergeLists(a: seq<Member>, b: seq<Member>): seq<Member>
    decreases |a| + |b|
  {
    if a == [] then b
    else if b == [] then a
    else if CaseCmp(a[0].key, b[0].key) < 0 then [a[0]] + MergeLists(a[1..], b)
    else [b[0]] + MergeLists(a, b[1..])
  }

  // Where the first node of the sorted list stood before.
  function HeadIndex(ms: seq<Member>): (i: nat)
    ensures ms != [] ==> i < |ms|
    decreases |ms|
  {
    if |ms| < 2 || Ascending(ms) then 0
    else
      var half := (|ms| + 1) / 2;
      var i, j := HeadIndex(ms[..half]), half + HeadIndex(ms[half..]);
      if CaseCmp(ms[i].key, ms[j].key) < 0 then i else j
  }

  // cJSONUtils_SortObject. Only the `prev` of the first node is not written, so a node that comes
  // to the front keeps the link that it had in the middle of the list.
  function SortObject(t: Json): Json
    requires t.Object?
  {
    Object(SortList(t.members), t.stale || HeadIndex(t.members) != 0)
  }

  predicate SmallestFirst(ms: seq<Member>) { forall i :: 0 < i < |ms| ==> CaseCmp(ms[0].key, ms[i].key) < 0 }

  predicate Sorted(ms: seq<Member>) {
    ms == [] || ((forall m <- ms[1..] :: CaseCmp(ms[0].key, m.key) <= 0) && Sorted(ms[1..]))
  }

  predicate StrictlySorted(ms: seq<Member>) {
    ms == [] || ((forall m <- ms[1..] :: CaseCmp(ms[0].key, m.key) < 0) && StrictlySorted(ms[1..]))
  }

  lemma CaseCmpTrans(a: string, b: string, c: string)
    requires CaseCmp(a, b) <= 0 && CaseCmp(b, c) <= 0
    ensures CaseCmp(a, c) <= 0
    ensures CaseCmp(a, b) < 0 || CaseCmp(b, c) < 0 ==> CaseCmp(a, c) < 0
  {
    StrCmpTrans(Fold(a), Fold(b), Fold(c));
  }

  // ----- a sorted permutation, for any list -----

  lemma {:induction false} AscendingIsSorted(ms: seq<Member>)
    requires Ascending(ms)
    ensures StrictlySorted(ms) && Sorted(ms)
  {
    if |ms| >= 2 {
      AscendingIsSorted(ms[1..]);
      forall m | m in ms[1..]
        ensures CaseCmp(ms[0].key, m.key) < 0
      {
        if m in ms[1..][1..] {
          CaseCmpTrans(ms[0].key, ms[1].key, m.key);
        } else {
          assert m == ms[1];
        }
      }
    }
  }

  lemma {:induction false} MergePermutes(a: seq<Member>, b: seq<Member>)
    ensures multiset(MergeLists(a, b)) == multiset(a) + multiset(b)
    decreases |a| + |b|
  {
    if a != [] && b != [] {
      if CaseCmp(a[0].key, b[0].key) < 0 {
        MergePermutes(a[1..], b);
        assert a == [a[0]] + a[1..];
      } else {
        MergePermutes(a, b[1..]);
        assert b == [b[0]] + b[1..];
      }
    }
  }

  lemma MergedMembers(a: seq<Member>, b: seq<Member>)
    ensures forall m :: m in MergeLists(a, b) <==> m in a || m in b
  {
    hide MergeLists;
    MergePermutes(a, b);
    forall m
      ensures m in MergeLists(a, b) <==> m in a || m in b
    {
      assert m in MergeLists(a, b) <==> m in multiset(MergeLists(a, b));
      assert m in a <==> m in multiset(a);
      assert m in b <==> m in multiset(b);
    }
  }

  lemma {:induction false} MergeSorted(a: seq<Member>, b: seq<Member>)
    requires Sorted(a) && Sorted(b)
    ensures Sorted(MergeLists(a, b))
    decreases |a| + |b|
  {
    if a != [] && b != [] {
      var r := MergeLists(a, b);
      if CaseCmp(a[0].key, b[0].key) < 0 {
        MergeSorted(a[1..], b);
        assert r[1..] == MergeLists(a[1..], b);
        MergedMembers(a[1..], b);
        forall m | m in r[1..] ensures CaseCmp(r[0].key, m.key) <= 0 {
          if m in b && m != b[0] {
            CaseCmpTrans(a[0].key, b[0].key, m.key);
          }
        }
      } else {
        MergeSorted(a, b[1..]);
        assert r[1..] == MergeLists(a, b[1..]);
        MergedMembers(a, b[1..]);
        CaseCmpAntisym(a[0].key, b[0].key);
        forall m | m in r[1..] ensures CaseCmp(r[0].key, m.key) <= 0 {
          if m in a && m != a[0] {
            CaseCmpTrans(b[0].key, a[0].key, m.key);
          }
        }
      }
    }
  }

  lemma {:induction false} SortListSorts(ms: seq<Member>)
    ensures Sorted(SortList(ms))
    ensures multiset(SortList(ms)) == multiset(ms)
    ensures forall m :: m in SortList(ms) <==> m in ms
    decreases |ms|
  {
    if |ms| < 2 || Ascending(ms) {
      if |ms| >= 2 {
        AscendingIsSorted(ms);
      }
    } else {
      var half := (|ms| + 1) / 2;
      assert ms == ms[..half] + ms[half..];
      SortListSorts(ms[..half]);
      SortListSorts(ms[half..]);
      MergeSorted(SortList(ms[..half]), SortList(ms[half..]));
      MergePermutes(SortList(ms[..half]), SortList(ms[half..]));
      MergedMembers(SortList(ms[..half]), SortList(ms[half..]));
    }
  }

  // ----- distinct keys: the sorted list is the only one -----

  lemma {:induction false} SortedDistinctIsStrict(ms: seq<Member>)
    requires Sorted(ms) && DistinctKeys(ms)
    ensures StrictlySorted(ms)
  {
    if ms != [] {
      forall m | m in ms[1..] ensures CaseCmp(ms[0].key, m.key) < 0 {
        var j :| 0 <= j < |ms[1..]| && ms[1..][j] == m;
        assert ms[j + 1] == m;
      }
      SortedDistinctIsStrict(ms[1..]);
    }
  }

  lemma {:induction false} StrictIsDistinct(ms: seq<Member>)
    requires StrictlySorted(ms)
    ensures DistinctKeys(ms)
  {
    if ms != [] {
      StrictIsDistinct(ms[1..]);
      forall i, j | 0 <= i < j < |ms|
        ensures Fold(ms[i].key) != Fold(ms[j].key)
      {
        assert ms[j] == ms[1..][j - 1];
        if i == 0 {
          assert ms[j] in ms[1..];
        } else {
          assert ms[i] == ms[1..][i - 1];
        }
      }
    }
  }

  lemma OccursTwice(s: seq<Member>, e: Member) returns (i: nat, j: nat)
    requires multiset(s)[e] >= 2
    ensures i < j < |s| && s[i] == s[j] == e
  {
    assert e in multiset(s);
    i :| i < |s| && s[i] == e;
    assert s == s[..i] + [e] + s[i + 1..];
    if e in s[i + 1..] {
      var k :| 0 <= k < |s[i + 1..]| && s[i + 1..][k] == e;
      j := i + 1 + k;
    } else {
      assert multiset(s[i + 1..])[e] == 0;
      assert e in multiset(s[..i]);
      var k :| 0 <= k < i && s[k] == e;
      i, j := k, i;
    }
  }

  lemma OccurTwice(s: seq<Member>, i: nat, j: nat)
    requires i < j < |s| && s[i] == s[j]
    ensures multiset(s)[s[i]] >= 2
  {
    assert s == s[..j] + [s[j]] + s[j + 1..];
    assert s[..j][i] == s[i];
    assert s[i] in multiset(s[..j]);
  }

  lemma DistinctKeysOfPermutation(ms: seq<Member>, p: seq<Member>)
    requires DistinctKeys(ms) && multiset(p) == multiset(ms)
    ensures DistinctKeys(p)
  {
    forall i, j | 0 <= i < j < |p|
      ensures Fold(p[i].key) != Fold(p[j].key)
    {
      if p[i] == p[j] {
        OccurTwice(p, i, j);
        var x, y := OccursTwice(ms, p[i]);
        assert false;
      }
      assert p[i] in multiset(p) && p[j] in multiset(p);
      assert p[i] in ms && p[j] in ms;
    }
  }

  // Sorting the members in place changes nothing that survives `Canon`.
  lemma SortKeepsCanon(ms: seq<Member>)
    requires DistinctKeys(ms)
    ensures StrictlySorted(SortList(ms)) && DistinctKeys(SortList(ms))
    ensures CanonMembers(SortList(ms)) == CanonMembers(ms)
  {
    var s := SortList(ms);
    SortListSorts(ms);
    DistinctKeysOfPermutation(ms, s);
    SortedDistinctIsStrict(s);
    forall k
      ensures k in CanonMembers(s) <==> k in CanonMembers(ms)
      ensures k in CanonMembers(s) ==> CanonMembers(s)[k] == CanonMembers(ms)[k]
    {
      CanonAt(s, k);
      CanonAt(ms, k);
      var i, j := IndexOf(s, k), IndexOf(ms, k);
      if j < |ms| {
        assert ms[j] in s;
        var i' :| 0 <= i' < |s| && s[i'] == ms[j];
        IndexOfDistinct(s, i');
      }
      if i < |s| {
        assert s[i] in ms;
        var j' :| 0 <= j' < |ms| && ms[j'] == s[i];
        IndexOfDistinct(ms, j');
      }
    }
  }

  // ----- the head of the sorted list -----

  lemma {:induction false} HeadIsAt(ms: seq<Member>)
    requires ms != []
    ensures SortList(ms) != [] && SortList(ms)[0] == ms[HeadIndex(ms)]
    decreases |ms|
  {
    if |ms| >= 2 && !Ascending(ms) {
      var half := (|ms| + 1) / 2;
      HeadIsAt(ms[..half]);
      HeadIsAt(ms[half..]);
    }
  }

  // The head stays where it is exactly if it has the smallest key.
  lemma HeadStays(ms: seq<Member>)
    requires DistinctKeys(ms)
    ensures HeadIndex(ms) == 0 <==> SmallestFirst(ms)
  {
    if ms != [] {
      var s, h := SortList(ms), HeadIndex(ms);
      HeadIsAt(ms);
      SortListSorts(ms);
      forall i | 0 <= i < |ms| && i != h
        ensures CaseCmp(ms[h].key, ms[i].key) < 0
      {
        assert ms[i] in s && Fold(ms[i].key) != Fold(ms[h].key);
        assert ms[i] in s[1..] by {
          var j :| 0 <= j < |s| && s[j] == ms[i];
          assert s[1..][j - 1] == ms[i];
        }
      }
      CaseCmpAntisym(ms[0].key, ms[h].key);
    }
  }

  lemma {:induction false} StrictIsAscending(ms: seq<Member>)
    requires StrictlySorted(ms)
    ensures Ascending(ms) && SortList(ms) == ms && HeadIndex(ms) == 0
  {
    if |ms| >= 2 {
      assert ms[1] in ms[1..];
      StrictIsAscending(ms[1..]);
    }
  }

  // Sorting once more changes nothing.
  lemma SortTwice(t: Json)
    requires t.Object? && DistinctKeys(t.members)
    ensures SortObject(SortObject(t)) == SortObject(t)
  {
    SortKeepsCanon(t.members);
    StrictIsAscending(SortList(t.members));
  }

  lemma HeadIsSmallest(ms: seq<Member>)
    requires ms != []
    ensures forall n <- ms :: CaseCmp(ms[HeadIndex(ms)].key, n.key) <= 0
  {
    hide SortList, HeadIndex;
    var s := SortList(ms);
    HeadIsAt(ms);
    SortListSorts(ms);
    forall n | n in ms ensures CaseCmp(s[0].key, n.key) <= 0 {
      assert n in s;
      assert n == s[0] || n in s[1..];
    }
  }

  lemma SmallestIs(ms: seq<Member>, m: Member)
    requires DistinctKeys(ms) && m in ms && forall n <- ms :: CaseCmp(m.key, n.key) <= 0
    ensures m == ms[HeadIndex(ms)]
  {
    hide SortList, HeadIndex;
    HeadIsSmallest(ms);
    CaseCmpAntisym(m.key, ms[HeadIndex(ms)].key);
    var i :| 0 <= i < |ms| && ms[i] == m;
  }

  lemma SortedLookup(ms: seq<Member>, k: string)
    requires DistinctKeys(ms) && HasKey(ms, k)
    ensures HasKey(SortList(ms), k) && SortList(ms)[IndexOf(SortList(ms), k)] == ms[IndexOf(ms, k)]
  {
    var s, m := SortList(ms), ms[IndexOf(ms, k)];
    SortKeepsCanon(ms);
    SortListSorts(ms);
    assert m in s;
    var i :| 0 <= i < |s| && s[i] == m;
    IndexOfDistinct(s, i);
  }

  lemma SortedTarget(to: seq<Member>, k: string)
    requires DistinctKeys(to)
    ensures HasKey(SortList(to), k) <==> HasKey(to, k)
    ensures HasKey(to, k) ==> SortList(to)[IndexOf(SortList(to), k)] == to[IndexOf(to, k)]
  {
    SortKeepsCanon(to);
    CanonAt(to, k);
    CanonAt(SortList(to), k);
    if HasKey(to, k) {
      SortedLookup(to, k);
    }
  }
}
