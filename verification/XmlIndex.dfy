/**
  Mini-XML's index: the matching nodes of a tree, sorted by quicksort in place and searched by a
  modified binary search with a cursor.
 */
module XmlIndex {
  import opened Text
  import opened XmlTree
  import opened XmlSearch

  // ----- the order of the nodes -----

  // A node may stand in an index over `attr`: it is an element and has that attribute.
  predicate Indexable(n: Node, attr: Option<string>) {
    n.value.Element? && (attr.Some? ==> GetAttr(n.value, attr.value).Some?)
  }

  function ValueOf(n: Node, attr: Option<string>): string
    requires Indexable(n, attr)
  {
    if attr.Some? then GetAttr(n.value, attr.value).value else ""
  }

  // `index_compare`
  function Compare(a: Node, b: Node, attr: Option<string>): int
    requires Indexable(a, attr) && Indexable(b, attr)
  {
    var diff := StrCmp(a.value.name, b.value.name);
    if diff != 0 then diff
    else if attr.Some? then StrCmp(ValueOf(a, attr), ValueOf(b, attr))
    else 0
  }

  // `index_find`
  function CompareTo(element: Option<string>, value: Option<string>, n: Node, attr: Option<string>): int
    requires Indexable(n, attr) && (value.Some? ==> attr.Some?)
  {
    var diff := if element.Some? then StrCmp(element.value, n.value.name) else 0;
    if diff != 0 then diff
    else if value.Some? then StrCmp(value.value, ValueOf(n, attr))
    else 0
  }

  predicate Le(a: Node, b: Node, attr: Option<string>) {
    Indexable(a, attr) && Indexable(b, attr) && Compare(a, b, attr) <= 0
  }

  lemma LeRefl(a: Node, attr: Option<string>)
    requires Indexable(a, attr)
    ensures Le(a, a, attr)
  {
  }

  lemma LeTotal(a: Node, b: Node, attr: Option<string>)
    requires Indexable(a, attr) && Indexable(b, attr)
    ensures Compare(a, b, attr) > 0 ==> Le(b, a, attr)
    ensures Compare(a, b, attr) >= 0 ==> Le(b, a, attr)
  {
    StrCmpAntisym(a.value.name, b.value.name);
    if attr.Some? {
      StrCmpAntisym(ValueOf(a, attr), ValueOf(b, attr));
    }
  }

  lemma LeTrans(a: Node, b: Node, c: Node, attr: Option<string>)
    requires Le(a, b, attr) && Le(b, c, attr)
    ensures Le(a, c, attr)
  {
    StrCmpTrans(a.value.name, b.value.name, c.value.name);
    if attr.Some? && a.value.name == b.value.name == c.value.name {
      StrCmpTrans(ValueOf(a, attr), ValueOf(b, attr), ValueOf(c, attr));
    }
  }

  predicate AllIndexable(s: seq<Node>, attr: Option<string>) { forall n <- s :: Indexable(n, attr) }

  ghost predicate Sorted(s: seq<Node>, attr: Option<string>) {
    forall i, j :: 0 <= i < j < |s| ==> Le(s[i], s[j], attr)
  }

  // ----- quicksort -----

  // The same nodes in another order, the same ones at the same places outside [lo, hi).
  ghost predicate Rearranged(s: seq<Node>, t: seq<Node>, lo: nat, hi: nat) {
    && lo <= hi <= |s| == |t|
    && multiset(s) == multiset(t) && multiset(s[lo..hi]) == multiset(t[lo..hi])
    && s[..lo] == t[..lo] && s[hi..] == t[hi..]
  }

  lemma SwapRearranges(s: seq<Node>, i: nat, j: nat, lo: nat, hi: nat)
    requires lo <= i < hi <= |s| && lo <= j < hi
    ensures Rearranged(s, s[i := s[j]][j := s[i]], lo, hi)
  {
    var t := s[i := s[j]][j := s[i]];
    assert t[lo..hi] == s[lo..hi][i - lo := s[j]][j - lo := s[i]];
  }

  lemma RearrangedTwice(s: seq<Node>, t: seq<Node>, u: seq<Node>, lo: nat, hi: nat)
    requires Rearranged(s, t, lo, hi) && Rearranged(t, u, lo, hi)
    ensures Rearranged(s, u, lo, hi)
  {
  }

  // A rearranged part is a rearrangement of the whole.
  lemma RearrangedWider(s: seq<Node>, t: seq<Node>, lo: nat, hi: nat, lo': nat, hi': nat)
    requires Rearranged(s, t, lo, hi) && lo' <= lo && hi <= hi' <= |s|
    ensures Rearranged(s, t, lo', hi')
  {
    assert s[lo'..hi'] == s[lo'..lo] + s[lo..hi] + s[hi..hi'];
    assert t[lo'..hi'] == t[lo'..lo] + t[lo..hi] + t[hi..hi'];
    assert s[lo'..lo] == s[..lo][lo'..] && t[lo'..lo] == t[..lo][lo'..];
    assert s[hi..hi'] == s[hi..][..hi' - hi] && t[hi..hi'] == t[hi..][..hi' - hi];
    assert s[..lo'] == s[..lo][..lo'] && t[..lo'] == t[..lo][..lo'];
    assert s[hi'..] == s[hi..][hi' - hi..] && t[hi'..] == t[hi..][hi' - hi..];
  }

  lemma RearrangedElement(s: seq<Node>, t: seq<Node>, lo: nat, hi: nat, k: nat) returns (j: nat)
    requires Rearranged(s, t, lo, hi) && lo <= k < hi
    ensures lo <= j < hi && t[k] == s[j]
  {
    assert t[k] == t[lo..hi][k - lo];
    assert t[k] in multiset(t[lo..hi]);
    assert t[k] in s[lo..hi];
    var i :| 0 <= i < hi - lo && s[lo..hi][i] == t[k];
    j := lo + i;
  }

  // Every node of [lo, hi) comes before (or with) every node of [hi, end).
  ghost predicate Below(s: seq<Node>, lo: nat, hi: nat, end: nat, attr: Option<string>) {
    lo <= hi <= end <= |s| && forall i, j :: lo <= i < hi <= j < end ==> Le(s[i], s[j], attr)
  }

  lemma BelowRearranged(s: seq<Node>, t: seq<Node>, lo: nat, hi: nat, end: nat, a: nat, b: nat, attr: Option<string>)
    requires Below(s, lo, hi, end, attr) && Rearranged(s, t, a, b)
    requires (lo <= a && b <= hi) || (hi <= a && b <= end)
    ensures Below(t, lo, hi, end, attr)
  {
    forall i, j | lo <= i < hi <= j < end
      ensures Le(t[i], t[j], attr)
    {
      var i', j' := i, j;
      if a <= i < b {
        i' := RearrangedElement(s, t, a, b, i);
      } else {
        SameOutside(s, t, a, b, i);
      }
      if a <= j < b {
        j' := RearrangedElement(s, t, a, b, j);
      } else {
        SameOutside(s, t, a, b, j);
      }
      assert Le(s[i'], s[j'], attr);
    }
  }

  lemma SameOutside(s: seq<Node>, t: seq<Node>, lo: nat, hi: nat, i: nat)
    requires Rearranged(s, t, lo, hi) && i < |s| && !(lo <= i < hi)
    ensures s[i] == t[i]
  {
    if i < lo {
      assert s[i] == s[..lo][i] && t[i] == t[..lo][i];
    } else {
      assert s[i] == s[hi..][i - hi] && t[i] == t[hi..][i - hi];
    }
  }

  // After the pivot, which is in front, come the nodes up to `mid`, none greater than it, and then
  // the greater ones.
  ghost predicate Parted(s: seq<Node>, left: nat, mid: nat, right: nat, pivot: Node, attr: Option<string>) {
    && left <= mid <= right < |s| && s[left] == pivot
    && (forall k :: left <= k <= mid ==> Le(s[k], pivot, attr))
    && (forall k :: mid < k <= right ==> Le(pivot, s[k], attr))
  }

  // Move right while the node is not greater than the pivot.
  method ScanUp(a: array<Node>, attr: Option<string>, from: nat, right: nat, pivot: Node) returns (templ: nat)
    requires from < right < a.Length && AllIndexable(a[..], attr) && Le(a[from], pivot, attr)
    ensures from < templ <= right && forall k :: from <= k < templ ==> Le(a[k], pivot, attr)
    ensures templ < right ==> !Le(a[templ], pivot, attr)
  {
    templ := from;
    while templ < right && Compare(a[templ], pivot, attr) <= 0
      invariant from <= templ <= right && (templ == from ==> Le(a[templ], pivot, attr))
      invariant forall k :: from <= k < templ ==> Le(a[k], pivot, attr)
    {
      templ := templ + 1;
    }
  }

  // Move left while the node is greater than the pivot.
  method ScanDown(a: array<Node>, attr: Option<string>, left: nat, from: nat, pivot: Node) returns (tempr: nat)
    requires left <= from < a.Length && AllIndexable(a[..], attr) && Indexable(pivot, attr)
    ensures left <= tempr <= from && forall k :: tempr < k <= from ==> Le(pivot, a[k], attr)
    ensures tempr > left ==> Le(a[tempr], pivot, attr)
  {
    tempr := from;
    while tempr > left && Compare(a[tempr], pivot, attr) > 0
      invariant left <= tempr <= from
      invariant forall k :: tempr < k <= from ==> Le(pivot, a[k], attr)
    {
      LeTotal(a[tempr], pivot, attr);
      tempr := tempr - 1;
    }
  }

  // The state of the two scans: what is left of `templ` is not greater than the pivot, what is
  // right of `tempr` is not smaller.
  ghost predicate Scanned(s: seq<Node>, left: nat, templ: nat, tempr: nat, right: nat, pivot: Node,
                          attr: Option<string>) {
    && left <= templ <= right < |s| && left <= tempr <= right
    && s[left] == pivot && (templ == left ==> tempr == right)
    && (forall k :: left <= k < templ ==> Le(s[k], pivot, attr))
    && (forall k :: tempr < k <= right ==> Le(pivot, s[k], attr))
    && (if templ < tempr then Le(s[templ], pivot, attr) else Le(s[tempr], pivot, attr))
  }

  lemma ScanStep(s: seq<Node>, left: nat, from: nat, to: nat, templ: nat, tempr: nat, right: nat, pivot: Node,
                 attr: Option<string>)
    requires Scanned(s, left, from, to, right, pivot, attr) && from < templ <= right && left <= tempr <= to
    requires forall k :: from <= k < templ ==> Le(s[k], pivot, attr)
    requires forall k :: tempr < k <= to ==> Le(pivot, s[k], attr)
    requires tempr > left ==> Le(s[tempr], pivot, attr)
    requires templ < right ==> !Le(s[templ], pivot, attr)
    requires Indexable(pivot, attr) && AllIndexable(s, attr)
    ensures templ >= tempr ==> Scanned(s, left, templ, tempr, right, pivot, attr)
    ensures templ < tempr ==> Scanned(s[templ := s[tempr]][tempr := s[templ]], left, templ, tempr, right, pivot, attr)
  {
    hide Compare, Indexable, GetAttr;
    LeRefl(pivot, attr);
  }

  lemma ScanBegins(s: seq<Node>, left: nat, right: nat, attr: Option<string>)
    requires left < right < |s| && AllIndexable(s, attr)
    ensures Scanned(s, left, left, right, right, s[left], attr) && Indexable(s[left], attr)
  {
    LeRefl(s[left], attr);
  }

  lemma ScanEnds(s: seq<Node>, left: nat, templ: nat, tempr: nat, right: nat, pivot: Node, attr: Option<string>)
    requires Scanned(s, left, templ, tempr, right, pivot, attr) && templ >= tempr
    ensures Parted(s, left, tempr, right, pivot, attr)
  {
    hide Le;
  }

  lemma Swapped(s: seq<Node>, t: seq<Node>, u: seq<Node>, i: nat, j: nat, lo: nat, hi: nat, attr: Option<string>)
    requires Rearranged(s, t, lo, hi) && lo <= i < hi && lo <= j < hi && u == t[i := t[j]][j := t[i]]
    requires AllIndexable(t, attr)
    ensures Rearranged(s, u, lo, hi) && AllIndexable(u, attr)
  {
    SwapRearranges(t, i, j, lo, hi);
    RearrangedTwice(s, t, u, lo, hi);
  }

  lemma ScanInside(s: seq<Node>, left: nat, templ: nat, tempr: nat, right: nat, pivot: Node, attr: Option<string>)
    requires Scanned(s, left, templ, tempr, right, pivot, attr)
    ensures left <= templ <= right < |s| && left <= tempr <= right
    ensures templ < tempr ==> templ < right && Le(s[templ], pivot, attr)
  {
  }

  lemma SameNodes(s: seq<Node>, lo: nat, hi: nat)
    requires lo <= hi <= |s|
    ensures Rearranged(s, s, lo, hi)
  {
  }

  // The two scans of `index_sort` move towards each other and swap what they stop at.
  method Scans(a: array<Node>, attr: Option<string>, left: nat, right: nat) returns (mid: nat)
    requires left < right < a.Length && AllIndexable(a[..], attr)
    modifies a
    ensures Rearranged(old(a[..]), a[..], left, right + 1) && AllIndexable(a[..], attr)
    ensures Parted(a[..], left, mid, right, old(a[left]), attr)
  {
    hide *;
    var pivot := a[left];
    var templ, tempr := left, right;
    ScanBegins(a[..], left, right, attr);
    SameNodes(a[..], left, right + 1);
    while templ < tempr
      invariant left <= templ <= right && left <= tempr <= right
      invariant Rearranged(old(a[..]), a[..], left, right + 1) && AllIndexable(a[..], attr)
      invariant Scanned(a[..], left, templ, tempr, right, pivot, attr)
      decreases tempr - templ
    {
      ScanInside(a[..], left, templ, tempr, right, pivot, attr);
      ghost var from, to := templ, tempr;
      templ := ScanUp(a, attr, templ, right, pivot);
      tempr := ScanDown(a, attr, left, tempr, pivot);
      ghost var before := a[..];
      ScanStep(before, left, from, to, templ, tempr, right, pivot, attr);
      if templ < tempr {
        a[templ], a[tempr] := a[tempr], a[templ];
        assert a[..] == before[templ := before[tempr]][tempr := before[templ]];
        Swapped(old(a[..]), before, a[..], templ, tempr, left, right + 1, attr);
      }
    }
    ScanEnds(a[..], left, templ, tempr, right, pivot, attr);
    mid := tempr;
  }

  // Nothing greater than the node at `mid` is in front of it, nothing smaller behind it.
  ghost predicate Split(s: seq<Node>, left: nat, mid: nat, right: nat, attr: Option<string>) {
    && left <= mid <= right < |s|
    && (forall k :: left <= k <= mid ==> Le(s[k], s[mid], attr))
    && (forall k :: mid <= k <= right ==> Le(s[mid], s[k], attr))
  }

  lemma PartedSplit(s: seq<Node>, left: nat, mid: nat, right: nat, pivot: Node, attr: Option<string>)
    requires Parted(s, left, mid, right, pivot, attr) && Indexable(pivot, attr) && AllIndexable(s, attr)
    ensures Compare(pivot, s[mid], attr) <= 0 ==> Split(s, left, mid, right, attr)
    ensures Compare(pivot, s[mid], attr) > 0 ==> Split(s[left := s[mid]][mid := pivot], left, mid, right, attr)
  {
    LeRefl(pivot, attr);
    if Compare(pivot, s[mid], attr) <= 0 {
      assert Le(pivot, s[mid], attr) && Le(s[mid], pivot, attr);
      hide Compare, Indexable, GetAttr, Le;
      forall k | left <= k <= mid
        ensures Le(s[k], s[mid], attr)
      {
        LeTrans(s[k], pivot, s[mid], attr);
      }
      forall k | mid <= k <= right
        ensures Le(s[mid], s[k], attr)
      {
        if k > mid {
          LeTrans(s[mid], pivot, s[k], attr);
        }
      }
    }
  }

  lemma EachIndexable(s: seq<Node>, k: nat, attr: Option<string>)
    requires k < |s| && AllIndexable(s, attr)
    ensures Indexable(s[k], attr)
  {
  }

  lemma PartedInside(s: seq<Node>, left: nat, mid: nat, right: nat, pivot: Node, attr: Option<string>)
    requires Parted(s, left, mid, right, pivot, attr)
    ensures left <= mid <= right < |s| && s[left] == pivot
  {
  }

  // The pass of `index_sort` over the range from `left` to `right`.
  method Partition(a: array<Node>, attr: Option<string>, left: nat, right: nat) returns (mid: nat)
    requires left < right < a.Length && AllIndexable(a[..], attr)
    modifies a
    ensures Rearranged(old(a[..]), a[..], left, right + 1) && AllIndexable(a[..], attr)
    ensures left <= mid <= right && Split(a[..], left, mid, right, attr)
  {
    hide *;
    var pivot := a[left];
    EachIndexable(a[..], left, attr);
    mid := Scans(a, attr, left, right);
    ghost var before := a[..];
    PartedInside(before, left, mid, right, pivot, attr);
    EachIndexable(before, mid, attr);
    PartedSplit(before, left, mid, right, pivot, attr);
    if Compare(pivot, a[mid], attr) > 0 {
      a[left] := a[mid];
      a[mid] := pivot;
      assert a[..] == before[left := before[mid]][mid := before[left]];
      Swapped(old(a[..]), before, a[..], left, mid, left, right + 1, attr);
    }
  }

  ghost predicate SortedRange(s: seq<Node>, lo: nat, hi: nat, attr: Option<string>) {
    lo <= hi <= |s| && forall i, j :: lo <= i < j < hi ==> Le(s[i], s[j], attr)
  }

  lemma SplitRearranged(s: seq<Node>, t: seq<Node>, left: nat, mid: nat, right: nat, attr: Option<string>)
    requires Split(s, left, mid, right, attr) && Rearranged(s, t, left, mid)
    ensures Split(t, left, mid, right, attr)
  {
    hide Le;
    forall k | mid <= k <= right
      ensures t[k] == s[k]
    {
      SameOutside(s, t, left, mid, k);
    }
    forall k | left <= k < mid
      ensures Le(t[k], t[mid], attr)
    {
      var j := RearrangedElement(s, t, left, mid, k);
    }
  }

  lemma SortedRearranged(s: seq<Node>, t: seq<Node>, first: nat, left: nat, hi: nat, attr: Option<string>)
    requires SortedRange(s, first, left, attr) && Rearranged(s, t, left, hi)
    ensures SortedRange(t, first, left, attr)
  {
    hide Le;
    forall k | first <= k < left
      ensures t[k] == s[k]
    {
      SameOutside(s, t, left, hi, k);
    }
  }

  // The range up to `mid` is sorted once its part in front of the pivot is.
  lemma SortStep(s: seq<Node>, first: nat, left: nat, mid: nat, right: nat, attr: Option<string>)
    requires SortedRange(s, first, left, attr) && Below(s, first, left, right + 1, attr)
    requires Split(s, left, mid, right, attr) && SortedRange(s, left, mid, attr)
    ensures SortedRange(s, first, mid + 1, attr) && Below(s, first, mid + 1, right + 1, attr)
  {
    hide Le;
    forall i, j | first <= i < j < mid + 1
      ensures Le(s[i], s[j], attr)
    {
      if left <= i && j == mid {
        assert Le(s[i], s[mid], attr);
      }
    }
    forall i, j | first <= i < mid + 1 <= j < right + 1
      ensures Le(s[i], s[j], attr)
    {
      if left <= i {
        LeTrans(s[i], s[mid], s[j], attr);
      }
    }
  }

  lemma SortBegins(s: seq<Node>, first: nat, right: nat, attr: Option<string>)
    requires first <= right < |s|
    ensures SortedRange(s, first, first, attr) && Below(s, first, first, right + 1, attr)
  {
  }

  lemma SortEnds(s: seq<Node>, first: nat, left: nat, right: nat, attr: Option<string>)
    requires SortedRange(s, first, left, attr) && Below(s, first, left, right + 1, attr) && right <= left <= right + 1
    ensures SortedRange(s, first, right + 1, attr)
  {
    hide Le;
  }

  lemma ShortIsSorted(s: seq<Node>, lo: nat, hi: nat, attr: Option<string>)
    requires lo <= hi <= |s| && hi <= lo + 1
    ensures SortedRange(s, lo, hi, attr)
  {
  }

  lemma SplitInside(s: seq<Node>, left: nat, mid: nat, right: nat, attr: Option<string>)
    requires Split(s, left, mid, right, attr)
    ensures left <= mid <= right < |s|
  {
  }

  // One turn of the loop of `index_sort`: `s` before it, `t` after the pass, `u` after the left part
  // has been sorted.
  lemma TurnSorts(s: seq<Node>, t: seq<Node>, u: seq<Node>, first: nat, left: nat, mid: nat, right: nat,
                  attr: Option<string>)
    requires SortedRange(s, first, left, attr) && Below(s, first, left, right + 1, attr)
    requires first <= left <= mid <= right < |s| == |t| == |u|
    requires Rearranged(s, t, left, right + 1) && Split(t, left, mid, right, attr)
    requires Rearranged(t, u, left, mid) && SortedRange(u, left, mid, attr)
    ensures SortedRange(u, first, mid + 1, attr) && Below(u, first, mid + 1, right + 1, attr)
    ensures Rearranged(s, u, left, right + 1)
  {
    hide *;
    SortedRearranged(s, t, first, left, right + 1, attr);
    SortedRearranged(t, u, first, left, mid, attr);
    BelowRearranged(s, t, first, left, right + 1, left, right + 1, attr);
    BelowRearranged(t, u, first, left, right + 1, left, mid, attr);
    SplitRearranged(t, u, left, mid, right, attr);
    SortStep(u, first, left, mid, right, attr);
    RearrangedWider(t, u, left, mid, left, right + 1);
    RearrangedTwice(s, t, u, left, right + 1);
  }

  // One turn of the loop of `index_sort`: partition, and sort what is in front of the pivot.
  method SortTurn(a: array<Node>, attr: Option<string>, ghost first: nat, left: nat, right: nat) returns (next: nat)
    requires first <= left < right < a.Length && AllIndexable(a[..], attr)
    requires SortedRange(a[..], first, left, attr) && Below(a[..], first, left, right + 1, attr)
    modifies a
    ensures left < next <= right + 1 && AllIndexable(a[..], attr)
    ensures Rearranged(old(a[..]), a[..], first, right + 1)
    ensures SortedRange(a[..], first, next, attr) && Below(a[..], first, next, right + 1, attr)
    decreases right - left, 0
  {
    hide *;
    ghost var s := a[..];
    var mid := Partition(a, attr, left, right);
    ghost var t := a[..];
    SplitInside(t, left, mid, right, attr);
    if left + 1 < mid {
      IndexSort(a, attr, left, mid - 1);
    } else {
      ShortIsSorted(t, left, mid, attr);
      SameNodes(t, left, mid);
    }
    TurnSorts(s, t, a[..], first, left, mid, right, attr);
    RearrangedWider(s, a[..], left, right + 1, first, right + 1);
    next := mid + 1;
  }

  // `index_sort`
  method IndexSort(a: array<Node>, attr: Option<string>, first: nat, right: nat)
    requires first < right < a.Length && AllIndexable(a[..], attr)
    modifies a
    ensures Rearranged(old(a[..]), a[..], first, right + 1) && AllIndexable(a[..], attr)
    ensures SortedRange(a[..], first, right + 1, attr)
    decreases right - first, 1
  {
    hide *;
    var left := first;
    ghost var start := a[..];
    SortBegins(start, first, right, attr);
    SameNodes(start, first, right + 1);
    while right > left
      invariant first <= left <= right + 1
      invariant Rearranged(start, a[..], first, right + 1) && AllIndexable(a[..], attr)
      invariant SortedRange(a[..], first, left, attr) && Below(a[..], first, left, right + 1, attr)
      decreases right + 1 - left
    {
      ghost var s := a[..];
      left := SortTurn(a, attr, first, left, right);
      RearrangedTwice(start, s, a[..], first, right + 1);
    }
    SortEnds(a[..], first, left, right, attr);
  }

  // ----- the binary search -----

  predicate Searches(c: seq<Node>, element: Option<string>, value: Option<string>, attr: Option<string>) {
    AllIndexable(c, attr) && (value.Some? ==> attr.Some?)
  }

  predicate Hit(c: seq<Node>, k: nat, element: Option<string>, value: Option<string>, attr: Option<string>)
    requires k < |c| && Searches(c, element, value, attr)
  {
    CompareTo(element, value, c[k], attr) == 0
  }

  // The nodes from `k` to `j` all match.
  ghost predicate InRun(c: seq<Node>, k: nat, j: nat, element: Option<string>, value: Option<string>,
                        attr: Option<string>)
    requires Searches(c, element, value, attr)
  {
    k <= j < |c| && forall m: nat | k <= m <= j :: Hit(c, m, element, value, attr)
  }

  // From a match back to the first one in a row.
  function Back(c: seq<Node>, current: nat, element: Option<string>, value: Option<string>,
                attr: Option<string>): (k: nat)
    requires current < |c| && Searches(c, element, value, attr)
    ensures k <= current
  {
    if current > 0 && Hit(c, current - 1, element, value, attr) then Back(c, current - 1, element, value, attr)
    else current
  }

  // The first match from `current` to `last`, or the length of the list.
  function Scan(c: seq<Node>, current: nat, last: nat, element: Option<string>, value: Option<string>,
                attr: Option<string>): (k: nat)
    requires current <= last + 1 <= |c| && Searches(c, element, value, attr)
    ensures k <= |c|
    decreases last + 1 - current
  {
    if current > last then |c|
    else if Hit(c, current, element, value, attr) then current
    else Scan(c, current + 1, last, element, value, attr)
  }

  // What the search between `first` and `last` finds.
  function Search(c: seq<Node>, first: nat, last: nat, element: Option<string>, value: Option<string>,
                  attr: Option<string>): (k: nat)
    requires first <= last < |c| && Searches(c, element, value, attr)
    ensures k <= |c|
    decreases last - first
  {
    if last - first <= 1 then Scan(c, first, last, element, value, attr)
    else
      var current := (first + last) / 2;
      var diff := CompareTo(element, value, c[current], attr);
      if diff == 0 then Back(c, current, element, value, attr)
      else if diff < 0 then Search(c, first, current, element, value, attr)
      else Search(c, current, last, element, value, attr)
  }

  // The list is ordered as the search sees it.
  predicate Ordered(c: seq<Node>, element: Option<string>, value: Option<string>, attr: Option<string>)
    requires Searches(c, element, value, attr)
  {
    forall i, j :: 0 <= i < j < |c| ==>
      && (CompareTo(element, value, c[i], attr) <= 0 ==> CompareTo(element, value, c[j], attr) <= 0)
      && (CompareTo(element, value, c[i], attr) < 0 ==> CompareTo(element, value, c[j], attr) < 0)
  }

  // `k` is the first match.
  ghost predicate IsFirst(c: seq<Node>, k: nat, element: Option<string>, value: Option<string>, attr: Option<string>)
    requires Searches(c, element, value, attr)
  {
    && k <= |c| && (k < |c| ==> Hit(c, k, element, value, attr))
    && forall j: nat | j < k && j < |c| :: !Hit(c, j, element, value, attr)
  }

  lemma {:induction false} ScanIs(c: seq<Node>, current: nat, last: nat, element: Option<string>, value: Option<string>,
                                  attr: Option<string>)
    requires current <= last + 1 <= |c| && Searches(c, element, value, attr)
    ensures
      var k := Scan(c, current, last, element, value, attr);
      && (k < |c| ==> current <= k <= last && Hit(c, k, element, value, attr))
      && forall j: nat | current <= j < k && j <= last :: !Hit(c, j, element, value, attr)
    decreases last + 1 - current
  {
    if current <= last && !Hit(c, current, element, value, attr) {
      ScanIs(c, current + 1, last, element, value, attr);
    }
  }

  lemma {:induction false} BackIs(c: seq<Node>, current: nat, element: Option<string>, value: Option<string>,
                                  attr: Option<string>)
    requires current < |c| && Searches(c, element, value, attr) && Hit(c, current, element, value, attr)
    ensures
      var k := Back(c, current, element, value, attr);
      && Hit(c, k, element, value, attr) && (k > 0 ==> !Hit(c, k - 1, element, value, attr))
      && InRun(c, k, current, element, value, attr)
  {
    if current > 0 && Hit(c, current - 1, element, value, attr) {
      BackIs(c, current - 1, element, value, attr);
    }
  }

  /** In an ordered list the binary search finds the first match. */
  lemma {:induction false} SearchIsFirst(c: seq<Node>, first: nat, last: nat, element: Option<string>,
                                         value: Option<string>, attr: Option<string>)
    requires first <= last < |c| && Searches(c, element, value, attr) && Ordered(c, element, value, attr)
    requires forall j: nat | j < first :: CompareTo(element, value, c[j], attr) > 0
    requires forall j: nat | last < j < |c| :: CompareTo(element, value, c[j], attr) < 0
    ensures IsFirst(c, Search(c, first, last, element, value, attr), element, value, attr)
    decreases last - first
  {
    if last - first <= 1 {
      ScanIs(c, first, last, element, value, attr);
    } else {
      var current := (first + last) / 2;
      var diff := CompareTo(element, value, c[current], attr);
      if diff == 0 {
        BackIs(c, current, element, value, attr);
        var k := Back(c, current, element, value, attr);
        forall j: nat | j < k
          ensures !Hit(c, j, element, value, attr)
        {
          if j < k - 1 {
            assert CompareTo(element, value, c[k - 1], attr) > 0;
          }
        }
      } else if diff < 0 {
        SearchIsFirst(c, first, current, element, value, attr);
      } else {
        SearchIsFirst(c, current, last, element, value, attr);
      }
    }
  }

  /** With an element name, the sort order is the order the search needs. */
  lemma NamedIsOrdered(c: seq<Node>, element: Option<string>, value: Option<string>, attr: Option<string>)
    requires Searches(c, element, value, attr) && Sorted(c, attr) && element.Some?
    ensures Ordered(c, element, value, attr)
  {
    forall i, j | 0 <= i < j < |c|
      ensures CompareTo(element, value, c[i], attr) <= 0 ==> CompareTo(element, value, c[j], attr) <= 0
      ensures CompareTo(element, value, c[i], attr) < 0 ==> CompareTo(element, value, c[j], attr) < 0
    {
      CompareToMonotone(c[i], c[j], element, value, attr);
    }
  }

  lemma CompareToMonotone(a: Node, b: Node, element: Option<string>, value: Option<string>, attr: Option<string>)
    requires Le(a, b, attr) && (value.Some? ==> attr.Some?) && element.Some?
    ensures CompareTo(element, value, a, attr) <= 0 ==> CompareTo(element, value, b, attr) <= 0
    ensures CompareTo(element, value, a, attr) < 0 ==> CompareTo(element, value, b, attr) < 0
  {
    if StrCmp(element.value, a.value.name) <= 0 {
      StrCmpTrans(element.value, a.value.name, b.value.name);
    }
    if value.Some? && a.value.name == b.value.name && StrCmp(value.value, ValueOf(a, attr)) <= 0 {
      StrCmpTrans(value.value, ValueOf(a, attr), ValueOf(b, attr));
    }
  }

  // ----- the index -----

  // The binary search of `mxmlIndexFind`.
  method FindFirst(nodes: array<Node>, numNodes: nat, element: Option<string>, value: Option<string>,
                   attr: Option<string>)
    returns (k: nat)
    requires 0 < numNodes <= nodes.Length && Searches(nodes[..numNodes], element, value, attr)
    ensures k == Search(nodes[..numNodes], 0, numNodes - 1, element, value, attr)
  {
    hide CompareTo, Indexable;
    ghost var c := nodes[..numNodes];
    var first, last := 0, numNodes - 1;
    while last - first > 1
      invariant 0 <= first <= last < numNodes
      invariant Search(c, first, last, element, value, attr) == Search(c, 0, numNodes - 1, element, value, attr)
      decreases last - first
    {
      var current := (first + last) / 2;
      assert c[current] == nodes[current];
      var diff := CompareTo(element, value, nodes[current], attr);
      if diff == 0 {
        k := MoveBack(nodes, numNodes, current, element, value, attr);
        return;
      } else if diff < 0 {
        last := current;
      } else {
        first := current;
      }
    }
    k := ScanBetween(nodes, numNodes, first, last, element, value, attr);
  }

  method MoveBack(nodes: array<Node>, numNodes: nat, start: nat, element: Option<string>, value: Option<string>,
                  attr: Option<string>)
    returns (current: nat)
    requires start < numNodes <= nodes.Length && Searches(nodes[..numNodes], element, value, attr)
    ensures current == Back(nodes[..numNodes], start, element, value, attr)
  {
    hide CompareTo, Indexable;
    ghost var c := nodes[..numNodes];
    current := start;
    while current > 0 && CompareTo(element, value, nodes[current - 1], attr) == 0
      invariant 0 <= current <= start
      invariant Back(c, current, element, value, attr) == Back(c, start, element, value, attr)
    {
      assert c[current - 1] == nodes[current - 1];
      current := current - 1;
    }
  }

  method ScanBetween(nodes: array<Node>, numNodes: nat, first: nat, last: nat, element: Option<string>,
                     value: Option<string>, attr: Option<string>)
    returns (k: nat)
    requires first <= last < numNodes <= nodes.Length && Searches(nodes[..numNodes], element, value, attr)
    ensures k == Scan(nodes[..numNodes], first, last, element, value, attr)
  {
    hide CompareTo, Indexable;
    ghost var c := nodes[..numNodes];
    for current := first to last + 1
      invariant Scan(c, current, last, element, value, attr) == Scan(c, first, last, element, value, attr)
    {
      assert c[current] == nodes[current];
      if CompareTo(element, value, nodes[current], attr) == 0 {
        return current;
      }
    }
    k := numNodes;
  }

  // The node that `mxmlIndexFind` returns with the cursor at `cur`, or the length of the list.
  function Next(c: seq<Node>, cur: nat, element: Option<string>, value: Option<string>, attr: Option<string>): nat
    requires Searches(c, element, value, attr)
  {
    if element == None && value == None then cur
    else if c == [] then 0
    else if cur == 0 then Search(c, 0, |c| - 1, element, value, attr)
    else if cur < |c| && Hit(c, cur, element, value, attr) then cur
    else |c|
  }

  method HitAt(nodes: array<Node>, numNodes: nat, k: nat, element: Option<string>, value: Option<string>,
               attr: Option<string>)
    returns (yes: bool)
    requires k < numNodes <= nodes.Length && Searches(nodes[..numNodes], element, value, attr)
    ensures yes == Hit(nodes[..numNodes], k, element, value, attr)
  {
    assert nodes[k] == nodes[..numNodes][k];
    yes := CompareTo(element, value, nodes[k], attr) == 0;
  }

  // What an index holds.
  ghost predicate Listed(c: seq<Node>, attr: Option<string>) { AllIndexable(c, attr) && Sorted(c, attr) }

  // With the cursor at `cur`, `r` is returned and the cursor moves to `after`.
  ghost predicate Moved(c: seq<Node>, cur: nat, r: Node?, after: nat, element: Option<string>, value: Option<string>,
                        attr: Option<string>)
    requires Searches(c, element, value, attr)
  {
    var k := Next(c, cur, element, value, attr);
    r == (if k < |c| then c[k] else null) && after == (if k < |c| then k + 1 else |c|)
  }

  // The cases of `mxmlIndexFind`.
  lemma NextIs(c: seq<Node>, cur: nat, element: Option<string>, value: Option<string>, attr: Option<string>)
    requires Listed(c, attr) && (value.Some? ==> attr.Some?) && cur <= |c|
    ensures Searches(c, element, value, attr)
    ensures element == None && value == None ==>
              Moved(c, cur, if cur < |c| then c[cur] else null, if cur < |c| then cur + 1 else |c|,
                    element, value, attr)
    ensures c == [] ==> Moved(c, cur, null, cur, element, value, attr)
    ensures c != [] && cur == 0 && (element.Some? || value.Some?) ==>
              var k := Search(c, 0, |c| - 1, element, value, attr);
              Moved(c, cur, if k < |c| then c[k] else null, if k < |c| then k + 1 else |c|, element, value, attr)
    ensures 0 < cur < |c| && (element.Some? || value.Some?) && Hit(c, cur, element, value, attr) ==>
              Moved(c, cur, c[cur], cur + 1, element, value, attr)
    ensures 0 < cur < |c| && (element.Some? || value.Some?) && !Hit(c, cur, element, value, attr) ==>
              Moved(c, cur, null, |c|, element, value, attr)
    ensures 0 < cur == |c| && (element.Some? || value.Some?) ==> Moved(c, cur, null, |c|, element, value, attr)
  {
  }

  // The search of `mxmlIndexFind` with a name or a value given.
  method FindIn(nodes: array<Node>, numNodes: nat, cur: nat, element: Option<string>, value: Option<string>,
                attr: Option<string>)
    returns (r: Node?, after: nat)
    requires cur <= numNodes <= nodes.Length && Listed(nodes[..numNodes], attr)
    requires (value.Some? ==> attr.Some?) && (element.Some? || value.Some?)
    ensures after <= numNodes
    ensures Searches(nodes[..numNodes], element, value, attr)
    ensures Moved(nodes[..numNodes], cur, r, after, element, value, attr)
  {
    hide *;
    ghost var c := nodes[..numNodes];
    NextIs(c, cur, element, value, attr);
    if numNodes == 0 {
      return null, cur;
    }
    var k := numNodes;
    if cur == 0 {
      k := FindFirst(nodes, numNodes, element, value, attr);
    } else if cur < numNodes {
      var hit := HitAt(nodes, numNodes, cur, element, value, attr);
      k := if hit then cur else numNodes;
    }
    r := if k < numNodes then nodes[k] else null;
    after := if k < numNodes then k + 1 else numNodes;
  }

  class Index {
    var attr: Option<string>
    var nodes: array<Node>
    var numNodes: nat
    var curNode: nat

    ghost predicate Valid()
      reads this, nodes
    {
      curNode <= numNodes <= nodes.Length && Listed(nodes[..numNodes], attr)
    }

    ghost function Content(): seq<Node>
      requires Valid()
      reads this, nodes
    {
      nodes[..numNodes]
    }

    constructor (attr: Option<string>, nodes: array<Node>, numNodes: nat)
      ensures this.attr == attr && this.nodes == nodes && this.numNodes == numNodes && curNode == 0
    {
      this.attr, this.nodes, this.numNodes, curNode := attr, nodes, numNodes, 0;
    }

    // `mxmlIndexReset`
    method Reset() returns (r: Node?)
      requires Valid()
      modifies this`curNode
      ensures Valid() && Content() == old(Content()) && curNode == 0
      ensures r == if numNodes > 0 then nodes[0] else null
    {
      curNode := 0;
      r := if numNodes > 0 then nodes[0] else null;
    }

    // `mxmlIndexEnum`
    method Enum() returns (r: Node?)
      requires Valid()
      modifies this`curNode
      ensures Valid()
      ensures r == if old(curNode) < numNodes then nodes[old(curNode)] else null
      ensures curNode == if old(curNode) < numNodes then old(curNode) + 1 else old(curNode)
    {
      if curNode < numNodes {
        curNode := curNode + 1;
        return nodes[curNode - 1];
      } else {
        return null;
      }
    }

    // `mxmlIndexFind`: after a reset the first match, then the next node as long as it matches.
    method Find(element: Option<string>, value: Option<string>) returns (r: Node?)
      requires Valid()
      modifies this`curNode
      ensures Valid() && Content() == old(Content())
      ensures attr == None && value.Some? ==> r == null && curNode == old(curNode)
      ensures attr.Some? || value == None ==>
                && Searches(Content(), element, value, attr)
                && Moved(Content(), old(curNode), r, curNode, element, value, attr)
    {
      if attr == None && value.Some? {
        return null;
      }
      if element == None && value == None {
        NextIs(Content(), curNode, element, value, attr);
        r := Enum();
        return;
      }
      hide Moved, Searches, Listed;
      r, curNode := FindIn(nodes, numNodes, curNode, element, value, attr);
    }
  }

  // What the index is made of: with neither name given, the top node is taken as well.
  function Indexed(s: seq<Node>, element: Option<string>, attr: Option<string>): seq<Node>
    requires s != []
  {
    (if element == None && attr == None then [s[0]] else []) + Filter(s[1..], Query(element, attr, None))
  }

  // Room for 64 more nodes. The new cells hold arbitrary nodes; here the one about to be stored.
  method Grow(nodes: array<Node>, current: Node) returns (r: array<Node>)
    ensures fresh(r) && r.Length == nodes.Length + 64 && r[..nodes.Length] == nodes[..]
    ensures forall k :: nodes.Length <= k < r.Length ==> r[k] == current
  {
    r := new Node[nodes.Length + 64](_ => current);
    for i := 0 to nodes.Length
      invariant r[..i] == nodes[..i]
      invariant forall k :: i <= k < r.Length ==> r[k] == current
    {
      r[i] := nodes[i];
    }
  }

  // The match at `k` and those behind it, if there is one.
  function Rest(s: seq<Node>, k: nat, q: Query): seq<Node> {
    if k < |s| then [s[k]] + Filter(s[k + 1..], q) else []
  }

  lemma RestNext(s: seq<Node>, k: nat, q: Query, done: seq<Node>)
    requires k < |s|
    ensures done + Rest(s, k, q) == done + [s[k]] + Rest(s, FirstFrom(s, k + 1, q), q)
  {
    FilterNext(s, k + 1, q);
  }

  lemma RestBegins(s: seq<Node>, element: Option<string>, attr: Option<string>)
    requires s != []
    ensures
      var q := Query(element, attr, None);
      var k := if element == None && attr == None then 0 else FirstFrom(s, 1, q);
      [] + Rest(s, k, q) == Indexed(s, element, attr)
  {
    FilterNext(s, 1, Query(element, attr, None));
  }

  lemma MatchIsIndexable(n: Node, q: Query)
    requires Matches(n.value, q)
    ensures Indexable(n, q.attr)
  {
  }

  method Store(nodes: array<Node>, numNodes: nat, current: Node, attr: Option<string>)
    returns (after: array<Node>, size: nat)
    requires numNodes <= nodes.Length && AllIndexable(nodes[..], attr) && Indexable(current, attr)
    modifies nodes
    ensures (after == nodes || fresh(after)) && size == numNodes + 1 <= after.Length && AllIndexable(after[..], attr)
    ensures after[..size] == old(nodes[..numNodes]) + [current]
  {
    hide Indexable;
    after := nodes;
    if numNodes >= nodes.Length {
      after := Grow(nodes, current);
    }
    after[numNodes] := current;
    size := numNodes + 1;
  }

  // The matching nodes in document order.
  method Collect(node: Node, element: Option<string>, attr: Option<string>, ghost l: Layout)
    returns (nodes: array<Node>, numNodes: nat)
    requires Laid(l) && node == l.nodes[0]
    requires element == None && attr == None ==> node.value.Element?
    ensures fresh(nodes) && numNodes <= nodes.Length && AllIndexable(nodes[..], attr)
    ensures nodes[..numNodes] == Indexed(l.nodes, element, attr)
  {
    var q := Query(element, attr, None);
    nodes, numNodes := new Node[0], 0;
    assert AllIndexable(nodes[..], attr) && nodes[..0] == [];
    ghost var s, done := l.nodes, nodes[..0];
    RestBegins(s, element, attr);
    hide *;
    var current: Node?;
    ghost var k: nat := 0;
    if element == None && attr == None {
      current := node;
      TopIsIndexable(node);
    } else {
      current, k := NextMatch(node, node, q, l, 0);
    }
    while current != null
      invariant Laid(l) && numNodes <= nodes.Length && fresh(nodes) && AllIndexable(nodes[..], attr)
      invariant if current == null then k == |s| else k < |s| && current == s[k] && Indexable(current, attr)
      invariant done == nodes[..numNodes] && done + Rest(s, k, q) == Indexed(s, element, attr)
      decreases |s| - k
    {
      RestNext(s, k, q, done);
      done := done + [current];
      nodes, numNodes := Store(nodes, numNodes, current, attr);
      current, k := NextMatch(current, node, q, l, k);
    }
    NoRest(s, k, q, done);
  }

  lemma TopIsIndexable(node: Node)
    requires node.value.Element?
    ensures Indexable(node, None)
  {
  }

  // The next node that belongs into the index.
  method NextMatch(node: Node, top: Node, q: Query, ghost l: Layout, ghost i: nat) returns (r: Node?, ghost k: nat)
    requires Laid(l) && i < |l.nodes| && node == l.nodes[i] && top == l.nodes[0] && q.value == None
    ensures k == FirstFrom(l.nodes, i + 1, q) <= |l.nodes|
    ensures if r == null then k == |l.nodes| else k < |l.nodes| && r == l.nodes[k] && Indexable(r, q.attr)
  {
    r, k := FindElement(node, top, q, Descend, l, i);
    if r != null {
      MatchIsIndexable(r, q);
    }
  }

  lemma NoRest(s: seq<Node>, k: nat, q: Query, done: seq<Node>)
    requires k >= |s|
    ensures done + Rest(s, k, q) == done
  {
  }

  // `mxmlIndexNew`
  method IndexNew(node: Node?, element: Option<string>, attr: Option<string>, ghost l: Layout)
    returns (ind: Index?)
    requires node != null ==> Laid(l) && node == l.nodes[0]
    requires node != null && element == None && attr == None ==> node.value.Element?
    ensures node == null ==> ind == null
    ensures node != null ==>
              && ind != null && fresh(ind) && ind.Valid() && ind.attr == attr && ind.curNode == 0
              && multiset(ind.Content()) == multiset(Indexed(l.nodes, element, attr))
  {
    if node == null {
      return null;
    }
    var nodes, numNodes := Collect(node, element, attr, l);
    hide Indexed, Sorted, Indexable;
    ghost var c := nodes[..numNodes];
    if numNodes > 1 {
      IndexSort(nodes, attr, 0, numNodes - 1);
      SortedWhole(nodes[..], numNodes, attr);
    } else {
      FewAreSorted(nodes[..numNodes], attr);
    }
    ind := new Index(attr, nodes, numNodes);
  }

  lemma SortedWhole(s: seq<Node>, n: nat, attr: Option<string>)
    requires n <= |s| && SortedRange(s, 0, n, attr)
    ensures Sorted(s[..n], attr) && s[0..n] == s[..n]
  {
  }

  lemma FewAreSorted(s: seq<Node>, attr: Option<string>)
    requires |s| <= 1
    ensures Sorted(s, attr)
  {
  }

  // ----- the index against a linear search -----

  lemma HitIsMatch(n: Node, element: Option<string>, value: Option<string>, attr: Option<string>)
    requires Indexable(n, attr) && (value.Some? ==> attr.Some?)
    ensures CompareTo(element, value, n, attr) == 0 <==> Matches(n.value, Query(element, attr, value))
  {
  }

  lemma {:induction false} FilterRange(s: seq<Node>, q: Query, lo: nat, hi: nat)
    requires lo <= hi <= |s| && forall j: nat | j < |s| :: Matches(s[j].value, q) <==> lo <= j < hi
    ensures Filter(s, q) == s[lo..hi]
  {
    hide Matches;
    if s != [] {
      assert Matches(s[0].value, q) <==> lo == 0 && 0 < hi;
      var lo', hi' := if lo == 0 then 0 else lo - 1, if hi == 0 then 0 else hi - 1;
      FilterRange(s[1..], q, lo', hi');
      assert s[1..][lo'..hi'] == s[lo' + 1..hi' + 1];
    }
  }

  ghost predicate AllHits(c: seq<Node>, lo: nat, hi: nat, element: Option<string>, value: Option<string>,
                          attr: Option<string>)
    requires Searches(c, element, value, attr)
  {
    lo <= hi <= |c| && forall j: nat | lo <= j < hi :: Hit(c, j, element, value, attr)
  }

  lemma OneMoreHit(c: seq<Node>, lo: nat, hi: nat, element: Option<string>, value: Option<string>,
                   attr: Option<string>)
    requires Searches(c, element, value, attr) && lo <= hi < |c| && Hit(c, hi, element, value, attr)
    ensures AllHits(c, lo, lo, element, value, attr)
    ensures AllHits(c, lo, hi, element, value, attr) ==> AllHits(c, lo, hi + 1, element, value, attr)
  {
  }

  // What the binary search returns is a match, in its range or at the start of a run into it.
  lemma {:induction false} SearchIs(c: seq<Node>, first: nat, last: nat, element: Option<string>, value: Option<string>,
                                    attr: Option<string>)
    requires first <= last < |c| && Searches(c, element, value, attr)
    ensures
      var k := Search(c, first, last, element, value, attr);
      k < |c| ==>
        k <= last && Hit(c, k, element, value, attr) && (k < first ==> InRun(c, k, first, element, value, attr))
    decreases last - first
  {
    if last - first <= 1 {
      ScanIs(c, first, last, element, value, attr);
    } else {
      var current := (first + last) / 2;
      var diff := CompareTo(element, value, c[current], attr);
      if diff == 0 {
        BackIs(c, current, element, value, attr);
      } else if diff < 0 {
        SearchIs(c, first, current, element, value, attr);
      } else {
        SearchIs(c, current, last, element, value, attr);
      }
    }
  }

  // Every match stands in the run that begins at the node found first.
  ghost predicate Complete(c: seq<Node>, element: Option<string>, value: Option<string>, attr: Option<string>)
    requires Searches(c, element, value, attr)
  {
    forall j: nat | j < |c| ::
      Hit(c, j, element, value, attr) ==> InRun(c, Next(c, 0, element, value, attr), j, element, value, attr)
  }

  /** An ordered list is searched completely. */
  lemma OrderedIsComplete(c: seq<Node>, element: Option<string>, value: Option<string>, attr: Option<string>)
    requires Searches(c, element, value, attr) && Ordered(c, element, value, attr) && (element.Some? || value.Some?)
    ensures Complete(c, element, value, attr)
  {
    if c != [] {
      SearchIsFirst(c, 0, |c| - 1, element, value, attr);
      var k := Next(c, 0, element, value, attr);
      forall j: nat | j < |c| && Hit(c, j, element, value, attr)
        ensures InRun(c, k, j, element, value, attr)
      {
        assert k <= j;
        forall m: nat | k <= m <= j ensures Hit(c, m, element, value, attr) {
          assert Hit(c, k, element, value, attr);
        }
      }
    }
  }

  lemma {:induction false} FilterEmpty(s: seq<Node>, q: Query)
    ensures Filter(s, q) == [] <==> forall j: nat | j < |s| :: !Matches(s[j].value, q)
  {
    hide Matches;
    if s != [] {
      FilterEmpty(s[1..], q);
      assert forall j: nat | 0 < j < |s| :: s[j] == s[1..][j - 1];
      assert forall j: nat | j < |s| - 1 :: s[1..][j] == s[j + 1];
    }
  }

  // A run of matches is what a linear search finds exactly if no other node matches.
  lemma RunIsFilter(c: seq<Node>, lo: nat, hi: nat, q: Query)
    requires lo <= hi <= |c| && forall j: nat | lo <= j < hi :: Matches(c[j].value, q)
    ensures Filter(c, q) == c[lo..hi] <==> forall j: nat | j < |c| :: Matches(c[j].value, q) ==> lo <= j < hi
  {
    hide Matches;
    if forall j: nat | j < |c| :: Matches(c[j].value, q) ==> lo <= j < hi {
      FilterRange(c, q, lo, hi);
    }
    if Filter(c, q) == c[lo..hi] {
      var a, b, d := c[..lo], c[lo..hi], c[hi..];
      assert c == a + (b + d);
      FilterConcat(a, b + d, q);
      FilterConcat(b, d, q);
      FilterRange(b, q, 0, |b|);
      assert b[0..|b|] == b && |b| == |Filter(a, q)| + (|b| + |Filter(d, q)|);
      FilterEmpty(a, q);
      FilterEmpty(d, q);
      assert forall j: nat | j < lo :: c[j] == a[j];
      assert forall j: nat | hi <= j < |c| :: c[j] == d[j - hi];
    }
  }

  // Once the search is over, the run from the first match up to the cursor is all there is exactly
  // if the list was searched completely.
  lemma RunIsAll(c: seq<Node>, lo: nat, hi: nat, element: Option<string>, value: Option<string>, attr: Option<string>)
    requires Searches(c, element, value, attr) && lo == Next(c, 0, element, value, attr)
    requires lo < hi <= |c| && AllHits(c, lo, hi, element, value, attr)
    requires hi < |c| ==> !Hit(c, hi, element, value, attr)
    ensures Filter(c, Query(element, attr, value)) == c[lo..hi] <==> Complete(c, element, value, attr)
  {
    var q := Query(element, attr, value);
    forall j: nat | j < |c|
      ensures Matches(c[j].value, q) <==> Hit(c, j, element, value, attr)
      ensures InRun(c, lo, j, element, value, attr) <==> lo <= j < hi
    {
      HitIsMatch(c[j], element, value, attr);
      if hi <= j {
        assert !Hit(c, hi, element, value, attr);
      }
      if lo <= j < hi {
        forall m: nat | lo <= m <= j ensures Hit(c, m, element, value, attr) {
        }
      }
    }
    RunIsFilter(c, lo, hi, q);
  }

  lemma NothingFound(c: seq<Node>, element: Option<string>, value: Option<string>, attr: Option<string>)
    requires Searches(c, element, value, attr) && Next(c, 0, element, value, attr) == |c|
    ensures Filter(c, Query(element, attr, value)) == [] <==> Complete(c, element, value, attr)
  {
    var q := Query(element, attr, value);
    forall j: nat | j < |c|
      ensures Matches(c[j].value, q) <==> Hit(c, j, element, value, attr)
    {
      HitIsMatch(c[j], element, value, attr);
    }
    FilterEmpty(c, q);
  }

  // What a call has returned, for a search by name or value.
  lemma MovedBy(c: seq<Node>, cur: nat, r: Node?, after: nat, element: Option<string>, value: Option<string>,
                attr: Option<string>)
    requires Searches(c, element, value, attr) && Moved(c, cur, r, after, element, value, attr)
    requires element.Some? || value.Some?
    ensures cur == 0 && r != null ==>
              && Next(c, 0, element, value, attr) == after - 1 < |c| && r == c[after - 1]
              && Hit(c, after - 1, element, value, attr)
    ensures cur == 0 && r == null ==> Next(c, 0, element, value, attr) == |c|
    ensures 0 < cur && r != null ==> after == cur + 1 <= |c| && r == c[cur] && Hit(c, cur, element, value, attr)
    ensures 0 < cur < |c| && r == null ==> !Hit(c, cur, element, value, attr)
  {
    if c != [] {
      SearchIs(c, 0, |c| - 1, element, value, attr);
    }
  }

  // One call of the search by name or value.
  method FindNext(ind: Index, element: Option<string>, value: Option<string>, ghost c: seq<Node>, ghost cur: nat)
    returns (r: Node?)
    requires ind.Valid() && ind.Content() == c && ind.curNode == cur && (element.Some? || value.Some?)
    requires (value.Some? ==> ind.attr.Some?) && Searches(c, element, value, ind.attr)
    modifies ind`curNode
    ensures ind.Valid() && ind.Content() == c
    ensures cur == 0 && r == null ==> Next(c, 0, element, value, ind.attr) == |c|
    ensures r != null ==>
              && 0 < ind.curNode <= |c| && r == c[ind.curNode - 1]
              && Hit(c, ind.curNode - 1, element, value, ind.attr)
              && ind.curNode == (if cur == 0 then Next(c, 0, element, value, ind.attr) else cur) + 1
    ensures 0 < cur < |c| && r == null ==> !Hit(c, cur, element, value, ind.attr)
  {
    hide *;
    r := ind.Find(element, value);
    MovedBy(c, cur, r, ind.curNode, element, value, ind.attr);
  }

  // The calls after the first one, which has returned `first`, the node at `lo`.
  method FindOthers(ind: Index, element: Option<string>, value: Option<string>, first: Node,
                    ghost c: seq<Node>, ghost lo: nat)
    returns (found: seq<Node>, ghost hi: nat)
    requires ind.Valid() && ind.Content() == c && ind.curNode == lo + 1 && (element.Some? || value.Some?)
    requires (value.Some? ==> ind.attr.Some?) && Searches(c, element, value, ind.attr)
    requires lo < |c| && first == c[lo] && Hit(c, lo, element, value, ind.attr)
    modifies ind`curNode
    ensures ind.Valid() && ind.Content() == c
    ensures lo < hi <= |c| && found == c[lo..hi] && AllHits(c, lo, hi, element, value, ind.attr)
    ensures hi < |c| ==> !Hit(c, hi, element, value, ind.attr)
  {
    hide *;
    found, hi := [], lo;
    OneMoreHit(c, lo, lo, element, value, ind.attr);
    var r: Node? := first;
    while r != null
      invariant ind.Valid() && ind.Content() == c
      invariant lo <= hi <= |c| && found == c[lo..hi] && AllHits(c, lo, hi, element, value, ind.attr)
      invariant r != null ==> hi < |c| && ind.curNode == hi + 1 && r == c[hi] && Hit(c, hi, element, value, ind.attr)
      invariant r == null ==> lo < hi && (hi < |c| ==> !Hit(c, hi, element, value, ind.attr))
      decreases |c| - hi, if r == null then 0 else 1
    {
      OneMoreHit(c, lo, hi, element, value, ind.attr);
      found := found + [r];
      hi := hi + 1;
      r := FindNext(ind, element, value, c, hi);
    }
  }

  lemma ListedSearches(c: seq<Node>, element: Option<string>, value: Option<string>, attr: Option<string>)
    requires Listed(c, attr) && (value.Some? ==> attr.Some?)
    ensures Searches(c, element, value, attr)
    ensures element.Some? ==> Complete(c, element, value, attr)
  {
    if element.Some? {
      NamedIsOrdered(c, element, value, attr);
      OrderedIsComplete(c, element, value, attr);
    }
  }

  /**
    A search by name or value, repeated after a reset until it returns NULL, gives one contiguous
    run of matches. These are exactly the nodes that a linear search of the index finds if and only
    if the index is searched completely, as it always is by name.
   */
  method FindAll(ind: Index, element: Option<string>, value: Option<string>)
    returns (found: seq<Node>, ghost lo: nat)
    requires ind.Valid() && (element.Some? || value.Some?) && (value.Some? ==> ind.attr.Some?)
    modifies ind`curNode
    ensures ind.Valid() && ind.Content() == old(ind.Content())
    ensures Searches(ind.Content(), element, value, ind.attr)
    ensures found == Filter(ind.Content(), Query(element, ind.attr, value))
       <==> Complete(ind.Content(), element, value, ind.attr)
    ensures element.Some? ==> found == Filter(ind.Content(), Query(element, ind.attr, value))
    ensures lo + |found| <= |ind.Content()| && found == ind.Content()[lo..lo + |found|]
  {
    hide *;
    ghost var c, attr := ind.Content(), ind.attr;
    ContentSorted(ind);
    ListedSearches(c, element, value, attr);
    var first := ind.Reset();
    found, lo := [], 0;
    var r := FindNext(ind, element, value, c, 0);
    if r == null {
      NothingFound(c, element, value, attr);
    } else {
      lo := ind.curNode - 1;
      ghost var hi: nat;
      found, hi := FindOthers(ind, element, value, r, c, lo);
      RunIsAll(c, lo, hi, element, value, attr);
    }
  }

  // ----- the search by value alone -----

  // The attribute values ascend through the whole index, whatever the names.
  predicate ValuesAscend(c: seq<Node>, attr: Option<string>)
    requires AllIndexable(c, attr)
  {
    forall i, j :: 0 <= i < j < |c| ==> StrCmp(ValueOf(c[i], attr), ValueOf(c[j], attr)) <= 0
  }

  lemma AscendingIsOrdered(c: seq<Node>, value: Option<string>, attr: Option<string>)
    requires Searches(c, None, value, attr) && value.Some? && ValuesAscend(c, attr)
    ensures Ordered(c, None, value, attr)
  {
    forall i, j | 0 <= i < j < |c|
      ensures CompareTo(None, value, c[i], attr) <= 0 ==> CompareTo(None, value, c[j], attr) <= 0
      ensures CompareTo(None, value, c[i], attr) < 0 ==> CompareTo(None, value, c[j], attr) < 0
    {
      if StrCmp(value.value, ValueOf(c[i], attr)) <= 0 {
        StrCmpTrans(value.value, ValueOf(c[i], attr), ValueOf(c[j], attr));
      }
    }
  }

  lemma ShortIsComplete(c: seq<Node>, value: Option<string>, attr: Option<string>)
    requires Searches(c, None, value, attr) && value.Some? && |c| <= 2
    ensures Complete(c, None, value, attr)
  {
    if c != [] {
      ScanIs(c, 0, |c| - 1, None, value, attr);
    }
  }

  lemma StrCmpChain(a: string, b: string, c: string)
    requires StrCmp(a, b) > 0
    ensures StrCmp(b, c) >= 0 ==> StrCmp(a, c) > 0
    ensures StrCmp(a, c) <= 0 ==> StrCmp(b, c) < 0
  {
    StrCmpAntisym(a, b);
    StrCmpAntisym(b, c);
    StrCmpAntisym(a, c);
    if StrCmp(b, c) >= 0 {
      StrCmpTrans(c, b, a);
    }
  }

  lemma SameStrings(a: string, b: string)
    ensures StrCmp(a, b) == 0 <==> a == b
  {
  }

  // Where the values of two neighbours descend, the search for one of the two values misses its
  // node: a probe sends it the wrong way.
  lemma {:induction false} DescentIsMissed(c: seq<Node>, first: nat, last: nat, i: nat, attr: Option<string>)
    requires AllIndexable(c, attr) && attr.Some? && first <= i && i + 1 <= last < |c| && last - first >= 2
    requires StrCmp(ValueOf(c[i], attr), ValueOf(c[i + 1], attr)) > 0
    ensures var x, y := Some(ValueOf(c[i], attr)), Some(ValueOf(c[i + 1], attr));
      !(InRun(c, Search(c, first, last, None, x, attr), i, None, x, attr)
        && InRun(c, Search(c, first, last, None, y, attr), i + 1, None, y, attr))
    decreases last - first
  {
    var x, y := ValueOf(c[i], attr), ValueOf(c[i + 1], attr);
    var m := (first + last) / 2;
    var v := ValueOf(c[m], attr);
    StrCmpChain(x, y, v);
    if i < m {
      LeftMisses(c, first, last, i, attr);
      if StrCmp(x, v) < 0 && m - first >= 2 {
        DescentIsMissed(c, first, m, i, attr);
      }
    } else {
      RightMisses(c, first, last, i, attr);
      if StrCmp(y, v) > 0 && last - m >= 2 {
        DescentIsMissed(c, m, last, i, attr);
      }
    }
  }

  // The probe is behind the first of the two nodes.
  lemma LeftMisses(c: seq<Node>, first: nat, last: nat, i: nat, attr: Option<string>)
    requires AllIndexable(c, attr) && attr.Some? && first <= i && i + 1 <= last < |c| && last - first >= 2
    requires StrCmp(ValueOf(c[i], attr), ValueOf(c[i + 1], attr)) > 0 && i < (first + last) / 2
    ensures var m, x := (first + last) / 2, Some(ValueOf(c[i], attr));
      StrCmp(x.value, ValueOf(c[m], attr)) >= 0 ==> !InRun(c, Search(c, first, last, None, x, attr), i, None, x, attr)
    ensures var m, x := (first + last) / 2, Some(ValueOf(c[i], attr));
      StrCmp(x.value, ValueOf(c[m], attr)) < 0 ==> m - first >= 2
  {
    var m, x := (first + last) / 2, Some(ValueOf(c[i], attr));
    var k := Search(c, first, last, None, x, attr);
    StrCmpAntisym(ValueOf(c[i], attr), ValueOf(c[i + 1], attr));
    if StrCmp(x.value, ValueOf(c[m], attr)) == 0 {
      BackIs(c, m, None, x, attr);
      assert !Hit(c, i + 1, None, x, attr);
    } else if StrCmp(x.value, ValueOf(c[m], attr)) > 0 {
      SearchIs(c, m, last, None, x, attr);
      assert !Hit(c, m, None, x, attr);
    }
  }

  // The probe is not behind the first of the two nodes.
  lemma RightMisses(c: seq<Node>, first: nat, last: nat, i: nat, attr: Option<string>)
    requires AllIndexable(c, attr) && attr.Some? && first <= i && i + 1 <= last < |c| && last - first >= 2
    requires StrCmp(ValueOf(c[i], attr), ValueOf(c[i + 1], attr)) > 0 && (first + last) / 2 <= i
    ensures var m, y := (first + last) / 2, Some(ValueOf(c[i + 1], attr));
      StrCmp(y.value, ValueOf(c[m], attr)) <= 0 ==> !InRun(c, Search(c, first, last, None, y, attr), i + 1, None, y, attr)
    ensures var m, y := (first + last) / 2, Some(ValueOf(c[i + 1], attr));
      StrCmp(y.value, ValueOf(c[m], attr)) > 0 ==> last - m >= 2
  {
    var m, y := (first + last) / 2, Some(ValueOf(c[i + 1], attr));
    StrCmpAntisym(ValueOf(c[i], attr), ValueOf(c[i + 1], attr));
    assert !Hit(c, i, None, y, attr);
    if StrCmp(y.value, ValueOf(c[m], attr)) == 0 {
      BackIs(c, m, None, y, attr);
    } else if StrCmp(y.value, ValueOf(c[m], attr)) < 0 {
      SearchIs(c, first, m, None, y, attr);
    }
  }

  // No value is below the one in front of it.
  predicate StepsAscend(c: seq<Node>, attr: Option<string>)
    requires AllIndexable(c, attr)
  {
    forall k :: 0 <= k < |c| - 1 ==> StrCmp(ValueOf(c[k], attr), ValueOf(c[k + 1], attr)) <= 0
  }

  lemma {:induction false} AscendStepwise(c: seq<Node>, attr: Option<string>, i: nat, j: nat)
    requires AllIndexable(c, attr) && i < j < |c| && StepsAscend(c, attr)
    ensures StrCmp(ValueOf(c[i], attr), ValueOf(c[j], attr)) <= 0
    decreases j
  {
    assert StrCmp(ValueOf(c[j - 1], attr), ValueOf(c[j - 1 + 1], attr)) <= 0;
    if i + 1 < j {
      AscendStepwise(c, attr, i, j - 1);
      StrCmpTrans(ValueOf(c[i], attr), ValueOf(c[j - 1], attr), ValueOf(c[j], attr));
    }
  }

  lemma StepsAreAll(c: seq<Node>, attr: Option<string>)
    requires AllIndexable(c, attr)
    ensures StepsAscend(c, attr) ==> ValuesAscend(c, attr)
  {
    hide StrCmp, ValueOf, StepsAscend;
    if StepsAscend(c, attr) {
      forall j, k | 0 <= j < k < |c| ensures StrCmp(ValueOf(c[j], attr), ValueOf(c[k], attr)) <= 0 {
        AscendStepwise(c, attr, j, k);
      }
    }
  }

  // Two values that the search without a name cannot both find.
  lemma DescentIsIncomplete(c: seq<Node>, i: nat, attr: Option<string>)
    requires AllIndexable(c, attr) && attr.Some? && i + 1 < |c| && |c| >= 3
    requires StrCmp(ValueOf(c[i], attr), ValueOf(c[i + 1], attr)) > 0
    ensures !Complete(c, None, Some(ValueOf(c[i], attr)), attr) || !Complete(c, None, Some(ValueOf(c[i + 1], attr)), attr)
  {
    DescentIsMissed(c, 0, |c| - 1, i, attr);
    assert Hit(c, i, None, Some(ValueOf(c[i], attr)), attr);
    assert Hit(c, i + 1, None, Some(ValueOf(c[i + 1], attr)), attr);
  }

  /**
    A search by value alone is right for every value if and only if the index has at most two nodes
    or the attribute values ascend through it.
   */
  lemma UnnamedIsComplete(c: seq<Node>, attr: Option<string>)
    requires AllIndexable(c, attr) && attr.Some?
    ensures (forall v: string :: Complete(c, None, Some(v), attr)) <==> |c| <= 2 || ValuesAscend(c, attr)
  {
    hide Complete, StrCmp, ValueOf, Search, ValuesAscend;
    if |c| <= 2 || ValuesAscend(c, attr) {
      forall v: string ensures Complete(c, None, Some(v), attr) {
        if |c| <= 2 {
          ShortIsComplete(c, Some(v), attr);
        } else {
          AscendingIsOrdered(c, Some(v), attr);
          OrderedIsComplete(c, None, Some(v), attr);
        }
      }
    } else {
      StepsAreAll(c, attr);
      var i: nat :| i < |c| - 1 && StrCmp(ValueOf(c[i], attr), ValueOf(c[i + 1], attr)) > 0;
      DescentIsIncomplete(c, i, attr);
    }
  }

  /** In particular it is right in an index of elements that have one name. */
  lemma OneNameIsComplete(c: seq<Node>, value: Option<string>, attr: Option<string>)
    requires Listed(c, attr) && attr.Some? && value.Some?
    requires forall a <- c, b <- c :: a.value.name == b.value.name
    ensures ValuesAscend(c, attr) && Searches(c, None, value, attr) && Complete(c, None, value, attr)
  {
    hide Complete, StrCmp, ValueOf, Search;
    forall i, j | 0 <= i < j < |c| ensures StrCmp(ValueOf(c[i], attr), ValueOf(c[j], attr)) <= 0 {
      assert c[i] in c && c[j] in c && Le(c[i], c[j], attr);
      SameStrings(c[i].value.name, c[j].value.name);
    }
    UnnamedIsComplete(c, attr);
  }

  lemma FilterWithout(t: seq<Node>, i: nat, q: Query)
    requires i < |t|
    ensures multiset(t) == multiset([t[i]]) + multiset(t[..i] + t[i + 1..])
    ensures multiset(Filter(t, q)) == multiset(Filter([t[i]], q)) + multiset(Filter(t[..i] + t[i + 1..], q))
  {
    assert t == t[..i] + ([t[i]] + t[i + 1..]);
    hide Filter;
    FilterConcat(t[..i], t[i + 1..], q);
    FilterConcat(t[..i], [t[i]] + t[i + 1..], q);
    FilterConcat([t[i]], t[i + 1..], q);
  }

  lemma SameRest(x: multiset<Node>, a: multiset<Node>, b: multiset<Node>)
    requires x + a == x + b
    ensures a == b
  {
    assert (x + a) - x == a && (x + b) - x == b;
  }

  // The first node of `s`, taken out of both.
  lemma TakeOut(s: seq<Node>, t: seq<Node>, q: Query) returns (i: nat)
    requires multiset(s) == multiset(t) && s != []
    ensures i < |t| && multiset(s[1..]) == multiset(t[..i] + t[i + 1..])
    ensures multiset(Filter(s, q)) == multiset(Filter([t[i]], q)) + multiset(Filter(s[1..], q))
    ensures multiset(Filter(t, q)) == multiset(Filter([t[i]], q)) + multiset(Filter(t[..i] + t[i + 1..], q))
  {
    assert s[0] in multiset(t);
    i :| 0 <= i < |t| && t[i] == s[0];
    hide Filter;
    FilterWithout(s, 0, q);
    FilterWithout(t, i, q);
    assert s[..0] + s[1..] == s[1..];
    SameRest(multiset([s[0]]), multiset(s[1..]), multiset(t[..i] + t[i + 1..]));
  }

  lemma {:induction false} FilterPermuted(s: seq<Node>, t: seq<Node>, q: Query)
    requires multiset(s) == multiset(t)
    ensures multiset(Filter(s, q)) == multiset(Filter(t, q))
  {
    if s == [] {
      assert |t| == |multiset(t)| == 0;
    } else {
      var i := TakeOut(s, t, q);
      hide Filter;
      FilterPermuted(s[1..], t[..i] + t[i + 1..], q);
    }
  }

  lemma {:induction false} FilterTwice(s: seq<Node>, p: Query, q: Query, r: Query)
    requires forall n <- s :: Matches(n.value, r) <==> Matches(n.value, p) && Matches(n.value, q)
    ensures Filter(Filter(s, p), q) == Filter(s, r)
  {
    hide Matches;
    if s != [] {
      FilterTwice(s[1..], p, q, r);
      assert s[0] in s;
      var a := if Matches(s[0].value, p) then [s[0]] else [];
      FilterConcat(a, Filter(s[1..], p), q);
      assert a != [] ==> a[1..] == [] && Filter(a, q) == (if Matches(s[0].value, q) then [s[0]] else []) + [];
    }
  }

  lemma {:induction false} FilterConcat(s: seq<Node>, t: seq<Node>, q: Query)
    ensures Filter(s + t, q) == Filter(s, q) + Filter(t, q)
  {
    hide Matches;
    if s == [] {
      assert s + t == t;
    } else {
      FilterConcat(s[1..], t, q);
      assert (s + t)[0] == s[0] && (s + t)[1..] == s[1..] + t;
      var a := if Matches(s[0].value, q) then [s[0]] else [];
      assert a + (Filter(s[1..], q) + Filter(t, q)) == a + Filter(s[1..], q) + Filter(t, q);
    }
  }

  // The nodes that an index looks at.
  function Walked(s: seq<Node>, element: Option<string>, attr: Option<string>): seq<Node>
    requires s != []
  {
    if element == None && attr == None then s else s[1..]
  }

  // What a search of an index asks for: in an index made for one name, a search by value alone
  // asks for that name.
  function Asked(element: Option<string>, attr: Option<string>, name: Option<string>, value: Option<string>): Query {
    Query(if name.Some? then name else element, attr, value)
  }

  lemma IndexedFilter(s: seq<Node>, element: Option<string>, attr: Option<string>, name: Option<string>,
                      value: Option<string>)
    requires s != [] && (name.Some? || element.Some?) && (name.Some? && element.Some? ==> element == name)
    ensures Filter(Indexed(s, element, attr), Query(name, attr, value))
         == Filter(Walked(s, element, attr), Asked(element, attr, name, value))
  {
    var p, q, r := Query(element, attr, None), Query(name, attr, value), Asked(element, attr, name, value);
    var top := if element == None && attr == None then [s[0]] else [];
    FilterTwice(s[1..], p, q, r);
    FilterConcat(top, Filter(s[1..], p), q);
    FilterConcat(top, s[1..], q);
    assert top != [] ==> top + s[1..] == s;
    assert top == [] ==> top + s[1..] == s[1..];
  }

  lemma {:induction false} FilterNamed(s: seq<Node>, name: string, attr: Option<string>)
    ensures forall n <- Filter(s, Query(Some(name), attr, None)) :: n.value.Element? && n.value.name == name
  {
    if s != [] {
      FilterNamed(s[1..], name, attr);
    }
  }

  // In an index made for one element, a search by value alone is complete.
  lemma ElementIndexIsComplete(c: seq<Node>, s: seq<Node>, element: string, attr: Option<string>, value: Option<string>)
    requires Listed(c, attr) && s != [] && multiset(c) == multiset(Indexed(s, Some(element), attr))
    requires attr.Some? && value.Some?
    ensures Searches(c, None, value, attr) && Complete(c, None, value, attr)
  {
    hide Filter, Complete;
    FilterNamed(s[1..], element, attr);
    var f := Filter(s[1..], Query(Some(element), attr, None));
    assert Indexed(s, Some(element), attr) == f;
    forall n | n in c ensures n.value.name == element {
      assert n in multiset(f);
      assert n in f;
    }
    OneNameIsComplete(c, value, attr);
  }

  /**
    The index agrees with a linear search of the walk: made for a name and an attribute, or for all,
    and then searched by name until nothing more is found, it yields exactly the matching nodes in
    document order, each as often as it stands there, in the order of the index. An index made for
    one name can also be searched by value alone.
   */
  method SearchTree(node: Node, element: Option<string>, attr: Option<string>, name: Option<string>,
                    value: Option<string>, ghost l: Layout)
    returns (found: seq<Node>)
    requires Laid(l) && node == l.nodes[0] && (value.Some? ==> attr.Some?)
    requires name.Some? || (element.Some? && value.Some?)
    requires name.Some? && element.Some? ==> element == name
    requires element == None && attr == None ==> node.value.Element?
    ensures multiset(found) == multiset(Filter(Walked(l.nodes, element, attr), Asked(element, attr, name, value)))
    ensures Sorted(found, attr)
  {
    hide *;
    var ind := IndexNew(node, element, attr, l);
    ghost var c := ind.Content();
    ContentSorted(ind);
    NotEmpty(l);
    ghost var lo: nat;
    found, lo := FindAll(ind, name, value);
    if name == None {
      ElementIndexIsComplete(c, l.nodes, element.value, attr, value);
    }
    FilterPermuted(c, Indexed(l.nodes, element, attr), Query(name, attr, value));
    IndexedFilter(l.nodes, element, attr, name, value);
    SortedPart(c, lo, lo + |found|, attr);
  }

  lemma NotEmpty(l: Layout)
    requires Laid(l)
    ensures l.nodes != []
  {
  }

  lemma ContentSorted(ind: Index)
    requires ind.Valid()
    ensures Sorted(ind.Content(), ind.attr) && Listed(ind.Content(), ind.attr)
  {
  }

  lemma SortedPart(s: seq<Node>, lo: nat, hi: nat, attr: Option<string>)
    requires lo <= hi <= |s| && Sorted(s, attr)
    ensures Sorted(s[lo..hi], attr)
  {
    hide Le;
  }

  // Without a name the search may step over a match, because the names come first in the order.
  method UnnamedMisses(one: Node, two: Node, three: Node) returns (ind: Index, r: Node?)
    requires one.value == Element("a", [Attr("k", Some("2"))])
    requires two.value == Element("b", [Attr("k", Some("1"))])
    requires three.value == Element("c", [Attr("k", Some("2"))])
    ensures ind.Valid() && ind.attr == Some("k") && ind.Content() == [one, two, three]
    ensures Matches(one.value, Query(None, Some("k"), Some("2"))) && r == three
  {
    var nodes := new Node[] [one, two, three];
    assert nodes[..] == [one, two, three];
    ind := new Index(Some("k"), nodes, 3);
    Letters();
    var c := nodes[..];
    assert Back(c, 2, None, Some("2"), Some("k")) == 2;
    r := ind.Find(None, Some("2"));
  }

  lemma Letters()
    ensures StrCmp("a", "b") == StrCmp("a", "c") == StrCmp("b", "c") == -1
    ensures StrCmp("2", "1") == 1
  {
  }
}
