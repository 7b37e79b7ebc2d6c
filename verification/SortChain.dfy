/**
  cJSONUtils_SortList on the linked nodes themselves: it relinks `next` and `prev` in place.
  The chain is described by a ghost sequence of its nodes.
 */
module SortChain {
  import opened Text
  import opened Json
  import Sort

  class Node {
    const member: Member
    var next: Node?
    var prev: Node?

    constructor (member: Member)
      ensures this.member == member && next == null && prev == null
    {
      this.member := member;
      next, prev := null, null;
    }
  }

  function MembersOf(c: seq<Node>): (r: seq<Member>)
    ensures |r| == |c|
    ensures forall i :: 0 <= i < |c| ==> r[i] == c[i].member
  {
    seq(|c|, i requires 0 <= i < |c| => c[i].member)
  }

  ghost predicate Distinct(c: seq<Node>) { forall i, j :: 0 <= i < j < |c| ==> c[i] != c[j] }

  // Following `next` from `head` visits exactly the nodes of `c` and ends in NULL.
  ghost predicate Chain(head: Node?, c: seq<Node>)
    reads c
  {
    && Distinct(c)
    && head == (if c == [] then null else c[0])
    && (forall i :: 0 <= i < |c| - 1 ==> c[i].next == c[i + 1])
    && (c != [] ==> c[|c| - 1].next == null)
  }

  // Every node but the first points back at its predecessor.
  ghost predicate BackLinked(c: seq<Node>)
    reads c
  {
    forall i :: 0 < i < |c| ==> c[i].prev == c[i - 1]
  }

  lemma ChainTail(head: Node, c: seq<Node>)
    requires Chain(head, c) && c != []
    ensures Chain(head.next, c[1..])
    ensures BackLinked(c) ==> BackLinked(c[1..])
  {
  }

  lemma MembersOfParts(a: seq<Node>, b: seq<Node>)
    ensures MembersOf(a + b) == MembersOf(a) + MembersOf(b)
  {
  }

  // The node that a sort brings to the front.
  ghost function HeadOf(c: seq<Node>): Node
    requires c != []
  {
    c[Sort.HeadIndex(MembersOf(c))]
  }

  ghost function HeadKey(c: seq<Node>): string
    requires c != []
  {
    MembersOf(c)[Sort.HeadIndex(MembersOf(c))].key
  }

  // The scan that leaves a sorted list alone.
  method IsAscending(list: Node?, ghost c: seq<Node>) returns (r: bool)
    requires Chain(list, c)
    ensures r == Sort.Ascending(MembersOf(c))
  {
    var ptr := list;
    ghost var rest := c;
    while ptr != null && ptr.next != null && CaseCmp(ptr.member.key, ptr.next.member.key) < 0
      invariant Chain(ptr, rest)
      invariant Sort.Ascending(MembersOf(c)) == Sort.Ascending(MembersOf(rest))
      decreases |rest|
    {
      assert MembersOf(rest)[1..] == MembersOf(rest[1..]);
      ptr := ptr.next;
      rest := rest[1..];
    }
    r := ptr == null || ptr.next == null;
  }

  // Two pointers, one twice as fast as the other, find where the second half begins.
  method FindMiddle(list: Node, ghost c: seq<Node>) returns (second: Node)
    requires Chain(list, c) && |c| >= 2
    ensures second == c[(|c| + 1) / 2]
  {
    var ptr, slow: Node? := list, list;
    ghost var i := 0;
    while ptr != null
      invariant 0 <= i <= |c|
      invariant ptr == (if 2 * i < |c| then c[2 * i] else null)
      invariant i <= (|c| + 1) / 2 < |c|
      invariant slow == c[i]
      decreases |c| - i
    {
      ghost var j := 2 * i;
      assert j + 1 < |c| ==> c[j].next == c[j + 1];
      assert j + 2 < |c| ==> c[j + 1].next == c[j + 2];
      slow := slow.next;
      ptr := ptr.next;
      if ptr != null {
        ptr := ptr.next;
      }
      i := i + 1;
    }
    second := slow;
  }

  // The merged nodes: linked up both ways, the last one still pointing where it came from.
  ghost predicate Merged(out: seq<Node>)
    reads out
  {
    Distinct(out) && BackLinked(out) && forall i :: 0 <= i < |out| - 1 ==> out[i].next == out[i + 1]
  }

  ghost predicate Apart(a: seq<Node>, b: seq<Node>) { forall n <- a :: n !in b }

  // Put `node` behind the merged nodes.
  method Append(ghost out: seq<Node>, ptr: Node?, node: Node)
    requires Merged(out) && node !in out
    requires ptr == (if out == [] then null else out[|out| - 1])
    modifies if ptr == null then {} else {ptr, node}
    ensures Merged(out + [node])
    ensures node.next == old(node.next)
    ensures ptr == null ==> node.prev == old(node.prev)
    ensures forall n <- out :: n.prev == old(n.prev)
  {
    if ptr != null {
      ptr.next := node;
      node.prev := ptr;
    }
  }

  lemma MoveOut<T>(out: seq<T>, x: T, f: seq<T>, g: seq<T>)
    ensures multiset(out + [x] + f + g) == multiset(out + ([x] + f) + g)
    ensures multiset(out + [x] + f + g) == multiset(out + f + ([x] + g))
  {
    assert out + [x] + f + g == out + ([x] + f) + g;
  }

  lemma MergeStep(out: seq<Member>, f: seq<Member>, g: seq<Member>)
    requires f != [] && g != []
    ensures out + Sort.MergeLists(f, g) ==
      if CaseCmp(f[0].key, g[0].key) < 0 then (out + [f[0]]) + Sort.MergeLists(f[1..], g)
      else (out + [g[0]]) + Sort.MergeLists(f, g[1..])
  {
  }

  lemma MembersOfStep(out: seq<Node>, f: seq<Node>)
    requires f != []
    ensures MembersOf(f)[1..] == MembersOf(f[1..])
    ensures MembersOf(out + [f[0]]) == MembersOf(out) + [f[0].member]
    ensures f == [f[0]] + f[1..]
  {
  }

  // The state of the merge loop: `out` from `list` to `ptr`, then what is left of both lists.
  ghost predicate Merging(out: seq<Node>, list: Node?, ptr: Node?,
                          first: Node?, f: seq<Node>, second: Node?, g: seq<Node>)
    reads out, f, g
  {
    && Merged(out)
    && list == (if out == [] then null else out[0])
    && ptr == (if out == [] then null else out[|out| - 1])
    && Chain(first, f) && BackLinked(f) && Apart(out, f)
    && Chain(second, g) && BackLinked(g) && Apart(out, g)
    && Apart(f, g) && Apart(g, f)
  }

  // Move the first node of one list over; the other list is not touched.
  method Take(list: Node?, ptr: Node?, first: Node, ghost out: seq<Node>, ghost f: seq<Node>,
              ghost second: Node?, ghost g: seq<Node>)
    returns (list': Node?, rest: Node?)
    requires Merging(out, list, ptr, first, f, second, g)
    modifies if ptr == null then {} else {ptr, first}
    ensures f != [] && f[0] == first
    ensures Merging(out + [first], list', first, rest, f[1..], second, g)
    ensures list'.prev == old((if list == null then first else list).prev)
    ensures list' == (if list == null then first else list)
  {
    assert first == f[0] && first in f && first !in f[1..] && first !in g;
    assert ptr != null ==> ptr in out;
    assert ptr !in f[1..] && ptr !in g && ptr != first;
    ChainTail(first, f);
    rest := first.next;
    Append(out, ptr, first);
    list' := if list == null then first else list;
  }

  lemma MergingHeads(out: seq<Node>, list: Node?, ptr: Node?,
                     first: Node?, f: seq<Node>, second: Node?, g: seq<Node>)
    requires Merging(out, list, ptr, first, f, second, g)
    ensures Merging(out, list, ptr, second, g, first, f)
    ensures if first == null then f == [] else f != [] && f[0] == first
    ensures if second == null then g == [] else g != [] && g[0] == second
    ensures if list == null then out == [] else out != [] && out[0] == list
    ensures list != null ==> list in out && ptr in out
    ensures first != null ==> first in f
    ensures second != null ==> second in g
  {
  }

  // Append the rest of the one list that is left.
  method Finish(list: Node, ptr: Node, first: Node, ghost out: seq<Node>, ghost f: seq<Node>)
    requires Merging(out, list, ptr, first, f, null, [])
    modifies ptr, first
    ensures Chain(list, out + f) && BackLinked(out + f)
    ensures list.prev == old(list.prev)
  {
    assert first == f[0] && first in f && first !in f[1..];
    assert ptr in out && ptr !in f && list in out && list != first;
    ChainTail(first, f);
    Append(out, ptr, first);
    JoinRest(out, f);
  }

  lemma InMultiset(out: seq<Node>, f: seq<Node>, g: seq<Node>, all: seq<Node>)
    requires multiset(out + f + g) == multiset(all)
    ensures forall n :: n in out || n in f || n in g ==> n in all
  {
    forall n | n in out || n in f || n in g
      ensures n in all
    {
      assert n in out + f + g;
      assert n in multiset(out + f + g);
    }
  }

  lemma JoinRest(out: seq<Node>, f: seq<Node>)
    requires out != [] && f != [] && Merged(out + [f[0]]) && Chain(f[0], f) && BackLinked(f) && Apart(out, f)
    ensures Chain(out[0], out + f) && BackLinked(out + f)
  {
    forall i, j | 0 <= i < j < |out + f|
      ensures (out + f)[i] != (out + f)[j]
    {
      if j < |out| {
        assert (out + [f[0]])[i] != (out + [f[0]])[j];
      } else if i < |out| {
        assert (out + f)[j] in f && out[i] in out;
      }
    }
    forall i | 0 <= i < |out + f| - 1
      ensures (out + f)[i].next == (out + f)[i + 1] && (out + f)[i + 1].prev == (out + f)[i]
    {
      if i < |out| {
        assert (out + [f[0]])[i] == (out + f)[i] && (out + [f[0]])[i + 1] == (out + f)[i + 1];
      }
    }
  }

  // One round of the merge loop: the smaller head, the second one on equal keys.
  method Round(head: Node?, ptr: Node?, first: Node, second: Node,
               ghost out: seq<Node>, ghost f: seq<Node>, ghost g: seq<Node>)
    returns (head': Node, node: Node, first': Node?, second': Node?, ghost f': seq<Node>, ghost g': seq<Node>)
    requires Merging(out, head, ptr, first, f, second, g)
    modifies {first, second} + if ptr == null then {} else {ptr}
    ensures Merging(out + [node], head', node, first', f', second', g')
    ensures multiset(out + [node] + f' + g') == multiset(out + f + g)
    ensures |f'| + |g'| < |f| + |g| && (first' != null || second' != null)
    ensures MembersOf(out + [node]) + Sort.MergeLists(MembersOf(f'), MembersOf(g'))
         == MembersOf(out) + Sort.MergeLists(MembersOf(f), MembersOf(g))
    ensures head' == (if head == null then node else head)
    ensures node == (if CaseCmp(first.member.key, second.member.key) < 0 then first else second)
    ensures head'.prev == old((if head == null then node else head).prev)
  {
    hide Merging, Merged, Chain, BackLinked, Apart, Distinct, MembersOf, Sort.MergeLists, CaseCmp;
    MergingHeads(out, head, ptr, first, f, second, g);
    MergeStep(MembersOf(out), MembersOf(f), MembersOf(g));
    MembersOfStep(out, f);
    MembersOfStep(out, g);
    first', second', f', g' := first, second, f, g;
    if CaseCmp(first.member.key, second.member.key) < 0 {
      MoveOut(out, f[0], f[1..], g);
      node := first;
      head', first' := Take(head, ptr, node, out, f, second, g);
      f' := f[1..];
    } else {
      MoveOut(out, g[0], f, g[1..]);
      node := second;
      head', second' := Take(head, ptr, node, out, g, first, f);
      g' := g[1..];
      MergingHeads(out + [node], head', node, second', g', first, f);
    }
  }

  // The end of the merge: one of the lists is used up, the other one follows.
  method AppendRest(head: Node, ptr: Node, first: Node?, second: Node?,
                    ghost out: seq<Node>, ghost f: seq<Node>, ghost g: seq<Node>)
    returns (ghost all: seq<Node>)
    requires Merging(out, head, ptr, first, f, second, g) && (first == null) != (second == null)
    modifies {ptr} + (if first == null then {} else {first}) + (if second == null then {} else {second})
    ensures Chain(head, all) && BackLinked(all) && multiset(all) == multiset(out + f + g)
    ensures MembersOf(all) == MembersOf(out) + Sort.MergeLists(MembersOf(f), MembersOf(g))
    ensures head.prev == old(head.prev)
  {
    hide Merging, Merged, Chain, BackLinked, Apart, Distinct, MembersOf;
    MergingHeads(out, head, ptr, first, f, second, g);
    MembersOfParts(out, f);
    MembersOfParts(out, g);
    assert out + f + [] == out + f && out + [] + g == out + g;
    if first != null {
      Finish(head, ptr, first, out, f);
      all := out + f;
    } else {
      Finish(head, ptr, second, out, g);
      all := out + g;
    }
  }

  // What is merged and what is left make up the two lists, and will make up their merge.
  ghost predicate Progress(out: seq<Node>, f: seq<Node>, g: seq<Node>, a: seq<Node>, b: seq<Node>) {
    && multiset(out + f + g) == multiset(a + b)
    && MembersOf(out) + Sort.MergeLists(MembersOf(f), MembersOf(g)) == Sort.MergeLists(MembersOf(a), MembersOf(b))
  }

  lemma ProgressStarts(a: seq<Node>, b: seq<Node>)
    ensures Progress([], a, b, a, b)
  {
    assert [] + a + b == a + b;
    assert MembersOf([]) + Sort.MergeLists(MembersOf(a), MembersOf(b)) == Sort.MergeLists(MembersOf(a), MembersOf(b));
  }

  lemma ProgressNodes(out: seq<Node>, f: seq<Node>, g: seq<Node>, a: seq<Node>, b: seq<Node>)
    requires Progress(out, f, g, a, b)
    ensures forall n :: n in out || n in f || n in g ==> n in a || n in b
  {
    InMultiset(out, f, g, a + b);
  }

  // Merge two sorted lists in place.
  method MergeChains(first0: Node, second0: Node, ghost a: seq<Node>, ghost b: seq<Node>)
    returns (list: Node, ghost all: seq<Node>)
    requires Merging([], null, null, first0, a, second0, b)
    modifies a, b
    ensures Chain(list, all) && BackLinked(all) && multiset(all) == multiset(a + b)
    ensures MembersOf(all) == Sort.MergeLists(MembersOf(a), MembersOf(b))
    ensures list == (if CaseCmp(first0.member.key, second0.member.key) < 0 then first0 else second0)
    ensures list.prev == old(list.prev)
  {
    hide Merging, Merged, Chain, BackLinked, Apart, Distinct, MembersOf, Sort.MergeLists, Progress, CaseCmp;
    ghost var smaller := if CaseCmp(first0.member.key, second0.member.key) < 0 then first0 else second0;
    var first, second, ptr, head: Node? := first0, second0, null, null;
    ghost var f, g, out: seq<Node> := a, b, [];
    ProgressStarts(a, b);
    while first != null && second != null
      invariant Merging(out, head, ptr, first, f, second, g) && Progress(out, f, g, a, b)
      invariant head == null ==> first == first0 && second == second0
      invariant head == null ==> first0.prev == old(first0.prev) && second0.prev == old(second0.prev)
      invariant head != null ==> head == smaller && head.prev == old(head.prev)
      invariant first != null || second != null
      decreases |f| + |g|
    {
      MergingHeads(out, head, ptr, first, f, second, g);
      ProgressNodes(out, f, g, a, b);
      ghost var out0, f0, g0 := out, f, g;
      head, ptr, first, second, f, g := Round(head, ptr, first, second, out, f, g);
      out := out0 + [ptr];
      ProgressGoesOn(out0, f0, g0, out, f, g, a, b);
    }
    MergingHeads(out, head, ptr, first, f, second, g);
    ProgressNodes(out, f, g, a, b);
    all := AppendRest(head, ptr, first, second, out, f, g);
    ProgressEnds(out, f, g, a, b, all);
    list := head;
  }

  lemma ProgressGoesOn(out: seq<Node>, f: seq<Node>, g: seq<Node>,
                       out': seq<Node>, f': seq<Node>, g': seq<Node>, a: seq<Node>, b: seq<Node>)
    requires Progress(out, f, g, a, b) && multiset(out' + f' + g') == multiset(out + f + g)
    requires MembersOf(out') + Sort.MergeLists(MembersOf(f'), MembersOf(g'))
         == MembersOf(out) + Sort.MergeLists(MembersOf(f), MembersOf(g))
    ensures Progress(out', f', g', a, b)
  {
  }

  lemma ProgressEnds(out: seq<Node>, f: seq<Node>, g: seq<Node>, a: seq<Node>, b: seq<Node>, all: seq<Node>)
    requires Progress(out, f, g, a, b) && multiset(all) == multiset(out + f + g)
    requires MembersOf(all) == MembersOf(out) + Sort.MergeLists(MembersOf(f), MembersOf(g))
    ensures multiset(all) == multiset(a + b)
    ensures MembersOf(all) == Sort.MergeLists(MembersOf(a), MembersOf(b))
  {
  }

  // Cut the list in front of its second half.
  method Cut(list: Node, second: Node, ghost c: seq<Node>, ghost half: nat)
    requires Chain(list, c) && BackLinked(c) && 0 < half < |c| && second == c[half]
    modifies c
    ensures Chain(list, c[..half]) && Chain(second, c[half..])
    ensures BackLinked(c[..half]) && BackLinked(c[half..])
    ensures Apart(c[..half], c[half..]) && Apart(c[half..], c[..half])
    ensures forall n <- c :: n.prev == old(n.prev)
  {
    assert second.prev == c[half - 1];
    if second.prev != null {
      second.prev.next := null;
    }
  }

  lemma ApartSorted(a: seq<Node>, b: seq<Node>, s: seq<Node>, t: seq<Node>)
    requires Apart(a, b) && multiset(s) == multiset(a) && multiset(t) == multiset(b)
    ensures Apart(s, t) && Apart(t, s)
    ensures forall i :: 0 <= i < |s| ==> s[i] in a
    ensures forall i :: 0 <= i < |t| ==> t[i] in b
  {
    forall i | 0 <= i < |s|
      ensures s[i] in a
    {
      assert s[i] in multiset(s);
    }
    forall i | 0 <= i < |t|
      ensures t[i] in b
    {
      assert t[i] in multiset(t);
    }
  }

  lemma StartMerge(first: Node, f: seq<Node>, second: Node, g: seq<Node>)
    requires Chain(first, f) && BackLinked(f) && Chain(second, g) && BackLinked(g) && Apart(f, g) && Apart(g, f)
    ensures Merging([], null, null, first, f, second, g)
  {
  }

  method SortHalves(list: Node, second: Node, ghost a: seq<Node>, ghost b: seq<Node>)
    returns (head: Node, ghost s: seq<Node>)
    requires Chain(list, a) && Chain(second, b) && BackLinked(a) && BackLinked(b) && Apart(a, b) && Apart(b, a)
    modifies a, b
    ensures Chain(head, s) && BackLinked(s) && multiset(s) == multiset(a + b)
    ensures MembersOf(s) == Sort.MergeLists(Sort.SortList(MembersOf(a)), Sort.SortList(MembersOf(b)))
    ensures a != [] && b != [] && head in a + b && head.prev == old(head.prev)
    ensures head == if CaseCmp(HeadKey(a), HeadKey(b)) < 0 then HeadOf(a) else HeadOf(b)
    decreases |a| + |b|, 0, 0
  {
    hide MembersOf, Sort.SortList, Sort.MergeLists, CaseCmp;
    assert a != [] && b != [];
    ghost var s1, s2;
    var first, rest;
    assert forall i :: 0 <= i < |b| ==> b[i] !in a by { assert forall i :: 0 <= i < |b| ==> b[i] in b; }
    first, s1 := SortList(list, a);
    assert forall i :: 0 <= i < |b| ==> b[i].next == old(b[i].next) && b[i].prev == old(b[i].prev);
    assert Chain(second, b);
    assert BackLinked(b);
    rest, s2 := SortList(second, b);
    ApartSorted(a, b, s1, s2);
    StartMerge(first, s1, rest, s2);
    assert multiset(a + b) == multiset(a) + multiset(b);
    assert forall n <- s1 :: n in a;
    assert forall n <- s2 :: n in b;
    head, s := MergeChains(first, rest, s1, s2);
  }

  method SplitAndSort(list: Node, second: Node, ghost c: seq<Node>, ghost half: nat)
    returns (head: Node, ghost s: seq<Node>)
    requires Chain(list, c) && BackLinked(c) && 0 < half < |c| && second == c[half]
    modifies c
    ensures Chain(head, s) && BackLinked(s) && multiset(s) == multiset(c)
    ensures MembersOf(s)
         == Sort.MergeLists(Sort.SortList(MembersOf(c[..half])), Sort.SortList(MembersOf(c[half..])))
    ensures head in c && head.prev == old(head.prev)
    ensures var a, b := c[..half], c[half..];
      head == if CaseCmp(HeadKey(a), HeadKey(b)) < 0 then HeadOf(a) else HeadOf(b)
    decreases |c|, 0, 1
  {
    hide Chain, BackLinked, Distinct, MembersOf, Sort.SortList, Sort.MergeLists, Apart, HeadOf, HeadKey, CaseCmp;
    Cut(list, second, c, half);
    ghost var a, b := c[..half], c[half..];
    assert a + b == c;
    assert forall n <- a :: n in c;
    assert forall n <- b :: n in c;
    head, s := SortHalves(list, second, a, b);
  }

  lemma AtLeastTwo(list: Node, c: seq<Node>)
    requires Chain(list, c) && list.next != null
    ensures |c| >= 2
  {
  }

  // The whole sort. Its list is that of Sort.SortList; every inner `prev` is right, and the
  // `prev` of the new head is whatever that node had before.
  method SortList(list: Node?, ghost c: seq<Node>) returns (head: Node?, ghost s: seq<Node>)
    requires Chain(list, c) && BackLinked(c)
    modifies c
    ensures Chain(head, s) && BackLinked(s) && multiset(s) == multiset(c)
    ensures MembersOf(s) == Sort.SortList(MembersOf(c))
    ensures c == [] <==> list == null
    ensures c != [] ==> head == HeadOf(c) && head.prev == old(head.prev)
    decreases |c|, 1, 0
  {
    if list == null || list.next == null {
      return list, c;
    }
    hide Chain, BackLinked, Distinct, MembersOf, Sort.SortList, Sort.Ascending, Apart, CaseCmp;
    AtLeastTwo(list, c);
    var ascending := IsAscending(list, c);
    if ascending {
      SortedAlready(MembersOf(c));
      return list, c;
    }
    var second := FindMiddle(list, c);
    head, s := SplitAndSort(list, second, c, (|c| + 1) / 2);
    SortUnfolds(c, (|c| + 1) / 2);
  }

  lemma SortedAlready(ms: seq<Member>)
    requires Sort.Ascending(ms)
    ensures Sort.SortList(ms) == ms
  {
  }

  lemma SortUnfold(ms: seq<Member>, half: nat)
    requires |ms| >= 2 && half == (|ms| + 1) / 2 && !Sort.Ascending(ms)
    ensures Sort.SortList(ms) == Sort.MergeLists(Sort.SortList(ms[..half]), Sort.SortList(ms[half..]))
    ensures var i, j := Sort.HeadIndex(ms[..half]), half + Sort.HeadIndex(ms[half..]);
      Sort.HeadIndex(ms) == if CaseCmp(ms[i].key, ms[j].key) < 0 then i else j
  {
  }

  lemma SortUnfolds(c: seq<Node>, half: nat)
    requires |c| >= 2 && half == (|c| + 1) / 2 && !Sort.Ascending(MembersOf(c))
    ensures Sort.SortList(MembersOf(c))
         == Sort.MergeLists(Sort.SortList(MembersOf(c[..half])), Sort.SortList(MembersOf(c[half..])))
    ensures var a, b := c[..half], c[half..];
      HeadOf(c) == if CaseCmp(HeadKey(a), HeadKey(b)) < 0 then HeadOf(a) else HeadOf(b)
  {
    hide Sort.SortList, Sort.MergeLists, Sort.Ascending, Sort.HeadIndex, CaseCmp;
    var ms := MembersOf(c);
    assert ms[..half] == MembersOf(c[..half]) && ms[half..] == MembersOf(c[half..]);
    SortUnfold(ms, half);
  }

  // The first node has a `prev`: of all links, the only one that is wrong after a sort.
  ghost predicate HeadStale(c: seq<Node>)
    reads c
  {
    c != [] && c[0].prev != null
  }

  // The object that the list stands for.
  ghost function ObjectOf(c: seq<Node>): Json
    reads c
  {
    Object(MembersOf(c), HeadStale(c))
  }

  // The nodes point at each other in a circle.
  ghost predicate Ring(head: Node?, r: seq<Node>)
    reads r
  {
    r != [] && head == r[0] && forall i :: 0 <= i < |r| ==> r[i].next == r[if i + 1 < |r| then i + 1 else 0]
  }

  lemma {:induction false} StaysInRing(r: seq<Node>, c: seq<Node>, i: nat)
    requires c != [] && Ring(c[0], r) && Chain(c[0], c) && i < |c|
    ensures c[i] in r
    decreases i
  {
    if i > 0 {
      StaysInRing(r, c, i - 1);
      var k :| 0 <= k < |r| && r[k] == c[i - 1];
      var next := if k + 1 < |r| then k + 1 else 0;
      assert c[i] == r[k].next == r[next];
    }
  }

  lemma RingGoesOn(head: Node?, r: seq<Node>)
    requires Ring(head, r)
    ensures forall i :: 0 <= i < |r| ==> r[i].next != null
  {
    forall i | 0 <= i < |r| ensures r[i].next != null {
      assert r[i].next == r[if i + 1 < |r| then i + 1 else 0];
    }
  }

  // Following `next` in a ring never comes to an end.
  lemma RingIsNoChain(head: Node?, r: seq<Node>, c: seq<Node>)
    requires Ring(head, r)
    ensures !Chain(head, c)
  {
    if Chain(head, c) {
      StaysInRing(r, c, |c| - 1);
      RingGoesOn(head, r);
      assert false;
    }
  }

  lemma SameNodes(s: seq<Node>, c: seq<Node>)
    requires multiset(s) == multiset(c)
    ensures |s| == |c|
    ensures forall i :: 0 <= i < |s| ==> s[i] in c
    ensures forall i :: 0 <= i < |c| ==> c[i] in s
  {
    assert |multiset(s)| == |s| && |multiset(c)| == |c|;
    forall i | 0 <= i < |s| ensures s[i] in c {
      assert s[i] in multiset(s);
    }
    forall i | 0 <= i < |c| ensures c[i] in s {
      assert c[i] in multiset(c);
    }
  }

  // The node at `i`, or NULL behind the end.
  ghost function NodeAt(c: seq<Node>, i: nat): Node? { if i < |c| then c[i] else null }

  lemma ChainIs(head: Node?, c: seq<Node>)
    requires Chain(head, c)
    ensures Distinct(c) && (head == null <==> c == [])
  {
  }

  // What the node at `j` points back at when the one at `k` is left out.
  ghost function Behind(c: seq<Node>, k: nat, prev: Node?, j: nat): Node?
    requires j < |c| && j != k
  {
    if j == 0 || (j == 1 && k == 0) then prev else if j - 1 == k then c[k - 1] else c[j - 1]
  }

  // The links lead past the node at `k`; `prev` is the link of the first node.
  ghost predicate Bypassed(c: seq<Node>, k: nat, prev: Node?)
    reads c
  {
    && (forall j :: 0 <= j < |c| && j != k ==> c[j].next == NodeAt(c, if j + 1 == k then k + 1 else j + 1))
    && (forall j :: 0 <= j < |c| && j != k ==> c[j].prev == Behind(c, k, prev, j))
  }

  // The places in the list without the node at `k`.
  lemma PlaceIn(c: seq<Node>, k: nat, i: nat)
    requires k < |c| && Distinct(c) && i + 1 < |c|
    ensures var w, j := Without(c, k), if i < k then i else i + 1;
      && |w| == |c| - 1 && w[i] == c[j]
      && NodeAt(c, if j + 1 == k then k + 1 else j + 1) == NodeAt(w, i + 1)
      && (i > 0 ==> w[i - 1] == c[if j - 1 == k then k - 1 else j - 1])
  {
    WithoutIs(c, k);
  }

  lemma LinkedAt(c: seq<Node>, k: nat, prev: Node?, i: nat)
    requires k < |c| && Distinct(c) && Bypassed(c, k, prev) && i + 1 < |c|
    ensures var w := Without(c, k);
      |w| == |c| - 1 && w[i].next == NodeAt(w, i + 1) && w[i].prev == if i == 0 then prev else w[i - 1]
  {
    hide Without, NodeAt;
    PlaceIn(c, k, i);
    var j := if i < k then i else i + 1;
    assert c[j].next == NodeAt(c, if j + 1 == k then k + 1 else j + 1);
    assert c[j].prev == Behind(c, k, prev, j);
  }

  lemma BypassedIsList(head: Node?, c: seq<Node>, k: nat, prev: Node?)
    requires k < |c| && Distinct(c) && Bypassed(c, k, prev) && head == NodeAt(c, if k == 0 then 1 else 0)
    ensures Chain(head, Without(c, k)) && BackLinked(Without(c, k))
    ensures HeadStale(Without(c, k)) <==> |c| > 1 && prev != null
  {
    hide Without, Bypassed;
    var w := Without(c, k);
    WithoutIs(c, k);
    assert head == NodeAt(w, 0);
    forall i | 0 <= i < |w|
      ensures w[i].next == NodeAt(w, i + 1)
      ensures i > 0 ==> w[i].prev == w[i - 1]
    {
      LinkedAt(c, k, prev, i);
    }
    if w != [] {
      LinkedAt(c, k, prev, 0);
    }
  }

  lemma WithoutIs(c: seq<Node>, k: nat)
    requires k < |c| && Distinct(c)
    ensures var w := Without(c, k);
      |w| == |c| - 1 && Distinct(w) && forall i :: 0 <= i < |w| ==> w[i] == c[if i < k then i else i + 1]
  {
    var w := Without(c, k);
    forall i, j | 0 <= i < j < |w| ensures w[i] != w[j] {
      assert c[if i < k then i else i + 1] != c[if j < k then j else j + 1];
    }
  }

  // The list without the node at `k`; the first link is as stale as before.
  ghost predicate IsWithout(head: Node?, c: seq<Node>, k: nat, stale: bool)
    reads c
  {
    var w := Without(c, k);
    Chain(head, w) && BackLinked(w) && ObjectOf(w) == Object(Without(MembersOf(c), k), stale)
  }

  // A node that the stale link led to points back at the second one.
  ghost predicate Closed(c: seq<Node>, prev: Node?)
    reads c
  {
    forall j :: 0 < j < |c| && prev == c[j] ==> c[j].next == c[1] && forall i :: 0 < i < j ==> c[i].next == c[i + 1]
  }

  // Then the nodes from the second one up to it are a ring.
  ghost predicate RingOf(head: Node?, c: seq<Node>, prev: Node?)
    reads c
  {
    forall j :: 0 < j < |c| && prev == c[j] ==> Ring(head, c[1..j + 1])
  }

  lemma ClosedIsRing(head: Node?, c: seq<Node>, prev: Node?)
    requires Closed(c, prev) && head == NodeAt(c, 1)
    ensures RingOf(head, c, prev)
  {
    forall j | 0 < j < |c| && prev == c[j] ensures Ring(head, c[1..j + 1]) {
      var r := c[1..j + 1];
      assert forall i :: 0 <= i < |r| ==> r[i] == c[i + 1];
    }
  }

  // An object or array of cJSON, as the owner of its list of children.
  class Container {
    var child: Node?

    constructor (child: Node?)
      ensures this.child == child
    {
      this.child := child;
    }

    // cJSONUtils_SortObject
    method SortObject(ghost c: seq<Node>) returns (ghost s: seq<Node>)
      requires Chain(child, c) && BackLinked(c)
      modifies this, c
      ensures Chain(child, s) && BackLinked(s) && multiset(s) == multiset(c)
      ensures MembersOf(s) == Sort.SortList(MembersOf(c))
      ensures c != [] ==> child == HeadOf(c) && child.prev == old(HeadOf(c).prev)
      ensures ObjectOf(s) == Sort.SortObject(old(ObjectOf(c)))
    {
      ghost var h := Sort.HeadIndex(MembersOf(c));
      assert 0 < h < |c| ==> c[h].prev == c[h - 1];
      var head;
      head, s := SortList(child, c);
      child := head;
      assert |s| == |multiset(s)| == |c|;
    }

    // cJSON_GetArrayItem, and the same loop in other functions.
    method ItemAt(which: int, ghost c: seq<Node>) returns (n: Node?, ghost k: nat)
      requires Chain(child, c)
      ensures k == if which < 0 then 0 else if which > |c| then |c| else which
      ensures n == if k < |c| then c[k] else null
    {
      n, k := child, 0;
      var i := which;
      while n != null && i > 0
        invariant 0 <= k <= |c| && n == (if k < |c| then c[k] else null)
        invariant i == which - k && (k > 0 ==> i >= 0)
        decreases |c| - k
      {
        assert k + 1 < |c| ==> c[k].next == c[k + 1];
        n, i, k := n.next, i - 1, k + 1;
      }
    }

    // cJSON_DetachItemFromArray. A negative index counts as 0.
    method Detach(which: int, ghost c: seq<Node>) returns (item: Node?)
      requires Chain(child, c) && BackLinked(c)
      modifies this, c, if HeadStale(c) then {c[0].prev} else {}
      ensures var k := if which < 0 then 0 else which;
        if k >= |c| then item == null && Chain(child, c) && BackLinked(c) && HeadStale(c) == old(HeadStale(c))
        else
          && item == c[k] && item.next == null && item.prev == null
          && (CanDetach(old(ObjectOf(c)), k) ==> IsWithout(child, c, k, old(HeadStale(c))))
          && (k == 0 ==> RingOf(child, c, old(c[0].prev)))
    {
      hide Chain, BackLinked, Without, RingOf, Bypassed, Closed;
      WithoutMember(c, if which < 0 then 0 else which);
      var n;
      ghost var k;
      n, k := ItemAt(which, c);
      if n == null {
        return null;
      }
      ghost var head, prev := child, c[0].prev;
      ChainIs(head, c);
      Unlink(n, c, k);
      item := n;
      if CanDetach(old(ObjectOf(c)), k) {
        BypassedIsList(child, c, k, prev);
      }
      if k == 0 {
        ClosedIsRing(child, c, prev);
      }
    }

    static lemma WithoutMember(c: seq<Node>, k: nat)
      ensures MembersOf(Without(c, k)) == Without(MembersOf(c), k)
    {
    }

    // The link changes at the end of Detach.
    method Unlink(n: Node, ghost c: seq<Node>, ghost k: nat)
      requires Chain(child, c) && BackLinked(c) && k < |c| && n == c[k]
      modifies this, c, if HeadStale(c) then {c[0].prev} else {}
      ensures n.next == null && n.prev == null && child == NodeAt(c, if k == 0 then 1 else 0)
      ensures k > 0 || !old(HeadStale(c)) ==> Bypassed(c, k, old(c[0].prev))
      ensures k == 0 ==> Closed(c, old(c[0].prev))
    {
      assert k > 0 ==> n.prev == c[k - 1] && c[k - 1].next == n;
      assert k + 1 < |c| ==> n.next == c[k + 1] && c[k + 1].prev == n;
      if n.prev != null {
        n.prev.next := n.next;
      }
      if n.next != null {
        n.next.prev := n.prev;
      }
      if n == child {
        child := n.next;
      }
      n.prev, n.next := null, null;
    }

    // cJSON_AddItemToArray for an item that is not NULL.
    method Add(item: Node, ghost c: seq<Node>)
      requires Chain(child, c) && BackLinked(c) && item !in c && item.next == null && item.prev == null
      modifies this, item, c
      ensures Chain(child, c + [item]) && BackLinked(c + [item])
      ensures ObjectOf(c + [item]) == Object(MembersOf(c) + [item.member], old(HeadStale(c)))
    {
      if child == null {
        child := item;
        return;
      }
      var n := child;
      ghost var k := 0;
      while n.next != null
        invariant k < |c| && n == c[k]
        decreases |c| - k
      {
        assert k + 1 < |c| ==> c[k].next == c[k + 1];
        n, k := n.next, k + 1;
      }
      assert k == |c| - 1;
      n.next := item;
      item.prev := n;
    }

    // Sort, then detach: for every list and every index, what is left is a list if and only if the
    // item is not the first one, or the first one was the first before the sort. Otherwise the
    // stale `prev` closes a circle.
    method SortThenDetach(which: int, ghost c: seq<Node>) returns (item: Node?, ghost s: seq<Node>)
      requires Chain(child, c) && BackLinked(c) && !HeadStale(c) && c != []
      modifies this, c
      ensures multiset(s) == multiset(c) && MembersOf(s) == Sort.SortList(MembersOf(c)) && s[0] == HeadOf(c)
      ensures var k := if which < 0 then 0 else which;
        if k > 0 || s[0] == c[0] then
          && Chain(child, Without(s, k)) && BackLinked(Without(s, k))
          && item == if k < |s| then s[k] else null
        else forall r :: !Chain(child, r)
    {
      hide Sort.SortList, Sort.HeadIndex, MembersOf;
      ghost var h, j := Sort.HeadIndex(MembersOf(c)), 0;
      assert h != 0 ==> c[h].prev == c[h - 1] && c[h - 1] != c[h];
      s := SortObject(c);
      SameNodes(s, c);
      if h != 0 {
        j :| 0 <= j < |s| && s[j] == c[h - 1];
      }
      item := DetachSorted(which, s, j);
    }

    // Detach from a list whose stale link points at one of its own nodes.
    method DetachSorted(which: int, ghost s: seq<Node>, ghost j: nat) returns (item: Node?)
      requires Chain(child, s) && BackLinked(s) && (HeadStale(s) ==> 0 < j < |s| && s[0].prev == s[j])
      modifies this, s
      ensures var k := if which < 0 then 0 else which;
        if k > 0 || !old(HeadStale(s)) then
          && Chain(child, Without(s, k)) && BackLinked(Without(s, k))
          && item == if k < |s| then s[k] else null
        else forall r :: !Chain(child, r)
    {
      hide Chain, BackLinked, Ring;
      assert which >= |s| > 0 || s == [] ==> Without(s, if which < 0 then 0 else which) == s;
      item := Detach(which, s);
      if which <= 0 && old(HeadStale(s)) {
        forall r ensures !Chain(child, r) {
          RingIsNoChain(child, s[1..j + 1], r);
        }
      }
    }
  }

  lemma SortTwo(x: Member, y: Member)
    requires CaseCmp(x.key, y.key) > 0
    ensures Sort.SortList([x, y]) == [y, x]
  {
    assert [x, y][..1] == [x] && [x, y][1..] == [y];
    assert Sort.SortList([x]) == [x] && Sort.SortList([y]) == [y];
    assert Sort.MergeLists([x], [y]) == [y] + Sort.MergeLists([x], []);
  }

  lemma KeysBA()
    ensures CaseCmp("b", "a") == 1
  {
    assert Fold("b") == "b" && Fold("a") == "a";
  }

  lemma SortsTwo(s: seq<Node>, b: Node, a: Node)
    requires b.member.key == "b" && a.member.key == "a"
    requires multiset(s) == multiset([b, a]) && MembersOf(s) == Sort.SortList(MembersOf([b, a]))
    ensures s == [a, b]
  {
    hide Sort.SortList, CaseCmp;
    KeysBA();
    SortTwo(b.member, a.member);
    assert MembersOf([b, a]) == [b.member, a.member];
    assert MembersOf(s)[0] == s[0].member && MembersOf(s)[1] == s[1].member;
    assert s[0] in multiset(s) && s[1] in multiset(s);
  }

  // The smallest case: sort {"b": ..., "a": ...}, detach "a", and the node that is left points at
  // itself.
  method StaleHeadMakesACircle(v: Json) returns (rest: Node?)
    ensures rest != null && rest.next == rest
  {
    hide Sort.SortList, Sort.HeadIndex, MembersOf, CaseCmp;
    var b := new Node(Member("b", v));
    var a := new Node(Member("a", v));
    b.next, a.prev := a, b;
    var list := new Container(b);
    ghost var s := list.SortObject([b, a]);
    SortsTwo(s, b, a);
    var item := list.Detach(0, s);
    rest := list.child;
  }
}
