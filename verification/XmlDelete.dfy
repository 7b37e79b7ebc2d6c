/**
  `mxmlDelete`: the nodes of a tree are freed in postorder, without a stack. The child pointer of a
  node is cleared when its children are entered, so that it looks like a leaf on the way back.
 */
module XmlDelete {
  import opened Text
  import opened XmlTree
  import opened XmlNode

  // ----- nesting -----

  // Subtrees are nested, and so are parents.
  lemma {:induction false} Nested(l: Layout, a: nat, i: nat)
    requires Shape(l) && a < |l.nodes| && a <= i < l.end[a]
    ensures i < |l.nodes| && l.end[i] <= l.end[a] && (i > a ==> a <= l.par[i] < i)
    decreases i, 0
  {
    assert ShapeAt(l, a) && ShapeAt(l, i);
    if i > a {
      assert ShapeAt(l, i - 1);
      Nested(l, a, i - 1);
      if l.end[i - 1] == i {
        Climb(l, a, i - 1, i);
      }
      Nested(l, a, l.par[i]);
    }
  }

  // The node at `i` follows the subtree at `j`: its parent is inside the subtree at `a`.
  lemma {:induction false} Climb(l: Layout, a: nat, j: nat, i: nat)
    requires Shape(l) && a < |l.nodes| && j < |l.nodes| && a <= j < i < l.end[a] && l.end[j] == i
    ensures i < |l.nodes| && a <= l.par[i]
    decreases j, 1
  {
    assert ShapeAt(l, a) && ShapeAt(l, j) && ShapeAt(l, i);
    Nested(l, a, j);
    if l.end[j] == l.end[l.par[j]] {
      Climb(l, a, l.par[j], i);
    }
  }

  // ----- postorder -----

  // The trees from `a` to `b`, one after the other.
  ghost predicate Forest(l: Layout, a: nat, b: nat) {
    Shape(l) && a <= b <= |l.nodes| && forall i: nat | a <= i < b :: l.end[i] <= b
  }

  lemma Below(l: Layout, a: nat)
    requires Shape(l) && a < |l.nodes|
    ensures a < l.end[a] && Forest(l, a + 1, l.end[a])
  {
    assert ShapeAt(l, a);
    forall i: nat | a + 1 <= i < l.end[a]
      ensures l.end[i] <= l.end[a]
    {
      Nested(l, a, i);
    }
  }

  ghost function Posts(l: Layout, a: nat, b: nat): (r: seq<Node>)
    requires Forest(l, a, b)
    ensures |r| == b - a
    decreases b - a
  {
    if a == b then []
    else
      Below(l, a);
      Posts(l, a + 1, l.end[a]) + [l.nodes[a]] + Posts(l, l.end[a], b)
  }

  lemma {:induction false} PostsJoin(l: Layout, a: nat, m: nat, b: nat)
    requires Forest(l, a, b) && Forest(l, a, m) && m <= b
    ensures Forest(l, m, b) && Posts(l, a, b) == Posts(l, a, m) + Posts(l, m, b)
    decreases m - a
  {
    if a < m {
      Below(l, a);
      PostsJoin(l, l.end[a], m, b);
    }
  }

  // What has been freed when the walk enters the node at `i`: the trees in front of it, at every
  // level.
  lemma Left(l: Layout, i: nat)
    requires Shape(l) && 0 < i < |l.nodes|
    ensures l.par[i] < i < l.end[l.par[i]] && Forest(l, l.par[i] + 1, i)
    ensures i < l.end[i] <= l.end[l.par[i]] <= |l.nodes|
  {
    assert ShapeAt(l, i) && ShapeAt(l, l.par[i]);
    forall j: nat | l.par[i] + 1 <= j < i
      ensures l.end[j] <= i
    {
      if l.end[j] > i {
        Nested(l, j, i);
      }
    }
  }

  ghost function Done(l: Layout, i: nat): (r: seq<Node>)
    requires Shape(l) && i < |l.nodes|
    ensures |r| <= i
  {
    if i == 0 then []
    else
      Left(l, i);
      Done(l, l.par[i]) + Posts(l, l.par[i] + 1, i)
  }

  lemma OneTree(l: Layout, i: nat)
    requires Shape(l) && i < |l.nodes|
    ensures i < l.end[i] && Forest(l, i + 1, l.end[i]) && Forest(l, i, l.end[i])
    ensures Posts(l, i, l.end[i]) == Posts(l, i + 1, l.end[i]) + [l.nodes[i]]
  {
    Below(l, i);
  }

  // The node at `i` is freed after its children ...
  lemma Freed(l: Layout, i: nat)
    requires Shape(l) && 0 < i < |l.nodes|
    ensures Forest(l, i + 1, l.end[i]) && l.par[i] < i && Forest(l, l.par[i] + 1, l.end[i])
    ensures Done(l, i) + Posts(l, i + 1, l.end[i]) + [l.nodes[i]]
         == Done(l, l.par[i]) + Posts(l, l.par[i] + 1, l.end[i])
  {
    var p, e := l.par[i], l.end[i];
    Left(l, i);
    OneTree(l, i);
    assert Forest(l, p + 1, e) by {
      forall j: nat | p + 1 <= j < e
        ensures l.end[j] <= e
      {
        assert j < i || j == i || i + 1 <= j < e;
      }
    }
    assert Done(l, i) == Done(l, p) + Posts(l, p + 1, i);
    hide *;
    PostsJoin(l, p + 1, i, e);
    Regroup(Done(l, p), Posts(l, p + 1, i), Posts(l, i + 1, e), [l.nodes[i]]);
  }

  // ... then comes its next sibling.
  lemma NextSibling(l: Layout, i: nat)
    requires Shape(l) && 0 < i < |l.nodes| && l.par[i] < i && l.end[i] < l.end[l.par[i]]
    requires Forest(l, l.par[i] + 1, l.end[i])
    ensures i < l.end[i] < |l.nodes| && l.par[l.end[i]] == l.par[i]
    ensures Done(l, l.end[i]) == Done(l, l.par[i]) + Posts(l, l.par[i] + 1, l.end[i])
  {
    assert ShapeAt(l, i) && ShapeAt(l, l.par[i]);
    Left(l, l.end[i]);
  }

  lemma Regroup<T>(a: seq<T>, b: seq<T>, c: seq<T>, d: seq<T>)
    ensures a + b + c + d == a + (b + (c + d))
  {
  }

  lemma {:induction false} PostsOut(l: Layout, a: nat, b: nat, k: nat)
    requires Forest(l, a, b) && Distinct(l.nodes) && k < |l.nodes| && !(a <= k < b)
    ensures l.nodes[k] !in Posts(l, a, b)
    decreases b - a
  {
    if a < b {
      Below(l, a);
      PostsOut(l, a + 1, l.end[a], k);
      PostsOut(l, l.end[a], b, k);
    }
  }

  // The node itself, those behind it and those above it have not been freed yet.
  lemma {:induction false} DoneOut(l: Layout, i: nat, k: nat)
    requires Shape(l) && Distinct(l.nodes) && i < |l.nodes| && k < |l.nodes|
    requires i <= k || i < l.end[k]
    ensures l.nodes[k] !in Done(l, i)
    decreases i
  {
    if i > 0 {
      Left(l, i);
      var p := l.par[i];
      if k < i {
        Nested(l, k, i);
      }
      PostsOut(l, p + 1, i, k);
      DoneOut(l, p, k);
    }
  }

  /** The postorder has every node once. */
  lemma {:induction false} PostsPermute(l: Layout, a: nat, b: nat)
    requires Forest(l, a, b)
    ensures multiset(Posts(l, a, b)) == multiset(l.nodes[a..b])
    decreases b - a
  {
    if a < b {
      Below(l, a);
      var e := l.end[a];
      assert Posts(l, a, b) == Posts(l, a + 1, e) + [l.nodes[a]] + Posts(l, e, b);
      hide *;
      PostsPermute(l, a + 1, e);
      PostsPermute(l, e, b);
      PermuteStep(l.nodes, a, e, b, Posts(l, a + 1, e), Posts(l, e, b));
    }
  }

  lemma PermuteStep(s: seq<Node>, a: nat, e: nat, b: nat, x: seq<Node>, y: seq<Node>)
    requires a < e <= b <= |s| && multiset(x) == multiset(s[a + 1..e]) && multiset(y) == multiset(s[e..b])
    ensures multiset(x + [s[a]] + y) == multiset(s[a..b])
  {
    assert s[a..b] == [s[a]] + s[a + 1..e] + s[e..b];
  }

  // No node is freed after one that it lies below.
  ghost predicate ChildrenFirst(l: Layout, log: seq<Node>)
    requires Shape(l)
  {
    forall p: nat, q: nat, i: nat, j: nat | p < |log| && q < |log| && i < |l.nodes| && j < |l.nodes| ::
      log[p] == l.nodes[i] && log[q] == l.nodes[j] && i < j < l.end[i] ==> q < p
  }

  lemma {:induction false} PostsOrder(l: Layout, a: nat, b: nat, p: nat, q: nat, i: nat, j: nat)
    requires Forest(l, a, b) && Distinct(l.nodes) && i < |l.nodes| && j < |l.nodes|
    requires p < b - a && q < b - a && Posts(l, a, b)[p] == l.nodes[i] && Posts(l, a, b)[q] == l.nodes[j]
    requires i < j < l.end[i]
    ensures q < p
    decreases b - a
  {
    Below(l, a);
    var e := l.end[a];
    var x, y := Posts(l, a + 1, e), Posts(l, e, b);
    assert Posts(l, a, b) == x + [l.nodes[a]] + y;
    InPosts(l, a + 1, e, i);
    InPosts(l, a + 1, e, j);
    InPosts(l, e, b, i);
    InPosts(l, e, b, j);
    assert p < |x| ==> x[p] == l.nodes[i];
    assert q < |x| ==> x[q] == l.nodes[j];
    assert p > |x| ==> y[p - |x| - 1] == l.nodes[i];
    assert q > |x| ==> y[q - |x| - 1] == l.nodes[j];
    if p < |x| && q < |x| {
      PostsOrder(l, a + 1, e, p, q, i, j);
    } else if p > |x| && q > |x| {
      PostsOrder(l, e, b, p - |x| - 1, q - |x| - 1, i, j);
    }
  }

  lemma InPosts(l: Layout, a: nat, b: nat, k: nat)
    requires Forest(l, a, b) && Distinct(l.nodes) && k < |l.nodes|
    ensures l.nodes[k] in Posts(l, a, b) ==> a <= k < b && l.end[k] <= b
  {
    if !(a <= k < b) {
      PostsOut(l, a, b, k);
    }
  }

  // ----- the loop -----

  ghost predicate SideAt(l: Layout, j: nat)
    requires Shape(l) && 0 < j < |l.nodes|
    reads l.nodes
  {
    assert ShapeAt(l, j);
    && l.nodes[j].parent == l.nodes[l.par[j]]
    && l.nodes[j].next == (if l.end[j] < l.end[l.par[j]] then l.nodes[l.end[j]] else null)
  }

  ghost predicate ChildAt(l: Layout, j: nat)
    requires Shape(l) && j < |l.nodes|
    reads l.nodes
  {
    assert ShapeAt(l, j);
    l.nodes[j].child == (if j + 1 < l.end[j] then l.nodes[j + 1] else null)
  }

  ghost predicate Sides(l: Layout)
    requires Shape(l)
    reads l.nodes
  {
    forall j: nat | 0 < j < |l.nodes| :: SideAt(l, j)
  }

  // The child pointers from `m` on have not been touched.
  ghost predicate Kept(l: Layout, m: nat)
    requires Shape(l)
    reads l.nodes
  {
    forall j: nat | m <= j < |l.nodes| :: ChildAt(l, j)
  }

  // Those of the nodes above the one at `i` have been cleared.
  ghost predicate Cleared(l: Layout, i: nat)
    requires Shape(l)
    reads l.nodes
  {
    forall j: nat | 0 < j < i && j < |l.nodes| && i < l.end[j] :: l.nodes[j].child == null
  }

  ghost predicate AllFreed(l: Layout, log: seq<Node>)
    reads l.nodes
  {
    forall j: nat | j < |l.nodes| :: l.nodes[j].live <==> l.nodes[j] !in log
  }

  // The loop is at the node at `i`; its children up to `m`, all or none, have been freed.
  ghost predicate At(l: Layout, i: nat, m: nat, log: seq<Node>) {
    && Shape(l) && 0 < i < |l.nodes| && (m == i + 1 || m == l.end[i])
    && Forest(l, i + 1, m) && log == Done(l, i) + Posts(l, i + 1, m)
  }

  ghost predicate Deleting(l: Layout, i: nat, m: nat, log: seq<Node>)
    requires At(l, i, m, log)
    reads l.nodes
  {
    && Sides(l) && Kept(l, m) && Cleared(l, i) && AllFreed(l, log)
    && l.nodes[i].child == (if m < l.end[i] && m < |l.nodes| then l.nodes[m] else null)
  }

  // Fields are read from nodes only that have not been freed.
  function ChildOf(n: Node): Node?
    requires n.live
    reads n
  {
    n.child
  }

  function NextOf(n: Node): Node?
    requires n.live
    reads n
  {
    n.next
  }

  function ParentOf(n: Node): Node?
    requires n.live
    reads n
  {
    n.parent
  }

  // `mxml_free`
  method Free(n: Node, ghost log: seq<Node>) returns (ghost after: seq<Node>)
    requires n.live
    modifies n`live
    ensures !n.live && after == log + [n]
  {
    n.live := false;
    after := log + [n];
  }

  ghost predicate TreeShape(l: Layout) { Shape(l) && Distinct(l.nodes) }

  lemma NotYet(l: Layout, i: nat, m: nat, log: seq<Node>)
    requires TreeShape(l) && At(l, i, m, log)
    ensures l.nodes[i] !in log && |log| < |l.nodes|
  {
    DoneOut(l, i, i);
    PostsOut(l, i + 1, m, i);
  }

  // From the node at `i` into its children ...
  lemma Enters(l: Layout, i: nat, log: seq<Node>)
    requires TreeShape(l) && At(l, i, i + 1, log) && i + 1 < l.end[i]
    ensures i + 1 < |l.nodes| && At(l, i + 1, i + 2, log)
  {
    assert ShapeAt(l, i);
    assert Posts(l, i + 1, i + 1) == [];
    Left(l, i + 1);
    assert ShapeAt(l, i + 1);
    assert Posts(l, i + 2, i + 2) == [];
  }

  // ... or, when it is freed, to its next sibling or its parent.
  lemma Leaves(l: Layout, i: nat, log: seq<Node>)
    requires TreeShape(l) && i < |l.nodes| && At(l, i, l.end[i], log)
    ensures l.par[i] < i < l.end[i] <= l.end[l.par[i]] <= |l.nodes|
    ensures l.end[i] < l.end[l.par[i]] ==> At(l, l.end[i], l.end[i] + 1, log + [l.nodes[i]])
    ensures l.end[i] == l.end[l.par[i]] && l.par[i] > 0 ==> At(l, l.par[i], l.end[i], log + [l.nodes[i]])
    ensures l.end[i] == l.end[l.par[i]] && l.par[i] == 0 ==>
              Forest(l, 1, |l.nodes|) && log + [l.nodes[i]] == Posts(l, 1, |l.nodes|)
  {
    Freed(l, i);
    Left(l, i);
    if l.end[i] < l.end[l.par[i]] {
      NextSibling(l, i);
      assert Posts(l, l.end[i] + 1, l.end[i] + 1) == [];
    }
  }

  lemma LaidTree(l: Layout)
    requires Laid(l)
    ensures TreeShape(l) && Sides(l) && Kept(l, 0)
  {
    forall j: nat | j < |l.nodes|
      ensures ChildAt(l, j) && (j > 0 ==> SideAt(l, j))
    {
      assert ShapeAt(l, j) && LinksAt(l, j);
    }
  }

  lemma Begins(l: Layout)
    requires TreeShape(l) && |l.nodes| > 1 && Sides(l) && Kept(l, 0) && AllFreed(l, [])
    ensures At(l, 1, 2, []) && Deleting(l, 1, 2, []) && ChildAt(l, 0) && l.nodes[0].child == l.nodes[1]
  {
    assert ShapeAt(l, 0) && ShapeAt(l, 1) && ChildAt(l, 0) && ChildAt(l, 1);
    Left(l, 1);
    assert Posts(l, 2, 2) == [];
    assert Done(l, 1) == Done(l, 0) + Posts(l, 1, 1);
  }

  // The loop of `mxmlDelete`.
  method FreeChildren(node: Node, ghost l: Layout) returns (ghost log: seq<Node>)
    requires Laid(l) && node == l.nodes[0] && forall n <- l.nodes :: n.live
    modifies l.nodes
    ensures TreeShape(l) && Forest(l, 1, |l.nodes|) && log == Posts(l, 1, |l.nodes|)
    ensures AllFreed(l, log)
  {
    LaidTree(l);
    ghost var size := |l.nodes|;
    ghost var i: nat, m: nat := 1, 2;
    log := [];
    assert AllFreed(l, log);
    var current := ChildOf(node);
    assert ChildAt(l, 0) && ShapeAt(l, 0);
    if size > 1 {
      Begins(l);
    } else {
      assert Posts(l, 1, 1) == [];
    }
    hide *;
    while current != null
      invariant TreeShape(l) && size == |l.nodes| && AllFreed(l, log)
      invariant current != null ==>
                  && TreeShape(l) && At(l, i, m, log) && 0 < i < size && current == l.nodes[i] && node == l.nodes[0]
                  && Deleting(l, i, m, log)
      invariant current == null ==> Forest(l, 1, size) && log == Posts(l, 1, size)
      decreases size - |log|, if current == null then 0 else 1 + size - i
    {
      NotYet(l, i, m, log);
      IsLive(l, i, m, log);
      var next := ChildOf(current);
      if next != null {
        StepDown(current, next, l, i, m, log);
        current := next;
        i, m := i + 1, i + 2;
      } else {
        current, i, m, log := FreeOne(current, node, l, i, m, log);
      }
    }
  }

  lemma IsLive(l: Layout, i: nat, m: nat, log: seq<Node>)
    requires At(l, i, m, log) && i < |l.nodes| && Deleting(l, i, m, log) && l.nodes[i] !in log
    ensures l.nodes[i].live && AllFreed(l, log)
  {
  }

  // Into the children of the node: its child pointer is cleared.
  method StepDown(current: Node, next: Node, ghost l: Layout, ghost i: nat, ghost m: nat, ghost log: seq<Node>)
    requires TreeShape(l) && At(l, i, m, log) && 0 < i < |l.nodes| && current == l.nodes[i] && current.live
    requires Deleting(l, i, m, log) && current.child == next
    modifies current`child
    ensures At(l, i + 1, i + 2, log) && i + 1 < |l.nodes| && next == l.nodes[i + 1]
    ensures Deleting(l, i + 1, i + 2, log)
  {
    Enters(l, i, log);
    current.child := null;
    forall j: nat | i + 2 <= j < |l.nodes|
      ensures ChildAt(l, j)
    {
      assert old(ChildAt(l, j));
    }
    forall j: nat | 0 < j < |l.nodes|
      ensures SideAt(l, j)
    {
      assert old(SideAt(l, j));
    }
    assert old(ChildAt(l, i + 1)) && ChildAt(l, i + 1) && ShapeAt(l, i + 1);
    forall j: nat | 0 < j < i + 1 && i + 1 < l.end[j]
      ensures l.nodes[j].child == null
    {
      assert j < i ==> old(l.nodes[j].child) == null;
    }
  }

  lemma ClearedNext(l: Layout, i: nat)
    requires Shape(l) && 0 < i < |l.nodes| && Cleared(l, i)
    ensures l.par[i] < i && Cleared(l, l.end[i]) && Cleared(l, l.par[i])
    ensures l.par[i] > 0 ==> l.nodes[l.par[i]].child == null
  {
    Left(l, i);
    forall j: nat | 0 < j < |l.nodes|
      ensures j < l.end[i] < l.end[j] ==> l.nodes[j].child == null
      ensures j < l.par[i] < l.end[j] ==> l.nodes[j].child == null
    {
      if i < j < l.end[i] {
        Nested(l, i, j);
      }
      if j < l.par[i] < l.end[j] {
        Nested(l, j, l.par[i]);
      }
    }
  }

  // The node is freed, and the loop goes on with its next sibling or its parent.
  method FreeOne(current: Node, node: Node, ghost l: Layout, ghost i: nat, ghost m: nat, ghost log: seq<Node>)
    returns (next: Node?, ghost i': nat, ghost m': nat, ghost after: seq<Node>)
    requires TreeShape(l) && At(l, i, m, log) && 0 < i < |l.nodes| && current == l.nodes[i] && current.live
    requires Deleting(l, i, m, log) && current.child == null && node == l.nodes[0]
    modifies current`live
    ensures after == log + [current] && AllFreed(l, after)
    ensures next != null ==>
              At(l, i', m', after) && 0 < i' < |l.nodes| && next == l.nodes[i'] && Deleting(l, i', m', after)
    ensures next == null ==> Forest(l, 1, |l.nodes|) && after == Posts(l, 1, |l.nodes|)
  {
    assert SideAt(l, i) && ShapeAt(l, i);
    Leaves(l, i, log);
    ClearedNext(l, i);
    next := NextOf(current);
    i', m' := if next == null then l.par[i] else l.end[i], if next == null then l.end[i] else l.end[i] + 1;
    if next == null {
      next := ParentOf(current);
      if next == node {
        next := null;
      }
    }
    after := Free(current, log);
    forall j: nat | 0 < j < |l.nodes|
      ensures SideAt(l, j)
    {
      assert old(SideAt(l, j));
    }
    forall j: nat | m <= j < |l.nodes|
      ensures ChildAt(l, j)
    {
      assert old(ChildAt(l, j));
    }
    assert l.end[i] < |l.nodes| ==> ShapeAt(l, l.end[i]) && ChildAt(l, l.end[i]);
  }

  // ----- mxmlDelete -----

  function Postorder(t: Tree): seq<Node>
    decreases t, 0
  {
    PostorderAll(t.kids) + [t.node]
  }

  function PostorderAll(ts: seq<Tree>): seq<Node>
    decreases ts, 0
  {
    if ts == [] then [] else Postorder(ts[0]) + PostorderAll(ts[1..])
  }

  /** The order in which a layout is freed is the postorder of the tree. */
  lemma {:induction false} PostsIsPostorder(l: Layout, ts: seq<Tree>, at: nat, end: nat, parent: nat)
    requires Forest(l, at, end) && Stands(l, ts, at, end, parent)
    ensures Posts(l, at, end) == PostorderAll(ts)
    decreases ts
  {
    StandsInside(l, ts, at, end, parent);
    if ts != [] {
      var mid := at + |Preorder(ts[0])|;
      StandsSplit(l, ts, at, end, parent);
      Below(l, at);
      assert Posts(l, at, end) == Posts(l, at + 1, mid) + [ts[0].node] + Posts(l, mid, end);
      assert PostorderAll(ts) == PostorderAll(ts[0].kids) + [ts[0].node] + PostorderAll(ts[1..]);
      hide *;
      PostsIsPostorder(l, ts[0].kids, at + 1, mid, at);
      PostsIsPostorder(l, ts[1..], mid, end, parent);
    }
  }

  lemma WholeForest(l: Layout)
    requires Shape(l)
    ensures Forest(l, 0, |l.nodes|)
  {
    forall i: nat | i < |l.nodes|
      ensures l.end[i] <= |l.nodes|
    {
      assert ShapeAt(l, i);
    }
  }

  lemma LastFreed(l: Layout, log: seq<Node>)
    requires TreeShape(l) && Forest(l, 1, |l.nodes|) && log == Posts(l, 1, |l.nodes|)
    ensures Forest(l, 0, |l.nodes|) && log + [l.nodes[0]] == Posts(l, 0, |l.nodes|)
    ensures l.nodes[0] !in log && ChildrenFirst(l, log + [l.nodes[0]])
    ensures multiset(log + [l.nodes[0]]) == multiset(l.nodes)
  {
    WholeForest(l);
    OneTree(l, 0);
    PostsOut(l, 1, |l.nodes|, 0);
    PostsPermute(l, 0, |l.nodes|);
    assert l.nodes[0..|l.nodes|] == l.nodes;
    forall p: nat, q: nat, i: nat, j: nat | p < |l.nodes| && q < |l.nodes| && i < |l.nodes| && j < |l.nodes|
      ensures Posts(l, 0, |l.nodes|)[p] == l.nodes[i] && Posts(l, 0, |l.nodes|)[q] == l.nodes[j] && i < j < l.end[i]
              ==> q < p
    {
      if Posts(l, 0, |l.nodes|)[p] == l.nodes[i] && Posts(l, 0, |l.nodes|)[q] == l.nodes[j] && i < j < l.end[i] {
        PostsOrder(l, 0, |l.nodes|, p, q, i, j);
      }
    }
  }

  /**
    `mxmlDelete` frees every node of the tree exactly once, children before their parents, and reads
    no node that has been freed. The node is child `k` of its parent, if it has one, whose list of
    children is left without it.
   */
  method Delete(node: Node?, ghost l: Layout, ghost c: seq<Node>, ghost k: nat) returns (ghost log: seq<Node>)
    requires node != null ==> Laid(l) && node == l.nodes[0] && forall n <- l.nodes :: n.live
    requires node != null && node.parent != null ==>
               && k < |c| && Kids(node.parent, c) && c[k] == node && node.parent !in c
               && node.parent !in l.nodes && forall n <- c :: n != node ==> n !in l.nodes
    modifies if node == null then {} else
               (set n <- l.nodes) + if node.parent == null then {} else {node.parent} + (set n <- c)
    ensures node == null ==> log == []
    ensures node != null ==>
              && Shape(l) && Forest(l, 0, |l.nodes|) && log == Posts(l, 0, |l.nodes|)
              && multiset(log) == multiset(l.nodes) && ChildrenFirst(l, log)
              && forall n <- l.nodes :: !n.live
    ensures node != null && old(node.parent) != null ==> Kids(old(node.parent), Without(c, k))
    ensures node != null && old(node.parent) != null ==>
              old(node.parent).live == old(node.parent.live) && forall n <- Without(c, k) :: n.live == old(n.live)
  {
    log := [];
    if node == null {
      return;
    }
    ghost var parent := node.parent;
    if parent != null {
      WithoutNode(c, k);
    }
    Detach(node, l, c, k);
    hide *;
    log := FreeAll(node, l, parent, if parent == null then [] else Without(c, k));
  }

  // Another list of children is not touched.
  method FreeAll(node: Node, ghost l: Layout, ghost parent: Node?, ghost d: seq<Node>) returns (ghost log: seq<Node>)
    requires Laid(l) && node == l.nodes[0] && forall n <- l.nodes :: n.live
    requires parent != null ==> Kids(parent, d) && parent !in l.nodes && forall n <- d :: n !in l.nodes
    modifies l.nodes
    ensures Shape(l) && Forest(l, 0, |l.nodes|) && log == Posts(l, 0, |l.nodes|)
    ensures multiset(log) == multiset(l.nodes) && ChildrenFirst(l, log)
    ensures forall n <- l.nodes :: !n.live
    ensures parent != null ==> Kids(parent, d) && parent.live == old(parent.live)
    ensures forall n <- d :: parent != null ==> n.live == old(n.live)
  {
    assert node in l.nodes;
    hide Laid, Shape, Distinct, Posts, Forest, ChildrenFirst, AllFreed;
    log := FreeChildren(node, l);
    log := FreeTop(node, l, log);
    if parent != null {
      forall j: nat | j < |d|
        ensures Chained(parent, d, j)
      {
        assert old(Chained(parent, d, j)) && d[j] in d;
      }
    }
  }

  method FreeTop(node: Node, ghost l: Layout, ghost log: seq<Node>) returns (ghost after: seq<Node>)
    requires TreeShape(l) && Forest(l, 1, |l.nodes|) && log == Posts(l, 1, |l.nodes|) && AllFreed(l, log)
    requires node == l.nodes[0]
    modifies node`live
    ensures Shape(l) && Forest(l, 0, |l.nodes|) && after == Posts(l, 0, |l.nodes|)
    ensures multiset(after) == multiset(l.nodes) && ChildrenFirst(l, after)
    ensures forall n <- l.nodes :: !n.live
  {
    LastFreed(l, log);
    after := Free(node, log);
    forall j: nat | j < |l.nodes|
      ensures !l.nodes[j].live
    {
      assert l.nodes[j] in multiset(after);
      assert l.nodes[j] in log + [node];
    }
  }

  // `mxmlRemove` leaves the tree under the node as it is.
  method Detach(node: Node, ghost l: Layout, ghost c: seq<Node>, ghost k: nat)
    requires Laid(l) && node == l.nodes[0] && forall n <- l.nodes :: n.live
    requires node.parent != null ==>
               && k < |c| && Kids(node.parent, c) && c[k] == node && node.parent !in c
               && node.parent !in l.nodes && forall n <- c :: n != node ==> n !in l.nodes
    modifies if node.parent == null then {} else {node.parent} + (set n <- c)
    ensures Laid(l) && forall n <- l.nodes :: n.live
    ensures old(node.parent) != null ==>
              && Kids(old(node.parent), Without(c, k)) && old(node.parent).live == old(node.parent.live)
              && forall n <- c :: n.live == old(n.live)
  {
    ghost var parent := node.parent;
    Remove(node, c, k);
    forall i: nat | i < |l.nodes|
      ensures ShapeAt(l, i) && LinksAt(l, i) && l.nodes[i].live
    {
      assert old(LinksAt(l, i)) && l.nodes[i] in l.nodes;
      assert i > 0 && parent != null ==> l.nodes[i] !in c && l.nodes[i] != parent;
    }
  }
}
