/**
  Mini-XML's node tree: `mxmlWalkNext` and `mxmlFindElement`. The nodes are objects with the C
  pointers. A tree is laid out as the sequence of its nodes in document order, each with the end of
  its subtree; the walk moves along that sequence.
 */
module XmlTree {
  import opened Text

  datatype Attr = Attr(name: string, value: Option<string>)

  datatype Value = Element(name: string, attrs: seq<Attr>) | Opaque(text: string)

  // The value of the first attribute with that name.
  function AttrIn(attrs: seq<Attr>, name: string): Option<string> {
    if attrs == [] then None
    else if attrs[0].name == name then attrs[0].value
    else AttrIn(attrs[1..], name)
  }

  // The names and values of nodes do not change while a tree is walked, linked or searched.
  class Node {
    const value: Value
    var next: Node?
    var prev: Node?
    var parent: Node?
    var child: Node?
    var lastChild: Node?
    // The node has not been freed.
    var live: bool

    constructor (value: Value)
      ensures this.value == value && live
      ensures next == prev == parent == child == lastChild == null
    {
      this.value, live := value, true;
      next, prev, parent, child, lastChild := null, null, null, null, null;
    }
  }

  // ----- document order -----

  datatype Tree = Tree(node: Node, kids: seq<Tree>)

  function Preorder(t: Tree): (r: seq<Node>)
    ensures r != [] && r[0] == t.node
    decreases t, 0
  {
    [t.node] + PreorderAll(t.kids)
  }

  function PreorderAll(ts: seq<Tree>): seq<Node>
    decreases ts, 0
  {
    if ts == [] then [] else Preorder(ts[0]) + PreorderAll(ts[1..])
  }

  function NodesOf(s: seq<Node>): set<Node> { set n <- s }

  // The pointers of a tree, apart from those of its root to the outside.
  ghost predicate Linked(t: Tree)
    reads NodesOf(Preorder(t))
    decreases t, 1
  {
    assert NodesOf(PreorderAll(t.kids)) <= NodesOf(Preorder(t));
    && t.node.child == (if t.kids == [] then null else t.kids[0].node)
    && LinkedAll(t.kids, t.node)
  }

  ghost predicate LinkedAll(ts: seq<Tree>, parent: Node)
    reads NodesOf(PreorderAll(ts))
    decreases ts, 1
  {
    assert ts != [] ==> NodesOf(Preorder(ts[0])) <= NodesOf(PreorderAll(ts)) && Preorder(ts[0])[0] in PreorderAll(ts);
    assert ts != [] ==> NodesOf(PreorderAll(ts[1..])) <= NodesOf(PreorderAll(ts));
    ts != [] ==>
      && ts[0].node.parent == parent
      && ts[0].node.next == (if |ts| == 1 then null else ts[1].node)
      && Linked(ts[0]) && LinkedAll(ts[1..], parent)
  }

  // ----- the layout -----

  // The nodes in document order, where the subtree of each one ends, and its parent.
  datatype Layout = Layout(nodes: seq<Node>, end: seq<nat>, par: seq<nat>)

  // The shape at `i`: subtrees are nested, and what follows a node is its first child or the next
  // sibling of the last subtree that ends there.
  ghost predicate ShapeAt(l: Layout, i: nat)
    requires i < |l.nodes| == |l.end| == |l.par|
  {
    && i < l.end[i] <= |l.nodes|
    && (i > 0 ==> l.par[i] < i && l.end[i] <= l.end[l.par[i]])
    && (i + 1 < l.end[i] ==> l.par[i + 1] == i)
    && (i > 0 && l.end[i] < l.end[l.par[i]] ==> l.end[i] < |l.nodes| && l.par[l.end[i]] == l.par[i])
  }

  ghost predicate Shape(l: Layout) {
    && 0 < |l.nodes| == |l.end| == |l.par|
    && l.end[0] == |l.nodes|
    && forall i: nat | i < |l.nodes| :: ShapeAt(l, i)
  }

  ghost predicate LinksAt(l: Layout, i: nat)
    requires i < |l.nodes| == |l.end| == |l.par| && ShapeAt(l, i)
    reads l.nodes
  {
    && l.nodes[i].child == (if i + 1 < l.end[i] then l.nodes[i + 1] else null)
    && (i > 0 ==>
         && l.nodes[i].parent == l.nodes[l.par[i]]
         && l.nodes[i].next == (if l.end[i] < l.end[l.par[i]] then l.nodes[l.end[i]] else null))
  }

  ghost predicate Distinct(s: seq<Node>) { forall i, j :: 0 <= i < j < |s| ==> s[i] != s[j] }

  ghost predicate Laid(l: Layout)
    reads l.nodes
  {
    && Shape(l) && Distinct(l.nodes)
    && forall i: nat | i < |l.nodes| :: LinksAt(l, i)
  }

  function Ends(t: Tree, at: nat): seq<nat>
    decreases t, 0
  {
    [at + |Preorder(t)|] + EndsAll(t.kids, at + 1)
  }

  function EndsAll(ts: seq<Tree>, at: nat): seq<nat>
    decreases ts, 0
  {
    if ts == [] then [] else Ends(ts[0], at) + EndsAll(ts[1..], at + |Preorder(ts[0])|)
  }

  function Parents(t: Tree, at: nat, parent: nat): seq<nat>
    decreases t, 0
  {
    [parent] + ParentsAll(t.kids, at + 1, at)
  }

  function ParentsAll(ts: seq<Tree>, at: nat, parent: nat): seq<nat>
    decreases ts, 0
  {
    if ts == [] then [] else Parents(ts[0], at, parent) + ParentsAll(ts[1..], at + |Preorder(ts[0])|, parent)
  }

  function LayoutOf(t: Tree): Layout { Layout(Preorder(t), Ends(t, 0), Parents(t, 0, 0)) }

  lemma {:induction false} SameSizes(t: Tree, at: nat, parent: nat)
    ensures |Ends(t, at)| == |Preorder(t)| == |Parents(t, at, parent)|
    decreases t, 0
  {
    SameSizesAll(t.kids, at + 1, at);
  }

  lemma {:induction false} SameSizesAll(ts: seq<Tree>, at: nat, parent: nat)
    ensures |EndsAll(ts, at)| == |PreorderAll(ts)| == |ParentsAll(ts, at, parent)|
    decreases ts, 0
  {
    if ts != [] {
      SameSizes(ts[0], at, parent);
      SameSizesAll(ts[1..], at + |Preorder(ts[0])|, parent);
    }
  }

  // The trees of `ts` stand in the layout from `at` on, below the node at `parent`.
  ghost predicate Stands(l: Layout, ts: seq<Tree>, at: nat, end: nat, parent: nat) {
    && |l.nodes| == |l.end| == |l.par|
    && parent < at <= end <= |l.nodes|
    && l.nodes[at..end] == PreorderAll(ts)
    && l.end[at..end] == EndsAll(ts, at)
    && l.par[at..end] == ParentsAll(ts, at, parent)
  }

  // The first tree and the other ones.
  lemma StandsSplit(l: Layout, ts: seq<Tree>, at: nat, end: nat, parent: nat)
    requires ts != [] && Stands(l, ts, at, end, parent)
    ensures at < at + |Preorder(ts[0])| <= end
    ensures
      var mid := at + |Preorder(ts[0])|;
      && l.nodes[at] == ts[0].node && l.end[at] == mid && l.par[at] == parent
      && Stands(l, ts[0].kids, at + 1, mid, at)
      && Stands(l, ts[1..], mid, end, parent)
  {
    var t, n := ts[0], |Preorder(ts[0])|;
    var mid := at + n;
    SameSizes(t, at, parent);
    SameSizesAll(ts[1..], mid, parent);
    SplitAt(l.nodes, at, end, n, Preorder(t), PreorderAll(ts[1..]));
    SplitAt(l.end, at, end, n, Ends(t, at), EndsAll(ts[1..], mid));
    SplitAt(l.par, at, end, n, Parents(t, at, parent), ParentsAll(ts[1..], mid, parent));
  }

  lemma SplitAt<T>(s: seq<T>, at: nat, end: nat, n: nat, a: seq<T>, b: seq<T>)
    requires at <= end <= |s| && s[at..end] == a + b && |a| == n > 0
    ensures at + n <= end && s[at] == a[0]
    ensures s[at + 1..at + n] == a[1..] && s[at + n..end] == b
  {
    assert s[at..end][..n] == a && s[at..end][n..] == b;
    assert s[at..at + n] == a;
    assert s[at..end][0] == s[at];
  }

  lemma StandsInside(l: Layout, ts: seq<Tree>, at: nat, end: nat, parent: nat)
    requires Stands(l, ts, at, end, parent)
    ensures parent < at <= end <= |l.nodes| == |l.end| == |l.par|
    ensures ts == [] <==> at == end
  {
    if ts != [] {
      StandsSplit(l, ts, at, end, parent);
    } else {
      assert |l.nodes[at..end]| == 0;
    }
  }

  lemma FirstLinked(ts: seq<Tree>, parent: Node)
    requires ts != [] && LinkedAll(ts, parent)
    ensures ts[0].node.parent == parent
    ensures ts[0].node.next == (if |ts| == 1 then null else ts[1].node)
    ensures ts[0].node.child == (if ts[0].kids == [] then null else ts[0].kids[0].node)
    ensures LinkedAll(ts[0].kids, ts[0].node) && LinkedAll(ts[1..], parent)
  {
    assert Linked(ts[0]);
  }

  // The first tree of a list: its children, if any, and its next sibling.
  lemma FirstGood(l: Layout, ts: seq<Tree>, at: nat, end: nat, parent: nat)
    requires ts != [] && Stands(l, ts, at, end, parent)
    requires |l.nodes| == |l.end| == |l.par| && parent < at && l.end[parent] == end
    requires LinkedAll(ts, l.nodes[parent])
    ensures at < |l.nodes| && ShapeAt(l, at) && LinksAt(l, at)
  {
    hide *;
    StandsInside(l, ts, at, end, parent);
    StandsSplit(l, ts, at, end, parent);
    FirstLinked(ts, l.nodes[parent]);
    var t, mid := ts[0], at + |Preorder(ts[0])|;
    StandsInside(l, t.kids, at + 1, mid, at);
    StandsInside(l, ts[1..], mid, end, parent);
    if t.kids != [] {
      StandsSplit(l, t.kids, at + 1, mid, at);
    }
    if |ts| > 1 {
      StandsSplit(l, ts[1..], mid, end, parent);
    }
    GoodIf(l, at);
  }

  lemma GoodIf(l: Layout, i: nat)
    requires 0 < i < |l.nodes| == |l.end| == |l.par|
    requires i < l.end[i] <= |l.nodes| && l.par[i] < i && l.end[i] <= l.end[l.par[i]] <= |l.nodes|
    requires i + 1 < l.end[i] ==> l.par[i + 1] == i
    requires l.end[i] < l.end[l.par[i]] ==> l.par[l.end[i]] == l.par[i]
    requires l.nodes[i].child == (if i + 1 < l.end[i] then l.nodes[i + 1] else null)
    requires l.nodes[i].parent == l.nodes[l.par[i]]
    requires l.nodes[i].next == (if l.end[i] < l.end[l.par[i]] then l.nodes[l.end[i]] else null)
    ensures ShapeAt(l, i) && LinksAt(l, i)
  {
  }

  lemma {:induction false} ForestGood(l: Layout, ts: seq<Tree>, at: nat, end: nat, parent: nat)
    requires Stands(l, ts, at, end, parent) && l.end[parent] == end
    requires LinkedAll(ts, l.nodes[parent])
    ensures forall i | at <= i < end :: ShapeAt(l, i) && LinksAt(l, i)
    decreases ts
  {
    hide *;
    StandsInside(l, ts, at, end, parent);
    if ts != [] {
      FirstGood(l, ts, at, end, parent);
      StandsSplit(l, ts, at, end, parent);
      FirstLinked(ts, l.nodes[parent]);
      var mid := at + |Preorder(ts[0])|;
      ForestGood(l, ts[0].kids, at + 1, mid, at);
      ForestGood(l, ts[1..], mid, end, parent);
      forall i | at <= i < end
        ensures ShapeAt(l, i) && LinksAt(l, i)
      {
        assert i == at || at + 1 <= i < mid || mid <= i < end;
      }
    }
  }

  /** Every tree whose nodes are distinct has a layout, and its order is the document order. */
  lemma TreeLaid(t: Tree)
    requires Linked(t) && Distinct(Preorder(t))
    ensures Laid(LayoutOf(t)) && LayoutOf(t).nodes == Preorder(t)
  {
    var l := LayoutOf(t);
    var n := |l.nodes|;
    SameSizes(t, 0, 0);
    assert l.nodes[1..n] == PreorderAll(t.kids);
    assert l.end[1..n] == EndsAll(t.kids, 1);
    assert l.par[1..n] == ParentsAll(t.kids, 1, 0);
    ForestGood(l, t.kids, 1, n, 0);
    StandsInside(l, t.kids, 1, n, 0);
    if t.kids != [] {
      StandsSplit(l, t.kids, 1, n, 0);
    }
    assert ShapeAt(l, 0) && LinksAt(l, 0);
  }
}
