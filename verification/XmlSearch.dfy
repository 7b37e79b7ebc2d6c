/**
  `mxmlWalkNext` and `mxmlFindElement`: loops over the C pointers that move in document order.
 */
module XmlSearch {
  import opened Text
  import opened XmlTree

  datatype Descend = NoDescend | Descend | DescendFirst

  // What a search asks for; none stands for a NULL pointer, a wildcard.
  datatype Query = Query(element: Option<string>, attr: Option<string>, value: Option<string>)

  // `mxmlElementGetAttr`
  function GetAttr(v: Value, name: string): Option<string> {
    if v.Element? then AttrIn(v.attrs, name) else None
  }

  predicate Matches(v: Value, q: Query) {
    && v.Element?
    && (q.element.Some? ==> v.name == q.element.value)
    && (q.attr.Some? ==>
         var a := GetAttr(v, q.attr.value);
         a.Some? && (q.value.Some? ==> a.value == q.value.value))
  }

  function NodeAt(l: Layout, k: nat): Node? { if k < |l.nodes| then l.nodes[k] else null }

  // Where the walk goes from the node at `i`.
  ghost function StartOf(l: Layout, i: nat, descend: Descend): (k: nat)
    requires Shape(l) && i < |l.nodes|
    ensures i < k <= |l.nodes|
  {
    assert ShapeAt(l, i);
    if descend == NoDescend then l.end[i] else i + 1
  }

  // The first match from the node at `k` on, in document order.
  function FirstFrom(s: seq<Node>, k: nat, q: Query): (r: nat)
    requires k <= |s|
    ensures k <= r <= |s|
    ensures forall j :: k <= j < r ==> !Matches(s[j].value, q)
    ensures r < |s| ==> Matches(s[r].value, q)
    decreases |s| - k
  {
    if k == |s| || Matches(s[k].value, q) then k else FirstFrom(s, k + 1, q)
  }

  // The first match among the node at `k` and its later siblings.
  ghost function SiblingFrom(l: Layout, k: nat, q: Query): (r: nat)
    requires Shape(l) && k <= |l.nodes|
    ensures k <= r <= |l.nodes|
    ensures r < |l.nodes| ==> Matches(l.nodes[r].value, q)
    decreases |l.nodes| - k
  {
    if k == |l.nodes| then k
    else
      assert ShapeAt(l, k);
      if Matches(l.nodes[k].value, q) then k
      else if k > 0 && l.end[k] < l.end[l.par[k]] then SiblingFrom(l, l.end[k], q)
      else |l.nodes|
  }

  // What stands inside a subtree has its parent there.
  lemma {:induction false} InsideSubtree(l: Layout, k: nat, j: nat)
    requires Shape(l) && k < |l.nodes| && k < j < l.end[k]
    ensures j < |l.nodes| && l.par[j] >= k
    decreases j, j
  {
    assert ShapeAt(l, k) && ShapeAt(l, j - 1);
    if l.end[j - 1] == j {
      SiblingOfLast(l, k, j, j - 1);
    }
  }

  // A node that follows a subtree which ends there is the sibling of one of its ancestors.
  lemma {:induction false} SiblingOfLast(l: Layout, k: nat, j: nat, a: nat)
    requires Shape(l) && k < |l.nodes| && k <= a < j < l.end[k] && a < |l.nodes| && l.end[a] == j
    ensures j < |l.nodes| && l.par[j] >= k
    decreases j, a
  {
    assert ShapeAt(l, k) && ShapeAt(l, a);
    InsideSubtree(l, k, a);
    if l.end[l.par[a]] == j {
      SiblingOfLast(l, k, j, l.par[a]);
    }
  }

  /** The search among siblings stays among them and skips none that matches. */
  lemma {:induction false} SiblingFromIsFirst(l: Layout, k: nat, q: Query, j: nat)
    requires Shape(l) && 0 < k <= j < |l.nodes| && l.par[j] == l.par[k]
    ensures j < SiblingFrom(l, k, q) ==> !Matches(l.nodes[j].value, q)
    ensures SiblingFrom(l, k, q) < |l.nodes| ==> l.par[SiblingFrom(l, k, q)] == l.par[k]
    decreases |l.nodes| - k
  {
    hide Matches;
    assert ShapeAt(l, k) && ShapeAt(l, j);
    if k < j < l.end[k] {
      InsideSubtree(l, k, j);
      assert false;
    }
    if l.end[k] < l.end[l.par[k]] {
      SiblingFromIsFirst(l, l.end[k], q, if j == k then l.end[k] else j);
    }
  }

  function Filter(s: seq<Node>, q: Query): seq<Node> {
    if s == [] then []
    else (if Matches(s[0].value, q) then [s[0]] else []) + Filter(s[1..], q)
  }

  lemma {:induction false} FilterNext(s: seq<Node>, k: nat, q: Query)
    requires k <= |s|
    ensures
      var r := FirstFrom(s, k, q);
      Filter(s[k..], q) == if r == |s| then [] else [s[r]] + Filter(s[r + 1..], q)
    decreases |s| - k
  {
    hide Matches;
    if k < |s| {
      assert s[k..][0] == s[k] && s[k..][1..] == s[k + 1..];
      if Matches(s[k].value, q) {
        assert FirstFrom(s, k, q) == k;
      } else {
        FilterNext(s, k + 1, q);
        assert [] + Filter(s[k + 1..], q) == Filter(s[k + 1..], q);
      }
    }
  }

  lemma {:induction false} FilterIs(s: seq<Node>, q: Query, n: Node)
    ensures n in Filter(s, q) <==> n in s && Matches(n.value, q)
  {
    if s != [] {
      FilterIs(s[1..], q, n);
      assert s == [s[0]] + s[1..];
    }
  }

  // `mxmlWalkNext`, for a node of the tree under `top`: the next node in document order, or the one
  // behind the subtree.
  method WalkNext(node: Node?, top: Node?, descend: Descend, ghost l: Layout, ghost i: nat) returns (r: Node?)
    requires node != null ==> Laid(l) && i < |l.nodes| && node == l.nodes[i] && top == l.nodes[0]
    ensures node == null ==> r == null
    ensures node != null ==> r == NodeAt(l, StartOf(l, i, descend))
  {
    if node == null {
      return null;
    }
    assert ShapeAt(l, i) && LinksAt(l, i);
    if node.child != null && descend != NoDescend {
      return node.child;
    } else if node == top {
      assert i == 0;
      return null;
    } else if node.next != null {
      return node.next;
    } else if node.parent != null && node.parent != top {
      ghost var j := l.par[i];
      var up: Node := node.parent;
      assert ShapeAt(l, j) && LinksAt(l, j);
      while up.next == null
        invariant 0 < j < |l.nodes| && up == l.nodes[j] && l.end[j] == l.end[i]
        invariant ShapeAt(l, j) && LinksAt(l, j)
        decreases j
      {
        if up.parent == top || up.parent == null {
          assert l.par[j] == 0;
          return null;
        }
        up := up.parent;
        j := l.par[j];
        assert ShapeAt(l, j) && LinksAt(l, j);
      }
      return up.next;
    } else {
      assert l.par[i] == 0;
      return null;
    }
  }

  // `mxmlFindElement`; `k` is where the match stands in document order.
  method FindElement(node: Node?, top: Node?, q: Query, descend: Descend, ghost l: Layout, ghost i: nat)
    returns (r: Node?, ghost k: nat)
    requires node != null && top != null ==> Laid(l) && i < |l.nodes| && node == l.nodes[i] && top == l.nodes[0]
    ensures node == null || top == null || (q.attr == None && q.value != None) ==> r == null
    ensures node != null && top != null && (q.attr != None || q.value == None) ==>
              && r == NodeAt(l, k)
              && k == (if descend == Descend then FirstFrom(l.nodes, i + 1, q)
                       else SiblingFrom(l, StartOf(l, i, descend), q))
  {
    k := 0;
    if node == null || top == null || (q.attr == None && q.value != None) {
      return null, k;
    }
    assert ShapeAt(l, i);
    r := WalkNext(node, top, descend, l, i);
    k := StartOf(l, i, descend);
    ghost var goal := if descend == Descend then FirstFrom(l.nodes, k, q) else SiblingFrom(l, k, q);
    while r != null
      invariant 0 < k <= |l.nodes| && r == NodeAt(l, k)
      invariant goal == if descend == Descend then FirstFrom(l.nodes, k, q) else SiblingFrom(l, k, q)
      decreases |l.nodes| - k
    {
      assert ShapeAt(l, k) && LinksAt(l, k);
      if r.value.Element? && (q.element == None || r.value.name == q.element.value) {
        if q.attr == None {
          return r, k;
        }
        var temp := GetAttr(r.value, q.attr.value);
        if temp != None && (q.value == None || q.value.value == temp.value) {
          return r, k;
        }
      }
      if descend == Descend {
        r := WalkNext(r, top, Descend, l, k);
        k := k + 1;
      } else {
        r := r.next;
        k := if l.end[k] < l.end[l.par[k]] then l.end[k] else |l.nodes|;
      }
    }
  }
}
