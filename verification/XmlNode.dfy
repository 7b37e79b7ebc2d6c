/**
  The child lists of Mini-XML: `mxmlAdd` and `mxmlRemove` on the doubly linked list, and
  `mxmlDelete`, which frees a tree without a stack.
 */
module XmlNode {
  import opened Text
  import opened XmlTree

  // ----- child lists -----

  // `c` are the children of `parent`, in order.
  ghost predicate Kids(parent: Node, c: seq<Node>)
    reads parent, c
  {
    && parent.child == (if c == [] then null else c[0])
    && parent.lastChild == (if c == [] then null else c[|c| - 1])
    && Distinct(c)
    && forall k: nat | k < |c| :: Chained(parent, c, k)
  }

  ghost predicate Chained(parent: Node, c: seq<Node>, k: nat)
    requires k < |c|
    reads c
  {
    && c[k].parent == parent
    && c[k].prev == (if k == 0 then null else c[k - 1])
    && c[k].next == (if k + 1 == |c| then null else c[k + 1])
  }

  ghost predicate Orphan(n: Node)
    reads n
  {
    n.parent == n.prev == n.next == null
  }

  function Without(c: seq<Node>, k: nat): seq<Node>
    requires k < |c|
  {
    c[..k] + c[k + 1..]
  }

  function With(c: seq<Node>, k: nat, n: Node): seq<Node>
    requires k <= |c|
  {
    c[..k] + [n] + c[k..]
  }

  // `mxmlRemove`; the node is child `k` of its parent, if it has one.
  method Remove(node: Node?, ghost c: seq<Node>, ghost k: nat)
    requires node != null && node.parent != null ==>
               k < |c| && Kids(node.parent, c) && c[k] == node && node.parent !in c
    modifies if node == null || node.parent == null then {} else {node, node.parent} + (set n <- c)
    ensures node != null && old(node.parent) != null ==> Orphan(node) && Kids(old(node.parent), Without(c, k))
    ensures node != null && old(node.parent) != null ==>
              node.child == old(node.child) && node.lastChild == old(node.lastChild)
    ensures forall n <- c :: n.live == old(n.live) && n.child == old(n.child) && n.lastChild == old(n.lastChild)
    ensures forall n <- c :: n != node ==> n.parent == old(n.parent)
    ensures node != null && old(node.parent) != null ==>
              var parent := old(node.parent);
              parent.parent == old(parent.parent) && parent.next == old(parent.next) && parent.prev == old(parent.prev)
              && parent.live == old(parent.live)
  {
    if node == null || node.parent == null {
      return;
    }
    ghost var parent := node.parent;
    assert Chained(parent, c, k);
    assert k > 0 ==> Chained(parent, c, k - 1);
    assert k + 1 < |c| ==> Chained(parent, c, k + 1);
    if node.prev != null {
      node.prev.next := node.next;
    } else {
      node.parent.child := node.next;
    }
    if node.next != null {
      node.next.prev := node.prev;
    } else {
      node.parent.lastChild := node.prev;
    }
    node.parent := null;
    node.prev := null;
    node.next := null;
    ghost var d := Without(c, k);
    forall j: nat | j < |d|
      ensures Chained(parent, d, j)
    {
      assert old(Chained(parent, c, if j < k then j else j + 1));
    }
  }

  datatype Where = AddBefore | AddAfter

  // Where `mxmlAdd` puts the node among the children `c` of its parent.
  function Place(c: seq<Node>, place: Where, child: Node?): (k: nat)
    ensures k <= |c|
  {
    match place
    case AddBefore => if child != null && child in c then IndexOf(c, child) else 0
    case AddAfter => if child != null && child in c then IndexOf(c, child) + 1 else |c|
  }

  function IndexOf(c: seq<Node>, n: Node): (k: nat)
    requires n in c
    ensures k < |c| && c[k] == n
  {
    if c[0] == n then 0 else 1 + IndexOf(c[1..], n)
  }

  // The links of the list around the place `k`.
  lemma Around(parent: Node, c: seq<Node>, place: Where, child: Node?)
    requires Kids(parent, c)
    ensures
      var k := Place(c, place, child);
      && (k < |c| ==> c[k].prev == (if k == 0 then null else c[k - 1]))
      && (k > 0 ==> c[k - 1].next == (if k == |c| then null else c[k]))
    ensures place == AddBefore && (child == null || child == parent.child || child !in c) ==>
              Place(c, place, child) == 0
    ensures place == AddAfter && (child == null || child == parent.lastChild || child !in c) ==>
              Place(c, place, child) == |c|
    ensures child != null && child in c ==>
              (if place == AddBefore then Place(c, place, child) < |c| && c[Place(c, place, child)] == child
               else Place(c, place, child) > 0 && c[Place(c, place, child) - 1] == child)
  {
    var k := Place(c, place, child);
    assert k < |c| ==> Chained(parent, c, k);
    assert k > 0 ==> Chained(parent, c, k - 1);
  }

  // A node that is its own neighbour.
  ghost predicate Alone(parent: Node, place: Where, node: Node)
    reads parent, node
  {
    && node.parent == parent && node.next == node && node.prev == node
    && (if place == AddBefore then parent.child else parent.lastChild) == node
  }

  // The list of the parent cannot be followed any more.
  lemma AloneIsNoList(parent: Node, place: Where, node: Node, d: seq<Node>)
    requires Alone(parent, place, node)
    ensures !Kids(parent, d)
  {
    if d != [] {
      assert Kids(parent, d) ==> Chained(parent, d, if place == AddBefore then 0 else |d| - 1);
    }
  }

  // `mxmlAdd` for a node without a parent. `c` are the children of `parent`; any other `child` is
  // ignored. If it is the node itself, the list is broken.
  method Insert(parent: Node, place: Where, child: Node?, node: Node, ghost c: seq<Node>)
    requires Kids(parent, c) && Orphan(node) && node !in c && parent !in c && node != parent
    requires child != null ==> (child.parent == parent <==> child in c)
    modifies {parent, node} + (set n <- c)
    ensures child != node ==> Kids(parent, With(c, Place(c, place, child), node))
    ensures child == node ==> Alone(parent, place, node)
    ensures forall n <- c :: n.live == old(n.live) && n.child == old(n.child) && n.lastChild == old(n.lastChild)
    ensures node.child == old(node.child) && node.lastChild == old(node.lastChild)
    ensures parent.parent == old(parent.parent) && parent.next == old(parent.next) && parent.prev == old(parent.prev)
  {
    ghost var k := Place(c, place, child);
    Around(parent, c, place, child);
    node.parent := parent;
    if place == AddBefore {
      if child == null || child == parent.child || child.parent != parent {
        node.next := parent.child;
        if parent.child != null {
          parent.child.prev := node;
        } else {
          parent.lastChild := node;
        }
        parent.child := node;
      } else {
        node.next := child;
        node.prev := child.prev;
        if child.prev != null {
          child.prev.next := node;
        } else {
          parent.child := node;
        }
        child.prev := node;
      }
    } else {
      if child == null || child == parent.lastChild || child.parent != parent {
        node.parent := parent;
        node.prev := parent.lastChild;
        if parent.lastChild != null {
          parent.lastChild.next := node;
        } else {
          parent.child := node;
        }
        parent.lastChild := node;
      } else {
        node.prev := child;
        node.next := child.next;
        if child.next != null {
          child.next.prev := node;
        } else {
          parent.lastChild := node;
        }
        child.next := node;
      }
    }
    ghost var d := With(c, k, node);
    forall j: nat | j < |d| && child != node
      ensures Chained(parent, d, j)
    {
      assert j < k ==> old(Chained(parent, c, j));
      assert j > k ==> old(Chained(parent, c, j - 1));
    }
  }

  lemma WithoutNode(c: seq<Node>, i: nat)
    requires Distinct(c) && i < |c|
    ensures forall n :: n in Without(c, i) <==> n in c && n != c[i]
  {
    assert c == c[..i] + [c[i]] + c[i + 1..];
  }

  lemma ParentOf(parent: Node, c: seq<Node>)
    requires Kids(parent, c)
    ensures forall n <- c :: n.parent == parent
  {
    forall k: nat | k < |c|
      ensures c[k].parent == parent
    {
      assert Chained(parent, c, k);
    }
  }

  // Another list of children is not touched by a removal ...
  method RemoveFrom(node: Node, ghost from: seq<Node>, ghost i: nat, ghost parent: Node, ghost c: seq<Node>)
    requires node.parent != null && i < |from| && Kids(node.parent, from) && from[i] == node && node.parent !in from
    requires parent != node.parent && Kids(parent, c) && parent != node
    modifies {node, node.parent} + (set n <- from)
    ensures Orphan(node) && Kids(old(node.parent), Without(from, i)) && Kids(parent, c)
    ensures forall n <- from :: n != node ==> n.parent == old(n.parent)
    ensures old(node.parent).parent == old(node.parent.parent)
  {
    ParentOf(node.parent, from);
    ParentOf(parent, c);
    Remove(node, from, i);
    forall j: nat | j < |c|
      ensures Chained(parent, c, j)
    {
      assert old(Chained(parent, c, j)) && c[j] !in from;
    }
  }

  // ... nor by an insertion.
  method InsertInto(parent: Node, place: Where, child: Node?, node: Node, ghost c: seq<Node>,
                    ghost other: Node, ghost from: seq<Node>)
    requires Kids(parent, c) && Orphan(node) && node !in c && parent !in c && node != parent
    requires child != null ==> (child.parent == parent <==> child in c)
    requires other != parent && Kids(other, from) && other != node && node !in from
    modifies {parent, node} + (set n <- c)
    ensures child != node ==> Kids(parent, With(c, Place(c, place, child), node))
    ensures child == node ==> Alone(parent, place, node)
    ensures Kids(other, from)
  {
    ParentOf(other, from);
    ParentOf(parent, c);
    Insert(parent, place, child, node, c);
    forall j: nat | j < |from|
      ensures Chained(other, from, j)
    {
      assert old(Chained(other, from, j)) && from[j] !in c;
    }
  }

  // `mxmlAdd`. `c` are the children of `parent` and `from` those of the parent the node had before,
  // where it was child `i`; both may be the same list.
  method Add(parent: Node?, place: Where, child: Node?, node: Node?, ghost c: seq<Node>, ghost from: seq<Node>,
             ghost i: nat)
    requires parent != null && node != null ==>
               && Kids(parent, c) && parent !in c && node != parent
               && (child != null ==> (child.parent == parent <==> child in c))
               && (node.parent == null ==> Orphan(node))
               && (node.parent != null ==>
                    i < |from| && Kids(node.parent, from) && from[i] == node && node.parent !in from)
               && (node.parent == parent ==> from == c)
    modifies if parent == null || node == null then {} else
               {parent, node} + (set n <- c) + if node.parent == null then {} else {node.parent} + (set n <- from)
    ensures parent != null && node != null && child != node ==>
              var rest := if old(node.parent) == parent then Without(c, i) else c;
              Kids(parent, With(rest, Place(rest, place, child), node))
    ensures parent != null && node != null && child == node ==> forall d :: !Kids(parent, d)
    ensures parent != null && node != null && old(node.parent) != null && old(node.parent) != parent ==>
              Kids(old(node.parent), Without(from, i))
  {
    if parent == null || node == null {
      return;
    }
    ParentOf(parent, c);
    if node.parent == null {
      Insert(parent, place, child, node, c);
    } else {
      var other := node.parent;
      WithoutNode(from, i);
      ParentOf(other, from);
      // The two cases differ in what has to be shown only.
      hide Kids, Without, With, Place;
      if other == parent {
        Remove(node, from, i);
        Insert(parent, place, child, node, Without(c, i));
      } else {
        RemoveFrom(node, from, i, parent, c);
        InsertInto(parent, place, child, node, c, other, Without(from, i));
      }
    }
    if child == node {
      forall d ensures !Kids(parent, d) {
        AloneIsNoList(parent, place, node, d);
      }
    }
  }

  // The only calls of `mxmlAdd` that break a list: a node placed next to itself, on either side,
  // becomes its own neighbour, and there is no list of children any more.
  method BesideItself(parent: Node, place: Where, node: Node, ghost c: seq<Node>)
    requires Kids(parent, c) && Orphan(node) && node !in c && parent !in c && node != parent
    modifies {parent, node} + (set n <- c)
    ensures node.next == node && node.prev == node && forall d :: !Kids(parent, d)
  {
    Insert(parent, place, node, node, c);
    forall d ensures !Kids(parent, d) {
      AloneIsNoList(parent, place, node, d);
    }
  }
}
