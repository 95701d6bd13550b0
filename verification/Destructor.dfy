/** The node destructor: rotate each child subtree into a right-going chain while deleting its
    leftmost node, with no allocation and no recursion. Ownership is unique, so an owned subtree is
    a value. */
module Destructor {

  datatype Tree = Nil | Node(left: Tree, id: nat, right: Tree)

  function Size(t: Tree): nat {
    if t.Nil? then 0 else Size(t.left) + 1 + Size(t.right)
  }

  /** Nodes on the right spine. */
  function Spine(t: Tree): nat {
    if t.Nil? then 0 else 1 + Spine(t.right)
  }

  /** The subtree's nodes from left to right. */
  function Inorder(t: Tree): seq<nat> {
    if t.Nil? then [] else Inorder(t.left) + [t.id] + Inorder(t.right)
  }

  /** Tree size plus the nodes off the right spine. */
  function Measure(t: Tree): int {
    2 * Size(t) - Spine(t)
  }

  lemma {:induction false} SpineWithin(t: Tree)
    ensures Spine(t) <= Size(t) && Measure(t) >= Size(t)
  {
    if t.Node? { SpineWithin(t.right); }
  }

  lemma {:induction false} InorderLength(t: Tree)
    ensures |Inorder(t)| == Size(t)
  {
    if t.Node? { InorderLength(t.left); InorderLength(t.right); }
  }

  /** One rotation keeps the order of nodes and takes the measure down by one. */
  lemma Rotation(t: Tree)
    requires t.Node? && t.left.Node?
    ensures var r := Node(t.left.left, t.left.id, Node(t.left.right, t.id, t.right));
            Inorder(r) == Inorder(t) && Measure(r) == Measure(t) - 1
  {
    var l := t.left;
    var a, b, c := Inorder(l.left), Inorder(l.right), Inorder(t.right);
    var r := Node(l.left, l.id, Node(l.right, t.id, t.right));
    assert Spine(r) == 1 + Spine(r.right) == 2 + Spine(t.right);
    assert Inorder(r.right) == b + [t.id] + c && Size(r.right) == Size(l.right) + 1 + Size(t.right);
    assert Size(l) == Size(l.left) + 1 + Size(l.right) && Inorder(l) == a + [l.id] + b;
    assert Size(r) == Size(l.left) + 1 + Size(r.right) == Size(t);
    assert a + [l.id] + (b + [t.id] + c) == (a + [l.id] + b) + [t.id] + c;
  }

  /** The loop over one child slot. The nodes are freed exactly once each, from left to right; each
      is released with both slots empty, so its own destructor has nothing to walk. */
  method FreeSubtree(child: Tree) returns (freed: seq<nat>, steps: nat)
    ensures freed == Inorder(child)
    ensures steps == Measure(child) && steps <= 2 * Size(child)
  {
    var node := child;
    freed, steps := [], 0;
    SpineWithin(child);
    while node.Node?
      invariant freed + Inorder(node) == Inorder(child)
      invariant steps + Measure(node) == Measure(child)
      decreases Measure(node)
    {
      SpineWithin(node);
      if node.left.Node? {
        Rotation(node);
        var left := node.left;
        node := node.(left := left.right);
        left := left.(right := node);
        node := left;
      } else {
        var next := node.right;
        assert Inorder(node) == [node.id] + Inorder(next);
        node := node.(right := Nil);
        freed := Release(freed, node);
        node := next;
      }
      steps := steps + 1;
    }
  }

  /** Releasing storage; the precondition is that the released node owns nothing. */
  method Release(freed: seq<nat>, node: Tree) returns (r: seq<nat>)
    requires node.Node? && node.left.Nil? && node.right.Nil?
    ensures r == freed + [node.id]
  {
    r := freed + [node.id];
  }

  /** ~mip_node_t: both child slots in turn. */
  method Destroy(down: Tree, up: Tree) returns (freed: seq<nat>, steps: nat)
    ensures freed == Inorder(down) + Inorder(up)
    ensures multiset(freed) == multiset(Inorder(down)) + multiset(Inorder(up))
    ensures steps <= 2 * |freed|
  {
    var a, i := FreeSubtree(down);
    var b, j := FreeSubtree(up);
    InorderLength(down);
    InorderLength(up);
    freed, steps := a + b, i + j;
  }
}
