/** Variable boxes, the branching intervals stored in tree nodes and their recovery by walking from
    a leaf to the root. */
module BoundWalk {
  import opened Extended

  type Point = seq<real>

  datatype Box = Box(lo: seq<Ext>, hi: seq<Ext>)

  predicate WellSized(b: Box, n: nat) {
    |b.lo| == n && |b.hi| == n
  }

  predicate Between(lo: Ext, x: real, hi: Ext) {
    Le(lo, Fin(x)) && Le(Fin(x), hi)
  }

  ghost predicate In(p: Point, b: Box) {
    && WellSized(b, |p|)
    && forall j :: 0 <= j < |p| ==> Between(b.lo[j], p[j], b.hi[j])
  }

  /** Every interval of `a` lies within the matching interval of `b`. */
  ghost predicate Within(a: Box, b: Box) {
    && WellSized(a, |b.lo|) && WellSized(b, |b.lo|)
    && forall j :: 0 <= j < |b.lo| ==> Le(b.lo[j], a.lo[j]) && Le(a.hi[j], b.hi[j])
  }

  /** The interval a node imposes on its branching variable. */
  datatype Branch = Branch(v: nat, lo: Ext, hi: Ext)

  datatype Direction = Down | Up

  /** The interval stored by the child constructor, read from the leaf problem's current bounds. */
  function ChildBranch(leaf: Box, v: nat, x: real, dir: Direction): Branch
    requires v < |leaf.lo| && WellSized(leaf, |leaf.lo|)
  {
    match dir
    case Down => Branch(v, leaf.lo[v], Fin(x.Floor as real))
    case Up => Branch(v, Fin(-((-x).Floor) as real), leaf.hi[v])
  }

  function Apply(b: Box, br: Branch): (r: Box)
    requires WellSized(b, |b.lo|) && br.v < |b.lo|
    ensures WellSized(r, |b.lo|)
  {
    Box(b.lo[br.v := br.lo], b.hi[br.v := br.hi])
  }

  predicate OnVariables(path: seq<Branch>, n: nat) {
    forall i :: 0 <= i < |path| ==> path[i].v < n
  }

  /** The box of a node: `path[0]` is the node's own branch, the last entry the one nearest the
      root. Deeper branches overwrite shallower ones. */
  function Walk(root: Box, path: seq<Branch>): (r: Box)
    requires WellSized(root, |root.lo|) && OnVariables(path, |root.lo|)
    ensures WellSized(r, |root.lo|)
  {
    if path == [] then root else Apply(Walk(root, path[1..]), path[0])
  }

  predicate Touches(path: seq<Branch>, v: nat) {
    exists i :: 0 <= i < |path| && path[i].v == v
  }

  /** A branch added at the root end matters only for a variable no deeper node branched on. */
  lemma {:induction false} WalkExtend(root: Box, path: seq<Branch>, b: Branch)
    requires WellSized(root, |root.lo|) && OnVariables(path + [b], |root.lo|)
    ensures OnVariables(path, |root.lo|) && b.v < |root.lo|
    ensures Walk(root, path + [b]) ==
            if Touches(path, b.v) then Walk(root, path) else Apply(Walk(root, path), b)
  {
    assert (path + [b])[|path|] == b;
    assert forall i :: 0 <= i < |path| ==> (path + [b])[i] == path[i];
    if path == [] {
      assert path + [b] == [b];
    } else {
      var rest := path[1..];
      assert (path + [b])[1..] == rest + [b];
      WalkExtend(root, rest, b);
      assert Touches(path, b.v) <==> path[0].v == b.v || Touches(rest, b.v) by {
        if Touches(path, b.v) && path[0].v != b.v {
          var i :| 0 <= i < |path| && path[i].v == b.v;
          assert rest[i - 1].v == b.v;
        }
        if Touches(rest, b.v) {
          var i :| 0 <= i < |rest| && rest[i].v == b.v;
          assert path[i + 1].v == b.v;
        }
      }
    }
  }

  /** A node of the search tree, as far as bound recovery reads it. The fields are written by the
      constructor only. `path` lists the branches from this node up to the root. */
  class TreeNode {
    const parent: TreeNode?
    const nodeId: nat
    const branch: Branch
    ghost const path: seq<Branch>

    ghost predicate Valid()
      decreases |path|
    {
      && (nodeId == 0 ==> parent == null)
      && (parent == null ==> path == [])
      && (parent != null ==>
            |parent.path| < |path| && path == [branch] + parent.path && parent.Valid())
    }

    constructor Root(id: nat)
      ensures Valid() && path == [] && parent == null && nodeId == id
    {
      parent, nodeId, branch, path := null, id, Branch(0, NegInf, PosInf), [];
    }

    constructor Child(of: TreeNode, id: nat, b: Branch)
      requires of.Valid() && id != 0
      ensures Valid() && parent == of && nodeId == id && path == [b] + of.path
    {
      parent, nodeId, branch, path := of, id, b, [b] + of.path;
    }

    /** detach_copy: same interval, no parent; the walk above it is then empty. */
    constructor Detached(of: TreeNode)
      requires of.Valid()
      ensures Valid() && path == [] && parent == null && nodeId == of.nodeId && branch == of.branch
    {
      parent, nodeId, branch, path := null, of.nodeId, of.branch, [];
    }

    method UpdateBranchedVariableBounds(lower: array<Ext>, upper: array<Ext>, changed: array<bool>)
      requires Valid() && lower != upper
      requires path != [] ==> branch.v < lower.Length == upper.Length == changed.Length
      modifies lower, upper, changed
      ensures path == [] || old(changed[branch.v]) ==>
                lower[..] == old(lower[..]) && upper[..] == old(upper[..]) && changed[..] == old(changed[..])
      ensures path != [] && !old(changed[branch.v]) ==>
                && lower[..] == old(lower[..])[branch.v := branch.lo]
                && upper[..] == old(upper[..])[branch.v := branch.hi]
                && changed[..] == old(changed[..])[branch.v := true]
    {
      if parent == null { return; }
      if changed[branch.v] { return; }
      lower[branch.v] := branch.lo;
      upper[branch.v] := branch.hi;
      changed[branch.v] := true;
    }

    /** get_variable_bounds: the first writer wins on the way up. The result is the box obtained by
        letting the deepest branch win on the way down. */
    method GetVariableBounds(lower: array<Ext>, upper: array<Ext>, changed: array<bool>)
      requires Valid() && lower != upper && lower.Length == upper.Length == changed.Length
      requires OnVariables(path, lower.Length)
      requires forall j :: 0 <= j < changed.Length ==> !changed[j]
      modifies lower, upper, changed
      ensures Box(lower[..], upper[..]) == Walk(Box(old(lower[..]), old(upper[..])), path)
      ensures forall j :: 0 <= j < changed.Length ==> changed[j] == Touches(path, j)
    {
      ghost var root := Box(lower[..], upper[..]);
      ghost var done: seq<Branch> := [];
      var node: TreeNode? := this;
      while node != null && node.nodeId != 0
        invariant node != null ==> node.Valid() && path == done + node.path
        invariant node == null ==> path == done
        invariant OnVariables(done, lower.Length)
        invariant Box(lower[..], upper[..]) == Walk(root, done)
        invariant forall j :: 0 <= j < changed.Length ==> changed[j] == Touches(done, j)
        decreases if node == null then 0 else |node.path| + 1
      {
        if node.parent != null {
          assert path[|done|] == node.branch;
          assert OnVariables(done + [node.branch], lower.Length);
          WalkExtend(root, done, node.branch);
          TouchesExtend(done, node.branch);
          assert path == (done + [node.branch]) + node.parent.path;
        }
        node.UpdateBranchedVariableBounds(lower, upper, changed);
        if node.parent != null {
          done := done + [node.branch];
        } else {
          assert path == done;
        }
        node := node.parent;
      }
      if node != null {
        assert node.path == [] && path == done;
      }
    }
  }

  lemma TouchesExtend(path: seq<Branch>, b: Branch)
    ensures forall j: nat :: Touches(path + [b], j) <==> Touches(path, j) || j == b.v
  {
    forall j: nat ensures Touches(path + [b], j) <==> Touches(path, j) || j == b.v {
      assert (path + [b])[|path|] == b;
      assert forall i :: 0 <= i < |path| ==> (path + [b])[i] == path[i];
      if Touches(path, j) {
        var i :| 0 <= i < |path| && path[i].v == j;
        assert (path + [b])[i].v == j;
      }
    }
  }

  /** Walking a dive's tree from the bounds resolved at its detached start node gives the same box
      as walking the whole path in the original tree. */
  lemma {:induction false} WalkResumes(root: Box, deep: seq<Branch>, shallow: seq<Branch>)
    requires WellSized(root, |root.lo|)
    requires OnVariables(deep, |root.lo|) && OnVariables(shallow, |root.lo|)
    ensures OnVariables(deep + shallow, |root.lo|)
    ensures Walk(root, deep + shallow) == Walk(Walk(root, shallow), deep)
  {
    if deep == [] {
      assert deep + shallow == shallow;
    } else {
      assert (deep + shallow)[1..] == deep[1..] + shallow;
      WalkResumes(root, deep[1..], shallow);
    }
  }

  /** enqueue_dive_node: a dive starts from a copy of the node cut off from the tree, with the node's
      bounds resolved beforehand. */
  method EnqueueDiveNode(node: TreeNode, root: Box) returns (start: TreeNode, lower: array<Ext>, upper: array<Ext>)
    requires node.Valid() && WellSized(root, |root.lo|) && OnVariables(node.path, |root.lo|)
    ensures start.Valid() && start.path == [] && start.parent == null && start.nodeId == node.nodeId
    ensures fresh(start) && fresh(lower) && fresh(upper) && lower != upper
    ensures Box(lower[..], upper[..]) == Walk(root, node.path)
  {
    lower := CopyOf(root.lo);
    upper := CopyOf(root.hi);
    var changed := new bool[|root.lo|](_ => false);
    node.GetVariableBounds(lower, upper, changed);
    start := new TreeNode.Detached(node);
  }

  method CopyOf(s: seq<Ext>) returns (a: array<Ext>)
    ensures fresh(a) && a[..] == s
  {
    a := new Ext[|s|](i requires 0 <= i < |s| => s[i]);
  }

  /** Bounds of a node of the dive's own tree, recomputed from the resolved bounds of its start: the
      same box as the branches of the dive on top of those of the start node give from the root. */
  method DiveNodeBounds(node: TreeNode, resolved: Box, ghost root: Box, ghost start: seq<Branch>)
    returns (lower: array<Ext>, upper: array<Ext>)
    requires node.Valid() && WellSized(root, |root.lo|) && OnVariables(start, |root.lo|)
    requires OnVariables(node.path, |root.lo|) && resolved == Walk(root, start)
    ensures OnVariables(node.path + start, |root.lo|)
    ensures Box(lower[..], upper[..]) == Walk(root, node.path + start)
  {
    lower := CopyOf(resolved.lo);
    upper := CopyOf(resolved.hi);
    var changed := new bool[|resolved.lo|](_ => false);
    node.GetVariableBounds(lower, upper, changed);
    WalkResumes(root, node.path, start);
  }

  // ------------------------------------------------------------ the walk is an intersection

  /** `path` arose by branching: each branch was stored from leaf bounds lying within the box
      walked at that time, at a value within those bounds. */
  ghost predicate Branched(root: Box, path: seq<Branch>)
    requires WellSized(root, |root.lo|) && OnVariables(path, |root.lo|)
  {
    path != [] ==>
      && Branched(root, path[1..])
      && BranchedFrom(Walk(root, path[1..]), path[0])
  }

  ghost predicate BranchedFrom(walked: Box, br: Branch)
    requires WellSized(walked, |walked.lo|) && br.v < |walked.lo|
  {
    exists leaf: Box, x: real, dir: Direction ::
      Within(leaf, walked) && Between(leaf.lo[br.v], x, leaf.hi[br.v]) &&
      br == ChildBranch(leaf, br.v, x, dir)
  }

  /** The intersection of the root box with every branching interval on the path. */
  function Meet(root: Box, path: seq<Branch>): (r: Box)
    requires WellSized(root, |root.lo|) && OnVariables(path, |root.lo|)
    ensures WellSized(r, |root.lo|)
  {
    if path == [] then root
    else
      var m, b := Meet(root, path[1..]), path[0];
      Box(m.lo[b.v := Max(m.lo[b.v], b.lo)], m.hi[b.v := Min(m.hi[b.v], b.hi)])
  }

  /** A stored interval is never looser than the one it overwrites: a down branch keeps the leaf's
      lower bound, and rounding moves only towards the inside. */
  lemma ChildTightens(walked: Box, br: Branch)
    requires WellSized(walked, |walked.lo|) && br.v < |walked.lo|
    requires BranchedFrom(walked, br)
    ensures Within(Apply(walked, br), walked)
  {
    var leaf: Box, x: real, dir: Direction :|
      Within(leaf, walked) && Between(leaf.lo[br.v], x, leaf.hi[br.v]) &&
      br == ChildBranch(leaf, br.v, x, dir);
    assert Le(walked.lo[br.v], br.lo) && Le(br.hi, walked.hi[br.v]);
  }

  /** First-writer-wins recovers the intersection of all branching intervals. */
  lemma {:induction false} WalkIsIntersection(root: Box, path: seq<Branch>)
    requires WellSized(root, |root.lo|) && OnVariables(path, |root.lo|)
    requires Branched(root, path)
    ensures Walk(root, path) == Meet(root, path)
    ensures Within(Walk(root, path), root)
  {
    if path != [] {
      WalkIsIntersection(root, path[1..]);
      var w, b := Walk(root, path[1..]), path[0];
      ChildTightens(w, b);
      assert Le(w.lo[b.v], b.lo) && Le(b.hi, w.hi[b.v]);
      assert Max(w.lo[b.v], b.lo) == b.lo && Min(w.hi[b.v], b.hi) == b.hi;
    }
  }

  /** As points: exactly those of the root box inside every branching interval of the path. */
  lemma {:induction false} WalkPoints(root: Box, path: seq<Branch>, p: Point)
    requires WellSized(root, |root.lo|) && OnVariables(path, |root.lo|)
    requires Branched(root, path) && |p| == |root.lo|
    ensures In(p, Walk(root, path)) <==>
            In(p, root) &&
            forall i :: 0 <= i < |path| ==> Between(path[i].lo, p[path[i].v], path[i].hi)
  {
    if path != [] {
      var rest := path[1..];
      WalkPoints(root, rest, p);
      assert forall i :: 0 <= i < |rest| ==> rest[i] == path[i + 1];
      assert forall i :: 0 < i < |path| ==> path[i] == rest[i - 1];
      ChildTightens(Walk(root, rest), path[0]);
      PointsOfChild(Walk(root, rest), path[0], p);
    }
  }

  lemma PointsOfChild(b: Box, br: Branch, p: Point)
    requires WellSized(b, |p|) && br.v < |p|
    requires Within(Apply(b, br), b)
    ensures In(p, Apply(b, br)) <==> In(p, b) && Between(br.lo, p[br.v], br.hi)
  {
    var c := Apply(b, br);
    if In(p, c) {
      forall j | 0 <= j < |p| ensures Between(b.lo[j], p[j], b.hi[j]) {
        assert Between(c.lo[j], p[j], c.hi[j]);
      }
      assert Between(c.lo[br.v], p[br.v], c.hi[br.v]);
    }
  }

  lemma FloorsApart(x: real)
    requires x != x.Floor as real
    ensures x.Floor as real < x < (-((-x).Floor)) as real
  {
    FloorOfWhole(-((-x).Floor));
  }

  lemma FloorOfWhole(c: int)
    ensures (c as real).Floor == c
  {
  }

  /** The two children cover every point of the node that is integral in the branching variable. */
  lemma ChildrenCover(walked: Box, leaf: Box, v: nat, x: real, p: Point)
    requires WellSized(walked, |p|) && Within(leaf, walked) && v < |p|
    requires Between(leaf.lo[v], x, leaf.hi[v])
    requires In(p, walked) && In(p, leaf) && p[v] == p[v].Floor as real
    ensures In(p, Apply(walked, ChildBranch(leaf, v, x, Down)))
         || In(p, Apply(walked, ChildBranch(leaf, v, x, Up)))
  {
    assert Between(leaf.lo[v], p[v], leaf.hi[v]);
    RoundedSides(p[v], x);
    var dir := if p[v] <= x.Floor as real then Down else Up;
    var br := ChildBranch(leaf, v, x, dir);
    assert Between(br.lo, p[v], br.hi);
    assert forall j :: 0 <= j < |p| ==> Between(walked.lo[j], p[j], walked.hi[j]);
    assert In(p, Apply(walked, br));
  }

  /** Branching at a fractional value: every point of the node that is integral in the variable lies in
      exactly one child, and no point with that value lies in either. */
  lemma ChildrenPartition(walked: Box, leaf: Box, v: nat, x: real, p: Point, z: Point)
    requires WellSized(walked, |p|) && Within(leaf, walked) && v < |p| == |z|
    requires Between(leaf.lo[v], x, leaf.hi[v]) && x != x.Floor as real && z[v] == x
    requires In(p, walked) && In(p, leaf) && p[v] == p[v].Floor as real
    ensures var down, up := Apply(walked, ChildBranch(leaf, v, x, Down)), Apply(walked, ChildBranch(leaf, v, x, Up));
            In(p, down) != In(p, up) && !In(z, down) && !In(z, up)
  {
    var down, up := Apply(walked, ChildBranch(leaf, v, x, Down)), Apply(walked, ChildBranch(leaf, v, x, Up));
    ChildrenCover(walked, leaf, v, x, p);
    FloorsApart(x);
    assert In(p, down) ==> Between(down.lo[v], p[v], down.hi[v]);
    assert In(p, up) ==> Between(up.lo[v], p[v], up.hi[v]);
    assert In(z, down) ==> Between(down.lo[v], z[v], down.hi[v]);
    assert In(z, up) ==> Between(up.lo[v], z[v], up.hi[v]);
  }

  lemma RoundedSides(z: real, x: real)
    requires z == z.Floor as real
    ensures z <= x.Floor as real || z >= (-((-x).Floor)) as real
  {
    if z.Floor > x.Floor {
      assert z >= x;
      assert -z.Floor <= (-x).Floor;
    }
  }

  /** `box` stands for the walked box of a node: inside it, and missing none of its points `q`
      accepts. */
  ghost predicate Stands(box: Box, walked: Box, q: Point -> bool) {
    Within(box, walked) && forall p :: q(p) && In(p, walked) ==> In(p, box)
  }

  /** The incremental update: applying the child's branch to the parent's strengthened bounds gives
      a box standing for the child's walked box. */
  lemma IncrementalStands(box: Box, walked: Box, br: Branch, q: Point -> bool)
    requires WellSized(walked, |walked.lo|) && br.v < |walked.lo|
    requires BranchedFrom(walked, br)
    requires Stands(box, walked, q)
    ensures Stands(Apply(box, br), Apply(walked, br), q)
  {
    ChildTightens(walked, br);
    forall p | q(p) && In(p, Apply(walked, br)) ensures In(p, Apply(box, br)) {
      PointsOfChild(walked, br, p);
      assert In(p, box);
      assert forall j :: 0 <= j < |p| ==> Between(box.lo[j], p[j], box.hi[j]);
    }
  }
}
