/** The concurrent protocol that closes subtrees: every closing call walks towards the root,
    decrementing child counters; the call that takes a counter to zero merges the node's bound,
    frees its children and goes on. Calls and branchings interleave at the level of their atomic
    actions. */
module ClosingProtocol {
  import opened Extended

  /** `kids` is kept after the children are freed, as history; `count` is the atomic counter. */
  datatype Vertex = Vertex(parent: Option<nat>, kids: Option<(nat, nat)>, lb: Ext, count: int, closed: bool)

  /** Where a closing call stands: about to decrement the parent of a completed node, about to
      merge the bounds of a node whose children are done, or about to free those children. */
  datatype Call = Report(node: nat) | Merge(node: nat) | Free(node: nat)

  /** `done`: nodes whose completion was counted at their parent (or the root, past the last
      iteration). `cascaded`: nodes merged so far, with multiplicity. */
  datatype State = State(
    tree: map<nat, Vertex>, top: nat, calls: multiset<Call>, done: set<nat>,
    cascaded: multiset<nat>, freed: set<nat>)

  // ------------------------------------------------------------------ shape

  ghost predicate WfTree(tree: map<nat, Vertex>, top: nat) {
    && 0 in tree
    && forall n {:trigger WfVertex(tree, top, n)} :: n in tree ==> WfVertex(tree, top, n)
  }

  /** Links in both directions agree; only the root has no parent. */
  ghost predicate WfVertex(tree: map<nat, Vertex>, top: nat, n: nat) {
    && n in tree && n < top && (tree[n].parent.None? <==> n == 0)
    && (tree[n].parent.Some? ==> ChildLink(tree, n, tree[n].parent.value))
    && (tree[n].kids.Some? ==> KidLinks(tree, n, tree[n].kids.value))
  }

  ghost predicate ChildLink(tree: map<nat, Vertex>, n: nat, p: nat) {
    && p in tree && p < n && tree[p].kids.Some?
    && (tree[p].kids.value.0 == n || tree[p].kids.value.1 == n)
  }

  ghost predicate KidLinks(tree: map<nat, Vertex>, n: nat, k: (nat, nat)) {
    && k.0 in tree && k.1 in tree && k.0 != k.1 && n < k.0 && n < k.1
    && tree[k.0].parent == Some(n) && tree[k.1].parent == Some(n)
  }

  predicate Leaf(s: State, n: nat) {
    n in s.tree && s.tree[n].kids.None?
  }

  predicate OpenLeaf(s: State, n: nat) {
    Leaf(s, n) && !s.tree[n].closed
  }

  predicate Inner(s: State, n: nat) {
    n in s.tree && s.tree[n].kids.Some?
  }

  /** The node's own part is over: a closed leaf, or an inner node whose bound was merged. */
  predicate Complete(s: State, n: nat) {
    n in s.tree && if s.tree[n].kids.Some? then s.cascaded[n] > 0 else s.tree[n].closed
  }

  predicate KidsDone(s: State, n: nat) {
    Inner(s, n) && s.tree[n].kids.value.0 in s.done && s.tree[n].kids.value.1 in s.done
  }

  function Unreported(s: State, n: nat): int
    requires Inner(s, n)
  {
    (if s.tree[n].kids.value.0 in s.done then 0 else 1) + (if s.tree[n].kids.value.1 in s.done then 0 else 1)
  }

  // ------------------------------------------------------------------ steps

  ghost predicate Init(s: State) {
    && s.tree.Keys == {0} && s.tree[0] == Vertex(None, None, s.tree[0].lb, 0, false) && s.top == 1
    && s.calls == multiset{} && s.done == {} && s.cascaded == multiset{} && s.freed == {}
  }

  /** search_tree_t::branch on an open leaf. */
  predicate CanBranch(s: State, n: nat, d: nat, u: nat) {
    OpenLeaf(s, n) && s.top <= d < u
  }

  function Branch(s: State, n: nat, d: nat, u: nat, lb: Ext): State
    requires CanBranch(s, n, d, u)
  {
    s.(tree := s.tree[n := s.tree[n].(kids := Some((d, u)), count := 2, lb := lb)]
               [d := Vertex(Some(n), None, lb, 0, false)][u := Vertex(Some(n), None, lb, 0, false)],
       top := u + 1)
  }

  /** A closing call on an open leaf: final bound and inactive status are written. */
  function Close(s: State, n: nat, lb: Ext): State
    requires OpenLeaf(s, n)
  {
    s.(tree := s.tree[n := s.tree[n].(closed := true, lb := lb)], calls := s.calls + multiset{Report(n)})
  }

  /** fetch_sub on the parent's counter; only the call that sees 1 goes on. */
  function Decrement(s: State, c: nat): State
    requires Report(c) in s.calls && c in s.tree
    requires s.tree[c].parent.Some? ==> s.tree[c].parent.value in s.tree
  {
    var rest := s.calls - multiset{Report(c)};
    if s.tree[c].parent.None? then
      s.(calls := rest, done := s.done + {c})
    else
      var p := s.tree[c].parent.value;
      var old' := s.tree[p].count;
      s.(tree := s.tree[p := s.tree[p].(count := old' - 1)], done := s.done + {c},
         calls := if old' != 1 then rest else rest + multiset{Merge(p)})
  }

  /** The parent takes the smaller of its children's bounds. */
  function MergeBounds(s: State, p: nat): State
    requires Merge(p) in s.calls && Inner(s, p)
    requires s.tree[p].kids.value.0 in s.tree && s.tree[p].kids.value.1 in s.tree
  {
    var k := s.tree[p].kids.value;
    s.(tree := s.tree[p := s.tree[p].(lb := Min(s.tree[k.0].lb, s.tree[k.1].lb))],
       cascaded := s.cascaded + multiset{p}, calls := s.calls - multiset{Merge(p)} + multiset{Free(p)})
  }

  /** The children's storage is released and the walk moves to the parent. */
  function FreeKids(s: State, p: nat): State
    requires Free(p) in s.calls && Inner(s, p)
  {
    var k := s.tree[p].kids.value;
    s.(freed := s.freed + {k.0, k.1}, calls := s.calls - multiset{Free(p)} + multiset{Report(p)})
  }

  datatype Action =
    | Branching(n: nat, d: nat, u: nat, lb: Ext) | Closing(n: nat, lb: Ext)
    | Decrementing(c: nat) | Merging(p: nat) | Freeing(p: nat)

  ghost predicate Step(s: State, a: Action, s': State) {
    match a
    case Branching(n, d, u, lb) => CanBranch(s, n, d, u) && s' == Branch(s, n, d, u, lb)
    case Closing(n, lb) => OpenLeaf(s, n) && s' == Close(s, n, lb)
    case Decrementing(c) =>
      && Report(c) in s.calls && c in s.tree
      && (s.tree[c].parent.Some? ==> s.tree[c].parent.value in s.tree)
      && s' == Decrement(s, c)
    case Merging(p) =>
      && Merge(p) in s.calls && Inner(s, p)
      && s.tree[p].kids.value.0 in s.tree && s.tree[p].kids.value.1 in s.tree
      && s' == MergeBounds(s, p)
    case Freeing(p) => Free(p) in s.calls && Inner(s, p) && s' == FreeKids(s, p)
  }

  /** Any interleaving of branchings and of the actions of any number of closing calls. */
  ghost predicate Run(ss: seq<State>, acts: seq<Action>) {
    && |ss| == |acts| + 1 && Init(ss[0])
    && forall i :: 0 <= i < |acts| ==> Step(ss[i], acts[i], ss[i + 1])
  }

  // ------------------------------------------------------------------ the invariant

  /** Counter, calls and history of one node. */
  ghost predicate NodeInv(s: State, n: nat) {
    && (n in s.done ==> Complete(s, n))
    && (Inner(s, n) ==> s.tree[n].count == Unreported(s, n))
    && s.calls[Report(n)] == (if Complete(s, n) && n !in s.done && s.calls[Free(n)] == 0 then 1 else 0)
    && s.calls[Merge(n)] == (if KidsDone(s, n) && s.cascaded[n] == 0 then 1 else 0)
    && s.calls[Free(n)] <= (if Inner(s, n) && s.cascaded[n] == 1 && n !in s.done then 1 else 0)
    && s.cascaded[n] <= (if KidsDone(s, n) then 1 else 0)
    && (n in s.freed <==>
          n in s.tree && s.tree[n].parent.Some? && Complete(s, s.tree[n].parent.value) &&
          s.calls[Free(s.tree[n].parent.value)] == 0)
  }

  ghost predicate CountInv(s: State) {
    WfTree(s.tree, s.top) && forall n: nat {:trigger NodeInv(s, n)} :: NodeInv(s, n)
  }

  // ------------------------------------------------------------------ each step keeps it

  /** Unfolds the invariant at a node and its neighbours. */
  lemma Around(s: State, n: nat)
    requires CountInv(s) && n in s.tree
    ensures NodeInv(s, n) && WfVertex(s.tree, s.top, n)
    ensures s.tree[n].parent.Some? ==>
              NodeInv(s, s.tree[n].parent.value) && WfVertex(s.tree, s.top, s.tree[n].parent.value)
    ensures s.tree[n].kids.Some? ==>
              && NodeInv(s, s.tree[n].kids.value.0) && WfVertex(s.tree, s.top, s.tree[n].kids.value.0)
              && NodeInv(s, s.tree[n].kids.value.1) && WfVertex(s.tree, s.top, s.tree[n].kids.value.1)
  {
    assert WfVertex(s.tree, s.top, n);
    if s.tree[n].parent.Some? { assert WfVertex(s.tree, s.top, s.tree[n].parent.value); }
    if s.tree[n].kids.Some? {
      assert WfVertex(s.tree, s.top, s.tree[n].kids.value.0) && WfVertex(s.tree, s.top, s.tree[n].kids.value.1);
    }
  }

  lemma BranchNode(s: State, n: nat, d: nat, u: nat, lb: Ext, j: nat)
    requires CountInv(s) && CanBranch(s, n, d, u)
    ensures NodeInv(Branch(s, n, d, u, lb), j)
    ensures j in Branch(s, n, d, u, lb).tree ==> WfVertex(Branch(s, n, d, u, lb).tree, u + 1, j)
  {
    var s' := Branch(s, n, d, u, lb);
    assert d in s.tree ==> WfVertex(s.tree, s.top, d);
    assert u in s.tree ==> WfVertex(s.tree, s.top, u);
    Around(s, n);
    assert NodeInv(s, j) && NodeInv(s, d) && NodeInv(s, u);
    if j in s.tree { Around(s, j); }
  }

  lemma BranchKeeps(s: State, n: nat, d: nat, u: nat, lb: Ext)
    requires CountInv(s) && CanBranch(s, n, d, u)
    ensures CountInv(Branch(s, n, d, u, lb))
  {
    forall j: nat
      ensures NodeInv(Branch(s, n, d, u, lb), j)
      ensures j in Branch(s, n, d, u, lb).tree ==> WfVertex(Branch(s, n, d, u, lb).tree, u + 1, j)
    {
      BranchNode(s, n, d, u, lb, j);
    }
  }

  lemma CloseNode(s: State, n: nat, lb: Ext, j: nat)
    requires CountInv(s) && OpenLeaf(s, n)
    ensures NodeInv(Close(s, n, lb), j)
    ensures j in s.tree ==> WfVertex(Close(s, n, lb).tree, s.top, j)
  {
    Around(s, n);
    assert NodeInv(s, j);
    if j in s.tree { Around(s, j); }
  }

  lemma CloseKeeps(s: State, n: nat, lb: Ext)
    requires CountInv(s) && OpenLeaf(s, n)
    ensures CountInv(Close(s, n, lb))
  {
    forall j: nat
      ensures NodeInv(Close(s, n, lb), j)
      ensures j in s.tree ==> WfVertex(Close(s, n, lb).tree, s.top, j)
    {
      CloseNode(s, n, lb, j);
    }
  }

  lemma DecrementRoot(s: State, c: nat, s': State, j: nat)
    requires CountInv(s) && Step(s, Decrementing(c), s') && s.tree[c].parent.None?
    ensures NodeInv(s', j)
  {
    Around(s, c);
    assert NodeInv(s, j);
    if j in s.tree { Around(s, j); }
  }

  lemma DecrementShape(s: State, c: nat, s': State, j: nat)
    requires CountInv(s) && Step(s, Decrementing(c), s') && j in s'.tree
    ensures j in s.tree && WfVertex(s'.tree, s'.top, j)
  {
    Around(s, c);
    Around(s, j);
  }

  lemma DecrementParent(s: State, c: nat, s': State, p: nat)
    requires CountInv(s) && Step(s, Decrementing(c), s') && s.tree[c].parent == Some(p)
    ensures NodeInv(s', p)
  {
    Around(s, c);
    Around(s, p);
  }

  lemma DecrementOther(s: State, c: nat, s': State, p: nat, j: nat)
    requires CountInv(s) && Step(s, Decrementing(c), s') && s.tree[c].parent == Some(p) && j != p
    ensures NodeInv(s', j)
  {
    Around(s, c);
    assert NodeInv(s, j);
    if j in s.tree {
      Around(s, j);
      assert s'.tree[j] == s.tree[j];
      if Inner(s, j) {
        assert s.tree[j].kids.value.0 != c && s.tree[j].kids.value.1 != c;
        assert KidsDone(s', j) == KidsDone(s, j);
      }
      assert Complete(s', j) == Complete(s, j);
      if s.tree[j].parent.Some? {
        assert Complete(s', s.tree[j].parent.value) == Complete(s, s.tree[j].parent.value);
      }
    }
  }

  lemma DecrementNode(s: State, c: nat, s': State, j: nat)
    requires CountInv(s) && Step(s, Decrementing(c), s')
    ensures NodeInv(s', j)
    ensures j in s'.tree ==> WfVertex(s'.tree, s'.top, j)
  {
    if s.tree[c].parent.None? {
      DecrementRoot(s, c, s', j);
    } else if j == s.tree[c].parent.value {
      DecrementParent(s, c, s', j);
    } else {
      DecrementOther(s, c, s', s.tree[c].parent.value, j);
    }
    if j in s'.tree { DecrementShape(s, c, s', j); }
  }

  lemma DecrementKeeps(s: State, c: nat, s': State)
    requires CountInv(s) && Step(s, Decrementing(c), s')
    ensures CountInv(s')
  {
    forall j: nat ensures NodeInv(s', j) && (j in s'.tree ==> WfVertex(s'.tree, s'.top, j)) {
      DecrementNode(s, c, s', j);
    }
  }

  lemma MergeShape(s: State, p: nat, s': State, j: nat)
    requires CountInv(s) && Step(s, Merging(p), s') && j in s'.tree
    ensures j in s.tree && WfVertex(s'.tree, s'.top, j)
  {
    Around(s, p);
    Around(s, j);
  }

  lemma MergeCounts(s: State, p: nat, s': State, j: nat)
    requires CountInv(s) && Step(s, Merging(p), s')
    ensures NodeInv(s', j)
  {
    Around(s, p);
    assert NodeInv(s, j);
    if j in s.tree { Around(s, j); }
  }

  lemma MergeNode(s: State, p: nat, s': State, j: nat)
    requires CountInv(s) && Step(s, Merging(p), s')
    ensures NodeInv(s', j)
    ensures j in s'.tree ==> WfVertex(s'.tree, s'.top, j)
  {
    MergeCounts(s, p, s', j);
    if j in s'.tree { MergeShape(s, p, s', j); }
  }

  lemma MergeKeeps(s: State, p: nat, s': State)
    requires CountInv(s) && Step(s, Merging(p), s')
    ensures CountInv(s')
  {
    forall j: nat ensures NodeInv(s', j) && (j in s'.tree ==> WfVertex(s'.tree, s'.top, j)) {
      MergeNode(s, p, s', j);
    }
  }

  lemma FreeNode(s: State, p: nat, s': State, j: nat)
    requires CountInv(s) && Step(s, Freeing(p), s')
    ensures NodeInv(s', j)
    ensures j in s'.tree ==> WfVertex(s'.tree, s'.top, j)
  {
    Around(s, p);
    assert NodeInv(s, j);
    if j in s.tree { Around(s, j); }
  }

  lemma FreeKeeps(s: State, p: nat, s': State)
    requires CountInv(s) && Step(s, Freeing(p), s')
    ensures CountInv(s')
  {
    forall j: nat ensures NodeInv(s', j) && (j in s'.tree ==> WfVertex(s'.tree, s'.top, j)) {
      FreeNode(s, p, s', j);
    }
  }

  // ------------------------------------------------------------------ bounds

  /** The least bound among the leaves below `n`. */
  ghost function LeafMin(tree: map<nat, Vertex>, top: nat, n: nat): Ext
    requires WfTree(tree, top) && n in tree
    decreases top - n
  {
    assert WfVertex(tree, top, n);
    if tree[n].kids.None? then tree[n].lb
    else
      var k := tree[n].kids.value;
      assert WfVertex(tree, top, k.0) && WfVertex(tree, top, k.1);
      Min(LeafMin(tree, top, k.0), LeafMin(tree, top, k.1))
  }

  ghost predicate Merged(s: State, n: nat)
    requires WfTree(s.tree, s.top)
  {
    Complete(s, n) ==> s.tree[n].lb == LeafMin(s.tree, s.top, n)
  }

  /** Completed subtrees carry the minimum of their leaves' final bounds. */
  ghost predicate BoundInv(s: State) {
    WfTree(s.tree, s.top) && forall n {:trigger Merged(s, n)} :: n in s.tree ==> Merged(s, n)
  }

  ghost predicate Inv(s: State) {
    CountInv(s) && BoundInv(s)
  }

  /** A step leaves the shape of completed nodes and the bounds of closed leaves alone. */
  ghost predicate Frozen(s: State, s': State) {
    forall j {:trigger Complete(s, j)} :: Complete(s, j) ==>
      j in s'.tree && s'.tree[j].kids == s.tree[j].kids &&
      (s.tree[j].kids.None? ==> s'.tree[j].lb == s.tree[j].lb)
  }

  lemma {:induction false} LeafMinFrozen(s: State, s': State, n: nat)
    requires CountInv(s) && WfTree(s'.tree, s'.top) && Frozen(s, s') && Complete(s, n)
    ensures n in s'.tree && LeafMin(s'.tree, s'.top, n) == LeafMin(s.tree, s.top, n)
    decreases s.top - n
  {
    Around(s, n);
    if s.tree[n].kids.Some? {
      var k := s.tree[n].kids.value;
      LeafMinFrozen(s, s', k.0);
      LeafMinFrozen(s, s', k.1);
    }
  }

  /** Bounds survive a step at every node completed before it. */
  lemma OldMerged(s: State, s': State, n: nat)
    requires Inv(s) && WfTree(s'.tree, s'.top) && Frozen(s, s') && Complete(s, n)
    requires n in s'.tree && s'.tree[n].lb == s.tree[n].lb
    ensures Merged(s', n)
  {
    assert Merged(s, n);
    LeafMinFrozen(s, s', n);
  }

  lemma BranchBounds(s: State, n: nat, d: nat, u: nat, lb: Ext)
    requires Inv(s) && CanBranch(s, n, d, u)
    ensures BoundInv(Branch(s, n, d, u, lb))
  {
    var s' := Branch(s, n, d, u, lb);
    BranchKeeps(s, n, d, u, lb);
    assert d in s.tree ==> WfVertex(s.tree, s.top, d);
    assert u in s.tree ==> WfVertex(s.tree, s.top, u);
    forall j | j in s'.tree ensures Merged(s', j) {
      if Complete(s', j) {
        Around(s, n);
        assert Complete(s, j);
        OldMerged(s, s', j);
      }
    }
  }

  lemma CloseBounds(s: State, n: nat, lb: Ext)
    requires Inv(s) && OpenLeaf(s, n)
    ensures BoundInv(Close(s, n, lb))
  {
    var s' := Close(s, n, lb);
    CloseKeeps(s, n, lb);
    forall j | j in s'.tree ensures Merged(s', j) {
      if Complete(s', j) && j != n {
        OldMerged(s, s', j);
      }
    }
  }

  lemma DecrementBounds(s: State, c: nat, s': State)
    requires Inv(s) && Step(s, Decrementing(c), s')
    ensures BoundInv(s')
  {
    DecrementKeeps(s, c, s');
    forall j | j in s'.tree ensures Merged(s', j) {
      if Complete(s', j) {
        OldMerged(s, s', j);
      }
    }
  }

  lemma MergeBoundsKeeps(s: State, p: nat, s': State)
    requires Inv(s) && Step(s, Merging(p), s')
    ensures BoundInv(s')
  {
    MergeKeeps(s, p, s');
    Around(s, p);
    var k := s.tree[p].kids.value;
    LeafMinFrozen(s, s', k.0);
    LeafMinFrozen(s, s', k.1);
    assert Merged(s, k.0) && Merged(s, k.1);
    forall j | j in s'.tree ensures Merged(s', j) {
      if Complete(s', j) && j != p {
        OldMerged(s, s', j);
      }
    }
  }

  lemma FreeBounds(s: State, p: nat, s': State)
    requires Inv(s) && Step(s, Freeing(p), s')
    ensures BoundInv(s')
  {
    FreeKeeps(s, p, s');
    forall j | j in s'.tree ensures Merged(s', j) {
      if Complete(s', j) {
        OldMerged(s, s', j);
      }
    }
  }

  lemma StepKeeps(s: State, a: Action, s': State)
    requires Inv(s) && Step(s, a, s')
    ensures Inv(s')
  {
    match a
    case Branching(n, d, u, lb) => BranchKeeps(s, n, d, u, lb); BranchBounds(s, n, d, u, lb);
    case Closing(n, lb) => CloseKeeps(s, n, lb); CloseBounds(s, n, lb);
    case Decrementing(c) => DecrementKeeps(s, c, s'); DecrementBounds(s, c, s');
    case Merging(p) => MergeKeeps(s, p, s'); MergeBoundsKeeps(s, p, s');
    case Freeing(p) => FreeKeeps(s, p, s'); FreeBounds(s, p, s');
  }

  lemma InitInv(s: State)
    requires Init(s)
    ensures Inv(s)
  {
    assert WfVertex(s.tree, s.top, 0);
    forall n: nat ensures NodeInv(s, n) {}
  }

  lemma {:induction false} RunInv(ss: seq<State>, acts: seq<Action>, k: nat)
    requires Run(ss, acts) && k < |ss|
    ensures Inv(ss[k])
    decreases k
  {
    if k == 0 {
      InitInv(ss[0]);
    } else {
      RunInv(ss, acts, k - 1);
      StepKeeps(ss[k - 1], acts[k - 1], ss[k]);
    }
  }

  // ------------------------------------------------------------------ main results

  /** Whatever the interleaving, a counter always equals the number of children not yet counted,
      and no node is cascaded through twice. */
  lemma CountersExact(ss: seq<State>, acts: seq<Action>, k: nat, n: nat)
    requires Run(ss, acts) && k < |ss|
    ensures ss[k].cascaded[n] <= 1
    ensures Inner(ss[k], n) ==> ss[k].tree[n].count == Unreported(ss[k], n)
  {
    RunInv(ss, acts, k);
    assert NodeInv(ss[k], n);
  }

  ghost predicate AncestorOrSelf(tree: map<nat, Vertex>, top: nat, a: nat, n: nat)
    requires WfTree(tree, top) && n in tree
  {
    assert WfVertex(tree, top, n);
    a == n || (tree[n].parent.Some? && AncestorOrSelf(tree, top, a, tree[n].parent.value))
  }

  lemma {:induction false} UnfinishedUpward(s: State, a: nat, n: nat)
    requires CountInv(s) && n in s.tree && AncestorOrSelf(s.tree, s.top, a, n) && !Complete(s, n)
    ensures a in s.tree && !Complete(s, a) && a !in s.freed
    decreases n
  {
    Around(s, n);
    if a != n {
      UnfinishedUpward(s, a, s.tree[n].parent.value);
    }
  }

  /** Neither an open leaf nor any of its ancestors is ever freed, so walks from it stay valid. */
  lemma AncestorsAlive(ss: seq<State>, acts: seq<Action>, k: nat, a: nat, n: nat)
    requires Run(ss, acts) && k < |ss| && OpenLeaf(ss[k], n)
    requires WfTree(ss[k].tree, ss[k].top) && AncestorOrSelf(ss[k].tree, ss[k].top, a, n)
    ensures a !in ss[k].freed
  {
    RunInv(ss, acts, k);
    UnfinishedUpward(ss[k], a, n);
  }

  predicate Alive(s: State, n: nat) {
    n in s.tree && n !in s.freed
  }

  /** What each action touches is alive: the parent whose counter is decremented, the children
      whose bounds are read or whose storage is released, and the node being completed. */
  lemma TouchedAlive(ss: seq<State>, acts: seq<Action>, k: nat, n: nat)
    requires Run(ss, acts) && k < |ss|
    ensures Report(n) in ss[k].calls ==> Alive(ss[k], n)
    ensures Report(n) in ss[k].calls && n != 0 ==>
              ss[k].tree[n].parent.Some? && Alive(ss[k], ss[k].tree[n].parent.value)
    ensures Merge(n) in ss[k].calls ==>
              && Inner(ss[k], n) && Alive(ss[k], n)
              && Alive(ss[k], ss[k].tree[n].kids.value.0) && Alive(ss[k], ss[k].tree[n].kids.value.1)
    ensures Free(n) in ss[k].calls ==>
              && Inner(ss[k], n) && Alive(ss[k], n)
              && Alive(ss[k], ss[k].tree[n].kids.value.0) && Alive(ss[k], ss[k].tree[n].kids.value.1)
  {
    RunInv(ss, acts, k);
    var s := ss[k];
    assert NodeInv(s, n);
    if n in s.tree {
      Around(s, n);
      if s.tree[n].parent.Some? {
        var p := s.tree[n].parent.value;
        Around(s, p);
      }
    }
  }

  lemma {:induction false} FreedStays(ss: seq<State>, acts: seq<Action>, i: nat, k: nat, n: nat)
    requires Run(ss, acts) && i <= k < |ss| && n in ss[i].freed
    ensures n in ss[k].freed
    decreases k
  {
    if i < k {
      FreedStays(ss, acts, i, k - 1, n);
      assert Step(ss[k - 1], acts[k - 1], ss[k]);
    }
  }

  /** Step `i` of the run releases node `n`. */
  ghost predicate Releases(ss: seq<State>, acts: seq<Action>, i: nat, n: nat) {
    && |ss| == |acts| + 1 && i < |acts| && acts[i].Freeing? && Inner(ss[i], acts[i].p)
    && (ss[i].tree[acts[i].p].kids.value.0 == n || ss[i].tree[acts[i].p].kids.value.1 == n)
  }

  lemma ReleaseEffect(ss: seq<State>, acts: seq<Action>, i: nat, n: nat)
    requires Run(ss, acts) && Releases(ss, acts, i, n)
    ensures Alive(ss[i], n) && n in ss[i + 1].freed
  {
    assert Step(ss[i], acts[i], ss[i + 1]);
    TouchedAlive(ss, acts, i, acts[i].p);
  }

  /** A node's storage is released at most once. */
  lemma FreedOnce(ss: seq<State>, acts: seq<Action>, i: nat, j: nat, n: nat)
    requires Run(ss, acts) && Releases(ss, acts, i, n) && Releases(ss, acts, j, n)
    ensures i == j
  {
    ReleaseEffect(ss, acts, i, n);
    ReleaseEffect(ss, acts, j, n);
    if i < j { FreedStays(ss, acts, i + 1, j, n); }
    if j < i { FreedStays(ss, acts, j + 1, i, n); }
  }

  /** No leaf is open and every call has returned. */
  ghost predicate Quiet(s: State) {
    s.calls == multiset{} && forall n :: !OpenLeaf(s, n)
  }

  lemma {:induction false} QuietComplete(s: State, n: nat)
    requires Inv(s) && Quiet(s) && n in s.tree
    ensures Complete(s, n) && n in s.done
    decreases s.top - n
  {
    Around(s, n);
    assert !OpenLeaf(s, n);
    if s.tree[n].kids.Some? {
      QuietComplete(s, s.tree[n].kids.value.0);
      QuietComplete(s, s.tree[n].kids.value.1);
    }
  }

  lemma {:induction false} LeafMinBelow(tree: map<nat, Vertex>, top: nat, a: nat, n: nat)
    requires WfTree(tree, top) && n in tree && a in tree && AncestorOrSelf(tree, top, a, n)
    ensures Le(LeafMin(tree, top, a), LeafMin(tree, top, n))
    decreases n
  {
    assert WfVertex(tree, top, n);
    if a != n {
      var p := tree[n].parent.value;
      LeafMinBelow(tree, top, a, p);
      assert WfVertex(tree, top, p);
      MinTransitive(LeafMin(tree, top, a), LeafMin(tree, top, p), LeafMin(tree, top, n));
    } else {
      MinTransitive(LeafMin(tree, top, a), LeafMin(tree, top, a), LeafMin(tree, top, a));
    }
  }

  lemma MinTransitive(a: Ext, b: Ext, c: Ext)
    ensures Le(a, a)
    ensures Le(a, b) && Le(b, c) ==> Le(a, c)
  {
  }

  lemma {:induction false} RootAbove(tree: map<nat, Vertex>, top: nat, n: nat)
    requires WfTree(tree, top) && n in tree
    ensures AncestorOrSelf(tree, top, 0, n)
    decreases n
  {
    assert WfVertex(tree, top, n);
    if n != 0 { RootAbove(tree, top, tree[n].parent.value); }
  }

  lemma {:induction false} LeafMinAttained(tree: map<nat, Vertex>, top: nat, n: nat) returns (leaf: nat)
    requires WfTree(tree, top) && n in tree
    ensures leaf in tree && tree[leaf].kids.None? && tree[leaf].lb == LeafMin(tree, top, n)
    decreases top - n
  {
    assert WfVertex(tree, top, n);
    if tree[n].kids.None? {
      leaf := n;
    } else {
      var k := tree[n].kids.value;
      assert WfVertex(tree, top, k.0) && WfVertex(tree, top, k.1);
      if Le(LeafMin(tree, top, k.0), LeafMin(tree, top, k.1)) {
        leaf := LeafMinAttained(tree, top, k.0);
      } else {
        leaf := LeafMinAttained(tree, top, k.1);
      }
    }
  }

  /** Once the last leaf has closed and the calls have returned: every inner node was cascaded
      through exactly once, everything below the root is freed, and the root's bound is the
      minimum of all final leaf bounds. */
  lemma QuietOutcome(ss: seq<State>, acts: seq<Action>, k: nat)
    requires Run(ss, acts) && k < |ss| && Quiet(ss[k])
    ensures forall n :: Inner(ss[k], n) ==> ss[k].cascaded[n] == 1
    ensures forall n :: n in ss[k].tree && n != 0 ==> n in ss[k].freed
    ensures 0 in ss[k].tree
    ensures forall n :: Leaf(ss[k], n) ==> Le(ss[k].tree[0].lb, ss[k].tree[n].lb)
    ensures exists n :: Leaf(ss[k], n) && ss[k].tree[n].lb == ss[k].tree[0].lb
  {
    RunInv(ss, acts, k);
    var s := ss[k];
    forall n | n in s.tree
      ensures Inner(s, n) ==> s.cascaded[n] == 1
      ensures n != 0 ==> n in s.freed
      ensures Leaf(s, n) ==> Le(s.tree[0].lb, s.tree[n].lb)
    {
      Around(s, n);
      QuietComplete(s, n);
      if n != 0 { QuietComplete(s, s.tree[n].parent.value); }
      QuietComplete(s, 0);
      assert Merged(s, 0);
      RootAbove(s.tree, s.top, n);
      LeafMinBelow(s.tree, s.top, 0, n);
    }
    QuietComplete(s, 0);
    assert Merged(s, 0);
    var leaf := LeafMinAttained(s.tree, s.top, 0);
    assert Leaf(s, leaf);
  }
}
