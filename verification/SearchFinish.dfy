/** Finishing a node preserves the invariant, whatever the LP answered. */
module SearchFinish {
  import opened Extended
  import opened Lattice
  import opened BoundWalk
  import opened SearchModel
  import opened SearchInvariant
  import opened SearchSteps

  /** Worker `w` is solving `id`; `k` is that worker with found solutions or ceiling updated. */
  ghost predicate Settles(s: State, w: nat, k: Worker, id: nat) {
    && w < |s.workers| && s.workers[w].current == Some(id) && s.workers[w].phase.Solving?
    && id in s.nodes && k.current == Some(id)
    && k.plunge == s.workers[w].plunge && k.backlog == s.workers[w].backlog && k.box == s.workers[w].box
    && Le(k.localUb, s.workers[w].localUb)
  }

  lemma RestHolds(k: Worker)
    requires k.current.Some?
    ensures HeldOne(Rest(k)) + multiset{k.current.value} == HeldOne(k)
  {
  }

  lemma SettleCloses(s: State, w: nat, k: Worker, id: nat, lb: Ext, status: Status)
    requires QueueInv(s) && Settles(s, w, k, id) && status != Pending
    ensures Closes(s, Close(s, w, k, lb, status), w, Rest(k), id)
  {
    RestHolds(k);
    assert HeldOne(k) == HeldOne(s.workers[w]);
    HeldPending(s, w, id);
  }

  lemma SettleBox(m: Mip, s: State, w: nat, k: Worker, id: nat)
    requires ValidMip(m) && WfTree(s.nodes, |m.cost|) && Settles(s, w, k, id)
    requires BoxInv(m, s.nodes, s.workers[w])
    ensures BoxInv(m, s.nodes, Rest(k))
  {
  }

  /** The closed node becomes the last solved one; its bounds stand and nothing is open below it. */
  lemma SettleLast(m: Mip, s: State, w: nat, k: Worker, id: nat, lb: Ext, status: Status)
    requires ValidMip(m) && ShapeInv(m, s) && Settles(s, w, k, id) && s.nodes[id].status == Pending && status != Pending
    ensures var s' := Close(s, w, k, lb, status);
            Le(Rest(k).localUb, s.best.ub) && WfTree(s'.nodes, |m.cost|) && LastInv(m, s'.nodes, s.best.ub, Rest(k))
  {
    var nodes' := Close(s, w, k, lb, status).nodes;
    assert BoxInv(m, s.nodes, s.workers[w]) && Le(s.workers[w].localUb, s.best.ub);
    CloseWf(s.nodes, nodes', id, |m.cost|);
    CloseKin(s.nodes, nodes', id, |m.cost|);
    WalkStable(m, s.nodes, nodes');
    hide WalkOf, Stands, Kinship, AllBranched, QueueInv;
    assert OnTop(nodes', k.plunge, id);
  }

  /** Closing the node being solved, given that its points are accounted for. */
  lemma SettleKeeps(m: Mip, t: Tolerances, s: State, w: nat, k: Worker, id: nat, lb: Ext, status: Status)
    requires Setting(m, t) && Inv(m, t, s) && Settles(s, w, k, id) && status != Pending
    requires Closes(s, Close(s, w, k, lb, status), w, Rest(k), id) ==>
               SafeClose(m, t, s, Close(s, w, k, lb, status), w, Rest(k), id)
    ensures Inv(m, t, Close(s, w, k, lb, status))
  {
    SettleCloses(s, w, k, id, lb, status);
    SettleBox(m, s, w, k, id);
    SettleLast(m, s, w, k, id, lb, status);
    CloseKeeps(m, t, s, Close(s, w, k, lb, status), w, Rest(k), id);
  }

  /** The points the LP must answer for: feasible, in the node's box, respecting its bound. They
      all lie in the worker's leaf bounds. */
  lemma PointsInLeaf(m: Mip, t: Tolerances, s: State, w: nat, id: nat, p: Point)
    requires Setting(m, t) && Inv(m, t, s) && w < |s.workers|
    requires s.workers[w].phase.Solving? && s.workers[w].current == Some(id)
    requires Feasible(m, p) && OpenAt(m, s.nodes, id, p)
    ensures In(p, s.workers[w].box) && s.workers[w].phase.propagated
    ensures OnGrid(m.grid, Obj(m, p))
  {
    assert BoxInv(m, s.nodes, s.workers[w]);
    assert FeasibleSet(m)(p);
  }

  /** No new solution, no new ceiling: the points are accounted for by an old bar. */
  lemma QuietSafe(m: Mip, t: Tolerances, s: State, s': State, w: nat, k: Worker, id: nat)
    requires ValidMip(m) && WfTree(s.nodes, |m.cost|) && Closes(s, s', w, k, id)
    requires s.workers[w].current.Some? && k == Rest(s.workers[w])
    requires AllTrue(m, t, k.found) && Bars(m, t, s, k.localUb)
    requires forall p :: Feasible(m, p) && OpenAt(m, s.nodes, id, p) ==> Beyond(m, t, s, Obj(m, p))
    ensures SafeClose(m, t, s, s', w, k, id)
  {
    assert k.found == s.workers[w].found && k.ceiling == s.workers[w].ceiling;
    AccumulatesHere(s, s', w);
    BeyondGrows(m, t, s, s');
  }

  lemma InfeasibleKeeps(m: Mip, t: Tolerances, s: State, w: nat, lp: Outcome)
    requires Setting(m, t) && Inv(m, t, s) && CanFinish(m, t, s, w, lp)
    requires lp == StrengthenedInfeasible || lp == DualUnbounded
    ensures Inv(m, t, Finish(m, t, s, w, lp))
  {
    var k := s.workers[w];
    var id := k.current.value;
    var s' := Close(s, w, k, PosInf, Infeasible);
    forall p | Feasible(m, p) ensures !OpenAt(m, s.nodes, id, p) {
      if OpenAt(m, s.nodes, id, p) {
        PointsInLeaf(m, t, s, w, id, p);
        assert false;
      }
    }
    if Closes(s, s', w, Rest(k), id) { QuietSafe(m, t, s, s', w, Rest(k), id); }
    SettleKeeps(m, t, s, w, k, id, PosInf, Infeasible);
  }

  lemma CutoffKeeps(m: Mip, t: Tolerances, s: State, w: nat)
    requires Setting(m, t) && Inv(m, t, s) && CanFinish(m, t, s, w, Cutoff)
    ensures Inv(m, t, Finish(m, t, s, w, Cutoff))
  {
    var k := s.workers[w];
    var id := k.current.value;
    var s' := Close(s, w, k, k.localUb, Fathomed);
    forall p | Feasible(m, p) && OpenAt(m, s.nodes, id, p) ensures Beyond(m, t, s, Obj(m, p)) {
      PointsInLeaf(m, t, s, w, id, p);
      assert Bars(m, t, s, k.phase.cutoff);
    }
    if Closes(s, s', w, Rest(k), id) { QuietSafe(m, t, s, s', w, Rest(k), id); }
    SettleKeeps(m, t, s, w, k, id, k.localUb, Fathomed);
  }

  lemma FathomKeeps(m: Mip, t: Tolerances, s: State, w: nat, lp: Outcome)
    requires Setting(m, t) && Inv(m, t, s) && CanFinish(m, t, s, w, lp) && lp.LpOptimal?
    requires !Le(Fin(Snap(m.grid, t, Obj(m, lp.x))), Shift(s.workers[w].localUb, t.fathom))
    ensures Inv(m, t, Close(s, w, s.workers[w], Fin(Snap(m.grid, t, Obj(m, lp.x))), Fathomed))
  {
    var k := s.workers[w];
    var id, lb := k.current.value, Fin(Snap(m.grid, t, Obj(m, lp.x)));
    var s' := Close(s, w, k, lb, Fathomed);
    forall p | Feasible(m, p) && OpenAt(m, s.nodes, id, p) ensures Beyond(m, t, s, Obj(m, p)) {
      PointsInLeaf(m, t, s, w, id, p);
      SnapSound(m.grid, t, Obj(m, lp.x), Obj(m, p));
      assert Bars(m, t, s, k.localUb);
    }
    if Closes(s, s', w, Rest(k), id) { QuietSafe(m, t, s, s', w, Rest(k), id); }
    SettleKeeps(m, t, s, w, k, id, lb, Fathomed);
  }

  lemma NumericalSafe(m: Mip, t: Tolerances, s: State, s': State, w: nat, k: Worker, id: nat)
    requires ValidMip(m) && WfTree(s.nodes, |m.cost|)
    requires k.current == Some(id) && Closes(s, s', w, Rest(k), id)
    requires k == s.workers[w].(ceiling := Min(s.nodes[id].lb, s.workers[w].ceiling))
    requires s'.nodes[id].status == Numerical && s'.workers[w] == Rest(k)
    requires AllTrue(m, t, k.found) && Bars(m, t, s, k.localUb)
    ensures SafeClose(m, t, s, s', w, Rest(k), id)
  {
    assert Rest(k).found == s.workers[w].found;
    AccumulatesHere(s, s', w);
    BeyondGrows(m, t, s, s');
    forall p | Feasible(m, p) && OpenAt(m, s.nodes, id, p) ensures AboveNumerical(s', Obj(m, p)) {
      assert Le(s'.workers[w].ceiling, Fin(Obj(m, p)));
    }
  }

  lemma NumericalKeeps(m: Mip, t: Tolerances, s: State, w: nat, k: Worker, id: nat)
    requires Setting(m, t) && Inv(m, t, s) && w < |s.workers| && id in s.nodes
    requires s.workers[w].phase.Solving? && s.workers[w].current == Some(id)
    requires k == s.workers[w].(ceiling := Min(s.nodes[id].lb, s.workers[w].ceiling))
    ensures Inv(m, t, Close(s, w, k, s.nodes[id].lb, Numerical))
  {
    var lb := s.nodes[id].lb;
    var s' := Close(s, w, k, lb, Numerical);
    assert Bars(m, t, s, k.localUb) && AllTrue(m, t, k.found);
    SettleCloses(s, w, k, id, lb, Numerical);
    NumericalSafe(m, t, s, s', w, k, id);
    SettleKeeps(m, t, s, w, k, id, lb, Numerical);
  }

  lemma RecordBars(m: Mip, t: Tolerances, s: State, s': State, w: nat, obj: real, x: Point)
    requires w < |s.workers| == |s'.workers| && Bars(m, t, s, s.workers[w].localUb)
    requires forall v: real :: Beyond(m, t, s, v) ==> Beyond(m, t, s', v)
    requires s'.workers[w].found == Record(s.workers[w], w, obj, x).found
    ensures Bars(m, t, s', Fin(obj)) && Bars(m, t, s', Record(s.workers[w], w, obj, x).localUb)
  {
    var k := s.workers[w];
    BarsSurvive(m, t, s, s', k.localUb);
    if Lt(Fin(obj), k.localUb) {
      assert s'.workers[w].found[|k.found|].obj == obj;
    } else {
      HigherBars(m, t, s', k.localUb, Fin(obj));
    }
  }

  /** A leaf with an integral solution: recorded, or no better than what is known. */
  lemma IntegralSafe(m: Mip, t: Tolerances, s: State, s': State, w: nat, k: Worker, id: nat, obj: real, x: Point)
    requires ValidMip(m) && WfTree(s.nodes, |m.cost|)
    requires w < |s.workers| && s.workers[w].current == Some(id) && k == Record(s.workers[w], w, obj, x)
    requires Closes(s, s', w, Rest(k), id) && s'.workers[w] == Rest(k)
    requires AllTrue(m, t, s.workers[w].found) && NearFeasible(m, t, x) && obj == Obj(m, x)
    requires Bars(m, t, s, s.workers[w].localUb)
    requires forall p :: Feasible(m, p) && OpenAt(m, s.nodes, id, p) ==>
               OnGrid(m.grid, Obj(m, p)) && obj <= Obj(m, p)
    ensures SafeClose(m, t, s, s', w, Rest(k), id)
  {
    AccumulatesHere(s, s', w);
    BeyondGrows(m, t, s, s');
    RecordBars(m, t, s, s', w, obj, x);
  }

  lemma IntegralKeeps(m: Mip, t: Tolerances, s: State, w: nat, lp: Outcome)
    requires Setting(m, t) && Inv(m, t, s) && CanFinish(m, t, s, w, lp)
    requires lp.LpOptimal? && NoFractional(m, t, lp.x)
    ensures Inv(m, t, Finish(m, t, s, w, lp))
  {
    var id, obj := s.workers[w].current.value, Obj(m, lp.x);
    var k := Record(s.workers[w], w, obj, lp.x);
    var lb := Fin(Snap(m.grid, t, obj));
    var s' := Close(s, w, k, lb, IntegerFeasible);
    forall p | Feasible(m, p) && OpenAt(m, s.nodes, id, p)
      ensures OnGrid(m.grid, Obj(m, p)) && obj <= Obj(m, p)
    {
      PointsInLeaf(m, t, s, w, id, p);
    }
    if Closes(s, s', w, Rest(k), id) { IntegralSafe(m, t, s, s', w, k, id, obj, lp.x); }
    SettleKeeps(m, t, s, w, k, id, lb, IntegerFeasible);
  }

  lemma LimitKeeps(m: Mip, t: Tolerances, s: State, w: nat)
    requires Setting(m, t) && Inv(m, t, s) && CanFinish(m, t, s, w, LimitReached)
    ensures Inv(m, t, Finish(m, t, s, w, LimitReached))
  {
    var s' := Finish(m, t, s, w, LimitReached);
    assert WorkerOnly(s, s', w);
    WorkerOnlyShape(m, s, s', w);
    WorkerOnlyValues(m, t, s, s', w);
  }

  // ------------------------------------------------------------------ branching

  /** `nodes'` is `nodes` with open leaf `id` branched into `down` and `up`, the intervals cut from
      the leaf bounds at a value inside them. */
  ghost predicate SplitAt(m: Mip, nodes: Nodes, nodes': Nodes, id: nat, lb: Ext, leaf: Box, v: nat, x: real, down: nat, up: nat)
    requires ValidMip(m)
  {
    && id in nodes && nodes'.Keys == nodes.Keys + {down, up}
    && down !in nodes && up !in nodes && id < down < up
    && (forall j :: j in nodes && j != id ==> nodes'[j] == nodes[j])
    && nodes'[id] == nodes[id].(lb := lb, status := HasChildren)
    && v < |m.cost| && m.integral[v] && WellSized(leaf, |m.cost|) && Between(leaf.lo[v], x, leaf.hi[v])
    && ChildOf(nodes'[down], id, lb, ChildBranch(leaf, v, x, Down))
    && ChildOf(nodes'[up], id, lb, ChildBranch(leaf, v, x, Up))
  }

  ghost predicate ChildOf(c: Node, id: nat, lb: Ext, br: Branch) {
    c.parent == id && c.lb == lb && c.status == Pending && c.branch == br
  }

  lemma SplitGrows(m: Mip, nodes: Nodes, nodes': Nodes, id: nat, lb: Ext, leaf: Box, v: nat, x: real, down: nat, up: nat)
    requires ValidMip(m) && WfTree(nodes, |m.cost|) && SplitAt(m, nodes, nodes', id, lb, leaf, v, x, down, up)
    ensures WfTree(nodes', |m.cost|) && Grows(nodes, nodes')
  {
  }

  /** The walked box of a new child is the parent's with the child's branch applied. */
  lemma ChildWalk(m: Mip, nodes: Nodes, nodes': Nodes, id: nat, child: nat)
    requires ValidMip(m) && WfTree(nodes, |m.cost|) && WfTree(nodes', |m.cost|) && Grows(nodes, nodes')
    requires id in nodes && child in nodes' && child != 0 && nodes'[child].parent == id
    requires BranchedNode(m, nodes, id)
    requires BranchedFrom(WalkOf(m, nodes, id), nodes'[child].branch)
    ensures BranchedNode(m, nodes', child)
    ensures WalkOf(m, nodes', child) == Apply(WalkOf(m, nodes, id), nodes'[child].branch)
  {
    var n := |m.cost|;
    PathStable(nodes, nodes', n, id);
    var path := Path(nodes', n, child);
    assert path[1..] == Path(nodes, n, id);
  }

  lemma SplitChildren(m: Mip, nodes: Nodes, nodes': Nodes, id: nat, lb: Ext, leaf: Box, v: nat, x: real, down: nat, up: nat)
    requires ValidMip(m) && WfTree(nodes, |m.cost|) && SplitAt(m, nodes, nodes', id, lb, leaf, v, x, down, up)
    requires BranchedNode(m, nodes, id) && Within(leaf, WalkOf(m, nodes, id))
    ensures WfTree(nodes', |m.cost|) && Grows(nodes, nodes')
    ensures BranchedNode(m, nodes', down) && BranchedNode(m, nodes', up)
    ensures WalkOf(m, nodes', down) == Apply(WalkOf(m, nodes, id), ChildBranch(leaf, v, x, Down))
    ensures WalkOf(m, nodes', up) == Apply(WalkOf(m, nodes, id), ChildBranch(leaf, v, x, Up))
  {
    SplitGrows(m, nodes, nodes', id, lb, leaf, v, x, down, up);
    ChildWalk(m, nodes, nodes', id, down);
    ChildWalk(m, nodes, nodes', id, up);
  }

  lemma SplitTree(m: Mip, s: State, s': State, id: nat, lb: Ext, leaf: Box, v: nat, x: real)
    requires ValidMip(m) && TreeInv(m, s) && s'.counter == s.counter + 2
    requires SplitAt(m, s.nodes, s'.nodes, id, lb, leaf, v, x, s.counter + 1, s.counter + 2)
    requires Within(leaf, WalkOf(m, s.nodes, id)) && s.nodes[id].status == Pending
    ensures TreeInv(m, s') && Grows(s.nodes, s'.nodes)
  {
    SplitPaths(m, s.nodes, s'.nodes, id, lb, leaf, v, x, s.counter + 1, s.counter + 2);
    SplitKin(m, s.nodes, s'.nodes, id, lb, leaf, v, x, s.counter + 1, s.counter + 2);
    hide AllBranched, Kinship, Within, Between;
  }

  /** Only the branched leaf gains children, and these share its bound. */
  lemma SplitKin(m: Mip, nodes: Nodes, nodes': Nodes, id: nat, lb: Ext, leaf: Box, v: nat, x: real, down: nat, up: nat)
    requires ValidMip(m) && WfTree(nodes, |m.cost|) && SplitAt(m, nodes, nodes', id, lb, leaf, v, x, down, up)
    requires Kinship(nodes) && nodes[id].status == Pending
    ensures Kinship(nodes') && NoNewChildren(nodes, nodes')
    ensures forall j :: j in nodes && nodes[j].status != Pending ==> nodes'[j].status != Pending
    ensures forall j :: OpenChild(nodes', id, j) ==> j == down || j == up
    ensures id in nodes' && nodes'[id].status != Pending
    ensures down in nodes' && nodes'[down].parent == id && up in nodes' && nodes'[up].parent == id
  {
    hide ChildBranch, Between, ValidMip;
    forall p, j | OpenChild(nodes', p, j) ensures if p == id then j == down || j == up else OpenChild(nodes, p, j) && nodes'[j] == nodes[j] {
      assert j in nodes ==> nodes[nodes[j].parent].status != Pending;
    }
    forall j | j in nodes' && j != 0 && nodes'[j].parent in nodes' ensures nodes'[nodes'[j].parent].status != Pending {
      if j in nodes { assert nodes[nodes[j].parent].status != Pending; }
    }
  }

  lemma SplitPaths(m: Mip, nodes: Nodes, nodes': Nodes, id: nat, lb: Ext, leaf: Box, v: nat, x: real, down: nat, up: nat)
    requires ValidMip(m) && WfTree(nodes, |m.cost|) && SplitAt(m, nodes, nodes', id, lb, leaf, v, x, down, up)
    requires AllBranched(m, nodes)
    requires Within(leaf, WalkOf(m, nodes, id))
    ensures WfTree(nodes', |m.cost|) && Grows(nodes, nodes')
    ensures AllBranched(m, nodes')
  {
    assert BranchedNode(m, nodes, id);
    SplitChildren(m, nodes, nodes', id, lb, leaf, v, x, down, up);
    forall j | j in nodes' ensures BranchedNode(m, nodes', j) {
      if j in nodes {
        assert BranchedNode(m, nodes, j);
        BranchedStable(m, nodes, nodes', j);
      }
    }
  }

  lemma SplitQueue(m: Mip, s: State, s': State, id: nat, lb: Ext, leaf: Box, v: nat, x: real, down: nat, up: nat)
    requires ValidMip(m) && QueueInv(s) && SplitAt(m, s.nodes, s'.nodes, id, lb, leaf, v, x, down, up)
    requires Held(s'.workers) + multiset{id} == Held(s.workers) + multiset{down, up}
    requires s.nodes[id].status == Pending
    ensures QueueInv(s')
  {
    hide Held, ChildBranch;
    forall j: nat
      ensures Held(s'.workers)[j] == if j in s'.nodes && s'.nodes[j].status == Pending then 1 else 0
    {
      assert Held(s.workers)[j] == if j in s.nodes && s.nodes[j].status == Pending then 1 else 0;
      assert (Held(s'.workers) + multiset{id})[j] == (Held(s.workers) + multiset{down, up})[j];
    }
  }

  /** A point of the branched node moves to one of the children. */
  lemma SplitPoint(m: Mip, nodes: Nodes, nodes': Nodes, id: nat, lb: Ext, leaf: Box, v: nat, x: real, down: nat, up: nat, p: Point)
    requires ValidMip(m) && WfTree(nodes, |m.cost|) && SplitAt(m, nodes, nodes', id, lb, leaf, v, x, down, up)
    requires BranchedNode(m, nodes, id) && Within(leaf, WalkOf(m, nodes, id))
    requires Feasible(m, p) && In(p, WalkOf(m, nodes, id)) && In(p, leaf) && Le(lb, Fin(Obj(m, p)))
    ensures WfTree(nodes', |m.cost|) && Open(m, nodes', p)
  {
    SplitChildren(m, nodes, nodes', id, lb, leaf, v, x, down, up);
    ChildrenCover(WalkOf(m, nodes, id), leaf, v, x, p);
    assert OpenAt(m, nodes', down, p) || OpenAt(m, nodes', up, p);
  }

  /** Worker `w`, solving `id`, became `k`: idle, with the two children queued in place of `id`. */
  ghost predicate SplitWorker(s: State, s': State, w: nat, k: Worker, id: nat) {
    && w < |s.workers| && s.workers[w].phase.Solving? && s.workers[w].current == Some(id)
    && s' == s.(nodes := s'.nodes, counter := s.counter + 2, workers := s.workers[w := k])
    && k.found == s.workers[w].found && k.ceiling == s.workers[w].ceiling
    && k.localUb == s.workers[w].localUb && k.box == s.workers[w].box
    && k.phase.Idle? && k.current.None? && k.lastSolved == Some(id)
    && Topped(k.plunge, s.counter + 1, s.counter + 2)
    && HeldOne(k) + multiset{id} == HeldOne(s.workers[w]) + multiset{s.counter + 1, s.counter + 2}
  }

  /** Both children lie on top of the stack. */
  predicate Topped(plunge: seq<nat>, down: nat, up: nat) {
    |plunge| >= 2 && (plunge[..2] == [down, up] || plunge[..2] == [up, down])
  }

  lemma SplitHeld(s: State, s': State, w: nat, k: Worker, id: nat)
    requires SplitWorker(s, s', w, k, id)
    ensures Held(s'.workers) + multiset{id} == Held(s.workers) + multiset{s.counter + 1, s.counter + 2}
  {
    HeldUpdate(s.workers, w, k);
    SwapHeld(Held(s.workers), HeldOne(s.workers[w]), HeldOne(k), multiset{id}, multiset{s.counter + 1, s.counter + 2});
  }

  lemma SwapHeld(all: multiset<nat>, before: multiset<nat>, after: multiset<nat>, x: multiset<nat>, y: multiset<nat>)
    requires before <= all && after + x == before + y
    ensures all - before + after + x == all + y
  {
    assert all - before + after + x == (all - before) + (after + x);
  }

  lemma SplitBoxes(m: Mip, s: State, s': State, w: nat, k: Worker, id: nat)
    requires ValidMip(m) && ShapeInv(m, s) && SplitWorker(s, s', w, k, id)
    requires WfTree(s'.nodes, |m.cost|) && Grows(s.nodes, s'.nodes)
    ensures forall j :: 0 <= j < |s'.workers| ==> BoxInv(m, s'.nodes, s'.workers[j])
  {
    assert BoxInv(m, s.nodes, s.workers[w]);
    BoxInvStable(m, s.nodes, s'.nodes, k);
    BoxesKept(m, s, s', w);
  }

  lemma SplitShape(m: Mip, s: State, s': State, w: nat, k: Worker, id: nat, lb: Ext, v: nat, x: real)
    requires ValidMip(m) && ShapeInv(m, s) && SplitWorker(s, s', w, k, id) && id in s.nodes
    requires SplitAt(m, s.nodes, s'.nodes, id, lb, s.workers[w].box, v, x, s.counter + 1, s.counter + 2)
    requires s.nodes[id].status == Pending
    ensures ShapeInv(m, s') && Grows(s.nodes, s'.nodes)
  {
    hide QueueInv, BoxInv, LastInv, HeldOne, AllBranched, Kinship, UbInv, Grows, SplitAt, WalkOf, Within, Topped;
    SolvingLeaf(m, s, w, id);
    StandsWithin(s.workers[w].box, WalkOf(m, s.nodes, id), FeasibleSet(m));
    SplitTree(m, s, s', id, lb, s.workers[w].box, v, x);
    SplitHeld(s, s', w, k, id);
    SplitQueue(m, s, s', id, lb, s.workers[w].box, v, x, s.counter + 1, s.counter + 2);
    SplitBoxes(m, s, s', w, k, id);
    SplitLasts(m, s, s', w, k, id, lb, v, x);
    UbHere(s, w);
    CloseUb(s, s', w, k);
  }

  lemma StandsWithin(box: Box, walked: Box, q: Point -> bool)
    requires Stands(box, walked, q)
    ensures Within(box, walked)
  {
  }

  lemma UbHere(s: State, w: nat)
    requires UbInv(s) && w < |s.workers|
    ensures Le(s.workers[w].localUb, s.best.ub)
  {
  }

  lemma SplitLasts(m: Mip, s: State, s': State, w: nat, k: Worker, id: nat, lb: Ext, v: nat, x: real)
    requires ValidMip(m) && ShapeInv(m, s) && SplitWorker(s, s', w, k, id) && id in s.nodes
    requires SplitAt(m, s.nodes, s'.nodes, id, lb, s.workers[w].box, v, x, s.counter + 1, s.counter + 2)
    requires s.nodes[id].status == Pending && WfTree(s'.nodes, |m.cost|) && Grows(s.nodes, s'.nodes)
    ensures forall j :: 0 <= j < |s'.workers| ==> LastInv(m, s'.nodes, s'.best.ub, s'.workers[j])
  {
    hide LastInv, BoxInv, Kinship, AllBranched, HeldOne, QueueInv, UbInv, WalkOf, Grows, SplitAt, OpenChild, Topped, Stands, WfTree;
    SplitKin(m, s.nodes, s'.nodes, id, lb, s.workers[w].box, v, x, s.counter + 1, s.counter + 2);
    SolvingLeaf(m, s, w, id);
    SplitLast(m, s.nodes, s'.nodes, s.best.ub, k, id, s.counter + 1, s.counter + 2);
    LastsKept(m, s, s', w);
  }

  /** The children of the node just branched lie on top of its worker's stack. */
  lemma SplitLast(m: Mip, nodes: Nodes, nodes': Nodes, ub: Ext, k: Worker, id: nat, down: nat, up: nat)
    requires ValidMip(m) && WfTree(nodes, |m.cost|) && WfTree(nodes', |m.cost|) && Grows(nodes, nodes')
    requires id in nodes && Stands(k.box, WalkOf(m, nodes, id), FeasibleSet(m))
    requires k.lastSolved == Some(id) && k.current.None? && nodes'[id].status != Pending && Topped(k.plunge, down, up)
    requires forall j :: OpenChild(nodes', id, j) ==> j == down || j == up
    requires down in nodes' && nodes'[down].parent == id && up in nodes' && nodes'[up].parent == id
    ensures LastInv(m, nodes', ub, k)
  {
    WalkStable(m, nodes, nodes');
    hide WalkOf, Stands;
    ToppedLead(nodes', k.plunge, id, down, up);
  }

  lemma ToppedLead(nodes: Nodes, plunge: seq<nat>, p: nat, down: nat, up: nat)
    requires Topped(plunge, down, up) && down in nodes && up in nodes && nodes[down].parent == p && nodes[up].parent == p
    ensures down in Lead(nodes, plunge, p) && up in Lead(nodes, plunge, p)
  {
    assert plunge[0] == plunge[..2][0] && plunge[1] == plunge[..2][1];
    assert plunge[1..][0] == plunge[1];
    assert Lead(nodes, plunge, p) == [plunge[0]] + Lead(nodes, plunge[1..], p);
  }

  lemma SplitNumerical(m: Mip, s: State, s': State, w: nat, k: Worker, id: nat, lb: Ext, v: nat, x: real)
    requires ValidMip(m) && NumericalInv(s) && SplitWorker(s, s', w, k, id) && id in s.nodes
    requires SplitAt(m, s.nodes, s'.nodes, id, lb, s.workers[w].box, v, x, s.counter + 1, s.counter + 2)
    requires s.nodes[id].status == Pending
    ensures NumericalInv(s')
  {
    if NoNumerical(s'.nodes) {
      forall j | j in s.nodes ensures s.nodes[j].status != Numerical {
        assert j in s'.nodes;
      }
    }
  }

  lemma SplitOthers(m: Mip, nodes: Nodes, nodes': Nodes, id: nat, lb: Ext, leaf: Box, v: nat, x: real, down: nat, up: nat)
    requires ValidMip(m) && SplitAt(m, nodes, nodes', id, lb, leaf, v, x, down, up)
    ensures forall j :: j in nodes && j != id ==> j in nodes' && nodes'[j] == nodes[j]
  {
  }

  lemma SolvingLeaf(m: Mip, s: State, w: nat, id: nat)
    requires ValidMip(m) && ShapeInv(m, s) && w < |s.workers|
    requires s.workers[w].phase.Solving? && s.workers[w].current == Some(id)
    ensures BranchedNode(m, s.nodes, id) && Stands(s.workers[w].box, WalkOf(m, s.nodes, id), FeasibleSet(m))
  {
    assert BoxInv(m, s.nodes, s.workers[w]);
  }

  lemma SplitCovers(m: Mip, t: Tolerances, s: State, s': State, w: nat, id: nat, lb: Ext, v: nat, x: real, p: Point)
    requires ValidMip(m) && WfTree(s.nodes, |m.cost|) && BranchedNode(m, s.nodes, id) && w < |s.workers|
    requires Stands(s.workers[w].box, WalkOf(m, s.nodes, id), FeasibleSet(m))
    requires SplitAt(m, s.nodes, s'.nodes, id, lb, s.workers[w].box, v, x, s.counter + 1, s.counter + 2)
    requires WfTree(s'.nodes, |m.cost|)
    requires Feasible(m, p) && OpenAt(m, s.nodes, id, p) && Le(lb, Fin(Obj(m, p)))
    ensures Covered(m, t, s', p)
  {
    var leaf := s.workers[w].box;
    assert FeasibleSet(m)(p);
    SplitPoint(m, s.nodes, s'.nodes, id, lb, leaf, v, x, s.counter + 1, s.counter + 2, p);
  }

  lemma SplitCover(m: Mip, t: Tolerances, s: State, s': State, w: nat, k: Worker, id: nat, lb: Ext, v: nat, x: real)
    requires ValidMip(m) && ShapeInv(m, s) && CoverInv(m, t, s)
    requires SplitWorker(s, s', w, k, id) && id in s.nodes
    requires SplitAt(m, s.nodes, s'.nodes, id, lb, s.workers[w].box, v, x, s.counter + 1, s.counter + 2)
    requires forall p :: Feasible(m, p) && OpenAt(m, s.nodes, id, p) ==> Le(lb, Fin(Obj(m, p)))
    requires WfTree(s'.nodes, |m.cost|) && Grows(s.nodes, s'.nodes)
    ensures CoverInv(m, t, s')
  {
    AccumulatesHere(s, s', w);
    SolvingLeaf(m, s, w, id);
    var leaf, down, up := s.workers[w].box, s.counter + 1, s.counter + 2;
    forall p | Feasible(m, p) && OpenAt(m, s.nodes, id, p) ensures Covered(m, t, s', p) {
      SplitCovers(m, t, s, s', w, id, lb, v, x, p);
    }
    SplitOthers(m, s.nodes, s'.nodes, id, lb, leaf, v, x, down, up);
    CoverKept(m, t, s, s', id);
  }

  lemma SplitBars(m: Mip, t: Tolerances, s: State, s': State, w: nat, k: Worker, id: nat)
    requires BarInv(m, t, s) && SplitWorker(s, s', w, k, id)
    ensures BarInv(m, t, s')
  {
    AccumulatesHere(s, s', w);
    BeyondGrows(m, t, s, s');
    BarsSurvive(m, t, s, s', s.workers[w].localUb);
    BarsKept(m, t, s, s', w);
  }

  lemma BranchTree(m: Mip, s: State, w: nat, id: nat, lb: Ext, v: nat, x: real, dir: Direction)
    requires ValidMip(m) && w < |s.workers| && Settles(s, w, s.workers[w], id)
    requires v < |m.cost| && m.integral[v] && WellSized(s.workers[w].box, |m.cost|)
    requires Between(s.workers[w].box.lo[v], x, s.workers[w].box.hi[v])
    requires forall j :: j in s.nodes ==> j <= s.counter
    ensures SplitAt(m, s.nodes, BranchOn(s, w, s.workers[w], lb, v, x, dir).nodes, id, lb, s.workers[w].box, v, x, s.counter + 1, s.counter + 2)
  {
    hide ChildBranch, Between, EnqueueChildren;
  }

  /** The state `BranchOn` produces fits the description above. */
  lemma BranchSplits(m: Mip, s: State, w: nat, id: nat, lb: Ext, v: nat, x: real, dir: Direction)
    requires ValidMip(m) && w < |s.workers| && Settles(s, w, s.workers[w], id)
    requires v < |m.cost| && m.integral[v] && WellSized(s.workers[w].box, |m.cost|)
    requires Between(s.workers[w].box.lo[v], x, s.workers[w].box.hi[v])
    requires forall j :: j in s.nodes ==> j <= s.counter
    ensures var s' := BranchOn(s, w, s.workers[w], lb, v, x, dir);
            && SplitAt(m, s.nodes, s'.nodes, id, lb, s.workers[w].box, v, x, s.counter + 1, s.counter + 2)
            && SplitWorker(s, s', w, s'.workers[w], id)
  {
    BranchTree(m, s, w, id, lb, v, x, dir);
    hide SplitAt, Between, ChildBranch, HeldOne;
    var k := EnqueueChildren(s.workers[w], s.counter + 1, s.counter + 2, dir);
    EnqueueChildrenHolds(s.workers[w], s.counter + 1, s.counter + 2, dir);
    RestHolds(k);
    ChildrenTopped(s.workers[w], s.counter + 1, s.counter + 2, dir);
    hide Retire, Topped;
  }

  lemma ChildrenTopped(k: Worker, down: nat, up: nat, dir: Direction)
    ensures Topped(EnqueueChildren(k, down, up, dir).plunge, down, up)
  {
    hide Retire;
    var pair, rest := (if dir == Up then [up, down] else [down, up]), Retire(k).plunge;
    assert (pair + rest)[..2] == pair;
  }

  lemma BranchKeeps(m: Mip, t: Tolerances, s: State, w: nat, lp: Outcome)
    requires Setting(m, t) && Inv(m, t, s) && CanFinish(m, t, s, w, lp)
    requires lp.LpOptimal? && !NoFractional(m, t, lp.x)
    ensures Inv(m, t, BranchOn(s, w, s.workers[w], Fin(Snap(m.grid, t, Obj(m, lp.x))), lp.v, lp.x[lp.v], lp.dir))
  {
    var id, lb := s.workers[w].current.value, Fin(Snap(m.grid, t, Obj(m, lp.x)));
    var v, x := lp.v, lp.x[lp.v];
    var s' := BranchOn(s, w, s.workers[w], lb, v, x, lp.dir);
    HeldPending(s, w, id);
    assert Between(s.workers[w].box.lo[v], x, s.workers[w].box.hi[v]);
    BranchSplits(m, s, w, id, lb, v, x, lp.dir);
    BranchBound(m, t, s, w, lp);
    SplitKeeps(m, t, s, s', w, id, lb, v, x);
  }

  lemma BranchBound(m: Mip, t: Tolerances, s: State, w: nat, lp: Outcome)
    requires Setting(m, t) && Inv(m, t, s) && CanFinish(m, t, s, w, lp) && lp.LpOptimal?
    ensures forall p :: Feasible(m, p) && OpenAt(m, s.nodes, s.workers[w].current.value, p) ==>
              Le(Fin(Snap(m.grid, t, Obj(m, lp.x))), Fin(Obj(m, p)))
  {
    var id := s.workers[w].current.value;
    forall p | Feasible(m, p) && OpenAt(m, s.nodes, id, p)
      ensures Le(Fin(Snap(m.grid, t, Obj(m, lp.x))), Fin(Obj(m, p)))
    {
      PointsInLeaf(m, t, s, w, id, p);
      SnapSound(m.grid, t, Obj(m, lp.x), Obj(m, p));
    }
  }

  lemma SplitKeeps(m: Mip, t: Tolerances, s: State, s': State, w: nat, id: nat, lb: Ext, v: nat, x: real)
    requires Setting(m, t) && Inv(m, t, s) && w < |s'.workers| && SplitWorker(s, s', w, s'.workers[w], id)
    requires id in s.nodes && s.nodes[id].status == Pending
    requires SplitAt(m, s.nodes, s'.nodes, id, lb, s.workers[w].box, v, x, s.counter + 1, s.counter + 2)
    requires forall p :: Feasible(m, p) && OpenAt(m, s.nodes, id, p) ==> Le(lb, Fin(Obj(m, p)))
    ensures Inv(m, t, s')
  {
    var k := s'.workers[w];
    SplitShape(m, s, s', w, k, id, lb, v, x);
    SplitCover(m, t, s, s', w, k, id, lb, v, x);
    SplitNumerical(m, s, s', w, k, id, lb, v, x);
    SplitBars(m, t, s, s', w, k, id);
    SplitFound(m, t, s, s', w, k, id);
  }

  lemma SplitFound(m: Mip, t: Tolerances, s: State, s': State, w: nat, k: Worker, id: nat)
    requires ValidMip(m) && FoundInv(m, t, s) && SplitWorker(s, s', w, k, id)
    ensures FoundInv(m, t, s')
  {
  }

  lemma FinishKeeps(m: Mip, t: Tolerances, s: State, w: nat, lp: Outcome)
    requires Setting(m, t) && Inv(m, t, s) && CanFinish(m, t, s, w, lp)
    ensures Inv(m, t, Finish(m, t, s, w, lp))
  {
    match lp
    case StrengthenedInfeasible => InfeasibleKeeps(m, t, s, w, lp);
    case DualUnbounded => InfeasibleKeeps(m, t, s, w, lp);
    case Cutoff => CutoffKeeps(m, t, s, w);
    case LimitReached => LimitKeeps(m, t, s, w);
    case NumericalTrouble =>
      var k, id := s.workers[w], s.workers[w].current.value;
      NumericalKeeps(m, t, s, w, k.(ceiling := Min(s.nodes[id].lb, k.ceiling)), id);
    case LpOptimal(x, v, dir) =>
      if NoFractional(m, t, x) {
        IntegralKeeps(m, t, s, w, lp);
      } else if Le(Fin(Snap(m.grid, t, Obj(m, x))), Shift(s.workers[w].localUb, t.fathom)) {
        BranchKeeps(m, t, s, w, lp);
      } else {
        FathomKeeps(m, t, s, w, lp);
      }
  }
}
