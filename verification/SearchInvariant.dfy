/** What every step of the search keeps, and how tree edits affect walked boxes. */
module SearchInvariant {
  import opened Extended
  import opened Lattice
  import opened BoundWalk
  import opened SearchModel

  // ------------------------------------------------------------------ coverage

  /** `v` cannot beat the upper bound by more than the slack, or a queued solution attains it. */
  ghost predicate Beyond(m: Mip, t: Tolerances, s: State, v: real) {
    || Le(Shift(s.best.ub, -Slack(m.grid, t)), Fin(v))
    || exists w, i :: 0 <= w < |s.workers| && 0 <= i < |s.workers[w].found| &&
         s.workers[w].found[i].obj <= v
  }

  /** `v` is at or above the numerical bound, counting the ceilings not merged yet. */
  ghost predicate AboveNumerical(s: State, v: real) {
    || Le(s.numerical, Fin(v))
    || exists w :: 0 <= w < |s.workers| && Le(s.workers[w].ceiling, Fin(v))
  }

  ghost predicate OpenAt(m: Mip, nodes: Nodes, id: nat, p: Point)
    requires ValidMip(m) && WfTree(nodes, |m.cost|) && |p| == |m.cost|
  {
    && id in nodes && nodes[id].status == Pending
    && In(p, WalkOf(m, nodes, id)) && Le(nodes[id].lb, Fin(Obj(m, p)))
  }

  /** The point lies in the box of an open leaf whose bound it respects. */
  ghost predicate Open(m: Mip, nodes: Nodes, p: Point)
    requires ValidMip(m) && WfTree(nodes, |m.cost|) && |p| == |m.cost|
  {
    exists id :: OpenAt(m, nodes, id, p)
  }

  ghost predicate Covered(m: Mip, t: Tolerances, s: State, p: Point)
    requires ValidMip(m) && WfTree(s.nodes, |m.cost|) && |p| == |m.cost|
  {
    Open(m, s.nodes, p) || AboveNumerical(s, Obj(m, p)) || Beyond(m, t, s, Obj(m, p))
  }

  ghost predicate CoverInv(m: Mip, t: Tolerances, s: State)
    requires ValidMip(m) && WfTree(s.nodes, |m.cost|)
  {
    forall p :: Feasible(m, p) ==> Covered(m, t, s, p)
  }

  // ------------------------------------------------------------------ the invariant

  ghost predicate TreeInv(m: Mip, s: State)
    requires ValidMip(m)
  {
    && WfTree(s.nodes, |m.cost|)
    && s.nodes[0].status != Pending
    && (forall id :: id in s.nodes ==> id <= s.counter)
    && AllBranched(m, s.nodes) && Kinship(s.nodes)
  }

  /** `id` is an open leaf below `p`. */
  predicate OpenChild(nodes: Nodes, p: nat, id: nat) {
    id in nodes && id != 0 && nodes[id].status == Pending && nodes[id].parent == p
  }

  /** No open leaf has children, and open siblings share their bound. */
  ghost predicate Kinship(nodes: Nodes) {
    && (forall id :: id in nodes && id != 0 && nodes[id].parent in nodes ==> nodes[nodes[id].parent].status != Pending)
    && (forall p, i, j :: OpenChild(nodes, p, i) && OpenChild(nodes, p, j) ==> nodes[i].lb == nodes[j].lb)
  }

  /** The intervals on the node's path arose by branching within the bounds of the time. */
  ghost predicate BranchedNode(m: Mip, nodes: Nodes, id: nat)
    requires ValidMip(m) && WfTree(nodes, |m.cost|)
  {
    id in nodes && Branched(m.box, Path(nodes, |m.cost|, id))
  }

  ghost predicate AllBranched(m: Mip, nodes: Nodes)
    requires ValidMip(m) && WfTree(nodes, |m.cost|)
  {
    forall id {:trigger BranchedNode(m, nodes, id)} :: id in nodes ==> BranchedNode(m, nodes, id)
  }

  lemma BranchedStable(m: Mip, nodes: Nodes, nodes': Nodes, id: nat)
    requires ValidMip(m) && WfTree(nodes, |m.cost|) && WfTree(nodes', |m.cost|) && Grows(nodes, nodes')
    requires BranchedNode(m, nodes, id)
    ensures BranchedNode(m, nodes', id)
  {
    PathStable(nodes, nodes', |m.cost|, id);
  }

  /** The open leaves are exactly the held nodes, each held once. */
  ghost predicate QueueInv(s: State) {
    forall id: nat :: Held(s.workers)[id] ==
                      if id in s.nodes && s.nodes[id].status == Pending then 1 else 0
  }

  /** Attainable objectives at or above `u` are already accounted for. */
  ghost predicate Bars(m: Mip, t: Tolerances, s: State, u: Ext) {
    forall v: real :: OnGrid(m.grid, v) && Le(u, Fin(v)) ==> Beyond(m, t, s, v)
  }

  /** The leaf bounds of a worker with a current node, being solved or paused, stand for that node. */
  ghost predicate BoxInv(m: Mip, nodes: Nodes, k: Worker)
    requires ValidMip(m) && WfTree(nodes, |m.cost|)
  {
    && WellSized(k.box, |m.cost|)
    && (k.phase.Idle? <==> k.current.None?)
    && (k.current.Some? ==>
          k.current.value in nodes && Stands(k.box, WalkOf(m, nodes, k.current.value), FeasibleSet(m)))
    && (k.phase.Solving? && !k.phase.propagated ==>
          forall p :: Feasible(m, p) ==> !In(p, WalkOf(m, nodes, k.current.value)))
  }

  /** Every open child of `p` is above the upper bound, so it will be pruned when it is taken up. */
  ghost predicate Doomed(nodes: Nodes, p: nat, ub: Ext) {
    forall id :: OpenChild(nodes, p, id) ==> Lt(ub, nodes[id].lb)
  }

  /** The entries on top of a stack that are children of `p`. */
  function Lead(nodes: Nodes, plunge: seq<nat>, p: nat): seq<nat> {
    if plunge != [] && plunge[0] in nodes && nodes[plunge[0]].parent == p
    then [plunge[0]] + Lead(nodes, plunge[1..], p)
    else []
  }

  /** The open children of `p` lie on top of the stack. */
  ghost predicate OnTop(nodes: Nodes, plunge: seq<nat>, p: nat) {
    forall id :: OpenChild(nodes, p, id) ==> id in Lead(nodes, plunge, p)
  }

  /** What the last solved node is good for. Between nodes its bounds stand in the leaf problem and its
      open children come next, or they are doomed; with a current node, that node is one of its
      children, or they are doomed. A paused node that is pruned leaves the leaf bounds of a node other
      than the last solved one, and only the second alternative. */
  ghost predicate LastInv(m: Mip, nodes: Nodes, ub: Ext, k: Worker)
    requires ValidMip(m) && WfTree(nodes, |m.cost|)
  {
    k.lastSolved.Some? ==>
      var p := k.lastSolved.value;
      && p in nodes && nodes[p].status != Pending
      && (k.current.None? ==>
            || Doomed(nodes, p, ub)
            || (Stands(k.box, WalkOf(m, nodes, p), FeasibleSet(m)) && OnTop(nodes, k.plunge, p)))
      && (k.current.Some? ==>
            Doomed(nodes, p, ub) || (k.current.value in nodes && nodes[k.current.value].parent == p))
  }

  /** Local upper bounds never exceed the shared one, which a resumed worker has just been given. */
  ghost predicate UbInv(s: State) {
    forall w :: 0 <= w < |s.workers| ==>
      Le(s.workers[w].localUb, s.best.ub) && (s.workers[w].phase.Resumed? ==> s.workers[w].localUb == s.best.ub)
  }

  ghost predicate BarInv(m: Mip, t: Tolerances, s: State) {
    forall w :: 0 <= w < |s.workers| ==>
      && Bars(m, t, s, s.workers[w].localUb)
      && (s.workers[w].phase.Solving? ==> Bars(m, t, s, s.workers[w].phase.cutoff))
  }

  ghost predicate BestInv(m: Mip, t: Tolerances, b: Best)
    requires ValidMip(m)
  {
    if b.inc.Some? then TrueSolution(m, t, b.inc.value) && b.ub == Fin(b.inc.value.obj)
    else b.ub == PosInf
  }

  ghost predicate FoundInv(m: Mip, t: Tolerances, s: State)
    requires ValidMip(m)
  {
    && BestInv(m, t, s.best)
    && (forall w :: 0 <= w < |s.workers| ==> AllTrue(m, t, s.workers[w].found))
    && forall q :: 0 <= q < |s.queue| ==> TrueSolution(m, t, s.queue[q].sol)
  }

  ghost predicate NoNumerical(nodes: Nodes) {
    forall id :: id in nodes ==> nodes[id].status != Numerical
  }

  ghost predicate NumericalInv(s: State) {
    NoNumerical(s.nodes) ==>
      s.numerical == PosInf && forall w :: 0 <= w < |s.workers| ==> s.workers[w].ceiling == PosInf
  }

  /** Tree, queues and leaf bounds. */
  ghost predicate ShapeInv(m: Mip, s: State)
    requires ValidMip(m)
  {
    && TreeInv(m, s) && QueueInv(s) && |s.workers| > 0 && UbInv(s)
    && (forall w :: 0 <= w < |s.workers| ==> BoxInv(m, s.nodes, s.workers[w]))
    && (forall w :: 0 <= w < |s.workers| ==> LastInv(m, s.nodes, s.best.ub, s.workers[w]))
  }

  /** Bounds, solutions and coverage. */
  ghost predicate ValueInv(m: Mip, t: Tolerances, s: State)
    requires ValidMip(m) && WfTree(s.nodes, |m.cost|)
  {
    BarInv(m, t, s) && FoundInv(m, t, s) && NumericalInv(s) && CoverInv(m, t, s)
  }

  ghost predicate Inv(m: Mip, t: Tolerances, s: State)
    requires ValidMip(m)
  {
    ShapeInv(m, s) && ValueInv(m, t, s)
  }

  ghost predicate Setting(m: Mip, t: Tolerances) {
    ValidMip(m) && ValidTolerances(t) && GridContract(m)
  }

  // ------------------------------------------------------------------ tree edits

  /** Existing nodes keep their parent and branch. */
  ghost predicate Grows(nodes: Nodes, nodes': Nodes) {
    forall id :: id in nodes ==>
      id in nodes' && nodes'[id].parent == nodes[id].parent && nodes'[id].branch == nodes[id].branch
  }

  lemma {:induction false} PathStable(nodes: Nodes, nodes': Nodes, n: nat, id: nat)
    requires WfTree(nodes, n) && WfTree(nodes', n) && Grows(nodes, nodes') && id in nodes
    ensures Path(nodes', n, id) == Path(nodes, n, id)
  {
    if id != 0 {
      PathStable(nodes, nodes', n, nodes[id].parent);
    }
  }

  lemma WalkStable(m: Mip, nodes: Nodes, nodes': Nodes)
    requires ValidMip(m) && WfTree(nodes, |m.cost|) && WfTree(nodes', |m.cost|) && Grows(nodes, nodes')
    ensures forall id :: id in nodes ==>
              id in nodes' && WalkOf(m, nodes', id) == WalkOf(m, nodes, id)
  {
    forall id | id in nodes ensures id in nodes' && WalkOf(m, nodes', id) == WalkOf(m, nodes, id) {
      PathStable(nodes, nodes', |m.cost|, id);
    }
  }

  lemma BoxInvStable(m: Mip, nodes: Nodes, nodes': Nodes, k: Worker)
    requires ValidMip(m) && WfTree(nodes, |m.cost|) && WfTree(nodes', |m.cost|) && Grows(nodes, nodes')
    requires BoxInv(m, nodes, k)
    ensures BoxInv(m, nodes', k)
  {
    WalkStable(m, nodes, nodes');
  }

  /** `nodes'` opens no new child below a node that is not a leaf of `nodes`. */
  ghost predicate NoNewChildren(nodes: Nodes, nodes': Nodes) {
    forall p, id :: p in nodes && nodes[p].status != Pending && OpenChild(nodes', p, id) ==>
      OpenChild(nodes, p, id) && nodes'[id].lb == nodes[id].lb
  }

  lemma {:induction false} LeadGrows(nodes: Nodes, nodes': Nodes, plunge: seq<nat>, p: nat)
    requires Grows(nodes, nodes')
    ensures forall id :: id in Lead(nodes, plunge, p) ==> id in Lead(nodes', plunge, p)
  {
    if plunge != [] { LeadGrows(nodes, nodes', plunge[1..], p); }
  }

  /** Edits elsewhere in the tree leave a worker's claim about its last solved node standing. */
  lemma LastInvStable(m: Mip, nodes: Nodes, nodes': Nodes, ub: Ext, k: Worker)
    requires ValidMip(m) && WfTree(nodes, |m.cost|) && WfTree(nodes', |m.cost|) && Grows(nodes, nodes')
    requires NoNewChildren(nodes, nodes') && LastInv(m, nodes, ub, k)
    requires forall id :: id in nodes && nodes[id].status != Pending ==> nodes'[id].status != Pending
    ensures LastInv(m, nodes', ub, k)
  {
    WalkStable(m, nodes, nodes');
    if k.lastSolved.Some? {
      var p := k.lastSolved.value;
      LeadGrows(nodes, nodes', k.plunge, p);
      hide Stands, WalkOf, Lead;
      assert Doomed(nodes, p, ub) ==> Doomed(nodes', p, ub);
      assert OnTop(nodes, k.plunge, p) ==> OnTop(nodes', k.plunge, p);
    }
  }

  /** Closing or branching `id` leaves every other open leaf covering what it covered. */
  lemma OpenStable(m: Mip, nodes: Nodes, nodes': Nodes, id: nat, p: Point)
    requires ValidMip(m) && WfTree(nodes, |m.cost|) && WfTree(nodes', |m.cost|) && |p| == |m.cost|
    requires Grows(nodes, nodes') && forall j :: j in nodes && j != id ==> nodes'[j] == nodes[j]
    requires Open(m, nodes, p)
    ensures Open(m, nodes', p) || OpenAt(m, nodes, id, p)
  {
    WalkStable(m, nodes, nodes');
    var j :| OpenAt(m, nodes, j, p);
    if j != id {
      assert OpenAt(m, nodes', j, p);
    }
  }

  // ------------------------------------------------------------------ held nodes

  lemma {:induction false} HeldUpdate(ws: seq<Worker>, w: nat, k: Worker)
    requires w < |ws|
    ensures HeldOne(ws[w]) <= Held(ws)
    ensures Held(ws[w := k]) == Held(ws) - HeldOne(ws[w]) + HeldOne(k)
  {
    hide HeldOne;
    if w == 0 {
      assert ws[0 := k][1..] == ws[1..];
    } else {
      HeldUpdate(ws[1..], w - 1, k);
      assert ws[w := k][1..] == ws[1..][w - 1 := k];
      assert ws[w] == ws[1..][w - 1];
    }
  }

  lemma {:induction false} HeldSame(ws: seq<Worker>, ws': seq<Worker>)
    requires |ws| == |ws'| && forall i :: 0 <= i < |ws| ==> HeldOne(ws[i]) == HeldOne(ws'[i])
    ensures Held(ws) == Held(ws')
  {
    if ws != [] { HeldSame(ws[1..], ws'[1..]); }
  }

  lemma DequeueHolds(k: Worker, top: nat)
    requires HasWork(k) && (k.current.None? && k.plunge == [] ==> top < |k.backlog|)
    ensures HeldOne(Dequeue(k, top)) == HeldOne(k) && Dequeue(k, top).current.Some?
  {
    if k.current.None? {
      if k.plunge != [] {
        assert k.plunge == [k.plunge[0]] + k.plunge[1..];
      } else {
        RemoveHolds(k.backlog, top);
      }
    }
  }

  lemma RemoveHolds(s: seq<nat>, i: nat)
    requires i < |s|
    ensures multiset(RemoveAt(s, i)) + multiset{s[i]} == multiset(s)
  {
    assert s == s[..i] + [s[i]] + s[i + 1..];
  }

  lemma EnqueueChildrenHolds(k: Worker, down: nat, up: nat, dir: Direction)
    ensures HeldOne(EnqueueChildren(k, down, up, dir)) == HeldOne(k) + multiset{down, up}
  {
    RetireHolds(k);
    var pair := if dir == Up then [up, down] else [down, up];
    assert multiset(pair) == multiset{down, up};
  }

  lemma RetireHolds(k: Worker)
    ensures HeldOne(Retire(k)) == HeldOne(k)
  {
    if k.plunge != [] {
      assert k.plunge == k.plunge[..|k.plunge| - 1] + [k.plunge[|k.plunge| - 1]];
    }
  }

  // ------------------------------------------------------------------ bounds

  /** Nothing accounted for is forgotten when solutions are only added and the bound only falls. */
  lemma BeyondGrows(m: Mip, t: Tolerances, s: State, s': State)
    requires Le(s'.best.ub, s.best.ub) && |s'.workers| == |s.workers|
    requires forall w :: 0 <= w < |s.workers| ==> s.workers[w].found <= s'.workers[w].found
    ensures forall v: real :: Beyond(m, t, s, v) ==> Beyond(m, t, s', v)
  {
    forall v: real | Beyond(m, t, s, v) ensures Beyond(m, t, s', v) {
      if !Le(Shift(s.best.ub, -Slack(m.grid, t)), Fin(v)) {
        var w, i :| 0 <= w < |s.workers| && 0 <= i < |s.workers[w].found| && s.workers[w].found[i].obj <= v;
        assert s'.workers[w].found[i] == s.workers[w].found[i];
      }
    }
  }

  lemma SlackNonneg(g: Grid, t: Tolerances)
    requires ValidTolerances(t)
    ensures Slack(g, t) >= 0.0
  {
  }

  /** The global upper bound itself bars everything at or above it. */
  lemma UpperBars(m: Mip, t: Tolerances, s: State)
    requires ValidTolerances(t)
    ensures Bars(m, t, s, s.best.ub)
  {
    SlackNonneg(m.grid, t);
  }
}
