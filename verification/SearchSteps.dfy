/** Every step of the search preserves the invariant. */
module SearchSteps {
  import opened Extended
  import opened Lattice
  import opened BoundWalk
  import opened SearchModel
  import opened SearchInvariant

  // ------------------------------------------------------------------ closing a leaf

  /** `s'` differs from `s` by closing the open leaf `id` held by worker `w`, which becomes `k`. */
  ghost predicate Closes(s: State, s': State, w: nat, k: Worker, id: nat) {
    && w < |s.workers| && id in s.nodes && s.nodes[id].status == Pending && id in s'.nodes
    && s'.nodes == s.nodes[id := s'.nodes[id]] && s'.nodes[id].status != Pending
    && s'.nodes[id].parent == s.nodes[id].parent && s'.nodes[id].branch == s.nodes[id].branch
    && s' == s.(nodes := s'.nodes, workers := s.workers[w := k])
    && HeldOne(k) + multiset{id} == HeldOne(s.workers[w])
  }

  lemma CloseTree(m: Mip, s: State, s': State, w: nat, k: Worker, id: nat)
    requires ValidMip(m) && TreeInv(m, s) && Closes(s, s', w, k, id)
    ensures TreeInv(m, s') && Grows(s.nodes, s'.nodes)
  {
    hide AllBranched, HeldOne, Kinship;
    CloseWf(s.nodes, s'.nodes, id, |m.cost|);
    AllBranchedStable(m, s.nodes, s'.nodes);
    CloseKin(s.nodes, s'.nodes, id, |m.cost|);
  }

  /** Closing a leaf opens no child anywhere. */
  lemma CloseKin(nodes: Nodes, nodes': Nodes, id: nat, n: nat)
    requires WfTree(nodes, n) && Kinship(nodes) && id in nodes && id in nodes' && nodes' == nodes[id := nodes'[id]]
    requires nodes'[id].parent == nodes[id].parent && nodes'[id].status != Pending
    ensures Kinship(nodes') && NoNewChildren(nodes, nodes')
    ensures forall j :: j in nodes && nodes[j].status != Pending ==> nodes'[j].status != Pending
    ensures nodes[id].status == Pending ==> forall j :: !OpenChild(nodes', id, j)
  {
    forall p, j | OpenChild(nodes', p, j) ensures OpenChild(nodes, p, j) && nodes'[j] == nodes[j] { }
    forall j | j in nodes' && j != 0 && nodes'[j].parent in nodes' ensures nodes'[nodes'[j].parent].status != Pending {
      assert nodes'[j].parent == nodes[j].parent;
    }
  }

  lemma CloseWf(nodes: Nodes, nodes': Nodes, id: nat, n: nat)
    requires WfTree(nodes, n) && id in nodes && id in nodes' && nodes' == nodes[id := nodes'[id]]
    requires nodes'[id].parent == nodes[id].parent && nodes'[id].branch == nodes[id].branch
    ensures nodes'.Keys == nodes.Keys && WfTree(nodes', n) && Grows(nodes, nodes')
  {
  }

  lemma AllBranchedStable(m: Mip, nodes: Nodes, nodes': Nodes)
    requires ValidMip(m) && WfTree(nodes, |m.cost|) && WfTree(nodes', |m.cost|) && Grows(nodes, nodes')
    requires nodes'.Keys == nodes.Keys && AllBranched(m, nodes)
    ensures AllBranched(m, nodes')
  {
    hide BranchedNode;
    forall j | j in nodes' ensures BranchedNode(m, nodes', j) {
      assert BranchedNode(m, nodes, j);
      BranchedStable(m, nodes, nodes', j);
    }
  }

  lemma CloseQueue(s: State, s': State, w: nat, k: Worker, id: nat)
    requires QueueInv(s) && Closes(s, s', w, k, id)
    ensures QueueInv(s')
  {
    hide Held, HeldOne;
    HeldUpdate(s.workers, w, k);
    assert Held(s'.workers) == Held(s.workers) - multiset{id};
    forall j: nat
      ensures Held(s'.workers)[j] == if j in s'.nodes && s'.nodes[j].status == Pending then 1 else 0
    {
      assert Held(s.workers)[j] == if j in s.nodes && s.nodes[j].status == Pending then 1 else 0;
    }
  }

  lemma CoverPoint(m: Mip, t: Tolerances, s: State, s': State, id: nat, p: Point)
    requires ValidMip(m) && WfTree(s.nodes, |m.cost|) && WfTree(s'.nodes, |m.cost|) && |p| == |m.cost|
    requires Grows(s.nodes, s'.nodes) && forall j :: j in s.nodes && j != id ==> s'.nodes[j] == s.nodes[j]
    requires Covered(m, t, s, p)
    requires OpenAt(m, s.nodes, id, p) ==> Covered(m, t, s', p)
    requires AboveNumerical(s, Obj(m, p)) ==> AboveNumerical(s', Obj(m, p))
    requires Beyond(m, t, s, Obj(m, p)) ==> Beyond(m, t, s', Obj(m, p))
    ensures Covered(m, t, s', p)
  {
    if Open(m, s.nodes, p) {
      OpenStable(m, s.nodes, s'.nodes, id, p);
    }
  }

  /** Solutions are only added, ceilings only fall, the shared bounds stay. */
  ghost predicate Accumulates(s: State, s': State) {
    && s'.best == s.best && s'.numerical == s.numerical && |s'.workers| == |s.workers|
    && forall w :: 0 <= w < |s.workers| ==>
         s.workers[w].found <= s'.workers[w].found && Le(s'.workers[w].ceiling, s.workers[w].ceiling)
  }

  lemma NumericalGrows(s: State, s': State, v: real)
    requires AboveNumerical(s, v) && |s'.workers| == |s.workers| && Le(s'.numerical, s.numerical)
    requires forall w :: 0 <= w < |s.workers| ==> Le(s'.workers[w].ceiling, s.workers[w].ceiling)
    ensures AboveNumerical(s', v)
  {
    if !Le(s.numerical, Fin(v)) {
      var w :| 0 <= w < |s.workers| && Le(s.workers[w].ceiling, Fin(v));
      assert Le(s'.workers[w].ceiling, Fin(v));
    }
  }

  lemma CoverKept(m: Mip, t: Tolerances, s: State, s': State, id: nat)
    requires ValidMip(m) && WfTree(s.nodes, |m.cost|) && WfTree(s'.nodes, |m.cost|)
    requires Grows(s.nodes, s'.nodes) && forall j :: j in s.nodes && j != id ==> s'.nodes[j] == s.nodes[j]
    requires CoverInv(m, t, s) && Accumulates(s, s')
    requires forall p :: Feasible(m, p) && OpenAt(m, s.nodes, id, p) ==> Covered(m, t, s', p)
    ensures CoverInv(m, t, s')
  {
    BeyondGrows(m, t, s, s');
    forall p | Feasible(m, p) ensures Covered(m, t, s', p) {
      if AboveNumerical(s, Obj(m, p)) {
        NumericalGrows(s, s', Obj(m, p));
      }
      CoverPoint(m, t, s, s', id, p);
    }
  }

  /** Bars survive added solutions. */
  lemma BarsSurvive(m: Mip, t: Tolerances, s: State, s': State, u: Ext)
    requires Bars(m, t, s, u)
    requires forall v: real :: Beyond(m, t, s, v) ==> Beyond(m, t, s', v)
    ensures Bars(m, t, s', u)
  {
  }

  lemma BarsKept(m: Mip, t: Tolerances, s: State, s': State, w: nat)
    requires BarInv(m, t, s) && Accumulates(s, s') && w < |s.workers|
    requires forall j :: 0 <= j < |s.workers| && j != w ==>
               s'.workers[j].localUb == s.workers[j].localUb && s'.workers[j].phase == s.workers[j].phase
    requires Bars(m, t, s', s'.workers[w].localUb)
    requires s'.workers[w].phase.Solving? ==> Bars(m, t, s', s'.workers[w].phase.cutoff)
    ensures BarInv(m, t, s')
  {
    BeyondGrows(m, t, s, s');
    forall j | 0 <= j < |s.workers| && j != w
      ensures Bars(m, t, s', s'.workers[j].localUb)
      ensures s'.workers[j].phase.Solving? ==> Bars(m, t, s', s'.workers[j].phase.cutoff)
    {
      BarsSurvive(m, t, s, s', s.workers[j].localUb);
      if s.workers[j].phase.Solving? { BarsSurvive(m, t, s, s', s.workers[j].phase.cutoff); }
    }
  }

  lemma BoxesKept(m: Mip, s: State, s': State, w: nat)
    requires ValidMip(m) && WfTree(s.nodes, |m.cost|) && WfTree(s'.nodes, |m.cost|)
    requires Grows(s.nodes, s'.nodes) && w < |s.workers| == |s'.workers|
    requires forall j :: 0 <= j < |s.workers| ==> BoxInv(m, s.nodes, s.workers[j])
    requires BoxInv(m, s'.nodes, s'.workers[w])
    requires forall j :: 0 <= j < |s.workers| && j != w ==> s'.workers[j] == s.workers[j]
    ensures forall j :: 0 <= j < |s'.workers| ==> BoxInv(m, s'.nodes, s'.workers[j])
  {
    forall j | 0 <= j < |s.workers| && j != w ensures BoxInv(m, s'.nodes, s'.workers[j]) {
      BoxInvStable(m, s.nodes, s'.nodes, s.workers[j]);
    }
  }

  lemma CloseNumerical(s: State, s': State, w: nat, k: Worker, id: nat)
    requires NumericalInv(s) && Closes(s, s', w, k, id)
    requires s'.nodes[id].status == Numerical || k.ceiling == s.workers[w].ceiling
    ensures NumericalInv(s')
  {
    if NoNumerical(s'.nodes) {
      forall j | j in s.nodes ensures s.nodes[j].status != Numerical {
        assert j in s'.nodes;
      }
    }
  }

  lemma CloseShape(m: Mip, s: State, s': State, w: nat, k: Worker, id: nat)
    requires ValidMip(m) && ShapeInv(m, s) && Closes(s, s', w, k, id) && BoxInv(m, s.nodes, k)
    requires k.phase.Idle? && Le(k.localUb, s.best.ub)
    requires WfTree(s'.nodes, |m.cost|) && LastInv(m, s'.nodes, s.best.ub, k)
    ensures ShapeInv(m, s') && Grows(s.nodes, s'.nodes)
  {
    hide QueueInv, BoxInv, LastInv, HeldOne, AllBranched, Kinship, UbInv, Grows;
    CloseTree(m, s, s', w, k, id);
    CloseQueue(s, s', w, k, id);
    CloseBoxes(m, s, s', w, k, id);
    CloseLasts(m, s, s', w, k, id);
    CloseUb(s, s', w, k);
  }

  lemma CloseUb(s: State, s': State, w: nat, k: Worker)
    requires UbInv(s) && w < |s.workers| && s'.workers == s.workers[w := k] && s'.best == s.best
    requires !k.phase.Resumed? && Le(k.localUb, s.best.ub)
    ensures UbInv(s')
  {
  }

  lemma CloseBoxes(m: Mip, s: State, s': State, w: nat, k: Worker, id: nat)
    requires ValidMip(m) && WfTree(s.nodes, |m.cost|) && Closes(s, s', w, k, id) && BoxInv(m, s.nodes, k)
    requires forall j :: 0 <= j < |s.workers| ==> BoxInv(m, s.nodes, s.workers[j])
    requires WfTree(s'.nodes, |m.cost|) && Grows(s.nodes, s'.nodes)
    ensures forall j :: 0 <= j < |s'.workers| ==> BoxInv(m, s'.nodes, s'.workers[j])
  {
    hide BoxInv, HeldOne, Grows, WfTree;
    BoxInvStable(m, s.nodes, s'.nodes, k);
    BoxesKept(m, s, s', w);
  }

  lemma CloseLasts(m: Mip, s: State, s': State, w: nat, k: Worker, id: nat)
    requires ValidMip(m) && TreeInv(m, s) && Closes(s, s', w, k, id)
    requires forall j :: 0 <= j < |s.workers| ==> LastInv(m, s.nodes, s.best.ub, s.workers[j])
    requires WfTree(s'.nodes, |m.cost|) && Grows(s.nodes, s'.nodes) && LastInv(m, s'.nodes, s.best.ub, k)
    ensures forall j :: 0 <= j < |s'.workers| ==> LastInv(m, s'.nodes, s'.best.ub, s'.workers[j])
  {
    CloseKin(s.nodes, s'.nodes, id, |m.cost|);
    hide LastInv, HeldOne, Grows, WfTree, Kinship, AllBranched;
    LastsKept(m, s, s', w);
  }

  lemma LastsKept(m: Mip, s: State, s': State, w: nat)
    requires ValidMip(m) && WfTree(s.nodes, |m.cost|) && WfTree(s'.nodes, |m.cost|) && Grows(s.nodes, s'.nodes)
    requires NoNewChildren(s.nodes, s'.nodes) && w < |s.workers| == |s'.workers| && s'.best == s.best
    requires forall id :: id in s.nodes && s.nodes[id].status != Pending ==> s'.nodes[id].status != Pending
    requires forall j :: 0 <= j < |s.workers| ==> LastInv(m, s.nodes, s.best.ub, s.workers[j])
    requires LastInv(m, s'.nodes, s'.best.ub, s'.workers[w])
    requires forall j :: 0 <= j < |s.workers| && j != w ==> s'.workers[j] == s.workers[j]
    ensures forall j :: 0 <= j < |s'.workers| ==> LastInv(m, s'.nodes, s'.best.ub, s'.workers[j])
  {
    hide LastInv;
    forall j | 0 <= j < |s.workers| && j != w ensures LastInv(m, s'.nodes, s'.best.ub, s'.workers[j]) {
      LastInvStable(m, s.nodes, s'.nodes, s.best.ub, s.workers[j]);
    }
  }

  /** What closing `id` must guarantee about bounds: no found solution is lost, a moved ceiling
      belongs to a numerical node, and the points the leaf covered are accounted for. */
  ghost predicate SafeClose(m: Mip, t: Tolerances, s: State, s': State, w: nat, k: Worker, id: nat)
    requires ValidMip(m) && WfTree(s.nodes, |m.cost|)
  {
    && Closes(s, s', w, k, id) && k.phase.Idle?
    && s.workers[w].found <= k.found && AllTrue(m, t, k.found)
    && Le(k.ceiling, s.workers[w].ceiling)
    && (s'.nodes[id].status == Numerical || k.ceiling == s.workers[w].ceiling)
    && Bars(m, t, s', k.localUb)
    && forall p :: Feasible(m, p) && OpenAt(m, s.nodes, id, p) ==>
         AboveNumerical(s', Obj(m, p)) || Beyond(m, t, s', Obj(m, p))
  }

  lemma CloseValues(m: Mip, t: Tolerances, s: State, s': State, w: nat, k: Worker, id: nat)
    requires ValidMip(m) && WfTree(s.nodes, |m.cost|) && WfTree(s'.nodes, |m.cost|)
    requires Grows(s.nodes, s'.nodes) && ValueInv(m, t, s) && SafeClose(m, t, s, s', w, k, id)
    ensures ValueInv(m, t, s')
  {
    AccumulatesHere(s, s', w);
    CoverKept(m, t, s, s', id);
    BarsKept(m, t, s, s', w);
    CloseNumerical(s, s', w, k, id);
  }

  /** Closing an open leaf is safe once the points it alone covered are accounted for. */
  lemma CloseKeeps(m: Mip, t: Tolerances, s: State, s': State, w: nat, k: Worker, id: nat)
    requires ValidMip(m) && Inv(m, t, s) && SafeClose(m, t, s, s', w, k, id) && BoxInv(m, s.nodes, k)
    requires Le(k.localUb, s.best.ub) && WfTree(s'.nodes, |m.cost|) && LastInv(m, s'.nodes, s.best.ub, k)
    ensures Inv(m, t, s')
  {
    CloseShape(m, s, s', w, k, id);
    CloseValues(m, t, s, s', w, k, id);
  }

  lemma AccumulatesHere(s: State, s': State, w: nat)
    requires w < |s.workers| == |s'.workers| && s'.best == s.best && s'.numerical == s.numerical
    requires s'.workers == s.workers[w := s'.workers[w]]
    requires s.workers[w].found <= s'.workers[w].found && Le(s'.workers[w].ceiling, s.workers[w].ceiling)
    ensures Accumulates(s, s')
  {
  }

  lemma {:induction false} HeldPending(s: State, w: nat, id: nat)
    requires QueueInv(s) && w < |s.workers| && id in HeldOne(s.workers[w])
    ensures id in s.nodes && s.nodes[id].status == Pending
  {
    HeldUpdate(s.workers, w, s.workers[w]);
    assert Held(s.workers)[id] >= HeldOne(s.workers[w])[id] > 0;
  }

  // ------------------------------------------------------------------ start

  lemma StartPrunes(m: Mip, t: Tolerances, s: State, w: nat, top: nat, a: Strengthened, s': State)
    requires Setting(m, t) && Inv(m, t, s) && Step(m, t, s, Starting(w, top, a), s')
    requires Lt(s.workers[w].localUb, s.nodes[Dequeue(s.workers[w], top).current.value].lb)
    ensures Inv(m, t, s')
  {
    var k := Dequeue(s.workers[w], top);
    var id, k' := k.current.value, k.(current := None, phase := Idle);
    PruneCloses(s, w, top, s', k', id);
    PruneSafe(m, t, s, s', w, k', id);
    CloseWf(s.nodes, s'.nodes, id, |m.cost|);
    PruneLast(m, s, s', w, top, id, k');
    CloseKeeps(m, t, s, s', w, k', id);
  }

  /** Taking a node off the stack: what is open below the last solved node stays on top. */
  lemma PopOnTop(nodes: Nodes, plunge: seq<nat>, p: nat, id: nat)
    requires plunge != [] && plunge[0] in nodes && OnTop(nodes, plunge, p)
    ensures nodes[plunge[0]].parent == p ==> forall j :: OpenChild(nodes, p, j) && j != plunge[0] ==> j in Lead(nodes, plunge[1..], p)
    ensures nodes[plunge[0]].parent != p ==> forall j :: !OpenChild(nodes, p, j)
  {
  }

  /** What an idle worker with a fresh last solved node dequeues: if it is not a child of that node, no
      child of it is open. */
  lemma DequeueFresh(nodes: Nodes, k: Worker, top: nat, p: nat)
    requires HasWork(k) && k.current.None? && (k.plunge == [] ==> top < |k.backlog|) && OnTop(nodes, k.plunge, p)
    requires Dequeue(k, top).current.value in nodes
    ensures var id, r := Dequeue(k, top).current.value, Dequeue(k, top);
            && (nodes[id].parent != p ==> forall j :: !OpenChild(nodes, p, j))
            && forall j :: OpenChild(nodes, p, j) && j != id ==> j in Lead(nodes, r.plunge, p)
  {
    if k.plunge != [] { PopOnTop(nodes, k.plunge, p, k.plunge[0]); }
  }

  /** A pruned node leaves the claim about the last solved node: an idle worker's bounds have not
      moved; a paused node that is pruned shares its bound with its open sibling. */
  lemma PruneLast(m: Mip, s: State, s': State, w: nat, top: nat, id: nat, k: Worker)
    requires ValidMip(m) && ShapeInv(m, s) && CanStart(s, w, top) && id in s.nodes && id != 0 && s.nodes[id].status == Pending
    requires Dequeue(s.workers[w], top).current == Some(id) && Lt(s.workers[w].localUb, s.nodes[id].lb)
    requires k == Dequeue(s.workers[w], top).(current := None, phase := Idle)
    requires s'.nodes == s.nodes[id := s.nodes[id].(status := Fathomed)]
    requires WfTree(s'.nodes, |m.cost|) && Grows(s.nodes, s'.nodes)
    ensures LastInv(m, s'.nodes, s.best.ub, k)
  {
    var o := s.workers[w];
    assert LastInv(m, s.nodes, s.best.ub, o) && BoxInv(m, s.nodes, o);
    if o.lastSolved.Some? {
      var p := o.lastSolved.value;
      CloseKin(s.nodes, s'.nodes, id, |m.cost|);
      WalkStable(m, s.nodes, s'.nodes);
      if o.current.Some? {
        PausedDoomed(s, o, p, id);
        PruneDoomed(s.nodes, s'.nodes, p, id, s.best.ub);
      } else if Doomed(s.nodes, p, s.best.ub) {
        PruneDoomed(s.nodes, s'.nodes, p, id, s.best.ub);
      } else {
        DequeueFresh(s.nodes, o, top, p);
        PruneOnTop(s.nodes, s'.nodes, k.plunge, p, id);
      }
    }
  }

  lemma PausedDoomed(s: State, o: Worker, p: nat, id: nat)
    requires Kinship(s.nodes) && o.current == Some(id) && id in s.nodes && id != 0 && s.nodes[id].status == Pending
    requires Doomed(s.nodes, p, s.best.ub) || s.nodes[id].parent == p
    requires Lt(s.best.ub, s.nodes[id].lb)
    ensures Doomed(s.nodes, p, s.best.ub)
  {
    if s.nodes[id].parent == p { assert OpenChild(s.nodes, p, id); }
  }

  lemma PruneDoomed(nodes: Nodes, nodes': Nodes, p: nat, id: nat, ub: Ext)
    requires Doomed(nodes, p, ub) && id in nodes && nodes' == nodes[id := nodes[id].(status := Fathomed)]
    ensures Doomed(nodes', p, ub)
  {
    forall j | OpenChild(nodes', p, j) ensures Lt(ub, nodes'[j].lb) { assert OpenChild(nodes, p, j); }
  }

  lemma PruneOnTop(nodes: Nodes, nodes': Nodes, plunge: seq<nat>, p: nat, id: nat)
    requires id in nodes && nodes' == nodes[id := nodes[id].(status := Fathomed)] && Grows(nodes, nodes')
    requires forall j :: OpenChild(nodes, p, j) && j != id ==> j in Lead(nodes, plunge, p)
    ensures OnTop(nodes', plunge, p)
  {
    LeadGrows(nodes, nodes', plunge, p);
    forall j | OpenChild(nodes', p, j) ensures j in Lead(nodes', plunge, p) { assert OpenChild(nodes, p, j); }
  }

  lemma PruneCloses(s: State, w: nat, top: nat, s': State, k: Worker, id: nat)
    requires QueueInv(s) && CanStart(s, w, top) && id in s.nodes
    requires Dequeue(s.workers[w], top).current == Some(id)
    requires k == Dequeue(s.workers[w], top).(current := None, phase := Idle)
    requires s' == s.(nodes := s.nodes[id := s.nodes[id].(status := Fathomed)], workers := s.workers[w := k])
    ensures Closes(s, s', w, k, id)
  {
    DequeueHolds(s.workers[w], top);
    assert HeldOne(k) + multiset{id} == HeldOne(s.workers[w]);
    HeldPending(s, w, id);
  }

  lemma PruneSafe(m: Mip, t: Tolerances, s: State, s': State, w: nat, k: Worker, id: nat)
    requires Setting(m, t) && WfTree(s.nodes, |m.cost|) && ValueInv(m, t, s) && Closes(s, s', w, k, id)
    requires k.localUb == s.workers[w].localUb && k.found == s.workers[w].found
    requires k.ceiling == s.workers[w].ceiling && k.phase.Idle? && Lt(k.localUb, s.nodes[id].lb)
    ensures SafeClose(m, t, s, s', w, k, id)
  {
    BeyondGrows(m, t, s, s');
    BarsSurvive(m, t, s, s', k.localUb);
    forall p | Feasible(m, p) && OpenAt(m, s.nodes, id, p)
      ensures Beyond(m, t, s', Obj(m, p))
    {
      assert OnGrid(m.grid, Obj(m, p));
      assert Le(k.localUb, Fin(Obj(m, p)));
    }
  }

  /** The bounds handed to strengthening stand for the node's walked box. */
  lemma BaseStands(m: Mip, s: State, w: nat, top: nat, id: nat)
    requires ValidMip(m) && ShapeInv(m, s) && CanStart(s, w, top) && id in s.nodes && id != 0
    requires s.nodes[id].status == Pending && Dequeue(s.workers[w], top).current == Some(id)
    requires !Lt(s.workers[w].localUb, s.nodes[id].lb)
    ensures WellSized(s.workers[w].box, |m.cost|)
    ensures Stands(BaseBox(m, s, w, id), WalkOf(m, s.nodes, id), FeasibleSet(m))
  {
    var k, parent := s.workers[w], s.nodes[id].parent;
    assert BoxInv(m, s.nodes, k) && LastInv(m, s.nodes, s.best.ub, k);
    ChildOfWalk(m, s.nodes, id);
    if k.lastSolved == Some(parent) {
      if k.current.Some? {
        ReapplyStands(k.box, WalkOf(m, s.nodes, parent), s.nodes[id].branch, FeasibleSet(m));
      } else {
        NotDoomed(s, w, parent, id);
        IncrementalStands(k.box, WalkOf(m, s.nodes, parent), s.nodes[id].branch, FeasibleSet(m));
      }
    } else {
      WithinItself(WalkOf(m, s.nodes, id));
    }
  }

  lemma ChildOfWalk(m: Mip, nodes: Nodes, id: nat)
    requires ValidMip(m) && WfTree(nodes, |m.cost|) && AllBranched(m, nodes) && id in nodes && id != 0
    ensures WellSized(WalkOf(m, nodes, nodes[id].parent), |m.cost|) && nodes[id].branch.v < |m.cost|
    ensures WalkOf(m, nodes, id) == Apply(WalkOf(m, nodes, nodes[id].parent), nodes[id].branch)
    ensures BranchedFrom(WalkOf(m, nodes, nodes[id].parent), nodes[id].branch)
  {
    var path := Path(nodes, |m.cost|, id);
    assert path[1..] == Path(nodes, |m.cost|, nodes[id].parent);
    assert BranchedNode(m, nodes, id);
  }

  /** A child that passes the bound test is not doomed. */
  lemma NotDoomed(s: State, w: nat, p: nat, id: nat)
    requires UbInv(s) && w < |s.workers| && OpenChild(s.nodes, p, id) && !Lt(s.workers[w].localUb, s.nodes[id].lb)
    ensures !Doomed(s.nodes, p, s.best.ub)
  {
  }

  /** Applying a node's own branch again to bounds that stand for it keeps them standing: at worst the
      strengthened interval of the branching variable is widened back. */
  lemma ReapplyStands(box: Box, walked: Box, br: Branch, q: Point -> bool)
    requires WellSized(walked, |walked.lo|) && br.v < |walked.lo| && Stands(box, Apply(walked, br), q)
    ensures WellSized(box, |walked.lo|) && Stands(Apply(box, br), Apply(walked, br), q)
  {
    var target := Apply(walked, br);
    forall p | q(p) && In(p, target) ensures In(p, Apply(box, br)) {
      assert In(p, box);
      forall j | 0 <= j < |p| ensures Between(Apply(box, br).lo[j], p[j], Apply(box, br).hi[j]) {
        assert Between(box.lo[j], p[j], box.hi[j]) && Between(target.lo[j], p[j], target.hi[j]);
      }
    }
    forall j | 0 <= j < |walked.lo| ensures Le(target.lo[j], Apply(box, br).lo[j]) && Le(Apply(box, br).hi[j], target.hi[j]) {
      assert Le(target.lo[j], box.lo[j]) && Le(box.hi[j], target.hi[j]);
    }
  }

  lemma WithinItself(b: Box)
    requires WellSized(b, |b.lo|)
    ensures Within(b, b)
  {
    forall j | 0 <= j < |b.lo| ensures Le(b.lo[j], b.lo[j]) && Le(b.hi[j], b.hi[j]) {}
  }

  lemma StandsTransitive(a: Box, b: Box, c: Box, q: Point -> bool)
    requires Stands(a, b, q) && Stands(b, c, q)
    ensures Stands(a, c, q)
  {
    forall j | 0 <= j < |c.lo| ensures Le(c.lo[j], a.lo[j]) && Le(a.hi[j], c.hi[j]) {
      assert Le(c.lo[j], b.lo[j]) && Le(b.lo[j], a.lo[j]);
      assert Le(a.hi[j], b.hi[j]) && Le(b.hi[j], c.hi[j]);
    }
  }

  lemma StartBox(m: Mip, t: Tolerances, s: State, w: nat, top: nat, a: Strengthened, s': State)
    requires Setting(m, t) && Inv(m, t, s) && Step(m, t, s, Starting(w, top, a), s')
    requires !Lt(s.workers[w].localUb, s.nodes[Dequeue(s.workers[w], top).current.value].lb)
    ensures w < |s'.workers| && BoxInv(m, s'.nodes, s'.workers[w])
  {
    var id := Dequeue(s.workers[w], top).current.value;
    DequeueHolds(s.workers[w], top);
    HeldPending(s, w, id);
    BaseStands(m, s, w, top, id);
    var base, walked := BaseBox(m, s, w, id), WalkOf(m, s.nodes, id);
    StandsTransitive(a.box, base, walked, FeasibleSet(m));
    if !a.feasible {
      forall p | Feasible(m, p) ensures !In(p, walked) {
        assert FeasibleSet(m)(p);
      }
    }
  }

  lemma StartSolves(m: Mip, t: Tolerances, s: State, w: nat, top: nat, a: Strengthened, s': State)
    requires Setting(m, t) && Inv(m, t, s) && Step(m, t, s, Starting(w, top, a), s')
    requires !Lt(s.workers[w].localUb, s.nodes[Dequeue(s.workers[w], top).current.value].lb)
    ensures Inv(m, t, s')
  {
    StartBox(m, t, s, w, top, a, s');
    StartLast(m, t, s, w, top, a, s');
    StartHolds(t, s, w, top, a, s');
    WorkerOnlyShape(m, s, s', w);
    WorkerOnlyValues(m, t, s, s', w);
  }

  /** The started node is a child of the last solved one, or the children of that one are doomed. */
  lemma StartLast(m: Mip, t: Tolerances, s: State, w: nat, top: nat, a: Strengthened, s': State)
    requires Setting(m, t) && Inv(m, t, s) && Step(m, t, s, Starting(w, top, a), s')
    requires !Lt(s.workers[w].localUb, s.nodes[Dequeue(s.workers[w], top).current.value].lb)
    ensures w < |s'.workers| && LastInv(m, s'.nodes, s'.best.ub, s'.workers[w])
  {
    var o := s.workers[w];
    assert LastInv(m, s.nodes, s.best.ub, o) && BoxInv(m, s.nodes, o);
    if o.lastSolved.Some? && o.current.None? && !Doomed(s.nodes, o.lastSolved.value, s.best.ub) {
      DequeueFresh(s.nodes, o, top, o.lastSolved.value);
    }
  }

  /** One worker changes its phase and leaf bounds, and nothing else that matters. */
  ghost predicate WorkerOnly(s: State, s': State, w: nat) {
    && w < |s.workers| == |s'.workers| && s' == s.(workers := s.workers[w := s'.workers[w]])
    && HeldOne(s'.workers[w]) == HeldOne(s.workers[w])
    && s'.workers[w].found == s.workers[w].found && s'.workers[w].ceiling == s.workers[w].ceiling
    && s'.workers[w].localUb == s.workers[w].localUb
    && (s'.workers[w].phase.Solving? ==> Le(s.workers[w].localUb, s'.workers[w].phase.cutoff))
  }

  lemma StartHolds(t: Tolerances, s: State, w: nat, top: nat, a: Strengthened, s': State)
    requires t.dual >= 0.0 && CanStart(s, w, top) && Dequeue(s.workers[w], top).current.value in s.nodes
    requires !Lt(s.workers[w].localUb, s.nodes[Dequeue(s.workers[w], top).current.value].lb)
    requires s' == Start(t, s, w, top, a)
    ensures WorkerOnly(s, s', w)
  {
    DequeueHolds(s.workers[w], top);
    ShiftUp(s.workers[w].localUb, t.dual);
  }

  lemma ShiftUp(u: Ext, d: real)
    requires d >= 0.0
    ensures Le(u, Shift(u, d))
  {
  }

  lemma WorkerOnlyShape(m: Mip, s: State, s': State, w: nat)
    requires ValidMip(m) && ShapeInv(m, s) && WorkerOnly(s, s', w) && BoxInv(m, s.nodes, s'.workers[w])
    requires !s'.workers[w].phase.Resumed? && LastInv(m, s.nodes, s.best.ub, s'.workers[w])
    ensures ShapeInv(m, s')
  {
    hide LastInv, BoxInv, HeldOne, WfTree;
    WorkerOnlyHeld(s, s', w);
    TreeSame(m, s, s');
    BoxesSame(m, s, s', w);
    hide TreeInv, QueueInv;
    forall j | 0 <= j < |s'.workers| ensures LastInv(m, s'.nodes, s'.best.ub, s'.workers[j]) {
      assert j != w ==> LastInv(m, s.nodes, s.best.ub, s.workers[j]);
    }
  }

  lemma BoxesSame(m: Mip, s: State, s': State, w: nat)
    requires ValidMip(m) && WfTree(s.nodes, |m.cost|) && WorkerOnly(s, s', w) && BoxInv(m, s.nodes, s'.workers[w])
    requires forall j :: 0 <= j < |s.workers| ==> BoxInv(m, s.nodes, s.workers[j])
    ensures forall j :: 0 <= j < |s'.workers| ==> BoxInv(m, s'.nodes, s'.workers[j])
  {
    hide BoxInv, HeldOne;
    forall j | 0 <= j < |s'.workers| ensures BoxInv(m, s'.nodes, s'.workers[j]) {
      assert j != w ==> BoxInv(m, s.nodes, s.workers[j]);
    }
  }

  lemma WorkerOnlyHeld(s: State, s': State, w: nat)
    requires WorkerOnly(s, s', w)
    ensures Held(s'.workers) == Held(s.workers)
  {
    HeldUpdate(s.workers, w, s'.workers[w]);
  }

  lemma TreeSame(m: Mip, s: State, s': State)
    requires ValidMip(m) && TreeInv(m, s) && QueueInv(s)
    requires s'.nodes == s.nodes && s'.counter == s.counter && Held(s'.workers) == Held(s.workers)
    ensures TreeInv(m, s') && QueueInv(s')
  {
  }

  lemma WorkerOnlyValues(m: Mip, t: Tolerances, s: State, s': State, w: nat)
    requires ValidMip(m) && WfTree(s.nodes, |m.cost|) && ValueInv(m, t, s) && WorkerOnly(s, s', w)
    ensures ValueInv(m, t, s')
  {
    AccumulatesHere(s, s', w);
    BeyondGrows(m, t, s, s');
    BarsSurvive(m, t, s, s', s.workers[w].localUb);
    if s'.workers[w].phase.Solving? {
      HigherBars(m, t, s', s.workers[w].localUb, s'.workers[w].phase.cutoff);
    }
    BarsKept(m, t, s, s', w);
    OpenUnchanged(m, t, s, s');
  }

  lemma OpenUnchanged(m: Mip, t: Tolerances, s: State, s': State)
    requires ValidMip(m) && WfTree(s.nodes, |m.cost|) && s'.nodes == s.nodes
    requires CoverInv(m, t, s) && Accumulates(s, s')
    ensures CoverInv(m, t, s')
  {
    BeyondGrows(m, t, s, s');
    forall p | Feasible(m, p) ensures Covered(m, t, s', p) {
      if AboveNumerical(s, Obj(m, p)) {
        NumericalGrows(s, s', Obj(m, p));
      }
    }
  }

  lemma HigherBars(m: Mip, t: Tolerances, s: State, u: Ext, u': Ext)
    requires Bars(m, t, s, u) && Le(u, u')
    ensures Bars(m, t, s, u')
  {
    forall v: real | OnGrid(m.grid, v) && Le(u', Fin(v)) ensures Beyond(m, t, s, v) {
      assert Le(u, Fin(v));
    }
  }

  lemma StartKeeps(m: Mip, t: Tolerances, s: State, w: nat, top: nat, a: Strengthened, s': State)
    requires Setting(m, t) && Inv(m, t, s) && Step(m, t, s, Starting(w, top, a), s')
    ensures Inv(m, t, s')
  {
    if Lt(s.workers[w].localUb, s.nodes[Dequeue(s.workers[w], top).current.value].lb) {
      StartPrunes(m, t, s, w, top, a, s');
    } else {
      StartSolves(m, t, s, w, top, a, s');
    }
  }
}
