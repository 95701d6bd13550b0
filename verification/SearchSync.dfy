/** The synchronisation callback preserves the invariant. */
module SearchSync {
  import opened Extended
  import opened Lattice
  import opened BoundWalk
  import opened SearchModel
  import opened SearchInvariant
  import opened SearchSteps

  // ------------------------------------------------------------------ merging solutions

  /** Attainable objectives at or above `obj` lie within the slack of the upper bound. */
  ghost predicate Settled(m: Mip, t: Tolerances, b: Best, obj: real) {
    forall v: real :: OnGrid(m.grid, v) && obj <= v ==> Le(Shift(b.ub, -Slack(m.grid, t)), Fin(v))
  }

  lemma SettledLower(m: Mip, t: Tolerances, b: Best, b': Best, obj: real)
    requires Settled(m, t, b, obj) && Le(b'.ub, b.ub)
    ensures Settled(m, t, b', obj)
  {
    forall v: real | OnGrid(m.grid, v) && obj <= v
      ensures Le(Shift(b'.ub, -Slack(m.grid, t)), Fin(v))
    {
      assert Le(Shift(b.ub, -Slack(m.grid, t)), Fin(v));
    }
  }

  /** Offering a solution keeps the incumbent and the bound in step, and settles the solution. */
  lemma OfferKeeps(m: Mip, t: Tolerances, b: Best, sol: Solution)
    requires ValidMip(m) && ValidTolerances(t) && BestInv(m, t, b) && TrueSolution(m, t, sol)
    ensures var r := Offer(m.grid, t, b, sol);
            BestInv(m, t, r) && Le(r.ub, b.ub) && Settled(m, t, r, sol.obj)
  {
    SlackNonneg(m.grid, t);
    var r := Offer(m.grid, t, b, sol);
    if b.inc.Some? && !Accepts(m.grid, t, Some(b.inc.value.obj), sol.obj) {
      forall v: real | OnGrid(m.grid, v) && sol.obj <= v
        ensures Le(Shift(r.ub, -Slack(m.grid, t)), Fin(v))
      {
        RejectionSound(m.grid, t, b.inc.value.obj, sol.obj, v);
      }
    }
  }

  lemma {:induction false} ReplayKeeps(m: Mip, t: Tolerances, b: Best, due: seq<Heuristic>)
    requires ValidMip(m) && ValidTolerances(t) && BestInv(m, t, b)
    requires forall i :: 0 <= i < |due| ==> TrueSolution(m, t, due[i].sol)
    ensures BestInv(m, t, Replay(m.grid, t, b, due)) && Le(Replay(m.grid, t, b, due).ub, b.ub)
  {
    if due != [] {
      var i := |due| - 1;
      ReplayKeeps(m, t, b, due[..i]);
      OfferKeeps(m, t, Replay(m.grid, t, b, due[..i]), due[i].sol);
      LeTransitive(Replay(m.grid, t, b, due).ub, Replay(m.grid, t, b, due[..i]).ub, b.ub);
    }
  }

  lemma LeTransitive(a: Ext, b: Ext, c: Ext)
    requires Le(a, b) && Le(b, c)
    ensures Le(a, c)
  {
  }

  lemma {:induction false} MergeKeeps(m: Mip, t: Tolerances, b: Best, sols: seq<Solution>)
    requires ValidMip(m) && ValidTolerances(t) && BestInv(m, t, b) && AllTrue(m, t, sols)
    ensures var r := Merge(m.grid, t, b, sols);
            && BestInv(m, t, r) && Le(r.ub, b.ub)
            && forall i :: 0 <= i < |sols| ==> Settled(m, t, r, sols[i].obj)
  {
    if sols != [] {
      var n := |sols| - 1;
      var c, sol := Merge(m.grid, t, b, sols[..n]), sols[n];
      MergeKeeps(m, t, b, sols[..n]);
      MergeStep(m, t, c, sol);
      var r := Merge(m.grid, t, b, sols);
      LeTransitive(r.ub, c.ub, b.ub);
      forall i | 0 <= i < |sols| ensures Settled(m, t, r, sols[i].obj) {
        if i < n {
          assert Settled(m, t, c, sols[..n][i].obj);
          SettledLower(m, t, c, r, sols[i].obj);
        }
      }
    }
  }

  lemma MergeStep(m: Mip, t: Tolerances, c: Best, sol: Solution)
    requires ValidMip(m) && ValidTolerances(t) && BestInv(m, t, c) && TrueSolution(m, t, sol)
    ensures var r := if Lt(Fin(sol.obj), c.ub) then Offer(m.grid, t, c, sol) else c;
            BestInv(m, t, r) && Le(r.ub, c.ub) && Settled(m, t, r, sol.obj)
  {
    SlackNonneg(m.grid, t);
    if Lt(Fin(sol.obj), c.ub) {
      OfferKeeps(m, t, c, sol);
    } else {
      forall v: real | OnGrid(m.grid, v) && sol.obj <= v
        ensures Le(Shift(c.ub, -Slack(m.grid, t)), Fin(v))
      {
        LeTransitive(c.ub, Fin(sol.obj), Fin(v));
      }
    }
  }

  lemma {:induction false} DueTrue(m: Mip, t: Tolerances, queue: seq<Heuristic>, horizon: real)
    requires ValidMip(m) && forall q :: 0 <= q < |queue| ==> TrueSolution(m, t, queue[q].sol)
    ensures forall h :: h in Due(queue, horizon) ==> TrueSolution(m, t, h.sol)
    ensures forall q :: 0 <= q < |Future(queue, horizon)| ==> TrueSolution(m, t, Future(queue, horizon)[q].sol)
  {
    if queue != [] {
      DueTrue(m, t, queue[1..], horizon);
      var f := Future(queue, horizon);
      forall q | 0 <= q < |f| ensures TrueSolution(m, t, f[q].sol) {
        if queue[0].stamp < horizon || q > 0 {
          var g := Future(queue[1..], horizon);
          assert f[q] == g[if queue[0].stamp < horizon then q else q - 1];
        }
      }
    }
  }

  lemma {:induction false} FoundListed(ws: seq<Worker>, w: nat, i: nat)
    requires w < |ws| && i < |ws[w].found|
    ensures ws[w].found[i] in AllFound(ws)
  {
    if w > 0 {
      FoundListed(ws[1..], w - 1, i);
    }
  }

  lemma {:induction false} AllFoundTrue(m: Mip, t: Tolerances, ws: seq<Worker>)
    requires ValidMip(m) && forall w :: 0 <= w < |ws| ==> AllTrue(m, t, ws[w].found)
    ensures forall sol :: sol in AllFound(ws) ==> TrueSolution(m, t, sol)
  {
    if ws != [] {
      AllFoundTrue(m, t, ws[1..]);
      assert AllTrue(m, t, ws[0].found);
    }
  }

  /** The merged bound: in step with the incumbent, no higher than before, settling every solution
      the workers had queued. */
  lemma MergedKeeps(m: Mip, t: Tolerances, s: State, i: SyncInput)
    requires ValidMip(m) && ValidTolerances(t) && FoundInv(m, t, s) && CanSync(m, t, s, i)
    ensures var r := Merged(m.grid, t, s.best, i);
            && BestInv(m, t, r) && Le(r.ub, s.best.ub)
            && forall sol :: sol in AllFound(s.workers) ==> Settled(m, t, r, sol.obj)
  {
    DueTrue(m, t, s.queue, s.horizon);
    AllFoundTrue(m, t, s.workers);
    InSameMultiset(i.due, Due(s.queue, s.horizon));
    InSameMultiset(i.found, AllFound(s.workers));
    ReplayKeeps(m, t, s.best, i.due);
    var a := Replay(m.grid, t, s.best, i.due);
    MergeKeeps(m, t, a, i.found);
    var b := Merge(m.grid, t, a, i.found);
    MergeKeeps(m, t, b, i.dives);
    var r := Merge(m.grid, t, b, i.dives);
    LeTransitive(b.ub, a.ub, s.best.ub);
    LeTransitive(r.ub, b.ub, s.best.ub);
    forall sol | sol in AllFound(s.workers) ensures Settled(m, t, r, sol.obj) {
      var k :| 0 <= k < |i.found| && i.found[k] == sol;
      SettledLower(m, t, b, r, sol.obj);
    }
  }

  lemma InSameMultiset<T>(a: seq<T>, b: seq<T>)
    requires multiset(a) == multiset(b)
    ensures forall x :: x in a <==> x in b
  {
    forall x ensures x in a <==> x in b {
      assert x in multiset(a) <==> x in a;
      assert x in multiset(b) <==> x in b;
    }
  }

  // ------------------------------------------------------------------ redistributing nodes

  /** Everything but the queues of the two workers agrees. */
  predicate SameButQueues(a: Worker, b: Worker) {
    b == a.(plunge := b.plunge, backlog := b.backlog)
  }

  lemma {:induction false} DealHolds(ws: seq<Worker>, order: seq<nat>)
    requires |ws| > 0
    ensures Held(Deal(ws, order)) == Held(ws) + multiset(order)
  {
    if order != [] {
      var i := |order| - 1;
      DealHolds(ws, order[..i]);
      DealOne(Deal(ws, order[..i]), i % |ws|, order[i]);
      assert order == order[..i] + [order[i]];
    }
  }

  lemma DealOne(d: seq<Worker>, w: nat, id: nat)
    requires w < |d|
    ensures Held(d[w := EnqueueNode(d[w], id)]) == Held(d) + multiset{id}
  {
    HeldUpdate(d, w, EnqueueNode(d[w], id));
    EnqueueHolds(d[w], id);
    var all, one := Held(d), HeldOne(d[w]);
    assert all - one + (one + multiset{id}) == all + multiset{id};
  }

  lemma {:induction false} DealQueuesOnly(ws: seq<Worker>, order: seq<nat>)
    requires |ws| > 0
    ensures forall i :: 0 <= i < |ws| ==> SameButQueues(ws[i], Deal(ws, order)[i])
  {
    if order != [] {
      DealQueuesOnly(ws, order[..|order| - 1]);
    }
  }

  lemma EnqueueHolds(k: Worker, id: nat)
    ensures HeldOne(EnqueueNode(k, id)) == HeldOne(k) + multiset{id}
  {
  }

  lemma {:induction false} DropHolds(ws: seq<Worker>)
    ensures Held(DropBacklogs(ws)) + multiset(AllBacklogs(ws)) == Held(ws)
  {
    if ws != [] {
      DropHolds(ws[1..]);
      assert DropBacklogs(ws)[1..] == DropBacklogs(ws[1..]);
      assert HeldOne(DropBacklogs(ws)[0]) + multiset(ws[0].backlog) == HeldOne(ws[0]);
    }
  }

  /** Rebalancing permutes the held nodes and changes nothing else about the workers. */
  lemma BalanceHolds(ws: seq<Worker>, order: seq<nat>)
    requires |ws| > 0 && multiset(order) == multiset(AllBacklogs(ws))
    ensures Held(Balance(ws, order)) == Held(ws)
    ensures forall i :: 0 <= i < |ws| ==> SameButQueues(ws[i], Balance(ws, order)[i])
  {
    if NeedsBalance(ws) {
      DropHolds(ws);
      DealHolds(DropBacklogs(ws), order);
      DealQueuesOnly(DropBacklogs(ws), order);
      var d := DropBacklogs(ws);
      forall i | 0 <= i < |ws| ensures SameButQueues(ws[i], Balance(ws, order)[i]) {
        assert SameButQueues(ws[i], d[i]) && SameButQueues(d[i], Deal(d, order)[i]);
      }
    }
  }

  // ------------------------------------------------------------------ the callback

  /** The worker after the callback: leaf bounds and ceiling kept, solutions cleared, the merged upper
      bound adopted, a paused worker released. */
  ghost predicate Refreshed(a: Worker, b: Worker, ub: Ext) {
    b == a.(plunge := b.plunge, backlog := b.backlog, found := [], localUb := ub, phase := Woken(a.phase))
  }

  ghost predicate SyncEffect(m: Mip, t: Tolerances, s: State, i: SyncInput, s': State)
    requires ValidMip(m)
  {
    && s'.nodes == s.nodes && s'.counter == s.counter && |s'.workers| == |s.workers|
    && s'.best == Merged(m.grid, t, s.best, i)
    && s'.numerical == Min(MinOf(Ceilings(s.workers)), s.numerical)
    && s'.queue == Future(s.queue, s.horizon)
    && Held(s'.workers) == Held(s.workers)
    && forall w :: 0 <= w < |s.workers| ==> Refreshed(s.workers[w], s'.workers[w], s'.best.ub)
  }

  lemma SyncHasEffect(m: Mip, t: Tolerances, s: State, i: SyncInput)
    requires ValidMip(m) && CanSync(m, t, s, i)
    ensures SyncEffect(m, t, s, i, Sync(m.grid, t, s, i))
  {
    var s' := Sync(m.grid, t, s, i);
    var b := Balance(s.workers, i.order);
    BalanceHolds(s.workers, i.order);
    assert s'.workers == Broadcast(b, s'.best.ub);
    HeldSame(b, s'.workers);
    forall w | 0 <= w < |s.workers| ensures Refreshed(s.workers[w], s'.workers[w], s'.best.ub) {
      assert SameButQueues(s.workers[w], b[w]);
    }
  }

  lemma SyncShape(m: Mip, t: Tolerances, s: State, i: SyncInput, s': State)
    requires ValidMip(m) && ShapeInv(m, s) && SyncEffect(m, t, s, i, s') && Le(s'.best.ub, s.best.ub)
    requires forall w :: 0 <= w < |s.workers| ==> AtBarrier(s.workers[w])
    ensures ShapeInv(m, s')
  {
    hide QueueInv, BoxInv, LastInv, AllBranched, Kinship, AtBarrier, Merged, Ceilings, HeldOne;
    TreeSame(m, s, s');
    forall w | 0 <= w < |s'.workers|
      ensures BoxInv(m, s'.nodes, s'.workers[w]) && LastInv(m, s'.nodes, s'.best.ub, s'.workers[w])
    {
      var a, b := s.workers[w], s'.workers[w];
      assert AtBarrier(a) && BoxInv(m, s.nodes, a) && LastInv(m, s.nodes, s.best.ub, a) && Refreshed(a, b, s'.best.ub);
      RefreshBox(m, s.nodes, a, b, s'.best.ub);
      RefreshLast(m, s.nodes, s.best.ub, s'.best.ub, a, b);
    }
    SyncUb(s, s');
  }

  lemma SyncUb(s: State, s': State)
    requires |s'.workers| == |s.workers|
    requires forall w :: 0 <= w < |s.workers| ==> Refreshed(s.workers[w], s'.workers[w], s'.best.ub)
    ensures UbInv(s')
  {
    forall w | 0 <= w < |s'.workers| ensures s'.workers[w].localUb == s'.best.ub {
      assert Refreshed(s.workers[w], s'.workers[w], s'.best.ub);
    }
  }

  lemma RefreshBox(m: Mip, nodes: Nodes, a: Worker, b: Worker, ub: Ext)
    requires ValidMip(m) && WfTree(nodes, |m.cost|) && BoxInv(m, nodes, a) && Refreshed(a, b, ub)
    ensures BoxInv(m, nodes, b)
  {
  }

  /** A worker between nodes meets the barrier only with an empty stack, so nothing is open below its
      last solved node unless it is doomed, and a lower upper bound dooms no fewer nodes. */
  lemma RefreshLast(m: Mip, nodes: Nodes, ub: Ext, ub': Ext, a: Worker, b: Worker)
    requires ValidMip(m) && WfTree(nodes, |m.cost|) && LastInv(m, nodes, ub, a) && Refreshed(a, b, ub') && Le(ub', ub)
    requires AtBarrier(a) && BoxInv(m, nodes, a)
    ensures LastInv(m, nodes, ub', b)
  {
    hide WalkOf, Stands;
    if a.lastSolved.Some? {
      var p := a.lastSolved.value;
      if a.current.None? && OnTop(nodes, a.plunge, p) { assert Lead(nodes, a.plunge, p) == []; }
      if Doomed(nodes, p, ub) { DoomedLower(nodes, p, ub, ub'); }
    }
  }

  lemma DoomedLower(nodes: Nodes, p: nat, ub: Ext, ub': Ext)
    requires Doomed(nodes, p, ub) && Le(ub', ub)
    ensures Doomed(nodes, p, ub')
  {
    forall id | OpenChild(nodes, p, id) ensures Lt(ub', nodes[id].lb) { assert Lt(ub, nodes[id].lb); }
  }

  /** Nothing accounted for is forgotten by the merge. */
  lemma SyncBeyond(m: Mip, t: Tolerances, s: State, s': State, v: real)
    requires Le(s'.best.ub, s.best.ub)
    requires forall sol :: sol in AllFound(s.workers) ==> Settled(m, t, s'.best, sol.obj)
    requires OnGrid(m.grid, v) && Beyond(m, t, s, v)
    ensures Beyond(m, t, s', v)
  {
    if !Le(Shift(s.best.ub, -Slack(m.grid, t)), Fin(v)) {
      var w, i :| 0 <= w < |s.workers| && 0 <= i < |s.workers[w].found| && s.workers[w].found[i].obj <= v;
      FoundListed(s.workers, w, i);
      assert Settled(m, t, s'.best, s.workers[w].found[i].obj);
    }
  }

  lemma SyncNumerical(s: State, s': State, v: real)
    requires AboveNumerical(s, v) && s'.numerical == Min(MinOf(Ceilings(s.workers)), s.numerical)
    ensures AboveNumerical(s', v)
  {
    if !Le(s.numerical, Fin(v)) {
      var w :| 0 <= w < |s.workers| && Le(s.workers[w].ceiling, Fin(v));
      assert Ceilings(s.workers)[w] == s.workers[w].ceiling;
      LeTransitive(MinOf(Ceilings(s.workers)), s.workers[w].ceiling, Fin(v));
    }
  }

  lemma SyncCover(m: Mip, t: Tolerances, s: State, i: SyncInput, s': State)
    requires Setting(m, t) && WfTree(s.nodes, |m.cost|) && CoverInv(m, t, s) && SyncEffect(m, t, s, i, s')
    requires Le(s'.best.ub, s.best.ub)
    requires forall sol :: sol in AllFound(s.workers) ==> Settled(m, t, s'.best, sol.obj)
    ensures CoverInv(m, t, s')
  {
    forall p | Feasible(m, p) ensures Covered(m, t, s', p) {
      assert Covered(m, t, s, p);
      if AboveNumerical(s, Obj(m, p)) { SyncNumerical(s, s', Obj(m, p)); }
      if Beyond(m, t, s, Obj(m, p)) { SyncBeyond(m, t, s, s', Obj(m, p)); }
    }
  }

  lemma SyncBars(m: Mip, t: Tolerances, s: State, i: SyncInput, s': State)
    requires ValidMip(m) && ValidTolerances(t) && BarInv(m, t, s) && SyncEffect(m, t, s, i, s')
    requires Le(s'.best.ub, s.best.ub)
    requires forall sol :: sol in AllFound(s.workers) ==> Settled(m, t, s'.best, sol.obj)
    ensures BarInv(m, t, s')
  {
    UpperBars(m, t, s');
    forall w | 0 <= w < |s'.workers|
      ensures Bars(m, t, s', s'.workers[w].localUb)
      ensures s'.workers[w].phase.Solving? ==> Bars(m, t, s', s'.workers[w].phase.cutoff)
    {
      assert Refreshed(s.workers[w], s'.workers[w], s'.best.ub);
      if s'.workers[w].phase.Solving? {
        var c := s'.workers[w].phase.cutoff;
        assert Bars(m, t, s, c);
        forall v: real | OnGrid(m.grid, v) && Le(c, Fin(v)) ensures Beyond(m, t, s', v) {
          SyncBeyond(m, t, s, s', v);
        }
      }
    }
  }

  lemma SyncNumericalInv(m: Mip, t: Tolerances, s: State, i: SyncInput, s': State)
    requires ValidMip(m) && NumericalInv(s) && SyncEffect(m, t, s, i, s')
    ensures NumericalInv(s')
  {
    if NoNumerical(s.nodes) {
      forall e | e in Ceilings(s.workers) ensures e == PosInf {}
      forall w | 0 <= w < |s'.workers| ensures s'.workers[w].ceiling == PosInf {
        assert Refreshed(s.workers[w], s'.workers[w], s'.best.ub);
      }
    }
  }

  lemma SyncFound(m: Mip, t: Tolerances, s: State, i: SyncInput, s': State)
    requires ValidMip(m) && FoundInv(m, t, s) && SyncEffect(m, t, s, i, s') && BestInv(m, t, s'.best)
    ensures FoundInv(m, t, s')
  {
    DueTrue(m, t, s.queue, s.horizon);
    forall w | 0 <= w < |s'.workers| ensures AllTrue(m, t, s'.workers[w].found) {
      assert Refreshed(s.workers[w], s'.workers[w], s'.best.ub);
    }
  }

  lemma SyncKeeps(m: Mip, t: Tolerances, s: State, i: SyncInput)
    requires Setting(m, t) && Inv(m, t, s) && CanSync(m, t, s, i)
    ensures Inv(m, t, Sync(m.grid, t, s, i))
  {
    var s' := Sync(m.grid, t, s, i);
    SyncHasEffect(m, t, s, i);
    MergedKeeps(m, t, s, i);
    SyncShape(m, t, s, i, s');
    SyncValues(m, t, s, i, s');
  }

  lemma SyncValues(m: Mip, t: Tolerances, s: State, i: SyncInput, s': State)
    requires Setting(m, t) && WfTree(s.nodes, |m.cost|) && ValueInv(m, t, s) && SyncEffect(m, t, s, i, s')
    requires BestInv(m, t, s'.best) && Le(s'.best.ub, s.best.ub)
    requires forall sol :: sol in AllFound(s.workers) ==> Settled(m, t, s'.best, sol.obj)
    ensures ValueInv(m, t, s')
  {
    SyncBars(m, t, s, i, s');
    SyncFound(m, t, s, i, s');
    SyncNumericalInv(m, t, s, i, s');
    SyncCover(m, t, s, i, s');
  }
}
