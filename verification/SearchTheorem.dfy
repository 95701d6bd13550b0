/** Safety of whole runs of the deterministic search. */
module SearchTheorem {
  import opened Extended
  import opened Reals
  import opened Lattice
  import opened BoundWalk
  import opened SearchModel
  import opened SearchInvariant
  import opened SearchSteps
  import opened SearchFinish
  import opened SearchSync

  // ------------------------------------------------------------------ every reachable state

  lemma InitPath(m: Mip, s: State, id: nat)
    requires ValidMip(m) && WfTree(s.nodes, |m.cost|) && id in s.nodes && id != 0 && s.nodes[id].parent == 0
    requires BranchedFrom(m.box, s.nodes[id].branch)
    ensures WalkOf(m, s.nodes, id) == Apply(m.box, s.nodes[id].branch) && BranchedNode(m, s.nodes, id)
  {
    var n := |m.cost|;
    assert Path(s.nodes, n, 0) == [];
    var path := Path(s.nodes, n, id);
    assert path == [s.nodes[id].branch];
    assert path[1..] == [];
    assert Walk(m.box, path[1..]) == m.box;
  }

  lemma InitBranches(m: Mip, s: State)
    requires ValidMip(m) && s.nodes.Keys == {0, 1, 2} && s.nodes[1].parent == 0 && s.nodes[2].parent == 0
    requires RootSplit(m, s)
    ensures WfTree(s.nodes, |m.cost|)
    ensures BranchedFrom(m.box, s.nodes[1].branch) && BranchedFrom(m.box, s.nodes[2].branch)
  {
    var v: nat, x: real :|
      v < |m.cost| && m.integral[v] && Between(m.box.lo[v], x, m.box.hi[v]) &&
      s.nodes[1].branch == ChildBranch(m.box, v, x, Down) &&
      s.nodes[2].branch == ChildBranch(m.box, v, x, Up);
    WithinItself(m.box);
  }

  lemma InitTree(m: Mip, s: State)
    requires ValidMip(m) && s.nodes.Keys == {0, 1, 2} && s.nodes[1].parent == 0 && s.nodes[2].parent == 0
    requires RootSplit(m, s) && s.nodes[0].status != Pending && s.counter == 2
    ensures TreeInv(m, s)
    ensures forall id :: id in {1, 2} ==> WalkOf(m, s.nodes, id) == Apply(m.box, s.nodes[id].branch)
  {
    InitBranches(m, s);
    InitPath(m, s, 1);
    InitPath(m, s, 2);
    assert BranchedNode(m, s.nodes, 0);
  }

  lemma InitShape(m: Mip, t: Tolerances, s: State)
    requires ValidMip(m) && Init(m, t, s)
    ensures ShapeInv(m, s)
    ensures forall id :: id in {1, 2} ==> WalkOf(m, s.nodes, id) == Apply(m.box, s.nodes[id].branch)
  {
    assert 1 in {1, 2} && 2 in {1, 2};
    InitTree(m, s);
    InitQueue(m, t, s);
  }

  lemma InitQueue(m: Mip, t: Tolerances, s: State)
    requires ValidMip(m) && Init(m, t, s)
    ensures QueueInv(s)
  {
    assert 1 in {1, 2} && 2 in {1, 2};
    forall id: nat
      ensures Held(s.workers)[id] == if id in s.nodes && s.nodes[id].status == Pending then 1 else 0
    {
      assert multiset{1, 2}[id] == if id == 1 || id == 2 then 1 else 0;
    }
  }

  lemma InitCover(m: Mip, t: Tolerances, s: State)
    requires ValidMip(m) && Init(m, t, s) && ShapeInv(m, s)
    requires forall id :: id in {1, 2} ==> WalkOf(m, s.nodes, id) == Apply(m.box, s.nodes[id].branch)
    ensures CoverInv(m, t, s)
  {
    var v: nat, x: real :|
      v < |m.cost| && m.integral[v] && Between(m.box.lo[v], x, m.box.hi[v]) &&
      s.nodes[1].branch == ChildBranch(m.box, v, x, Down) &&
      s.nodes[2].branch == ChildBranch(m.box, v, x, Up);
    WithinItself(m.box);
    assert 1 in {1, 2} && 2 in {1, 2};
    forall p | Feasible(m, p) ensures Covered(m, t, s, p) {
      ChildrenCover(m.box, m.box, v, x, p);
      assert OpenAt(m, s.nodes, 1, p) || OpenAt(m, s.nodes, 2, p);
    }
  }

  lemma InitInv(m: Mip, t: Tolerances, s: State)
    requires Setting(m, t) && Init(m, t, s)
    ensures Inv(m, t, s)
  {
    InitShape(m, t, s);
    InitCover(m, t, s);
    UpperBars(m, t, s);
  }

  lemma ArriveKeeps(m: Mip, t: Tolerances, s: State, h: Heuristic)
    requires Setting(m, t) && Inv(m, t, s) && TrueSolution(m, t, h.sol)
    ensures Inv(m, t, s.(queue := s.queue + [h]))
  {
    var s' := s.(queue := s.queue + [h]);
    TreeSame(m, s, s');
    ArriveValues(m, t, s, s', h);
  }

  lemma ArriveValues(m: Mip, t: Tolerances, s: State, s': State, h: Heuristic)
    requires ValidMip(m) && WfTree(s.nodes, |m.cost|) && ValueInv(m, t, s) && TrueSolution(m, t, h.sol)
    requires s' == s.(queue := s.queue + [h])
    ensures ValueInv(m, t, s')
  {
    forall w | 0 <= w < |s.workers| ensures Le(s.workers[w].ceiling, s.workers[w].ceiling) {}
    BeyondGrows(m, t, s, s');
    OpenUnchanged(m, t, s, s');
    forall w | 0 <= w < |s'.workers|
      ensures Bars(m, t, s', s'.workers[w].localUb)
      ensures s'.workers[w].phase.Solving? ==> Bars(m, t, s', s'.workers[w].phase.cutoff)
    {
      BarsSurvive(m, t, s, s', s.workers[w].localUb);
      if s.workers[w].phase.Solving? { BarsSurvive(m, t, s, s', s.workers[w].phase.cutoff); }
    }
  }

  lemma StepKeeps(m: Mip, t: Tolerances, s: State, e: Event, s': State)
    requires Setting(m, t) && Inv(m, t, s) && Step(m, t, s, e, s')
    ensures Inv(m, t, s')
  {
    match e
    case Starting(w, top, a) => StartKeeps(m, t, s, w, top, a, s');
    case Finishing(w, lp, _) => FinishKeeps(m, t, s, w, lp);
    case Arriving(h) => ArriveKeeps(m, t, s, h);
    case Syncing(i) => SyncKeeps(m, t, s, i);
  }

  /** The invariant holds in every state of every run, whatever the interleaving. */
  lemma {:induction false} RunInv(m: Mip, t: Tolerances, ss: seq<State>, es: seq<Event>, k: nat)
    requires Setting(m, t) && Run(m, t, ss, es) && k < |ss|
    ensures Inv(m, t, ss[k])
    decreases k
  {
    hide Inv, Step, Init;
    if k == 0 {
      InitInv(m, t, ss[0]);
    } else {
      RunInv(m, t, ss, es, k - 1);
      RunStep(m, t, ss, es, k - 1);
      StepKeeps(m, t, ss[k - 1], es[k - 1], ss[k]);
    }
  }

  lemma RunStep(m: Mip, t: Tolerances, ss: seq<State>, es: seq<Event>, k: nat)
    requires ValidMip(m) && Run(m, t, ss, es) && k < |es|
    ensures Step(m, t, ss[k], es[k], ss[k + 1])
  {
  }

  // ------------------------------------------------------------------ held nodes

  lemma {:induction false} HeldListed(ws: seq<Worker>)
    ensures multiset(HeldList(ws)) == Held(ws)
  {
    if ws != [] {
      HeldListed(ws[1..]);
      var k := ws[0];
      var c := if k.current.Some? then [k.current.value] else [];
      assert HeldList(ws) == c + k.plunge + k.backlog + HeldList(ws[1..]);
      assert multiset(c + k.plunge + k.backlog) == HeldOne(k);
    }
  }

  /** At every moment of every run the open leaves of the tree are exactly the nodes held in the
      workers' current slot, plunge stack and backlog, each held once. */
  lemma OpenLeavesAreHeld(m: Mip, t: Tolerances, ss: seq<State>, es: seq<Event>, k: nat, id: nat)
    requires Setting(m, t) && Run(m, t, ss, es) && k < |ss|
    ensures multiset(HeldList(ss[k].workers))[id] ==
            if id in ss[k].nodes && ss[k].nodes[id].status == Pending then 1 else 0
  {
    RunInv(m, t, ss, es, k);
    HeldListed(ss[k].workers);
  }

  lemma HeldKnown(m: Mip, s: State)
    requires ValidMip(m) && ShapeInv(m, s)
    ensures forall id :: id in HeldList(s.workers) ==> id in s.nodes && s.nodes[id].status == Pending
  {
    HeldListed(s.workers);
    forall id | id in HeldList(s.workers) ensures id in s.nodes && s.nodes[id].status == Pending {
      assert id in multiset(HeldList(s.workers));
      assert Held(s.workers)[id] > 0;
    }
  }

  /** No step is lost to a dangling queue entry: what an idle worker dequeues is an open leaf of
      the tree other than the root, and its bounds are well formed. */
  lemma StartNeverStuck(m: Mip, t: Tolerances, ss: seq<State>, es: seq<Event>, k: nat, w: nat, top: nat)
    requires Setting(m, t) && Run(m, t, ss, es) && k < |ss| && CanStart(ss[k], w, top)
    ensures var id := Dequeue(ss[k].workers[w], top).current.value;
            && id in ss[k].nodes && id != 0 && ss[k].nodes[id].status == Pending
            && WfTree(ss[k].nodes, |m.cost|) && WellSized(ss[k].workers[w].box, |m.cost|)
  {
    RunInv(m, t, ss, es, k);
    var s := ss[k];
    DequeueHolds(s.workers[w], top);
    HeldPending(s, w, Dequeue(s.workers[w], top).current.value);
    assert BoxInv(m, s.nodes, s.workers[w]);
  }

  // ------------------------------------------------------------------ bounds and verdicts

  /** What a callback leaves: each feasible point sits in the box of a held node whose bound it
      respects, or is at or above the numerical bound, or cannot beat the upper bound by more than
      the slack. */
  ghost predicate Accounted(m: Mip, t: Tolerances, s: State, p: Point)
    requires ValidMip(m) && WfTree(s.nodes, |m.cost|) && |p| == |m.cost|
  {
    || (exists id :: id in HeldList(s.workers) && OpenAt(m, s.nodes, id, p))
    || Le(s.numerical, Fin(Obj(m, p)))
    || Le(Shift(s.best.ub, -Slack(m.grid, t)), Fin(Obj(m, p)))
  }

  lemma OpenIsHeld(m: Mip, s: State, p: Point)
    requires ValidMip(m) && ShapeInv(m, s) && |p| == |m.cost| && Open(m, s.nodes, p)
    ensures exists id :: id in HeldList(s.workers) && OpenAt(m, s.nodes, id, p)
  {
    var id :| OpenAt(m, s.nodes, id, p);
    HeldListed(s.workers);
    assert Held(s.workers)[id] == 1;
    assert id in multiset(HeldList(s.workers));
  }

  lemma SyncAccounts(m: Mip, t: Tolerances, s: State, i: SyncInput, p: Point)
    requires Setting(m, t) && Inv(m, t, s) && CanSync(m, t, s, i) && Feasible(m, p)
    ensures var s' := Sync(m.grid, t, s, i); WfTree(s'.nodes, |m.cost|) && Accounted(m, t, s', p)
  {
    var s' := Sync(m.grid, t, s, i);
    SyncKeeps(m, t, s, i);
    SyncHasEffect(m, t, s, i);
    hide Sync, CanSync, Feasible;
    CoveredAfterSync(m, t, s, i, s', p);
  }

  /** After a callback no solution is queued and no ceiling lies below the numerical bound. */
  lemma CoveredAfterSync(m: Mip, t: Tolerances, s: State, i: SyncInput, s': State, p: Point)
    requires ValidMip(m) && Inv(m, t, s') && SyncEffect(m, t, s, i, s') && Feasible(m, p)
    ensures Accounted(m, t, s', p)
  {
    assert Covered(m, t, s', p);
    hide BoxInv, LastInv, QueueInv, UbInv, BarInv, FoundInv, CoverInv, AllBranched, Kinship, Feasible, Merged, Open;
    if Open(m, s'.nodes, p) {
      OpenIsHeld(m, s', p);
    } else if AboveNumerical(s', Obj(m, p)) {
      CeilingsFolded(s, s', Obj(m, p));
    } else {
      assert forall w :: 0 <= w < |s'.workers| ==> Refreshed(s.workers[w], s'.workers[w], s'.best.ub);
    }
  }

  lemma CeilingsFolded(s: State, s': State, v: real)
    requires |s'.workers| == |s.workers| && s'.numerical == Min(MinOf(Ceilings(s.workers)), s.numerical)
    requires forall w :: 0 <= w < |s.workers| ==> Refreshed(s.workers[w], s'.workers[w], s'.best.ub)
    requires AboveNumerical(s', v)
    ensures Le(s'.numerical, Fin(v))
  {
    if !Le(s'.numerical, Fin(v)) {
      var w :| 0 <= w < |s'.workers| && Le(s'.workers[w].ceiling, Fin(v));
      assert Refreshed(s.workers[w], s'.workers[w], s'.best.ub);
      assert Ceilings(s.workers)[w] == s.workers[w].ceiling;
      LeTransitive(MinOf(Ceilings(s.workers)), s.workers[w].ceiling, Fin(v));
    }
  }

  /** Coverage: after every callback of every run, every feasible point is accounted for. */
  lemma EverySyncAccounts(m: Mip, t: Tolerances, ss: seq<State>, es: seq<Event>, k: nat, p: Point)
    requires Setting(m, t) && Run(m, t, ss, es) && k < |es| && es[k].Syncing? && Feasible(m, p)
    ensures WfTree(ss[k + 1].nodes, |m.cost|) && Accounted(m, t, ss[k + 1], p)
  {
    RunInv(m, t, ss, es, k);
    RunStep(m, t, ss, es, k);
    SyncAccounts(m, t, ss[k], es[k].input, p);
  }

  lemma AccountedAboveReported(m: Mip, t: Tolerances, s: State, p: Point)
    requires ValidMip(m) && WfTree(s.nodes, |m.cost|) && |p| == |m.cost| && Accounted(m, t, s, p) && HeldInTree(s)
    ensures Le(Min(ReportedBound(s), Shift(s.best.ub, -Slack(m.grid, t))), Fin(Obj(m, p)))
  {
    hide HeldList, Slack, WalkOf, Obj, WfTree;
    var ids := HeldList(s.workers);
    if exists id :: id in ids && OpenAt(m, s.nodes, id, p) {
      var id :| id in ids && OpenAt(m, s.nodes, id, p);
      ListedAbove(s.nodes, ids, id, Fin(Obj(m, p)));
    }
  }

  lemma ListedAbove(nodes: Nodes, ids: seq<nat>, id: nat, v: Ext)
    requires (forall i :: 0 <= i < |ids| ==> ids[i] in nodes) && id in ids && Le(nodes[id].lb, v)
    ensures Le(MinOf(HeldBounds(nodes, ids)), v)
  {
    var bounds := HeldBounds(nodes, ids);
    var j :| 0 <= j < |ids| && ids[j] == id;
    assert bounds[j] == nodes[id].lb;
    LeTransitive(MinOf(bounds), bounds[j], v);
  }

  /** The reported lower bound is valid: no feasible point lies below it, save by the slack below
      an upper bound already attained. */
  lemma ReportedBoundValid(m: Mip, t: Tolerances, ss: seq<State>, es: seq<Event>, k: nat, p: Point)
    requires Setting(m, t) && Run(m, t, ss, es) && k < |es| && es[k].Syncing? && Feasible(m, p)
    ensures HeldInTree(ss[k + 1])
    ensures Le(Min(ReportedBound(ss[k + 1]), Shift(ss[k + 1].best.ub, -Slack(m.grid, t))), Fin(Obj(m, p)))
  {
    RunInv(m, t, ss, es, k + 1);
    HeldKnown(m, ss[k + 1]);
    EverySyncAccounts(m, t, ss, es, k, p);
    AccountedAboveReported(m, t, ss[k + 1], p);
  }

  lemma {:induction false} ExhaustedHoldsNothing(ws: seq<Worker>)
    requires Exhausted(ws)
    ensures HeldList(ws) == []
  {
    if ws != [] {
      assert !HasWork(ws[0]);
      forall i | 0 <= i < |ws[1..]| ensures !HasWork(ws[1..][i]) {
        assert ws[1..][i] == ws[i + 1];
      }
      ExhaustedHoldsNothing(ws[1..]);
    }
  }

  /** The answer is right: either an incumbent no feasible point beats by more than the slack, or
      no feasible point at all. */
  ghost predicate RightAnswer(m: Mip, t: Tolerances, s: State)
    requires ValidMip(m)
  {
    match s.verdict
    case NoSolution => forall p :: !Feasible(m, p)
    case Optimal =>
      && s.best.inc.Some? && TrueSolution(m, t, s.best.inc.value)
      && forall p :: Feasible(m, p) ==> s.best.inc.value.obj - Slack(m.grid, t) <= Obj(m, p)
    case _ => true
  }

  /** An exhausted tree yields the right answer whenever the numerical bound does not undercut the
      upper bound by more than the slack. The callback itself never makes that comparison. */
  lemma ExhaustionRight(m: Mip, t: Tolerances, ss: seq<State>, es: seq<Event>, k: nat)
    requires Setting(m, t) && Run(m, t, ss, es) && k < |es| && es[k].Syncing?
    requires Exhausted(ss[k + 1].workers)
    requires Le(Shift(ss[k + 1].best.ub, -Slack(m.grid, t)), ss[k + 1].numerical)
    ensures ss[k + 1].verdict == NoSolution || ss[k + 1].verdict == Optimal
    ensures RightAnswer(m, t, ss[k + 1])
  {
    var s := ss[k + 1];
    RunInv(m, t, ss, es, k + 1);
    HeldKnown(m, s);
    VerdictJudged(m, t, ss, es, k);
    ExhaustedHoldsNothing(s.workers);
    var bar := Shift(s.best.ub, -Slack(m.grid, t));
    forall p | Feasible(m, p) ensures Le(bar, Fin(Obj(m, p))) {
      EverySyncAccounts(m, t, ss, es, k, p);
      if Le(s.numerical, Fin(Obj(m, p))) { LeTransitive(bar, s.numerical, Fin(Obj(m, p))); }
    }
  }

  lemma VerdictJudged(m: Mip, t: Tolerances, ss: seq<State>, es: seq<Event>, k: nat)
    requires Setting(m, t) && Run(m, t, ss, es) && k < |es| && es[k].Syncing?
    ensures HeldInTree(ss[k + 1])
    ensures ss[k + 1].verdict == Judge(ss[k + 1], es[k].input.gaps, es[k].input.overBudget)
  {
    RunInv(m, t, ss, es, k + 1);
    HeldKnown(m, ss[k + 1]);
    RunStep(m, t, ss, es, k);
    SyncJudged(m.grid, t, ss[k], es[k].input);
  }

  lemma SyncJudged(g: Grid, t: Tolerances, s: State, i: SyncInput)
    requires ValidGrid(g) && HeldInTree(Sync(g, t, s, i))
    ensures Sync(g, t, s, i).verdict == Judge(Sync(g, t, s, i), i.gaps, i.overBudget)
  {
    var r := AfterMerge(g, t, s, i);
    assert HeldInTree(r);
    JudgeReads(r, Judge(r, i.gaps, i.overBudget), i.gaps, i.overBudget);
  }

  lemma JudgeReads(r: State, v: Verdict, g: Gaps, overBudget: bool)
    requires HeldInTree(r)
    ensures HeldInTree(r.(verdict := v)) && Judge(r.(verdict := v), g, overBudget) == Judge(r, g, overBudget)
  {
    assert ReportedBound(r.(verdict := v)) == ReportedBound(r);
  }

  /** With no node ended NUMERICAL an exhausted tree means the incumbent is optimal within the
      slack, or the problem is infeasible. */
  lemma ExhaustionRightWithoutNumerical(m: Mip, t: Tolerances, ss: seq<State>, es: seq<Event>, k: nat)
    requires Setting(m, t) && Run(m, t, ss, es) && k < |es| && es[k].Syncing?
    requires Exhausted(ss[k + 1].workers) && NoNumerical(ss[k + 1].nodes)
    ensures ss[k + 1].verdict == NoSolution || ss[k + 1].verdict == Optimal
    ensures RightAnswer(m, t, ss[k + 1])
  {
    RunInv(m, t, ss, es, k + 1);
    ExhaustionRight(m, t, ss, es, k);
  }

  /** On an objective grid the answer is exact as soon as the incumbent's objective lies on it. */
  lemma ExactOnGrid(m: Mip, t: Tolerances, s: State, p: Point)
    requires Setting(m, t) && RightAnswer(m, t, s) && s.verdict == Optimal && Feasible(m, p)
    requires m.grid.Stepped? && OnGrid(m.grid, s.best.inc.value.obj) && t.primal < m.grid.step
    ensures s.best.inc.value.obj <= Obj(m, p)
  {
    SlackCloses(m.grid, t, s.best.inc.value.obj, Obj(m, p));
  }

  /** Stopping on a closed gap: no feasible point beats the incumbent by more than the slack or the
      gap the user allowed, measured in the user's own objective. */
  lemma GapVerdictRight(m: Mip, t: Tolerances, ss: seq<State>, es: seq<Event>, k: nat, p: Point)
    requires Setting(m, t) && Run(m, t, ss, es) && k < |es| && es[k].Syncing? && Feasible(m, p)
    requires !Exhausted(ss[k + 1].workers) && ss[k + 1].verdict == Optimal
    ensures ss[k + 1].best.inc.Some? && TrueSolution(m, t, ss[k + 1].best.inc.value)
    ensures WithinGap(es[k].input.gaps, Slack(m.grid, t), ss[k + 1].best.inc.value.obj, Obj(m, p))
  {
    VerdictJudged(m, t, ss, es, k);
    ReportedBoundValid(m, t, ss, es, k, p);
    RunInv(m, t, ss, es, k + 1);
    var s := ss[k + 1];
    assert FoundInv(m, t, s);
    assert s.best.inc.Some? && s.best.ub == Fin(s.best.inc.value.obj);
    GapPoint(m, t, ss[k + 1], es[k].input.gaps, Obj(m, p));
  }

  lemma GapPoint(m: Mip, t: Tolerances, s: State, g: Gaps, v: real)
    requires ValidTolerances(t) && HeldInTree(s) && GapClosed(g, s.best.ub, ReportedBound(s))
    requires Le(Min(ReportedBound(s), Shift(s.best.ub, -Slack(m.grid, t))), Fin(v))
    ensures WithinGap(g, Slack(m.grid, t), s.best.ub.v, v)
  {
    var ub, lb := s.best.ub.v, ReportedBound(s).v;
    SlackNonneg(m.grid, t);
    if lb <= v < ub {
      GapShrinks(g, ub, lb, v);
    }
  }

  /** `v` beats `ub` by no more than the slack or one of the allowed gaps. */
  predicate WithinGap(g: Gaps, slack: real, ub: real, v: real) {
    || ub - slack <= v
    || Abs(g.scale) * (ub - v) <= g.absolute
    || WithinRelative(g, ub, v)
  }

  /** The relative gap test, as a bound on the objective difference. */
  predicate WithinRelative(g: Gaps, ub: real, v: real) {
    Abs(UserObjective(g, ub) - UserObjective(g, v)) <= g.relative * Abs(UserObjective(g, ub))
  }

  lemma GapShrinks(g: Gaps, ub: real, lb: real, v: real)
    requires lb <= v <= ub && GapClosed(g, Fin(ub), Fin(lb))
    ensures Abs(g.scale) * (ub - v) <= g.absolute || WithinRelative(g, ub, v)
  {
    ClosedCases(g, ub, lb);
    hide GapClosed, UserObjective;
    GapMonotone(g, ub, lb, v);
    assert Reach(g, ub - v) == Abs(g.scale) * (ub - v);
    hide Reach, Abs;
  }

  lemma ClosedCases(g: Gaps, ub: real, lb: real)
    requires GapClosed(g, Fin(ub), Fin(lb))
    ensures Reach(g, ub - lb) <= g.absolute ||
            Abs(UserObjective(g, ub) - UserObjective(g, lb)) <= g.relative * Abs(UserObjective(g, ub))
  {
    var u, l := UserObjective(g, ub), UserObjective(g, lb);
    if Reach(g, ub - lb) > g.absolute {
      hide UserObjective, Abs;
      RelativeGap(g, u, l);
    }
  }

  /** A distance between objectives, in the user's scale. */
  function Reach(g: Gaps, d: real): real {
    Abs(g.scale) * d
  }

  /** A point between the bounds is closer to the upper one, in both measures. */
  lemma GapMonotone(g: Gaps, ub: real, lb: real, v: real)
    requires lb <= v <= ub
    ensures Reach(g, ub - v) <= Reach(g, ub - lb)
    ensures Abs(UserObjective(g, ub) - UserObjective(g, v)) <= Abs(UserObjective(g, ub) - UserObjective(g, lb))
  {
    ScaledMonotone(Abs(g.scale), ub - v, ub - lb);
    assert Reach(g, ub - v) <= Reach(g, ub - lb);
    hide UserObjective, Abs, Reach;
    GapScaled(g, ub, lb);
    GapScaled(g, ub, v);
  }

  lemma GapScaled(g: Gaps, a: real, b: real)
    requires b <= a
    ensures Abs(UserObjective(g, a) - UserObjective(g, b)) == Reach(g, a - b)
  {
    var d := UserObjective(g, a) - UserObjective(g, b);
    assert d == g.scale * (a - b) by {
      assert g.scale * (a + g.constant) - g.scale * (b + g.constant) == g.scale * ((a + g.constant) - (b + g.constant));
    }
    ScaledAbs(g.scale, a - b);
  }

  lemma RelativeGap(g: Gaps, u: real, l: real)
    requires if u == 0.0 then l == 0.0 && 0.0 <= g.relative else Abs(u - l) / Abs(u) <= g.relative
    ensures Abs(u - l) <= g.relative * Abs(u)
  {
    if u == 0.0 {
      assert g.relative * Abs(u) == 0.0;
    } else {
      DivideOut(Abs(u - l), Abs(u), g.relative);
    }
  }

  lemma ScaledAbs(a: real, d: real)
    requires d >= 0.0
    ensures Abs(a * d) == Abs(a) * d
  {
    if a >= 0.0 { ProductNonneg(a, d); } else { ProductNonneg(-a, d); }
  }

  lemma ScaledMonotone(a: real, d: real, e: real)
    requires a >= 0.0 && d <= e
    ensures a * d <= a * e
  {
    ProductNonneg(a, e - d);
  }

  lemma DivideOut(a: real, b: real, r: real)
    requires b > 0.0 && a / b <= r
    ensures a <= r * b
  {
    assert (a / b) * b == a;
    ProductNonneg(r - a / b, b);
  }
}
