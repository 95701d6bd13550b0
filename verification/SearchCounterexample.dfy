/** Tree exhaustion does not consult the numerical bound. For every pair of an upper bound and a
    numerical bound that undercuts it by more than the tolerance there is a run that ends with these
    values and a wrong verdict. */
module SearchCounterexample {
  import opened Extended
  import opened Reals
  import opened Lattice
  import opened BoundWalk
  import opened SearchModel
  import opened SearchInvariant
  import opened SearchSteps
  import opened SearchTheorem

  /** The family: objective `better` at x = 0 and `worse` at x = 1, a root bound `low`, and perhaps the
      point at x = 1 as the first incumbent. */
  datatype Case = Case(low: Ext, better: real, worse: real, known: bool, primal: real)

  ghost predicate Valid(c: Case) {
    && Le(c.low, Fin(c.better)) && c.better < c.worse - c.primal && 0.0 <= c.primal
  }

  /** Minimise (worse - better) x + y over x in {0, 1} and y = better. */
  function Tiny(c: Case): Mip {
    Mip(Box([Fin(0.0), Fin(c.better)], [Fin(1.0), Fin(c.better)]), [true, false], [], [c.worse - c.better, 1.0], Smooth)
  }

  function Tol(c: Case): Tolerances {
    Tolerances(c.primal, 0.0, 0.0, 0.0)
  }

  function First(c: Case): Best {
    if c.known then Best(Fin(c.worse), Some(Solution(c.worse, [1.0, c.better], -1, 0))) else Best(PosInf, None)
  }

  function Child(c: Case, dir: Direction, status: Status): Node {
    Node(0, ChildBranch(Tiny(c).box, 0, 0.5, dir), c.low, status, -1, (if dir == Down then 0 else 1), 0.5)
  }

  function Fresh(c: Case, plunge: seq<nat>, last: Option<nat>, ceiling: Ext, box: Box): Worker {
    Worker(plunge, [], None, last, First(c).ub, ceiling, [], box, Idle, 0, 0)
  }

  function Beginning(c: Case): State {
    State(map[0 := Child(c, Down, HasChildren), 1 := Child(c, Down, Pending), 2 := Child(c, Up, Pending)], 2,
          [Fresh(c, [2, 1], None, PosInf, Tiny(c).box)], First(c), PosInf, [], 1.0, Unset)
  }

  // ------------------------------------------------------------------ the problem

  lemma TinyObjective(c: Case, p: Point)
    requires |p| == 2
    ensures Obj(Tiny(c), p) == (c.worse - c.better) * p[0] + p[1]
  {
    var m := Tiny(c);
    assert m.cost[1..] == [1.0] && p[1..] == [p[1]];
    assert m.cost[1..][1..] == [] && p[1..][1..] == [];
    assert Dot(m.cost[1..][1..], p[1..][1..]) == 0.0;
    assert Dot(m.cost[1..], p[1..]) == p[1];
  }

  lemma TinyBounded(c: Case, p: Point)
    requires Valid(c) && ValidMip(Tiny(c)) && Feasible(Tiny(c), p)
    ensures c.better <= Obj(Tiny(c), p)
  {
    var m := Tiny(c);
    assert Between(m.box.lo[0], p[0], m.box.hi[0]) && Between(m.box.lo[1], p[1], m.box.hi[1]);
    TinyObjective(c, p);
    ProductNonneg(c.worse - c.better, p[0]);
  }

  lemma TinyPoints(c: Case)
    requires Valid(c) && ValidMip(Tiny(c))
    ensures Feasible(Tiny(c), [0.0, c.better]) && Obj(Tiny(c), [0.0, c.better]) == c.better
    ensures Feasible(Tiny(c), [1.0, c.better]) && Obj(Tiny(c), [1.0, c.better]) == c.worse
  {
    var m := Tiny(c);
    assert In([0.0, c.better], m.box) && In([1.0, c.better], m.box);
    assert (0.0 as real).Floor == 0 && (1.0 as real).Floor == 1;
    TinyObjective(c, [0.0, c.better]);
    TinyObjective(c, [1.0, c.better]);
  }

  lemma TinySetting(c: Case)
    requires Valid(c)
    ensures Setting(Tiny(c), Tol(c))
  {
    assert ValidMip(Tiny(c));
    forall p | Feasible(Tiny(c), p) ensures OnGrid(Tiny(c).grid, Obj(Tiny(c), p)) { }
  }

  lemma FirstIsTrue(c: Case)
    requires Valid(c) && ValidMip(Tiny(c)) && c.known
    ensures TrueSolution(Tiny(c), Tol(c), First(c).inc.value)
  {
    TinyPoints(c);
    assert (1.0 + 0.5).Floor == 1;
    assert !IsFractional(1.0, 0.0);
  }

  // ------------------------------------------------------------------ the start

  lemma TinyHeld(k: Worker)
    requires k.plunge == [2, 1] && k.backlog == [] && k.current.None?
    ensures Held([k]) == multiset{1, 2}
  {
    assert [k][1..] == [];
    assert multiset([2, 1]) == multiset{1, 2};
    assert Held([k]) == HeldOne(k) + Held([]);
  }

  lemma TinySplit(c: Case, s: State)
    requires Valid(c) && ValidMip(Tiny(c))
    requires {0, 1, 2} <= s.nodes.Keys && s.nodes[1] == Child(c, Down, Pending) && s.nodes[2] == Child(c, Up, Pending)
    ensures RootSplit(Tiny(c), s)
  {
    forall p | Feasible(Tiny(c), p) ensures Le(s.nodes[1].lb, Fin(Obj(Tiny(c), p))) { TinyBounded(c, p); }
    var v: nat, x: real := 0, 0.5;
    assert v < |Tiny(c).cost| && Tiny(c).integral[v] && Between(Tiny(c).box.lo[v], x, Tiny(c).box.hi[v]) &&
           s.nodes[1].branch == ChildBranch(Tiny(c).box, v, x, Down) &&
           s.nodes[2].branch == ChildBranch(Tiny(c).box, v, x, Up);
  }

  lemma TinyInit(c: Case)
    requires Valid(c)
    ensures ValidMip(Tiny(c)) && Init(Tiny(c), Tol(c), Beginning(c))
  {
    TinySetting(c);
    var s := Beginning(c);
    assert s.nodes.Keys == {0, 1, 2};
    TinySplit(c, s);
    TinyHeld(s.workers[0]);
    assert s.workers == [s.workers[0]];
    if c.known { FirstIsTrue(c); }
    hide RootSplit, Held, TrueSolution, Setting, Valid;
  }

  // ------------------------------------------------------------------ losing a node

  ghost predicate Joined(c: Case, s: State, e: Event, s': State)
    requires ValidMip(Tiny(c))
  {
    Step(Tiny(c), Tol(c), s, e, s')
  }

  /** The single worker rests with `plunge` ahead of it, at ceiling `ceiling`. */
  ghost predicate Resting(c: Case, s: State, plunge: seq<nat>, ceiling: Ext) {
    && WfTree(s.nodes, 2) && |s.workers| == 1 && s.verdict == Unset && s.queue == [] && s.best == First(c)
    && s.numerical == PosInf && s.workers[0] == Fresh(c, plunge, s.workers[0].lastSolved, ceiling, s.workers[0].box)
    && WellSized(s.workers[0].box, 2) && Listed(c, s.nodes, plunge)
  }

  /** The listed nodes are in the tree, below the root, with the root's bound. */
  ghost predicate Listed(c: Case, nodes: Nodes, plunge: seq<nat>) {
    forall i :: 0 <= i < |plunge| ==> plunge[i] in nodes && plunge[i] != 0 && nodes[plunge[i]].lb == c.low
  }

  lemma ListedTail(c: Case, nodes: Nodes, id: nat, rest: seq<nat>, status: Status)
    requires Listed(c, nodes, [id] + rest)
    ensures id in nodes && id != 0 && nodes[id].lb == c.low
    ensures Listed(c, nodes[id := nodes[id].(status := status)], rest)
  {
    var all := [id] + rest;
    assert all[0] == id;
    forall i | 0 <= i < |rest| ensures rest[i] in nodes && rest[i] != 0 && nodes[rest[i]].lb == c.low {
      assert all[i + 1] == rest[i];
    }
  }

  function Lost(c: Case, s: State, id: nat, plunge: seq<nat>, ceiling: Ext, box: Box): State
    requires id in s.nodes
  {
    s.(nodes := s.nodes[id := s.nodes[id].(status := Numerical)], workers := [Fresh(c, plunge, Some(id), ceiling, box)])
  }

  lemma StandsItself(m: Mip, b: Box)
    requires ValidMip(m) && WellSized(b, |b.lo|)
    ensures Stands(b, b, FeasibleSet(m))
  {
    WithinItself(b);
  }

  /** The node is not pruned: its bound does not exceed the upper bound. */
  lemma NotPruned(c: Case)
    requires Valid(c)
    ensures !Lt(First(c).ub, c.low)
  {
  }

  /** Starting the first node of the stack with unchanged bounds. */
  lemma StartFirst(c: Case, s: State, id: nat, rest: seq<nat>, ceiling: Ext) returns (mid: State, a: Strengthened)
    requires Valid(c) && ValidMip(Tiny(c)) && Resting(c, s, [id] + rest, ceiling)
    ensures Joined(c, s, Starting(0, 0, a), mid) && WellSized(a.box, 2) && id in s.nodes
    ensures mid == s.(workers := [Fresh(c, rest, s.workers[0].lastSolved, ceiling, a.box).(
                        current := Some(id), phase := Solving(Shift(First(c).ub, 0.0), true))])
  {
    var m, t, k := Tiny(c), Tol(c), s.workers[0];
    assert k.plunge[0] == id && k.plunge[1..] == rest;
    ListedTail(c, s.nodes, id, rest, Numerical);
    hide Listed;
    assert CanStart(s, 0, 0) && Dequeue(k, 0).current.value == id;
    NotPruned(c);
    var base := BaseBox(m, s, 0, id);
    a := Strengthened(true, base);
    StandsItself(m, base);
    mid := Start(t, s, 0, 0, a);
    assert mid.workers == [mid.workers[0]];
  }

  /** The worker takes the first node of its stack and loses its LP. */
  lemma Lose(c: Case, s: State, id: nat, rest: seq<nat>, ceiling: Ext) returns (mid: State, s': State, a: Strengthened)
    requires Valid(c) && ValidMip(Tiny(c)) && Resting(c, s, [id] + rest, ceiling)
    ensures Joined(c, s, Starting(0, 0, a), mid) && Joined(c, mid, Finishing(0, NumericalTrouble, 0.0), s')
    ensures Resting(c, s', rest, Min(c.low, ceiling)) && id in s'.nodes && s'.nodes[id].status == Numerical
  {
    mid, a := StartFirst(c, s, id, rest, ceiling);
    ListedTail(c, s.nodes, id, rest, Numerical);
    hide Listed;
    assert mid.nodes[id].lb == c.low;
    assert CanFinish(Tiny(c), Tol(c), mid, 0, NumericalTrouble);
    s' := Finish(Tiny(c), Tol(c), mid, 0, NumericalTrouble);
    assert s'.workers[0] == Fresh(c, rest, Some(id), Min(c.low, ceiling), a.box);
    assert s' == Lost(c, s, id, rest, Min(c.low, ceiling), a.box);
    RestsAgain(c, s, id, rest, ceiling, a.box);
  }

  lemma RestsAgain(c: Case, s: State, id: nat, rest: seq<nat>, ceiling: Ext, box: Box)
    requires Resting(c, s, [id] + rest, ceiling) && id in s.nodes && WellSized(box, 2)
    ensures Resting(c, Lost(c, s, id, rest, Min(c.low, ceiling), box), rest, Min(c.low, ceiling))
  {
    hide WfTree, First, Listed;
    ListedTail(c, s.nodes, id, rest, Numerical);
    CloseWf(s.nodes, Lost(c, s, id, rest, Min(c.low, ceiling), box).nodes, id, 2);
  }

  // ------------------------------------------------------------------ the last callback

  function Quiet(): SyncInput {
    SyncInput([], [], [], [], Gaps(1.0, 0.0, 0.0, 0.0), 1.0, false)
  }

  lemma NothingCollected(c: Case, s: State, ceiling: Ext)
    requires Resting(c, s, [], ceiling)
    ensures AllFound(s.workers) == [] && AllBacklogs(s.workers) == [] && !NeedsBalance(s.workers)
  {
    assert s.workers[1..] == [];
    assert AllFound([]) == [] && AllBacklogs([]) == [];
  }

  /** Nothing found, nothing queued: the callback only judges. */
  lemma LastSync(c: Case, s: State, ceiling: Ext)
    requires Valid(c) && ValidMip(Tiny(c)) && Resting(c, s, [], ceiling)
    ensures Joined(c, s, Syncing(Quiet()), Sync(Smooth, Tol(c), s, Quiet()))
  {
    NothingCollected(c, s, ceiling);
    assert CanSync(Tiny(c), Tol(c), s, Quiet());
    hide Sync, CanSync, Resting;
  }

  lemma LastVerdict(c: Case, s: State, ceiling: Ext)
    requires Resting(c, s, [], ceiling)
    ensures var r := Sync(Smooth, Tol(c), s, Quiet());
            && r.verdict == (if c.known then Optimal else NoSolution) && Exhausted(r.workers)
            && r.nodes == s.nodes && r.best == First(c) && r.numerical == Min(ceiling, PosInf)
  {
    NothingCollected(c, s, ceiling);
    var r := AfterMerge(Smooth, Tol(c), s, Quiet());
    assert r.workers[0].plunge == [] && r.workers[0].backlog == [] && r.workers[0].current.None?;
    assert r.best == First(c) && r.nodes == s.nodes && |r.workers| == 1;
    OneCeiling(s.workers);
    assert r.numerical == Min(ceiling, PosInf);
    assert Exhausted(r.workers);
    hide AfterMerge, Resting;
    ExhaustedHoldsNothing(r.workers);
  }

  lemma OneCeiling(ws: seq<Worker>)
    requires |ws| == 1
    ensures MinOf(Ceilings(ws)) == Min(ws[0].ceiling, PosInf)
  {
    assert Ceilings(ws)[1..] == [];
  }

  // ------------------------------------------------------------------ the run

  lemma Assemble(c: Case, ss: seq<State>, es: seq<Event>)
    requires |ss| == 6 && |es| == 5 && ValidMip(Tiny(c)) && Init(Tiny(c), Tol(c), ss[0])
    requires Joined(c, ss[0], es[0], ss[1]) && Joined(c, ss[1], es[1], ss[2]) && Joined(c, ss[2], es[2], ss[3])
    requires Joined(c, ss[3], es[3], ss[4]) && Joined(c, ss[4], es[4], ss[5])
    ensures Run(Tiny(c), Tol(c), ss, es)
  {
    hide Step, Init;
    forall i | 0 <= i < |es| ensures Step(Tiny(c), Tol(c), ss[i], es[i], ss[i + 1]) {
      assert i == 0 || i == 1 || i == 2 || i == 3 || i == 4;
    }
  }

  lemma Begins(c: Case)
    requires Valid(c)
    ensures Resting(c, Beginning(c), [2] + [1], PosInf)
  {
  }

  /** Both children in turn. */
  lemma Both(c: Case) returns (s: seq<State>, a: Strengthened, b: Strengthened)
    requires Valid(c) && ValidMip(Tiny(c))
    ensures |s| == 5 && Init(Tiny(c), Tol(c), s[0])
    ensures Joined(c, s[0], Starting(0, 0, a), s[1]) && Joined(c, s[1], Finishing(0, NumericalTrouble, 0.0), s[2])
    ensures Joined(c, s[2], Starting(0, 0, b), s[3]) && Joined(c, s[3], Finishing(0, NumericalTrouble, 0.0), s[4])
    ensures Resting(c, s[4], [], Min(c.low, Min(c.low, PosInf))) && 1 in s[4].nodes && s[4].nodes[1].status == Numerical
  {
    hide *;
    TinyInit(c);
    Begins(c);
    var s1, s2, s3, s4;
    s1, s2, a := Lose(c, Beginning(c), 2, [1], PosInf);
    assert [1] == [1] + [];
    s3, s4, b := Lose(c, s2, 1, [], Min(c.low, PosInf));
    s := [Beginning(c), s1, s2, s3, s4];
  }

  lemma WrongVerdict(c: Case, s: State)
    requires Valid(c) && ValidMip(Tiny(c)) && s.best == First(c) && s.verdict == (if c.known then Optimal else NoSolution)
    ensures !RightAnswer(Tiny(c), Tol(c), s)
  {
    TinyPoints(c);
  }

  lemma MinAbsorbs(low: Ext)
    ensures Min(Min(low, Min(low, PosInf)), PosInf) == low
  {
  }

  /** A run in which both children end NUMERICAL, with the given bounds and a wrong verdict. */
  lemma LostRun(c: Case) returns (ss: seq<State>, es: seq<Event>)
    requires Valid(c) && ValidMip(Tiny(c))
    ensures Run(Tiny(c), Tol(c), ss, es) && |ss| == 6 && |es| == 5 && es[4].Syncing? && Exhausted(ss[5].workers)
    ensures ss[5].best == First(c) && ss[5].numerical == c.low && !NoNumerical(ss[5].nodes)
    ensures ss[5].verdict == if c.known then Optimal else NoSolution
  {
    hide Joined, Init, Sync, Feasible, Run, Exhausted, Resting, Valid, Min;
    var s, a, b := Both(c);
    LastSync(c, s[4], Min(c.low, Min(c.low, PosInf)));
    LastVerdict(c, s[4], Min(c.low, Min(c.low, PosInf)));
    MinAbsorbs(c.low);
    ss := s + [Sync(Smooth, Tol(c), s[4], Quiet())];
    es := [Starting(0, 0, a), Finishing(0, NumericalTrouble, 0.0), Starting(0, 0, b), Finishing(0, NumericalTrouble, 0.0), Syncing(Quiet())];
    Assemble(c, ss, es);
  }

  /** The objective at x = 0 that fits the bounds. */
  function Chosen(ub: Ext, low: Ext, primal: real): Case {
    var better := if low.Fin? then low.v else if ub.Fin? then ub.v - primal - 1.0 else 0.0;
    Case(low, better, if ub.Fin? then ub.v else better + primal + 1.0, ub.Fin?, primal)
  }

  /** The condition of ExhaustionRight cannot be weakened: whenever the numerical bound undercuts the
      upper bound by more than the tolerance, some run of some problem ends exhausted with exactly
      these bounds and a wrong verdict. */
  lemma NumericalExhaustion(ub: Ext, low: Ext, primal: real) returns (m: Mip, t: Tolerances, ss: seq<State>, es: seq<Event>)
    requires ub != NegInf && 0.0 <= primal && !Le(Shift(ub, -primal), low)
    ensures Setting(m, t) && t.primal == primal && Run(m, t, ss, es) && |ss| == 6 && |es| == 5 && es[4].Syncing?
    ensures Exhausted(ss[5].workers) && ss[5].best.ub == ub && ss[5].numerical == low && Slack(m.grid, t) == primal
    ensures !RightAnswer(m, t, ss[5])
  {
    var c := Chosen(ub, low, primal);
    assert Valid(c) && First(c).ub == ub && c.low == low && c.primal == primal;
    TinySetting(c);
    m, t := Tiny(c), Tol(c);
    hide Valid, Run, Exhausted, Chosen, NoNumerical;
    ss, es := LostRun(c);
    hide Tiny, Tol, First, Setting;
    WrongVerdict(c, ss[5]);
  }
}
