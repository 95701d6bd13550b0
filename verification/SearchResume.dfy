/** Nodes paused by a limit. A worker whose LP returns on a limit keeps its node, waits for the next
    callback and takes the same node up again. */
module SearchResume {
  import opened Extended
  import opened Lattice
  import opened BoundWalk
  import opened SearchModel
  import opened SearchInvariant
  import opened SearchSync
  import opened SearchTheorem
  import opened SearchCounterexample

  /** The worker holds `id` as its paused node. */
  predicate Holds(k: Worker, id: nat) {
    k.current == Some(id) && (k.phase.Stalled? || k.phase.Resumed?)
  }

  predicate Starts(e: Event, w: nat) {
    e.Starting? && e.w == w
  }

  /** Steps that do not start the worker leave its paused node alone, and only a callback releases it. */
  lemma PausedStep(m: Mip, t: Tolerances, s: State, e: Event, s': State, w: nat, id: nat)
    requires ValidMip(m) && Step(m, t, s, e, s') && w < |s.workers| && Holds(s.workers[w], id) && !Starts(e, w)
    ensures w < |s'.workers| && Holds(s'.workers[w], id)
    ensures s'.workers[w].phase == if e.Syncing? then Resumed else s.workers[w].phase
  {
    match e
    case Starting(v, top, a) =>
    case Finishing(v, lp, _) => FinishOther(m, t, s, v, lp, w);
    case Arriving(h) =>
    case Syncing(i) =>
      SyncHasEffect(m, t, s, i);
      hide Sync, CanSync;
      assert Refreshed(s.workers[w], s'.workers[w], s'.best.ub);
  }

  lemma PauseStep(m: Mip, t: Tolerances, s: State, e: Event, s': State, w: nat, id: nat)
    requires ValidMip(m) && Step(m, t, s, e, s') && e.Finishing? && e.w == w && e.outcome == LimitReached
    requires w < |s.workers| && s.workers[w].current == Some(id)
    ensures w < |s'.workers| && Holds(s'.workers[w], id) && s'.workers[w].phase.Stalled?
  {
  }

  lemma FinishOther(m: Mip, t: Tolerances, s: State, v: nat, lp: Outcome, w: nat)
    requires ValidMip(m) && CanFinish(m, t, s, v, lp) && w < |s.workers| && !s.workers[w].phase.Solving?
    ensures var s' := Finish(m, t, s, v, lp); w < |s'.workers| && s'.workers[w] == s.workers[w]
  {
    hide Rest, EnqueueChildren, Record, ChildBranch, Snap, NoFractional;
  }

  /** From a limit return at step `i` on, until the worker starts again, it holds the node it was
      solving, and it has been released exactly if a callback came in between. */
  lemma {:induction false} PausedUntil(m: Mip, t: Tolerances, ss: seq<State>, es: seq<Event>, i: nat, j: nat, w: nat, id: nat)
    requires Setting(m, t) && Run(m, t, ss, es) && |ss| == |es| + 1 && i < j <= |es|
    requires es[i].Finishing? && es[i].w == w && es[i].outcome == LimitReached
    requires w < |ss[i].workers| && ss[i].workers[w].current == Some(id)
    requires forall l :: i < l < j ==> !Starts(es[l], w)
    ensures w < |ss[j].workers| && Holds(ss[j].workers[w], id)
    ensures ss[j].workers[w].phase.Resumed? <==> exists l :: i < l < j && es[l].Syncing?
    decreases j
  {
    hide Run, Step;
    if j == i + 1 {
      RunStep(m, t, ss, es, i);
      PauseStep(m, t, ss[i], es[i], ss[j], w, id);
    } else {
      PausedUntil(m, t, ss, es, i, j - 1, w, id);
      RunStep(m, t, ss, es, j - 1);
      PausedStep(m, t, ss[j - 1], es[j - 1], ss[j], w, id);
      if exists l :: i < l < j && es[l].Syncing? {
        var l :| i < l < j && es[l].Syncing?;
        assert l == j - 1 || l < j - 1;
      }
    }
  }

  /** The worker's next start comes after a callback and takes up the paused node. */
  lemma PausedIsResumed(m: Mip, t: Tolerances, ss: seq<State>, es: seq<Event>, i: nat, j: nat, w: nat, id: nat)
    requires Setting(m, t) && Run(m, t, ss, es) && |ss| == |es| + 1 && i < j < |es|
    requires es[i].Finishing? && es[i].w == w && es[i].outcome == LimitReached
    requires w < |ss[i].workers| && ss[i].workers[w].current == Some(id)
    requires (forall l :: i < l < j ==> !Starts(es[l], w)) && Starts(es[j], w)
    ensures CanStart(ss[j], w, es[j].top) && Dequeue(ss[j].workers[w], es[j].top).current == Some(id)
    ensures exists l :: i < l < j && es[l].Syncing?
  {
    PausedUntil(m, t, ss, es, i, j, w, id);
    RunStep(m, t, ss, es, j);
  }

  // ------------------------------------------------------------------ such runs exist

  /** The single worker took up node 2 and waits, or has been released. */
  function Waiting(c: Case, phase: Phase, box: Box): Worker {
    Fresh(c, [1], None, PosInf, box).(current := Some(2), phase := phase)
  }

  lemma OneWorker(c: Case, k: Worker)
    requires k.backlog == [] && k.found == []
    ensures AllFound([k]) == [] && AllBacklogs([k]) == [] && !NeedsBalance([k])
  {
    assert [k][1..] == [];
    assert AllFound([]) == [] && AllBacklogs([]) == [];
  }

  lemma PauseSync(c: Case, box: Box, s: State)
    requires Valid(c) && ValidMip(Tiny(c)) && s == Beginning(c).(workers := [Waiting(c, Stalled, box)])
    ensures Joined(c, s, Syncing(Quiet()), Sync(Smooth, Tol(c), s, Quiet()))
    ensures Sync(Smooth, Tol(c), s, Quiet()).workers == [Waiting(c, Resumed, box)]
  {
    OneWorker(c, s.workers[0]);
    assert CanSync(Tiny(c), Tol(c), s, Quiet());
    var r := AfterMerge(Smooth, Tol(c), s, Quiet());
    assert r.workers == [Waiting(c, Resumed, box)];
    hide AfterMerge, CanSync;
  }

  lemma NoVerdict(c: Case, box: Box, s: State)
    requires !c.known && s == Beginning(c).(workers := [Waiting(c, Stalled, box)])
    ensures Sync(Smooth, Tol(c), s, Quiet()).verdict == Unset
  {
    OneWorker(c, s.workers[0]);
    var r := AfterMerge(Smooth, Tol(c), s, Quiet());
    assert r.workers[0].current == Some(2) && r.best.ub == PosInf;
    hide AfterMerge, ReportedBound;
    assert HasWork(r.workers[0]);
  }

  /** Resumption does happen: for every problem of the family with no incumbent yet, a run pauses a node
      and comes to a state from which the worker starts that node again. */
  lemma ResumedRun(c: Case) returns (ss: seq<State>, es: seq<Event>)
    requires Valid(c) && !c.known
    ensures ValidMip(Tiny(c)) && Run(Tiny(c), Tol(c), ss, es) && |ss| == 4 && |es| == 3
    ensures es[1].Finishing? && es[1].outcome == LimitReached && es[2].Syncing?
    ensures CanStart(ss[3], 0, 0) && Dequeue(ss[3].workers[0], 0).current == ss[1].workers[0].current == Some(2)
  {
    TinyInit(c);
    Begins(c);
    var s0 := Beginning(c);
    assert s0.workers[0].lastSolved == None;
    hide Init, Joined, Resting, Sync, Valid, Beginning, Fresh;
    var s1, a := StartFirst(c, s0, 2, [1], PosInf);
    var s2 := PauseFirst(c, s1, a.box);
    PauseSync(c, a.box, s2);
    NoVerdict(c, a.box, s2);
    var s3 := Sync(Smooth, Tol(c), s2, Quiet());
    ss, es := [s0, s1, s2, s3], [Starting(0, 0, a), Finishing(0, LimitReached, 0.0), Syncing(Quiet())];
    AssemblePause(c, ss, es);
    ReleasedStarts(c, a.box, s3);
  }

  lemma PauseFirst(c: Case, s: State, box: Box) returns (s': State)
    requires ValidMip(Tiny(c)) && WellSized(box, 2)
    requires s == Beginning(c).(workers := [Waiting(c, Solving(Shift(First(c).ub, 0.0), true), box)])
    ensures Joined(c, s, Finishing(0, LimitReached, 0.0), s') && s' == Beginning(c).(workers := [Waiting(c, Stalled, box)])
  {
    assert CanFinish(Tiny(c), Tol(c), s, 0, LimitReached);
    s' := Finish(Tiny(c), Tol(c), s, 0, LimitReached);
    assert s'.workers == [Waiting(c, Stalled, box)];
  }

  lemma ReleasedStarts(c: Case, box: Box, s: State)
    requires s.workers == [Waiting(c, Resumed, box)] && s.verdict == Unset
    ensures CanStart(s, 0, 0) && Dequeue(s.workers[0], 0).current == Some(2)
  {
  }

  lemma AssemblePause(c: Case, ss: seq<State>, es: seq<Event>)
    requires |ss| == 4 && |es| == 3 && ValidMip(Tiny(c)) && Init(Tiny(c), Tol(c), ss[0])
    requires Joined(c, ss[0], es[0], ss[1]) && Joined(c, ss[1], es[1], ss[2]) && Joined(c, ss[2], es[2], ss[3])
    ensures Run(Tiny(c), Tol(c), ss, es)
  {
    hide Step, Init;
    forall i | 0 <= i < |es| ensures Step(Tiny(c), Tol(c), ss[i], es[i], ss[i + 1]) {
      assert i == 0 || i == 1 || i == 2;
    }
  }
}
