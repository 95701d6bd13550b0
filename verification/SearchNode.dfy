/** What one worker does with one node, step by step of a run: which node it takes, when it prunes,
    branches or closes it, and what it leaves in the tree and in its queues. */
module SearchNode {
  import opened Extended
  import opened Reals
  import opened Lattice
  import opened BoundWalk
  import opened SearchModel
  import opened SearchInvariant
  import opened SearchTheorem
  import opened SearchKeys
  import opened SearchSync
  import opened SearchEvents

  /** Every worker but `w` and every node but `id` is as before; nodes are only added. */
  ghost predicate Elsewhere(s: State, s': State, w: nat, id: nat) {
    && |s'.workers| == |s.workers| && s'.best == s.best && s'.numerical == s.numerical && s'.queue == s.queue
    && s'.horizon == s.horizon && s'.verdict == s.verdict
    && (forall v :: 0 <= v < |s.workers| && v != w ==> s'.workers[v] == s.workers[v])
    && (forall j :: j in s.nodes && j != id ==> j in s'.nodes && s'.nodes[j] == s.nodes[j])
  }

  /** The node a worker takes: its paused node, else the top of its stack, else the backlog node that is
      served first. It leaves the place it was held in and nothing else moves. */
  ghost predicate Takes(nodes: Nodes, a: Worker, b: Worker, id: nat, top: nat) {
    if a.current.Some? then id == a.current.value && b.plunge == a.plunge && b.backlog == a.backlog
    else if a.plunge != [] then a.plunge == [id] + b.plunge && b.backlog == a.backlog
    else
      && b.plunge == [] && top < |a.backlog| && id == a.backlog[top] && b.backlog == a.backlog[..top] + a.backlog[top + 1..]
      && forall j :: 0 <= j < |a.backlog| ==> ServedNoLater(nodes, id, a.backlog[j])
  }

  /** By bound, then origin, then creation number. */
  predicate ServedNoLater(nodes: Nodes, i: nat, j: nat) {
    && i in nodes && j in nodes
    && (|| Lt(nodes[i].lb, nodes[j].lb)
        || (nodes[i].lb == nodes[j].lb &&
            (nodes[i].origin < nodes[j].origin || (nodes[i].origin == nodes[j].origin && nodes[i].seqNo <= nodes[j].seqNo))))
  }

  /** A node is pruned exactly when its bound exceeds the worker's upper bound; otherwise its LP runs on
      the strengthened bounds with a cutoff one dual tolerance above that upper bound. */
  ghost predicate Taken(t: Tolerances, s: State, s': State, w: nat, id: nat, answer: Strengthened)
    requires w < |s.workers| == |s'.workers| && id in s.nodes && id in s'.nodes
  {
    var a, b := s.workers[w], s'.workers[w];
    && s'.nodes.Keys == s.nodes.Keys && s'.counter == s.counter
    && b.lastSolved == a.lastSolved && b.localUb == a.localUb && b.ceiling == a.ceiling && b.found == a.found
    && b.nextSeq == a.nextSeq && b.nextSol == a.nextSol
    && if Lt(a.localUb, s.nodes[id].lb)
       then s'.nodes[id] == s.nodes[id].(status := Fathomed) && b.current == None && b.phase == Idle && b.box == a.box
       else s'.nodes[id] == s.nodes[id] && b.current == Some(id) && b.box == answer.box
            && b.phase == Solving(Shift(a.localUb, t.dual), answer.feasible)
  }

  lemma StartTakes(m: Mip, t: Tolerances, ss: seq<State>, es: seq<Event>, k: nat)
    requires Setting(m, t) && Run(m, t, ss, es) && k < |es| && es[k].Starting?
    ensures var s, s', w := ss[k], ss[k + 1], es[k].w;
            && w < |s.workers|
            && exists id :: id in s.nodes && id in s'.nodes && Elsewhere(s, s', w, id)
                 && Takes(s.nodes, s.workers[w], s'.workers[w], id, es[k].top) && Taken(t, s, s', w, id, es[k].answer)
  {
    RunStep(m, t, ss, es, k);
    var s, s', w := ss[k], ss[k + 1], es[k].w;
    var id := Dequeue(s.workers[w], es[k].top).current.value;
    StartIs(t, s, w, es[k].top, es[k].answer, id);
    hide Run, Setting, StrengthenContract, BaseBox, WfTree, TopOfBacklog, Start, Elsewhere, Takes, Taken;
    assert s' == Start(t, s, w, es[k].top, es[k].answer);
  }

  lemma ServedFirst(nodes: Nodes, backlog: seq<nat>, i: nat)
    requires TopOfBacklog(nodes, backlog, i)
    ensures i < |backlog| && forall j :: 0 <= j < |backlog| ==> ServedNoLater(nodes, backlog[i], backlog[j])
  {
    forall j | 0 <= j < |backlog| ensures ServedNoLater(nodes, backlog[i], backlog[j]) {
      assert !Before(nodes, backlog[j], backlog[i]);
    }
  }

  lemma StartIs(t: Tolerances, s: State, w: nat, top: nat, a: Strengthened, id: nat)
    requires CanStart(s, w, top) && Dequeue(s.workers[w], top).current == Some(id) && id in s.nodes
    ensures var s' := Start(t, s, w, top, a);
            && |s'.workers| == |s.workers| && id in s'.nodes
            && Elsewhere(s, s', w, id) && Takes(s.nodes, s.workers[w], s'.workers[w], id, top) && Taken(t, s, s', w, id, a)
  {
    if s.workers[w].current.None? && s.workers[w].plunge != [] {
      assert s.workers[w].plunge == [id] + s.workers[w].plunge[1..];
    }
    if s.workers[w].current.None? && s.workers[w].plunge == [] { ServedFirst(s.nodes, s.workers[w].backlog, top); }
  }

  // ------------------------------------------------------------------ the end of a node

  /** The worker rests with `id` as its last solved node; bounds, queues and solutions as given. */
  ghost predicate Rests(a: Worker, b: Worker, id: nat) {
    && b.current == None && b.lastSolved == Some(id) && b.phase == Idle && b.box == a.box
  }

  predicate SameQueues(a: Worker, b: Worker) {
    b.plunge == a.plunge && b.backlog == a.backlog && b.nextSeq == a.nextSeq
  }

  predicate SameFindings(a: Worker, b: Worker) {
    b.localUb == a.localUb && b.found == a.found && b.nextSol == a.nextSol
  }

  /** The leaf `id` closes with `status` and bound `lb`, its worker's queues and findings unchanged. */
  ghost predicate ClosesAs(s: State, s': State, w: nat, id: nat, status: Status, lb: Ext)
    requires w < |s.workers| == |s'.workers| && id in s.nodes
  {
    && s'.nodes == s.nodes[id := s.nodes[id].(status := status, lb := lb)] && s'.counter == s.counter
    && Rests(s.workers[w], s'.workers[w], id) && SameQueues(s.workers[w], s'.workers[w])
  }

  /** Whether some integral variable of x is off every integer by more than the tolerance. */
  ghost predicate Fractional(m: Mip, t: Tolerances, x: Point)
    requires |x| == |m.integral|
  {
    exists j, n: int :: 0 <= j < |x| && m.integral[j] && Nearest(x[j], n) && Abs(x[j] - n as real) > t.integer
  }

  predicate Nearest(x: real, n: int) {
    -0.5 <= x - n as real < 0.5
  }

  lemma FractionalSays(m: Mip, t: Tolerances, x: Point)
    requires |x| == |m.integral|
    ensures Fractional(m, t, x) <==> !NoFractional(m, t, x)
  {
    if !NoFractional(m, t, x) {
      var j :| 0 <= j < |x| && m.integral[j] && IsFractional(x[j], t.integer);
      assert Nearest(x[j], (x[j] + 0.5).Floor);
    }
    if Fractional(m, t, x) {
      var j, n: int :| 0 <= j < |x| && m.integral[j] && Nearest(x[j], n) && Abs(x[j] - n as real) > t.integer;
      assert (x[j] + 0.5).Floor == n;
      assert IsFractional(x[j], t.integer);
    }
  }

  /** Two open children of `id`, cut at the value x of variable v: below its floor and above its ceiling,
      within the leaf bounds. They lie on the worker's stack, the preferred one on top; the oldest entry
      of the stack has gone to the backlog. */
  ghost predicate SplitsInto(s: State, s': State, w: nat, id: nat, lb: Ext, v: nat, x: real, dir: Direction)
    requires w < |s.workers| == |s'.workers| && id in s.nodes
  {
    var a, b, d, u := s.workers[w], s'.workers[w], s.counter + 1, s.counter + 2;
    && v < |a.box.lo| == |a.box.hi| && d in s'.nodes && u in s'.nodes && s'.counter == u
    && s'.nodes == s.nodes[id := s.nodes[id].(status := HasChildren, lb := lb)][d := s'.nodes[d]][u := s'.nodes[u]]
    && s'.nodes[d] == Node(id, Branch(v, a.box.lo[v], Fin(x.Floor as real)), lb, Pending, w, a.nextSeq, x)
    && s'.nodes[u] == Node(id, Branch(v, Fin(Ceil(x) as real), a.box.hi[v]), lb, Pending, w, a.nextSeq + 1, x)
    && Rests(a, b, id) && SameFindings(a, b) && b.ceiling == a.ceiling && b.nextSeq == a.nextSeq + 2
    && (if a.plunge == [] then b.backlog == a.backlog else b.backlog == a.backlog + [a.plunge[|a.plunge| - 1]])
    && b.plunge == (if dir == Up then [u, d] else [d, u]) + (if a.plunge == [] then [] else a.plunge[..|a.plunge| - 1])
  }

  /** A solution is queued under the worker's next number exactly when it beats its upper bound, which
      then becomes its objective. */
  ghost predicate Keeps(a: Worker, b: Worker, w: nat, obj: real, x: Point) {
    if Lt(Fin(obj), a.localUb)
    then b.localUb == Fin(obj) && b.found == a.found + [Solution(obj, x, w, a.nextSol)] && b.nextSol == a.nextSol + 1
    else SameFindings(a, b)
  }

  /** What the answer of the LP makes of a node. */
  ghost predicate Finished(m: Mip, t: Tolerances, s: State, s': State, w: nat, id: nat, lp: Outcome)
    requires w < |s.workers| == |s'.workers| && id in s.nodes && ValidGrid(m.grid)
    requires lp.LpOptimal? ==> |lp.x| == |m.cost| == |m.integral|
  {
    var a, b := s.workers[w], s'.workers[w];
    match lp
    case StrengthenedInfeasible => ClosesAs(s, s', w, id, Infeasible, PosInf) && SameFindings(a, b) && b.ceiling == a.ceiling
    case DualUnbounded => ClosesAs(s, s', w, id, Infeasible, PosInf) && SameFindings(a, b) && b.ceiling == a.ceiling
    case Cutoff => ClosesAs(s, s', w, id, Fathomed, a.localUb) && SameFindings(a, b) && b.ceiling == a.ceiling
    case LimitReached => s'.nodes == s.nodes && s'.counter == s.counter && b == a.(phase := Stalled)
    case NumericalTrouble =>
      && ClosesAs(s, s', w, id, Numerical, s.nodes[id].lb) && SameFindings(a, b)
      && Le(b.ceiling, a.ceiling) && Le(b.ceiling, s.nodes[id].lb) && (b.ceiling == a.ceiling || b.ceiling == s.nodes[id].lb)
    case LpOptimal(x, v, dir) =>
      var lb := Fin(Snap(m.grid, t, Obj(m, x)));
      if !Fractional(m, t, x) then
        ClosesAs(s, s', w, id, IntegerFeasible, lb) && Keeps(a, b, w, Obj(m, x), x) && b.ceiling == a.ceiling
      else if Le(lb, Shift(a.localUb, t.fathom)) then v < |x| && SplitsInto(s, s', w, id, lb, v, x[v], dir)
      else ClosesAs(s, s', w, id, Fathomed, lb) && SameFindings(a, b) && b.ceiling == a.ceiling
  }

  lemma CloseIs(s: State, w: nat, k: Worker, lb: Ext, status: Status, id: nat)
    requires w < |s.workers| && s.workers[w].current == Some(id) == k.current && id in s.nodes
    requires k.plunge == s.workers[w].plunge && k.backlog == s.workers[w].backlog && k.nextSeq == s.workers[w].nextSeq && k.box == s.workers[w].box
    ensures var s' := Close(s, w, k, lb, status);
            && Elsewhere(s, s', w, id) && ClosesAs(s, s', w, id, status, lb)
            && SameFindings(k, s'.workers[w]) && s'.workers[w].ceiling == k.ceiling
  {
  }

  lemma BranchIs(s: State, w: nat, lb: Ext, v: nat, x: real, dir: Direction, id: nat)
    requires w < |s.workers| && s.workers[w].current == Some(id) && id in s.nodes
    requires WellSized(s.workers[w].box, |s.workers[w].box.lo|) && v < |s.workers[w].box.lo|
    requires forall j :: j in s.nodes ==> j <= s.counter
    ensures var s' := BranchOn(s, w, s.workers[w], lb, v, x, dir);
            Elsewhere(s, s', w, id) && SplitsInto(s, s', w, id, lb, v, x, dir)
  {
    hide Elsewhere, SplitsInto;
    BranchElsewhere(s, w, lb, v, x, dir, id);
    BranchSplits(s, w, lb, v, x, dir, id);
  }

  lemma BranchElsewhere(s: State, w: nat, lb: Ext, v: nat, x: real, dir: Direction, id: nat)
    requires w < |s.workers| && s.workers[w].current == Some(id) && id in s.nodes
    requires WellSized(s.workers[w].box, |s.workers[w].box.lo|) && v < |s.workers[w].box.lo|
    requires forall j :: j in s.nodes ==> j <= s.counter
    ensures Elsewhere(s, BranchOn(s, w, s.workers[w], lb, v, x, dir), w, id)
  {
    hide ChildBranch, EnqueueChildren;
  }

  lemma BranchSplits(s: State, w: nat, lb: Ext, v: nat, x: real, dir: Direction, id: nat)
    requires w < |s.workers| && s.workers[w].current == Some(id) && id in s.nodes
    requires WellSized(s.workers[w].box, |s.workers[w].box.lo|) && v < |s.workers[w].box.lo|
    requires forall j :: j in s.nodes ==> j <= s.counter
    ensures SplitsInto(s, BranchOn(s, w, s.workers[w], lb, v, x, dir), w, id, lb, v, x, dir)
  {
  }

  lemma FinishIs(m: Mip, t: Tolerances, s: State, w: nat, lp: Outcome, id: nat)
    requires ValidMip(m) && CanFinish(m, t, s, w, lp) && s.workers[w].current == Some(id)
    requires forall j :: j in s.nodes ==> j <= s.counter
    ensures var s' := Finish(m, t, s, w, lp);
            Elsewhere(s, s', w, id) && Finished(m, t, s, s', w, id, lp)
  {
    hide Close, BranchOn, Elsewhere, ClosesAs, SplitsInto, NoFractional, Fractional, Snap, Obj, Relaxed;
    var k := s.workers[w];
    match lp {
      case StrengthenedInfeasible => CloseIs(s, w, k, PosInf, Infeasible, id);
      case DualUnbounded => CloseIs(s, w, k, PosInf, Infeasible, id);
      case Cutoff => CloseIs(s, w, k, k.localUb, Fathomed, id);
      case LpOptimal(x, v, dir) =>
        var lb := Fin(Snap(m.grid, t, Obj(m, x)));
        FractionalSays(m, t, x);
        if NoFractional(m, t, x) {
          CloseIs(s, w, Record(k, w, Obj(m, x), x), lb, IntegerFeasible, id);
        } else if Le(lb, Shift(k.localUb, t.fathom)) {
          BranchIs(s, w, lb, v, x[v], dir, id);
        } else {
          CloseIs(s, w, k, lb, Fathomed, id);
        }
      case LimitReached => PauseIs(s, w, id);
      case NumericalTrouble =>
        var lb := s.nodes[id].lb;
        CloseIs(s, w, k.(ceiling := Min(lb, k.ceiling)), lb, Numerical, id);
    }
  }

  lemma PauseIs(s: State, w: nat, id: nat)
    requires w < |s.workers|
    ensures Elsewhere(s, s.(workers := s.workers[w := s.workers[w].(phase := Stalled)]), w, id)
  {
  }

  /** The end of a node in any run: the status, the bound and the children it gets from what the LP
      answered, and what its worker keeps. */
  lemma FinishTable(m: Mip, t: Tolerances, ss: seq<State>, es: seq<Event>, k: nat)
    requires Setting(m, t) && Run(m, t, ss, es) && k < |es| && es[k].Finishing?
    ensures var s, s', w, lp := ss[k], ss[k + 1], es[k].w, es[k].outcome;
            && w < |s.workers| == |s'.workers| && s.workers[w].current.Some? && s.workers[w].current.value in s.nodes
            && (lp.LpOptimal? ==> |lp.x| == |m.cost| == |m.integral|)
            && Elsewhere(s, s', w, s.workers[w].current.value)
            && Finished(m, t, s, s', w, s.workers[w].current.value, lp)
  {
    RunInv(m, t, ss, es, k);
    RunStep(m, t, ss, es, k);
    CounterBounds(m, t, ss[k]);
    FinishReady(m, t, ss[k], es[k].w, es[k].outcome);
    hide Run, Inv, Finish, Finished, Elsewhere, CanFinish;
    FinishIs(m, t, ss[k], es[k].w, es[k].outcome, ss[k].workers[es[k].w].current.value);
  }

  lemma FinishReady(m: Mip, t: Tolerances, s: State, w: nat, lp: Outcome)
    requires ValidMip(m) && CanFinish(m, t, s, w, lp)
    ensures w < |s.workers| && s.workers[w].current.Some? && s.workers[w].current.value in s.nodes && ValidGrid(m.grid)
    ensures lp.LpOptimal? ==> |lp.x| == |m.cost| == |m.integral|
  {
  }

  // ------------------------------------------------------------------ what is logged

  /** What a step says of the node it acts on: nothing while the node stays open, else how it ended. */
  ghost predicate Reports(m: Mip, t: Tolerances, s: State, w: nat, id: nat, e: Event, r: Option<Payload>)
    requires w < |s.workers| && id in s.nodes && ValidGrid(m.grid)
    requires e.Finishing? && e.outcome.LpOptimal? ==> |e.outcome.x| == |m.cost| == |m.integral|
  {
    var a, c := s.workers[w], s.nodes[id];
    match e
    case Starting(_, _, _) => r == if Lt(a.localUb, c.lb) then Some(FathomedAt(c.lb)) else None
    case Finishing(_, lp, _) =>
      (match lp
       case StrengthenedInfeasible => r == Some(FoundInfeasible)
       case DualUnbounded => r == Some(FoundInfeasible)
       case Cutoff => r == Some(FathomedAt(a.localUb))
       case LimitReached => r == None
       case NumericalTrouble => r == Some(FoundNumerical)
       case LpOptimal(x, v, dir) =>
         var lb := Fin(Snap(m.grid, t, Obj(m, x)));
         r == Some(if !Fractional(m, t, x) then IntegralAt(lb)
                   else if Le(lb, Shift(a.localUb, t.fathom)) then Branching(s.counter + 1, s.counter + 2, lb, c.branch.v, c.value)
                   else FathomedAt(lb)))
    case Arriving(_) => true
    case Syncing(_) => true
  }

  /** The work a worker has put into LPs in the first k steps. */
  function WorkDone(es: seq<Event>, k: nat, w: nat): real
    requires k <= |es|
  {
    if k == 0 then 0.0
    else
      var e := es[k - 1];
      WorkDone(es, k - 1, w) + (if e.Finishing? && e.w == w && !e.outcome.StrengthenedInfeasible? then e.work else 0.0)
  }

  /** A worker's clock is the work it has done. */
  lemma {:induction false} ClockIsWork(ss: seq<State>, es: seq<Event>, k: nat, w: nat)
    requires |ss| == |es| + 1 && k <= |es| && w < |ss[0].workers|
    ensures LogsAt(ss, es, k)[w].clock == WorkDone(es, k, w)
  {
    if k > 0 {
      ClockIsWork(ss, es, k - 1, w);
      LogsStep(ss, es, k - 1);
      hide LogsAt, EventOf, Completed, PayloadOf;
    }
  }

  lemma StepPool(m: Mip, t: Tolerances, s: State, e: Event, s': State)
    requires ValidMip(m) && Step(m, t, s, e, s')
    ensures |s'.workers| == |s.workers|
  {
    hide Record, EnqueueChildren, Snap, NoFractional, ChildBranch, StrengthenContract, BaseBox, LpContract;
    match e
    case Starting(_, _, _) =>
    case Finishing(_, _, _) =>
    case Arriving(_) =>
    case Syncing(i) => SyncHasEffect(m, t, s, i);
  }

  lemma {:induction false} PoolKept(m: Mip, t: Tolerances, ss: seq<State>, es: seq<Event>, k: nat)
    requires Setting(m, t) && Run(m, t, ss, es) && k < |ss| == |es| + 1
    ensures |ss[k].workers| == |ss[0].workers|
  {
    hide Run, Step, Setting;
    if k > 0 {
      PoolKept(m, t, ss, es, k - 1);
      StepOf(m, t, ss, es, k - 1);
      StepPool(m, t, ss[k - 1], es[k - 1], ss[k]);
    }
  }

  lemma StepOf(m: Mip, t: Tolerances, ss: seq<State>, es: seq<Event>, k: nat)
    requires Setting(m, t) && Run(m, t, ss, es) && k < |es|
    ensures ValidMip(m) && |ss| == |es| + 1 && Step(m, t, ss[k], es[k], ss[k + 1])
  {
    RunStep(m, t, ss, es, k);
  }

  function PayloadAt(e: Option<NodeEvent>): Option<Payload> {
    if e.Some? then Some(e.value.payload) else None
  }

  lemma StartReports(m: Mip, t: Tolerances, s: State, e: Event, s': State, l: Log, id: nat)
    requires ValidMip(m) && Step(m, t, s, e, s') && e.Starting? && Target(s, e) == Some(id) && s.nodes[id].status == Pending
    ensures e.w < |s.workers| && id in s.nodes && Reports(m, t, s, e.w, id, e, PayloadAt(EventOf(s, e, s', l)))
    ensures EventOf(s, e, s', l).Some? ==> EventOf(s, e, s', l).value.node == s.nodes[id].seqNo
  {
    hide StrengthenContract, BaseBox, WfTree, TopOfBacklog;
  }

  lemma FinishReports(m: Mip, t: Tolerances, s: State, e: Event, s': State, l: Log, id: nat)
    requires ValidMip(m) && e.Finishing? && e.w < |s.workers| && s.workers[e.w].current == Some(id)
    requires id in s.nodes && id <= s.counter && s.nodes[id].status == Pending && |s'.workers| == |s.workers|
    requires e.outcome.LpOptimal? ==> |e.outcome.x| == |m.cost| == |m.integral|
    requires Finished(m, t, s, s', e.w, id, e.outcome)
    ensures Reports(m, t, s, e.w, id, e, PayloadAt(EventOf(s, e, s', l)))
    ensures EventOf(s, e, s', l).Some? ==> EventOf(s, e, s', l).value.node == s.nodes[id].seqNo
  {
    hide Fractional, Snap, Obj, Rests, SameQueues, SameFindings, Keeps;
  }

  /** Every step of every run in which a worker acts on a node logs exactly what became of that node, under
      the worker's number and the node's creation number, stamped with the work the worker has done. */
  lemma EventSays(m: Mip, t: Tolerances, ss: seq<State>, es: seq<Event>, i: nat)
    requires Setting(m, t) && Run(m, t, ss, es) && i < |es| == |ss| - 1 && (es[i].Starting? || es[i].Finishing?)
    ensures var s, e, w := ss[i], es[i], es[i].w;
            && w < |s.workers| && Target(s, e).Some? && Target(s, e).value in s.nodes
            && (e.Finishing? && e.outcome.LpOptimal? ==> |e.outcome.x| == |m.cost| == |m.integral|)
            && Reports(m, t, s, w, Target(s, e).value, e, PayloadAt(EventAt(ss, es, i)))
            && (EventAt(ss, es, i).Some? ==>
                  var r := EventAt(ss, es, i).value;
                  r.worker == w && r.node == s.nodes[Target(s, e).value].seqNo && r.stamp == WorkDone(es, i + 1, w))
  {
    var s, e, s', w := ss[i], es[i], ss[i + 1], es[i].w;
    PoolKept(m, t, ss, es, i);
    RunEdits(m, t, ss, es, i);
    ActsOn(m, t, ss, es, i);
    var id := Target(s, e).value;
    var l := LogsAt(ss, es, i)[w];
    ClockIsWork(ss, es, i, w);
    StepOf(m, t, ss, es, i);
    if e.Starting? {
      StartReports(m, t, s, e, s', l, id);
    } else {
      FinishTable(m, t, ss, es, i);
      IdBelow(m, t, ss, es, i, id);
      FinishReports(m, t, s, e, s', l, id);
    }
    hide Run, Setting, Step, Reports, LogsAt, Target, Completed, Finished, Elsewhere, CanFinish, PayloadOf;
  }

  lemma IdBelow(m: Mip, t: Tolerances, ss: seq<State>, es: seq<Event>, i: nat, id: nat)
    requires Setting(m, t) && Run(m, t, ss, es) && i < |ss| && id in ss[i].nodes
    ensures id <= ss[i].counter
  {
    RunInv(m, t, ss, es, i);
    CounterBounds(m, t, ss[i]);
    hide Run, Inv;
  }

  lemma ActsOn(m: Mip, t: Tolerances, ss: seq<State>, es: seq<Event>, i: nat)
    requires Setting(m, t) && Run(m, t, ss, es) && i < |es| && (es[i].Starting? || es[i].Finishing?)
    ensures es[i].w < |ss[i].workers| && Target(ss[i], es[i]).Some?
    ensures es[i].Finishing? ==> CanFinish(m, t, ss[i], es[i].w, es[i].outcome) && ss[i].workers[es[i].w].current == Target(ss[i], es[i])
  {
    RunStep(m, t, ss, es, i);
    hide Run, Setting, StrengthenContract, BaseBox, LpContract, Finish, Start, TopOfBacklog;
  }
}
