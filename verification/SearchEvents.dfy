/** The event log of the workers. Every node a worker closes or branches is logged with a sequence
    number that is never reset; the callback collects the logs and sorts them. Events carry data their
    order does not compare, so that the sorted batch is well defined rests on the numbers. */
module SearchEvents {
  import opened Extended
  import opened Lattice
  import opened BoundWalk
  import opened SearchModel
  import opened SearchInvariant
  import opened SearchSteps
  import opened SearchTheorem
  import opened SearchMerge
  import opened SearchKeys

  datatype Payload =
    | Branching(down: nat, up: nat, lb: Ext, variable: nat, value: real)
    | IntegralAt(objective: Ext)
    | FathomedAt(lb: Ext)
    | FoundInfeasible
    | FoundNumerical

  /** `node` is the creation number of the node, which its origin gave it; nodes of different origins
      may share it. */
  datatype NodeEvent = NodeEvent(payload: Payload, stamp: real, worker: int, node: nat, sequence: nat)

  /** bb_event_t::operator<, which skips the payload */
  predicate EventLess(a: NodeEvent, b: NodeEvent) {
    if a.stamp != b.stamp then a.stamp < b.stamp
    else if a.worker != b.worker then a.worker < b.worker
    else if a.node != b.node then a.node < b.node
    else a.sequence < b.sequence
  }

  /** A worker's work clock, its events since the last callback and the next sequence number. */
  datatype Log = Log(clock: real, events: seq<NodeEvent>, next: nat)

  // ------------------------------------------------------------------ logging

  /** record_event */
  function Recorded(l: Log, event: NodeEvent): Log {
    l.(events := l.events + [event], next := l.next + 1)
  }

  /** on_node_completed: what is logged of a node that reached its final status; `counter` is the last
      tree number given out before its children. */
  function PayloadOf(c: Node, counter: nat): Payload
    requires c.status != Pending
  {
    match c.status
    case Infeasible => FoundInfeasible
    case Fathomed => FathomedAt(c.lb)
    case IntegerFeasible => IntegralAt(c.lb)
    case HasChildren => Branching(counter + 1, counter + 2, c.lb, c.branch.v, c.value)
    case Numerical => FoundNumerical
  }

  /** The worker that acts in a step. */
  function Actor(e: Event): Option<nat> {
    match e
    case Starting(w, _, _) => Some(w)
    case Finishing(w, _, _) => Some(w)
    case Arriving(_) => None
    case Syncing(_) => None
  }

  /** The node that worker acts on. */
  ghost function Target(s: State, e: Event): Option<nat> {
    match e
    case Starting(w, top, _) => if CanStart(s, w, top) then Dequeue(s.workers[w], top).current else None
    case Finishing(w, _, _) => if w < |s.workers| then s.workers[w].current else None
    case Arriving(_) => None
    case Syncing(_) => None
  }

  /** The node, if any, that leaves the open leaves in a step: pruned, closed or branched. */
  ghost function Completed(s: State, e: Event, s': State): (id: Option<nat>)
    ensures id.Some? ==> id.value in s'.nodes && s'.nodes[id.value].status != Pending && Actor(e).Some?
  {
    var id := Target(s, e);
    if id.Some? && id.value in s'.nodes && s'.nodes[id.value].status != Pending then id else None
  }

  /** The work clock advances with an LP solve, not with bound strengthening alone. */
  function Ticked(clock: real, e: Event): real {
    if e.Finishing? && !e.outcome.StrengthenedInfeasible? then clock + e.work else clock
  }

  /** The event a step logs, given the acting worker's log. */
  ghost function EventOf(s: State, e: Event, s': State, l: Log): Option<NodeEvent> {
    var id := Completed(s, e, s');
    if id.None? then None
    else Some(NodeEvent(PayloadOf(s'.nodes[id.value], s.counter), Ticked(l.clock, e), Actor(e).value,
                        s'.nodes[id.value].seqNo, l.next))
  }

  /** One step of the logs. */
  ghost function Logged(s: State, e: Event, s': State, logs: seq<Log>): (r: seq<Log>)
    ensures |r| == |logs|
  {
    if e.Syncing? then seq(|logs|, i requires 0 <= i < |logs| => logs[i].(events := []))
    else if Actor(e).None? || Actor(e).value >= |logs| then logs
    else
      var w := Actor(e).value;
      var l, event := logs[w].(clock := Ticked(logs[w].clock, e)), EventOf(s, e, s', logs[w]);
      logs[w := if event.None? then l else Recorded(l, event.value)]
  }

  /** The logs after `k` steps of a run, all empty at the start. */
  ghost function LogsAt(ss: seq<State>, es: seq<Event>, k: nat): (r: seq<Log>)
    requires |ss| == |es| + 1 && k <= |es|
    ensures |r| == |ss[0].workers|
  {
    if k == 0 then seq(|ss[0].workers|, _ => Log(0.0, [], 0))
    else Logged(ss[k - 1], es[k - 1], ss[k], LogsAt(ss, es, k - 1))
  }

  /** What the callback collects. */
  function Batch(logs: seq<Log>): seq<NodeEvent> {
    if logs == [] then [] else logs[0].events + Batch(logs[1..])
  }

  /** The event logged by step `i` of a run. */
  ghost function EventAt(ss: seq<State>, es: seq<Event>, i: nat): Option<NodeEvent>
    requires |ss| == |es| + 1 && i < |es|
  {
    var logs := LogsAt(ss, es, i);
    if Actor(es[i]).None? || Actor(es[i]).value >= |logs| then None
    else EventOf(ss[i], es[i], ss[i + 1], logs[Actor(es[i]).value])
  }

  // ------------------------------------------------------------------ sequence numbers

  /** What one step does to a worker's counter. */
  lemma CounterStep(ss: seq<State>, es: seq<Event>, i: nat, w: nat)
    requires |ss| == |es| + 1 && i < |es| && w < |ss[0].workers|
    ensures LogsAt(ss, es, i)[w].next <= LogsAt(ss, es, i + 1)[w].next
    ensures EventAt(ss, es, i).Some? && EventAt(ss, es, i).value.worker == w ==>
              EventAt(ss, es, i).value.sequence == LogsAt(ss, es, i)[w].next < LogsAt(ss, es, i + 1)[w].next
  {
    hide Completed, PayloadOf, LogsAt;
    LogsStep(ss, es, i);
  }

  lemma LogsStep(ss: seq<State>, es: seq<Event>, i: nat)
    requires |ss| == |es| + 1 && i < |es|
    ensures LogsAt(ss, es, i + 1) == Logged(ss[i], es[i], ss[i + 1], LogsAt(ss, es, i))
  {
  }

  lemma {:induction false} CounterGrows(ss: seq<State>, es: seq<Event>, i: nat, k: nat, w: nat)
    requires |ss| == |es| + 1 && i <= k <= |es| && w < |ss[0].workers|
    ensures LogsAt(ss, es, i)[w].next <= LogsAt(ss, es, k)[w].next
    decreases k
  {
    if i < k {
      CounterGrows(ss, es, i, k - 1, w);
      CounterStep(ss, es, k - 1, w);
    }
  }

  /** Worker and sequence number identify an event over a whole run, across callbacks. */
  lemma SequenceIdentifies(ss: seq<State>, es: seq<Event>, i: nat, j: nat)
    requires |ss| == |es| + 1 && i < |es| && j < |es|
    requires EventAt(ss, es, i).Some? && EventAt(ss, es, j).Some?
    requires EventAt(ss, es, i).value.worker == EventAt(ss, es, j).value.worker
    requires EventAt(ss, es, i).value.sequence == EventAt(ss, es, j).value.sequence
    ensures i == j
  {
    var w := EventAt(ss, es, i).value.worker;
    hide LogsAt, Completed, PayloadOf;
    CounterStep(ss, es, i, w);
    CounterStep(ss, es, j, w);
    hide EventAt;
    if i < j {
      CounterGrows(ss, es, i + 1, j, w);
    } else if j < i {
      CounterGrows(ss, es, j + 1, i, w);
    }
  }

  // ------------------------------------------------------------------ the batch

  /** No callback among the steps from `i` on, up to `k`. */
  ghost predicate SameHorizon(es: seq<Event>, i: nat, k: nat) {
    i <= k <= |es| && forall l :: i <= l < k ==> !es[l].Syncing?
  }

  /** `x` was logged by a step since the last callback before step `k`. */
  ghost predicate LoggedBefore(ss: seq<State>, es: seq<Event>, k: nat, x: NodeEvent)
    requires |ss| == |es| + 1 && k <= |es|
  {
    exists i: nat :: i < k && SameHorizon(es, i, k) && EventAt(ss, es, i) == Some(x)
  }

  lemma LoggedBeforeStep(ss: seq<State>, es: seq<Event>, k: nat, x: NodeEvent)
    requires |ss| == |es| + 1 && k < |es|
    ensures LoggedBefore(ss, es, k + 1, x) <==>
              !es[k].Syncing? && (LoggedBefore(ss, es, k, x) || EventAt(ss, es, k) == Some(x))
  {
    hide EventAt;
    if LoggedBefore(ss, es, k + 1, x) {
      var i: nat :| i < k + 1 && SameHorizon(es, i, k + 1) && EventAt(ss, es, i) == Some(x);
      assert i < k ==> SameHorizon(es, i, k);
    }
    if !es[k].Syncing? {
      if LoggedBefore(ss, es, k, x) {
        var i: nat :| i < k && SameHorizon(es, i, k) && EventAt(ss, es, i) == Some(x);
        assert SameHorizon(es, i, k + 1);
      }
      if EventAt(ss, es, k) == Some(x) { assert SameHorizon(es, k, k + 1); }
    }
  }

  /** Each log holds exactly its worker's events since the last callback. */
  lemma {:induction false} LogHolds(ss: seq<State>, es: seq<Event>, k: nat, w: nat, x: NodeEvent)
    requires |ss| == |es| + 1 && k <= |es| && w < |ss[0].workers|
    ensures x in LogsAt(ss, es, k)[w].events <==> x.worker == w && LoggedBefore(ss, es, k, x)
    decreases k
  {
    if k == 0 {
      assert !LoggedBefore(ss, es, k, x);
    } else {
      LogHolds(ss, es, k - 1, w, x);
      LoggedBeforeStep(ss, es, k - 1, x);
      LogsStep(ss, es, k - 1);
      hide LogsAt, LoggedBefore, Completed, PayloadOf;
    }
  }

  lemma {:induction false} BatchLists(logs: seq<Log>, x: NodeEvent)
    ensures x in Batch(logs) <==> exists w :: 0 <= w < |logs| && x in logs[w].events
  {
    if logs != [] {
      BatchLists(logs[1..], x);
      if x in Batch(logs[1..]) {
        var w :| 0 <= w < |logs[1..]| && x in logs[1..][w].events;
        assert x in logs[w + 1].events;
      }
      if exists w :: 0 <= w < |logs| && x in logs[w].events {
        var w :| 0 <= w < |logs| && x in logs[w].events;
        if w > 0 { assert x in logs[1..][w - 1].events; }
      }
    }
  }

  /** What a callback collects is what was logged since the one before, whoever logged it. */
  lemma BatchIsHorizon(ss: seq<State>, es: seq<Event>, k: nat, x: NodeEvent)
    requires |ss| == |es| + 1 && k <= |es|
    ensures x in Batch(LogsAt(ss, es, k)) <==> LoggedBefore(ss, es, k, x)
  {
    var logs := LogsAt(ss, es, k);
    BatchLists(logs, x);
    forall w: nat | w < |logs| ensures x in logs[w].events <==> x.worker == w && LoggedBefore(ss, es, k, x) {
      LogHolds(ss, es, k, w, x);
    }
    if LoggedBefore(ss, es, k, x) {
      LoggedByPool(ss, es, k, x);
      assert x in logs[x.worker].events;
    }
  }

  lemma LoggedByPool(ss: seq<State>, es: seq<Event>, k: nat, x: NodeEvent)
    requires |ss| == |es| + 1 && k <= |es| && LoggedBefore(ss, es, k, x)
    ensures 0 <= x.worker < |ss[0].workers|
  {
    var i: nat :| i < k && SameHorizon(es, i, k) && EventAt(ss, es, i) == Some(x);
    hide Completed, PayloadOf;
  }

  /** Events of one batch are told apart by worker and sequence number. */
  lemma BatchKeyed(ss: seq<State>, es: seq<Event>, k: nat, x: NodeEvent, y: NodeEvent)
    requires |ss| == |es| + 1 && k <= |es| && x in Batch(LogsAt(ss, es, k)) && y in Batch(LogsAt(ss, es, k))
    requires x.worker == y.worker && x.sequence == y.sequence
    ensures x == y
  {
    BatchIsHorizon(ss, es, k, x);
    BatchIsHorizon(ss, es, k, y);
    hide EventAt, LogsAt, Batch;
    var i: nat :| i < k && SameHorizon(es, i, k) && EventAt(ss, es, i) == Some(x);
    var j: nat :| j < k && SameHorizon(es, j, k) && EventAt(ss, es, j) == Some(y);
    SequenceIdentifies(ss, es, i, j);
  }

  /** Whatever order the workers are polled in, the sorted batch is the same, payloads included. */
  lemma EventsUnique(ss: seq<State>, es: seq<Event>, k: nat, a: seq<NodeEvent>, b: seq<NodeEvent>)
    requires |ss| == |es| + 1 && k <= |es|
    requires multiset(a) == multiset(b) == multiset(Batch(LogsAt(ss, es, k)))
    requires Ordered(a, EventLess) && Ordered(b, EventLess)
    ensures a == b
  {
    forall x, y | x in a && y in a && x != y ensures EventLess(x, y) || EventLess(y, x) {
      assert x in multiset(a) && y in multiset(a);
      if x.worker == y.worker && x.sequence == y.sequence { BatchKeyed(ss, es, k, x, y); }
    }
    SortedUnique(a, b, EventLess);
  }

  // ------------------------------------------------------------------ every node is logged once

  lemma StepTarget(m: Mip, t: Tolerances, s: State, e: Event, s': State)
    requires Setting(m, t) && Inv(m, t, s) && Step(m, t, s, e, s')
    ensures Target(s, e).Some? ==> Target(s, e).value in s.nodes && s.nodes[Target(s, e).value].status == Pending
  {
    hide BoxInv, LastInv, ValueInv, UbInv, TreeInv, QueueInv;
    match e
    case Starting(w, top, _) =>
      DequeueHolds(s.workers[w], top);
      HeldPending(s, w, Dequeue(s.workers[w], top).current.value);
    case Finishing(w, _, _) =>
      HeldPending(s, w, s.workers[w].current.value);
    case Arriving(_) =>
    case Syncing(_) =>
  }

  /** Leaves edited one at a time, the other nodes untouched and any new ones open. */
  ghost predicate Edited(nodes: Nodes, nodes': Nodes, id: Option<nat>) {
    && nodes.Keys <= nodes'.Keys
    && (forall j :: j in nodes && Some(j) != id ==> nodes'[j] == nodes[j])
    && (forall j :: j in nodes' && j !in nodes ==> nodes'[j].status == Pending)
  }

  lemma StartEdits(t: Tolerances, s: State, w: nat, top: nat, a: Strengthened)
    requires CanStart(s, w, top) && Dequeue(s.workers[w], top).current.value in s.nodes
    ensures Edited(s.nodes, Start(t, s, w, top, a).nodes, Dequeue(s.workers[w], top).current)
  {
  }

  lemma CloseEdits(s: State, w: nat, k: Worker, lb: Ext, status: Status)
    requires w < |s.workers| && k.current.Some? && k.current.value in s.nodes
    ensures Edited(s.nodes, Close(s, w, k, lb, status).nodes, k.current)
  {
  }

  lemma BranchEdits(s: State, w: nat, k: Worker, lb: Ext, v: nat, x: real, dir: Direction)
    requires w < |s.workers| && k.current.Some? && k.current.value in s.nodes
    requires WellSized(k.box, |k.box.lo|) && v < |k.box.lo| && forall id :: id in s.nodes ==> id <= s.counter
    ensures Edited(s.nodes, BranchOn(s, w, k, lb, v, x, dir).nodes, k.current)
  {
    hide ChildBranch, EnqueueChildren;
  }

  lemma FinishEdits(m: Mip, t: Tolerances, s: State, w: nat, lp: Outcome)
    requires ValidMip(m) && CanFinish(m, t, s, w, lp) && forall id :: id in s.nodes ==> id <= s.counter
    ensures Edited(s.nodes, Finish(m, t, s, w, lp).nodes, s.workers[w].current)
  {
    hide Edited, Close, BranchOn;
    var k := s.workers[w];
    match lp {
      case StrengthenedInfeasible => CloseEdits(s, w, k, PosInf, Infeasible);
      case DualUnbounded => CloseEdits(s, w, k, PosInf, Infeasible);
      case Cutoff => CloseEdits(s, w, k, k.localUb, Fathomed);
      case LpOptimal(x, v, dir) =>
        var lb := Fin(Snap(m.grid, t, Obj(m, x)));
        if NoFractional(m, t, x) {
          CloseEdits(s, w, Record(k, w, Obj(m, x), x), lb, IntegerFeasible);
        } else if Le(lb, Shift(k.localUb, t.fathom)) {
          BranchEdits(s, w, k, lb, v, x[v], dir);
        } else {
          CloseEdits(s, w, k, lb, Fathomed);
        }
      case LimitReached => Unedited(s.nodes, k.current);
      case NumericalTrouble =>
        var lb := s.nodes[k.current.value].lb;
        CloseEdits(s, w, k.(ceiling := Min(lb, k.ceiling)), lb, Numerical);
    }
  }

  lemma Unedited(nodes: Nodes, id: Option<nat>)
    ensures Edited(nodes, nodes, id)
  {
  }

  lemma StepEdits(m: Mip, t: Tolerances, s: State, e: Event, s': State)
    requires ValidMip(m) && Step(m, t, s, e, s') && forall id :: id in s.nodes ==> id <= s.counter
    ensures Edited(s.nodes, s'.nodes, Target(s, e))
  {
    hide Edited, Start, Finish, CanFinish, CanSync;
    match e
    case Starting(w, top, a) => StartEdits(t, s, w, top, a);
    case Finishing(w, lp, _) =>
      FinishEdits(m, t, s, w, lp);
      FinishTarget(m, t, s, w, lp);
    case Arriving(_) => Unedited(s.nodes, None);
    case Syncing(_) => Unedited(s.nodes, None);
  }

  lemma FinishTarget(m: Mip, t: Tolerances, s: State, w: nat, lp: Outcome)
    requires ValidMip(m) && CanFinish(m, t, s, w, lp)
    ensures w < |s.workers|
  {
  }

  /** What step `k` of a run does to the tree: the node acted on was open, the others stay. */
  lemma RunEdits(m: Mip, t: Tolerances, ss: seq<State>, es: seq<Event>, k: nat)
    requires Setting(m, t) && Run(m, t, ss, es) && k < |es|
    ensures |ss| == |es| + 1 && Edited(ss[k].nodes, ss[k + 1].nodes, Target(ss[k], es[k]))
    ensures Target(ss[k], es[k]).Some? ==>
              Target(ss[k], es[k]).value in ss[k].nodes && ss[k].nodes[Target(ss[k], es[k]).value].status == Pending
  {
    hide Inv, Step, Target, Edited;
    RunInv(m, t, ss, es, k);
    RunStep(m, t, ss, es, k);
    CounterBounds(m, t, ss[k]);
    StepTarget(m, t, ss[k], es[k], ss[k + 1]);
    StepEdits(m, t, ss[k], es[k], ss[k + 1]);
  }

  /** A node that has left the open leaves stays out. */
  lemma {:induction false} StaysClosed(m: Mip, t: Tolerances, ss: seq<State>, es: seq<Event>, i: nat, k: nat, id: nat)
    requires Setting(m, t) && Run(m, t, ss, es) && i <= k < |ss| == |es| + 1
    requires id in ss[i].nodes && ss[i].nodes[id].status != Pending
    ensures id in ss[k].nodes && ss[k].nodes[id].status != Pending
    decreases k
  {
    hide Run, Target, Setting;
    if i < k {
      StaysClosed(m, t, ss, es, i, k - 1, id);
      RunEdits(m, t, ss, es, k - 1);
    }
  }

  /** Step `i` of the run logs node `id`. */
  ghost predicate LogsNode(ss: seq<State>, es: seq<Event>, i: nat, id: nat) {
    |ss| == |es| + 1 && i < |es| && Completed(ss[i], es[i], ss[i + 1]) == Some(id)
  }

  /** No node is logged twice. */
  lemma LoggedOnce(m: Mip, t: Tolerances, ss: seq<State>, es: seq<Event>, i: nat, j: nat, id: nat)
    requires Setting(m, t) && Run(m, t, ss, es) && LogsNode(ss, es, i, id) && LogsNode(ss, es, j, id)
    ensures i == j
  {
    if i < j { LoggedOrder(m, t, ss, es, i, j, id); }
    if j < i { LoggedOrder(m, t, ss, es, j, i, id); }
  }

  lemma LoggedOrder(m: Mip, t: Tolerances, ss: seq<State>, es: seq<Event>, i: nat, j: nat, id: nat)
    requires Setting(m, t) && Run(m, t, ss, es) && i < j && LogsNode(ss, es, i, id)
    ensures !LogsNode(ss, es, j, id)
  {
    hide Run, Target, Setting;
    if LogsNode(ss, es, j, id) {
      StaysClosed(m, t, ss, es, i + 1, j, id);
      RunEdits(m, t, ss, es, j);
      assert false;
    }
  }

  /** The log is complete: at every moment of every run the nodes below the root that are no longer
      open are exactly those logged so far. */
  lemma {:induction false} ClosedIsLogged(m: Mip, t: Tolerances, ss: seq<State>, es: seq<Event>, k: nat, id: nat)
    requires Setting(m, t) && Run(m, t, ss, es) && k < |ss| == |es| + 1 && id != 0
    ensures id in ss[k].nodes && ss[k].nodes[id].status != Pending <==> exists i: nat :: i < k && LogsNode(ss, es, i, id)
    decreases k
  {
    hide Run, Target, Setting;
    if exists i: nat :: i < k && LogsNode(ss, es, i, id) {
      var i: nat :| i < k && LogsNode(ss, es, i, id);
      StaysClosed(m, t, ss, es, i + 1, k, id);
    } else if k > 0 {
      ClosedIsLogged(m, t, ss, es, k - 1, id);
      assert !LogsNode(ss, es, k - 1, id);
      RunEdits(m, t, ss, es, k - 1);
    } else if id in ss[0].nodes {
      InitOpen(m, t, ss, es, id);
    }
  }

  lemma InitOpen(m: Mip, t: Tolerances, ss: seq<State>, es: seq<Event>, id: nat)
    requires Setting(m, t) && Run(m, t, ss, es) && id in ss[0].nodes && id != 0
    ensures ss[0].nodes[id].status == Pending
  {
    assert id in {1, 2};
  }
}
