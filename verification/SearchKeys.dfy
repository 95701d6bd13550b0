/** Creation keys: nodes and queued solutions are told apart by worker and sequence number, in every
    run; so packed identifiers are distinct and the callback's result is a function of the state. */
module SearchKeys {
  import opened Extended
  import opened Lattice
  import opened BoundWalk
  import opened SearchModel
  import opened SearchInvariant
  import opened SearchSync
  import opened SearchTheorem
  import opened SearchMerge

  // ------------------------------------------------------------------ the invariant

  predicate SameKey(a: Node, b: Node) {
    a.origin == b.origin && a.seqNo == b.seqNo
  }

  /** The root's children carry origin -1; any other node a number its worker has already given out. */
  predicate Issued(ws: seq<Worker>, a: Node) {
    (a.origin == -1 && a.seqNo < 2) || (0 <= a.origin < |ws| && a.seqNo < ws[a.origin].nextSeq)
  }

  ghost predicate NodeKeys(s: State) {
    && (forall id :: id in s.nodes && id != 0 ==> Issued(s.workers, s.nodes[id]))
    && (forall i, j :: i in s.nodes && j in s.nodes && i != 0 && j != 0 && i != j ==> !SameKey(s.nodes[i], s.nodes[j]))
  }

  /** A worker's queued solutions carry its number and distinct sequence numbers. */
  ghost predicate FoundKeys(k: Worker, w: int) {
    && (forall i :: 0 <= i < |k.found| ==> k.found[i].worker == w && k.found[i].seqNo < k.nextSol)
    && (forall i, j :: 0 <= i < j < |k.found| ==> k.found[i].seqNo != k.found[j].seqNo)
  }

  ghost predicate SolutionKeys(s: State) {
    forall w :: 0 <= w < |s.workers| ==> FoundKeys(s.workers[w], w)
  }

  /** Queued heuristic solutions carry no worker's number. */
  ghost predicate QueueKeys(s: State) {
    forall h :: h in s.queue ==> External(h)
  }

  ghost predicate Keys(s: State) {
    NodeKeys(s) && SolutionKeys(s) && QueueKeys(s)
  }

  // ------------------------------------------------------------------ steps keep it

  /** Same nodes up to bound and status, and no worker forgets a number it gave out. */
  ghost predicate KeysAlike(s: State, s': State) {
    && s'.nodes.Keys == s.nodes.Keys && (forall id :: id in s.nodes ==> SameKey(s.nodes[id], s'.nodes[id]))
    && |s'.workers| == |s.workers| && (forall w :: 0 <= w < |s.workers| ==> s.workers[w].nextSeq <= s'.workers[w].nextSeq)
  }

  lemma AlikeKeeps(s: State, s': State)
    requires NodeKeys(s) && KeysAlike(s, s')
    ensures NodeKeys(s')
  {
    forall id | id in s'.nodes && id != 0 ensures Issued(s'.workers, s'.nodes[id]) {
      assert Issued(s.workers, s.nodes[id]) && SameKey(s.nodes[id], s'.nodes[id]);
    }
    forall i, j | i in s'.nodes && j in s'.nodes && i != 0 && j != 0 && i != j ensures !SameKey(s'.nodes[i], s'.nodes[j]) {
      assert !SameKey(s.nodes[i], s.nodes[j]) && SameKey(s.nodes[i], s'.nodes[i]) && SameKey(s.nodes[j], s'.nodes[j]);
    }
  }

  lemma StartKeys(t: Tolerances, s: State, w: nat, top: nat, a: Strengthened)
    requires CanStart(s, w, top) && Dequeue(s.workers[w], top).current.value in s.nodes && Keys(s)
    ensures Keys(Start(t, s, w, top, a))
  {
    var s' := Start(t, s, w, top, a);
    assert KeysAlike(s, s');
    AlikeKeeps(s, s');
    forall v | 0 <= v < |s'.workers| ensures FoundKeys(s'.workers[v], v) { assert FoundKeys(s.workers[v], v); }
  }

  lemma RecordKeys(k: Worker, w: nat, obj: real, x: Point)
    requires FoundKeys(k, w)
    ensures FoundKeys(Record(k, w, obj, x), w)
  {
  }

  lemma CloseKeys(s: State, w: nat, k: Worker, lb: Ext, status: Status)
    requires w < |s.workers| && k.current.Some? && k.current.value in s.nodes && Keys(s)
    requires FoundKeys(k, w) && s.workers[w].nextSeq <= k.nextSeq
    ensures Keys(Close(s, w, k, lb, status))
  {
    var s' := Close(s, w, k, lb, status);
    assert KeysAlike(s, s');
    AlikeKeeps(s, s');
    forall v | 0 <= v < |s'.workers| ensures FoundKeys(s'.workers[v], v) { assert FoundKeys(s.workers[v], v); }
  }

  /** Branching gives out two new numbers. */
  lemma BranchKeys(s: State, w: nat, lb: Ext, v: nat, x: real, dir: Direction)
    requires w < |s.workers| && s.workers[w].current.Some? && s.workers[w].current.value in s.nodes && Keys(s)
    requires WellSized(s.workers[w].box, |s.workers[w].box.lo|) && v < |s.workers[w].box.lo|
    requires forall id :: id in s.nodes ==> id <= s.counter
    ensures Keys(BranchOn(s, w, s.workers[w], lb, v, x, dir))
  {
    var k := s.workers[w];
    var s' := BranchOn(s, w, k, lb, v, x, dir);
    var down, up := s.counter + 1, s.counter + 2;
    assert s'.workers[w].nextSeq == k.nextSeq + 2;
    forall id | id in s.nodes ensures id in s'.nodes && SameKey(s.nodes[id], s'.nodes[id]) && id != down && id != up { }
    assert s'.nodes[down].origin == w && s'.nodes[down].seqNo == k.nextSeq;
    assert s'.nodes[up].origin == w && s'.nodes[up].seqNo == k.nextSeq + 1;
    hide BranchOn, EnqueueChildren, ChildBranch;
    NewKeys(s, s', w, k.nextSeq, down, up);
    forall u | 0 <= u < |s'.workers| ensures FoundKeys(s'.workers[u], u) { assert FoundKeys(s.workers[u], u); }
  }

  /** Two more nodes, numbered from where their worker stood. */
  lemma NewKeys(s: State, s': State, w: nat, next: nat, down: nat, up: nat)
    requires NodeKeys(s) && w < |s.workers| == |s'.workers| && s.workers[w].nextSeq == next && s'.workers[w].nextSeq == next + 2
    requires forall v :: 0 <= v < |s.workers| && v != w ==> s'.workers[v] == s.workers[v]
    requires s'.nodes.Keys == s.nodes.Keys + {down, up} && down !in s.nodes && up !in s.nodes
    requires forall id :: id in s.nodes ==> SameKey(s.nodes[id], s'.nodes[id])
    requires s'.nodes[down].origin == w == s'.nodes[up].origin && s'.nodes[down].seqNo == next && s'.nodes[up].seqNo == next + 1
    ensures NodeKeys(s')
  {
    forall id | id in s'.nodes && id != 0 ensures Issued(s'.workers, s'.nodes[id]) {
      if id in s.nodes { assert Issued(s.workers, s.nodes[id]); }
    }
    forall i, j | i in s'.nodes && j in s'.nodes && i != 0 && j != 0 && i != j ensures !SameKey(s'.nodes[i], s'.nodes[j]) {
      if i in s.nodes { assert Issued(s.workers, s.nodes[i]); }
      if j in s.nodes { assert Issued(s.workers, s.nodes[j]); }
      if i in s.nodes && j in s.nodes { assert !SameKey(s.nodes[i], s.nodes[j]); }
    }
  }

  lemma FinishKeys(m: Mip, t: Tolerances, s: State, w: nat, lp: Outcome)
    requires ValidMip(m) && CanFinish(m, t, s, w, lp) && Keys(s) && forall id :: id in s.nodes ==> id <= s.counter
    ensures Keys(Finish(m, t, s, w, lp))
  {
    var k := s.workers[w];
    assert FoundKeys(k, w);
    match lp {
      case StrengthenedInfeasible => CloseKeys(s, w, k, PosInf, Infeasible);
      case DualUnbounded => CloseKeys(s, w, k, PosInf, Infeasible);
      case Cutoff => CloseKeys(s, w, k, k.localUb, Fathomed);
      case LpOptimal(x, v, dir) =>
        var lb := Fin(Snap(m.grid, t, Obj(m, x)));
        if NoFractional(m, t, x) {
          RecordKeys(k, w, Obj(m, x), x);
          CloseKeys(s, w, Record(k, w, Obj(m, x), x), lb, IntegerFeasible);
        } else if Le(lb, Shift(k.localUb, t.fathom)) {
          BranchKeys(s, w, lb, v, x[v], dir);
        } else {
          CloseKeys(s, w, k, lb, Fathomed);
        }
      case LimitReached =>
        var s' := s.(workers := s.workers[w := k.(phase := Stalled)]);
        assert KeysAlike(s, s');
        AlikeKeeps(s, s');
      case NumericalTrouble =>
        var lb := s.nodes[k.current.value].lb;
        CloseKeys(s, w, k.(ceiling := Min(lb, k.ceiling)), lb, Numerical);
    }
  }

  lemma SyncKeys(m: Mip, t: Tolerances, s: State, i: SyncInput)
    requires ValidMip(m) && CanSync(m, t, s, i) && Keys(s)
    ensures Keys(Sync(m.grid, t, s, i))
  {
    hide Sync, CanSync, NodeKeys;
    SyncHasEffect(m, t, s, i);
    var s' := Sync(m.grid, t, s, i);
    forall w | 0 <= w < |s.workers| ensures s.workers[w].nextSeq <= s'.workers[w].nextSeq && FoundKeys(s'.workers[w], w) {
      assert Refreshed(s.workers[w], s'.workers[w], s'.best.ub);
    }
    assert KeysAlike(s, s');
    AlikeKeeps(s, s');
    FutureExternal(s.queue, s.horizon);
  }

  lemma FutureExternal(queue: seq<Heuristic>, horizon: real)
    requires forall h :: h in queue ==> External(h)
    ensures forall h :: h in Future(queue, horizon) ==> External(h)
  {
    forall h | h in Future(queue, horizon) ensures External(h) {
      assert h in multiset(Future(queue, horizon));
      HorizonSplits(queue, horizon, h);
      assert h in multiset(queue);
    }
  }

  lemma StepKeys(m: Mip, t: Tolerances, s: State, e: Event, s': State)
    requires ValidMip(m) && Step(m, t, s, e, s') && Keys(s) && forall id :: id in s.nodes ==> id <= s.counter
    ensures Keys(s')
  {
    match e
    case Starting(w, top, a) => StartKeys(t, s, w, top, a);
    case Finishing(w, lp, _) => FinishKeys(m, t, s, w, lp);
    case Arriving(h) => AlikeKeeps(s, s');
    case Syncing(i) => SyncKeys(m, t, s, i);
  }

  lemma InitKeys(m: Mip, t: Tolerances, s: State)
    requires ValidMip(m) && Init(m, t, s)
    ensures Keys(s)
  {
    assert 1 in {1, 2} && 2 in {1, 2};
  }

  /** Keys are unique in every state of every run. */
  lemma {:induction false} RunKeys(m: Mip, t: Tolerances, ss: seq<State>, es: seq<Event>, k: nat)
    requires Setting(m, t) && Run(m, t, ss, es) && k < |ss|
    ensures Keys(ss[k])
    decreases k
  {
    hide Inv, Keys, Step, Init;
    if k == 0 {
      InitKeys(m, t, ss[0]);
    } else {
      RunKeys(m, t, ss, es, k - 1);
      RunInv(m, t, ss, es, k - 1);
      RunStep(m, t, ss, es, k - 1);
      CounterBounds(m, t, ss[k - 1]);
      StepKeys(m, t, ss[k - 1], es[k - 1], ss[k]);
    }
  }

  lemma CounterBounds(m: Mip, t: Tolerances, s: State)
    requires ValidMip(m) && Inv(m, t, s)
    ensures forall id :: id in s.nodes ==> id <= s.counter
  {
  }

  // ------------------------------------------------------------------ packed identifiers

  const WORD: int := 0x1_0000_0000

  /** get_id_packed: origin + 1 in the high word, the sequence number's low 32 bits below. */
  function Packed(origin: int, seqNo: nat): (id: int)
    requires -1 <= origin
    ensures id / WORD == origin + 1 && id % WORD == seqNo % WORD
  {
    (origin + 1) * WORD + seqNo % WORD
  }

  lemma PackedInjective(a: int, i: nat, b: int, j: nat)
    requires -1 <= a && -1 <= b && i < WORD && j < WORD && Packed(a, i) == Packed(b, j)
    ensures a == b && i == j
  {
  }

  /** In every run, as long as sequence numbers fit in 32 bits, held nodes have distinct packed ids. */
  lemma HeldIdsDistinct(m: Mip, t: Tolerances, ss: seq<State>, es: seq<Event>, k: nat, i: nat, j: nat)
    requires Setting(m, t) && Run(m, t, ss, es) && k < |ss|
    requires i in HeldList(ss[k].workers) && j in HeldList(ss[k].workers) && i != j
    requires i in ss[k].nodes && j in ss[k].nodes ==> ss[k].nodes[i].seqNo < WORD && ss[k].nodes[j].seqNo < WORD
    ensures i in ss[k].nodes && j in ss[k].nodes && -1 <= ss[k].nodes[i].origin && -1 <= ss[k].nodes[j].origin
    ensures Packed(ss[k].nodes[i].origin, ss[k].nodes[i].seqNo) != Packed(ss[k].nodes[j].origin, ss[k].nodes[j].seqNo)
  {
    RunInv(m, t, ss, es, k);
    RunKeys(m, t, ss, es, k);
    var s := ss[k];
    HeldKnown(m, s);
    assert s.nodes[0].status != Pending;
    hide Run, Inv;
    var a, b := s.nodes[i], s.nodes[j];
    assert Issued(s.workers, a) && Issued(s.workers, b) && !SameKey(a, b);
    if Packed(a.origin, a.seqNo) == Packed(b.origin, b.seqNo) {
      PackedInjective(a.origin, a.seqNo, b.origin, b.seqNo);
    }
  }

  // ------------------------------------------------------------------ a deterministic callback

  lemma {:induction false} FoundKeyed(ws: seq<Worker>, base: nat)
    requires forall w :: 0 <= w < |ws| ==> FoundKeys(ws[w], base + w)
    ensures Keyed(AllFound(ws)) && forall x :: x in AllFound(ws) ==> base <= x.worker
    decreases |ws|
  {
    if ws != [] {
      assert FoundKeys(ws[0], base + 0);
      forall w | 0 <= w < |ws[1..]| ensures FoundKeys(ws[1..][w], base + 1 + w) { assert FoundKeys(ws[w + 1], base + (w + 1)); }
      FoundKeyed(ws[1..], base + 1);
      OwnKeyed(ws[0], base);
      KeyedConcat(ws[0].found, AllFound(ws[1..]), base);
    }
  }

  lemma OwnKeyed(k: Worker, w: int)
    requires FoundKeys(k, w)
    ensures Keyed(k.found) && forall x :: x in k.found ==> x.worker == w
  {
    forall x, y | x in k.found && y in k.found && x.seqNo == y.seqNo ensures x == y {
      var i :| 0 <= i < |k.found| && k.found[i] == x;
      var j :| 0 <= j < |k.found| && k.found[j] == y;
    }
  }

  lemma KeyedConcat(a: seq<Solution>, b: seq<Solution>, w: int)
    requires Keyed(a) && Keyed(b) && (forall x :: x in a ==> x.worker == w) && (forall x :: x in b ==> w < x.worker)
    ensures Keyed(a + b)
  {
  }

  lemma KeyedItems(a: seq<Solution>, b: seq<Solution>)
    requires multiset(a) == multiset(b) && Keyed(b)
    ensures Keyed(a)
  {
    forall x | x in a ensures x in b { assert x in multiset(a); }
  }

  ghost predicate EarlierCreated(nodes: Nodes, i: nat, j: nat) {
    i in nodes && j in nodes &&
    (nodes[i].origin < nodes[j].origin || (nodes[i].origin == nodes[j].origin && nodes[i].seqNo < nodes[j].seqNo))
  }

  /** The order in which backlogs are dealt again is determined by their union. */
  lemma DealOrderUnique(s: State, a: seq<nat>, b: seq<nat>)
    requires NodeKeys(s) && multiset(a) == multiset(b) && InCreationOrder(s.nodes, a) && InCreationOrder(s.nodes, b) && 0 !in a
    ensures a == b
  {
    var less: (nat, nat) -> bool := (i: nat, j: nat) => EarlierCreated(s.nodes, i, j);
    forall i, j | 0 <= i < j < |b| ensures !less(b[j], b[i]) { }
    forall x, y | x in a && y in a && x != y ensures less(x, y) || less(y, x) {
      assert !SameKey(s.nodes[x], s.nodes[y]);
    }
    SortedUnique(a, b, less);
  }

  /** What may differ between two executions of one callback: only the orders of collection. */
  ghost predicate SameCollections(i: SyncInput, j: SyncInput) {
    && multiset(i.dives) == multiset(j.dives) && i.gaps == j.gaps && i.step == j.step && i.overBudget == j.overBudget
  }

  /** The callback is deterministic: whatever orders the items were collected in, the next state is
      the same. */
  lemma SyncDeterministic(m: Mip, t: Tolerances, ss: seq<State>, es: seq<Event>, k: nat, i: SyncInput, j: SyncInput)
    requires Setting(m, t) && Run(m, t, ss, es) && k < |ss| && CanSync(m, t, ss[k], i) && CanSync(m, t, ss[k], j)
    requires SameCollections(i, j) && Keyed(i.dives)
    ensures i == j && Sync(m.grid, t, ss[k], i) == Sync(m.grid, t, ss[k], j)
  {
    RunKeys(m, t, ss, es, k);
    RunInv(m, t, ss, es, k);
    var s := ss[k];
    RootNotHeld(m, s);
    hide Run, Inv, Sync;
    InputsAgree(m, t, s, i, j);
  }

  lemma RootNotHeld(m: Mip, s: State)
    requires ValidMip(m) && ShapeInv(m, s)
    ensures 0 !in AllBacklogs(s.workers)
  {
    HeldKnown(m, s);
    BacklogsListed(s.workers);
  }

  lemma {:induction false} BacklogsListed(ws: seq<Worker>)
    ensures forall id :: id in AllBacklogs(ws) ==> id in HeldList(ws)
  {
    if ws != [] { BacklogsListed(ws[1..]); }
  }

  lemma InputsAgree(m: Mip, t: Tolerances, s: State, i: SyncInput, j: SyncInput)
    requires ValidMip(m) && Keys(s) && CanSync(m, t, s, i) && CanSync(m, t, s, j) && SameCollections(i, j)
    requires Keyed(i.dives) && 0 !in AllBacklogs(s.workers)
    ensures i == j
  {
    assert multiset(i.found) == multiset(j.found) && multiset(i.due) == multiset(j.due) && multiset(i.order) == multiset(j.order);
    FoundKeyed(s.workers, 0);
    KeyedItems(i.found, AllFound(s.workers));
    SolutionsUnique(i.found, j.found);
    SolutionsUnique(i.dives, j.dives);
    DueExternal(s.queue, s.horizon, i.due);
    HeuristicsUnique(i.due, j.due);
    OrderHasNoRoot(s, i.order);
    DealOrderUnique(s, i.order, j.order);
  }

  lemma DueExternal(queue: seq<Heuristic>, horizon: real, due: seq<Heuristic>)
    requires multiset(due) == multiset(Due(queue, horizon)) && forall h :: h in queue ==> External(h)
    ensures forall h :: h in due ==> External(h)
  {
    forall h | h in due ensures External(h) {
      assert h in multiset(due);
      HorizonSplits(queue, horizon, h);
      assert h in multiset(queue);
    }
  }

  lemma OrderHasNoRoot(s: State, order: seq<nat>)
    requires multiset(order) == multiset(AllBacklogs(s.workers)) && 0 !in AllBacklogs(s.workers)
    ensures 0 !in order
  {
    assert 0 in order ==> 0 in multiset(order);
  }
}
