/** The deterministic parallel branch-and-bound as a step machine. Workers start and finish nodes
    between synchronisation points; a serial callback merges their findings. The LP solver, bound
    strengthening, diving and primal heuristics are oracles constrained by contracts. */
module SearchModel {
  import opened Extended
  import opened Reals
  import opened Lattice
  import opened BoundWalk

  // ------------------------------------------------------------------ the problem

  datatype LinearRow = LinearRow(coef: seq<real>, lo: Ext, hi: Ext)

  datatype Mip = Mip(box: Box, integral: seq<bool>, rows: seq<LinearRow>, cost: seq<real>, grid: Grid)

  ghost predicate ValidMip(m: Mip) {
    && WellSized(m.box, |m.cost|) && |m.integral| == |m.cost|
    && (forall i :: 0 <= i < |m.rows| ==> |m.rows[i].coef| == |m.cost|)
    && ValidGrid(m.grid)
  }

  function Obj(m: Mip, p: Point): real
    requires |p| == |m.cost|
  {
    Dot(m.cost, p)
  }

  ghost predicate Relaxed(m: Mip, p: Point)
    requires ValidMip(m)
  {
    && In(p, m.box)
    && forall i :: 0 <= i < |m.rows| ==> Between(m.rows[i].lo, Dot(m.rows[i].coef, p), m.rows[i].hi)
  }

  predicate IsIntegral(x: real) {
    x == x.Floor as real
  }

  /** is_fractional: further than the tolerance from the nearest integer. */
  predicate IsFractional(x: real, tol: real) {
    var nearest := (x + 0.5).Floor as real;
    nearest - x > tol || x - nearest > tol
  }

  ghost predicate Feasible(m: Mip, p: Point)
    requires ValidMip(m)
  {
    Relaxed(m, p) && forall j :: 0 <= j < |p| && m.integral[j] ==> IsIntegral(p[j])
  }

  predicate NoFractional(m: Mip, t: Tolerances, p: Point)
    requires |p| == |m.integral|
  {
    forall j :: 0 <= j < |p| && m.integral[j] ==> !IsFractional(p[j], t.integer)
  }

  /** What the solver accepts as a solution. */
  ghost predicate NearFeasible(m: Mip, t: Tolerances, p: Point)
    requires ValidMip(m)
  {
    Relaxed(m, p) && NoFractional(m, t, p)
  }

  ghost function FeasibleSet(m: Mip): Point -> bool
    requires ValidMip(m)
  {
    p => Feasible(m, p)
  }

  /** The contract of the objective step: feasible points attain only grid values. */
  ghost predicate GridContract(m: Mip)
    requires ValidMip(m)
  {
    forall p :: Feasible(m, p) ==> OnGrid(m.grid, Obj(m, p))
  }

  // ------------------------------------------------------------------ the search state

  datatype Status = Pending | IntegerFeasible | Infeasible | Fathomed | HasChildren | Numerical

  /** `value` is the fractional value the node was branched at. */
  datatype Node = Node(parent: nat, branch: Branch, lb: Ext, status: Status, origin: int, seqNo: nat, value: real)

  type Nodes = map<nat, Node>

  datatype Solution = Solution(obj: real, x: Point, worker: int, seqNo: nat)

  datatype Heuristic = Heuristic(stamp: real, sol: Solution)

  /** `Stalled` waits for the next callback after a limit return, with its node still current;
      `Resumed` has passed that callback and takes the paused node up again. */
  datatype Phase = Idle | Solving(cutoff: Ext, propagated: bool) | Stalled | Resumed

  datatype Worker = Worker(
    plunge: seq<nat>, backlog: seq<nat>, current: Option<nat>, lastSolved: Option<nat>,
    localUb: Ext, ceiling: Ext, found: seq<Solution>, box: Box, phase: Phase,
    nextSeq: nat, nextSol: nat)

  datatype Verdict = Unset | Optimal | NoSolution | OutOfBudget

  /** Global upper bound and incumbent. */
  datatype Best = Best(ub: Ext, inc: Option<Solution>)

  datatype State = State(
    nodes: Nodes, counter: nat, workers: seq<Worker>, best: Best, numerical: Ext,
    queue: seq<Heuristic>, horizon: real, verdict: Verdict)

  ghost predicate WfTree(nodes: Nodes, n: nat) {
    && 0 in nodes
    && forall id :: id in nodes && id != 0 ==>
         nodes[id].parent in nodes && nodes[id].parent < id && nodes[id].branch.v < n
  }

  /** The branches from a node up to the root, the node's own first. */
  ghost function Path(nodes: Nodes, n: nat, id: nat): (r: seq<Branch>)
    requires WfTree(nodes, n) && id in nodes
    ensures OnVariables(r, n)
  {
    if id == 0 then [] else [nodes[id].branch] + Path(nodes, n, nodes[id].parent)
  }

  ghost function WalkOf(m: Mip, nodes: Nodes, id: nat): (b: Box)
    requires ValidMip(m) && WfTree(nodes, |m.cost|) && id in nodes
    ensures WellSized(b, |m.cost|)
  {
    Walk(m.box, Path(nodes, |m.cost|, id))
  }

  // ------------------------------------------------------------------ worker queues

  function HeldOne(k: Worker): multiset<nat> {
    multiset(k.plunge) + multiset(k.backlog) +
    (if k.current.Some? then multiset{k.current.value} else multiset{})
  }

  function Held(ws: seq<Worker>): multiset<nat> {
    if ws == [] then multiset{} else HeldOne(ws[0]) + Held(ws[1..])
  }

  predicate HasWork(k: Worker) {
    k.current.Some? || k.plunge != [] || k.backlog != []
  }

  /** The heap comparator: `a` is served before `b`. */
  predicate Before(nodes: Nodes, a: nat, b: nat)
    requires a in nodes && b in nodes
  {
    if nodes[a].lb != nodes[b].lb then Lt(nodes[a].lb, nodes[b].lb)
    else if nodes[a].origin != nodes[b].origin then nodes[a].origin < nodes[b].origin
    else nodes[a].seqNo < nodes[b].seqNo
  }

  ghost predicate TopOfBacklog(nodes: Nodes, backlog: seq<nat>, i: nat) {
    && i < |backlog| && (forall j :: 0 <= j < |backlog| ==> backlog[j] in nodes)
    && forall j :: 0 <= j < |backlog| ==> !Before(nodes, backlog[j], backlog[i])
  }

  function RemoveAt(s: seq<nat>, i: nat): seq<nat>
    requires i < |s|
  {
    s[..i] + s[i + 1..]
  }

  /** dequeue_node: the paused node, else the top of the plunge stack, else the best of the
      backlog; the node becomes current. */
  function Dequeue(k: Worker, top: nat): (r: Worker)
    requires HasWork(k)
    requires k.current.None? && k.plunge == [] ==> top < |k.backlog|
  {
    if k.current.Some? then k
    else if k.plunge != [] then k.(current := Some(k.plunge[0]), plunge := k.plunge[1..])
    else k.(current := Some(k.backlog[top]), backlog := RemoveAt(k.backlog, top))
  }

  function EnqueueNode(k: Worker, id: nat): Worker {
    k.(plunge := [id] + k.plunge)
  }

  /** The oldest plunge entry moves to the backlog. */
  function Retire(k: Worker): Worker {
    if k.plunge == [] then k else
      k.(plunge := k.plunge[..|k.plunge| - 1], backlog := k.backlog + [k.plunge[|k.plunge| - 1]])
  }

  /** enqueue_children_for_plunge: retire the oldest entry, then put the preferred child on top of
      its sibling. */
  function EnqueueChildren(k: Worker, down: nat, up: nat, dir: Direction): Worker {
    var b := Retire(k);
    var pair := if dir == Up then [up, down] else [down, up];
    b.(plunge := pair + b.plunge, nextSeq := k.nextSeq + 2)
  }

  // ------------------------------------------------------------------ starting a node

  /** What bound strengthening answers: the tightened box, or that it holds no feasible point. */
  datatype Strengthened = Strengthened(feasible: bool, box: Box)

  ghost predicate StrengthenContract(m: Mip, base: Box, a: Strengthened)
    requires ValidMip(m)
  {
    && Stands(a.box, base, FeasibleSet(m))
    && (!a.feasible ==> forall p :: Feasible(m, p) ==> !In(p, base))
  }

  ghost predicate CanStart(s: State, w: nat, top: nat) {
    && s.verdict == Unset && w < |s.workers| && HasWork(s.workers[w])
    && (s.workers[w].phase.Idle? || s.workers[w].phase.Resumed?)
    && (s.workers[w].current.None? && s.workers[w].plunge == [] ==>
          TopOfBacklog(s.nodes, s.workers[w].backlog, top))
  }

  /** The bounds the node is solved with before strengthening: the parent's strengthened bounds
      plus one branch when the parent was the last node solved, the full walk otherwise. */
  ghost function BaseBox(m: Mip, s: State, w: nat, id: nat): Box
    requires ValidMip(m) && WfTree(s.nodes, |m.cost|) && id in s.nodes && id != 0
    requires w < |s.workers| && WellSized(s.workers[w].box, |m.cost|)
  {
    if s.workers[w].lastSolved == Some(s.nodes[id].parent) then
      Apply(s.workers[w].box, s.nodes[id].branch)
    else
      WalkOf(m, s.nodes, id)
  }

  /** Dequeue a node; close it at once when its bound exceeds the worker's upper bound, otherwise
      set up its bounds and fix the LP cutoff. */
  ghost function Start(t: Tolerances, s: State, w: nat, top: nat, a: Strengthened): State
    requires CanStart(s, w, top) && Dequeue(s.workers[w], top).current.value in s.nodes
  {
    var k := Dequeue(s.workers[w], top);
    var id := k.current.value;
    if Lt(k.localUb, s.nodes[id].lb) then
      s.(nodes := s.nodes[id := s.nodes[id].(status := Fathomed)],
         workers := s.workers[w := k.(current := None, phase := Idle)])
    else
      s.(workers := s.workers[w :=
           k.(box := a.box, phase := Solving(Shift(k.localUb, t.dual), a.feasible))])
  }

  // ------------------------------------------------------------------ finishing a node

  datatype Outcome =
    | StrengthenedInfeasible
    | DualUnbounded
    | Cutoff
    | LpOptimal(x: Point, v: nat, dir: Direction)
    | LimitReached
    | NumericalTrouble

  ghost predicate LpContract(m: Mip, t: Tolerances, box: Box, phase: Phase, lp: Outcome)
    requires ValidMip(m) && phase.Solving?
  {
    match lp
    case StrengthenedInfeasible => !phase.propagated
    case DualUnbounded => forall p :: Feasible(m, p) ==> !In(p, box)
    case Cutoff => forall p :: Feasible(m, p) && In(p, box) ==> Le(phase.cutoff, Fin(Obj(m, p)))
    case LpOptimal(x, v, dir) =>
      && Relaxed(m, x) && In(x, box)
      && (forall p :: Feasible(m, p) && In(p, box) ==> Obj(m, x) <= Obj(m, p))
      && (!NoFractional(m, t, x) ==> v < |x| && m.integral[v] && IsFractional(x[v], t.integer))
    case LimitReached => true
    case NumericalTrouble => true
  }

  ghost predicate CanFinish(m: Mip, t: Tolerances, s: State, w: nat, lp: Outcome)
    requires ValidMip(m)
  {
    && w < |s.workers| && s.workers[w].phase.Solving?
    && s.workers[w].current.Some? && s.workers[w].current.value in s.nodes
    && WellSized(s.workers[w].box, |m.cost|)
    && LpContract(m, t, s.workers[w].box, s.workers[w].phase, lp)
  }

  /** handle_integer_solution */
  function Record(k: Worker, w: nat, obj: real, x: Point): Worker {
    if Lt(Fin(obj), k.localUb) then
      k.(localUb := Fin(obj), found := k.found + [Solution(obj, x, w, k.nextSol)], nextSol := k.nextSol + 1)
    else k
  }

  function Rest(k: Worker): Worker
    requires k.current.Some?
  {
    k.(current := None, lastSolved := k.current, phase := Idle)
  }

  /** The node leaves the open leaves with its final bound and status. */
  function Close(s: State, w: nat, k: Worker, lb: Ext, status: Status): State
    requires w < |s.workers| && k.current.Some? && k.current.value in s.nodes
  {
    var id := k.current.value;
    s.(nodes := s.nodes[id := s.nodes[id].(lb := lb, status := status)],
       workers := s.workers[w := Rest(k)])
  }

  /** search_tree_t::branch followed by the plunge bookkeeping. */
  function BranchOn(s: State, w: nat, k: Worker, lb: Ext, v: nat, x: real, dir: Direction): State
    requires w < |s.workers| && k.current.Some? && k.current.value in s.nodes
    requires WellSized(k.box, |k.box.lo|) && v < |k.box.lo|
  {
    var id := k.current.value;
    var down, up := s.counter + 1, s.counter + 2;
    var nodes := s.nodes[id := s.nodes[id].(lb := lb, status := HasChildren)]
                 [down := Node(id, ChildBranch(k.box, v, x, Down), lb, Pending, w, k.nextSeq, x)]
                 [up := Node(id, ChildBranch(k.box, v, x, Up), lb, Pending, w, k.nextSeq + 1, x)];
    s.(nodes := nodes, counter := up,
       workers := s.workers[w := Rest(EnqueueChildren(k, down, up, dir))])
  }

  /** solve_node_deterministic after the LP, with update_tree_impl. */
  function Finish(m: Mip, t: Tolerances, s: State, w: nat, lp: Outcome): State
    requires ValidGrid(m.grid)
    requires w < |s.workers| && s.workers[w].current.Some? && s.workers[w].current.value in s.nodes
    requires WellSized(s.workers[w].box, |m.cost|) && |m.integral| == |m.cost|
    requires lp.LpOptimal? ==> |lp.x| == |m.cost| && (!NoFractional(m, t, lp.x) ==> lp.v < |lp.x|)
  {
    var k := s.workers[w];
    match lp
    case StrengthenedInfeasible => Close(s, w, k, PosInf, Infeasible)
    case DualUnbounded => Close(s, w, k, PosInf, Infeasible)
    case Cutoff => Close(s, w, k, k.localUb, Fathomed)
    case LpOptimal(x, v, dir) =>
      var lb := Fin(Snap(m.grid, t, Obj(m, x)));
      if NoFractional(m, t, x) then
        Close(s, w, Record(k, w, Obj(m, x), x), lb, IntegerFeasible)
      else if Le(lb, Shift(k.localUb, t.fathom)) then
        BranchOn(s, w, k, lb, v, x[v], dir)
      else
        Close(s, w, k, lb, Fathomed)
    case LimitReached => s.(workers := s.workers[w := k.(phase := Stalled)])
    case NumericalTrouble =>
      var lb := s.nodes[k.current.value].lb;
      Close(s, w, k.(ceiling := Min(lb, k.ceiling)), lb, Numerical)
  }

  // ------------------------------------------------------------------ synchronisation

  /** Order of worker solutions: objective, then worker, then sequence number. */
  predicate SolutionLess(a: Solution, b: Solution) {
    if a.obj != b.obj then a.obj < b.obj
    else if a.worker != b.worker then a.worker < b.worker
    else a.seqNo < b.seqNo
  }

  predicate LexLess(a: seq<real>, b: seq<real>) {
    b != [] && (a == [] || a[0] < b[0] || (a[0] == b[0] && LexLess(a[1..], b[1..])))
  }

  /** Order of heuristic solutions: work stamp, then objective, then the values themselves. */
  predicate HeuristicLess(a: Heuristic, b: Heuristic) {
    if a.stamp != b.stamp then a.stamp < b.stamp
    else if a.sol.obj != b.sol.obj then a.sol.obj < b.sol.obj
    else LexLess(a.sol.x, b.sol.x)
  }

  /** A heuristic solution comes from outside the pool: it carries no worker of its own. */
  predicate External(h: Heuristic) {
    h.sol.worker == -1 && h.sol.seqNo == 0
  }

  ghost predicate MergeSorted(s: seq<Solution>) {
    forall i, j :: 0 <= i < j < |s| ==> !SolutionLess(s[j], s[i])
  }

  ghost predicate ReplaySorted(s: seq<Heuristic>) {
    forall i, j :: 0 <= i < j < |s| ==> !HeuristicLess(s[j], s[i])
  }

  /** Replay one heuristic solution. */
  function Offer(g: Grid, t: Tolerances, b: Best, sol: Solution): Best
    requires ValidGrid(g)
  {
    if Accepts(g, t, (if b.inc.Some? then Some(b.inc.value.obj) else None), sol.obj) then
      Best(Min(b.ub, Fin(sol.obj)), Some(sol))
    else b
  }

  function Replay(g: Grid, t: Tolerances, b: Best, due: seq<Heuristic>): Best
    requires ValidGrid(g)
  {
    if due == [] then b
    else Offer(g, t, Replay(g, t, b, due[..|due| - 1]), due[|due| - 1].sol)
  }

  /** deterministic_process_worker_solutions: only candidates below the upper bound are offered. */
  function Merge(g: Grid, t: Tolerances, b: Best, sols: seq<Solution>): Best
    requires ValidGrid(g)
  {
    if sols == [] then b
    else
      var c := Merge(g, t, b, sols[..|sols| - 1]);
      var sol := sols[|sols| - 1];
      if Lt(Fin(sol.obj), c.ub) then Offer(g, t, c, sol) else c
  }

  function AllFound(ws: seq<Worker>): seq<Solution> {
    if ws == [] then [] else ws[0].found + AllFound(ws[1..])
  }

  function AllBacklogs(ws: seq<Worker>): seq<nat> {
    if ws == [] then [] else ws[0].backlog + AllBacklogs(ws[1..])
  }

  function Ceilings(ws: seq<Worker>): seq<Ext> {
    seq(|ws|, i requires 0 <= i < |ws| => ws[i].ceiling)
  }

  function QueueSize(k: Worker): nat {
    |k.plunge| + |k.backlog| + (if k.current.Some? then 1 else 0)
  }

  /** Worker i has the fewest nodes, worker j the most. */
  predicate Extreme(ws: seq<Worker>, i: nat, j: nat) {
    i < |ws| && j < |ws| && forall l :: 0 <= l < |ws| ==> QueueSize(ws[i]) <= QueueSize(ws[l]) <= QueueSize(ws[j])
  }

  predicate Lopsided(least: nat, most: nat) {
    (least == 0 && most >= 2) || (least > 0 && most > 4 * least)
  }

  /** The test guarding a rebalance. */
  predicate NeedsBalance(ws: seq<Worker>) {
    && |ws| > 1
    && exists i: nat, j: nat :: i < |ws| && j < |ws| && Extreme(ws, i, j) && Lopsided(QueueSize(ws[i]), QueueSize(ws[j]))
  }

  function DropBacklogs(ws: seq<Worker>): (r: seq<Worker>)
    ensures |r| == |ws|
  {
    seq(|ws|, i requires 0 <= i < |ws| => ws[i].(backlog := []))
  }

  /** Deal `order[..i]` to the workers in turn, each onto the top of its plunge stack. */
  function Deal(ws: seq<Worker>, order: seq<nat>): (r: seq<Worker>)
    requires |ws| > 0
    ensures |r| == |ws|
  {
    if order == [] then ws
    else
      var i := |order| - 1;
      var d := Deal(ws, order[..i]);
      d[i % |ws| := EnqueueNode(d[i % |ws|], order[i])]
  }

  predicate InCreationOrder(nodes: Nodes, order: seq<nat>) {
    && (forall i :: 0 <= i < |order| ==> order[i] in nodes)
    && forall i, j :: 0 <= i < j < |order| ==>
         nodes[order[i]].origin < nodes[order[j]].origin ||
         (nodes[order[i]].origin == nodes[order[j]].origin &&
          nodes[order[i]].seqNo <= nodes[order[j]].seqNo)
  }

  /** deterministic_balance_worker_loads; `order` is the sorted union of the backlogs. */
  function Balance(ws: seq<Worker>, order: seq<nat>): (r: seq<Worker>)
    ensures |r| == |ws|
  {
    if NeedsBalance(ws) then Deal(DropBacklogs(ws), order) else ws
  }

  /** The callback releases a worker that waited for it. */
  function Woken(p: Phase): Phase {
    if p.Stalled? then Resumed else p
  }

  /** Clear the queued solutions and hand out the merged upper bound. */
  function Broadcast(ws: seq<Worker>, ub: Ext): (r: seq<Worker>)
    ensures |r| == |ws|
  {
    seq(|ws|, i requires 0 <= i < |ws| => ws[i].(found := [], localUb := ub, phase := Woken(ws[i].phase)))
  }

  /** Where a worker can meet the barrier: inside the strengthening or LP of its node, waiting after a
      limit return, or out of work. */
  predicate AtBarrier(k: Worker) {
    k.phase.Solving? || k.phase.Stalled? || (k.phase.Idle? && !HasWork(k))
  }

  function HeldBounds(nodes: Nodes, ids: seq<nat>): (r: seq<Ext>)
    requires forall i :: 0 <= i < |ids| ==> ids[i] in nodes
    ensures |r| == |ids|
  {
    seq(|ids|, i requires 0 <= i < |ids| => nodes[ids[i]].lb)
  }

  function HeldList(ws: seq<Worker>): seq<nat> {
    if ws == [] then []
    else (if ws[0].current.Some? then [ws[0].current.value] else []) + ws[0].plunge + ws[0].backlog +
         HeldList(ws[1..])
  }

  predicate HeldInTree(s: State) {
    forall id :: id in HeldList(s.workers) ==> id in s.nodes
  }

  /** deterministic_compute_lower_bound */
  function ReportedBound(s: State): Ext
    requires HeldInTree(s)
  {
    var ids := HeldList(s.workers);
    var lb := Min(MinOf(HeldBounds(s.nodes, ids)), s.numerical);
    if lb == PosInf && s.best.inc.Some? then s.best.ub else lb
  }

  predicate Exhausted(ws: seq<Worker>) {
    forall i :: 0 <= i < |ws| ==> !HasWork(ws[i])
  }

  datatype Gaps = Gaps(scale: real, constant: real, absolute: real, relative: real)

  function UserObjective(g: Gaps, obj: real): real {
    g.scale * (obj + g.constant)
  }

  /** The gap test on finite bounds; with an infinite bound neither gap is small. */
  predicate GapClosed(g: Gaps, ub: Ext, lb: Ext) {
    && ub.Fin? && lb.Fin?
    && (|| Abs(g.scale) * (ub.v - lb.v) <= g.absolute
        || var u, l := UserObjective(g, ub.v), UserObjective(g, lb.v);
           if u == 0.0 then l == 0.0 && 0.0 <= g.relative else Abs(u - l) / Abs(u) <= g.relative)
  }

  /** Later tests override earlier ones: a limit, a closed gap, an exhausted tree. */
  function Judge(s: State, g: Gaps, overBudget: bool): Verdict
    requires HeldInTree(s)
  {
    if Exhausted(s.workers) then (if s.best.ub == PosInf then NoSolution else Optimal)
    else if GapClosed(g, s.best.ub, ReportedBound(s)) then Optimal
    else if overBudget then OutOfBudget
    else Unset
  }

  function Due(queue: seq<Heuristic>, horizon: real): seq<Heuristic> {
    if queue == [] then []
    else (if queue[0].stamp < horizon then [queue[0]] else []) + Due(queue[1..], horizon)
  }

  function Future(queue: seq<Heuristic>, horizon: real): seq<Heuristic> {
    if queue == [] then []
    else (if queue[0].stamp < horizon then [] else [queue[0]]) + Future(queue[1..], horizon)
  }

  /** The inputs of one callback: sorted collections, the diving workers' solutions, clocks. */
  datatype SyncInput = SyncInput(
    due: seq<Heuristic>, found: seq<Solution>, dives: seq<Solution>, order: seq<nat>,
    gaps: Gaps, step: real, overBudget: bool)

  ghost predicate TrueSolution(m: Mip, t: Tolerances, sol: Solution)
    requires ValidMip(m)
  {
    NearFeasible(m, t, sol.x) && sol.obj == Obj(m, sol.x)
  }

  ghost predicate AllTrue(m: Mip, t: Tolerances, sols: seq<Solution>)
    requires ValidMip(m)
  {
    forall i :: 0 <= i < |sols| ==> TrueSolution(m, t, sols[i])
  }

  ghost predicate CanSync(m: Mip, t: Tolerances, s: State, i: SyncInput)
    requires ValidMip(m)
  {
    && s.verdict == Unset && |s.workers| > 0
    && multiset(i.due) == multiset(Due(s.queue, s.horizon)) && ReplaySorted(i.due)
    && multiset(i.found) == multiset(AllFound(s.workers)) && MergeSorted(i.found)
    && AllTrue(m, t, i.dives) && MergeSorted(i.dives)
    && multiset(i.order) == multiset(AllBacklogs(s.workers)) && InCreationOrder(s.nodes, i.order)
    && (forall w :: 0 <= w < |s.workers| ==> AtBarrier(s.workers[w]))
  }

  function Merged(g: Grid, t: Tolerances, b: Best, i: SyncInput): Best
    requires ValidGrid(g)
  {
    Merge(g, t, Merge(g, t, Replay(g, t, b, i.due), i.found), i.dives)
  }

  function AfterMerge(g: Grid, t: Tolerances, s: State, i: SyncInput): State
    requires ValidGrid(g)
  {
    var b := Merged(g, t, s.best, i);
    s.(best := b,
       numerical := Min(MinOf(Ceilings(s.workers)), s.numerical),
       queue := Future(s.queue, s.horizon),
       horizon := s.horizon + i.step,
       workers := Broadcast(Balance(s.workers, i.order), b.ub))
  }

  /** deterministic_sync_callback */
  ghost function Sync(g: Grid, t: Tolerances, s: State, i: SyncInput): State
    requires ValidGrid(g)
  {
    var r := AfterMerge(g, t, s, i);
    if HeldInTree(r) then
      r.(verdict := Judge(r, i.gaps, i.overBudget))
    else r
  }

  // ------------------------------------------------------------------ runs

  /** Root branched once, its children dealt to the first workers, nothing else held. */
  ghost predicate Init(m: Mip, t: Tolerances, s: State)
    requires ValidMip(m)
  {
    && s.counter == 2 && s.nodes.Keys == {0, 1, 2} && s.verdict == Unset && s.numerical == PosInf
    && s.nodes[0].status == HasChildren
    && (forall id :: id in {1, 2} ==>
          s.nodes[id].parent == 0 && s.nodes[id].status == Pending &&
          s.nodes[id].origin == -1 && s.nodes[id].seqNo == id - 1)
    && RootSplit(m, s)
    && |s.workers| > 0 && Held(s.workers) == multiset{1, 2}
    && (forall w :: 0 <= w < |s.workers| ==>
          var k := s.workers[w];
          k.current.None? && k.lastSolved.None? && k.found == [] && k.phase == Idle &&
          k.localUb == s.best.ub && k.ceiling == PosInf && k.nextSeq == 0 && WellSized(k.box, |m.cost|))
    && (if s.best.inc.Some? then
          TrueSolution(m, t, s.best.inc.value) && s.best.ub == Fin(s.best.inc.value.obj)
        else s.best.ub == PosInf)
    && (forall q :: 0 <= q < |s.queue| ==> TrueSolution(m, t, s.queue[q].sol) && External(s.queue[q]))
  }

  /** The root relaxation bounds every feasible point; its children split one of its integral
      variables at a value within the bounds. */
  ghost predicate RootSplit(m: Mip, s: State)
    requires ValidMip(m) && {0, 1, 2} <= s.nodes.Keys
  {
    && s.nodes[1].lb == s.nodes[2].lb
    && (forall p :: Feasible(m, p) ==> Le(s.nodes[1].lb, Fin(Obj(m, p))))
    && exists v: nat, x: real ::
         v < |m.cost| && m.integral[v] && Between(m.box.lo[v], x, m.box.hi[v]) &&
         s.nodes[1].branch == ChildBranch(m.box, v, x, Down) &&
         s.nodes[2].branch == ChildBranch(m.box, v, x, Up)
  }

  datatype Event =
    | Starting(w: nat, top: nat, answer: Strengthened)
    | Finishing(w: nat, outcome: Outcome, work: real)
    | Arriving(h: Heuristic)
    | Syncing(input: SyncInput)

  ghost predicate Step(m: Mip, t: Tolerances, s: State, e: Event, s': State)
    requires ValidMip(m)
  {
    match e
    case Starting(w, top, a) =>
      && CanStart(s, w, top)
      && (var id := Dequeue(s.workers[w], top).current.value;
          id in s.nodes && id != 0 && WfTree(s.nodes, |m.cost|) && WellSized(s.workers[w].box, |m.cost|) &&
          StrengthenContract(m, BaseBox(m, s, w, id), a))
      && s' == Start(t, s, w, top, a)
    case Finishing(w, lp, _) =>
      CanFinish(m, t, s, w, lp) && s' == Finish(m, t, s, w, lp)
    case Arriving(h) =>
      TrueSolution(m, t, h.sol) && External(h) && s' == s.(queue := s.queue + [h])
    case Syncing(i) =>
      CanSync(m, t, s, i) && s' == Sync(m.grid, t, s, i)
  }

  /** A run: an initial state and any interleaving of steps. */
  ghost predicate Run(m: Mip, t: Tolerances, ss: seq<State>, es: seq<Event>)
    requires ValidMip(m)
  {
    && |ss| == |es| + 1 && Init(m, t, ss[0])
    && forall i :: 0 <= i < |es| ==> Step(m, t, ss[i], es[i], ss[i + 1])
  }
}
