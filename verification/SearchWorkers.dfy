/** Workers and the serial callback as they run: queues, bounds and the incumbent updated in place,
    each operation tied to the step machine. */
module SearchWorkers {
  import opened Extended
  import opened Lattice
  import opened BoundWalk
  import opened SearchModel
  import opened SearchKeys
  import opened SearchEvents
  import opened SearchOutcome

  // ------------------------------------------------------------------ a best-first worker

  class BfsWorker {
    const id: nat
    var plunge: seq<nat>
    var backlog: seq<nat>
    var current: Option<nat>
    var lastSolved: Option<nat>
    var localUb: Ext
    var ceiling: Ext
    var found: seq<Solution>
    var box: Box
    var phase: Phase
    var nextSeq: nat
    var nextSol: nat

    constructor (id: nat, ub: Ext, box: Box)
      ensures this.id == id && View() == Worker([], [], None, None, ub, PosInf, [], box, Idle, 0, 0)
    {
      this.id := id;
      plunge, backlog, current, lastSolved := [], [], None, None;
      localUb, ceiling, found, this.box, phase, nextSeq, nextSol := ub, PosInf, [], box, Idle, 0, 0;
    }

    function View(): Worker
      reads this
    {
      Worker(plunge, backlog, current, lastSolved, localUb, ceiling, found, box, phase, nextSeq, nextSol)
    }

    method Enqueue(node: nat)
      modifies this`plunge
      ensures View() == EnqueueNode(old(View()), node) && plunge == [node] + old(plunge)
      ensures HeldOne(View()) == HeldOne(old(View())) + multiset{node}
    {
      plunge := [node] + plunge;
    }

    /** The oldest plunge entry moves to the backlog; nothing held is lost. */
    method RetireOldest()
      modifies this`plunge, this`backlog
      ensures View() == Retire(old(View())) && HeldOne(View()) == HeldOne(old(View()))
      ensures if old(plunge) == [] then plunge == [] && backlog == old(backlog)
              else backlog == old(backlog) + [old(plunge)[|old(plunge)| - 1]] && plunge == old(plunge)[..|old(plunge)| - 1]
    {
      if plunge != [] {
        assert plunge == plunge[..|plunge| - 1] + [plunge[|plunge| - 1]];
        backlog := backlog + [plunge[|plunge| - 1]];
        plunge := plunge[..|plunge| - 1];
      }
    }

    /** The oldest entry retires, then the children go on top, the preferred one first. */
    method EnqueueForPlunge(down: nat, up: nat, dir: Direction) returns (first: nat)
      modifies this`plunge, this`backlog, this`nextSeq
      ensures View() == EnqueueChildren(old(View()), down, up, dir)
      ensures first == (if dir == Up then up else down) && nextSeq == old(nextSeq) + 2
      ensures var rest := if old(plunge) == [] then [] else old(plunge)[..|old(plunge)| - 1];
              plunge == (if dir == Up then [up, down] else [down, up]) + rest
      ensures backlog == old(backlog) + (if old(plunge) == [] then [] else [old(plunge)[|old(plunge)| - 1]])
    {
      EnqueueSays(View(), down, up, dir);
      hide Retire, EnqueueChildren, HeldOne;
      RetireOldest();
      ghost var rest := plunge;
      nextSeq := nextSeq + 2;
      first := if dir == Up then up else down;
      var second := if dir == Up then down else up;
      plunge := [second] + plunge;
      plunge := [first] + plunge;
      assert plunge == [first, second] + rest;
    }

    /** Position of a node no other backlog entry precedes. */
    method FindTop(nodes: Nodes) returns (top: nat)
      requires backlog != [] && forall j :: 0 <= j < |backlog| ==> backlog[j] in nodes
      ensures TopOfBacklog(nodes, backlog, top)
      ensures forall j :: 0 <= j < |backlog| ==> Le(nodes[backlog[top]].lb, nodes[backlog[j]].lb)
    {
      top := 0;
      for i := 1 to |backlog|
        invariant top < i && forall j :: 0 <= j < i ==> !Before(nodes, backlog[j], backlog[top])
      {
        if Before(nodes, backlog[i], backlog[top]) {
          BeforeNegates(nodes, backlog, i, top);
          top := i;
        }
      }
    }

    /** dequeue_node, made current: the paused node, else the top of the plunge stack, else the best of
        the backlog. */
    method Take(nodes: Nodes) returns (node: nat, ghost top: nat)
      requires HasWork(View()) && forall j :: 0 <= j < |backlog| ==> backlog[j] in nodes
      modifies this`plunge, this`backlog, this`current
      ensures old(current).None? && old(plunge) == [] ==> TopOfBacklog(nodes, old(backlog), top)
      ensures if old(current).Some? then node == old(current).value
              else if old(plunge) != [] then node == old(plunge)[0]
              else top < |old(backlog)| && node == old(backlog)[top] && node in nodes &&
                   forall j :: 0 <= j < |old(backlog)| ==> old(backlog)[j] in nodes && Le(nodes[node].lb, nodes[old(backlog)[j]].lb)
      ensures View() == Dequeue(old(View()), top) && current == Some(node)
      ensures HeldOne(View()) == HeldOne(old(View()))
    {
      top := 0;
      if current.Some? {
        node := current.value;
      } else if plunge != [] {
        assert plunge == [plunge[0]] + plunge[1..];
        node := plunge[0];
        plunge := plunge[1..];
        current := Some(node);
      } else {
        node, top := TakeFromBacklog(nodes);
      }
    }

    method TakeFromBacklog(nodes: Nodes) returns (node: nat, ghost top: nat)
      requires current.None? && plunge == [] && backlog != [] && forall j :: 0 <= j < |backlog| ==> backlog[j] in nodes
      modifies this`backlog, this`current
      ensures TopOfBacklog(nodes, old(backlog), top) && View() == Dequeue(old(View()), top) && current == Some(node)
      ensures HeldOne(View()) == HeldOne(old(View()))
    {
      var best := FindTop(nodes);
      top := best;
      hide TopOfBacklog;
      assert backlog == backlog[..best] + [backlog[best]] + backlog[best + 1..];
      node := backlog[best];
      backlog := backlog[..best] + backlog[best + 1..];
      current := Some(node);
    }

    /** handle_integer_solution: the local bound becomes the least of itself and the objective; a
        solution is queued, behind the earlier ones and under the next number, exactly when it improves.
        Queued solutions stay told apart, each better than those before it and none better than the
        local bound. */
    method RecordSolution(obj: real, x: Point)
      modifies this`localUb, this`found, this`nextSol
      ensures localUb == Min(old(localUb), Fin(obj))
      ensures old(found) <= found && nextSol - old(nextSol) == |found| - |old(found)| <= 1
      ensures |found| > |old(found)| <==> Lt(Fin(obj), old(localUb))
      ensures |found| > |old(found)| ==> found[|old(found)|] == Solution(obj, x, id, old(nextSol))
      ensures FoundKeys(old(View()), id) ==> FoundKeys(View(), id)
      ensures Improving(old(View())) ==> Improving(View())
      ensures View() == Record(old(View()), id, obj, x)
    {
      if Lt(Fin(obj), localUb) {
        localUb := Fin(obj);
        found := found + [Solution(obj, x, id, nextSol)];
        nextSol := nextSol + 1;
      }
    }

    method Size() returns (n: nat)
      ensures n == QueueSize(View()) == |HeldOne(View())| && (n > 0 <==> HasWork(View()))
    {
      SizeCounts(View());
      n := |plunge| + |backlog| + (if current.Some? then 1 else 0);
    }
  }

  /** Each queued solution is better than those before it, and none is better than the local bound. */
  ghost predicate Improving(k: Worker) {
    && (forall i, j :: 0 <= i < j < |k.found| ==> k.found[j].obj < k.found[i].obj)
    && (forall i :: 0 <= i < |k.found| ==> Le(k.localUb, Fin(k.found[i].obj)))
  }

  lemma EnqueueSays(k: Worker, down: nat, up: nat, dir: Direction)
    ensures EnqueueChildren(k, down, up, dir)
         == k.(plunge := (if dir == Up then [up, down] else [down, up]) + Retire(k).plunge, backlog := Retire(k).backlog, nextSeq := k.nextSeq + 2)
  {
    hide HeldOne;
  }

  lemma BeforeTransitive(nodes: Nodes, a: nat, b: nat, c: nat)
    requires a in nodes && b in nodes && c in nodes && Before(nodes, b, a) && !Before(nodes, c, a)
    ensures !Before(nodes, c, b)
  {
  }

  /** A node that precedes the best so far is preceded by none of those seen. */
  lemma BeforeNegates(nodes: Nodes, backlog: seq<nat>, i: nat, top: nat)
    requires top < i < |backlog| && (forall j :: 0 <= j < |backlog| ==> backlog[j] in nodes)
    requires Before(nodes, backlog[i], backlog[top]) && forall j :: 0 <= j < i ==> !Before(nodes, backlog[j], backlog[top])
    ensures forall j :: 0 <= j <= i ==> !Before(nodes, backlog[j], backlog[i])
  {
    forall j | 0 <= j < i ensures !Before(nodes, backlog[j], backlog[i]) {
      BeforeTransitive(nodes, backlog[top], backlog[i], backlog[j]);
    }
  }

  // ------------------------------------------------------------------ the serial callback

  lemma {:induction false} MinOfSnoc(s: seq<Ext>, x: Ext)
    ensures MinOf(s + [x]) == Min(MinOf(s), x)
  {
    if s == [] {
      assert s + [x] == [x] && [x][1..] == [];
      assert MinOf([x]) == Min(x, MinOf([]));
    } else {
      MinOfSnoc(s[1..], x);
      assert (s + [x])[1..] == s[1..] + [x];
    }
  }

  lemma MinRegroup(a: Ext, b: Ext, c: Ext)
    ensures Min(Min(a, b), c) == Min(Min(a, c), b)
  {
  }

  /** The least of `start` and the bounds of the listed nodes. */
  method LeastBound(nodes: Nodes, ids: seq<nat>, start: Ext) returns (lb: Ext)
    requires forall i :: 0 <= i < |ids| ==> ids[i] in nodes
    ensures lb == Min(MinOf(HeldBounds(nodes, ids)), start)
  {
    lb := start;
    var all := HeldBounds(nodes, ids);
    for i := 0 to |ids|
      invariant lb == Min(MinOf(all[..i]), start)
    {
      MinOfSnoc(all[..i], all[i]);
      assert all[..i + 1] == all[..i] + [all[i]];
      lb := Min(nodes[ids[i]].lb, lb);
    }
    assert all[..|ids|] == all;
  }

  lemma {:induction false} BatchSnoc(logs: seq<Log>, l: Log)
    ensures Batch(logs + [l]) == Batch(logs) + l.events
  {
    if logs == [] {
      assert logs + [l] == [l] && [l][1..] == [];
      assert Batch([l]) == l.events + Batch([]);
    } else {
      BatchSnoc(logs[1..], l);
      assert (logs + [l])[1..] == logs[1..] + [l];
    }
  }

  /** collect_and_sort_events before the sort: every worker's events are taken over and its log emptied,
      its clock and its counter kept. */
  method CollectEvents(logs: array<Log>) returns (all: seq<NodeEvent>)
    modifies logs
    ensures all == Batch(old(logs[..]))
    ensures forall w :: 0 <= w < logs.Length ==> logs[w] == old(logs[w]).(events := [])
  {
    all := [];
    ghost var was := logs[..];
    for i := 0 to logs.Length
      invariant all == Batch(was[..i])
      invariant forall w :: 0 <= w < logs.Length ==> logs[w] == if w < i then was[w].(events := []) else was[w]
    {
      BatchSnoc(was[..i], was[i]);
      assert was[..i + 1] == was[..i] + [was[i]];
      all := all + logs[i].events;
      logs[i] := logs[i].(events := []);
    }
    assert was[..logs.Length] == was;
  }

  class Coordinator {
    var best: Best
    var numerical: Ext
    const grid: Grid
    const tol: Tolerances

    constructor (g: Grid, t: Tolerances, b: Best)
      ensures grid == g && tol == t && best == b && numerical == PosInf
    {
      grid, tol, best, numerical := g, t, b, PosInf;
    }

    /** Take a solution as the incumbent if it improves enough. */
    method Accept(sol: Solution) returns (improved: bool)
      requires ValidGrid(grid)
      modifies this
      ensures best == Offer(grid, tol, old(best), sol) && numerical == old(numerical)
      ensures improved ==> best == Best(Min(old(best).ub, Fin(sol.obj)), Some(sol))
      ensures !improved ==> best == old(best)
    {
      improved := Accepts(grid, tol, (if best.inc.Some? then Some(best.inc.value.obj) else None), sol.obj);
      if improved { best := Best(Min(best.ub, Fin(sol.obj)), Some(sol)); }
    }

    /** Replay node events and due heuristic solutions on one timeline. Events carry no update, so what
        counts is the order of the solutions. */
    method ReplayTimeline(events: seq<NodeEvent>, due: seq<Heuristic>)
      requires ValidGrid(grid)
      modifies this
      ensures best == Replay(grid, tol, old(best), due) && numerical == old(numerical)
    {
      var e, h := 0, 0;
      while e < |events| || h < |due|
        invariant e <= |events| && h <= |due| && numerical == old(numerical)
        invariant best == Replay(grid, tol, old(best), due[..h])
        decreases |events| - e + |due| - h
      {
        if h >= |due| || (e < |events| && events[e].stamp <= due[h].stamp) {
          e := e + 1;
        } else {
          assert due[..h + 1][..h] == due[..h];
          var improved := Accept(due[h].sol);
          h := h + 1;
        }
      }
      assert due[..|due|] == due;
    }

    /** deterministic_process_worker_solutions, on the solutions in merge order. */
    method ProcessSolutions(sols: seq<Solution>)
      requires ValidGrid(grid) && (best.inc.Some? ==> best.ub == Fin(best.inc.value.obj))
      modifies this
      ensures best == Merge(grid, tol, old(best), sols) && numerical == old(numerical)
    {
      var upper := best.ub;
      for i := 0 to |sols|
        invariant best == Merge(grid, tol, old(best), sols[..i]) && upper == best.ub && numerical == old(numerical)
      {
        assert sols[..i + 1][..i] == sols[..i];
        if Lt(Fin(sols[i].obj), upper) {
          var improved := Accept(sols[i]);
          if improved { upper := Fin(sols[i].obj); }
        }
      }
      assert sols[..|sols|] == sols;
    }

    /** Fold the workers' ceilings into the numerical bound. */
    method FoldCeilings(ws: seq<Worker>)
      modifies this
      ensures numerical == Min(MinOf(Ceilings(ws)), old(numerical)) && best == old(best)
    {
      var all := Ceilings(ws);
      for i := 0 to |ws|
        invariant numerical == Min(MinOf(all[..i]), old(numerical)) && best == old(best)
      {
        MinOfSnoc(all[..i], all[i]);
        assert all[..i + 1] == all[..i] + [all[i]];
        MinRegroup(MinOf(all[..i]), old(numerical), ws[i].ceiling);
        hide Min, MinOf;
        numerical := Min(numerical, ws[i].ceiling);
      }
      assert all[..|ws|] == all;
    }
  }

  // ------------------------------------------------------------------ rebalancing

  /** Deal the sorted backlogs out again, round robin, onto the plunge stacks. */
  method DealOut(ws: array<Worker>, order: seq<nat>)
    requires ws.Length > 0
    modifies ws
    ensures ws[..] == Deal(DropBacklogs(old(ws[..])), order)
  {
    for i := 0 to ws.Length
      invariant forall k :: 0 <= k < ws.Length ==> ws[k] == if k < i then old(ws[k]).(backlog := []) else old(ws[k])
    {
      ws[i] := ws[i].(backlog := []);
    }
    assert ws[..] == DropBacklogs(old(ws[..]));
    ghost var start := DropBacklogs(old(ws[..]));
    for i := 0 to |order|
      invariant ws[..] == Deal(start, order[..i])
    {
      assert order[..i + 1][..i] == order[..i];
      var w := i % ws.Length;
      ghost var d := ws[..];
      ws[w] := EnqueueNode(ws[w], order[i]);
      assert ws[..] == d[w := EnqueueNode(d[w], order[i])];
    }
    assert order[..|order|] == order;
  }

  /** Least and greatest queue sizes. */
  method Extremes(ws: seq<Worker>) returns (least: nat, most: nat, ghost i: nat, ghost j: nat)
    requires |ws| > 0
    ensures Extreme(ws, i, j) && least == QueueSize(ws[i]) && most == QueueSize(ws[j])
  {
    least, most := QueueSize(ws[0]), QueueSize(ws[0]);
    i, j := 0, 0;
    for l := 1 to |ws|
      invariant i < |ws| && j < |ws| && QueueSize(ws[i]) == least && QueueSize(ws[j]) == most
      invariant forall k :: 0 <= k < l ==> least <= QueueSize(ws[k]) <= most
    {
      if QueueSize(ws[l]) < least { least := QueueSize(ws[l]); i := l; }
      if QueueSize(ws[l]) > most { most := QueueSize(ws[l]); j := l; }
    }
  }

  lemma BalanceTest(ws: seq<Worker>, i: nat, j: nat)
    requires |ws| > 1 && Extreme(ws, i, j)
    ensures NeedsBalance(ws) <==> Lopsided(QueueSize(ws[i]), QueueSize(ws[j]))
  {
    if NeedsBalance(ws) {
      var a: nat, b: nat :| a < |ws| && b < |ws| && Extreme(ws, a, b) && Lopsided(QueueSize(ws[a]), QueueSize(ws[b]));
      SameExtremes(ws, a, b, i, j);
    }
  }

  lemma SameExtremes(ws: seq<Worker>, a: nat, b: nat, i: nat, j: nat)
    requires Extreme(ws, a, b) && Extreme(ws, i, j)
    ensures QueueSize(ws[a]) == QueueSize(ws[i]) && QueueSize(ws[b]) == QueueSize(ws[j])
  {
    hide QueueSize;
  }

  lemma FewWorkers(ws: seq<Worker>)
    requires |ws| <= 1
    ensures !NeedsBalance(ws)
  {
  }

  /** deterministic_balance_worker_loads; `order` is the sorted union of the backlogs. */
  method BalanceLoads(ws: array<Worker>, order: seq<nat>)
    modifies ws
    ensures ws[..] == Balance(old(ws[..]), order)
  {
    hide QueueSize, NeedsBalance, Deal, Lopsided, Extreme;
    if ws.Length <= 1 {
      FewWorkers(ws[..]);
      return;
    }
    ghost var i: nat, j: nat;
    var least, most;
    least, most, i, j := Extremes(ws[..]);
    BalanceTest(ws[..], i, j);
    if Lopsided(least, most) { DealOut(ws, order); }
  }
}
