/** What one callback does, said on the states before and after it: which solutions are settled, which
    verdict is reached and how backlogs are dealt. */
module SearchOutcome {
  import opened Extended
  import opened Reals
  import opened Lattice
  import opened BoundWalk
  import opened SearchModel
  import opened SearchInvariant
  import opened SearchSync
  import opened SearchTheorem
  import opened SearchMerge

  // ------------------------------------------------------------------ solutions

  /** `r` is `b`, or a strictly better incumbent taken from `pool`. */
  ghost predicate TakenFrom(b: Best, r: Best, pool: seq<Solution>) {
    r == b || (Lt(r.ub, b.ub) && r.inc.Some? && r.inc.value in pool)
  }

  lemma TakenWider(b: Best, r: Best, pool: seq<Solution>, more: seq<Solution>)
    requires TakenFrom(b, r, pool) && forall x :: x in pool ==> x in more
    ensures TakenFrom(b, r, more)
  {
  }

  lemma TakenChain(a: Best, b: Best, c: Best, pool: seq<Solution>)
    requires TakenFrom(a, b, pool) && TakenFrom(b, c, pool)
    ensures TakenFrom(a, c, pool)
  {
  }

  lemma AcceptsLower(g: Grid, t: Tolerances, inc: real, obj: real)
    requires ValidGrid(g) && ValidTolerances(t) && Accepts(g, t, Some(inc), obj)
    ensures obj < inc
  {
  }

  /** An offer leaves an incumbent, the one before or the solution offered. */
  lemma OfferTakes(m: Mip, t: Tolerances, b: Best, sol: Solution)
    requires ValidMip(m) && ValidTolerances(t) && BestInv(m, t, b)
    ensures var r := Offer(m.grid, t, b, sol); r.inc.Some? && TakenFrom(b, r, [sol])
  {
    if b.inc.Some? && Accepts(m.grid, t, Some(b.inc.value.obj), sol.obj) {
      AcceptsLower(m.grid, t, b.inc.value.obj, sol.obj);
    }
  }

  function Solutions(due: seq<Heuristic>): (r: seq<Solution>)
    ensures |r| == |due| && forall i :: 0 <= i < |due| ==> r[i] == due[i].sol
  {
    seq(|due|, i requires 0 <= i < |due| => due[i].sol)
  }

  ghost predicate AllSettled(m: Mip, t: Tolerances, b: Best, sols: seq<Solution>) {
    forall i :: 0 <= i < |sols| ==> Settled(m, t, b, sols[i].obj)
  }

  lemma AllSettledLower(m: Mip, t: Tolerances, b: Best, b': Best, sols: seq<Solution>)
    requires AllSettled(m, t, b, sols) && Le(b'.ub, b.ub)
    ensures AllSettled(m, t, b', sols)
  {
    forall i | 0 <= i < |sols| ensures Settled(m, t, b', sols[i].obj) { SettledLower(m, t, b, b', sols[i].obj); }
  }

  lemma AllSettledSnoc(m: Mip, t: Tolerances, b: Best, sols: seq<Solution>)
    requires sols != [] && AllSettled(m, t, b, sols[..|sols| - 1]) && Settled(m, t, b, sols[|sols| - 1].obj)
    ensures AllSettled(m, t, b, sols)
  {
    forall i | 0 <= i < |sols| ensures Settled(m, t, b, sols[i].obj) {
      if i < |sols| - 1 { assert Settled(m, t, b, sols[..|sols| - 1][i].obj); }
    }
  }

  /** What folding a pool into the incumbent achieves. */
  ghost predicate Folded(m: Mip, t: Tolerances, b: Best, r: Best, pool: seq<Solution>)
    requires ValidMip(m)
  {
    && BestInv(m, t, r) && Le(r.ub, b.ub) && TakenFrom(b, r, pool) && AllSettled(m, t, r, pool)
    && (r.inc.Some? <==> b.inc.Some? || pool != [])
  }

  lemma FoldStep(m: Mip, t: Tolerances, a: Best, b: Best, c: Best, pool: seq<Solution>)
    requires ValidMip(m) && pool != [] && Folded(m, t, a, b, pool[..|pool| - 1])
    requires BestInv(m, t, c) && Le(c.ub, b.ub) && Settled(m, t, c, pool[|pool| - 1].obj)
    requires TakenFrom(b, c, [pool[|pool| - 1]]) && c.inc.Some?
    ensures Folded(m, t, a, c, pool)
  {
    var n := |pool| - 1;
    LeTransitive(c.ub, b.ub, a.ub);
    TakenWider(a, b, pool[..n], pool);
    TakenWider(b, c, [pool[n]], pool);
    TakenChain(a, b, c, pool);
    AllSettledLower(m, t, b, c, pool[..n]);
    AllSettledSnoc(m, t, c, pool);
  }

  lemma FoldNone(m: Mip, t: Tolerances, b: Best)
    requires ValidMip(m) && BestInv(m, t, b)
    ensures Folded(m, t, b, b, [])
  {
  }

  lemma {:induction false} ReplayFolds(m: Mip, t: Tolerances, b: Best, due: seq<Heuristic>)
    requires ValidMip(m) && ValidTolerances(t) && BestInv(m, t, b)
    requires forall i :: 0 <= i < |due| ==> TrueSolution(m, t, due[i].sol)
    ensures Folded(m, t, b, Replay(m.grid, t, b, due), Solutions(due))
  {
    hide Folded, BestInv, Offer, Settled, TakenFrom, TrueSolution;
    if due == [] {
      FoldNone(m, t, b);
      assert Solutions(due) == [];
    } else {
      var n := |due| - 1;
      var c := Replay(m.grid, t, b, due[..n]);
      ReplayFolds(m, t, b, due[..n]);
      FoldedBest(m, t, b, c, Solutions(due[..n]));
      OfferKeeps(m, t, c, due[n].sol);
      OfferTakes(m, t, c, due[n].sol);
      assert Solutions(due)[..n] == Solutions(due[..n]);
      FoldStep(m, t, b, c, Replay(m.grid, t, b, due), Solutions(due));
    }
  }

  lemma FoldedBest(m: Mip, t: Tolerances, b: Best, r: Best, pool: seq<Solution>)
    requires ValidMip(m) && Folded(m, t, b, r, pool)
    ensures BestInv(m, t, r) && Le(r.ub, b.ub)
  {
  }

  lemma MergeTakes(m: Mip, t: Tolerances, b: Best, sol: Solution)
    requires ValidMip(m) && ValidTolerances(t) && BestInv(m, t, b)
    ensures var r := if Lt(Fin(sol.obj), b.ub) then Offer(m.grid, t, b, sol) else b;
            r.inc.Some? && TakenFrom(b, r, [sol])
  {
    if Lt(Fin(sol.obj), b.ub) { OfferTakes(m, t, b, sol); }
  }

  lemma {:induction false} MergeFolds(m: Mip, t: Tolerances, b: Best, sols: seq<Solution>)
    requires ValidMip(m) && ValidTolerances(t) && BestInv(m, t, b) && AllTrue(m, t, sols)
    ensures Folded(m, t, b, Merge(m.grid, t, b, sols), sols)
  {
    hide Folded, BestInv, Offer, Settled, TakenFrom, TrueSolution;
    if sols == [] {
      FoldNone(m, t, b);
    } else {
      var n := |sols| - 1;
      var c := Merge(m.grid, t, b, sols[..n]);
      MergeFolds(m, t, b, sols[..n]);
      FoldedBest(m, t, b, c, sols[..n]);
      MergeStep(m, t, c, sols[n]);
      MergeTakes(m, t, c, sols[n]);
      FoldStep(m, t, b, c, Merge(m.grid, t, b, sols), sols);
    }
  }

  lemma FoldedThen(m: Mip, t: Tolerances, a: Best, b: Best, c: Best, p: seq<Solution>, q: seq<Solution>)
    requires ValidMip(m) && Folded(m, t, a, b, p) && Folded(m, t, b, c, q)
    ensures Folded(m, t, a, c, p + q)
  {
    LeTransitive(c.ub, b.ub, a.ub);
    TakenWider(a, b, p, p + q);
    TakenWider(b, c, q, p + q);
    TakenChain(a, b, c, p + q);
    AllSettledLower(m, t, b, c, p);
    forall i | 0 <= i < |p + q| ensures Settled(m, t, c, (p + q)[i].obj) {
      if i < |p| { assert Settled(m, t, c, p[i].obj); } else { assert Settled(m, t, c, q[i - |p|].obj); }
    }
  }

  /** The callback folds in the due heuristic solutions, the workers' and the dives'. */
  lemma MergedFolds(m: Mip, t: Tolerances, s: State, i: SyncInput)
    requires ValidMip(m) && ValidTolerances(t) && FoundInv(m, t, s) && CanSync(m, t, s, i)
    ensures Folded(m, t, s.best, Merged(m.grid, t, s.best, i), Solutions(i.due) + i.found + i.dives)
  {
    DueTrue(m, t, s.queue, s.horizon);
    AllFoundTrue(m, t, s.workers);
    InSameMultiset(i.due, Due(s.queue, s.horizon));
    InSameMultiset(i.found, AllFound(s.workers));
    hide Folded, Due, AllFound, CanSync;
    ReplayFolds(m, t, s.best, i.due);
    var a := Replay(m.grid, t, s.best, i.due);
    FoldedBest(m, t, s.best, a, Solutions(i.due));
    MergeFolds(m, t, a, i.found);
    var b := Merge(m.grid, t, a, i.found);
    FoldedBest(m, t, a, b, i.found);
    MergeFolds(m, t, b, i.dives);
    FoldedThen(m, t, s.best, a, b, Solutions(i.due), i.found);
    FoldedThen(m, t, s.best, b, Merge(m.grid, t, b, i.dives), Solutions(i.due) + i.found, i.dives);
  }

  /** A solution reaches the callback from the queue, from a worker or from a dive. */
  ghost predicate Collected(s: State, i: SyncInput, sol: Solution) {
    || (exists h :: h in s.queue && h.stamp < s.horizon && h.sol == sol)
    || (exists w :: 0 <= w < |s.workers| && sol in s.workers[w].found)
    || sol in i.dives
  }

  lemma {:induction false} FoundBy(ws: seq<Worker>, sol: Solution)
    ensures sol in AllFound(ws) <==> exists w :: 0 <= w < |ws| && sol in ws[w].found
  {
    if ws != [] {
      FoundBy(ws[1..], sol);
      if sol in AllFound(ws[1..]) {
        var w :| 0 <= w < |ws[1..]| && sol in ws[1..][w].found;
        assert sol in ws[w + 1].found;
      }
      if exists w :: 0 <= w < |ws| && sol in ws[w].found {
        var w :| 0 <= w < |ws| && sol in ws[w].found;
        if w > 0 { assert sol in ws[1..][w - 1].found; }
      }
    }
  }

  lemma DueAre(s: State, i: SyncInput, sol: Solution)
    requires multiset(i.due) == multiset(Due(s.queue, s.horizon))
    ensures sol in Solutions(i.due) <==> exists h :: h in s.queue && h.stamp < s.horizon && h.sol == sol
  {
    forall h ensures h in i.due <==> h in s.queue && h.stamp < s.horizon {
      HorizonSplits(s.queue, s.horizon, h);
      assert h in multiset(i.due) <==> h in multiset(Due(s.queue, s.horizon));
    }
    if sol in Solutions(i.due) {
      var k :| 0 <= k < |i.due| && Solutions(i.due)[k] == sol;
      assert i.due[k] in i.due;
    }
    if h :| h in i.due && h.sol == sol {
      var k :| 0 <= k < |i.due| && i.due[k] == h;
      assert Solutions(i.due)[k] == sol;
    }
  }

  lemma PoolIsCollected(m: Mip, t: Tolerances, s: State, i: SyncInput, sol: Solution)
    requires ValidMip(m) && CanSync(m, t, s, i)
    ensures sol in Solutions(i.due) + i.found + i.dives <==> Collected(s, i, sol)
  {
    DueAre(s, i, sol);
    FoundBy(s.workers, sol);
    InSameMultiset(i.found, AllFound(s.workers));
    hide Due, AllFound;
  }

  /** After every callback of every run, no collected solution is better than the new bound by more
      than the slack: heuristic solutions stamped before the horizon, the workers' and the dives'
      alike. The bound falls only to a collected solution, which becomes the incumbent, and there is an
      incumbent exactly when there was one or anything was collected. */
  lemma CallbackSettles(m: Mip, t: Tolerances, ss: seq<State>, es: seq<Event>, k: nat)
    requires Setting(m, t) && Run(m, t, ss, es) && k < |es| && es[k].Syncing?
    ensures forall sol :: Collected(ss[k], es[k].input, sol) ==> Settled(m, t, ss[k + 1].best, sol.obj)
    ensures ss[k + 1].best != ss[k].best ==>
              Lt(ss[k + 1].best.ub, ss[k].best.ub) && ss[k + 1].best.inc.Some? && Collected(ss[k], es[k].input, ss[k + 1].best.inc.value)
    ensures ss[k + 1].best.inc.Some? <==> ss[k].best.inc.Some? || exists sol :: Collected(ss[k], es[k].input, sol)
  {
    RunInv(m, t, ss, es, k);
    RunStep(m, t, ss, es, k);
    SyncSettles(m, t, ss[k], es[k].input, ss[k + 1]);
  }

  lemma SyncSettles(m: Mip, t: Tolerances, s: State, i: SyncInput, s': State)
    requires Setting(m, t) && FoundInv(m, t, s) && CanSync(m, t, s, i) && s' == Sync(m.grid, t, s, i)
    ensures forall sol :: Collected(s, i, sol) ==> Settled(m, t, s'.best, sol.obj)
    ensures s'.best != s.best ==> Lt(s'.best.ub, s.best.ub) && s'.best.inc.Some? && Collected(s, i, s'.best.inc.value)
    ensures s'.best.inc.Some? <==> s.best.inc.Some? || exists sol :: Collected(s, i, sol)
  {
    SyncHasEffect(m, t, s, i);
    MergedFolds(m, t, s, i);
    hide Sync, FoundInv, CanSync, Collected, Settled, Merged;
    var pool := Solutions(i.due) + i.found + i.dives;
    forall sol ensures sol in pool <==> Collected(s, i, sol) { PoolIsCollected(m, t, s, i, sol); }
    forall sol | Collected(s, i, sol) ensures Settled(m, t, s'.best, sol.obj) {
      var j :| 0 <= j < |pool| && pool[j] == sol;
    }
    if pool != [] { assert pool[0] in pool; }
  }

  // ------------------------------------------------------------------ queue, bounds and workers

  /** `e` is the least of `all` and `start`: below each of them and one of them. */
  ghost predicate LeastOf(e: Ext, all: seq<Ext>, start: Ext) {
    && Le(e, start) && (forall i :: 0 <= i < |all| ==> Le(e, all[i]))
    && (e == start || e in all)
  }

  lemma {:induction false} MinIsLeast(all: seq<Ext>, start: Ext)
    ensures LeastOf(Min(MinOf(all), start), all, start)
  {
    if all != [] {
      MinIsLeast(all[1..], start);
      var e, r := Min(MinOf(all), start), Min(MinOf(all[1..]), start);
      forall i | 0 <= i < |all| ensures Le(e, all[i]) {
        if i > 0 { assert Le(r, all[1..][i - 1]); }
      }
    }
  }

  /** What a callback leaves behind besides the incumbent: later heuristic solutions stay queued, the
      horizon advances, the numerical bound is the least of itself and the ceilings, and each worker
      keeps its node, leaf bounds, ceiling and counters, with an empty solution queue and the merged
      bound. */
  lemma CallbackLeaves(m: Mip, t: Tolerances, ss: seq<State>, es: seq<Event>, k: nat, h: Heuristic, w: nat)
    requires Setting(m, t) && Run(m, t, ss, es) && k < |es| && es[k].Syncing? && w < |ss[k].workers|
    ensures multiset(ss[k + 1].queue)[h] == if h.stamp < ss[k].horizon then 0 else multiset(ss[k].queue)[h]
    ensures ss[k + 1].horizon == ss[k].horizon + es[k].input.step && ss[k + 1].nodes == ss[k].nodes
    ensures LeastOf(ss[k + 1].numerical, Ceilings(ss[k].workers), ss[k].numerical)
    ensures |ss[k + 1].workers| == |ss[k].workers|
    ensures var a, b := ss[k].workers[w], ss[k + 1].workers[w];
            && b.found == [] && b.localUb == ss[k + 1].best.ub && b.current == a.current && b.lastSolved == a.lastSolved
            && b.box == a.box && b.ceiling == a.ceiling && b.nextSeq == a.nextSeq && b.nextSol == a.nextSol
            && (a.phase.Stalled? ==> b.phase.Resumed?) && (!a.phase.Stalled? ==> b.phase == a.phase)
  {
    RunStep(m, t, ss, es, k);
    var s, i := ss[k], es[k].input;
    SyncHasEffect(m, t, s, i);
    assert Refreshed(s.workers[w], ss[k + 1].workers[w], ss[k + 1].best.ub);
    HorizonSplits(s.queue, s.horizon, h);
    MinIsLeast(Ceilings(s.workers), s.numerical);
    HorizonMoves(m.grid, t, s, i);
    hide Sync, SyncEffect, Future, Ceilings, LeastOf, Run, Setting;
  }

  lemma HorizonMoves(g: Grid, t: Tolerances, s: State, i: SyncInput)
    requires ValidGrid(g)
    ensures Sync(g, t, s, i).horizon == s.horizon + i.step
  {
    hide Merged, Balance, Broadcast, Ceilings, Future, Judge, HeldInTree;
  }

  // ------------------------------------------------------------------ the verdict

  /** The reported bound is the least of the numerical bound and the bounds of the held
      nodes, except that an incumbent's bound stands in when all of these are infinite. */
  ghost predicate BoundFits(s: State)
    requires HeldInTree(s)
  {
    var lb, bounds := ReportedBound(s), HeldBounds(s.nodes, HeldList(s.workers));
    if s.best.inc.Some? && s.numerical == PosInf && AllInfinite(bounds) then lb == s.best.ub
    else LeastOf(lb, bounds, s.numerical)
  }

  lemma ReportedAttained(s: State)
    requires HeldInTree(s)
    ensures BoundFits(s)
  {
    var bounds := HeldBounds(s.nodes, HeldList(s.workers));
    var e := Min(MinOf(bounds), s.numerical);
    assert ReportedBound(s) == if e == PosInf && s.best.inc.Some? then s.best.ub else e;
    MinIsLeast(bounds, s.numerical);
    InfiniteLeast(e, bounds, s.numerical);
    hide LeastOf, HeldBounds, HeldList, MinOf, Min, AllInfinite;
  }

  predicate AllInfinite(all: seq<Ext>) {
    forall i :: 0 <= i < |all| ==> all[i] == PosInf
  }

  lemma InfiniteLeast(e: Ext, all: seq<Ext>, start: Ext)
    requires LeastOf(e, all, start)
    ensures e == PosInf <==> start == PosInf && AllInfinite(all)
  {
    if e == PosInf {
      forall i | 0 <= i < |all| ensures all[i] == PosInf { assert Le(e, all[i]); }
    }
  }

  /** Two finite bounds are close: their distance in the user's objective is within the absolute gap, or
      within the relative gap of the upper one. */
  predicate Close(g: Gaps, ub: real, lb: real) {
    var u, l := g.scale * (ub + g.constant), g.scale * (lb + g.constant);
    || Abs(g.scale) * (ub - lb) <= g.absolute
    || (if u == 0.0 then l == 0.0 && 0.0 <= g.relative else Abs(u - l) / Abs(u) <= g.relative)
  }

  ghost predicate Closed(s: State, g: Gaps)
    requires HeldInTree(s)
  {
    s.best.ub.Fin? && ReportedBound(s).Fin? && Close(g, s.best.ub.v, ReportedBound(s).v)
  }

  /** With no work left the verdict is decided by the upper bound alone. Otherwise it is optimal exactly
      when both bounds are finite and close, a limit counts only where they are not, and the search goes
      on in all other cases. */
  ghost predicate VerdictFits(s: State, g: Gaps, overBudget: bool)
    requires HeldInTree(s)
  {
    if forall w :: 0 <= w < |s.workers| ==> !HasWork(s.workers[w])
    then s.verdict == (if s.best.ub == PosInf then NoSolution else Optimal)
    else
      && (s.verdict == Optimal <==> Closed(s, g))
      && (s.verdict == OutOfBudget <==> !Closed(s, g) && overBudget)
      && (s.verdict == Unset <==> !Closed(s, g) && !overBudget)
  }

  lemma JudgeFits(s: State, g: Gaps, overBudget: bool)
    requires HeldInTree(s) && s.verdict == Judge(s, g, overBudget)
    ensures VerdictFits(s, g, overBudget)
  {
    hide ReportedBound, HeldInTree;
  }

  /** The verdict of every callback of every run, and the bound it reads. */
  lemma VerdictExact(m: Mip, t: Tolerances, ss: seq<State>, es: seq<Event>, k: nat)
    requires Setting(m, t) && Run(m, t, ss, es) && k < |es| && es[k].Syncing?
    ensures HeldInTree(ss[k + 1]) && VerdictFits(ss[k + 1], es[k].input.gaps, es[k].input.overBudget)
    ensures BoundFits(ss[k + 1])
  {
    hide Judge, VerdictFits, HeldInTree, BoundFits;
    VerdictJudged(m, t, ss, es, k);
    JudgeFits(ss[k + 1], es[k].input.gaps, es[k].input.overBudget);
    ReportedAttained(ss[k + 1]);
  }

  // ------------------------------------------------------------------ dealing backlogs

  lemma MulOrder(a: int, b: int, n: nat)
    requires n > 0
    ensures a * n < b * n <==> a < b
  {
    if a < b { assert (b - a) * n > 0; }
    if b <= a { assert (a - b) * n >= 0; }
  }

  lemma ModOf(w: nat, l: nat, n: nat)
    requires w < n
    ensures (w + l * n) % n == w
  {
    if l > 0 {
      ModOf(w, l - 1, n);
      assert w + l * n == (w + (l - 1) * n) + n;
      AddMod(w + (l - 1) * n, n);
    } else {
      assert l * n == 0;
    }
  }

  lemma AddMod(a: nat, n: nat)
    requires n > 0
    ensures (a + n) % n == a % n
  {
    var q, r := a / n, a % n;
    assert a + n == (q + 1) * n + r;
    SameQuotient(a + n, (a + n) / n, (a + n) % n, q + 1, r, n);
  }

  lemma SameQuotient(x: int, q: int, r: int, p: int, s: int, n: nat)
    requires 0 <= r < n && 0 <= s < n && x == q * n + r && x == p * n + s
    ensures q == p && r == s
  {
    MulOrder(q, p, n);
    MulOrder(p, q, n);
    MulOrder(q + 1, p, n);
    MulOrder(p + 1, q, n);
    assert (q + 1) * n == q * n + n && (p + 1) * n == p * n + n;
  }

  /** `l` of the first `len` positions are w modulo n: w, w + n, w + 2n and so on. */
  predicate Reaches(len: nat, w: nat, n: nat, l: nat) {
    len <= w + l * n && (l > 0 ==> w + (l - 1) * n < len)
  }

  lemma ReachNext(len: nat, w: nat, n: nat, l: nat)
    requires w < n && Reaches(len, w, n, l)
    ensures len % n == w <==> len == w + l * n
    ensures Reaches(len + 1, w, n, if len % n == w then l + 1 else l)
  {
    ModOf(w, l, n);
    if len % n == w {
      var q := len / n;
      assert len == q * n + w;
      MulOrder(l, q, n);
      MulOrder(l - 1, q, n);
    }
    assert (l + 1) * n == l * n + n;
  }

  /** On top of `base` the stack holds the entries of `order` at w, w + n, w + 2n, ..., the last on top. */
  ghost predicate DealtTo(stack: seq<nat>, base: seq<nat>, order: seq<nat>, w: nat, n: nat) {
    var l := |stack| - |base|;
    && l >= 0 && Reaches(|order|, w, n, l) && stack[l..] == base
    && forall p :: 0 <= p < l ==> DealtAt(stack, order, l, p, w, n)
  }

  /** Position p of the l dealt ones holds the entry l - 1 - p strides on. */
  predicate DealtAt(stack: seq<nat>, order: seq<nat>, l: int, p: int, w: nat, n: nat) {
    var i := w + (l - 1 - p) * n;
    0 <= p < |stack| && 0 <= i < |order| && stack[p] == order[i]
  }

  lemma DealtNext(stack: seq<nat>, base: seq<nat>, order: seq<nat>, w: nat, n: nat, id: nat)
    requires w < n && DealtTo(stack, base, order, w, n)
    ensures DealtTo(if |order| % n == w then [id] + stack else stack, base, order + [id], w, n)
  {
    var l := |stack| - |base|;
    ReachNext(|order|, w, n, l);
    hide Reaches;
    if |order| % n == w {
      var s, k := [id] + stack, l + 1;
      assert s[k..] == stack[l..];
      forall p | 0 <= p < k ensures DealtAt(s, order + [id], k, p, w, n) {
        if p > 0 {
          assert DealtAt(stack, order, l, p - 1, w, n);
          assert k - 1 - p == l - 1 - (p - 1);
        }
      }
    } else {
      forall p | 0 <= p < l ensures DealtAt(stack, order + [id], l, p, w, n) {
        assert DealtAt(stack, order, l, p, w, n);
      }
    }
  }

  lemma {:induction false} DealDeals(ws: seq<Worker>, order: seq<nat>, w: nat)
    requires w < |ws|
    ensures DealtTo(Deal(ws, order)[w].plunge, ws[w].plunge, order, w, |ws|)
    ensures Deal(ws, order)[w].backlog == ws[w].backlog
  {
    if order != [] {
      var i := |order| - 1;
      DealDeals(ws, order[..i], w);
      DealtNext(Deal(ws, order[..i])[w].plunge, ws[w].plunge, order[..i], w, |ws|, order[i]);
      assert order == order[..i] + [order[i]];
      hide DealtTo;
    } else {
      assert ws[w].plunge[0..] == ws[w].plunge;
    }
  }

  /** Shares differ by at most one. */
  lemma SharesEven(len: nat, n: nat, v: nat, w: nat, k: nat, l: nat)
    requires v < n && w < n && Reaches(len, v, n, k) && Reaches(len, w, n, l)
    ensures k <= l + 1 && l <= k + 1
  {
    assert (k - 1) * n == k * n - n && (l - 1) * n == l * n - n;
    assert (l + 1) * n == l * n + n && (k + 1) * n == k * n + n;
    if k > 0 { MulOrder(k - 1, l + 1, n); }
    if l > 0 { MulOrder(l - 1, k + 1, n); }
  }

  /** A worker is overloaded beside another: two or more nodes to none, or more than four times as many. */
  predicate Uneven(few: nat, many: nat) {
    (few == 0 && 2 <= many) || (few > 0 && 4 * few < many)
  }

  /** Some worker is overloaded beside another. */
  ghost predicate Unbalanced(ws: seq<Worker>) {
    exists v, w :: 0 <= v < |ws| && 0 <= w < |ws| && Uneven(QueueSize(ws[v]), QueueSize(ws[w]))
  }

  lemma {:induction false} ExtremesExist(ws: seq<Worker>, l: nat) returns (i: nat, j: nat)
    requires 0 < l <= |ws|
    ensures i < l && j < l && forall k :: 0 <= k < l ==> QueueSize(ws[i]) <= QueueSize(ws[k]) <= QueueSize(ws[j])
  {
    hide QueueSize;
    if l == 1 {
      i, j := 0, 0;
    } else {
      i, j := ExtremesExist(ws, l - 1);
      if QueueSize(ws[l - 1]) < QueueSize(ws[i]) { i := l - 1; }
      if QueueSize(ws[l - 1]) > QueueSize(ws[j]) { j := l - 1; }
    }
  }

  /** The test on the least and the greatest size finds every overload. */
  lemma BalanceNeeded(ws: seq<Worker>)
    ensures NeedsBalance(ws) <==> Unbalanced(ws)
  {
    hide QueueSize;
    if NeedsBalance(ws) {
      var i: nat, j: nat :| i < |ws| && j < |ws| && Extreme(ws, i, j) && Lopsided(QueueSize(ws[i]), QueueSize(ws[j]));
      assert Uneven(QueueSize(ws[i]), QueueSize(ws[j]));
    }
    if Unbalanced(ws) {
      var v, w :| 0 <= v < |ws| && 0 <= w < |ws| && Uneven(QueueSize(ws[v]), QueueSize(ws[w]));
      var i, j := ExtremesExist(ws, |ws|);
      assert Extreme(ws, i, j) && Lopsided(QueueSize(ws[i]), QueueSize(ws[j]));
    }
  }

  /** A worker's size is the number of nodes it holds. */
  lemma SizeCounts(k: Worker)
    ensures QueueSize(k) == |HeldOne(k)|
  {
    assert |multiset(k.plunge)| == |k.plunge| && |multiset(k.backlog)| == |k.backlog|;
  }

  /** Rebalancing happens exactly when some worker is overloaded beside another. Then every backlog is
      dealt out in creation order, round robin, onto the stacks, so that no worker is dealt more than one
      node beyond another. */
  lemma CallbackBalances(m: Mip, t: Tolerances, ss: seq<State>, es: seq<Event>, k: nat, w: nat)
    requires Setting(m, t) && Run(m, t, ss, es) && k < |es| && es[k].Syncing? && w < |ss[k].workers|
    ensures w < |ss[k + 1].workers|
    ensures var a, b, order := ss[k].workers[w], ss[k + 1].workers[w], es[k].input.order;
            && multiset(order) == multiset(AllBacklogs(ss[k].workers)) && InCreationOrder(ss[k].nodes, order)
            && if Unbalanced(ss[k].workers) then b.backlog == [] && DealtTo(b.plunge, a.plunge, order, w, |ss[k].workers|)
               else b.backlog == a.backlog && b.plunge == a.plunge
  {
    RunStep(m, t, ss, es, k);
    BalanceNeeded(ss[k].workers);
    SyncDeals(m.grid, t, ss[k], es[k].input, w);
    hide Sync, DealtTo, Unbalanced, AllBacklogs, InCreationOrder, Run, NeedsBalance;
  }

  lemma SyncDeals(g: Grid, t: Tolerances, s: State, i: SyncInput, w: nat)
    requires ValidGrid(g) && w < |s.workers|
    ensures var a, r := s.workers[w], Sync(g, t, s, i);
            && w < |r.workers|
            && if NeedsBalance(s.workers)
               then r.workers[w].backlog == [] && DealtTo(r.workers[w].plunge, a.plunge, i.order, w, |s.workers|)
               else r.workers[w].backlog == a.backlog && r.workers[w].plunge == a.plunge
  {
    hide NeedsBalance, DealtTo, Judge, Merged, Ceilings, Deal, HeldInTree, Future;
    DealDeals(DropBacklogs(s.workers), i.order, w);
    assert Sync(g, t, s, i).workers == Broadcast(Balance(s.workers, i.order), Merged(g, t, s.best, i).ub);
  }

  /** No worker is dealt two nodes more than another. */
  lemma DealtEvenly(a: seq<nat>, b: seq<nat>, baseA: seq<nat>, baseB: seq<nat>, order: seq<nat>, v: nat, w: nat, n: nat)
    requires v < n && w < n && DealtTo(a, baseA, order, v, n) && DealtTo(b, baseB, order, w, n)
    ensures |a| - |baseA| <= |b| - |baseB| + 1
  {
    SharesEven(|order|, n, v, w, |a| - |baseA|, |b| - |baseB|);
    hide Reaches;
  }
}
