/** The callback depends on what was collected, not on the order of collection. */
module SearchMerge {
  import opened Extended
  import opened Lattice
  import opened BoundWalk
  import opened SearchModel
  import opened SearchInvariant
  import opened SearchTheorem

  // ------------------------------------------------------------------ sorted permutations are unique

  ghost predicate Ordered<T(!new)>(s: seq<T>, less: (T, T) -> bool) {
    forall i, j :: 0 <= i < j < |s| ==> !less(s[j], s[i])
  }

  /** Any two different members are ordered. */
  ghost predicate Separates<T(!new)>(s: seq<T>, less: (T, T) -> bool) {
    forall x, y :: x in s && y in s && x != y ==> less(x, y) || less(y, x)
  }

  /** Two sorted sequences of the same items, any two of which are ordered, are the same. */
  lemma {:induction false} SortedUnique<T(!new)>(a: seq<T>, b: seq<T>, less: (T, T) -> bool)
    requires multiset(a) == multiset(b) && Ordered(a, less) && Ordered(b, less) && Separates(a, less)
    ensures a == b
  {
    hide Ordered, Separates;
    SameLength(a, b);
    if a != [] {
      HeadsAgree(a, b, less);
      TailItems(a);
      TailItems(b);
      TailOrdered(a, less);
      TailOrdered(b, less);
      SortedUnique(a[1..], b[1..], less);
      SameParts(a, b);
    }
  }

  lemma SameParts<T>(a: seq<T>, b: seq<T>)
    requires a != [] && b != [] && a[0] == b[0] && a[1..] == b[1..]
    ensures a == b
  {
    assert a == [a[0]] + a[1..] && b == [b[0]] + b[1..];
  }

  lemma SameLength<T>(a: seq<T>, b: seq<T>)
    requires multiset(a) == multiset(b)
    ensures |a| == |b|
  {
    assert |multiset(a)| == |a| && |multiset(b)| == |b|;
  }

  lemma HeadsAgree<T(!new)>(a: seq<T>, b: seq<T>, less: (T, T) -> bool)
    requires multiset(a) == multiset(b) && Ordered(a, less) && Ordered(b, less) && Separates(a, less) && a != [] && b != []
    ensures a[0] == b[0]
  {
    assert a[0] in multiset(b) && b[0] in multiset(a);
    var j :| 0 <= j < |b| && b[j] == a[0];
    var i :| 0 <= i < |a| && a[i] == b[0];
  }

  lemma TailItems<T>(a: seq<T>)
    requires a != []
    ensures multiset(a[1..]) == multiset(a) - multiset{a[0]}
  {
    assert a == [a[0]] + a[1..];
  }

  lemma TailOrdered<T(!new)>(a: seq<T>, less: (T, T) -> bool)
    requires Ordered(a, less) && a != []
    ensures Ordered(a[1..], less) && (Separates(a, less) ==> Separates(a[1..], less))
  {
  }

  // ------------------------------------------------------------------ worker solutions

  /** Solutions are told apart by worker and sequence number. */
  ghost predicate Keyed(sols: seq<Solution>) {
    forall x, y :: x in sols && y in sols && x.worker == y.worker && x.seqNo == y.seqNo ==> x == y
  }

  lemma SolutionsUnique(a: seq<Solution>, b: seq<Solution>)
    requires multiset(a) == multiset(b) && MergeSorted(a) && MergeSorted(b) && Keyed(a)
    ensures a == b
  {
    SortedUnique(a, b, SolutionLess);
  }

  /** Accepting an objective means accepting any smaller one. */
  lemma AcceptsMonotone(g: Grid, t: Tolerances, inc: Option<real>, v: real, w: real)
    requires ValidGrid(g) && v <= w && Accepts(g, t, inc, w)
    ensures Accepts(g, t, inc, v)
  {
  }

  lemma OfferRaises(g: Grid, t: Tolerances, b: Best, first: Solution, later: Solution)
    requires ValidGrid(g) && first.obj <= later.obj
    requires b.inc.Some? ==> b.ub == Fin(b.inc.value.obj)
    ensures var c := if Lt(Fin(first.obj), b.ub) then Offer(g, t, b, first) else b;
            Lt(Fin(later.obj), c.ub) ==> Offer(g, t, c, later) == c
  {
    var inc := if b.inc.Some? then Some(b.inc.value.obj) else None;
    if Accepts(g, t, inc, later.obj) { AcceptsMonotone(g, t, inc, first.obj, later.obj); }
  }

  /** By objective, then worker, then number. */
  predicate NoLater(a: Solution, b: Solution) {
    a.obj < b.obj || (a.obj == b.obj && (a.worker < b.worker || (a.worker == b.worker && a.seqNo <= b.seqNo)))
  }

  /** At most one solution of a pool is accepted: the first in merge order, a minimum of the pool. */
  lemma {:induction false} MergeTakesFirst(g: Grid, t: Tolerances, b: Best, sols: seq<Solution>)
    requires ValidGrid(g) && MergeSorted(sols) && sols != [] && (b.inc.Some? ==> b.ub == Fin(b.inc.value.obj))
    ensures Merge(g, t, b, sols) == if Lt(Fin(sols[0].obj), b.ub) then Offer(g, t, b, sols[0]) else b
    ensures forall k :: 0 <= k < |sols| ==> NoLater(sols[0], sols[k])
  {
    var n := |sols| - 1;
    if n == 0 {
      assert sols[..0] == [];
    } else {
      MergeTakesFirst(g, t, b, sols[..n]);
      assert !SolutionLess(sols[n], sols[0]);
      OfferRaises(g, t, b, sols[0], sols[n]);
    }
  }

  // ------------------------------------------------------------------ heuristic solutions

  lemma {:induction false} LexTotal(a: seq<real>, b: seq<real>)
    ensures a == b || LexLess(a, b) || LexLess(b, a)
  {
    if a != [] && b != [] {
      LexTotal(a[1..], b[1..]);
      if a[0] == b[0] && a[1..] == b[1..] { assert a == [a[0]] + a[1..] && b == [b[0]] + b[1..]; }
    }
  }

  /** The first difference decides; a proper prefix comes first. */
  lemma {:induction false} LexSays(a: seq<real>, b: seq<real>)
    ensures LexLess(a, b) <==> exists k :: LexAt(a, b, k)
  {
    if a != [] && b != [] && a[0] == b[0] {
      LexSays(a[1..], b[1..]);
      if LexLess(a[1..], b[1..]) {
        var k :| LexAt(a[1..], b[1..], k);
        assert a[..k + 1] == [a[0]] + a[1..][..k] && b[..k + 1] == [b[0]] + b[1..][..k];
        assert LexAt(a, b, k + 1);
      }
      if k :| LexAt(a, b, k) {
        assert k > 0;
        assert a[1..][..k - 1] == a[..k][1..] && b[1..][..k - 1] == b[..k][1..];
        assert LexAt(a[1..], b[1..], k - 1);
      }
    } else if b != [] && (a == [] || a[0] < b[0]) {
      assert LexAt(a, b, 0);
    }
  }

  /** The sequences agree up to position k, where the first one ends or is smaller. */
  predicate LexAt(a: seq<real>, b: seq<real>, k: int) {
    0 <= k <= |a| && k < |b| && a[..k] == b[..k] && (k == |a| || a[k] < b[k])
  }

  lemma HeuristicTotal(a: Heuristic, b: Heuristic)
    requires External(a) && External(b)
    ensures a == b || HeuristicLess(a, b) || HeuristicLess(b, a)
  {
    LexTotal(a.sol.x, b.sol.x);
  }

  /** The replay order is canonical. */
  lemma HeuristicsUnique(a: seq<Heuristic>, b: seq<Heuristic>)
    requires multiset(a) == multiset(b) && ReplaySorted(a) && ReplaySorted(b) && forall h :: h in a ==> External(h)
    ensures a == b
    ensures forall i, j :: 0 <= i < j < |a| ==> a[i].stamp < a[j].stamp || (a[i].stamp == a[j].stamp && a[i].sol.obj <= a[j].sol.obj)
  {
    forall x, y | x in a && y in a && x != y ensures HeuristicLess(x, y) || HeuristicLess(y, x) {
      HeuristicTotal(x, y);
    }
    SortedUnique(a, b, HeuristicLess);
  }

  /** The horizon splits the queue: earlier stamps are due, the others stay as they are, in order and
      number. */
  lemma {:induction false} HorizonSplits(queue: seq<Heuristic>, horizon: real, h: Heuristic)
    ensures multiset(Due(queue, horizon))[h] == if h.stamp < horizon then multiset(queue)[h] else 0
    ensures multiset(Future(queue, horizon))[h] == if h.stamp < horizon then 0 else multiset(queue)[h]
  {
    if queue != [] {
      HorizonSplits(queue[1..], horizon, h);
      assert queue == [queue[0]] + queue[1..];
      assert multiset(Due(queue, horizon)) ==
        multiset(if queue[0].stamp < horizon then [queue[0]] else []) + multiset(Due(queue[1..], horizon));
      assert multiset(Future(queue, horizon)) ==
        multiset(if queue[0].stamp < horizon then [] else [queue[0]]) + multiset(Future(queue[1..], horizon));
    }
  }

  /** Queues with the same items, in any order, are due and kept alike. */
  lemma QueueOrderIrrelevant(p: seq<Heuristic>, q: seq<Heuristic>, horizon: real)
    requires multiset(p) == multiset(q)
    ensures multiset(Due(p, horizon)) == multiset(Due(q, horizon))
    ensures multiset(Future(p, horizon)) == multiset(Future(q, horizon))
  {
    forall h ensures multiset(Due(p, horizon))[h] == multiset(Due(q, horizon))[h] {
      HorizonSplits(p, horizon, h);
      HorizonSplits(q, horizon, h);
    }
    forall h ensures multiset(Future(p, horizon))[h] == multiset(Future(q, horizon))[h] {
      HorizonSplits(p, horizon, h);
      HorizonSplits(q, horizon, h);
    }
  }
}
