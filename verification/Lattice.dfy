/** Objective lattices: snapping a bound, the node cutoff and the incumbent test. */
module Lattice {
  import opened Extended

  /** `Smooth`: the objective moves freely. `Stepped(s, b)`: values are k*s + b. An objective
      declared integral is `Stepped(1.0, 0.0)`. */
  datatype Grid = Smooth | Stepped(step: real, bias: real)

  datatype Tolerances = Tolerances(primal: real, dual: real, integer: real, fathom: real)

  ghost predicate ValidGrid(g: Grid) {
    g.Stepped? ==> g.step > 0.0
  }

  ghost predicate ValidTolerances(t: Tolerances) {
    t.primal >= 0.0 && t.dual >= 0.0 && 0.0 <= t.integer < 1.0 && t.fathom >= 0.0
  }

  function GridValue(g: Grid, k: int): real
    requires g.Stepped?
  {
    k as real * g.step + g.bias
  }

  ghost predicate OnGrid(g: Grid, v: real) {
    g.Stepped? ==> exists k: int :: v == GridValue(g, k)
  }

  function Ceil(x: real): (c: int)
    ensures x <= c as real < x + 1.0
  {
    -((-x).Floor)
  }

  /** The least grid index whose value reaches `v`, up to the integer tolerance. */
  function GridIndex(g: Grid, t: Tolerances, v: real): int
    requires ValidGrid(g) && g.Stepped?
  {
    Ceil((v - g.bias) / g.step - t.integer)
  }

  /** snap_to_lattice: the node bound derived from the leaf objective. */
  function Snap(g: Grid, t: Tolerances, leaf: real): real
    requires ValidGrid(g)
  {
    if g.Stepped? then GridValue(g, GridIndex(g, t, leaf))
    else leaf
  }

  /** The greatest grid value strictly below `upper`, up to the integer tolerance. */
  function GridBelow(g: Grid, t: Tolerances, upper: real): real
    requires ValidGrid(g) && g.Stepped?
  {
    GridValue(g, GridIndex(g, t, upper) - 1)
  }

  /** compute_node_cutoff */
  function NodeCutoff(g: Grid, t: Tolerances, upper: real): real
    requires ValidGrid(g)
  {
    if g.Stepped? then GridBelow(g, t, upper) + t.dual else upper + t.dual
  }

  /** The value accept_new_incumbent compares a candidate against. */
  function Threshold(g: Grid, t: Tolerances, incumbent: real): real
    requires ValidGrid(g)
  {
    if g.Stepped? then
      var half := NodeCutoff(g, t, incumbent) - t.dual + 0.5 * g.step;
      if half < incumbent - t.primal then half else incumbent - t.primal
    else
      incumbent - t.primal
  }

  /** accept_new_incumbent */
  predicate Accepts(g: Grid, t: Tolerances, incumbent: Option<real>, obj: real)
    requires ValidGrid(g)
  {
    incumbent.None? || obj < Threshold(g, t, incumbent.value)
  }

  // ---------------------------------------------------------------- grid facts

  lemma GridOrder(g: Grid, j: int, k: int)
    requires ValidGrid(g) && g.Stepped?
    ensures j == k ==> GridValue(g, j) == GridValue(g, k)
    ensures j < k ==> GridValue(g, j) + g.step <= GridValue(g, k)
    ensures k < j ==> GridValue(g, k) + g.step <= GridValue(g, j)
    ensures GridValue(g, k - 1) == GridValue(g, k) - g.step
  {
    var d := (k - j) as real;
    assert GridValue(g, k) - GridValue(g, j) == d * g.step;
    if j < k { ProductNonneg(d - 1.0, g.step); }
    if k < j { ProductNonneg(-d - 1.0, g.step); }
  }

  /** Where the computed index sits: at or above `v` less the tolerance, by less than a step. */
  lemma IndexBracket(g: Grid, t: Tolerances, v: real)
    requires ValidGrid(g) && g.Stepped?
    ensures v - t.integer * g.step <= GridValue(g, GridIndex(g, t, v))
    ensures GridValue(g, GridIndex(g, t, v)) < v - t.integer * g.step + g.step
  {
    var q, c := (v - g.bias) / g.step, GridIndex(g, t, v) as real;
    var d := c - (q - t.integer);
    assert 0.0 <= d < 1.0;
    assert q * g.step == v - g.bias;
    assert GridValue(g, GridIndex(g, t, v)) == v - t.integer * g.step + d * g.step;
    Proper(d, g.step);
  }

  lemma ProductNonneg(a: real, b: real)
    requires a >= 0.0 && b >= 0.0
    ensures a * b >= 0.0
  {
  }

  lemma Proper(d: real, step: real)
    requires 0.0 <= d < 1.0 && step > 0.0
    ensures 0.0 <= d * step < step
  {
    assert (1.0 - d) * step > 0.0;
  }

  lemma IndexExact(g: Grid, t: Tolerances, k: int)
    requires ValidGrid(g) && ValidTolerances(t) && g.Stepped?
    ensures GridIndex(g, t, GridValue(g, k)) == k
  {
    IndexBracket(g, t, GridValue(g, k));
    Proper(t.integer, g.step);
    GridOrder(g, GridIndex(g, t, GridValue(g, k)), k);
  }

  // ---------------------------------------------------------------- main results

  /** Snapping never cuts off an attainable objective at or above the leaf objective. */
  lemma SnapSound(g: Grid, t: Tolerances, leaf: real, v: real)
    requires ValidGrid(g) && ValidTolerances(t)
    requires OnGrid(g, v) && leaf <= v
    ensures Snap(g, t, leaf) <= v
  {
    if g.Stepped? {
      var k: int :| v == GridValue(g, k);
      IndexBracket(g, t, leaf);
      Proper(t.integer, g.step);
      GridOrder(g, GridIndex(g, t, leaf), k);
    }
  }

  /** The snapped bound is the least lattice value that reaches the leaf objective up to the integer
      tolerance of a step; without a lattice it is the leaf objective. */
  lemma SnapLeast(g: Grid, t: Tolerances, leaf: real)
    requires ValidGrid(g)
    ensures g.Smooth? ==> Snap(g, t, leaf) == leaf
    ensures g.Stepped? ==> OnGrid(g, Snap(g, t, leaf)) && leaf - t.integer * g.step <= Snap(g, t, leaf)
    ensures g.Stepped? ==> forall v :: OnGrid(g, v) && leaf - t.integer * g.step <= v ==> Snap(g, t, leaf) <= v
  {
    if g.Stepped? {
      IndexBracket(g, t, leaf);
      forall v | OnGrid(g, v) && leaf - t.integer * g.step <= v ensures Snap(g, t, leaf) <= v {
        var k: int :| v == GridValue(g, k);
        GridOrder(g, GridIndex(g, t, leaf), k);
      }
    }
  }

  /** A child whose leaf objective is no smaller snaps no lower. */
  lemma SnapMonotone(g: Grid, t: Tolerances, a: real, b: real)
    requires ValidGrid(g) && a <= b
    ensures Snap(g, t, a) <= Snap(g, t, b)
  {
    if g.Stepped? {
      IndexBracket(g, t, a);
      IndexBracket(g, t, b);
      GridOrder(g, GridIndex(g, t, a), GridIndex(g, t, b));
    }
  }

  /** On an on-grid upper bound the cutoff keeps exactly the strictly better grid values. */
  lemma CutoffKeepsBetter(g: Grid, t: Tolerances, upper: real, v: real)
    requires ValidGrid(g) && ValidTolerances(t) && g.Stepped?
    requires OnGrid(g, upper) && OnGrid(g, v)
    requires t.dual < g.step
    ensures v <= NodeCutoff(g, t, upper) <==> v < upper
  {
    var k: int :| upper == GridValue(g, k);
    var j: int :| v == GridValue(g, j);
    IndexExact(g, t, k);
    GridOrder(g, j, k);
  }

  /** With primal_tol below the step, an on-grid incumbent is replaced by exactly the strictly
      better grid objectives. */
  lemma AcceptsExactlyBetter(g: Grid, t: Tolerances, incumbent: real, obj: real)
    requires ValidGrid(g) && ValidTolerances(t) && g.Stepped?
    requires OnGrid(g, incumbent) && OnGrid(g, obj)
    requires t.primal < g.step
    ensures Accepts(g, t, Some(incumbent), obj) <==> obj < incumbent
  {
    var k: int :| incumbent == GridValue(g, k);
    var j: int :| obj == GridValue(g, j);
    IndexExact(g, t, k);
    GridOrder(g, j, k);
  }

  /** `v` is a lattice value strictly below the incumbent by more than the integer tolerance of a step. */
  ghost predicate Better(g: Grid, t: Tolerances, incumbent: real, v: real)
    requires g.Stepped?
  {
    OnGrid(g, v) && v < incumbent - t.integer * g.step
  }

  /** When a candidate replaces an incumbent: it must be better by more than the primal tolerance and, on a
      lattice, less than half a step above some strictly better lattice value. */
  lemma AcceptsSays(g: Grid, t: Tolerances, incumbent: Option<real>, obj: real)
    requires ValidGrid(g)
    ensures Accepts(g, t, incumbent, obj) <==>
              || incumbent.None?
              || (obj < incumbent.value - t.primal &&
                  (g.Stepped? ==> exists v :: Better(g, t, incumbent.value, v) && obj < v + 0.5 * g.step))
  {
    if incumbent.Some? && g.Stepped? {
      var u := incumbent.value;
      var k := GridIndex(g, t, u);
      IndexBracket(g, t, u);
      GridOrder(g, k - 1, k);
      assert Better(g, t, u, GridValue(g, k - 1));
      forall v | Better(g, t, u, v) ensures v <= GridValue(g, k - 1) {
        var j: int :| v == GridValue(g, j);
        GridOrder(g, j, k);
        GridOrder(g, j, k - 1);
      }
    }
  }

  /** The node cutoff: without a lattice the upper bound plus the dual tolerance; on one the greatest lattice
      value strictly better than the upper bound, plus that tolerance. */
  lemma CutoffSays(g: Grid, t: Tolerances, upper: real)
    requires ValidGrid(g)
    ensures g.Smooth? ==> NodeCutoff(g, t, upper) - t.dual == upper
    ensures g.Stepped? ==> Better(g, t, upper, NodeCutoff(g, t, upper) - t.dual)
    ensures g.Stepped? ==> forall v :: Better(g, t, upper, v) ==> v <= NodeCutoff(g, t, upper) - t.dual
  {
    if g.Stepped? {
      var k := GridIndex(g, t, upper);
      IndexBracket(g, t, upper);
      GridOrder(g, k - 1, k);
      forall v | Better(g, t, upper, v) ensures v <= GridValue(g, k - 1) {
        var j: int :| v == GridValue(g, j);
        GridOrder(g, j, k);
        GridOrder(g, j, k - 1);
      }
    }
  }

  /** How far below the incumbent a rejected candidate may leave attainable objectives. */
  function Slack(g: Grid, t: Tolerances): real {
    if g.Stepped? && t.integer * g.step > t.primal then t.integer * g.step else t.primal
  }

  /** A rejected candidate hides no attainable objective better than the incumbent by more than
      the slack. */
  lemma RejectionSound(g: Grid, t: Tolerances, incumbent: real, obj: real, v: real)
    requires ValidGrid(g) && ValidTolerances(t)
    requires !Accepts(g, t, Some(incumbent), obj)
    requires OnGrid(g, v) && obj <= v
    ensures incumbent - Slack(g, t) <= v
  {
    if g.Stepped? {
      var j: int :| v == GridValue(g, j);
      var c := GridIndex(g, t, incumbent);
      IndexBracket(g, t, incumbent);
      GridOrder(g, j, c);
      GridOrder(g, j, c - 1);
    }
  }

  /** On an on-grid upper bound the slack closes: grid values within it are not better at all. */
  lemma SlackCloses(g: Grid, t: Tolerances, upper: real, v: real)
    requires ValidGrid(g) && ValidTolerances(t) && g.Stepped?
    requires OnGrid(g, upper) && OnGrid(g, v)
    requires t.primal < g.step
    requires upper - Slack(g, t) <= v
    ensures upper <= v
  {
    var k: int :| upper == GridValue(g, k);
    var j: int :| v == GridValue(g, j);
    SlackBelowStep(g, t);
    GridOrder(g, j, k);
  }

  lemma SlackBelowStep(g: Grid, t: Tolerances)
    requires ValidGrid(g) && ValidTolerances(t) && g.Stepped? && t.primal < g.step
    ensures Slack(g, t) < g.step
  {
    var scaled := t.integer * g.step;
    assert scaled < g.step by { Proper(t.integer, g.step); }
  }
}
