/** The cached update path: a new objective pushed through the column maps of the first solve. */
module BarrierTransform {
  import opened Extended
  import opened Reals
  import opened ConeModel
  import opened ConeFactor
  import opened ConePermute
  import opened Sums

  type Vec = seq<real>

  // ------------------------------------------------------------------ gathering and scattering

  /** `fill`, with z[k] at position at[k]; a position listed twice takes the last one. */
  function Scatter(z: Vec, at: seq<nat>, fill: Vec): (r: Vec)
    requires |z| == |at| && VarsIn(at, |fill|)
    ensures |r| == |fill|
  {
    if z == [] then fill
    else Scatter(z[..|z| - 1], at[..|at| - 1], fill)[at[|at| - 1] := z[|z| - 1]]
  }

  lemma {:induction false} ScatterAt(z: Vec, at: seq<nat>, fill: Vec, j: nat)
    requires |z| == |at| && VarsIn(at, |fill|) && Distinct(at) && j < |fill|
    ensures forall k :: 0 <= k < |at| && at[k] == j ==> Scatter(z, at, fill)[j] == z[k]
    ensures j !in at ==> Scatter(z, at, fill)[j] == fill[j]
  {
    if z != [] {
      var l := |z| - 1;
      ScatterAt(z[..l], at[..l], fill, j);
      forall k | 0 <= k < |at| && at[k] == j ensures Scatter(z, at, fill)[j] == z[k] {
        if k < l { assert at[..l][k] == j; }
      }
      if j !in at { assert j !in at[..l] && at[l] != j; }
    }
  }

  /** Scattering and then gathering gives the vector back. */
  lemma ScatterGather(z: Vec, at: seq<nat>, fill: Vec)
    requires |z| == |at| && VarsIn(at, |fill|) && Distinct(at)
    ensures Select(Scatter(z, at, fill), at) == z
  {
    forall k | 0 <= k < |at| ensures Scatter(z, at, fill)[at[k]] == z[k] { ScatterAt(z, at, fill, at[k]); }
  }

  function Outside(v: Vec, y: Vec, at: seq<nat>, j: int): real
    requires |v| == |y|
  {
    if 0 <= j < |v| && j !in at then Mul(v[j], y[j]) else 0.0
  }

  /** What the entries not listed contribute. */
  ghost function Rest(v: Vec, y: Vec, at: seq<nat>): real
    requires |v| == |y|
  {
    Sum(|v|, j => Outside(v, y, at, j))
  }

  function Inside(v: Vec, y: Vec, at: seq<nat>, j: int): real
    requires |v| == |y|
  {
    if 0 <= j < |v| && j in at then Mul(v[j], y[j]) else 0.0
  }

  function Hit(v: Vec, y: Vec, at: seq<nat>, k: int, j: int): real
    requires |v| == |y|
  {
    if 0 <= k < |at| && 0 <= j < |v| && at[k] == j then Mul(v[j], y[j]) else 0.0
  }

  /** The listed entries, summed in either order. */
  lemma InsideIsGathered(v: Vec, y: Vec, at: seq<nat>, f: int -> real, g: int -> real)
    requires |v| == |y| && VarsIn(at, |v|) && Distinct(at)
    requires forall k :: 0 <= k < |at| ==> f(k) == Mul(v[at[k]], y[at[k]])
    requires forall j :: 0 <= j < |v| ==> g(j) == Inside(v, y, at, j)
    ensures Sum(|at|, f) == Sum(|v|, g)
  {
    hide Mul;
    var t: (int, int) -> real := (k, j) => Hit(v, y, at, k, j);
    var m, n := |at|, |v|;
    forall k | 0 <= k < m ensures f(k) == RowSum(t, k, n) { RowPoint(t, k, n, at[k]); }
    RowsAreSum(t, m, n, f);
    forall j | 0 <= j < n ensures g(j) == ColSum(t, m, j) {
      var c: int -> real := k => t(k, j);
      ColIsSum(t, m, j, c);
      if j in at {
        var k :| 0 <= k < m && at[k] == j;
        SumPoint(m, c, k);
      } else {
        SumZero(m, c);
      }
    }
    ColsAreSum(t, m, n, g);
    SumSwap(t, m, n);
  }

  function MulTerm(a: Vec, b: Vec, i: int): real
    requires |a| == |b|
  {
    if 0 <= i < |a| then Mul(a[i], b[i]) else 0.0
  }

  lemma DotSum(a: Vec, b: Vec, f: int -> real)
    requires |a| == |b| && forall i :: 0 <= i < |a| ==> f(i) == MulTerm(a, b, i)
    ensures Dot(a, b) == Sum(|a|, f)
  {
    forall i | 0 <= i < |a| ensures f(i) == Term(a, b, i) { assert f(i) == MulTerm(a, b, i); }
    DotIsSum(a, b, f);
  }

  /** A product with a vector splits into its listed entries and the rest. */
  lemma GatherAdjoint(v: Vec, y: Vec, at: seq<nat>)
    requires |v| == |y| && VarsIn(at, |v|) && Distinct(at)
    ensures Dot(v, y) == Dot(Select(v, at), Select(y, at)) + Rest(v, y, at)
  {
    hide Mul;
    var f: int -> real := k => MulTerm(Select(v, at), Select(y, at), k);
    var g: int -> real := j => Inside(v, y, at, j);
    var o: int -> real := j => Outside(v, y, at, j);
    var h: int -> real := j => MulTerm(v, y, j);
    InsideIsGathered(v, y, at, f, g);
    SumAdd(|v|, g, o, h);
    DotSum(v, y, h);
    DotSum(Select(v, at), Select(y, at), f);
    SumEq(|v|, o, j => Outside(v, y, at, j));
  }

  lemma RestZero(v: Vec, y: Vec, at: seq<nat>)
    requires |v| == |y| && forall j :: 0 <= j < |v| && j !in at ==> v[j] == 0.0 || y[j] == 0.0
    ensures Rest(v, y, at) == 0.0
  {
    forall j | 0 <= j < |v| ensures Outside(v, y, at, j) == 0.0 {
      if j !in at { MulAlgebra(v[j], 0.0, 0.0); MulAlgebra(y[j], 0.0, 0.0); }
    }
    SumZero(|v|, j => Outside(v, y, at, j));
  }

  lemma RestSame(v: Vec, y: Vec, y': Vec, at: seq<nat>)
    requires |v| == |y| == |y'| && forall j :: 0 <= j < |v| && j !in at ==> y[j] == y'[j]
    ensures Rest(v, y, at) == Rest(v, y', at)
  {
    hide Mul;
    SumEq(|v|, j => Outside(v, y, at, j), j => Outside(v, y', at, j));
  }

  /** Reading through a list of positions, and its adjoint. */
  lemma ScatterAdjoint(c: Vec, y: Vec, at: seq<nat>)
    requires |c| == |at| && VarsIn(at, |y|) && Distinct(at)
    ensures Dot(Scatter(c, at, Zeros(|y|)), y) == Dot(c, Select(y, at))
  {
    var v := Scatter(c, at, Zeros(|y|));
    GatherAdjoint(v, y, at);
    ScatterGather(c, at, Zeros(|y|));
    forall j | 0 <= j < |v| && j !in at ensures v[j] == 0.0 { ScatterAt(c, at, Zeros(|y|), j); }
    RestZero(v, y, at);
  }

  // ------------------------------------------------------------------ elementary stages

  lemma {:induction false} DotUpdate(v: Vec, y: Vec, j: nat, a: real)
    requires |v| == |y| && j < |v|
    ensures Dot(v[j := a], y) == Dot(v, y) + Mul(a - v[j], y[j])
    ensures Dot(y, v[j := a]) == Dot(y, v) + Mul(y[j], a - v[j])
  {
    var w := v[j := a];
    if j == 0 {
      assert w[1..] == v[1..];
    } else {
      assert w[1..] == v[1..][j - 1 := a];
      DotUpdate(v[1..], y[1..], j - 1, a);
    }
  }

  function Flip(v: Vec, j: nat): (r: Vec)
    requires j < |v|
    ensures |r| == |v|
  {
    v[j := -v[j]]
  }

  /** negated_variables, one after another. */
  function Negate(v: Vec, list: seq<nat>): (r: Vec)
    requires VarsIn(list, |v|)
    ensures |r| == |v|
    decreases |list|
  {
    if list == [] then v else Negate(Flip(v, list[0]), list[1..])
  }

  /** Each listed entry changes sign, the others stay. */
  lemma {:induction false} NegateSays(v: Vec, list: seq<nat>, j: nat)
    requires VarsIn(list, |v|) && Distinct(list) && j < |v|
    ensures Negate(v, list)[j] == if j in list then -v[j] else v[j]
    decreases |list|
  {
    if list != [] {
      assert forall k :: 0 <= k < |list[1..]| ==> list[1..][k] == list[k + 1];
      NegateSays(Flip(v, list[0]), list[1..], j);
      assert list == [list[0]] + list[1..];
      if list[0] == j { assert j !in list[1..]; }
    }
  }

  lemma {:induction false} NegateFlip(v: Vec, list: seq<nat>, j: nat)
    requires VarsIn(list, |v|) && j < |v|
    ensures Negate(Flip(v, j), list) == Flip(Negate(v, list), j)
    decreases |list|
  {
    if list != [] {
      var i := list[0];
      assert Flip(Flip(v, j), i) == Flip(Flip(v, i), j);
      NegateFlip(Flip(v, i), list[1..], j);
    }
  }

  lemma FlipAdjoint(v: Vec, y: Vec, j: nat)
    requires |v| == |y| && j < |v|
    ensures Dot(Flip(v, j), y) == Dot(v, Flip(y, j))
  {
    DotUpdate(v, y, j, -v[j]);
    DotUpdate(y, v, j, -y[j]);
    FlipProduct(v[j], y[j]);
  }

  lemma FlipProduct(a: real, b: real)
    ensures Mul(-a - a, b) == Mul(a, -b - b)
  {
  }

  lemma {:induction false} NegateAdjoint(v: Vec, y: Vec, list: seq<nat>)
    requires |v| == |y| && VarsIn(list, |v|)
    ensures Dot(Negate(v, list), y) == Dot(v, Negate(y, list))
    decreases |list|
  {
    if list != [] {
      NegateAdjoint(Flip(v, list[0]), y, list[1..]);
      FlipAdjoint(v, Negate(y, list[1..]), list[0]);
      NegateFlip(y, list[1..], list[0]);
    }
  }

  /** Each free variable u gets a partner with the opposite coefficient. */
  function Doubled(v: Vec, us: seq<nat>): (r: Vec)
    requires VarsIn(us, |v|)
    ensures |r| == |v| + |us|
  {
    v + seq(|us|, k requires 0 <= k < |us| => -v[us[k]])
  }

  /** Each free variable is its positive part minus its partner. */
  function Merged(y: Vec, us: seq<nat>): (r: Vec)
    requires |us| <= |y| && VarsIn(us, |y| - |us|)
    ensures |r| == |y| - |us|
    decreases |us|
  {
    if us == [] then y
    else
      var l := |us| - 1;
      var m := Merged(y[..|y| - 1], us[..l]);
      m[us[l] := m[us[l]] - y[|y| - 1]]
  }

  lemma FrontDistinct(us: seq<nat>, l: nat)
    requires Distinct(us) && |us| == l + 1
    ensures Distinct(us[..l]) && us[l] !in us[..l] && us == us[..l] + [us[l]]
  {
  }

  /** A split variable is its own entry minus its partner's, the others stay. */
  lemma {:induction false} MergedSays(y: Vec, us: seq<nat>, j: nat, k: nat)
    requires |us| <= |y| && VarsIn(us, |y| - |us|) && Distinct(us) && j < |y| - |us|
    ensures k < |us| && us[k] == j ==> Merged(y, us)[j] == y[j] - y[|y| - |us| + k]
    ensures j !in us ==> Merged(y, us)[j] == y[j]
    decreases |us|
  {
    if us != [] {
      var l := |us| - 1;
      FrontDistinct(us, l);
      hide Distinct;
      MergedSays(y[..|y| - 1], us[..l], j, k);
      assert k < l ==> us[..l][k] == us[k];
    }
  }

  lemma {:induction false} PairAdjoint(v: Vec, y: Vec, us: seq<nat>)
    requires |y| == |v| + |us| && VarsIn(us, |v|)
    ensures Dot(Doubled(v, us), y) == Dot(v, Merged(y, us))
    decreases |us|
  {
    if us == [] {
      assert Doubled(v, us) == v;
    } else {
      hide Mul, Dot;
      var l, last := |us| - 1, y[|y| - 1];
      var y0, us0 := y[..|y| - 1], us[..l];
      PairAdjoint(v, y0, us0);
      var d := Doubled(v, us);
      assert d[..|y| - 1] == Doubled(v, us0) && d[|y| - 1] == -v[us[l]];
      DotLast(d, y);
      var m := Merged(y0, us0);
      DotUpdate(m, v, us[l], m[us[l]] - last);
      PairProduct(v[us[l]], m[us[l]], last);
    }
  }

  lemma DotLast(a: Vec, b: Vec)
    requires |a| == |b| && a != []
    ensures var k := |a| - 1; Dot(a, b) == Dot(a[..k], b[..k]) + Mul(a[k], b[k])
  {
    DotSnoc(a, b);
  }

  lemma PairProduct(a: real, m: real, y: real)
    ensures Mul(-a, y) == Mul(a, (m - y) - m)
  {
  }

  function Divided(v: Vec, s: Vec): (r: Vec)
    requires |v| == |s| && forall j :: 0 <= j < |s| ==> s[j] != 0.0
    ensures |r| == |v| && forall j :: 0 <= j < |v| ==> r[j] == v[j] / s[j]
  {
    seq(|v|, j requires 0 <= j < |v| => v[j] / s[j])
  }

  lemma {:induction false} ScaleAdjoint(v: Vec, z: Vec, s: Vec)
    requires |v| == |z| == |s| && forall j :: 0 <= j < |s| ==> s[j] != 0.0
    ensures Dot(Divided(v, s), z) == Dot(v, Divided(z, s))
  {
    if v != [] {
      ScaleAdjoint(v[1..], z[1..], s[1..]);
      assert Divided(v, s)[1..] == Divided(v[1..], s[1..]) && Divided(z, s)[1..] == Divided(z[1..], s[1..]);
      ScaleProduct(v[0], z[0], s[0]);
    }
  }

  lemma ScaleProduct(a: real, b: real, s: real)
    requires s != 0.0
    ensures (a / s) * b == a * (b / s)
  {
    var r := 1.0 / s;
    assert a / s == a * r && b / s == b * r;
  }

  function Added(y: Vec, b: Vec): (r: Vec)
    requires |y| == |b|
    ensures |r| == |y| && forall j :: 0 <= j < |y| ==> r[j] == y[j] + b[j]
  {
    seq(|y|, j requires 0 <= j < |y| => y[j] + b[j])
  }

  lemma {:induction false} DotAdded(v: Vec, y: Vec, b: Vec)
    requires |v| == |y| == |b|
    ensures Dot(v, Added(y, b)) == Dot(v, y) + Dot(v, b)
  {
    if v != [] {
      DotAdded(v[1..], y[1..], b[1..]);
      assert Added(y, b)[1..] == Added(y[1..], b[1..]);
      assert v[0] * (y[0] + b[0]) == v[0] * y[0] + v[0] * b[0];
    }
  }

  // ------------------------------------------------------------------ the cached transform

  /** The column side of the cache: the expansion's column map (empty when no expansion ran), where
      its cone block starts before and after slacks are inserted, and the presolve records. */
  datatype Transform = Transform(
    preCols: nat, userCols: nat, columns: seq<nat>,
    hasCones: bool, coneStart: nat, convertedStart: nat, total: nat,
    negated: seq<nat>, remaining: seq<nat>, removed: seq<nat>, removedValues: Vec, lowerBounds: Vec,
    free: seq<nat>, eliminated: seq<nat>, keep: seq<nat>, scales: Vec)

  /** problem_num_cols */
  function ProblemCols(t: Transform): nat {
    if t.preCols > 0 then t.preCols else t.userCols
  }

  /** problem_col_to_expanded_col */
  function Expanded(t: Transform, j: nat): nat
    requires t.columns == [] || j < |t.columns|
  {
    if t.columns == [] then j else t.columns[j]
  }

  /** expanded_col_to_converted_col */
  function ConvertedCol(t: Transform, e: nat): nat {
    if !t.hasCones || t.convertedStart <= t.coneStart || e < t.coneStart then e
    else t.convertedStart + (e - t.coneStart)
  }

  function Columns(t: Transform): (at: seq<nat>)
    requires t.columns == [] || |t.columns| == ProblemCols(t)
    ensures |at| == ProblemCols(t) && forall j :: 0 <= j < |at| ==> at[j] == ConvertedCol(t, Expanded(t, j))
  {
    seq(ProblemCols(t), j requires 0 <= j < ProblemCols(t) => ConvertedCol(t, Expanded(t, j)))
  }

  /** Slacks go in ahead of the cone block: columns keep their order, and the places they leave free are
      exactly those of the slacks. */
  lemma SlacksInserted(t: Transform, a: nat, b: nat, r: nat)
    requires t.hasCones && t.coneStart <= t.convertedStart
    ensures a < b ==> ConvertedCol(t, a) < ConvertedCol(t, b)
    ensures (exists e: nat :: ConvertedCol(t, e) == r) <==> !(t.coneStart <= r < t.convertedStart)
  {
    if r < t.coneStart { assert ConvertedCol(t, r) == r; }
    if t.convertedStart <= r { assert ConvertedCol(t, r - (t.convertedStart - t.coneStart)) == r; }
  }

  /** Inserting slacks ahead of the cone block keeps columns apart. */
  lemma ColumnsDistinct(t: Transform)
    requires (t.columns == [] || |t.columns| == ProblemCols(t)) && Distinct(t.columns)
    ensures Distinct(Columns(t))
  {
    var at := Columns(t);
    forall i, j | 0 <= i < j < |at| ensures at[i] != at[j] {
      assert Expanded(t, i) != Expanded(t, j);
    }
  }

  /** Columns after the empty-column pass, and after free variables are split. */
  function Remaining(t: Transform): nat {
    if t.removed != [] then |t.remaining| else t.total
  }

  function Split(t: Transform): nat {
    Remaining(t) + |t.free|
  }

  ghost predicate Covers(a: seq<nat>, b: seq<nat>, n: nat) {
    && VarsIn(a, n) && VarsIn(b, n) && Distinct(a) && Distinct(b)
    && forall j :: 0 <= j < n ==> (j in a) != (j in b)
  }

  function Identity(n: nat): seq<nat> {
    seq(n, j requires 0 <= j < n => j)
  }

  /** What presolve and scaling leave behind. */
  ghost predicate Consistent(t: Transform) {
    && (t.columns == [] || |t.columns| == ProblemCols(t)) && Distinct(t.columns)
    && VarsIn(t.negated, t.total) && |t.removedValues| == |t.removed|
    && (if t.removed == [] then t.remaining == [] || t.remaining == Identity(t.total)
        else Covers(t.remaining, t.removed, t.total))
    && (t.lowerBounds == [] || |t.lowerBounds| == t.total)
    && VarsIn(t.free, Remaining(t))
    && (t.eliminated != [] ==> Covers(t.keep, t.eliminated, Split(t)))
    && |t.scales| == (if t.eliminated == [] then Split(t) else |t.keep|)
    && (forall j :: 0 <= j < |t.scales| ==> t.scales[j] != 0.0)
  }

  // ------------------------------------------------------------------ crushing an objective

  function Spread(t: Transform, c: Vec): (v: Vec)
    requires Consistent(t) && |c| == ProblemCols(t) && VarsIn(Columns(t), t.total)
    ensures |v| == t.total
  {
    Negate(Scatter(c, Columns(t), Zeros(t.total)), t.negated)
  }

  function Reduced(t: Transform, v: Vec): Vec
    requires Consistent(t) && |v| == t.total
  {
    if t.remaining != [] then Select(v, t.remaining) else v
  }

  /** drop_substituted_free_variables: refused when a dropped column now has a cost. */
  function Dropped(t: Transform, v: Vec): Option<Vec>
    requires Consistent(t)
  {
    if t.eliminated == [] then Some(v)
    else if exists k :: 0 <= k < |t.eliminated| && (t.eliminated[k] >= |v| || v[t.eliminated[k]] != 0.0) then None
    else if !VarsIn(t.keep, |v|) then None
    else Some(Select(v, t.keep))
  }

  lemma FreeIn(t: Transform, v: Vec)
    requires Consistent(t) && |v| == t.total
    ensures VarsIn(t.free, |Reduced(t, v)|)
  {
    if t.free != [] { ListedBelow(t.free, Remaining(t)); }
  }

  /** crush_user_linear_objective; None is an invalid_argument. */
  function Crush(t: Transform, c: Vec): Option<Vec>
    requires Consistent(t)
  {
    if |c| != ProblemCols(t) || t.total < t.userCols || !VarsIn(Columns(t), t.total) then None
    else
      var v := Reduced(t, Spread(t, c));
      FreeIn(t, Spread(t, c));
      match Dropped(t, Doubled(v, t.free))
      case None => None
      case Some(w) => if |w| != |t.scales| then None else Some(Divided(w, t.scales))
  }

  // ------------------------------------------------------------------ uncrushing a point

  /** Undo scaling and substitution; `fill` holds whatever values the substituted variables get. */
  function Restored(t: Transform, z: Vec, fill: Vec): (y: Vec)
    requires Consistent(t) && |z| == |t.scales| && |fill| == Split(t)
    ensures |y| == Split(t)
  {
    var u := Divided(z, t.scales);
    if t.eliminated == [] then u else Scatter(u, t.keep, fill)
  }

  /** Undo the splitting of free variables and the removal of columns. */
  function Refilled(t: Transform, y: Vec): (x: Vec)
    requires Consistent(t) && |y| == Remaining(t)
    ensures |x| == t.total
  {
    if t.removed == [] then y
    else Scatter(y, t.remaining, Scatter(t.removedValues, t.removed, Zeros(t.total)))
  }

  /** A column that was kept takes its value from the reduced point, a removed one its recorded value. */
  lemma RefilledSays(t: Transform, y: Vec, k: nat)
    requires Consistent(t) && |y| == Remaining(t) && t.removed != []
    ensures k < |t.remaining| ==> t.remaining[k] < t.total && Refilled(t, y)[t.remaining[k]] == y[k]
    ensures k < |t.removed| ==> t.removed[k] < t.total && Refilled(t, y)[t.removed[k]] == t.removedValues[k]
  {
    var fill := Scatter(t.removedValues, t.removed, Zeros(t.total));
    if k < |t.remaining| { ScatterAt(y, t.remaining, fill, t.remaining[k]); }
    if k < |t.removed| {
      ScatterAt(t.removedValues, t.removed, Zeros(t.total), t.removed[k]);
      ScatterAt(y, t.remaining, fill, t.removed[k]);
    }
  }

  function Shifted(t: Transform, x: Vec): (y: Vec)
    requires Consistent(t) && |x| == t.total
    ensures |y| == t.total
  {
    if t.lowerBounds == [] then x else Added(x, t.lowerBounds)
  }

  /** uncrush_solution, then the column maps back to the problem. */
  function Uncrush(t: Transform, z: Vec, fill: Vec): (x: Vec)
    requires Consistent(t) && |z| == |t.scales| && |fill| == Split(t) && VarsIn(Columns(t), t.total)
    ensures |x| == ProblemCols(t)
  {
    Select(Negate(Shifted(t, Refilled(t, Merged(Restored(t, z, fill), t.free))), t.negated), Columns(t))
  }

  /** The barrier's columns are unscaled; substituted variables take the values given for them. */
  lemma RestoredSays(t: Transform, z: Vec, fill: Vec, k: nat)
    requires Consistent(t) && |z| == |t.scales| && |fill| == Split(t)
    ensures t.eliminated == [] && k < |z| ==> Restored(t, z, fill)[k] == z[k] / t.scales[k]
    ensures t.eliminated != [] && k < |t.keep| ==> t.keep[k] < Split(t) && Restored(t, z, fill)[t.keep[k]] == z[k] / t.scales[k]
    ensures t.eliminated != [] && k < |t.eliminated| ==>
              t.eliminated[k] < Split(t) && Restored(t, z, fill)[t.eliminated[k]] == fill[t.eliminated[k]]
  {
    if t.eliminated != [] {
      var u := Divided(z, t.scales);
      if k < |t.keep| { ScatterAt(u, t.keep, fill, t.keep[k]); }
      if k < |t.eliminated| { ScatterAt(u, t.keep, fill, t.eliminated[k]); }
    }
  }

  /** Column j of the problem is read from its column of the converted problem: the value without its lower
      bound, plus that bound, and with the other sign if the column was negated. */
  lemma UncrushSays(t: Transform, z: Vec, fill: Vec, j: nat)
    requires Consistent(t) && |z| == |t.scales| && |fill| == Split(t) && VarsIn(Columns(t), t.total)
    requires Distinct(t.negated) && j < ProblemCols(t)
    ensures var e, x := Columns(t)[j], Refilled(t, Merged(Restored(t, z, fill), t.free));
            var v := x[e] + (if t.lowerBounds == [] then 0.0 else t.lowerBounds[e]);
            Uncrush(t, z, fill)[j] == if e in t.negated then -v else v
  {
    var e, x := Columns(t)[j], Refilled(t, Merged(Restored(t, z, fill), t.free));
    NegateSays(Shifted(t, x), t.negated, e);
    hide Negate, Refilled, Restored, Merged;
  }

  // ------------------------------------------------------------------ adjointness

  lemma SpreadAdjoint(t: Transform, c: Vec, y: Vec)
    requires Consistent(t) && |c| == ProblemCols(t) && VarsIn(Columns(t), t.total) && |y| == t.total
    ensures Dot(Spread(t, c), y) == Dot(c, Select(Negate(y, t.negated), Columns(t)))
  {
    ColumnsDistinct(t);
    NegateAdjoint(Scatter(c, Columns(t), Zeros(t.total)), y, t.negated);
    ScatterAdjoint(c, Negate(y, t.negated), Columns(t));
  }

  /** What the removed columns and lower bounds contribute: a constant of the objective. */
  ghost function Constant(t: Transform, v: Vec): real
    requires Consistent(t) && |v| == t.total
  {
    (if t.removed == [] then 0.0 else Rest(v, Scatter(t.removedValues, t.removed, Zeros(t.total)), t.remaining))
    + (if t.lowerBounds == [] then 0.0 else Dot(v, t.lowerBounds))
  }

  lemma ReducedAdjoint(t: Transform, v: Vec, y: Vec)
    requires Consistent(t) && |v| == t.total && |y| == Remaining(t) && |Reduced(t, v)| == |y|
    ensures Dot(v, Shifted(t, Refilled(t, y))) == Dot(Reduced(t, v), y) + Constant(t, v)
  {
    var x := Refilled(t, y);
    if t.lowerBounds != [] { DotAdded(v, x, t.lowerBounds); }
    if t.removed != [] {
      var fill := Scatter(t.removedValues, t.removed, Zeros(t.total));
      GatherAdjoint(v, x, t.remaining);
      ScatterGather(y, t.remaining, fill);
      forall j | 0 <= j < |v| && j !in t.remaining ensures x[j] == fill[j] { ScatterAt(y, t.remaining, fill, j); }
      RestSame(v, x, fill, t.remaining);
      RemainingListed(t, v, y);
    } else if t.remaining != [] {
      assert Select(v, t.remaining) == v;
    }
  }

  /** With columns removed, some remain listed whenever the sizes agree. */
  lemma RemainingListed(t: Transform, v: Vec, y: Vec)
    requires Consistent(t) && |v| == t.total && |y| == Remaining(t) && |Reduced(t, v)| == |y| && t.removed != []
    ensures t.remaining != []
  {
    assert t.removed[0] < t.total;
  }

  lemma DroppedAdjoint(t: Transform, v: Vec, z: Vec, fill: Vec)
    requires Consistent(t) && |v| == Split(t) && Dropped(t, v).Some? && |z| == |t.scales| == |Dropped(t, v).value|
    requires |fill| == Split(t)
    ensures Dot(v, Restored(t, z, fill)) == Dot(Divided(Dropped(t, v).value, t.scales), z)
  {
    ScaleAdjoint(Dropped(t, v).value, z, t.scales);
    if t.eliminated != [] {
      var u := Divided(z, t.scales);
      var y := Scatter(u, t.keep, fill);
      GatherAdjoint(v, y, t.keep);
      ScatterGather(u, t.keep, fill);
      forall j | 0 <= j < |v| && j !in t.keep ensures v[j] == 0.0 {
        var k :| 0 <= k < |t.eliminated| && t.eliminated[k] == j;
      }
      RestZero(v, y, t.keep);
    }
  }

  /** Sizes along an accepted crush. */
  lemma CrushSizes(t: Transform, c: Vec)
    requires Consistent(t) && Crush(t, c).Some?
    ensures |c| == ProblemCols(t) && VarsIn(Columns(t), t.total)
    ensures var v := Reduced(t, Spread(t, c));
            && |v| == Remaining(t) && VarsIn(t.free, |v|) && Dropped(t, Doubled(v, t.free)).Some?
            && |Dropped(t, Doubled(v, t.free)).value| == |t.scales|
            && Crush(t, c).value == Divided(Dropped(t, Doubled(v, t.free)).value, t.scales)
  {
    if t.remaining == [] && t.removed != [] { AllRemovedRejected(t, c); }
  }

  lemma ListedBelow(s: seq<nat>, n: nat)
    requires VarsIn(s, n) && s != []
    ensures 0 < n
  {
    assert s[0] < n;
  }

  /** One cost for each column of the problem, and none left on the columns that were substituted away. */
  ghost predicate Acceptable(t: Transform, c: Vec)
    requires Consistent(t) && VarsIn(Columns(t), t.total)
  {
    |c| == ProblemCols(t) &&
    var v := Reduced(t, Spread(t, c));
    |v| == Remaining(t) && VarsIn(t.free, |v|) &&
    forall k :: 0 <= k < |t.eliminated| ==> t.eliminated[k] < |v| + |t.free| && Doubled(v, t.free)[t.eliminated[k]] == 0.0
  }

  /** On a consistent cache with columns left these are the only causes of a refusal. */
  lemma CrushAccepts(t: Transform, c: Vec)
    requires Consistent(t) && t.userCols <= t.total && VarsIn(Columns(t), t.total) && (t.removed != [] ==> t.remaining != [])
    ensures Crush(t, c).Some? <==> Acceptable(t, c)
  {
    if |c| == ProblemCols(t) { FreeIn(t, Spread(t, c)); }
    hide Spread, Columns;
  }

  /** When presolve removed every column the sizes cannot agree, and no update is accepted. */
  lemma AllRemovedRejected(t: Transform, c: Vec)
    requires Consistent(t) && t.remaining == [] && t.removed != []
    ensures Crush(t, c) == None
  {
    assert t.removed[0] < t.total && Remaining(t) == 0;
    if t.free != [] { ListedBelow(t.free, Remaining(t)); }
    if t.eliminated != [] { ListedBelow(t.eliminated, Split(t)); }
  }

  /** Crushing an objective is the adjoint of uncrushing a point: whatever values the substituted
      variables take, the cost of the uncrushed point is the crushed cost of the reduced point plus
      a constant of the objective. */
  lemma CrushIsAdjoint(t: Transform, c: Vec, z: Vec, fill: Vec)
    requires Consistent(t) && Crush(t, c).Some? && |z| == |t.scales| && |fill| == Split(t)
    ensures |c| == ProblemCols(t) && VarsIn(Columns(t), t.total) && |Crush(t, c).value| == |z|
    ensures Dot(c, Uncrush(t, z, fill)) == Dot(Crush(t, c).value, z) + Constant(t, Spread(t, c))
  {
    CrushSizes(t, c);
    var a := Spread(t, c);
    var v, y := Reduced(t, a), Restored(t, z, fill);
    hide Crush, Dropped, Reduced, Spread, Restored, Refilled, Shifted, Constant, Consistent;
    SpreadAdjoint(t, c, Shifted(t, Refilled(t, Merged(y, t.free))));
    ReducedAdjoint(t, a, Merged(y, t.free));
    PairAdjoint(v, y, t.free);
    DroppedAdjoint(t, Doubled(v, t.free), z, fill);
  }

  // ------------------------------------------------------------------ the loops

  /** scatter_problem_objective */
  method ScatterObjective(t: Transform, c: Vec) returns (expanded: array<real>)
    requires Consistent(t) && |c| == ProblemCols(t) && forall j :: 0 <= j < |c| ==> Expanded(t, j) < t.userCols
    ensures fresh(expanded) && expanded.Length == t.userCols
    ensures VarsIn(ExpandedColumns(t), t.userCols) && expanded[..] == Scatter(c, ExpandedColumns(t), Zeros(t.userCols))
  {
    expanded := new real[t.userCols](_ => 0.0);
    ghost var at := ExpandedColumns(t);
    assert expanded[..] == Zeros(t.userCols);
    for j := 0 to |c|
      invariant expanded[..] == Scatter(c[..j], at[..j], Zeros(t.userCols))
    {
      assert c[..j + 1][..j] == c[..j] && at[..j + 1][..j] == at[..j];
      expanded[Expanded(t, j)] := c[j];
    }
    assert c[..|c|] == c && at[..|c|] == at;
  }

  function ExpandedColumns(t: Transform): (at: seq<nat>)
    requires t.columns == [] || |t.columns| == ProblemCols(t)
    ensures |at| == ProblemCols(t) && forall j :: 0 <= j < |at| ==> at[j] == Expanded(t, j)
  {
    seq(ProblemCols(t), j requires 0 <= j < ProblemCols(t) => Expanded(t, j))
  }

  /** gather_problem_objective */
  method GatherObjective(t: Transform, expanded: Vec) returns (c: Vec)
    requires Consistent(t) && VarsIn(ExpandedColumns(t), |expanded|)
    ensures c == Select(expanded, ExpandedColumns(t))
  {
    var a := new real[ProblemCols(t)](_ => 0.0);
    for j := 0 to a.Length
      invariant forall k :: 0 <= k < j ==> a[k] == expanded[Expanded(t, k)]
    {
      a[j] := expanded[Expanded(t, j)];
    }
    c := a[..];
  }

  /** An objective moved into the expanded layout comes back as it was. */
  lemma ScatterThenGather(t: Transform, c: Vec)
    requires Consistent(t) && |c| == ProblemCols(t) && VarsIn(ExpandedColumns(t), t.userCols)
    ensures Select(Scatter(c, ExpandedColumns(t), Zeros(t.userCols)), ExpandedColumns(t)) == c
  {
    var at := ExpandedColumns(t);
    forall i, j | 0 <= i < j < |at| ensures at[i] != at[j] { assert Expanded(t, i) != Expanded(t, j); }
    ScatterGather(c, at, Zeros(t.userCols));
  }

  method SpreadObjective(t: Transform, c: Vec) returns (orig: array<real>)
    requires Consistent(t) && |c| == ProblemCols(t) && VarsIn(Columns(t), t.total)
    ensures fresh(orig) && orig[..] == Spread(t, c)
  {
    orig := new real[t.total](_ => 0.0);
    ghost var at := Columns(t);
    assert orig[..] == Zeros(t.total);
    for j := 0 to |c|
      invariant orig[..] == Scatter(c[..j], at[..j], Zeros(t.total))
    {
      assert c[..j + 1][..j] == c[..j] && at[..j + 1][..j] == at[..j];
      orig[ConvertedCol(t, Expanded(t, j))] := c[j];
    }
    assert c[..|c|] == c && at[..|c|] == at;
    hide Scatter;
    FlipListed(orig, t.negated);
  }

  method FlipListed(v: array<real>, list: seq<nat>)
    requires VarsIn(list, v.Length)
    modifies v
    ensures v[..] == Negate(old(v[..]), list)
  {
    ghost var goal := Negate(v[..], list);
    assert list[0..] == list;
    for k := 0 to |list|
      invariant VarsIn(list[k..], v.Length) && Negate(v[..], list[k..]) == goal
    {
      assert list[k..][1..] == list[k + 1..];
      ghost var before := v[..];
      v[list[k]] := -v[list[k]];
      assert v[..] == Flip(before, list[k]);
    }
  }

  method DoubleFree(v: Vec, us: seq<nat>) returns (w: Vec)
    requires VarsIn(us, |v|)
    ensures w == Doubled(v, us)
  {
    var a := new real[|v| + |us|](i requires 0 <= i < |v| + |us| => if i < |v| then v[i] else 0.0);
    for k := 0 to |us|
      invariant forall i :: 0 <= i < |v| ==> a[i] == v[i]
      invariant forall i :: 0 <= i < k ==> a[|v| + i] == -v[us[i]]
    {
      a[|v| + k] := -a[us[k]];
    }
    w := a[..];
    assert w == Doubled(v, us);
  }

  method DropSubstituted(t: Transform, v: Vec) returns (r: Option<Vec>)
    requires Consistent(t)
    ensures r == Dropped(t, v)
  {
    if t.eliminated == [] { return Some(v); }
    for k := 0 to |t.eliminated|
      invariant forall i :: 0 <= i < k ==> t.eliminated[i] < |v| && v[t.eliminated[i]] == 0.0
    {
      if t.eliminated[k] >= |v| || v[t.eliminated[k]] != 0.0 { return None; }
    }
    var a := new real[|t.keep|](_ => 0.0);
    for k := 0 to |t.keep|
      invariant forall i :: 0 <= i < k ==> t.keep[i] < |v| && a[i] == v[t.keep[i]]
    {
      if t.keep[k] >= |v| { return None; }
      a[k] := v[t.keep[k]];
    }
    assert a[..] == Select(v, t.keep);
    return Some(a[..]);
  }

  method CrushObjective(t: Transform, c: Vec) returns (r: Option<Vec>)
    requires Consistent(t)
    ensures r == Crush(t, c)
    ensures t.userCols <= t.total && VarsIn(Columns(t), t.total) && (t.removed != [] ==> t.remaining != []) ==>
              (r.Some? <==> Acceptable(t, c))
  {
    if t.userCols <= t.total && VarsIn(Columns(t), t.total) && (t.removed != [] ==> t.remaining != []) { CrushAccepts(t, c); }
    hide Acceptable, Crush;
    r := CrushStages(t, c);
  }

  method CrushStages(t: Transform, c: Vec) returns (r: Option<Vec>)
    requires Consistent(t)
    ensures r == Crush(t, c)
  {
    if |c| != ProblemCols(t) || t.total < t.userCols { return None; }
    for j := 0 to |c|
      invariant forall i :: 0 <= i < j ==> ConvertedCol(t, Expanded(t, i)) < t.total
    {
      if ConvertedCol(t, Expanded(t, j)) >= t.total {
        assert Columns(t)[j] >= t.total;
        return None;
      }
    }
    var orig := SpreadObjective(t, c);
    var v := Reduced(t, orig[..]);
    FreeIn(t, orig[..]);
    var doubled := DoubleFree(v, t.free);
    var dropped := DropSubstituted(t, doubled);
    if dropped.None? || |dropped.value| != |t.scales| { return None; }
    var a := new real[|t.scales|](_ => 0.0);
    for j := 0 to |t.scales|
      invariant forall i :: 0 <= i < j ==> a[i] == dropped.value[i] / t.scales[i]
    {
      a[j] := dropped.value[j] / t.scales[j];
    }
    assert a[..] == Divided(dropped.value, t.scales);
    return Some(a[..]);
  }
}
