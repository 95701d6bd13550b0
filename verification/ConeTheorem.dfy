/** The whole expansion: what it preserves and how its result is laid out. */
module ConeTheorem {
  import opened Extended
  import opened Reals
  import opened ConeModel
  import opened ConeFactor
  import opened ConeGeneral
  import opened ConeConvert
  import opened ConeSteps
  import opened ConePasses
  import opened ConeLayout
  import opened ConePermute

  /** The expanded problem, original_col_to_expanded_col, cone_var_start, second_order_cone_dims and
      the recorded head bounds. */
  datatype Expansion = Expansion(model: Model, columns: seq<nat>, start: nat, dims: seq<nat>, heads: seq<HeadBound>)

  // ------------------------------------------------------------------ the pipeline

  ghost function Converted(m: Model, fs: seq<Option<Factor>>, tol: real): Option<Work>
    requires Wf(m) && |fs| == |m.quads| && tol > 0.0
  {
    if m.quads == [] then None else ConvertAll(Work(m, []), |m.rows|, fs, tol)
  }

  function Lifted(m: Model, hs: seq<real>): (r: Model)
    requires |hs| == |m.cones|
    ensures AllStandard(r)
  {
    LiftFrom(m, 0, hs)
  }

  function Aliased(m: Model): (r: Model)
    requires AllStandard(m)
    ensures AllStandard(r)
  {
    AliasFrom(m, 0, 0, map[])
  }

  function Settled(m: Model, hs: seq<real>): (r: Model)
    requires |hs| == |m.cones|
    ensures AllStandard(r)
  {
    SplitFrom(Aliased(Lifted(m, hs)), 0, 0)
  }

  /** What the permutation pass needs of its input. */
  ghost predicate Placeable(s: Model) {
    && Wf(s) && AllStandard(s) && s.quads == [] && SplitInv(s, |s.cones|, 0)
  }

  /** The three middle passes extend the converted model and make it placeable. */
  lemma SettledFacts(m: Model, hs: seq<real>)
    requires Wf(m) && RootsOk(m.cones, hs) && AllOwnDistinct(m) && m.quads == []
    ensures Extends(m, Settled(m, hs)) && Placeable(Settled(m, hs))
  {
    hide Extends, Wf, AliasInv, SplitInv, AllOwnDistinct;
    var l := Lifted(m, hs);
    LiftAllExtends(m, 0, hs);
    LiftDistinct(m, 0, hs);
    ExtendsWf(m, l);
    var a := Aliased(l);
    AliasExtends(l, 0, 0, map[]);
    AliasStart(l);
    AliasDisjoint(l, 0, 0, map[], l.n);
    ExtendsWf(l, a);
    SplitStart(a);
    var s := Settled(m, hs);
    SplitExtends(a, 0, 0);
    SplitSettles(a, 0, 0);
    ExtendsWf(a, s);
    ExtendsTransitive(m, l, a);
    ExtendsTransitive(m, a, s);
  }

  lemma SplitStart(a: Model)
    requires Wf(a) && Disjoint(a) && SlotsIn(a, a.n)
    ensures SplitInv(a, 0, 0)
  {
  }

  ghost function Columns(s: Model): (p: seq<nat>)
    requires Placeable(s)
    ensures Permutable(s, p, NewToOld(s.cones, s.n))
  {
    OrderIsPermutation(s);
    OrderInverse(NewToOld(s.cones, s.n));
    ConesIn(s);
    OldToNew(NewToOld(s.cones, s.n), s.n)
  }

  lemma ConesIn(s: Model)
    requires Wf(s) && AllStandard(s)
    ensures forall i :: 0 <= i < |s.cones| ==> ConeIn(s.cones[i], s.n) && VarsIn(s.cones[i].vars, s.n)
  {
    forall i | 0 <= i < |s.cones| ensures ConeIn(s.cones[i], s.n) && VarsIn(s.cones[i].vars, s.n) {
      assert ConeIn(s.cones[i], s.n);
    }
  }

  function Dims(cones: seq<Cone>): (d: seq<nat>)
    requires forall i :: 0 <= i < |cones| ==> cones[i].Standard?
    ensures |d| == |cones| && forall i :: 0 <= i < |cones| ==> d[i] == |cones[i].vars|
  {
    seq(|cones|, i requires 0 <= i < |cones| => |cones[i].vars|)
  }

  ghost function Place(s: Model, n: nat, heads: seq<HeadBound>): Expansion
    requires Placeable(s) && n <= s.n
  {
    var p := Columns(s);
    Expansion(Permute(s, p, NewToOld(s.cones, s.n)), p[..n], |Linear(Flat(s.cones, |s.cones|), s.n)|, Dims(s.cones), heads)
  }

  /** A linear model with quadratic constraints, and sound answers from the numerical routines. */
  ghost predicate Input(m: Model, fs: seq<Option<Factor>>, hs: seq<real>, tol: real) {
    && Wf(m) && m.cones == [] && OracleOk(m.quads, fs, tol)
    && (Converted(m, fs, tol).Some? ==> RootsOk(Converted(m, fs, tol).value.m.cones, hs))
  }

  lemma ConvertedFacts(m: Model, fs: seq<Option<Factor>>, hs: seq<real>, tol: real)
    requires Input(m, fs, hs, tol) && Converted(m, fs, tol).Some?
    ensures var w := Converted(m, fs, tol).value;
            && Extends(m, w.m) && AllOwnDistinct(w.m) && w.m.quads == []
            && Extends(w.m, Settled(w.m, hs)) && Placeable(Settled(w.m, hs)) && Extends(m, Settled(w.m, hs))
            && m.n <= Settled(w.m, hs).n
  {
    ConvertExtends(Work(m, []), |m.rows|, fs, tol);
    ConvertDistinct(Work(m, []), |m.rows|, fs, tol);
    hide Extends, OracleOk, Placeable, AllOwnDistinct;
    var w := Converted(m, fs, tol).value;
    ExtendsWf(m, w.m);
    SettledFacts(w.m, hs);
    ExtendsTransitive(m, w.m, Settled(w.m, hs));
    ExtendsWf(m, Settled(w.m, hs));
  }

  ghost function Expand(m: Model, fs: seq<Option<Factor>>, hs: seq<real>, tol: real): Option<Expansion>
    requires Input(m, fs, hs, tol)
  {
    match Converted(m, fs, tol)
    case None => None
    case Some(w) =>
      ConvertedFacts(m, fs, hs, tol);
      Some(Place(Settled(w.m, hs), m.n, w.heads))
  }

  /** project_barrier_solution_to_model_variables */
  function Project(e: Expansion, z: Point): Point
    requires VarsIn(e.columns, |z|)
  {
    Select(z, e.columns)
  }

  // ------------------------------------------------------------------ meaning

  /** Placing keeps meaning: points of the placed model are points of `s` read through the columns. */
  lemma PlaceKeeps(s: Model, n: nat, heads: seq<HeadBound>, z: Point)
    requires Placeable(s) && n <= s.n && |z| == s.n
    ensures var e, p := Place(s, n, heads), Columns(s);
            && Wf(e.model) && VarsIn(p, |z|) && VarsIn(e.columns, |z|) && Project(e, z) == Select(z, p)[..n]
            && (Sat(e.model, z) <==> Sat(s, Select(z, p)))
  {
    var p := Columns(s);
    PermuteSat(s, p, NewToOld(s.cones, s.n), z);
  }

  /** Every point of the old layout is the reading of a point of the new one. */
  lemma Reachable(s: Model, x: Point) returns (z: Point)
    requires Placeable(s) && |x| == s.n
    ensures |z| == s.n && VarsIn(Columns(s), |z|) && Select(z, Columns(s)) == x
  {
    var p, w := Columns(s), NewToOld(s.cones, s.n);
    z := Select(x, w);
    assert Select(z, p) == x;
  }

  /** The expansion preserves meaning: a point satisfies the rows, bounds and quadratic constraints
      of the original exactly when some point of the expanded problem projects to it. */
  lemma MeaningPreserved(m: Model, fs: seq<Option<Factor>>, hs: seq<real>, tol: real, x: Point)
    requires Input(m, fs, hs, tol) && Expand(m, fs, hs, tol).Some?
    ensures var e := Expand(m, fs, hs, tol).value;
            && Wf(e.model) && m.n <= e.model.n && VarsIn(e.columns, e.model.n)
            && (Sat(m, x) <==> exists z: Point :: Sat(e.model, z) && Project(e, z) == x)
  {
    ConvertedFacts(m, fs, hs, tol);
    var w := Converted(m, fs, tol).value;
    var s := Settled(w.m, hs);
    PlaceMeaning(m, s, w.heads, x);
  }

  lemma PlaceMeaning(m: Model, s: Model, heads: seq<HeadBound>, x: Point)
    requires Extends(m, s) && Placeable(s) && m.n <= s.n
    ensures var e := Place(s, m.n, heads);
            && Wf(e.model) && e.model.n == s.n && VarsIn(e.columns, s.n)
            && (Sat(m, x) <==> exists z: Point :: Sat(e.model, z) && Project(e, z) == x)
  {
    var e := Place(s, m.n, heads);
    assert e.model.n == s.n;
    PlaceKeeps(s, m.n, heads, Zeros(s.n));
    hide Place, Placeable, Columns;
    if Sat(m, x) {
      var y :| Sat(s, y) && y[..m.n] == x;
      var z := Reachable(s, y);
      PlaceKeeps(s, m.n, heads, z);
    }
    forall z | Sat(e.model, z) ensures Sat(m, Project(e, z)) {
      PlaceKeeps(s, m.n, heads, z);
    }
  }

  /** The linear objective agrees at every expanded point, feasible or not. */
  lemma ObjectivePreserved(m: Model, fs: seq<Option<Factor>>, hs: seq<real>, tol: real, z: Point)
    requires Input(m, fs, hs, tol) && Expand(m, fs, hs, tol).Some?
    requires |z| == Expand(m, fs, hs, tol).value.model.n
    ensures var e := Expand(m, fs, hs, tol).value;
            && VarsIn(e.columns, |z|) && |e.model.cost| == |z| && |e.columns| == |m.cost|
            && Dot(e.model.cost, z) == Dot(m.cost, Project(e, z))
  {
    ConvertedFacts(m, fs, hs, tol);
    var w := Converted(m, fs, tol).value;
    var s := Settled(w.m, hs);
    ExtendsWf(m, s);
    PlaceCost(m, s, w.heads, z);
  }

  lemma PlaceParts(s: Model, n: nat, heads: seq<HeadBound>)
    requires Placeable(s) && n <= s.n
    ensures var e, p, w := Place(s, n, heads), Columns(s), NewToOld(s.cones, s.n);
            && Inverse(p, w) && |p| == s.n == |s.cost| == e.model.n && VarsIn(p, s.n) && VarsIn(w, s.n)
            && e.model.cost == Select(s.cost, w) && e.columns == p[..n]
  {
  }

  lemma PlaceCost(m: Model, s: Model, heads: seq<HeadBound>, z: Point)
    requires |m.cost| == m.n && Placeable(s) && m.n <= s.n && s.cost == m.cost + Zeros(s.n - m.n) && |z| == s.n
    ensures var e := Place(s, m.n, heads);
            && VarsIn(e.columns, |z|) && |e.model.cost| == |z| && |e.columns| == |m.cost|
            && Dot(e.model.cost, z) == Dot(m.cost, Project(e, z))
  {
    hide Place, Placeable, Columns, Dot, NewToOld;
    var p, w := Columns(s), NewToOld(s.cones, s.n);
    PlaceParts(s, m.n, heads);
    PermuteCost(s.cost, p, w, z);
    var x := Select(z, p);
    assert x == x[..m.n] + x[m.n..] && Project(Place(s, m.n, heads), z) == x[..m.n];
    DotZeros(m.cost, x[..m.n], x[m.n..]);
  }

  // ------------------------------------------------------------------ layout

  function Total(dims: seq<nat>, k: nat): nat
    requires k <= |dims|
  {
    if k == 0 then 0 else Total(dims, k - 1) + dims[k - 1]
  }

  lemma {:induction false} FlatTotal(cones: seq<Cone>, k: nat)
    requires k <= |cones| && forall i :: 0 <= i < |cones| ==> cones[i].Standard?
    ensures |Flat(cones, k)| == Total(Dims(cones), k)
  {
    if k > 0 { FlatTotal(cones, k - 1); }
  }

  /** Column i of a segment is free, or the head with bounds [0, inf). */
  ghost predicate ConeColumn(e: Expansion, base: nat, i: nat) {
    var j := base + i;
    && j < e.model.n && |e.model.lower| == |e.model.upper| == e.model.n && e.model.upper[j] == PosInf
    && (e.model.lower[j] == NegInf || (i == 0 && e.model.lower[j] == Fin(0.0)))
  }

  ghost predicate SegmentAt(e: Expansion, k: nat, base: nat)
    requires k < |e.dims| == |e.model.cones|
  {
    e.model.cones[k] == Standard(Range(base, e.dims[k])) && forall i :: 0 <= i < e.dims[k] ==> ConeColumn(e, base, i)
  }

  /** Cone k fills one segment of the cone block, free but for a head with bounds [0, inf). */
  ghost predicate SegmentOk(e: Expansion, k: nat) {
    && k < |e.dims| == |e.model.cones| && SegmentAt(e, k, e.start + Total(e.dims, k))
  }

  /** The layout of the result: the cones fill consecutive segments that end at the last column, and
      distinct original columns keep distinct places. */
  ghost predicate LayoutOk(e: Expansion) {
    && |e.dims| == |e.model.cones| && e.start + Total(e.dims, |e.dims|) == e.model.n
    && (forall k :: 0 <= k < |e.dims| ==> SegmentOk(e, k))
    && Distinct(e.columns) && VarsIn(e.columns, e.model.n)
  }

  lemma PlaceColumn(s: Model, n: nat, heads: seq<HeadBound>, base: nat, k: nat, i: nat)
    requires Placeable(s) && n <= s.n && Slot(s, k, i) && SlotVar(s, k, i) < s.n
    requires Columns(s)[SlotVar(s, k, i)] == base + i
    ensures ConeColumn(Place(s, n, heads), base, i)
  {
    assert Before(k, i, |s.cones|, 0);
    assert Stays(s, i, SlotVar(s, k, i));
    var p, w := Columns(s), NewToOld(s.cones, s.n);
    assert w[p[SlotVar(s, k, i)]] == SlotVar(s, k, i);
    hide SplitInv, NewToOld, Wf;
  }

  lemma PlaceCone(s: Model, n: nat, heads: seq<HeadBound>, k: nat)
    requires Placeable(s) && n <= s.n && k < |s.cones|
    ensures var e, p := Place(s, n, heads), Columns(s);
            && e.dims == Dims(s.cones) && |e.model.cones| == |s.cones| && VarsIn(s.cones[k].vars, |p|)
            && e.model.cones[k] == Standard(MapVars(s.cones[k].vars, p))
            && e.start == |Linear(Flat(s.cones, |s.cones|), s.n)| && Inverse(p, NewToOld(s.cones, s.n))
  {
    hide Wf, SplitInv, NewToOld, Linear, Flat;
  }

  lemma SegmentRange(s: Model, p: seq<nat>, k: nat, start: nat)
    requires AllStandard(s) && k < |s.cones| && Inverse(p, NewToOld(s.cones, s.n)) && VarsIn(s.cones[k].vars, |p|)
    requires start == |Linear(Flat(s.cones, |s.cones|), s.n)|
    ensures MapVars(s.cones[k].vars, p) == Range(start + Total(Dims(s.cones), k), |s.cones[k].vars|)
  {
    hide NewToOld, Linear, Flat, Total, Inverse;
    FlatTotal(s.cones, k);
    Segment(s, p, k);
  }

  lemma SegmentColumns(s: Model, n: nat, heads: seq<HeadBound>, k: nat, base: nat)
    requires Placeable(s) && n <= s.n && k < |s.cones| && s.cones[k].Standard? && VarsIn(s.cones[k].vars, |Columns(s)|)
    requires VarsIn(s.cones[k].vars, s.n) && MapVars(s.cones[k].vars, Columns(s)) == Range(base, |s.cones[k].vars|)
    ensures forall i :: 0 <= i < |s.cones[k].vars| ==> ConeColumn(Place(s, n, heads), base, i)
  {
    hide Place, Placeable, Columns, ConeColumn;
    var p, vars := Columns(s), s.cones[k].vars;
    forall i | 0 <= i < |vars| ensures ConeColumn(Place(s, n, heads), base, i) {
      assert MapVars(vars, p)[i] == base + i;
      assert Slot(s, k, i) && SlotVar(s, k, i) == vars[i];
      PlaceColumn(s, n, heads, base, k, i);
    }
  }

  lemma SegmentHolds(s: Model, n: nat, heads: seq<HeadBound>, k: nat, base: nat)
    requires Placeable(s) && n <= s.n && k < |s.cones| && AllStandard(s)
    requires base == Place(s, n, heads).start + Total(Dims(s.cones), k) && VarsIn(s.cones[k].vars, s.n)
    requires k < |Place(s, n, heads).dims| == |Place(s, n, heads).model.cones|
    ensures SegmentAt(Place(s, n, heads), k, base)
  {
    hide Place, Placeable, Columns, Total, ConeColumn, NewToOld, Linear, Flat, Inverse;
    PlaceCone(s, n, heads, k);
    SegmentRange(s, Columns(s), k, Place(s, n, heads).start);
    SegmentColumns(s, n, heads, k, base);
  }

  lemma PlaceSegment(s: Model, n: nat, heads: seq<HeadBound>, k: nat)
    requires Placeable(s) && n <= s.n && k < |s.cones|
    ensures SegmentOk(Place(s, n, heads), k)
  {
    ConesIn(s);
    assert AllStandard(s);
    hide Place, Placeable, Columns, Total, ConeColumn, NewToOld, Linear, Flat, Inverse, SegmentAt;
    var e := Place(s, n, heads);
    PlaceCone(s, n, heads, k);
    SegmentHolds(s, n, heads, k, e.start + Total(Dims(s.cones), k));
  }

  lemma PlaceLayout(s: Model, n: nat, heads: seq<HeadBound>)
    requires Placeable(s) && n <= s.n
    ensures LayoutOk(Place(s, n, heads))
  {
    var e, p, w := Place(s, n, heads), Columns(s), NewToOld(s.cones, s.n);
    FlatTotal(s.cones, |s.cones|);
    PlaceParts(s, n, heads);
    assert |w| == e.start + Total(e.dims, |e.dims|) && |e.dims| == |e.model.cones| == |s.cones|;
    hide Place, Placeable, Columns, NewToOld, SegmentOk, Total;
    forall i, j | 0 <= i < j < n ensures e.columns[i] != e.columns[j] {
      assert w[p[i]] == i && w[p[j]] == j;
    }
    forall k | 0 <= k < |e.dims| ensures SegmentOk(e, k) { PlaceSegment(s, n, heads, k); }
  }

  /** Every expansion is laid out as the barrier expects. */
  lemma ExpansionLayout(m: Model, fs: seq<Option<Factor>>, hs: seq<real>, tol: real)
    requires Input(m, fs, hs, tol) && Expand(m, fs, hs, tol).Some?
    ensures LayoutOk(Expand(m, fs, hs, tol).value)
  {
    ConvertedFacts(m, fs, hs, tol);
    var w := Converted(m, fs, tol).value;
    PlaceLayout(Settled(w.m, hs), m.n, w.heads);
  }
}
