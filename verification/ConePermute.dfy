/** The last pass: columns are permuted into [linear | cone_1 | ... | cone_K]. */
module ConePermute {
  import opened Extended
  import opened Reals
  import opened ConeModel
  import opened ConeFactor
  import opened ConeGeneral
  import opened ConePasses
  import opened ConeLayout
  import opened Sums

  // ------------------------------------------------------------------ the column order

  /** The variables of the first c cones, cone after cone. */
  function Flat(cones: seq<Cone>, c: nat): seq<nat>
    requires c <= |cones| && forall k :: 0 <= k < |cones| ==> cones[k].Standard?
  {
    if c == 0 then [] else Flat(cones, c - 1) + cones[c - 1].vars
  }

  /** The columns below k outside the cone block, in order. */
  function Linear(block: seq<nat>, k: nat): seq<nat> {
    if k == 0 then [] else if k - 1 in block then Linear(block, k - 1) else Linear(block, k - 1) + [k - 1]
  }

  lemma {:induction false} LinearLists(block: seq<nat>, k: nat)
    ensures var s := Linear(block, k);
            && (forall i :: 0 <= i < |s| ==> s[i] < k && s[i] !in block)
            && (forall j :: 0 <= j < k && j !in block ==> j in s)
            && (forall i, j :: 0 <= i < j < |s| ==> s[i] < s[j])
  {
    if k > 0 { LinearLists(block, k - 1); }
  }

  /** new_to_old: which column stands at each position of the new layout. */
  function NewToOld(cones: seq<Cone>, n: nat): seq<nat>
    requires forall k :: 0 <= k < |cones| ==> cones[k].Standard?
  {
    Linear(Flat(cones, |cones|), n) + Flat(cones, |cones|)
  }

  lemma {:induction false} FlatMember(m: Model, c: nat, v: nat)
    requires AllStandard(m) && c <= |m.cones| && v in Flat(m.cones, c)
    ensures exists d: nat, j: nat :: Slot(m, d, j) && d < c && SlotVar(m, d, j) == v
  {
    if v in Flat(m.cones, c - 1) {
      FlatMember(m, c - 1, v);
    } else {
      var j :| 0 <= j < |m.cones[c - 1].vars| && m.cones[c - 1].vars[j] == v;
      assert Slot(m, c - 1, j) && SlotVar(m, c - 1, j) == v;
    }
  }

  lemma {:induction false} FlatDistinct(m: Model, c: nat)
    requires AllStandard(m) && c <= |m.cones| && Disjoint(m)
    ensures Distinct(Flat(m.cones, c))
  {
    if c > 0 {
      FlatDistinct(m, c - 1);
      var f, vars := Flat(m.cones, c - 1), m.cones[c - 1].vars;
      forall i, j | 0 <= i < j < |vars| ensures vars[i] != vars[j] {
        assert SlotVar(m, c - 1, i) == vars[i] && SlotVar(m, c - 1, j) == vars[j];
      }
      forall i, j | 0 <= i < |f| && 0 <= j < |vars| ensures f[i] != vars[j] {
        FlatMember(m, c - 1, f[i]);
        var d: nat, k: nat :| Slot(m, d, k) && d < c - 1 && SlotVar(m, d, k) == f[i];
        assert Slot(m, c - 1, j) && SlotVar(m, c - 1, j) == vars[j];
      }
    }
  }

  lemma {:induction false} FlatPrefix(cones: seq<Cone>, c: nat, d: nat)
    requires c <= d <= |cones| && forall k :: 0 <= k < |cones| ==> cones[k].Standard?
    ensures Flat(cones, c) <= Flat(cones, d)
  {
    if c < d { FlatPrefix(cones, c, d - 1); }
  }

  /** Cone k's variables stand together in the block, in their order. */
  lemma FlatAt(cones: seq<Cone>, k: nat, i: nat)
    requires k < |cones| && (forall l :: 0 <= l < |cones| ==> cones[l].Standard?) && i < |cones[k].vars|
    ensures |Flat(cones, k)| + i < |Flat(cones, |cones|)|
    ensures Flat(cones, |cones|)[|Flat(cones, k)| + i] == cones[k].vars[i]
  {
    FlatPrefix(cones, k + 1, |cones|);
    assert Flat(cones, k + 1)[|Flat(cones, k)| + i] == cones[k].vars[i];
  }

  // ------------------------------------------------------------------ a bijection

  ghost predicate Inverse(p: seq<nat>, w: seq<nat>) {
    && |p| == |w|
    && (forall j :: 0 <= j < |p| ==> p[j] < |w| && w[p[j]] == j)
    && (forall k :: 0 <= k < |w| ==> w[k] < |p| && p[w[k]] == k)
  }

  ghost function Members(s: seq<nat>): set<nat> {
    set v | v in s
  }

  lemma {:induction false} DistinctCount(s: seq<nat>)
    requires Distinct(s)
    ensures |Members(s)| == |s|
  {
    if s != [] {
      var t := s[..|s| - 1];
      DistinctCount(t);
      assert Members(s) == Members(t) + {s[|s| - 1]};
    }
  }

  function Upto(n: nat): (s: set<nat>)
    ensures |s| == n && forall j :: j in s <==> 0 <= j < n
  {
    if n == 0 then {} else Upto(n - 1) + {n - 1}
  }

  /** The column order lists every column once. */
  lemma OrderIsPermutation(m: Model)
    requires AllStandard(m) && Disjoint(m) && SlotsIn(m, m.n)
    ensures var w := NewToOld(m.cones, m.n);
            |w| == m.n && Distinct(w) && (forall k :: 0 <= k < |w| ==> w[k] < m.n) && (forall j :: 0 <= j < m.n ==> j in w)
  {
    var f := Flat(m.cones, |m.cones|);
    var l, w := Linear(f, m.n), NewToOld(m.cones, m.n);
    FlatDistinct(m, |m.cones|);
    LinearLists(f, m.n);
    forall k | 0 <= k < |f| ensures f[k] < m.n {
      FlatMember(m, |m.cones|, f[k]);
      var d: nat, j: nat :| Slot(m, d, j) && d < |m.cones| && SlotVar(m, d, j) == f[k];
    }
    assert Distinct(w);
    DistinctCount(w);
    assert Members(w) == Upto(m.n);
  }

  /** old_to_new */
  function OldToNew(w: seq<nat>, n: nat): (p: seq<nat>)
    requires forall j :: 0 <= j < n ==> j in w
    ensures |p| == n && forall j :: 0 <= j < n ==> p[j] < |w| && w[p[j]] == j
  {
    seq(n, j requires 0 <= j < n => Index(w, j))
  }

  lemma OrderInverse(w: seq<nat>)
    requires Distinct(w) && (forall k :: 0 <= k < |w| ==> w[k] < |w|) && (forall j :: 0 <= j < |w| ==> j in w)
    ensures Inverse(OldToNew(w, |w|), w)
  {
  }

  // ------------------------------------------------------------------ the permuted model

  function MapTerms(t: Terms, p: seq<nat>): (r: Terms)
    requires TermsIn(t, |p|)
    ensures |r| == |t| && forall i :: 0 <= i < |t| ==> r[i] == (p[t[i].0], t[i].1)
  {
    seq(|t|, i requires 0 <= i < |t| => (p[t[i].0], t[i].1))
  }

  function MapVars(vars: seq<nat>, p: seq<nat>): (r: seq<nat>)
    requires VarsIn(vars, |p|)
    ensures |r| == |vars| && forall i :: 0 <= i < |vars| ==> r[i] == p[vars[i]]
  {
    seq(|vars|, i requires 0 <= i < |vars| => p[vars[i]])
  }

  ghost predicate Permutable(m: Model, p: seq<nat>, w: seq<nat>) {
    && Wf(m) && AllStandard(m) && m.quads == [] && Inverse(p, w) && |p| == m.n
    && forall i :: 0 <= i < |m.cones| ==> ConeIn(m.cones[i], m.n) && VarsIn(m.cones[i].vars, m.n)
  }

  function MapRows(rows: seq<Row>, p: seq<nat>): (r: seq<Row>)
    requires forall i :: 0 <= i < |rows| ==> TermsIn(rows[i].terms, |p|)
    ensures |r| == |rows|
    ensures forall i :: 0 <= i < |rows| ==> r[i] == rows[i].(terms := MapTerms(rows[i].terms, p))
  {
    seq(|rows|, i requires 0 <= i < |rows| => rows[i].(terms := MapTerms(rows[i].terms, p)))
  }

  function MapCones(cones: seq<Cone>, p: seq<nat>): (r: seq<Cone>)
    requires forall i :: 0 <= i < |cones| ==> cones[i].Standard? && VarsIn(cones[i].vars, |p|)
    ensures |r| == |cones| && forall i :: 0 <= i < |cones| ==> r[i] == Standard(MapVars(cones[i].vars, p))
  {
    seq(|cones|, i requires 0 <= i < |cones| => Standard(MapVars(cones[i].vars, p)))
  }

  ghost function Permute(m: Model, p: seq<nat>, w: seq<nat>): Model
    requires Permutable(m, p, w)
  {
    Model(m.n, MapRows(m.rows, p), Select(m.lower, w), Select(m.upper, w), Select(m.cost, w), MapCones(m.cones, p), [])
  }

  lemma {:induction false} MapActivity(t: Terms, p: seq<nat>, z: Point)
    requires TermsIn(t, |p|) && VarsIn(p, |z|)
    ensures TermsIn(MapTerms(t, p), |z|) && Activity(MapTerms(t, p), z) == Activity(t, Select(z, p))
  {
    if t != [] {
      MapActivity(t[1..], p, z);
      assert MapTerms(t, p)[1..] == MapTerms(t[1..], p);
    }
  }

  lemma {:induction false} MapSumSq(vars: seq<nat>, p: seq<nat>, z: Point)
    requires VarsIn(vars, |p|) && VarsIn(p, |z|)
    ensures VarsIn(MapVars(vars, p), |z|) && SumSq(MapVars(vars, p), z) == SumSq(vars, Select(z, p))
  {
    if vars != [] {
      MapSumSq(vars[1..], p, z);
      assert MapVars(vars, p)[1..] == MapVars(vars[1..], p);
    }
  }

  lemma MapConeOk(vars: seq<nat>, p: seq<nat>, z: Point)
    requires |vars| >= 1 && VarsIn(vars, |p|) && VarsIn(p, |z|)
    ensures ConeIn(Standard(MapVars(vars, p)), |z|)
    ensures ConeOk(Standard(MapVars(vars, p)), z) == ConeOk(Standard(vars), Select(z, p))
  {
    assert MapVars(vars, p)[1..] == MapVars(vars[1..], p);
    MapSumSq(vars[1..], p, z);
  }

  lemma PermuteWf(m: Model, p: seq<nat>, w: seq<nat>)
    requires Permutable(m, p, w)
    ensures Wf(Permute(m, p, w))
  {
    var b := Permute(m, p, w);
    forall i | 0 <= i < |b.rows| ensures TermsIn(b.rows[i].terms, b.n) { assert TermsIn(m.rows[i].terms, m.n); }
    forall i | 0 <= i < |b.cones| ensures ConeIn(b.cones[i], b.n) { assert ConeIn(m.cones[i], m.n); }
  }

  lemma PermuteLinear(m: Model, p: seq<nat>, w: seq<nat>, z: Point)
    requires Permutable(m, p, w) && |z| == m.n && Wf(Permute(m, p, w)) && VarsIn(p, |z|)
    ensures LinearOk(Permute(m, p, w), z) <==> LinearOk(m, Select(z, p))
  {
    var b, x := Permute(m, p, w), Select(z, p);
    forall i | 0 <= i < |m.rows| ensures RowOk(b.rows[i], z) == RowOk(m.rows[i], x) {
      MapActivity(m.rows[i].terms, p, z);
    }
    if LinearOk(b, z) {
      forall i | 0 <= i < |m.rows| ensures RowOk(m.rows[i], x) { assert RowOk(b.rows[i], z); }
      forall j | 0 <= j < m.n ensures BoundOk(m.lower[j], m.upper[j], x[j]) {
        assert BoundOk(b.lower[p[j]], b.upper[p[j]], z[p[j]]);
      }
    }
    if LinearOk(m, x) {
      forall i | 0 <= i < |b.rows| ensures RowOk(b.rows[i], z) { assert RowOk(m.rows[i], x); }
      forall k | 0 <= k < b.n ensures BoundOk(b.lower[k], b.upper[k], z[k]) {
        assert BoundOk(m.lower[w[k]], m.upper[w[k]], x[w[k]]);
      }
    }
  }

  /** Permuting columns permutes the points. */
  lemma PermuteSat(m: Model, p: seq<nat>, w: seq<nat>, z: Point)
    requires Permutable(m, p, w) && |z| == m.n
    ensures VarsIn(p, |z|) && Wf(Permute(m, p, w))
    ensures Sat(Permute(m, p, w), z) <==> Sat(m, Select(z, p))
  {
    PermuteWf(m, p, w);
    PermuteLinear(m, p, w, z);
    var b, x := Permute(m, p, w), Select(z, p);
    forall i | 0 <= i < |m.cones| ensures ConeIn(m.cones[i], m.n) && ConeOk(b.cones[i], z) == ConeOk(m.cones[i], x) {
      assert ConeIn(m.cones[i], m.n);
      MapConeOk(m.cones[i].vars, p, z);
    }
    hide Permute, LinearOk, ConeOk;
    PermuteCones(m, b, x, z);
  }

  lemma PermuteCones(m: Model, b: Model, x: Point, z: Point)
    requires Wf(m) && Wf(b) && |x| == m.n && |z| == b.n && |b.cones| == |m.cones| && m.quads == [] == b.quads
    requires LinearOk(b, z) <==> LinearOk(m, x)
    requires forall i :: 0 <= i < |m.cones| ==> ConeOk(b.cones[i], z) == ConeOk(m.cones[i], x)
    ensures Sat(b, z) <==> Sat(m, x)
  {
    hide LinearOk, ConeOk;
    if Sat(b, z) {
      forall i | 0 <= i < |m.cones| ensures ConeOk(m.cones[i], x) { assert ConeOk(b.cones[i], z); }
    }
    if Sat(m, x) {
      forall i | 0 <= i < |b.cones| ensures ConeOk(b.cones[i], z) { assert ConeOk(m.cones[i], x); }
    }
  }

  /** Cone k fills the segment that starts after the linear block and the cones before it. */
  lemma Segment(m: Model, p: seq<nat>, k: nat)
    requires AllStandard(m) && k < |m.cones| && Inverse(p, NewToOld(m.cones, m.n)) && VarsIn(m.cones[k].vars, |p|)
    ensures MapVars(m.cones[k].vars, p)
         == Range(|Linear(Flat(m.cones, |m.cones|), m.n)| + |Flat(m.cones, k)|, |m.cones[k].vars|)
  {
    var vars := m.cones[k].vars;
    hide Inverse, NewToOld, Flat, Linear;
    var base := |Linear(Flat(m.cones, |m.cones|), m.n)| + |Flat(m.cones, k)|;
    forall i | 0 <= i < |vars| ensures p[vars[i]] == base + i { SegmentEntry(m, p, k, i); }
  }

  lemma SegmentEntry(m: Model, p: seq<nat>, k: nat, i: nat)
    requires AllStandard(m) && k < |m.cones| && Inverse(p, NewToOld(m.cones, m.n)) && VarsIn(m.cones[k].vars, |p|)
    requires i < |m.cones[k].vars|
    ensures p[m.cones[k].vars[i]] == |Linear(Flat(m.cones, |m.cones|), m.n)| + |Flat(m.cones, k)| + i
  {
    FlatAt(m.cones, k, i);
    hide Flat, Linear;
    var w, at := NewToOld(m.cones, m.n), |Linear(Flat(m.cones, |m.cones|), m.n)| + |Flat(m.cones, k)| + i;
    assert w[at] == m.cones[k].vars[i];
  }

  // ------------------------------------------------------------------ sums over permuted columns

  /** A sum does not depend on the order of its terms. */
  lemma SumPermuted(n: nat, p: seq<nat>, w: seq<nat>, f: int -> real, g: int -> real)
    requires Inverse(p, w) && |p| == n && forall j :: 0 <= j < n ==> g(j) == f(p[j])
    ensures Sum(n, f) == Sum(n, g)
  {
    var t: (int, int) -> real := (k, j) => if 0 <= k < |w| && w[k] == j then f(k) else 0.0;
    forall k | 0 <= k < n ensures f(k) == RowSum(t, k, n) { RowPoint(t, k, n, w[k]); }
    RowsAreSum(t, n, n, f);
    forall j | 0 <= j < n ensures g(j) == ColSum(t, n, j) {
      var c: int -> real := k => t(k, j);
      ColIsSum(t, n, j, c);
      SumPoint(n, c, p[j]);
    }
    ColsAreSum(t, n, n, g);
    SumSwap(t, n, n);
  }

  function Term(a: seq<real>, b: seq<real>, i: int): real
    requires |a| == |b|
  {
    if 0 <= i < |a| then a[i] * b[i] else 0.0
  }

  lemma {:induction false} DotSnoc(a: seq<real>, b: seq<real>)
    requires |a| == |b| && a != []
    ensures var k := |a| - 1; Dot(a, b) == Dot(a[..k], b[..k]) + a[k] * b[k]
  {
    var k := |a| - 1;
    if k > 0 {
      DotSnoc(a[1..], b[1..]);
      assert a[1..][..k - 1] == a[..k][1..] && b[1..][..k - 1] == b[..k][1..];
    }
  }

  lemma {:induction false} DotIsSum(a: seq<real>, b: seq<real>, f: int -> real)
    requires |a| == |b| && forall i :: 0 <= i < |a| ==> f(i) == Term(a, b, i)
    ensures Dot(a, b) == Sum(|a|, f)
  {
    if a != [] {
      var k := |a| - 1;
      DotSnoc(a, b);
      forall i | 0 <= i < k ensures f(i) == Term(a[..k], b[..k], i) { assert f(i) == Term(a, b, i); }
      DotIsSum(a[..k], b[..k], f);
    }
  }

  lemma TermMoved(cost: seq<real>, p: seq<nat>, w: seq<nat>, z: Point, j: nat)
    requires Inverse(p, w) && |cost| == |p| == |z| && j < |p|
    ensures VarsIn(w, |cost|) && VarsIn(p, |z|) && Term(cost, Select(z, p), j) == Term(Select(cost, w), z, p[j])
  {
  }

  /** The linear objective is unchanged by the permutation. */
  lemma PermuteCost(cost: seq<real>, p: seq<nat>, w: seq<nat>, z: Point)
    requires Inverse(p, w) && |cost| == |p| == |z|
    ensures VarsIn(w, |cost|) && VarsIn(p, |z|) && Dot(Select(cost, w), z) == Dot(cost, Select(z, p))
  {
    var c, x := Select(cost, w), Select(z, p);
    var f: int -> real := k => Term(c, z, k);
    var g: int -> real := j => Term(cost, x, j);
    forall j | 0 <= j < |p| ensures g(j) == f(p[j]) { TermMoved(cost, p, w, z, j); }
    hide Term;
    DotIsSum(c, z, f);
    DotIsSum(cost, x, g);
    SumPermuted(|p|, p, w, f, g);
  }

  /** Columns that cost nothing do not change the objective. */
  lemma {:induction false} DotZeros(cost: seq<real>, x: Point, y: Point)
    requires |cost| == |x|
    ensures Dot(cost + Zeros(|y|), x + y) == Dot(cost, x)
  {
    if cost == [] {
      assert cost + Zeros(|y|) == Zeros(|y|) && x + y == y;
      DotAllZeros(y);
    } else {
      DotZeros(cost[1..], x[1..], y);
      assert (cost + Zeros(|y|))[1..] == cost[1..] + Zeros(|y|) && (x + y)[1..] == x[1..] + y;
    }
  }

  lemma {:induction false} DotAllZeros(y: Point)
    ensures Dot(Zeros(|y|), y) == 0.0
  {
    if y != [] {
      DotAllZeros(y[1..]);
      assert Zeros(|y|)[1..] == Zeros(|y| - 1);
    }
  }
}
