/** The general path: a convex quadratic constraint as linking rows and one standard cone. */
module ConeGeneral {
  import opened Extended
  import opened ConeModel
  import opened ConeFactor
  import opened ConeSteps
  import opened Sums

  function Range(start: nat, len: nat): (s: seq<nat>)
    ensures |s| == len && forall i :: 0 <= i < len ==> s[i] == start + i
  {
    seq(len, i requires 0 <= i < len => start + i)
  }

  function Free(e: Ext, k: nat): (s: seq<Ext>)
    ensures |s| == k && forall i :: 0 <= i < k ==> s[i] == e
  {
    seq(k, _ => e)
  }

  /** The terms of a linear part that survive the tolerance. */
  function Kept(t: Terms, tol: real): Terms {
    if t == [] then []
    else if -tol < t[0].1 < tol then Kept(t[1..], tol) else [t[0]] + Kept(t[1..], tol)
  }

  /** Row k of -sqrt(D) L^T P. */
  function Scaled(col: Terms, order: seq<nat>, root: real): Terms
    requires TermsIn(col, |order|)
  {
    if col == [] then [] else [(order[col[0].0], -root * col[0].1)] + Scaled(col[1..], order, root)
  }

  /** y_k - sqrt(D_k) (L^T P x)_k = 0 */
  function LinkingRow(f: Factor, k: nat, n: nat): Row
    requires k < |f.cols| && k < |f.root| && TermsIn(f.cols[k], |f.order|)
  {
    Row(Scaled(f.cols[k], f.order, f.root[k]) + [(n + k, 1.0)], EQ, 0.0)
  }

  function LinkingRows(f: Factor, r: nat, n: nat): (s: seq<Row>)
    requires r <= |f.cols| && r <= |f.root| && forall k :: 0 <= k < |f.cols| ==> TermsIn(f.cols[k], |f.order|)
    ensures |s| == r
    ensures forall k :: 0 <= k < r ==> s[k] == LinkingRow(f, k, n)
  {
    if r == 0 then [] else LinkingRows(f, r - 1, n) + [LinkingRow(f, r - 1, n)]
  }

  function SlackRow(q: Quad, tol: real, column: nat, shift: real): Row {
    Row(Kept(q.linear, tol) + [(column, 1.0)], EQ, q.rhs + shift)
  }

  function GeneralCone(n: nat, r: nat): Cone {
    Standard([n + r] + Range(n, r) + [n + r + 1])
  }

  /** Replace the first quadratic constraint, normalised to `q`, through its factorisation. */
  function General(m: Model, q: Quad, f: Factor, tol: real): Model
    requires m.quads != [] && |f.cols| == |f.root|
    requires forall k :: 0 <= k < |f.cols| ==> TermsIn(f.cols[k], |f.order|)
  {
    var r := |f.cols|;
    m.(n := m.n + r + 2,
       lower := m.lower + Free(NegInf, r + 2), upper := m.upper + Free(PosInf, r + 2), cost := m.cost + Zeros(r + 2),
       rows := m.rows + LinkingRows(f, r, m.n) + [SlackRow(q, tol, m.n + r, 0.5), SlackRow(q, tol, m.n + r + 1, -0.5)],
       cones := m.cones + [GeneralCone(m.n, r)],
       quads := m.quads[1..])
  }

  // ------------------------------------------------------------------ what the rows say

  lemma {:induction false} ActivityConcat(s: Terms, t: Terms, y: Point)
    requires TermsIn(s, |y|) && TermsIn(t, |y|)
    ensures TermsIn(s + t, |y|) && Activity(s + t, y) == Activity(s, y) + Activity(t, y)
  {
    if s == [] {
      assert s + t == t;
    } else {
      ActivityConcat(s[1..], t, y);
      assert (s + t)[1..] == s[1..] + t;
    }
  }

  /** A row ending in a fresh unit column fixes that column. */
  lemma LastColumn(t: Terms, c: nat, y: Point)
    requires TermsIn(t, |y|) && c < |y|
    ensures TermsIn(t + [(c, 1.0)], |y|) && Activity(t + [(c, 1.0)], y) == Activity(t, y) + y[c]
  {
    OneTerm((c, 1.0), y);
    ActivityConcat(t, [(c, 1.0)], y);
  }

  lemma {:induction false} KeptActivity(t: Terms, tol: real, y: Point)
    requires TermsIn(t, |y|) && forall i :: 0 <= i < |t| && -tol < t[i].1 < tol ==> t[i].1 == 0.0
    ensures TermsIn(Kept(t, tol), |y|) && Activity(Kept(t, tol), y) == Activity(t, y)
  {
    if t != [] {
      KeptActivity(t[1..], tol, y);
      var k := Kept(t, tol);
      if !(-tol < t[0].1 < tol) { assert k[1..] == Kept(t[1..], tol); }
    }
  }

  lemma ScaledStep(root: real, a: real, v: real, rest: real)
    ensures (-root * a) * v + -Mul(root, rest) == -Mul(root, Mul(a, v) + rest)
  {
  }

  lemma {:induction false} ScaledActivity(col: Terms, order: seq<nat>, root: real, y: Point)
    requires VarsIn(order, |y|) && TermsIn(col, |order|)
    ensures TermsIn(Scaled(col, order, root), |y|)
    ensures Activity(Scaled(col, order, root), y) == -Mul(root, ColumnValue(col, Select(y, order)))
  {
    hide Mul;
    if col == [] {
      MulAlgebra(root, 0.0, 0.0);
    } else {
      ScaledActivity(col[1..], order, root, y);
      var s := Scaled(col, order, root);
      assert s[1..] == Scaled(col[1..], order, root);
      ScaledStep(root, col[0].1, y[order[col[0].0]], ColumnValue(col[1..], Select(y, order)));
    }
  }

  // ------------------------------------------------------------------ the added columns

  /** The values the linking rows give the added columns at x. */
  ghost function YValue(f: Factor, k: nat, x: Point): real
    requires Shaped(f) && k < |f.cols| && VarsIn(f.order, |x|)
  {
    Mul(f.root[k], ColumnValue(f.cols[k], Select(x, f.order)))
  }

  ghost predicate Determined(q: Quad, f: Factor, n: nat, y: Point)
    requires Shaped(f) && VarsIn(f.order, n) && TermsIn(q.linear, n) && |y| == n + |f.cols| + 2
  {
    var x, r := y[..n], |f.cols|;
    && (forall k :: 0 <= k < r ==> y[n + k] == YValue(f, k, x))
    && y[n + r] == q.rhs + 0.5 - Activity(q.linear, x) && y[n + r + 1] == q.rhs - 0.5 - Activity(q.linear, x)
  }

  lemma SquareRoot(root: real, d: real, v: real)
    requires root * root == d
    ensures Square(Mul(root, v)) == Mul(d, Square(v))
  {
    assert (root * v) * (root * v) == (root * root) * (v * v);
  }

  lemma {:induction false} SumSqConcat(s: seq<nat>, t: seq<nat>, y: Point)
    requires VarsIn(s, |y|) && VarsIn(t, |y|)
    ensures VarsIn(s + t, |y|) && SumSq(s + t, y) == SumSq(s, y) + SumSq(t, y)
  {
    if s == [] {
      assert s + t == t;
    } else {
      SumSqConcat(s[1..], t, y);
      assert (s + t)[1..] == s[1..] + t;
    }
  }

  lemma SumSqOne(v: nat, y: Point)
    requires v < |y|
    ensures VarsIn([v], |y|) && SumSq([v], y) == Square(y[v])
  {
    assert SumSq([v][1..], y) == 0.0;
  }

  /** The y columns' squares are the factor's weighted squares. */
  lemma {:induction false} RangeSquares(f: Factor, r: nat, n: nat, y: Point)
    requires Shaped(f) && VarsIn(f.order, n) && r <= |f.cols| && n + r <= |y|
    requires forall k :: 0 <= k < r ==> y[n + k] == YValue(f, k, y[..n])
    ensures VarsIn(Range(n, r), |y|) && SumSq(Range(n, r), y) == Squares(f, r, Select(y[..n], f.order))
  {
    hide Mul, Square;
    if r > 0 {
      RangeSquares(f, r - 1, n, y);
      assert Range(n, r) == Range(n, r - 1) + [n + r - 1];
      SumSqConcat(Range(n, r - 1), [n + r - 1], y);
      SumSqOne(n + r - 1, y);
      assert y[n + (r - 1)] == YValue(f, r - 1, y[..n]);
      SquareRoot(f.root[r - 1], f.d[r - 1], ColumnValue(f.cols[r - 1], Select(y[..n], f.order)));
    }
  }

  /** The first identity: the y columns' squares add up to twice the quadratic form. */
  lemma YSquares(q: Quad, f: Factor, n: nat, y: Point)
    requires Factors(f, q.entries) && VarsIn(f.order, n) && QuadIn(q, n) && |y| == n + |f.cols| + 2
    requires Determined(q, f, n, y)
    ensures VarsIn(Range(n, |f.cols|), |y|) && SumSq(Range(n, |f.cols|), y) == 2.0 * Form(q.entries, y[..n])
  {
    RangeSquares(f, |f.cols|, n, y);
    SquaresAreForm(f, q.entries, y[..n]);
  }

  /** With gap = rhs - c.x the slack columns are gap + 1/2 and gap - 1/2. */
  lemma SlackSquares(gap: real)
    ensures Square(gap + 0.5) - Square(gap - 0.5) == 2.0 * gap
  {
  }

  /** With the added columns determined, the cone says what the quadratic constraint says. */
  lemma GeneralConeSays(q: Quad, f: Factor, n: nat, y: Point)
    requires Factors(f, q.entries) && VarsIn(f.order, n) && QuadIn(q, n) && |y| == n + |f.cols| + 2
    requires Shaped(f) && TermsIn(q.linear, n) && Determined(q, f, n, y) && !q.greater
    ensures ConeIn(GeneralCone(n, |f.cols|), |y|) && QuadIn(q, |y[..n]|)
    ensures ConeOk(GeneralCone(n, |f.cols|), y) == QuadOk(q, y[..n])
  {
    hide *;
    var r, x := |f.cols|, y[..n];
    YSquares(q, f, n, y);
    DeterminedSlacks(q, f, n, y);
    ConeSquares(n, r, y);
    LessSays(q, x);
    Meets(y[n + r], y[n + r + 1], SumSq(Range(n, r), y), Form(q.entries, x), q.rhs - Activity(q.linear, x));
  }

  lemma LessSays(q: Quad, x: Point)
    requires QuadIn(q, |x|) && !q.greater
    ensures EntriesIn(q.entries, |x|) && TermsIn(q.linear, |x|)
    ensures QuadOk(q, x) <==> Form(q.entries, x) <= q.rhs - Activity(q.linear, x)
  {
    hide Form, Activity;
  }

  lemma Meets(s0: real, s1: real, sum: real, form: real, gap: real)
    requires s0 == gap + 0.5 && s1 == gap - 0.5 && sum == 2.0 * form && sum >= 0.0
    ensures (s0 >= 0.0 && Square(s0) >= sum + Square(s1)) <==> form <= gap
  {
    SlackSquares(gap);
    hide Square;
  }

  lemma DeterminedSlacks(q: Quad, f: Factor, n: nat, y: Point)
    requires Shaped(f) && VarsIn(f.order, n) && TermsIn(q.linear, n) && |y| == n + |f.cols| + 2 && Determined(q, f, n, y)
    ensures var gap := q.rhs - Activity(q.linear, y[..n]);
            y[n + |f.cols|] == gap + 0.5 && y[n + |f.cols| + 1] == gap - 0.5
  {
    hide Activity, YValue;
  }

  /** The cone's condition in terms of the columns' squares. */
  lemma ConeSquares(n: nat, r: nat, y: Point)
    requires |y| == n + r + 2
    ensures ConeIn(GeneralCone(n, r), |y|) && VarsIn(Range(n, r), |y|)
    ensures ConeOk(GeneralCone(n, r), y) <==>
            y[n + r] >= 0.0 && Square(y[n + r]) >= SumSq(Range(n, r), y) + Square(y[n + r + 1])
  {
    hide Square, SumSq;
    var vars := [n + r] + Range(n, r) + [n + r + 1];
    assert vars[1..] == Range(n, r) + [n + r + 1];
    SumSqConcat(Range(n, r), [n + r + 1], y);
    SumSqOne(n + r + 1, y);
  }

  // ------------------------------------------------------------------ the step

  lemma OrderIn(f: Factor, q: Quad, n: nat)
    requires Factors(f, q.entries) && QuadIn(q, n)
    ensures VarsIn(f.order, n)
  {
    forall t | 0 <= t < |f.order| ensures f.order[t] < n {
      var u :| 0 <= u < |q.entries| && (f.order[t] == q.entries[u].0 || f.order[t] == q.entries[u].1);
    }
  }

  ghost predicate NoSmallTerms(q: Quad, tol: real) {
    forall i :: 0 <= i < |q.linear| && -tol < q.linear[i].1 < tol ==> q.linear[i].1 == 0.0
  }

  ghost predicate CanGeneral(m: Model, q: Quad, f: Factor, tol: real) {
    Wf(m) && m.quads != [] && QuadIn(q, m.n) && !q.greater && Factors(f, q.entries) && NoSmallTerms(q, tol)
  }

  lemma {:induction false} KeptIn(t: Terms, tol: real, n: nat)
    requires TermsIn(t, n)
    ensures TermsIn(Kept(t, tol), n)
  {
    if t != [] { KeptIn(t[1..], tol, n); }
  }

  lemma {:induction false} ScaledIn(col: Terms, order: seq<nat>, root: real, n: nat)
    requires TermsIn(col, |order|) && VarsIn(order, n)
    ensures TermsIn(Scaled(col, order, root), n)
  {
    if col != [] { ScaledIn(col[1..], order, root, n); }
  }

  /** The rows of the result, by position. */
  lemma GeneralRowAt(m: Model, q: Quad, f: Factor, tol: real, k: nat)
    requires m.quads != [] && |f.cols| == |f.root|
    requires forall i :: 0 <= i < |f.cols| ==> TermsIn(f.cols[i], |f.order|)
    ensures var b, k0, r := General(m, q, f, tol), |m.rows|, |f.cols|;
            && |b.rows| == k0 + r + 2
            && (k < k0 ==> b.rows[k] == m.rows[k])
            && (k0 <= k < k0 + r ==> b.rows[k] == LinkingRow(f, k - k0, m.n))
            && (k == k0 + r ==> b.rows[k] == SlackRow(q, tol, m.n + r, 0.5))
            && (k == k0 + r + 1 ==> b.rows[k] == SlackRow(q, tol, m.n + r + 1, -0.5))
  {
    hide LinkingRow, SlackRow;
  }

  lemma GeneralRowIn(m: Model, q: Quad, f: Factor, tol: real, k: nat)
    requires CanGeneral(m, q, f, tol) && k < |General(m, q, f, tol).rows|
    ensures TermsIn(General(m, q, f, tol).rows[k].terms, m.n + |f.cols| + 2)
  {
    OrderIn(f, q, m.n);
    GeneralRowAt(m, q, f, tol, k);
    hide General, Factors;
    var r, n := |f.cols|, m.n + |f.cols| + 2;
    if k < |m.rows| {
      assert TermsIn(m.rows[k].terms, m.n);
    } else if k < |m.rows| + r {
      ScaledIn(f.cols[k - |m.rows|], f.order, f.root[k - |m.rows|], n);
    } else {
      KeptIn(q.linear, tol, n);
    }
  }

  lemma GeneralWf(m: Model, q: Quad, f: Factor, tol: real)
    requires CanGeneral(m, q, f, tol)
    ensures Wf(General(m, q, f, tol)) && Grown(m, General(m, q, f, tol))
  {
    var b := General(m, q, f, tol);
    forall k | 0 <= k < |b.rows| ensures TermsIn(b.rows[k].terms, b.n) {
      GeneralRowIn(m, q, f, tol, k);
    }
    forall k | 0 <= k < |b.cones| ensures ConeIn(b.cones[k], b.n) {
      if k < |m.cones| { assert ConeIn(m.cones[k], m.n); }
    }
    forall k | 0 <= k < |b.quads| ensures QuadIn(b.quads[k], b.n) {
      assert QuadIn(m.quads[k + 1], m.n);
    }
  }

  lemma LinkingRowSays(m: Model, q: Quad, f: Factor, tol: real, k: nat, y: Point)
    requires CanGeneral(m, q, f, tol) && k < |f.cols| && |y| == m.n + |f.cols| + 2 && VarsIn(f.order, m.n)
    requires Wf(General(m, q, f, tol))
    ensures RowOk(General(m, q, f, tol).rows[|m.rows| + k], y) <==> y[m.n + k] == YValue(f, k, y[..m.n])
  {
    var b := General(m, q, f, tol);
    assert b.rows[|m.rows| + k] == LinkingRow(f, k, m.n);
    hide General, Factors, Wf, LinkingRow, YValue;
    LinkingRowValue(f, k, m.n, y);
  }

  lemma LinkingRowValue(f: Factor, k: nat, n: nat, y: Point)
    requires Shaped(f) && k < |f.cols| && VarsIn(f.order, n) && n + k < |y|
    ensures TermsIn(LinkingRow(f, k, n).terms, |y|)
    ensures RowOk(LinkingRow(f, k, n), y) <==> y[n + k] == YValue(f, k, y[..n])
  {
    var t, x := Scaled(f.cols[k], f.order, f.root[k]), y[..n];
    hide Mul;
    ScaledActivity(f.cols[k], f.order, f.root[k], x);
    assert x <= y;
    ActivityPrefix(t, x, y);
    LastColumn(t, n + k, y);
  }

  lemma SlackRowSays(q: Quad, tol: real, n: nat, c: nat, shift: real, y: Point)
    requires TermsIn(q.linear, n) && NoSmallTerms(q, tol) && n <= |y| && c < |y|
    ensures TermsIn(SlackRow(q, tol, c, shift).terms, |y|)
    ensures RowOk(SlackRow(q, tol, c, shift), y) <==> y[c] == q.rhs + shift - Activity(q.linear, y[..n])
  {
    var x := y[..n];
    KeptActivity(q.linear, tol, x);
    KeptIn(q.linear, tol, n);
    assert x <= y;
    ActivityPrefix(Kept(q.linear, tol), x, y);
    LastColumn(Kept(q.linear, tol), c, y);
  }

  /** The added rows hold exactly when the added columns take their determined values. */
  lemma GeneralRows(m: Model, q: Quad, f: Factor, tol: real, y: Point)
    requires CanGeneral(m, q, f, tol) && |y| == m.n + |f.cols| + 2
    requires VarsIn(f.order, m.n) && Grown(m, General(m, q, f, tol))
    ensures NewRowsOk(m, General(m, q, f, tol), y) <==> Determined(q, f, m.n, y)
  {
    var b, r, k0 := General(m, q, f, tol), |f.cols|, |m.rows|;
    SlackRowSays(q, tol, m.n, m.n + r, 0.5, y);
    SlackRowSays(q, tol, m.n, m.n + r + 1, -0.5, y);
    assert b.rows[k0 + r] == SlackRow(q, tol, m.n + r, 0.5);
    assert b.rows[k0 + r + 1] == SlackRow(q, tol, m.n + r + 1, -0.5);
    hide General, SlackRow, YValue;
    if NewRowsOk(m, b, y) {
      assert RowOk(b.rows[k0 + r], y) && RowOk(b.rows[k0 + r + 1], y);
      forall k | 0 <= k < r ensures y[m.n + k] == YValue(f, k, y[..m.n]) {
        assert RowOk(b.rows[k0 + k], y);
        LinkingRowSays(m, q, f, tol, k, y);
      }
    }
    if Determined(q, f, m.n, y) {
      GeneralRowsHold(m, q, f, tol, y);
    }
  }

  lemma GeneralRowsHold(m: Model, q: Quad, f: Factor, tol: real, y: Point)
    requires CanGeneral(m, q, f, tol) && |y| == m.n + |f.cols| + 2
    requires VarsIn(f.order, m.n) && Grown(m, General(m, q, f, tol)) && Determined(q, f, m.n, y)
    ensures NewRowsOk(m, General(m, q, f, tol), y)
  {
    var b, k0 := General(m, q, f, tol), |m.rows|;
    hide General, Factors, Determined;
    forall i | k0 <= i < |b.rows| ensures RowOk(b.rows[i], y) {
      GeneralRowHolds(m, q, f, tol, y, i);
    }
  }

  lemma GeneralRowHolds(m: Model, q: Quad, f: Factor, tol: real, y: Point, i: nat)
    requires m.quads != [] && Shaped(f) && VarsIn(f.order, m.n) && TermsIn(q.linear, m.n) && NoSmallTerms(q, tol)
    requires |y| == m.n + |f.cols| + 2 && Determined(q, f, m.n, y) && |m.rows| <= i < |General(m, q, f, tol).rows|
    ensures TermsIn(General(m, q, f, tol).rows[i].terms, |y|) && RowOk(General(m, q, f, tol).rows[i], y)
  {
    var r, k := |f.cols|, i - |m.rows|;
    GeneralRowAt(m, q, f, tol, i);
    hide General, SlackRow, LinkingRow, YValue, RowOk;
    if k < r {
      assert y[m.n + k] == YValue(f, k, y[..m.n]);
      LinkingRowValue(f, k, m.n, y);
    } else {
      SlackRowSays(q, tol, m.n, m.n + r, 0.5, y);
      SlackRowSays(q, tol, m.n, m.n + r + 1, -0.5, y);
    }
  }
}
