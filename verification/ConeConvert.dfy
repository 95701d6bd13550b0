/** The conversion pass: each quadratic constraint becomes a cone, with the recorded reasons for
    its heads to be nonnegative. */
module ConeConvert {
  import opened Extended
  import opened ConeModel
  import opened ConeClassify
  import opened ConeFactor
  import opened ConeGeneral
  import opened Sums

  // ------------------------------------------------------------------ moving a constraint

  /** `b` trades the first quadratic constraint of `a` for a last cone. */
  ghost predicate Traded(a: Model, b: Model) {
    && a.quads != [] && b.quads == a.quads[1..] && |b.cones| == |a.cones| + 1 && a.cones <= b.cones
  }

  lemma TradedSat(a: Model, b: Model, x: Point, y: Point)
    requires Wf(a) && Wf(b) && Traded(a, b) && |x| == a.n && |y| == b.n && x <= y
    requires LinearOk(a, x) == LinearOk(b, y)
    requires LinearOk(a, x) ==> ConeOk(b.cones[|a.cones|], y) == QuadOk(a.quads[0], x)
    ensures Sat(a, x) <==> Sat(b, y)
  {
    forall k | 0 <= k < |a.cones| ensures ConeIn(a.cones[k], a.n) && ConeOk(b.cones[k], y) == ConeOk(a.cones[k], x) {
      assert b.cones[k] == a.cones[k];
      ConePrefix(a.cones[k], x, y);
    }
    forall k | 0 <= k < |b.quads| ensures QuadIn(a.quads[k + 1], a.n) && QuadOk(b.quads[k], y) == QuadOk(a.quads[k + 1], x) {
      assert b.quads[k] == a.quads[k + 1];
      QuadPrefix(a.quads[k + 1], x, y);
    }
    if Sat(a, x) { TradedForth(a, b, x, y); }
    if Sat(b, y) { TradedBack(a, b, x, y); }
  }

  lemma TradedForth(a: Model, b: Model, x: Point, y: Point)
    requires Wf(a) && Wf(b) && Traded(a, b) && |x| == a.n && |y| == b.n && Sat(a, x) && LinearOk(b, y)
    requires ConeOk(b.cones[|a.cones|], y)
    requires forall k :: 0 <= k < |a.cones| ==> ConeOk(b.cones[k], y) == ConeOk(a.cones[k], x)
    requires forall k :: 0 <= k < |b.quads| ==> QuadOk(b.quads[k], y) == QuadOk(a.quads[k + 1], x)
    ensures Sat(b, y)
  {
    forall k | 0 <= k < |b.cones| ensures ConeOk(b.cones[k], y) {
      if k < |a.cones| { assert ConeOk(a.cones[k], x); }
    }
    forall k | 0 <= k < |b.quads| ensures QuadOk(b.quads[k], y) { assert QuadOk(a.quads[k + 1], x); }
  }

  lemma TradedBack(a: Model, b: Model, x: Point, y: Point)
    requires Wf(a) && Wf(b) && Traded(a, b) && |x| == a.n && |y| == b.n && Sat(b, y) && LinearOk(a, x)
    requires QuadOk(a.quads[0], x)
    requires forall k :: 0 <= k < |a.cones| ==> ConeOk(b.cones[k], y) == ConeOk(a.cones[k], x)
    requires forall k :: 0 <= k < |b.quads| ==> QuadOk(b.quads[k], y) == QuadOk(a.quads[k + 1], x)
    ensures Sat(a, x)
  {
    forall k | 0 <= k < |a.cones| ensures ConeOk(a.cones[k], x) { assert ConeOk(b.cones[k], y); }
    forall k | 0 <= k < |a.quads| ensures QuadOk(a.quads[k], x) {
      if k > 0 { assert QuadOk(b.quads[k - 1], y); }
    }
  }

  // ------------------------------------------------------------------ the general step

  ghost predicate GeneralReady(m: Model, f: Factor, tol: real) {
    m.quads != [] && CanGeneral(m, Normalize(m.quads[0]), f, tol)
  }

  lemma GeneralSat(m: Model, f: Factor, tol: real, y: Point)
    requires GeneralReady(m, f, tol) && |y| == m.n + |f.cols| + 2 && VarsIn(f.order, m.n)
    ensures var q := Normalize(m.quads[0]);
            && Wf(General(m, q, f, tol))
            && (Sat(General(m, q, f, tol), y) <==> Sat(m, y[..m.n]) && Determined(q, f, m.n, y))
  {
    var q, x := Normalize(m.quads[0]), y[..m.n];
    var b := General(m, q, f, tol);
    GeneralWf(m, q, f, tol);
    GeneralRows(m, q, f, tol, y);
    assert x <= y && Traded(m, b) && b.cones[|m.cones|] == GeneralCone(m.n, |f.cols|);
    assert QuadIn(m.quads[0], m.n);
    hide General, GeneralCone, Factors, QuadOk, ConeOk, Normalize;
    GrownLinear(m, b, y);
    if Determined(q, f, m.n, y) {
      GeneralConeSays(q, f, m.n, y);
      NormalizeKeeps(m.quads[0], x);
      hide Determined, Grown, RowOk, BoundOk;
      TradedSat(m, b, x, y);
    }
  }

  ghost function ExtendedPoint(q: Quad, f: Factor, x: Point): (y: Point)
    requires Shaped(f) && VarsIn(f.order, |x|) && TermsIn(q.linear, |x|)
    ensures |y| == |x| + |f.cols| + 2 && y[..|x|] == x && Determined(q, f, |x|, y)
  {
    var y := x + seq(|f.cols|, k requires 0 <= k < |f.cols| => YValue(f, k, x))
           + [q.rhs + 0.5 - Activity(q.linear, x), q.rhs - 0.5 - Activity(q.linear, x)];
    assert y[..|x|] == x;
    y
  }

  lemma GeneralExtends(m: Model, f: Factor, tol: real)
    requires GeneralReady(m, f, tol)
    ensures Extends(m, General(m, Normalize(m.quads[0]), f, tol))
  {
    var q := Normalize(m.quads[0]);
    var b := General(m, q, f, tol);
    OrderIn(f, q, m.n);
    GeneralWf(m, q, f, tol);
    assert b.n == m.n + |f.cols| + 2 && b.cost == m.cost + Zeros(b.n - m.n);
    hide General, Normalize, Factors, Wf;
    forall y | Sat(b, y) ensures Sat(m, y[..m.n]) { GeneralSat(m, f, tol, y); }
    forall x | Sat(m, x) ensures exists y :: Sat(b, y) && y[..m.n] == x {
      var y := ExtendedPoint(q, f, x);
      GeneralSat(m, f, tol, y);
    }
  }

  // ------------------------------------------------------------------ heads

  /** A singleton row that bounds column `j` from below. */
  predicate BoundsBelow(r: Row, j: nat, tol: real) {
    && |r.terms| == 1 && r.terms[0].0 == j && !(-tol < r.terms[0].1 < tol)
    && ((r.sense == GE && r.terms[0].1 > 0.0) || (r.sense == LE && r.terms[0].1 < 0.0))
  }

  type Marks = seq<(nat, real)>

  /** The rows among the first k that bound `j` from below, with their coefficients. */
  function ImpliedRows(rows: seq<Row>, k: nat, j: nat, tol: real): (s: Marks)
    requires k <= |rows|
    ensures forall i :: 0 <= i < |s| ==>
              s[i].0 < k && s[i].1 != 0.0 && BoundsBelow(rows[s[i].0], j, tol) && rows[s[i].0].terms[0].1 == s[i].1
  {
    if k == 0 then []
    else if BoundsBelow(rows[k - 1], j, tol) then ImpliedRows(rows, k - 1, j, tol) + [(k - 1, rows[k - 1].terms[0].1)]
    else ImpliedRows(rows, k - 1, j, tol)
  }

  predicate MarksIn(marks: Marks, n: nat) {
    forall i :: 0 <= i < |marks| ==> marks[i].0 < n && marks[i].1 != 0.0
  }

  /** The greatest bound the marked rows give under right-hand side `rhs`. */
  function ImpliedLower(marks: Marks, rhs: seq<real>): Ext
    requires MarksIn(marks, |rhs|)
  {
    if marks == [] then NegInf
    else Max(ImpliedLower(marks[..|marks| - 1], rhs), Fin(rhs[marks[|marks| - 1].0] / marks[|marks| - 1].1))
  }

  function Rhs(rows: seq<Row>): (b: seq<real>)
    ensures |b| == |rows| && forall i :: 0 <= i < |rows| ==> b[i] == rows[i].rhs
  {
    seq(|rows|, i requires 0 <= i < |rows| => rows[i].rhs)
  }

  lemma {:induction false} ImpliedRowsPrefix(rows: seq<Row>, more: seq<Row>, k: nat, j: nat, tol: real)
    requires rows <= more && k <= |rows|
    ensures ImpliedRows(more, k, j, tol) == ImpliedRows(rows, k, j, tol)
  {
    if k > 0 { ImpliedRowsPrefix(rows, more, k - 1, j, tol); }
  }

  lemma {:induction false} ImpliedLowerSame(marks: Marks, r: seq<real>, s: seq<real>)
    requires MarksIn(marks, |r|) && MarksIn(marks, |s|)
    requires forall i :: 0 <= i < |marks| ==> r[marks[i].0] == s[marks[i].0]
    ensures ImpliedLower(marks, r) == ImpliedLower(marks, s)
  {
    if marks != [] { ImpliedLowerSame(marks[..|marks| - 1], r, s); }
  }

  /** The head test: the explicit or the implied lower bound is nonnegative. */
  predicate HeadOk(m: Model, base: nat, j: nat, tol: real)
    requires base <= |m.rows| && j < |m.lower|
  {
    Le(Fin(0.0), Max(m.lower[j], ImpliedLower(ImpliedRows(m.rows, base, j, tol), Rhs(m.rows))))
  }

  /** A nonnegative implied bound comes from a marked row with a right-hand side of its sign. */
  lemma {:induction false} ImpliedWitness(marks: Marks, rhs: seq<real>)
    requires MarksIn(marks, |rhs|)
    ensures Le(Fin(0.0), ImpliedLower(marks, rhs)) <==>
            exists i :: 0 <= i < |marks| && rhs[marks[i].0] / marks[i].1 >= 0.0
  {
    if marks != [] {
      var k := |marks| - 1;
      ImpliedWitness(marks[..k], rhs);
      if i :| 0 <= i < |marks| && rhs[marks[i].0] / marks[i].1 >= 0.0 {
        if i < k { assert marks[..k][i] == marks[i]; }
      }
    }
  }

  lemma ProductSign(a: real, v: real)
    requires a != 0.0 && (if a > 0.0 then a * v >= 0.0 else a * v <= 0.0)
    ensures v >= 0.0
  {
  }

  lemma QuotientSign(a: real, b: real, x: real)
    requires a != 0.0 && b / a >= 0.0 && (if a > 0.0 then a * x >= b else a * x <= b)
    ensures x >= 0.0
  {
    var t := b / a;
    assert a * (x - t) == a * x - a * t;
    ProductSign(a, x - t);
  }

  lemma MarkedRow(r: Row, j: nat, tol: real, x: Point)
    requires BoundsBelow(r, j, tol) && tol > 0.0 && j < |x| && TermsIn(r.terms, |x|) && RowOk(r, x)
    requires r.rhs / r.terms[0].1 >= 0.0
    ensures x[j] >= 0.0
  {
    assert Activity(r.terms[1..], x) == 0.0;
    QuotientSign(r.terms[0].1, r.rhs, x[j]);
  }

  /** A head that passes the test is nonnegative at every point of the rows and bounds. */
  lemma HeadNonneg(m: Model, base: nat, j: nat, tol: real, x: Point)
    requires Wf(m) && base <= |m.rows| && j < m.n && tol > 0.0 && |x| == m.n
    requires HeadOk(m, base, j, tol) && LinearOk(m, x)
    ensures x[j] >= 0.0
  {
    assert BoundOk(m.lower[j], m.upper[j], x[j]);
    var marks := ImpliedRows(m.rows, base, j, tol);
    ImpliedWitness(marks, Rhs(m.rows));
    hide ImpliedRows, ImpliedLower;
    if !Le(Fin(0.0), m.lower[j]) {
      var i :| 0 <= i < |marks| && Rhs(m.rows)[marks[i].0] / marks[i].1 >= 0.0;
      var r := m.rows[marks[i].0];
      assert RowOk(r, x);
      MarkedRow(r, j, tol, x);
    }
  }

  // ------------------------------------------------------------------ the fast steps

  function Fast(m: Model, c: Cone): Model
    requires m.quads != []
  {
    m.(cones := m.cones + [c], quads := m.quads[1..])
  }

  lemma FastExtends(m: Model, c: Cone)
    requires Wf(m) && m.quads != [] && ConeIn(c, m.n)
    requires forall x: Point :: |x| == m.n && LinearOk(m, x) ==> ConeOk(c, x) == QuadOk(m.quads[0], x)
    ensures Extends(m, Fast(m, c))
  {
    var b := Fast(m, c);
    FastWf(m, c);
    assert b.cones[|m.cones|] == c && Traded(m, b);
    assert b.cost == m.cost + Zeros(0);
    hide QuadOk, ConeOk;
    forall x: Point | |x| == m.n ensures x[..m.n] == x && (Sat(m, x) <==> Sat(b, x)) {
      assert LinearOk(m, x) == LinearOk(b, x);
      hide Fast, LinearOk;
      TradedSat(m, b, x, x);
    }
  }

  lemma FastWf(m: Model, c: Cone)
    requires Wf(m) && m.quads != [] && ConeIn(c, m.n)
    ensures Wf(Fast(m, c))
  {
    var b := Fast(m, c);
    forall k | 0 <= k < |b.cones| ensures ConeIn(b.cones[k], b.n) {
      if k < |m.cones| { assert ConeIn(m.cones[k], m.n); }
    }
    forall k | 0 <= k < |b.quads| ensures QuadIn(b.quads[k], b.n) {
      assert QuadIn(m.quads[k + 1], m.n);
    }
  }

  lemma ScaledSign(scale: real, v: real)
    requires scale > 0.0
    ensures Mul(scale, v) <= 0.0 <==> v <= 0.0
  {
    if v > 0.0 { assert scale * v > 0.0; }
    if v <= 0.0 { assert scale * v <= 0.0; }
  }

  lemma StandardSays(q: Quad, head: nat, tails: seq<nat>, scale: real, x: Point)
    requires QuadIn(q, |x|) && q.linear == [] && q.rhs == 0.0 && !q.greater && scale > 0.0
    requires head < |x| && VarsIn(tails, |x|) && x[head] >= 0.0
    requires Form(q.entries, x) == Mul(scale, SumSq(tails, x) - Square(x[head]))
    ensures ConeOk(Standard([head] + tails), x) == QuadOk(q, x)
  {
    hide Form, SumSq, Square, Mul;
    ScaledSign(scale, SumSq(tails, x) - Square(x[head]));
    assert ([head] + tails)[1..] == tails;
  }

  /** A passed route and its head tests. */
  ghost predicate FastReady(m: Model, base: nat, q: Quad, r: Route, tol: real) {
    && Wf(m) && m.quads != [] && tol > 0.0 && base <= |m.rows| && q == Normalize(m.quads[0]) && !q.greater
    && QuadIn(m.quads[0], m.n) && QuadIn(q, m.n) && Separated(q, tol) && r == Classify(q, tol)
    && (r.ToStandard? ==> r.head < m.n && HeadOk(m, base, r.head, tol))
    && (r.ToRotated? ==> r.h0 < m.n && HeadOk(m, base, r.h0, tol) && r.h1 < m.n && HeadOk(m, base, r.h1, tol))
  }

  lemma StandardExtends(m: Model, base: nat, q: Quad, r: Route, tol: real)
    requires FastReady(m, base, q, r, tol) && r.ToStandard?
    ensures Extends(m, Fast(m, Standard([r.head] + r.tails)))
  {
    hide Classify, Normalize, Separated, HeadOk, Form, SumSq, Square, Mul, ConeOk, QuadOk, LinearOk, Extends;
    var scale := StandardForm(q, tol, m.n);
    forall x: Point | |x| == m.n && LinearOk(m, x)
      ensures ConeOk(Standard([r.head] + r.tails), x) == QuadOk(m.quads[0], x)
    {
      NormalizeKeeps(m.quads[0], x);
      HeadNonneg(m, base, r.head, tol, x);
      StandardSays(q, r.head, r.tails, scale, x);
    }
    FastExtends(m, Standard([r.head] + r.tails));
  }

  lemma RotatedSays(q: Quad, h0: nat, h1: nat, tails: seq<nat>, ratio: real, scale: real, x: Point)
    requires QuadIn(q, |x|) && q.linear == [] && q.rhs == 0.0 && !q.greater && scale > 0.0 && ratio > 0.0
    requires h0 < |x| && h1 < |x| && VarsIn(tails, |x|) && x[h0] >= 0.0 && x[h1] >= 0.0
    requires Form(q.entries, x) == Mul(scale, SumSq(tails, x) - HeadProduct(ratio, x[h0], x[h1]))
    ensures ConeOk(Rotated(h0, h1, tails, ratio), x) == QuadOk(q, x)
  {
    hide Form, SumSq, HeadProduct, Mul;
    ScaledSign(scale, SumSq(tails, x) - HeadProduct(ratio, x[h0], x[h1]));
  }

  lemma RotatedExtends(m: Model, base: nat, q: Quad, r: Route, tol: real)
    requires FastReady(m, base, q, r, tol) && r.ToRotated?
    ensures Extends(m, Fast(m, Rotated(r.h0, r.h1, r.tails, r.ratio)))
  {
    hide Classify, Normalize, Separated, HeadOk, Form, SumSq, Mul, HeadProduct, ConeOk, QuadOk, LinearOk, Extends;
    var scale := RotatedForm(q, tol, m.n);
    forall x: Point | |x| == m.n && LinearOk(m, x)
      ensures ConeOk(Rotated(r.h0, r.h1, r.tails, r.ratio), x) == QuadOk(m.quads[0], x)
    {
      NormalizeKeeps(m.quads[0], x);
      HeadNonneg(m, base, r.h0, tol, x);
      HeadNonneg(m, base, r.h1, tol, x);
      RotatedSays(q, r.h0, r.h1, r.tails, r.ratio, scale, x);
    }
    FastExtends(m, Rotated(r.h0, r.h1, r.tails, r.ratio));
  }
}
