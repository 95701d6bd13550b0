/** The elementary edits of the cone passes: linking a copy of a cone variable, and lifting a
    rotated cone. Each extends the model it is applied to. */
module ConeSteps {
  import opened Extended
  import opened ConeModel

  // ------------------------------------------------------------------ linked copies

  /** Append a free column tied to `v` by an equality row. */
  function AddCopy(m: Model, v: nat): Model {
    m.(n := m.n + 1, lower := m.lower + [NegInf], upper := m.upper + [PosInf], cost := m.cost + [0.0],
       rows := m.rows + [Row([(v, -1.0), (m.n, 1.0)], EQ, 0.0)])
  }

  predicate HasSlot(m: Model, c: nat, i: nat) {
    c < |m.cones| && m.cones[c].Standard? && i < |m.cones[c].vars|
  }

  /** Replace entry `i` of cone `c` by a fresh linked copy. */
  function Link(m: Model, c: nat, i: nat): Model
    requires HasSlot(m, c, i)
  {
    var vars := m.cones[c].vars;
    AddCopy(m, vars[i]).(cones := m.cones[c := Standard(vars[i := m.n])])
  }

  lemma {:induction false} SumSqReplace(vars: seq<nat>, i: nat, a: nat, y: Point)
    requires VarsIn(vars, |y|) && i < |vars| && a < |y| && y[a] == y[vars[i]]
    ensures VarsIn(vars[i := a], |y|) && SumSq(vars[i := a], y) == SumSq(vars, y)
  {
    var w := vars[i := a];
    if i == 0 {
      assert w[1..] == vars[1..];
    } else {
      assert w[1..] == vars[1..][i - 1 := a];
      SumSqReplace(vars[1..], i - 1, a, y);
    }
  }

  lemma ConeReplace(vars: seq<nat>, i: nat, a: nat, y: Point)
    requires |vars| >= 1 && VarsIn(vars, |y|) && i < |vars| && a < |y| && y[a] == y[vars[i]]
    ensures ConeIn(Standard(vars[i := a]), |y|)
    ensures ConeOk(Standard(vars[i := a]), y) == ConeOk(Standard(vars), y)
  {
    var w := vars[i := a];
    if i == 0 {
      assert w[1..] == vars[1..];
    } else {
      assert w[1..] == vars[1..][i - 1 := a];
      SumSqReplace(vars[1..], i - 1, a, y);
    }
  }

  lemma LinkWf(m: Model, c: nat, i: nat)
    requires Wf(m) && HasSlot(m, c, i)
    ensures Wf(Link(m, c, i)) && Grown(m, Link(m, c, i))
  {
    var b := Link(m, c, i);
    assert ConeIn(m.cones[c], m.n);
    assert b.cost == m.cost + Zeros(1);
    forall k | 0 <= k < |b.rows| ensures TermsIn(b.rows[k].terms, b.n) {
      if k < |m.rows| { assert TermsIn(m.rows[k].terms, m.n); }
    }
    forall k | 0 <= k < |b.cones| ensures ConeIn(b.cones[k], b.n) {
      if k != c { assert ConeIn(m.cones[k], m.n); }
    }
    forall k | 0 <= k < |b.quads| ensures QuadIn(b.quads[k], b.n) {
      assert QuadIn(m.quads[k], m.n);
    }
  }

  /** The linking row says exactly that the copy equals the original. */
  lemma LinkRow(m: Model, c: nat, i: nat, y: Point)
    requires Wf(m) && HasSlot(m, c, i) && |y| == m.n + 1
    requires Grown(m, Link(m, c, i))
    ensures NewRowsOk(m, Link(m, c, i), y) <==> y[m.n] == y[m.cones[c].vars[i]]
  {
    var b := Link(m, c, i);
    var v := m.cones[c].vars[i];
    assert ConeIn(m.cones[c], m.n);
    var t: Terms := [(v, -1.0), (m.n, 1.0)];
    assert b.rows[|m.rows|] == Row(t, EQ, 0.0);
    TwoTerms((v, -1.0), (m.n, 1.0), y);
    if y[m.n] == y[v] {
      forall k | |m.rows| <= k < |b.rows| ensures RowOk(b.rows[k], y) { assert k == |m.rows|; }
    }
  }

  /** With the copy equal to its original, the other constraints say the same before and after. */
  lemma LinkRest(m: Model, c: nat, i: nat, y: Point)
    requires Wf(m) && HasSlot(m, c, i) && |y| == m.n + 1 && Grown(m, Link(m, c, i))
    requires y[m.n] == y[m.cones[c].vars[i]]
    ensures var b, x := Link(m, c, i), y[..m.n];
            && (forall k :: 0 <= k < |m.cones| ==> ConeOk(b.cones[k], y) == ConeOk(m.cones[k], x))
            && (forall k :: 0 <= k < |m.quads| ==> QuadOk(b.quads[k], y) == QuadOk(m.quads[k], x))
  {
    var b, x := Link(m, c, i), y[..m.n];
    assert x <= y;
    forall k | 0 <= k < |m.cones| ensures ConeOk(b.cones[k], y) == ConeOk(m.cones[k], x) {
      ConePrefix(m.cones[k], x, y);
      if k == c { ConeReplace(m.cones[c].vars, i, m.n, y); }
    }
    forall k | 0 <= k < |m.quads| ensures QuadOk(b.quads[k], y) == QuadOk(m.quads[k], x) {
      QuadPrefix(m.quads[k], x, y);
    }
  }

  lemma LinkSat(m: Model, c: nat, i: nat, y: Point)
    requires Wf(m) && HasSlot(m, c, i) && |y| == m.n + 1
    ensures Wf(Link(m, c, i))
    ensures Sat(Link(m, c, i), y) <==> Sat(m, y[..m.n]) && y[m.n] == y[m.cones[c].vars[i]]
  {
    LinkWf(m, c, i);
    var b, x := Link(m, c, i), y[..m.n];
    GrownLinear(m, b, y);
    LinkRow(m, c, i, y);
    if y[m.n] == y[m.cones[c].vars[i]] {
      LinkRest(m, c, i, y);
      if Sat(b, y) {
        forall k | 0 <= k < |m.cones| ensures ConeOk(m.cones[k], x) { assert ConeOk(b.cones[k], y); }
        forall k | 0 <= k < |m.quads| ensures QuadOk(m.quads[k], x) { assert QuadOk(b.quads[k], y); }
      }
      if Sat(m, x) {
        forall k | 0 <= k < |b.cones| ensures ConeOk(b.cones[k], y) { assert ConeOk(m.cones[k], x); }
        forall k | 0 <= k < |b.quads| ensures QuadOk(b.quads[k], y) { assert QuadOk(m.quads[k], x); }
      }
    }
  }

  lemma LinkExtends(m: Model, c: nat, i: nat)
    requires Wf(m) && HasSlot(m, c, i)
    ensures Extends(m, Link(m, c, i))
  {
    LinkWf(m, c, i);
    var b := Link(m, c, i);
    assert ConeIn(m.cones[c], m.n);
    forall y | Sat(b, y) ensures Sat(m, y[..m.n]) {
      LinkSat(m, c, i, y);
    }
    forall x | Sat(m, x) ensures exists y :: Sat(b, y) && y[..m.n] == x {
      var y := x + [x[m.cones[c].vars[i]]];
      assert y[..m.n] == x;
      LinkSat(m, c, i, y);
    }
  }

  // ------------------------------------------------------------------ rotated cones

  /** Two free columns s0, s1 with s0 = h*(x0 + x1) and s1 = h*(x0 - x1); the rotated cone becomes
      the standard cone headed by s0. */
  function Lift(m: Model, c: nat, h: real): Model
    requires c < |m.cones| && m.cones[c].Rotated?
  {
    var r := m.cones[c];
    m.(n := m.n + 2, lower := m.lower + [NegInf, NegInf], upper := m.upper + [PosInf, PosInf],
       cost := m.cost + [0.0, 0.0],
       rows := m.rows + [Row([(r.h0, -h), (r.h1, -h), (m.n, 1.0)], EQ, 0.0),
                         Row([(r.h0, -h), (r.h1, h), (m.n + 1, 1.0)], EQ, 0.0)],
       cones := m.cones[c := Standard([m.n, m.n + 1] + r.tails)])
  }

  predicate CanLift(m: Model, c: nat, h: real) {
    c < |m.cones| && m.cones[c].Rotated? && h > 0.0 && 2.0 * (h * h) == m.cones[c].ratio
  }

  lemma LiftWf(m: Model, c: nat, h: real)
    requires Wf(m) && CanLift(m, c, h)
    ensures Wf(Lift(m, c, h)) && Grown(m, Lift(m, c, h))
  {
    var b := Lift(m, c, h);
    assert ConeIn(m.cones[c], m.n);
    assert b.cost == m.cost + Zeros(2);
    forall k | 0 <= k < |b.rows| ensures TermsIn(b.rows[k].terms, b.n) {
      if k < |m.rows| { assert TermsIn(m.rows[k].terms, m.n); }
    }
    forall k | 0 <= k < |b.cones| ensures ConeIn(b.cones[k], b.n) {
      if k != c { assert ConeIn(m.cones[k], m.n); }
    }
    forall k | 0 <= k < |b.quads| ensures QuadIn(b.quads[k], b.n) {
      assert QuadIn(m.quads[k], m.n);
    }
  }

  lemma OneTerm(a: (nat, real), y: Point)
    requires a.0 < |y|
    ensures TermsIn([a], |y|) && Activity([a], y) == a.1 * y[a.0]
  {
    assert Activity([a][1..], y) == 0.0;
  }

  lemma TwoTerms(a: (nat, real), b: (nat, real), y: Point)
    requires a.0 < |y| && b.0 < |y|
    ensures TermsIn([a, b], |y|) && Activity([a, b], y) == a.1 * y[a.0] + b.1 * y[b.0]
  {
    OneTerm(b, y);
    assert [a, b][1..] == [b];
  }

  lemma ThreeTerms(a: (nat, real), b: (nat, real), c: (nat, real), y: Point)
    requires a.0 < |y| && b.0 < |y| && c.0 < |y|
    ensures TermsIn([a, b, c], |y|)
    ensures Activity([a, b, c], y) == a.1 * y[a.0] + b.1 * y[b.0] + c.1 * y[c.0]
  {
    TwoTerms(b, c, y);
    assert [a, b, c][1..] == [b, c];
  }

  lemma LiftRows(m: Model, c: nat, h: real, y: Point)
    requires Wf(m) && CanLift(m, c, h) && |y| == m.n + 2 && Grown(m, Lift(m, c, h))
    ensures var x0, x1 := y[m.cones[c].h0], y[m.cones[c].h1];
            NewRowsOk(m, Lift(m, c, h), y) <==> y[m.n] == h * x0 + h * x1 && y[m.n + 1] == h * x0 - h * x1
  {
    var b, r := Lift(m, c, h), m.cones[c];
    assert ConeIn(r, m.n);
    ThreeTerms((r.h0, -h), (r.h1, -h), (m.n, 1.0), y);
    ThreeTerms((r.h0, -h), (r.h1, h), (m.n + 1, 1.0), y);
    var k := |m.rows|;
    assert b.rows[k] == Row([(r.h0, -h), (r.h1, -h), (m.n, 1.0)], EQ, 0.0);
    assert b.rows[k + 1] == Row([(r.h0, -h), (r.h1, h), (m.n + 1, 1.0)], EQ, 0.0);
    if RowOk(b.rows[k], y) && RowOk(b.rows[k + 1], y) {
      forall j | k <= j < |b.rows| ensures RowOk(b.rows[j], y) { assert j == k || j == k + 1; }
    }
  }

  /** The identity behind the lift: s0^2 - s1^2 is twice the ratio times the product of the heads. */
  lemma LiftIdentity(h: real, ratio: real, x0: real, x1: real, s0: real, s1: real)
    requires 2.0 * (h * h) == ratio && s0 == h * x0 + h * x1 && s1 == h * x0 - h * x1
    ensures Square(s0) - Square(s1) == 2.0 * ratio * (x0 * x1)
  {
    assert Square(s0) - Square(s1) == (s0 - s1) * (s0 + s1);
    assert s0 - s1 == 2.0 * (h * x1) && s0 + s1 == 2.0 * (h * x0);
    assert (2.0 * (h * x1)) * (2.0 * (h * x0)) == 4.0 * ((h * h) * (x0 * x1));
    assert 4.0 * ((h * h) * (x0 * x1)) == 2.0 * (2.0 * (h * h)) * (x0 * x1);
  }

  /** A nonnegative sum and a nonnegative product mean both factors are nonnegative. */
  lemma BothNonneg(a: real, b: real)
    requires a + b >= 0.0 && a * b >= 0.0
    ensures a >= 0.0 && b >= 0.0
  {
    if a < 0.0 { NegativeProduct(a, b); }
    if b < 0.0 { NegativeProduct(b, a); }
  }

  lemma NegativeProduct(a: real, b: real)
    requires a < 0.0 < b
    ensures a * b < 0.0
  {
  }

  lemma PositiveFactor(a: real, b: real)
    requires a > 0.0
    ensures a * b >= 0.0 <==> b >= 0.0
  {
  }

  lemma HeadSign(h: real, ratio: real, x0: real, x1: real, q: real)
    requires h > 0.0 && ratio > 0.0 && q >= 0.0
    ensures (h * x0 + h * x1 >= 0.0 && 2.0 * ratio * (x0 * x1) >= q) <==>
            (x0 >= 0.0 && x1 >= 0.0 && 2.0 * ratio * (x0 * x1) >= q)
  {
    assert h * x0 + h * x1 == h * (x0 + x1);
    PositiveFactor(h, x0 + x1);
    PositiveFactor(2.0 * ratio, x0 * x1);
    if x0 + x1 >= 0.0 && x0 * x1 >= 0.0 { BothNonneg(x0, x1); }
  }

  lemma LiftCone(m: Model, c: nat, h: real, y: Point)
    requires Wf(m) && CanLift(m, c, h) && |y| == m.n + 2 && ConeIn(m.cones[c], m.n)
    requires var x0, x1 := y[m.cones[c].h0], y[m.cones[c].h1];
             y[m.n] == h * x0 + h * x1 && y[m.n + 1] == h * x0 - h * x1
    ensures ConeIn(Standard([m.n, m.n + 1] + m.cones[c].tails), |y|)
    ensures ConeOk(Standard([m.n, m.n + 1] + m.cones[c].tails), y) == ConeOk(m.cones[c], y[..m.n])
  {
    var r, x := m.cones[c], y[..m.n];
    var vars := [m.n, m.n + 1] + r.tails;
    assert vars[1..] == [m.n + 1] + r.tails;
    assert vars[1..][1..] == r.tails;
    var q := SumSq(r.tails, y);
    assert SumSq(vars[1..], y) == Square(y[m.n + 1]) + q;
    LiftIdentity(h, r.ratio, y[r.h0], y[r.h1], y[m.n], y[m.n + 1]);
    HeadSign(h, r.ratio, y[r.h0], y[r.h1], q);
    SumSqPrefix(r.tails, x, y);
  }

  lemma LiftSat(m: Model, c: nat, h: real, y: Point)
    requires Wf(m) && CanLift(m, c, h) && |y| == m.n + 2
    ensures Wf(Lift(m, c, h)) && ConeIn(m.cones[c], m.n)
    ensures var x0, x1 := y[m.cones[c].h0], y[m.cones[c].h1];
            Sat(Lift(m, c, h), y) <==>
            Sat(m, y[..m.n]) && y[m.n] == h * x0 + h * x1 && y[m.n + 1] == h * x0 - h * x1
  {
    LiftWf(m, c, h);
    assert ConeIn(m.cones[c], m.n);
    var b, x := Lift(m, c, h), y[..m.n];
    assert x <= y;
    GrownLinear(m, b, y);
    LiftRows(m, c, h, y);
    if NewRowsOk(m, b, y) {
      LiftCone(m, c, h, y);
      forall k | 0 <= k < |m.cones| ensures ConeOk(b.cones[k], y) == ConeOk(m.cones[k], x) {
        if k != c { ConePrefix(m.cones[k], x, y); }
      }
      forall k | 0 <= k < |m.quads| ensures QuadOk(b.quads[k], y) == QuadOk(m.quads[k], x) {
        QuadPrefix(m.quads[k], x, y);
      }
      SameRest(m, b, x, y);
    }
  }

  /** Constraints that agree pairwise hold together. */
  lemma SameRest(a: Model, b: Model, x: Point, y: Point)
    requires Wf(a) && Wf(b) && |x| == a.n && |y| == b.n && LinearOk(a, x) == LinearOk(b, y)
    requires |a.cones| == |b.cones| && |a.quads| == |b.quads|
    requires forall k :: 0 <= k < |a.cones| ==> ConeOk(b.cones[k], y) == ConeOk(a.cones[k], x)
    requires forall k :: 0 <= k < |a.quads| ==> QuadOk(b.quads[k], y) == QuadOk(a.quads[k], x)
    ensures Sat(a, x) <==> Sat(b, y)
  {
    if Sat(b, y) {
      forall k | 0 <= k < |a.cones| ensures ConeOk(a.cones[k], x) { assert ConeOk(b.cones[k], y); }
      forall k | 0 <= k < |a.quads| ensures QuadOk(a.quads[k], x) { assert QuadOk(b.quads[k], y); }
    }
    if Sat(a, x) {
      forall k | 0 <= k < |b.cones| ensures ConeOk(b.cones[k], y) { assert ConeOk(a.cones[k], x); }
      forall k | 0 <= k < |b.quads| ensures QuadOk(b.quads[k], y) { assert QuadOk(a.quads[k], x); }
    }
  }

  lemma LiftExtends(m: Model, c: nat, h: real)
    requires Wf(m) && CanLift(m, c, h)
    ensures Extends(m, Lift(m, c, h))
  {
    LiftWf(m, c, h);
    var b, r := Lift(m, c, h), m.cones[c];
    assert ConeIn(r, m.n);
    forall y | Sat(b, y) ensures Sat(m, y[..m.n]) {
      LiftSat(m, c, h, y);
    }
    forall x | Sat(m, x) ensures exists y :: Sat(b, y) && y[..m.n] == x {
      var y := x + [h * x[r.h0] + h * x[r.h1], h * x[r.h0] - h * x[r.h1]];
      assert y[..m.n] == x;
      LiftSat(m, c, h, y);
    }
  }
}
