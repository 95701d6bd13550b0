/** The adaptive-precision row check: a double-precision sum with a running error bound decides most
    rows; only rows whose error interval meets a limit are summed again in wide precision. */
module RowCheck {
  import opened Extended
  import opened Reals

  /** The relative rounding model of section 4.3.1 of IEEE 754-2019, without overflow or underflow:
      each result is the exact one up to a factor 1 + d with |d| <= u. */
  ghost predicate Rounds(rd: real -> real, u: real) {
    0.0 <= u && forall t :: Abs(rd(t) - t) <= Times(u, Abs(t))
  }

  /** A product by name, so that proofs can hide it. */
  function Times(a: real, b: real): real {
    a * b
  }

  lemma RoundOne(rd: real -> real, u: real, t: real)
    requires Rounds(rd, u)
    ensures Abs(rd(t) - t) <= Times(u, Abs(t))
  {
  }

  // ------------------------------------------------------------------ sums

  /** The accumulator after k rounded additions. */
  function Acc(c: seq<real>, rd: real -> real, k: nat): real
    requires k <= |c|
  {
    if k == 0 then 0.0 else rd(Acc(c, rd, k - 1) + c[k - 1])
  }

  function SumOf(c: seq<real>, k: nat): real
    requires k <= |c|
  {
    if k == 0 then 0.0 else SumOf(c, k - 1) + c[k - 1]
  }

  function Mass(c: seq<real>, k: nat): (s: real)
    requires k <= |c|
    ensures s >= 0.0
  {
    if k == 0 then 0.0 else Mass(c, k - 1) + Abs(c[k - 1])
  }

  lemma {:induction false} SumWithinMass(c: seq<real>, k: nat)
    requires k <= |c|
    ensures Abs(SumOf(c, k)) <= Mass(c, k)
  {
    if k > 0 { SumWithinMass(c, k - 1); }
  }

  function Units(k: nat, u: real): real {
    k as real * u
  }

  /** Small means at most 1/64. */
  ghost predicate Small(k: nat, u: real) {
    0.0 <= u && Units(k, u) <= 1.0 / 64.0
  }

  lemma SmallLess(j: nat, k: nat, u: real)
    requires j <= k && Small(k, u)
    ensures Small(j, u)
  {
    assert (k - j) as real * u >= 0.0;
    assert k as real * u == j as real * u + (k - j) as real * u;
  }

  /** The drift allowed after k rounded additions of total mass m. */
  function Drift(k: nat, u: real, m: real): real {
    Part(Units(k, u), m)
  }

  function Part(b: real, m: real): real {
    (64.0 / 63.0 * b) * m
  }

  lemma DriftMonotone(k: nat, u: real, s: real, m: real)
    requires 0.0 <= u && s <= m
    ensures Drift(k, u, s) <= Drift(k, u, m)
  {
    var b := 64.0 / 63.0 * (k as real * u);
    assert k as real * u >= 0.0;
    assert b * (m - s) >= 0.0;
    assert b * m == b * s + b * (m - s);
  }

  lemma TimesMonotone(u: real, a: real, b: real)
    requires 0.0 <= u && a <= b
    ensures Times(u, a) <= Times(u, b)
  {
    assert u * (b - a) >= 0.0;
  }

  lemma Grow(u: real, ku: real, m: real)
    requires 0.0 <= u && 0.0 <= ku <= 1.0 / 64.0 && 0.0 <= m
    ensures Times(u, Part(ku, m) + m) + Part(ku, m) <= Part(ku + u, m)
  {
    var um := u * m;
    assert um >= 0.0;
    assert u * ((64.0 / 63.0 * ku) * m + m) == 64.0 / 63.0 * (ku * um) + um;
    assert ku * um <= 1.0 / 64.0 * um by { assert (1.0 / 64.0 - ku) * um >= 0.0; }
    assert (64.0 / 63.0 * (ku + u)) * m == (64.0 / 63.0 * ku) * m + 64.0 / 63.0 * um;
  }

  lemma DriftGrows(u: real, k: nat, m: real)
    requires Small(k, u) && 0.0 <= m
    ensures Times(u, Drift(k, u, m) + m) + Drift(k, u, m) <= Drift(k + 1, u, m)
  {
    UnitsNext(k, u);
    hide Units, Part, Times;
    Grow(u, Units(k, u), m);
  }

  lemma UnitsNext(k: nat, u: real)
    requires 0.0 <= u
    ensures Units(k + 1, u) == Units(k, u) + u && 0.0 <= Units(k, u)
  {
  }

  /** One more rounded addition. */
  lemma DriftStep(u: real, k: nat, a: real, t: real, c: real, s: real, m: real, r: real)
    requires Small(k, u) && Abs(a - t) <= Drift(k, u, s) && 0.0 <= s <= m && Abs(t + c) <= m
    requires Abs(r - (a + c)) <= Times(u, Abs(a + c))
    ensures Abs(r - (t + c)) <= Drift(k + 1, u, m)
  {
    DriftMonotone(k, u, s, m);
    DriftGrows(u, k, m);
    hide Times, Drift;
    TimesMonotone(u, Abs(a + c), Drift(k, u, m) + m);
  }

  /** The accumulator stays within (64/63) k u of the exact sum, relative to the mass. */
  lemma {:induction false} AccClose(c: seq<real>, rd: real -> real, u: real, k: nat)
    requires k <= |c| && Rounds(rd, u) && Small(k, u)
    ensures Abs(Acc(c, rd, k) - SumOf(c, k)) <= Drift(k, u, Mass(c, k))
  {
    hide Drift, Times, Small, Rounds, Units, Abs;
    DriftZero(k, u);
    if k > 0 {
      SmallLess(k - 1, k, u);
      AccClose(c, rd, u, k - 1);
      SumWithinMass(c, k);
      var a, t := Acc(c, rd, k - 1), SumOf(c, k - 1);
      RoundOne(rd, u, a + c[k - 1]);
      DriftStep(u, k - 1, a, t, c[k - 1], Mass(c, k - 1), Mass(c, k), Acc(c, rd, k));
    }
  }

  // ------------------------------------------------------------------ rounded terms

  function Rounded(t: seq<real>, rd: real -> real): (c: seq<real>)
    ensures |c| == |t| && forall i :: 0 <= i < |t| ==> c[i] == rd(t[i])
  {
    seq(|t|, i requires 0 <= i < |t| => rd(t[i]))
  }

  function Sizes(c: seq<real>): (d: seq<real>)
    ensures |d| == |c| && forall i :: 0 <= i < |c| ==> d[i] == Abs(c[i])
  {
    seq(|c|, i requires 0 <= i < |c| => Abs(c[i]))
  }

  lemma {:induction false} SizesSum(c: seq<real>, k: nat)
    requires k <= |c|
    ensures SumOf(Sizes(c), k) == Mass(c, k) && Mass(Sizes(c), k) == Mass(c, k)
  {
    if k > 0 { SizesSum(c, k - 1); }
  }

  lemma DriftAdds(k: nat, l: nat, u: real, s: real, m: real)
    ensures Drift(k, u, s + m) == Drift(k, u, s) + Drift(k, u, m)
    ensures Drift(k + l, u, m) == Drift(k, u, m) + Drift(l, u, m)
  {
    var b := 64.0 / 63.0 * (k as real * u);
    assert b * (s + m) == b * s + b * m;
    var p, q := k as real * u, l as real * u;
    assert (k + l) as real * u == p + q;
    assert (64.0 / 63.0 * (p + q)) * m == (64.0 / 63.0 * p) * m + (64.0 / 63.0 * q) * m;
  }

  /** A rounded term is within u of its exact value, relative to itself. */
  lemma TermClose(rd: real -> real, u: real, t: real)
    requires Rounds(rd, u) && Small(1, u)
    ensures Abs(rd(t) - t) <= Drift(1, u, Abs(rd(t)))
  {
    RoundOne(rd, u, t);
    TermAlgebra(u, Abs(t), Abs(rd(t)));
    hide Times, Drift;
  }

  lemma TermAlgebra(u: real, t: real, c: real)
    requires Small(1, u) && 0.0 <= t && t - c <= Times(u, t)
    ensures Times(u, t) <= Drift(1, u, c)
  {
    assert u <= 1.0 / 64.0;
    assert (1.0 / 64.0 - u) * t >= 0.0;
    assert t <= 64.0 / 63.0 * c;
    assert u * (64.0 / 63.0 * c - t) >= 0.0;
    assert (64.0 / 63.0 * (1.0 * u)) * c == u * (64.0 / 63.0 * c);
  }

  lemma {:induction false} TermsClose(t: seq<real>, rd: real -> real, u: real, k: nat)
    requires k <= |t| && Rounds(rd, u) && Small(1, u)
    ensures Abs(SumOf(Rounded(t, rd), k) - SumOf(t, k)) <= Drift(1, u, Mass(Rounded(t, rd), k))
  {
    hide Drift, Rounds, Small, Abs, Times;
    var c := Rounded(t, rd);
    if k > 0 {
      TermsClose(t, rd, u, k - 1);
      TermClose(rd, u, t[k - 1]);
      DriftAdds(1, 0, u, Mass(c, k - 1), Abs(c[k - 1]));
    } else {
      DriftZero(1, u);
    }
  }

  lemma DriftZero(k: nat, u: real)
    ensures Drift(k, u, 0.0) == 0.0
  {
  }

  /** The accumulated activity is within (64/63)(n + 1) u of the exact one, relative to the mass. */
  lemma ActivityClose(t: seq<real>, rd: real -> real, u: real)
    requires Rounds(rd, u) && Small(|t| + 1, u)
    ensures var c, n := Rounded(t, rd), |t|;
            Abs(Acc(c, rd, n) - SumOf(t, n)) <= Drift(n + 1, u, Mass(c, n))
  {
    hide Drift, Times, Small, Rounds, Acc, SumOf, Mass, Abs;
    var c, n := Rounded(t, rd), |t|;
    SmallLess(n, n + 1, u);
    SmallLess(1, n + 1, u);
    AccClose(c, rd, u, n);
    TermsClose(t, rd, u, n);
    DriftAdds(n, 1, u, 0.0, Mass(c, n));
    Triangle(Acc(c, rd, n), SumOf(c, n), SumOf(t, n));
  }

  lemma Triangle(a: real, b: real, c: real)
    ensures Abs(a - c) <= Abs(a - b) + Abs(b - c)
  {
  }

  // ------------------------------------------------------------------ the error bound

  /** (width + 1) * epsilon * abs_sum, rounded at each product; epsilon is 2u. */
  function ErrorBound(rd: real -> real, u: real, n: nat, s: real): real {
    rd(Times(rd(Times(rd(n as real + 1.0), 2.0 * u)), s))
  }

  lemma RoundRange(rd: real -> real, u: real, x: real)
    requires Rounds(rd, u) && Small(1, u) && x >= 0.0
    ensures 63.0 / 64.0 * x <= rd(x) <= 65.0 / 64.0 * x
  {
    RoundOne(rd, u, x);
    hide Rounds;
    RangeAlgebra(u, x);
  }

  lemma RangeAlgebra(u: real, x: real)
    requires Small(1, u) && x >= 0.0
    ensures Times(u, Abs(x)) <= 1.0 / 64.0 * x
  {
    assert u <= 1.0 / 64.0;
    assert (1.0 / 64.0 - u) * x >= 0.0;
  }

  lemma ProductRange(a: real, x: real, lo: real, hi: real)
    requires 0.0 <= a && lo <= x <= hi
    ensures Times(lo, a) <= Times(x, a) <= Times(hi, a)
  {
    assert (x - lo) * a >= 0.0;
    assert (hi - x) * a >= 0.0;
  }

  /** Two roundings give the coefficient. */
  lemma CoefficientRange(rd: real -> real, u: real, n: nat)
    requires Rounds(rd, u) && Small(n + 1, u)
    ensures var p, x := Units(n + 1, u), rd(Times(rd(n as real + 1.0), 2.0 * u));
            0.0 <= p && 3969.0 / 2048.0 * p <= x <= 4225.0 / 2048.0 * p
  {
    SmallLess(1, n + 1, u);
    var w, p := n as real + 1.0, Units(n + 1, u);
    assert p == w * u && p >= 0.0;
    RoundRange(rd, u, w);
    var x := Times(rd(w), 2.0 * u);
    ProductRange(2.0 * u, rd(w), 63.0 / 64.0 * w, 65.0 / 64.0 * w);
    assert Times(63.0 / 64.0 * w, 2.0 * u) == 63.0 / 32.0 * p;
    assert Times(65.0 / 64.0 * w, 2.0 * u) == 65.0 / 32.0 * p;
    RoundRange(rd, u, x);
  }

  /** The mass computed with rounding. */
  lemma MassRange(c: seq<real>, rd: real -> real, u: real)
    requires Rounds(rd, u) && Small(|c| + 1, u)
    ensures var m, s := Mass(c, |c|), Acc(Sizes(c), rd, |c|);
            62.0 / 63.0 * m <= s <= 64.0 / 63.0 * m
  {
    SmallLess(|c|, |c| + 1, u);
    AccClose(Sizes(c), rd, u, |c|);
    SizesSum(c, |c|);
    DriftSmall(|c|, u, Mass(c, |c|));
    hide Drift;
  }

  lemma DriftSmall(k: nat, u: real, m: real)
    requires Small(k, u) && 0.0 <= m
    ensures Drift(k, u, m) <= 1.0 / 63.0 * m
  {
    var b := k as real * u;
    assert (1.0 / 64.0 - b) * m >= 0.0;
    assert (64.0 / 63.0 * b) * m == 64.0 / 63.0 * (b * m);
  }

  /** The computed bound lies between 15/8 and 9/4 of (n + 1) u times the mass. */
  lemma BoundRange(c: seq<real>, rd: real -> real, u: real)
    requires Rounds(rd, u) && Small(|c| + 1, u)
    ensures 15.0 / 8.0 * Weight(c, u) <= Computed(c, rd, u) <= 9.0 / 4.0 * Weight(c, u)
  {
    hide Small, Rounds, Times, Acc, Mass, Units;
    SmallLess(1, |c| + 1, u);
    CoefficientRange(rd, u, |c|);
    MassRange(c, rd, u);
    var x := rd(Times(rd(|c| as real + 1.0), 2.0 * u));
    ScaledRange(rd, u, Units(|c| + 1, u), Mass(c, |c|), x, Acc(Sizes(c), rd, |c|));
  }

  /** (n + 1) u times the mass. */
  function Weight(c: seq<real>, u: real): real {
    Times(Units(|c| + 1, u), Mass(c, |c|))
  }

  /** The error bound row_sum_fp64 returns for rounded terms c. */
  function Computed(c: seq<real>, rd: real -> real, u: real): real {
    ErrorBound(rd, u, |c|, Acc(Sizes(c), rd, |c|))
  }

  lemma ScaledRange(rd: real -> real, u: real, p: real, m: real, x: real, s: real)
    requires Rounds(rd, u) && Small(1, u) && 0.0 <= p && 0.0 <= m
    requires 3969.0 / 2048.0 * p <= x <= 4225.0 / 2048.0 * p && 62.0 / 63.0 * m <= s <= 64.0 / 63.0 * m
    ensures 15.0 / 8.0 * Times(p, m) <= rd(Times(x, s)) <= 9.0 / 4.0 * Times(p, m)
  {
    hide Small, Rounds, Times;
    BoundAlgebra(p, m, x, s);
    RoundRange(rd, u, Times(x, s));
    BoundScale(Times(p, m), Times(x, s), rd(Times(x, s)));
  }

  lemma BoundScale(p: real, y: real, e: real)
    requires 0.0 <= p && 1.907 * p <= y <= 2.0958 * p && 63.0 / 64.0 * y <= e <= 65.0 / 64.0 * y
    ensures 15.0 / 8.0 * p <= e <= 9.0 / 4.0 * p
  {
  }

  lemma BoundAlgebra(p: real, m: real, x: real, s: real)
    requires 0.0 <= p && 0.0 <= m && 3969.0 / 2048.0 * p <= x <= 4225.0 / 2048.0 * p && 62.0 / 63.0 * m <= s <= 64.0 / 63.0 * m
    ensures 1.907 * Times(p, m) <= Times(x, s) <= 2.0958 * Times(p, m)
    ensures Times(p, m) >= 0.0
  {
    var q := p * m;
    assert q >= 0.0;
    ProductRange(s, x, 3969.0 / 2048.0 * p, 4225.0 / 2048.0 * p);
    ProductRange(p, s, 62.0 / 63.0 * m, 64.0 / 63.0 * m);
    assert Times(3969.0 / 2048.0 * p, s) == 3969.0 / 2048.0 * Times(s, p);
    assert Times(4225.0 / 2048.0 * p, s) == 4225.0 / 2048.0 * Times(s, p);
    assert Times(62.0 / 63.0 * m, p) == 62.0 / 63.0 * q && Times(64.0 / 63.0 * m, p) == 64.0 / 63.0 * q;
  }

  // ------------------------------------------------------------------ enclosure

  lemma WeightFacts(c: seq<real>, u: real)
    requires Small(|c| + 1, u)
    ensures var w, m := Weight(c, u), Mass(c, |c|);
            && Drift(|c| + 1, u, m) == 64.0 / 63.0 * w && 0.0 <= w <= 1.0 / 64.0 * m
            && (|c| > 0 ==> 2.0 * Times(u, m) <= w)
  {
    UnitsFacts(|c|, u);
    hide Units, Mass;
    WeightAlgebra(Units(|c| + 1, u), u, Mass(c, |c|));
  }

  lemma NonnegProduct(a: real, b: real)
    requires 0.0 <= a && 0.0 <= b
    ensures 0.0 <= a * b
  {
  }

  lemma WeightAlgebra(p: real, u: real, m: real)
    requires 0.0 <= p <= 1.0 / 64.0 && 0.0 <= m
    ensures Part(p, m) == 64.0 / 63.0 * Times(p, m) && 0.0 <= Times(p, m) <= 1.0 / 64.0 * m
    ensures 2.0 * u <= p ==> 2.0 * Times(u, m) <= Times(p, m)
  {
    NonnegProduct(p, m);
    NonnegProduct(1.0 / 64.0 - p, m);
    assert (1.0 / 64.0 - p) * m == 1.0 / 64.0 * m - p * m;
    if 2.0 * u <= p {
      NonnegProduct(p - 2.0 * u, m);
      assert (p - 2.0 * u) * m == p * m - 2.0 * (u * m);
    }
  }

  lemma UnitsFacts(n: nat, u: real)
    requires Small(n + 1, u)
    ensures 0.0 <= Units(n + 1, u) <= 1.0 / 64.0 && (n > 0 ==> 2.0 * u <= Units(n + 1, u))
  {
    if n > 0 { assert (n - 1) as real * u >= 0.0; }
  }

  /** The computed activity is at most 64/63 of the mass. */
  lemma ActivitySize(c: seq<real>, rd: real -> real, u: real)
    requires Rounds(rd, u) && Small(|c| + 1, u)
    ensures Abs(Acc(c, rd, |c|)) <= 64.0 / 63.0 * Mass(c, |c|)
  {
    hide Small, Rounds, Drift, Acc, SumOf, Mass;
    SmallLess(|c|, |c| + 1, u);
    AccClose(c, rd, u, |c|);
    SumWithinMass(c, |c|);
    DriftSmall(|c|, u, Mass(c, |c|));
  }

  lemma {:induction false} EmptySums(c: seq<real>, rd: real -> real)
    requires c == []
    ensures Acc(c, rd, 0) == 0.0 && SumOf(c, 0) == 0.0 && Mass(c, 0) == 0.0
  {
  }

  /** The error interval holds the exact activity, with room for the rounding of its end points. */
  lemma Enclosed(t: seq<real>, rd: real -> real, u: real)
    requires Rounds(rd, u) && Small(|t| + 1, u)
    ensures var c := Rounded(t, rd);
            var a, e, d := Acc(c, rd, |c|), Computed(c, rd, u), Abs(Acc(c, rd, |c|) - SumOf(t, |t|));
            && 0.0 <= e && d + Times(u, Abs(a - e)) <= e && d + Times(u, Abs(a + e)) <= e
  {
    hide Rounds, Small, Acc, SumOf, Mass, Drift, Computed, Weight, Times, Units, Abs;
    var c := Rounded(t, rd);
    ActivityClose(t, rd, u);
    BoundRange(c, rd, u);
    ActivitySize(c, rd, u);
    WeightFacts(c, u);
    SmallNonneg(|t| + 1, u);
    if |t| == 0 {
      EmptySums(c, rd);
      EmptySums(t, rd);
    }
    EnclosedAlgebra(u, Mass(c, |c|), Weight(c, u), Acc(c, rd, |c|), Computed(c, rd, u), SumOf(t, |t|), |t| == 0);
  }

  lemma SmallNonneg(k: nat, u: real)
    requires Small(k, u)
    ensures 0.0 <= u
  {
  }

  lemma EnclosedAlgebra(u: real, m: real, w: real, a: real, e: real, x: real, empty: bool)
    requires 0.0 <= u && 0.0 <= m && 0.0 <= w <= 1.0 / 64.0 * m && Abs(a) <= 64.0 / 63.0 * m
    requires 15.0 / 8.0 * w <= e <= 9.0 / 4.0 * w && Abs(a - x) <= 64.0 / 63.0 * w
    requires (empty ==> m == 0.0) && (!empty ==> 2.0 * Times(u, m) <= w)
    ensures 0.0 <= e && Abs(a - x) + Times(u, Abs(a - e)) <= e && Abs(a - x) + Times(u, Abs(a + e)) <= e
  {
    hide Times;
    assert Abs(a - e) <= 9.0 / 8.0 * m && Abs(a + e) <= 9.0 / 8.0 * m;
    EdgeRoom(u, m, w, a - e, empty);
    EdgeRoom(u, m, w, a + e, empty);
  }

  lemma EdgeRoom(u: real, m: real, w: real, x: real, empty: bool)
    requires 0.0 <= u && 0.0 <= m && 0.0 <= w && Abs(x) <= 9.0 / 8.0 * m && (empty ==> m == 0.0) && (!empty ==> 2.0 * Times(u, m) <= w)
    ensures Times(u, Abs(x)) <= 9.0 / 16.0 * w
  {
    TimesMonotone(u, Abs(x), 9.0 / 8.0 * m);
    assert Times(u, 9.0 / 8.0 * m) == 9.0 / 8.0 * Times(u, m);
    if empty { assert Times(u, m) == 0.0; }
  }

  // ------------------------------------------------------------------ limits and verdict

  datatype Verdict = Verdict(activity: real, excess: Ext, escalated: bool)

  /** solver_row_limits: the bounds loosened by absolute plus relative tolerance, the latter scaled by
      the larger finite bound. */
  function SolverRowLimits(rd: real -> real, absolute: real, relative: real, lower: Ext, upper: Ext): (Ext, Ext) {
    var s0 := if lower.Fin? && Abs(lower.v) > 0.0 then Abs(lower.v) else 0.0;
    var scale := if upper.Fin? && Abs(upper.v) > s0 then Abs(upper.v) else s0;
    var tolerance := rd(absolute + rd(Times(relative, scale)));
    (if lower.Fin? then Fin(rd(lower.v - tolerance)) else lower, if upper.Fin? then Fin(rd(upper.v + tolerance)) else upper)
  }

  function Below(rd: real -> real, limit: Ext, a: real): Ext {
    if limit.Fin? then Fin(rd(limit.v - a)) else limit
  }

  function Above(rd: real -> real, a: real, limit: Ext): Ext {
    match limit
    case NegInf => PosInf
    case Fin(v) => Fin(rd(a - v))
    case PosInf => NegInf
  }

  /** How far the activity lies outside its limits, at least 0. */
  function Excess(rd: real -> real, lower: Ext, a: real, upper: Ext): Ext {
    Max(Max(Below(rd, lower, a), Above(rd, a, upper)), Fin(0.0))
  }

  ghost predicate Within(lower: Ext, a: real, upper: Ext) {
    Le(lower, Fin(a)) && Le(Fin(a), upper)
  }

  lemma SignKept(rd: real -> real, u: real, x: real)
    requires Rounds(rd, u) && Small(1, u)
    ensures (x <= 0.0 ==> rd(x) <= 0.0) && (x > 0.0 ==> rd(x) > 0.0)
  {
    RoundOne(rd, u, x);
    hide Rounds;
    RangeAlgebra(u, Abs(x));
    assert Abs(Abs(x)) == Abs(x);
  }

  /** The excess is 0 exactly when the activity it is computed from is within its limits. */
  lemma ExcessZero(rd: real -> real, u: real, lower: Ext, a: real, upper: Ext)
    requires Rounds(rd, u) && Small(1, u)
    ensures Excess(rd, lower, a, upper) == Fin(0.0) <==> Within(lower, a, upper)
  {
    if lower.Fin? { SignKept(rd, u, lower.v - a); }
    if upper.Fin? { SignKept(rd, u, a - upper.v); }
  }

  /** check_row on exact terms t: the double-precision sum decides unless its interval meets a limit;
      then the wide sum, taken as exact, does. */
  function Check(t: seq<real>, rd: real -> real, u: real, lower: Ext, upper: Ext): Verdict {
    var c := Rounded(t, rd);
    Decide(rd, Acc(c, rd, |c|), Computed(c, rd, u), SumOf(t, |t|), lower, upper)
  }

  /** From the activity, its error bound and the wide activity. */
  function Decide(rd: real -> real, a: real, e: real, wide: real, lower: Ext, upper: Ext): Verdict {
    var low, high := Fin(rd(a - e)), Fin(rd(a + e));
    var satisfied := Le(lower, low) && Le(high, upper);
    var undecided := Le(lower, high) && Le(low, upper);
    if satisfied || !undecided then Verdict(a, Excess(rd, lower, a, upper), false)
    else Verdict(rd(wide), Excess(rd, lower, wide, upper), true)
  }

  lemma DecideRight(rd: real -> real, u: real, a: real, e: real, wide: real, lower: Ext, upper: Ext)
    requires Rounds(rd, u) && Small(1, u) && rd(a - e) <= a <= rd(a + e) && rd(a - e) <= wide <= rd(a + e)
    ensures Decide(rd, a, e, wide, lower, upper).excess == Fin(0.0) <==> Within(lower, wide, upper)
  {
    hide Rounds, Small, Excess, Abs;
    ExcessZero(rd, u, lower, a, upper);
    ExcessZero(rd, u, lower, wide, upper);
  }

  /** The rounded ends of the error interval lie on their sides of both activities. */
  lemma Edges(t: seq<real>, rd: real -> real, u: real)
    requires Rounds(rd, u) && Small(|t| + 1, u)
    ensures var c := Rounded(t, rd);
            var a, e, x := Acc(c, rd, |c|), Computed(c, rd, u), SumOf(t, |t|);
            && rd(a - e) <= a <= rd(a + e) && rd(a - e) <= x <= rd(a + e)
  {
    hide Rounds, Small, Acc, SumOf, Computed, Times, Rounded;
    Enclosed(t, rd, u);
    var c := Rounded(t, rd);
    var a, e := Acc(c, rd, |c|), Computed(c, rd, u);
    RoundOne(rd, u, a - e);
    RoundOne(rd, u, a + e);
  }

  /** The verdict is right: it reports zero excess exactly when the exact activity is within the
      limits, escalated or not. */
  lemma VerdictRight(t: seq<real>, rd: real -> real, u: real, lower: Ext, upper: Ext)
    requires Rounds(rd, u) && Small(|t| + 1, u)
    ensures Check(t, rd, u, lower, upper).excess == Fin(0.0) <==> Within(lower, SumOf(t, |t|), upper)
  {
    hide Rounds, Small, Acc, SumOf, Computed, Decide, Abs, Within;
    Edges(t, rd, u);
    SmallLess(1, |t| + 1, u);
    var c := Rounded(t, rd);
    DecideRight(rd, u, Acc(c, rd, |c|), Computed(c, rd, u), SumOf(t, |t|), lower, upper);
  }

  /** The excess is the rounded distance to the limit that is missed. */
  lemma ExcessDistance(rd: real -> real, u: real, lower: Ext, a: real, upper: Ext)
    requires Rounds(rd, u) && Small(1, u) && Le(lower, upper)
    ensures Lt(Fin(a), lower) ==> Excess(rd, lower, a, upper) == if lower.Fin? then Fin(rd(lower.v - a)) else PosInf
    ensures Lt(upper, Fin(a)) ==> Excess(rd, lower, a, upper) == if upper.Fin? then Fin(rd(a - upper.v)) else PosInf
    ensures Within(lower, a, upper) ==> Excess(rd, lower, a, upper) == Fin(0.0)
  {
    if lower.Fin? { SignKept(rd, u, lower.v - a); }
    if upper.Fin? { SignKept(rd, u, a - upper.v); }
    hide Rounds, Small;
  }

  /** What a verdict says of the computed activity a, its error e and the exact activity x. */
  ghost predicate Says(v: Verdict, rd: real -> real, a: real, e: real, x: real, lower: Ext, upper: Ext) {
    var w := if v.escalated then x else a;
    && (v.escalated <==> Le(lower, Fin(rd(a + e))) && Le(Fin(rd(a - e)), upper)
                         && (Lt(Fin(rd(a - e)), lower) || Lt(upper, Fin(rd(a + e)))))
    && v.activity == (if v.escalated then rd(x) else a)
    && (Lt(Fin(x), lower) ==> Lt(Fin(w), lower) && v.excess == if lower.Fin? then Fin(rd(lower.v - w)) else PosInf)
    && (Lt(upper, Fin(x)) ==> Lt(upper, Fin(w)) && v.excess == if upper.Fin? then Fin(rd(w - upper.v)) else PosInf)
  }

  lemma DecideSays(rd: real -> real, u: real, a: real, e: real, x: real, lower: Ext, upper: Ext)
    requires Rounds(rd, u) && Small(1, u) && rd(a - e) <= a <= rd(a + e) && rd(a - e) <= x <= rd(a + e) && Le(lower, upper)
    ensures Says(Decide(rd, a, e, x, lower, upper), rd, a, e, x, lower, upper)
  {
    ExcessDistance(rd, u, lower, a, upper);
    ExcessDistance(rd, u, lower, x, upper);
    hide Rounds, Small, Excess;
  }

  /** A row is escalated exactly when its error interval reaches a limit from both sides. The reported
      activity is the sum in double precision, or the rounded wide sum of an escalated row; a violation
      is reported on the side on which the exact activity lies, with the rounded distance to the limit. */
  lemma VerdictSays(t: seq<real>, rd: real -> real, u: real, lower: Ext, upper: Ext)
    requires Rounds(rd, u) && Small(|t| + 1, u) && Le(lower, upper)
    ensures var c := Rounded(t, rd);
            Says(Check(t, rd, u, lower, upper), rd, Acc(c, rd, |c|), Computed(c, rd, u), SumOf(t, |t|), lower, upper)
  {
    hide Rounds, Small, Acc, SumOf, Computed, Decide, Says;
    Edges(t, rd, u);
    SmallLess(1, |t| + 1, u);
    var c := Rounded(t, rd);
    DecideSays(rd, u, Acc(c, rd, |c|), Computed(c, rd, u), SumOf(t, |t|), lower, upper);
  }

  // ------------------------------------------------------------------ the loops

  /** The exact products of a compressed row. */
  function TermsOf(values: seq<real>, indices: seq<nat>, x: seq<real>, begin: nat, end: nat): (t: seq<real>)
    requires begin <= end <= |values| == |indices| && forall k :: 0 <= k < |indices| ==> indices[k] < |x|
    ensures |t| == end - begin && forall k :: 0 <= k < |t| ==> t[k] == Times(values[begin + k], x[indices[begin + k]])
  {
    seq(end - begin, k requires 0 <= k < end - begin => Times(values[begin + k], x[indices[begin + k]]))
  }

  /** row_sum_fp64: activity and error bound; the error bound encloses the exact activity. */
  method RowSum(values: seq<real>, indices: seq<nat>, x: seq<real>, begin: nat, end: nat, rd: real -> real, u: real)
      returns (activity: real, error: real)
    requires begin <= end <= |values| == |indices| && forall k :: 0 <= k < |indices| ==> indices[k] < |x|
    ensures var c := Rounded(TermsOf(values, indices, x, begin, end), rd);
            activity == Acc(c, rd, |c|) && error == Computed(c, rd, u)
    ensures Rounds(rd, u) && Small(end - begin + 1, u) ==>
              Abs(activity - SumOf(TermsOf(values, indices, x, begin, end), end - begin)) <= error
  {
    hide Rounds, Small, Times, SumOf, Abs, Acc;
    ghost var t := TermsOf(values, indices, x, begin, end);
    var sum, mass := Accumulate(values, indices, x, begin, end, rd);
    activity := sum;
    error := ErrorBound(rd, u, end - begin, mass);
    if Rounds(rd, u) && Small(end - begin + 1, u) { SumEnclosed(t, rd, u); }
  }

  method Accumulate(values: seq<real>, indices: seq<nat>, x: seq<real>, begin: nat, end: nat, rd: real -> real)
      returns (sum: real, mass: real)
    requires begin <= end <= |values| == |indices| && forall k :: 0 <= k < |indices| ==> indices[k] < |x|
    ensures var c := Rounded(TermsOf(values, indices, x, begin, end), rd);
            sum == Acc(c, rd, |c|) && mass == Acc(Sizes(c), rd, |c|)
  {
    hide Times, Abs;
    ghost var c := Rounded(TermsOf(values, indices, x, begin, end), rd);
    sum, mass := 0.0, 0.0;
    for entry := begin to end
      invariant sum == Acc(c, rd, entry - begin) && mass == Acc(Sizes(c), rd, entry - begin)
    {
      var term := rd(Times(values[entry], x[indices[entry]]));
      assert term == c[entry - begin];
      sum := rd(sum + term);
      mass := rd(mass + Abs(term));
    }
  }

  lemma SumEnclosed(t: seq<real>, rd: real -> real, u: real)
    requires Rounds(rd, u) && Small(|t| + 1, u)
    ensures Abs(Acc(Rounded(t, rd), rd, |t|) - SumOf(t, |t|)) <= Computed(Rounded(t, rd), rd, u)
  {
    hide Rounds, Small, Acc, SumOf, Computed, Abs;
    Enclosed(t, rd, u);
    SmallNonneg(|t| + 1, u);
    var c := Rounded(t, rd);
    TimesNonneg(u, Abs(Acc(c, rd, |c|) - Computed(c, rd, u)));
    hide Times;
  }

  lemma TimesNonneg(a: real, b: real)
    requires 0.0 <= a && 0.0 <= b
    ensures 0.0 <= Times(a, b)
  {
  }

  method RowSumExact(values: seq<real>, indices: seq<nat>, x: seq<real>, begin: nat, end: nat) returns (activity: real)
    requires begin <= end <= |values| == |indices| && forall k :: 0 <= k < |indices| ==> indices[k] < |x|
    ensures activity == SumOf(TermsOf(values, indices, x, begin, end), end - begin)
  {
    activity := 0.0;
    ghost var t := TermsOf(values, indices, x, begin, end);
    for entry := begin to end
      invariant activity == SumOf(t, entry - begin)
    {
      assert t[entry - begin] == Times(values[entry], x[indices[entry]]);
      activity := activity + Times(values[entry], x[indices[entry]]);
    }
  }

  /** The size of the larger finite bound, 0 without one. */
  predicate LargerBound(lower: Ext, upper: Ext, scale: real) {
    && (lower.Fin? ==> Abs(lower.v) <= scale) && (upper.Fin? ==> Abs(upper.v) <= scale) && 0.0 <= scale
    && (scale == 0.0 || (lower.Fin? && scale == Abs(lower.v)) || (upper.Fin? && scale == Abs(upper.v)))
  }

  /** The limits are the bounds moved outwards by one tolerance, the absolute one plus the relative one
      times the larger finite bound; infinite bounds stay. */
  ghost predicate Widened(limits: (Ext, Ext), rd: real -> real, absolute: real, relative: real, lower: Ext, upper: Ext) {
    exists scale :: LargerBound(lower, upper, scale) &&
      var tolerance := rd(absolute + rd(Times(relative, scale)));
      && limits.0 == (if lower.Fin? then Fin(rd(lower.v - tolerance)) else lower)
      && limits.1 == (if upper.Fin? then Fin(rd(upper.v + tolerance)) else upper)
  }

  lemma LimitsSay(rd: real -> real, absolute: real, relative: real, lower: Ext, upper: Ext)
    ensures Widened(SolverRowLimits(rd, absolute, relative, lower, upper), rd, absolute, relative, lower, upper)
  {
    hide Times;
    var s0 := if lower.Fin? && Abs(lower.v) > 0.0 then Abs(lower.v) else 0.0;
    var scale := if upper.Fin? && Abs(upper.v) > s0 then Abs(upper.v) else s0;
    assert LargerBound(lower, upper, scale);
  }

  /** check_row under the solver's limits. */
  method CheckRow(values: seq<real>, indices: seq<nat>, x: seq<real>, begin: nat, end: nat,
                  rd: real -> real, u: real, absolute: real, relative: real, lower: Ext, upper: Ext) returns (v: Verdict)
    requires begin <= end <= |values| == |indices| && forall k :: 0 <= k < |indices| ==> indices[k] < |x|
    ensures var limits := SolverRowLimits(rd, absolute, relative, lower, upper);
            && v == Check(TermsOf(values, indices, x, begin, end), rd, u, limits.0, limits.1)
            && Widened(limits, rd, absolute, relative, lower, upper)
    ensures Rounds(rd, u) && Small(end - begin + 1, u) ==>
              var limits := SolverRowLimits(rd, absolute, relative, lower, upper);
              v.excess == Fin(0.0) <==> Within(limits.0, SumOf(TermsOf(values, indices, x, begin, end), end - begin), limits.1)
  {
    LimitsSay(rd, absolute, relative, lower, upper);
    hide Rounds, Small, Times, SumOf, Abs, Acc, Computed, Excess, SolverRowLimits, Within, Widened;
    ghost var t := TermsOf(values, indices, x, begin, end);
    var (first, second) := SolverRowLimits(rd, absolute, relative, lower, upper);
    var a, e := RowSum(values, indices, x, begin, end, rd, u);
    var low, high := Fin(rd(a - e)), Fin(rd(a + e));
    var satisfied := Le(first, low) && Le(high, second);
    var undecided := Le(first, high) && Le(low, second);
    if satisfied || !undecided {
      v := Verdict(a, Excess(rd, first, a, second), false);
    } else {
      var wide := RowSumExact(values, indices, x, begin, end);
      v := Verdict(rd(wide), Excess(rd, first, wide, second), true);
    }
    assert v == Check(t, rd, u, first, second);
    if Rounds(rd, u) && Small(end - begin + 1, u) { VerdictRight(t, rd, u, first, second); }
  }
}
