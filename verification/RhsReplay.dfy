/** Replaying recorded eliminations of free variables on a right-hand side. */
module RhsReplay {
  import opened Extended
  import opened Reals
  import opened ConeModel
  import opened ConeFactor
  import opened ConePermute
  import opened BarrierTransform
  import opened Sums

  /** Row `pivot` solved for `variable` and subtracted from the affected rows; -1 for a variable that
      appeared in no row. The last four fields are the pivot row as it was: the variable's coefficient,
      the other columns with theirs, and the right-hand side. */
  datatype Elimination = Elimination(
    variable: nat, pivot: int, rows: seq<nat>, factors: Vec,
    coefficient: real, columns: seq<nat>, coefficients: Vec, rhs: real)

  datatype System = System(a: seq<Vec>, b: Vec)

  ghost predicate Sized(s: System, n: nat) {
    |s.a| == |s.b| && forall i :: 0 <= i < |s.a| ==> |s.a[i]| == n
  }

  /** The record names rows of the system and pivots outside the rows it affects. */
  predicate Names(e: Elimination, m: nat) {
    0 <= e.pivot < m && |e.rows| == |e.factors| && VarsIn(e.rows, m)
  }

  // ------------------------------------------------------------------ row operations

  function Minus(v: Vec, f: real, w: Vec): (r: Vec)
    requires |v| == |w|
    ensures |r| == |v| && forall j :: 0 <= j < |v| ==> r[j] == v[j] - Mul(f, w[j])
  {
    seq(|v|, j requires 0 <= j < |v| => v[j] - Mul(f, w[j]))
  }

  /** The right-hand side after the first k affected rows; `p` is the pivot's value. */
  function SubtractRhs(b: Vec, e: Elimination, p: real, k: nat): (r: Vec)
    requires Names(e, |b|) && k <= |e.rows|
    ensures |r| == |b|
  {
    if k == 0 then b
    else
      var s := SubtractRhs(b, e, p, k - 1);
      s[e.rows[k - 1] := s[e.rows[k - 1]] - Mul(e.factors[k - 1], p)]
  }

  ghost function SubtractRows(a: seq<Vec>, e: Elimination, p: Vec, k: nat): (r: seq<Vec>)
    requires Names(e, |a|) && k <= |e.rows| && forall i :: 0 <= i < |a| ==> |a[i]| == |p|
    ensures |r| == |a| && forall i :: 0 <= i < |a| ==> |r[i]| == |p|
  {
    if k == 0 then a
    else
      var s := SubtractRows(a, e, p, k - 1);
      s[e.rows[k - 1] := Minus(s[e.rows[k - 1]], e.factors[k - 1], p)]
  }

  ghost function Eliminate(s: System, e: Elimination, n: nat): (r: System)
    requires Sized(s, n) && Names(e, |s.a|)
    ensures Sized(r, n) && |r.a| == |s.a|
  {
    System(SubtractRows(s.a, e, s.a[e.pivot], |e.rows|), SubtractRhs(s.b, e, s.b[e.pivot], |e.rows|))
  }

  // ------------------------------------------------------------------ one elimination

  lemma {:induction false} DotMinus(v: Vec, f: real, w: Vec, x: Vec)
    requires |v| == |w| == |x|
    ensures Dot(Minus(v, f, w), x) == Dot(v, x) - Mul(f, Dot(w, x))
  {
    if v != [] {
      DotMinus(v[1..], f, w[1..], x[1..]);
      assert Minus(v, f, w)[1..] == Minus(v[1..], f, w[1..]);
      MinusStep(v[0], f, w[0], x[0], Dot(v[1..], x[1..]), Dot(w[1..], x[1..]));
    }
  }

  lemma MinusStep(v: real, f: real, w: real, x: real, a: real, b: real)
    ensures (v - Mul(f, w)) * x + (a - Mul(f, b)) == (v * x + a) - Mul(f, w * x + b)
  {
    assert (v - f * w) * x == v * x - f * (w * x);
  }

  ghost function Residual(a: Vec, b: real, x: Vec): real
    requires |a| == |x|
  {
    Dot(a, x) - b
  }

  /** Subtracting multiples of a row that holds at x changes no row's residual at x. */
  lemma {:induction false} ResidualKept(a: seq<Vec>, b: Vec, e: Elimination, p: Vec, q: real, k: nat, i: nat, x: Vec)
    requires Names(e, |a|) && |a| == |b| && k <= |e.rows| && i < |a| && |x| == |p| && Residual(p, q, x) == 0.0
    requires forall r :: 0 <= r < |a| ==> |a[r]| == |p|
    ensures Residual(SubtractRows(a, e, p, k)[i], SubtractRhs(b, e, q, k)[i], x) == Residual(a[i], b[i], x)
  {
    if k > 0 {
      ResidualKept(a, b, e, p, q, k - 1, i, x);
      var v, f := SubtractRows(a, e, p, k - 1)[e.rows[k - 1]], e.factors[k - 1];
      DotMinus(v, f, p, x);
    }
  }

  ghost predicate Solves(s: System, live: set<nat>, x: Vec, n: nat)
    requires Sized(s, n)
  {
    |x| == n && forall i :: i in live && i < |s.a| ==> Residual(s.a[i], s.b[i], x) == 0.0
  }

  /** A sound record: a live pivot row outside its affected rows, a nonzero pivot, and no other live
      row left with the variable. */
  ghost predicate Sound(s: System, live: set<nat>, e: Elimination, n: nat)
    requires Sized(s, n)
  {
    && Names(e, |s.a|) && e.pivot in live && e.pivot !in e.rows && e.variable < n && s.a[e.pivot][e.variable] != 0.0
    && forall i :: i in live && i < |s.a| && i != e.pivot ==> Eliminate(s, e, n).a[i][e.variable] == 0.0
  }

  /** One pass over distinct rows subtracts each factor once. */
  lemma {:induction false} SubtractedOnce(s: System, e: Elimination, n: nat, k: nat, i: nat)
    requires Sized(s, n) && Names(e, |s.a|) && k <= |e.rows| && Distinct(e.rows) && i < |s.a|
    ensures var a, b := SubtractRows(s.a, e, s.a[e.pivot], k)[i], SubtractRhs(s.b, e, s.b[e.pivot], k)[i];
            && (forall l :: 0 <= l < k && e.rows[l] == i ==>
                  a == Minus(s.a[i], e.factors[l], s.a[e.pivot]) && b == s.b[i] - Mul(e.factors[l], s.b[e.pivot]))
            && ((forall l :: 0 <= l < k ==> e.rows[l] != i) ==> a == s.a[i] && b == s.b[i])
  {
    hide Mul, Minus;
    if k > 0 { SubtractedOnce(s, e, n, k - 1, i); }
  }

  /** The factors of a sound record are what the elimination stores: the row's coefficient of the variable
      over that of the pivot row. */
  lemma SoundFactor(s: System, live: set<nat>, e: Elimination, n: nat, k: nat)
    requires Sized(s, n) && Sound(s, live, e, n) && Distinct(e.rows) && k < |e.rows| && e.rows[k] in live
    ensures Mul(e.factors[k], s.a[e.pivot][e.variable]) == s.a[e.rows[k]][e.variable]
  {
    var i := e.rows[k];
    assert i in e.rows;
    SubtractedOnce(s, e, n, |e.rows|, i);
    assert Eliminate(s, e, n).a[i][e.variable] == 0.0;
    hide Mul;
  }

  lemma ZeroColumn(v: Vec, x: Vec, j: nat, a: real)
    requires |v| == |x| && j < |x| && v[j] == 0.0
    ensures Dot(v, x[j := a]) == Dot(v, x)
  {
    DotUpdate(x, v, j, a);
  }

  /** The value that makes the pivot row hold. */
  ghost function PivotValue(a: Vec, b: real, x: Vec, j: nat): real
    requires |a| == |x| && j < |x| && a[j] != 0.0
  {
    x[j] + (b - Dot(a, x)) / a[j]
  }

  lemma PivotHolds(a: Vec, b: real, x: Vec, j: nat)
    requires |a| == |x| && j < |x| && a[j] != 0.0
    ensures Residual(a, b, x[j := PivotValue(a, b, x, j)]) == 0.0
  {
    var v := PivotValue(a, b, x, j);
    DotUpdate(x, a, j, v);
    Quotient(a[j], b - Dot(a, x));
    assert v - x[j] == (b - Dot(a, x)) / a[j];
  }

  lemma Quotient(a: real, d: real)
    requires a != 0.0
    ensures Mul(a, d / a) == d
  {
  }

  /** With the variable at its pivot value, the reduced rows say what all rows say. */
  lemma StepBack(s: System, live: set<nat>, e: Elimination, n: nat, x: Vec)
    requires Sized(s, n) && Sound(s, live, e, n) && Solves(Eliminate(s, e, n), live - {e.pivot}, x, n)
    ensures Solves(s, live, x[e.variable := PivotValue(s.a[e.pivot], s.b[e.pivot], x, e.variable)], n)
  {
    var t, p, q := Eliminate(s, e, n), s.a[e.pivot], s.b[e.pivot];
    var y := x[e.variable := PivotValue(p, q, x, e.variable)];
    PivotHolds(p, q, x, e.variable);
    forall i | i in live && i < |s.a| ensures Residual(s.a[i], s.b[i], y) == 0.0 {
      if i != e.pivot {
        assert Residual(t.a[i], t.b[i], x) == 0.0;
        ZeroColumn(t.a[i], x, e.variable, PivotValue(p, q, x, e.variable));
        ResidualKept(s.a, s.b, e, p, q, |e.rows|, i, y);
      }
    }
  }

  /** A solution of all rows solves the reduced rows, whatever the eliminated variable is set to. */
  lemma StepForth(s: System, live: set<nat>, e: Elimination, n: nat, y: Vec, v: real)
    requires Sized(s, n) && Sound(s, live, e, n) && Solves(s, live, y, n)
    ensures Solves(Eliminate(s, e, n), live - {e.pivot}, y[e.variable := v], n)
  {
    var t, p, q := Eliminate(s, e, n), s.a[e.pivot], s.b[e.pivot];
    assert Residual(p, q, y) == 0.0;
    forall i | i in live - {e.pivot} && i < |t.a| ensures Residual(t.a[i], t.b[i], y[e.variable := v]) == 0.0 {
      assert Residual(s.a[i], s.b[i], y) == 0.0;
      ResidualKept(s.a, s.b, e, p, q, |e.rows|, i, y);
      ZeroColumn(t.a[i], y, e.variable, v);
    }
  }

  // ------------------------------------------------------------------ all eliminations

  ghost predicate AllSound(s: System, live: set<nat>, es: seq<Elimination>, n: nat)
    requires Sized(s, n)
    decreases |es|
  {
    es == [] || (Sound(s, live, es[0], n) && AllSound(Eliminate(s, es[0], n), live - {es[0].pivot}, es[1..], n))
  }

  ghost function EliminateAll(s: System, es: seq<Elimination>, n: nat): (r: System)
    requires Sized(s, n) && forall k :: 0 <= k < |es| ==> Names(es[k], |s.a|)
    ensures Sized(r, n) && |r.a| == |s.a|
    decreases |es|
  {
    if es == [] then s else EliminateAll(Eliminate(s, es[0], n), es[1..], n)
  }

  /** Two points that differ only in eliminated variables. */
  ghost predicate AgreeOutside(x: Vec, y: Vec, es: seq<Elimination>) {
    |x| == |y| && forall j :: 0 <= j < |x| && (forall k :: 0 <= k < |es| ==> es[k].variable != j) ==> x[j] == y[j]
  }

  lemma {:induction false} SoundNames(s: System, live: set<nat>, es: seq<Elimination>, n: nat)
    requires Sized(s, n) && AllSound(s, live, es, n)
    ensures forall k :: 0 <= k < |es| ==> Names(es[k], |s.a|)
    decreases |es|
  {
    if es != [] {
      SoundNames(Eliminate(s, es[0], n), live - {es[0].pivot}, es[1..], n);
      forall k | 0 <= k < |es| ensures Names(es[k], |s.a|) {
        if k > 0 { assert es[k] == es[1..][k - 1]; }
      }
    }
  }

  ghost function LiveAfter(live: set<nat>, es: seq<Elimination>): set<nat>
    decreases |es|
  {
    if es == [] then live else LiveAfter(live - {es[0].pivot}, es[1..])
  }

  /** A solution of the kept rows extends to one of all rows. */
  lemma {:induction false} ReplayBack(s: System, live: set<nat>, es: seq<Elimination>, n: nat, x: Vec) returns (y: Vec)
    requires Sized(s, n) && AllSound(s, live, es, n) && forall k :: 0 <= k < |es| ==> Names(es[k], |s.a|)
    requires Solves(EliminateAll(s, es, n), LiveAfter(live, es), x, n)
    ensures Solves(s, live, y, n) && AgreeOutside(x, y, es)
    decreases |es|
  {
    if es == [] {
      y := x;
    } else {
      var e := es[0];
      var z := ReplayBack(Eliminate(s, e, n), live - {e.pivot}, es[1..], n, x);
      StepBack(s, live, e, n, z);
      var v := PivotValue(s.a[e.pivot], s.b[e.pivot], z, e.variable);
      y := z[e.variable := v];
      AgreeStep(x, z, y, v, es);
    }
  }

  lemma AgreeStep(x: Vec, z: Vec, y: Vec, v: real, es: seq<Elimination>)
    requires es != [] && AgreeOutside(x, z, es[1..]) && es[0].variable < |z| && y == z[es[0].variable := v]
    ensures AgreeOutside(x, y, es)
  {
    forall j | 0 <= j < |x| && forall k :: 0 <= k < |es| ==> es[k].variable != j ensures x[j] == y[j] {
      forall k | 0 <= k < |es[1..]| ensures es[1..][k].variable != j { assert es[k + 1].variable != j; }
      assert es[0].variable != j;
    }
  }

  /** A solution of all rows solves the kept rows, whatever the eliminated variables are set to. */
  lemma {:induction false} ReplayForth(s: System, live: set<nat>, es: seq<Elimination>, n: nat, y: Vec, x: Vec)
    requires Sized(s, n) && AllSound(s, live, es, n) && forall k :: 0 <= k < |es| ==> Names(es[k], |s.a|)
    requires Solves(s, live, y, n) && AgreeOutside(x, y, es)
    ensures Solves(EliminateAll(s, es, n), LiveAfter(live, es), x, n)
    decreases |es|
  {
    if es == [] {
      assert x == y;
    } else {
      var e := es[0];
      var z := y[e.variable := x[e.variable]];
      StepForth(s, live, e, n, y, x[e.variable]);
      forall j | 0 <= j < |x| && forall k :: 0 <= k < |es[1..]| ==> es[1..][k].variable != j ensures x[j] == z[j] {
        if j != e.variable {
          forall k | 0 <= k < |es| ensures es[k].variable != j {
            if k > 0 { assert es[1..][k - 1].variable != j; }
          }
        }
      }
      ReplayForth(Eliminate(s, e, n), live - {e.pivot}, es[1..], n, z, x);
    }
  }

  // ------------------------------------------------------------------ the replay

  /** The replayed values before rows are dropped; None is an invalid_argument. */
  function Replayed(b: Vec, es: seq<Elimination>): Option<Vec>
    decreases |es|
  {
    if es == [] then Some(b)
    else if !Names(es[0], |b|) then None
    else Replayed(SubtractRhs(b, es[0], b[es[0].pivot], |es[0].rows|), es[1..])
  }

  /** substitute_free_variable_rows */
  function Replay(b: Vec, es: seq<Elimination>, keep: seq<nat>): Option<Vec> {
    if es == [] then Some(b)
    else
      match Replayed(b, es)
      case None => None
      case Some(v) => if VarsIn(keep, |v|) then Some(Select(v, keep)) else None
  }

  lemma {:induction false} UnpivotedStops(b: Vec, es: seq<Elimination>, k: nat)
    requires k < |es| && es[k].pivot < 0
    ensures Replayed(b, es) == None
    decreases |es|
  {
    if k > 0 && Names(es[0], |b|) {
      UnpivotedStops(SubtractRhs(b, es[0], b[es[0].pivot], |es[0].rows|), es[1..], k - 1);
    }
  }

  /** A variable eliminated without a row, recorded with pivot -1, makes every update invalid. */
  lemma UnpivotedRejected(b: Vec, es: seq<Elimination>, keep: seq<nat>, k: nat)
    requires k < |es| && es[k].pivot < 0
    ensures Replay(b, es, keep) == None
  {
    UnpivotedStops(b, es, k);
  }

  /** The replay commutes with the row operations: it gives their right-hand side for every matrix. */
  lemma {:induction false} ReplayCommutes(s: System, es: seq<Elimination>, n: nat)
    requires Sized(s, n) && forall k :: 0 <= k < |es| ==> Names(es[k], |s.a|)
    ensures Replayed(s.b, es) == Some(EliminateAll(s, es, n).b)
    decreases |es|
  {
    if es != [] {
      assert Names(es[0], |s.a|);
      forall k | 0 <= k < |es[1..]| ensures Names(es[1..][k], |s.a|) { assert Names(es[k + 1], |s.a|); }
      ReplayCommutes(Eliminate(s, es[0], n), es[1..], n);
    }
  }

  /** Records made for one right-hand side are sound for every other, and leave the same matrix. */
  lemma {:induction false} SoundForEveryRhs(s: System, c: Vec, live: set<nat>, es: seq<Elimination>, n: nat)
    requires Sized(s, n) && |c| == |s.b| && AllSound(s, live, es, n)
    requires forall k :: 0 <= k < |es| ==> Names(es[k], |s.a|)
    ensures AllSound(System(s.a, c), live, es, n)
    ensures EliminateAll(System(s.a, c), es, n).a == EliminateAll(s, es, n).a
    decreases |es|
  {
    if es != [] {
      var e, t := es[0], System(s.a, c);
      var u, v := Eliminate(s, e, n), Eliminate(t, e, n);
      assert u.a == v.a && v == System(u.a, v.b);
      forall k | 0 <= k < |es[1..]| ensures Names(es[1..][k], |s.a|) { assert Names(es[k + 1], |s.a|); }
      SoundForEveryRhs(u, v.b, live - {e.pivot}, es[1..], n);
    }
  }

  /** Rows listed as kept are those no elimination pivots on. */
  ghost predicate Keeps(keep: seq<nat>, live: set<nat>, m: nat) {
    VarsIn(keep, m) && forall i :: 0 <= i < m ==> (i in keep <==> i in live)
  }

  /** The kept rows, with the replayed right-hand side `c`, hold at x. */
  ghost predicate KeptHold(a: seq<Vec>, keep: seq<nat>, c: Vec, x: Vec) {
    |c| == |keep| && forall k :: 0 <= k < |keep| ==> keep[k] < |a| && |a[keep[k]]| == |x| && Residual(a[keep[k]], c[k], x) == 0.0
  }

  /** For every right-hand side: a point satisfies the kept rows with the replayed values exactly when
      it extends, in the eliminated variables, to a solution of all rows with the original ones. */
  lemma ReplayCorrect(a: seq<Vec>, b: Vec, es: seq<Elimination>, keep: seq<nat>, n: nat, x: Vec)
    requires Sized(System(a, b), n) && |x| == n && es != []
    requires AllSound(System(a, b), Upto(|a|), es, n) && Keeps(keep, LiveAfter(Upto(|a|), es), |a|)
    ensures Replay(b, es, keep).Some? && forall k :: 0 <= k < |es| ==> Names(es[k], |a|)
    ensures KeptHold(EliminateAll(System(a, b), es, n).a, keep, Replay(b, es, keep).value, x)
        <==> exists y :: Solves(System(a, b), Upto(|a|), y, n) && AgreeOutside(x, y, es)
  {
    var s, live: set<nat> := System(a, b), Upto(|a|);
    SoundNames(s, live, es, n);
    ReplayCommutes(s, es, n);
    var t := EliminateAll(s, es, n);
    var c := Replay(b, es, keep).value;
    KeptAreLive(t, keep, LiveAfter(live, es), c, n, x);
    if KeptHold(t.a, keep, c, x) {
      var y := ReplayBack(s, live, es, n, x);
    }
    if y :| Solves(s, live, y, n) && AgreeOutside(x, y, es) {
      ReplayForth(s, live, es, n, y, x);
    }
  }

  lemma KeptAreLive(t: System, keep: seq<nat>, live: set<nat>, c: Vec, n: nat, x: Vec)
    requires Sized(t, n) && |x| == n && Keeps(keep, live, |t.a|) && c == Select(t.b, keep)
    ensures KeptHold(t.a, keep, c, x) <==> Solves(t, live, x, n)
  {
    if KeptHold(t.a, keep, c, x) {
      forall i | i in live && i < |t.a| ensures Residual(t.a[i], t.b[i], x) == 0.0 {
        var k :| 0 <= k < |keep| && keep[k] == i;
      }
    }
    if Solves(t, live, x, n) {
      forall k | 0 <= k < |keep| ensures keep[k] < |t.a| && Residual(t.a[keep[k]], c[k], x) == 0.0 {
        assert keep[k] in live;
      }
    }
  }

  // ------------------------------------------------------------------ the loops

  method SubstituteRows(b: Vec, es: seq<Elimination>, keep: seq<nat>) returns (r: Option<Vec>)
    ensures r == Replay(b, es, keep)
  {
    if es == [] { return Some(b); }
    var values := b;
    ghost var goal := Replayed(b, es);
    assert es[0..] == es;
    for t := 0 to |es|
      invariant Replayed(values, es[t..]) == goal
    {
      var e := es[t];
      assert es[t..][0] == e && es[t..][1..] == es[t + 1..];
      if !(0 <= e.pivot < |values|) || |e.rows| != |e.factors| { return None; }
      var p := values[e.pivot];
      var next := SubtractAffected(values, e, p);
      if next.None? { return None; }
      values := next.value;
    }
    var reduced: Vec := [];
    for k := 0 to |keep|
      invariant |reduced| == k && forall i :: 0 <= i < k ==> keep[i] < |values| && reduced[i] == values[keep[i]]
    {
      if keep[k] >= |values| { return None; }
      reduced := reduced + [values[keep[k]]];
    }
    assert reduced == Select(values, keep);
    return Some(reduced);
  }

  method SubtractAffected(b: Vec, e: Elimination, p: real) returns (r: Option<Vec>)
    requires 0 <= e.pivot < |b| && |e.rows| == |e.factors|
    ensures r.Some? <==> Names(e, |b|)
    ensures r.Some? ==> r.value == SubtractRhs(b, e, p, |e.rows|)
  {
    var a := new real[|b|](i requires 0 <= i < |b| => b[i]);
    for k := 0 to |e.rows|
      invariant forall i :: 0 <= i < k ==> e.rows[i] < |b|
      invariant VarsIn(e.rows, |b|) ==> a[..] == SubtractRhs(b, e, p, k)
    {
      var row := e.rows[k];
      if row >= a.Length { return None; }
      a[row] := a[row] - Mul(e.factors[k], p);
    }
    return Some(a[..]);
  }
}
