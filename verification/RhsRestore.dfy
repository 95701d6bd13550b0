/** Restoring eliminated variables after the right-hand side has changed. Each record keeps the
    right-hand side its pivot row had when it was made, and an update of the cached problem does not
    refresh it. */
module RhsRestore {
  import opened Extended
  import opened Reals
  import opened ConeModel
  import opened ConePermute
  import opened BarrierTransform
  import opened Sums
  import opened RhsReplay

  // ------------------------------------------------------------------ the stored row

  function SparseDot(columns: seq<nat>, coefficients: Vec, x: Vec): real
    requires |columns| == |coefficients| && VarsIn(columns, |x|)
  {
    if columns == [] then 0.0
    else
      var k := |columns| - 1;
      SparseDot(columns[..k], coefficients[..k], x) + Mul(coefficients[k], x[columns[k]])
  }

  predicate Distinct(columns: seq<nat>) {
    forall i, j :: 0 <= i < j < |columns| ==> columns[i] != columns[j]
  }

  /** The record can be used to restore a point of n variables. */
  predicate Usable(e: Elimination, n: nat) {
    && e.variable < n && |e.columns| == |e.coefficients| && VarsIn(e.columns, n)
    && e.variable !in e.columns && e.coefficient != 0.0
  }

  /** The columns list the other nonzero entries of the row, each once. */
  ghost predicate Stores(row: Vec, e: Elimination) {
    && Usable(e, |row|) && Distinct(e.columns) && row[e.variable] == e.coefficient
    && (forall k :: 0 <= k < |e.columns| ==> row[e.columns[k]] == e.coefficients[k])
    && forall j :: 0 <= j < |row| && j != e.variable && j !in e.columns ==> row[j] == 0.0
  }

  lemma {:induction false} DotZero(row: Vec, x: Vec)
    requires |row| == |x| && forall j :: 0 <= j < |row| ==> row[j] == 0.0
    ensures Dot(row, x) == 0.0
  {
    if row != [] { DotZero(row[1..], x[1..]); }
  }

  /** Taking one entry out of a row. */
  lemma TakeOut(row: Vec, x: Vec, c: nat)
    requires |row| == |x| && c < |row|
    ensures Dot(row, x) == Dot(row[c := 0.0], x) + Mul(row[c], x[c])
  {
    var rest := row[c := 0.0];
    DotUpdate(rest, x, c, row[c]);
    assert rest[c := row[c]] == row;
  }

  /** The listed columns hold the listed entries and the others nothing. */
  ghost predicate Lists(row: Vec, columns: seq<nat>, coefficients: Vec) {
    && |columns| == |coefficients| && VarsIn(columns, |row|) && Distinct(columns)
    && (forall k :: 0 <= k < |columns| ==> row[columns[k]] == coefficients[k])
    && forall j :: 0 <= j < |row| && j !in columns ==> row[j] == 0.0
  }

  lemma ListsFewer(row: Vec, columns: seq<nat>, coefficients: Vec, k: nat)
    requires Lists(row, columns, coefficients) && |columns| == k + 1
    ensures Lists(row[columns[k] := 0.0], columns[..k], coefficients[..k])
  {
    assert columns == columns[..k] + [columns[k]];
  }

  /** A row whose nonzero entries are listed is its sparse product. */
  lemma {:induction false} ListedRow(row: Vec, columns: seq<nat>, coefficients: Vec, x: Vec)
    requires |row| == |x| && Lists(row, columns, coefficients)
    ensures Dot(row, x) == SparseDot(columns, coefficients, x)
    decreases |columns|
  {
    if columns == [] {
      DotZero(row, x);
    } else {
      var k := |columns| - 1;
      ListsFewer(row, columns, coefficients, k);
      ListedRow(row[columns[k] := 0.0], columns[..k], coefficients[..k], x);
      TakeOut(row, x, columns[k]);
    }
  }

  lemma StoredRow(row: Vec, e: Elimination, x: Vec)
    requires |row| == |x| && Stores(row, e)
    ensures Dot(row, x) == SparseDot(e.columns, e.coefficients, x) + Mul(e.coefficient, x[e.variable])
  {
    StoredLists(row, e);
    ListedRow(row[e.variable := 0.0], e.columns, e.coefficients, x);
    TakeOut(row, x, e.variable);
  }

  lemma StoredLists(row: Vec, e: Elimination)
    requires Stores(row, e)
    ensures Lists(row[e.variable := 0.0], e.columns, e.coefficients)
  {
    forall k | 0 <= k < |e.columns| ensures e.columns[k] != e.variable { assert e.columns[k] in e.columns; }
  }

  // ------------------------------------------------------------------ restoring one variable

  function RestoredValue(e: Elimination, x: Vec): real
    requires Usable(e, |x|)
  {
    (e.rhs - SparseDot(e.columns, e.coefficients, x)) / e.coefficient
  }

  /** The restored variable makes the stored row hold with the stored right-hand side. */
  lemma RestoredHolds(row: Vec, e: Elimination, x: Vec)
    requires |row| == |x| && Stores(row, e)
    ensures Dot(row, x[e.variable := RestoredValue(e, x)]) == e.rhs
  {
    var v := RestoredValue(e, x);
    StoredRow(row, e, x);
    DotUpdate(x, row, e.variable, v);
    Quotient(e.coefficient, e.rhs - SparseDot(e.columns, e.coefficients, x));
    MulMinus(e.coefficient, v, x[e.variable]);
  }

  lemma MulMinus(a: real, b: real, c: real)
    ensures Mul(a, b - c) == Mul(a, b) - Mul(a, c)
  {
  }

  /** With the right-hand side the row has now, it is the pivot value. */
  lemma RestoredIsPivot(row: Vec, b: real, e: Elimination, x: Vec)
    requires |row| == |x| && Stores(row, e) && e.rhs == b
    ensures RestoredValue(e, x) == PivotValue(row, b, x, e.variable)
  {
    StoredRow(row, e, x);
    SolveFor(e.coefficient, b, SparseDot(e.columns, e.coefficients, x), x[e.variable]);
  }

  lemma SolveFor(a: real, b: real, d: real, x: real)
    requires a != 0.0
    ensures (b - d) / a == x + (b - (d + Mul(a, x))) / a
  {
    assert b - (d + a * x) == (b - d) - a * x;
    assert ((b - d) - a * x) / a == (b - d) / a - x;
  }

  // ------------------------------------------------------------------ restoring a point

  /** Records are undone last first. */
  function Restored(es: seq<Elimination>, x: Vec): (y: Vec)
    requires forall k :: 0 <= k < |es| ==> Usable(es[k], |x|)
    ensures |y| == |x|
    decreases |es|
  {
    if es == [] then x
    else
      assert forall k :: 0 <= k < |es[1..]| ==> es[1..][k] == es[k + 1];
      var z := Restored(es[1..], x);
      assert Usable(es[0], |z|);
      z[es[0].variable := RestoredValue(es[0], z)]
  }

  /** Every record stores its pivot row as it stands at its turn. */
  ghost predicate AllStored(s: System, es: seq<Elimination>, n: nat)
    requires Sized(s, n)
    decreases |es|
  {
    es == [] || (Names(es[0], |s.a|) && Stores(s.a[es[0].pivot], es[0]) && AllStored(Eliminate(s, es[0], n), es[1..], n))
  }

  /** Every record's right-hand side is the replayed value of its pivot row at its turn. */
  predicate Current(b: Vec, es: seq<Elimination>)
    decreases |es|
  {
    es == [] ||
    (Names(es[0], |b|) && es[0].rhs == b[es[0].pivot] &&
     Current(SubtractRhs(b, es[0], b[es[0].pivot], |es[0].rows|), es[1..]))
  }

  /** The stored rows do not depend on the right-hand side. */
  lemma {:induction false} StoredForEveryRhs(s: System, c: Vec, es: seq<Elimination>, n: nat)
    requires Sized(s, n) && |c| == |s.b| && AllStored(s, es, n)
    ensures AllStored(System(s.a, c), es, n)
    decreases |es|
  {
    if es != [] {
      var u, v := Eliminate(s, es[0], n), Eliminate(System(s.a, c), es[0], n);
      assert v == System(u.a, v.b);
      StoredForEveryRhs(u, v.b, es[1..], n);
    }
  }

  lemma RestoreStep(s: System, live: set<nat>, e: Elimination, n: nat, z: Vec)
    requires Sized(s, n) && Sound(s, live, e, n) && Stores(s.a[e.pivot], e) && |z| == n
    ensures Solves(s, live, z[e.variable := RestoredValue(e, z)], n)
        <==> e.rhs == s.b[e.pivot] && Solves(Eliminate(s, e, n), live - {e.pivot}, z, n)
  {
    var y := z[e.variable := RestoredValue(e, z)];
    if Solves(s, live, y, n) {
      assert Residual(s.a[e.pivot], s.b[e.pivot], y) == 0.0;
      RestoredHolds(s.a[e.pivot], e, z);
      StepForth(s, live, e, n, y, z[e.variable]);
      assert y[e.variable := z[e.variable]] == z;
    }
    if e.rhs == s.b[e.pivot] && Solves(Eliminate(s, e, n), live - {e.pivot}, z, n) {
      RestoredIsPivot(s.a[e.pivot], s.b[e.pivot], e, z);
      StepBack(s, live, e, n, z);
    }
  }

  /** For a point that satisfies the kept rows with the replayed values: restoring it solves all rows
      exactly when every record's right-hand side is current. */
  lemma {:induction false} RestoreCorrect(s: System, live: set<nat>, es: seq<Elimination>, n: nat, x: Vec)
    requires Sized(s, n) && |x| == n && AllSound(s, live, es, n) && AllStored(s, es, n)
    requires forall k :: 0 <= k < |es| ==> Usable(es[k], n) && Names(es[k], |s.a|)
    requires Solves(EliminateAll(s, es, n), LiveAfter(live, es), x, n)
    ensures Solves(s, live, Restored(es, x), n) <==> Current(s.b, es)
    ensures AgreeOutside(x, Restored(es, x), es)
    decreases |es|
  {
    if es != [] {
      var e, rest := es[0], es[1..];
      forall k | 0 <= k < |rest| ensures Usable(rest[k], n) && Names(rest[k], |s.a|) { assert rest[k] == es[k + 1]; }
      RestoreCorrect(Eliminate(s, e, n), live - {e.pivot}, rest, n, x);
      var z := Restored(rest, x);
      RestoreStep(s, live, e, n, z);
      AgreeStep(x, z, Restored(es, x), RestoredValue(e, z), es);
    }
  }

  /** After an update of the right-hand side: the kept rows hold with the replayed values, and the
      restored point solves the new system, exactly when the records happen to be current for it. */
  lemma UpdateRestores(a: seq<Vec>, b: Vec, c: Vec, es: seq<Elimination>, keep: seq<nat>, n: nat, x: Vec)
    requires Sized(System(a, b), n) && |c| == |b| && |x| == n && es != []
    requires AllSound(System(a, b), Upto(|a|), es, n) && AllStored(System(a, b), es, n)
    requires Keeps(keep, LiveAfter(Upto(|a|), es), |a|)
    requires (forall k :: 0 <= k < |es| ==> Usable(es[k], n) && Names(es[k], |a|)) && Replay(c, es, keep).Some?
    requires KeptHold(EliminateAll(System(a, c), es, n).a, keep, Replay(c, es, keep).value, x)
    ensures Solves(System(a, c), Upto(|a|), Restored(es, x), n) <==> Current(c, es)
  {
    var s, t, live: set<nat> := System(a, b), System(a, c), Upto(|a|);
    SoundForEveryRhs(s, c, live, es, n);
    StoredForEveryRhs(s, c, es, n);
    ReplayCommutes(t, es, n);
    KeptAreLive(EliminateAll(t, es, n), keep, LiveAfter(live, es), Replay(c, es, keep).value, n, x);
    RestoreCorrect(t, live, es, n, x);
  }

  /** No cache survives it: where records are current, moving the right-hand side of the first pivot row
      makes restoring fail at every point that satisfies the kept rows. */
  lemma MovedPivotFails(s: System, live: set<nat>, es: seq<Elimination>, n: nat, d: real, x: Vec)
    requires Sized(s, n) && |x| == n && es != [] && AllSound(s, live, es, n) && AllStored(s, es, n)
    requires (forall k :: 0 <= k < |es| ==> Usable(es[k], n) && Names(es[k], |s.a|)) && Current(s.b, es) && d != 0.0
    ensures var p := es[0].pivot;
            var t := System(s.a, s.b[p := s.b[p] + d]);
            Solves(EliminateAll(t, es, n), LiveAfter(live, es), x, n) ==> !Solves(t, live, Restored(es, x), n)
  {
    var c := s.b[es[0].pivot := s.b[es[0].pivot] + d];
    SoundForEveryRhs(s, c, live, es, n);
    StoredForEveryRhs(s, c, es, n);
    if Solves(EliminateAll(System(s.a, c), es, n), LiveAfter(live, es), x, n) {
      RestoreCorrect(System(s.a, c), live, es, n, x);
    }
  }

  /** An update that fails: the row x_0 = old is eliminated, the right-hand side moves to new; nothing is
      left to solve, and the restored point is still the old one. */
  lemma StaleUpdate(before: real, after: real, x: real)
    requires before != after
    ensures var e := Elimination(0, 0, [], [], 1.0, [], [], before);
            && Sized(System([[1.0]], [before]), 1) && AllSound(System([[1.0]], [before]), {0}, [e], 1)
            && Usable(e, 1) && Current([before], [e]) && Replay([after], [e], []) == Some([])
            && Restored([e], [x]) == [before] && !Solves(System([[1.0]], [after]), {0}, Restored([e], [x]), 1)
  {
    var e := Elimination(0, 0, [], [], 1.0, [], [], before);
    var s := System([[1.0]], [before]);
    assert [e][1..] == [];
    assert Sound(s, {0}, e, 1);
    assert AllSound(Eliminate(s, e, 1), {0} - {0}, [], 1);
    assert Restored([], [x]) == [x];
    assert Replayed([after], [e]) == Replayed([after], []) && Select([after], []) == [];
    var y := Restored([e], [x]);
    assert y == [before];
    assert Dot([1.0], y) == 1.0 * y[0] + Dot([1.0][1..], y[1..]);
    assert Residual([1.0], after, y) == before - after;
  }

  // ------------------------------------------------------------------ the loops

  /** The reverse substitution of uncrush_solution, in place. */
  method RestorePoint(es: seq<Elimination>, x: array<real>)
    requires forall k :: 0 <= k < |es| ==> Usable(es[k], x.Length)
    modifies x
    ensures x[..] == Restored(es, old(x[..]))
  {
    ghost var start := x[..];
    var t := |es|;
    assert es[t..] == [];
    while t > 0
      invariant t <= |es| && x[..] == Restored(es[t..], start)
    {
      t := t - 1;
      var e := es[t];
      assert es[t..][0] == e && es[t..][1..] == es[t + 1..];
      var value := e.rhs;
      ghost var z := x[..];
      for k := 0 to |e.columns|
        invariant x[..] == z && value == e.rhs - SparseDot(e.columns[..k], e.coefficients[..k], z)
      {
        assert e.columns[..k + 1][..k] == e.columns[..k] && e.coefficients[..k + 1][..k] == e.coefficients[..k];
        value := value - Mul(e.coefficients[k], x[e.columns[k]]);
      }
      assert e.columns[..|e.columns|] == e.columns && e.coefficients[..|e.columns|] == e.coefficients;
      x[e.variable] := value / e.coefficient;
    }
    assert es[0..] == es;
  }
}
