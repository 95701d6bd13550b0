/** A new right-hand side pushed through the cached row transformations. */
module RhsUpdate {
  import opened Extended
  import opened Reals
  import opened ConeModel
  import opened ConeConvert
  import opened ConePasses
  import opened ConePermute
  import opened ConeTheorem
  import opened ConeFactor
  import opened ConeRhs
  import opened BarrierTransform
  import opened RhsReplay
  import opened Sums

  /** crush_rhs_status_t, with the crushed values on success. */
  datatype Status = Success(crushed: Vec) | Invalid | Infeasible

  /** The row side of the cache: the rows the expansion appended (`tail`), the senses of all rows, the
      recorded cone heads, and the presolve and scaling records. */
  datatype RowCache = RowCache(
    problemRows: nat, supported: bool, tail: Vec, sense: seq<Sense>, heads: seq<HeadBound>,
    removed: seq<nat>, remaining: seq<nat>, eliminations: seq<Elimination>, keep: seq<nat>, scales: Vec)

  /** Rows in >= form were negated when the problem was converted. */
  function Oriented(sense: seq<Sense>, b: Vec): (r: Vec)
    requires |b| == |sense|
    ensures |r| == |b| && forall i :: 0 <= i < |b| ==> r[i] == if sense[i] == GE then -b[i] else b[i]
  {
    seq(|b|, i requires 0 <= i < |b| => if sense[i] == GE then -b[i] else b[i])
  }

  /** The first removed row that is out of range or has a nonzero value decides. */
  function CheckRemoved(v: Vec, removed: seq<nat>): Option<Status> {
    if removed == [] then None
    else if removed[0] >= |v| then Some(Invalid)
    else if v[removed[0]] != 0.0 then Some(Infeasible)
    else CheckRemoved(v, removed[1..])
  }

  /** What remains after empty rows are dropped. */
  function Remaining<T>(v: seq<T>, c: RowCache): seq<T>
    requires VarsIn(c.remaining, |v|)
  {
    if c.remaining != [] then Select(v, c.remaining) else if c.removed == [] then v else []
  }

  ghost predicate HeadsNamed(c: RowCache) {
    HeadsIn(c.heads, |c.sense|) && VarsIn(c.remaining, |c.sense|) && forall i :: 0 <= i < |c.scales| ==> c.scales[i] != 0.0
  }

  /** crush_user_rhs */
  function CrushRhs(c: RowCache, b: Vec): Status
    requires HeadsNamed(c)
  {
    if |b| != c.problemRows || !c.supported || |b + c.tail| != |c.sense| then Invalid
    else if !Recheck(c.heads, b + c.tail) then Invalid
    else
      var v := Oriented(c.sense, b + c.tail);
      match CheckRemoved(v, c.removed)
      case Some(s) => s
      case None =>
        match Replay(Remaining(v, c), c.eliminations, c.keep)
        case None => Invalid
        case Some(w) => if |w| != |c.scales| then Invalid else Success(Divided(w, c.scales))
  }

  // ------------------------------------------------------------------ meaning

  ghost predicate RowsHold(a: seq<Vec>, b: Vec, x: Vec) {
    |a| == |b| && forall i :: 0 <= i < |a| ==> |a[i]| == |x| && Residual(a[i], b[i], x) == 0.0
  }

  /** The cached records fit the converted matrix `a`: removed rows are empty, the others are listed,
      and the eliminations are sound on them. */
  ghost predicate Fits(c: RowCache, a: seq<Vec>, n: nat) {
    && HeadsNamed(c) && |a| == |c.sense| && (forall i :: 0 <= i < |a| ==> |a[i]| == n)
    && (forall k :: 0 <= k < |c.removed| ==> c.removed[k] < |a| && a[c.removed[k]] == Zeros(n))
    && (if c.removed == [] then c.remaining == [] else forall i :: 0 <= i < |a| ==> i in c.removed || i in c.remaining)
    && (c.eliminations != [] ==>
          && AllSound(System(Remaining(a, c), Zeros(|Remaining(a, c)|)), Upto(|Remaining(a, c)|), c.eliminations, n)
          && Keeps(c.keep, LiveAfter(Upto(|Remaining(a, c)|), c.eliminations), |Remaining(a, c)|))
  }

  /** The rows the barrier keeps, unscaled. */
  ghost function KeptRows(c: RowCache, a: seq<Vec>, n: nat): seq<Vec>
    requires Fits(c, a, n)
  {
    var r := Remaining(a, c);
    if c.eliminations == [] then r
    else
      SizedRemaining(c, a, n);
      SoundNames(System(r, Zeros(|r|)), Upto(|r|), c.eliminations, n);
      Select(EliminateAll(System(r, Zeros(|r|)), c.eliminations, n).a, c.keep)
  }

  lemma SizedRemaining(c: RowCache, a: seq<Vec>, n: nat)
    requires Fits(c, a, n)
    ensures forall i :: 0 <= i < |Remaining(a, c)| ==> |Remaining(a, c)[i]| == n
  {
  }

  lemma {:induction false} CheckRemovedFacts(v: Vec, removed: seq<nat>)
    requires VarsIn(removed, |v|)
    ensures CheckRemoved(v, removed) == None ==> forall k :: 0 <= k < |removed| ==> v[removed[k]] == 0.0
    ensures CheckRemoved(v, removed) == Some(Infeasible) ==> exists k :: 0 <= k < |removed| && v[removed[k]] != 0.0
    ensures CheckRemoved(v, removed) == None || CheckRemoved(v, removed) == Some(Infeasible)
  {
    if removed != [] {
      CheckRemovedFacts(v, removed[1..]);
      if v[removed[0]] == 0.0 && CheckRemoved(v, removed) == Some(Infeasible) {
        var k :| 0 <= k < |removed[1..]| && v[removed[1..][k]] != 0.0;
        assert removed[k + 1] == removed[1..][k];
      }
    }
  }

  lemma EmptyRow(v: real, x: Vec)
    ensures Residual(Zeros(|x|), v, x) == -v
  {
    DotAllZeros(x);
  }

  /** Dropping empty rows whose value is zero keeps the solutions. */
  lemma RemainingHold(c: RowCache, a: seq<Vec>, v: Vec, n: nat, x: Vec)
    requires Fits(c, a, n) && |v| == |a| && |x| == n && CheckRemoved(v, c.removed) == None
    ensures RowsHold(a, v, x) <==> RowsHold(Remaining(a, c), Remaining(v, c), x)
  {
    CheckRemovedFacts(v, c.removed);
    var r, w := Remaining(a, c), Remaining(v, c);
    if RowsHold(r, w, x) {
      forall i | 0 <= i < |a| ensures Residual(a[i], v[i], x) == 0.0 {
        if i in c.removed {
          EmptyRow(v[i], x);
        } else if c.removed == [] {
          assert r[i] == a[i];
        } else {
          var k :| 0 <= k < |c.remaining| && c.remaining[k] == i;
          assert Residual(r[k], w[k], x) == 0.0;
        }
      }
    }
  }

  /** When an update is called infeasible, no point satisfies the rows. */
  lemma InfeasibleRight(c: RowCache, a: seq<Vec>, b: Vec, n: nat, x: Vec)
    requires Fits(c, a, n) && CrushRhs(c, b) == Infeasible && |x| == n
    ensures |b + c.tail| == |c.sense| && !RowsHold(a, Oriented(c.sense, b + c.tail), x)
  {
    var v := Oriented(c.sense, b + c.tail);
    CheckRemovedFacts(v, c.removed);
    var k :| 0 <= k < |c.removed| && v[c.removed[k]] != 0.0;
    EmptyRow(v[c.removed[k]], x);
  }

  // ------------------------------------------------------------------ success

  ghost predicate ScaledHold(a: seq<Vec>, scales: Vec, crushed: Vec, x: Vec) {
    && |a| == |scales| == |crushed|
    && forall i :: 0 <= i < |a| ==> |a[i]| == |x| && scales[i] != 0.0 && Dot(a[i], x) / scales[i] == crushed[i]
  }

  lemma ScaledEqual(p: real, q: real, s: real)
    requires s != 0.0
    ensures p / s == q / s <==> p == q
  {
    assert (p / s) * s == p && (q / s) * s == q;
  }

  lemma ScaledIsHold(a: seq<Vec>, scales: Vec, w: Vec, x: Vec)
    requires |a| == |scales| == |w| && (forall i :: 0 <= i < |scales| ==> scales[i] != 0.0)
    requires forall i :: 0 <= i < |a| ==> |a[i]| == |x|
    ensures ScaledHold(a, scales, Divided(w, scales), x) <==> RowsHold(a, w, x)
  {
    forall i | 0 <= i < |a| ensures Dot(a[i], x) / scales[i] == w[i] / scales[i] <==> Residual(a[i], w[i], x) == 0.0 {
      ScaledEqual(Dot(a[i], x), w[i], scales[i]);
    }
  }

  /** Replaying on the remaining rows, in the terms used here. */
  lemma ReplayedHold(r: seq<Vec>, w: Vec, es: seq<Elimination>, keep: seq<nat>, n: nat, x: Vec)
    requires es != [] && Sized(System(r, w), n) && |x| == n
    requires AllSound(System(r, Zeros(|r|)), Upto(|r|), es, n) && Keeps(keep, LiveAfter(Upto(|r|), es), |r|)
    ensures Replay(w, es, keep).Some? && forall k :: 0 <= k < |es| ==> Names(es[k], |r|)
    ensures RowsHold(Select(EliminateAll(System(r, Zeros(|r|)), es, n).a, keep), Replay(w, es, keep).value, x)
        <==> exists y :: RowsHold(r, w, y) && AgreeOutside(x, y, es)
  {
    var s, live := System(r, w), Upto(|r|);
    SoundNames(System(r, Zeros(|r|)), live, es, n);
    SoundForEveryRhs(System(r, Zeros(|r|)), w, live, es, n);
    ReplayCorrect(r, w, es, keep, n, x);
    var t, c := EliminateAll(s, es, n), Replay(w, es, keep).value;
    hide AllSound, Keeps, EliminateAll, Replay;
    assert KeptHold(t.a, keep, c, x) <==> RowsHold(Select(t.a, keep), c, x) by { KeptIsRows(t.a, keep, c, n, x); }
    forall y | |y| == n ensures Solves(s, live, y, n) <==> RowsHold(r, w, y) { SolvesIsRows(r, w, n, y); }
  }

  lemma KeptIsRows(a: seq<Vec>, keep: seq<nat>, c: Vec, n: nat, x: Vec)
    requires VarsIn(keep, |a|) && |x| == n && forall i :: 0 <= i < |a| ==> |a[i]| == n
    ensures KeptHold(a, keep, c, x) <==> RowsHold(Select(a, keep), c, x)
  {
  }

  lemma SolvesIsRows(r: seq<Vec>, w: Vec, n: nat, y: Vec)
    requires Sized(System(r, w), n) && |y| == n
    ensures Solves(System(r, w), Upto(|r|), y, n) <==> RowsHold(r, w, y)
  {
  }

  lemma KeptSized(c: RowCache, a: seq<Vec>, n: nat)
    requires Fits(c, a, n)
    ensures forall i :: 0 <= i < |KeptRows(c, a, n)| ==> |KeptRows(c, a, n)[i]| == n
    ensures |KeptRows(c, a, n)| == if c.eliminations == [] then |Remaining(a, c)| else |c.keep|
  {
    SizedRemaining(c, a, n);
  }

  /** When an update succeeds, a point satisfies the scaled kept rows with the crushed values exactly
      when it extends, in the eliminated variables, to a solution of all rows with the new values. */
  lemma SuccessRight(c: RowCache, a: seq<Vec>, b: Vec, n: nat, x: Vec)
    requires Fits(c, a, n) && CrushRhs(c, b).Success? && |x| == n
    ensures |b + c.tail| == |c.sense|
    ensures ScaledHold(KeptRows(c, a, n), c.scales, CrushRhs(c, b).crushed, x)
        <==> exists y :: RowsHold(a, Oriented(c.sense, b + c.tail), y) && AgreeOutside(x, y, c.eliminations)
  {
    var v, r := Oriented(c.sense, b + c.tail), Remaining(a, c);
    var w, k := Remaining(v, c), KeptRows(c, a, n);
    SizedRemaining(c, a, n);
    CheckRemovedFacts(v, c.removed);
    var u := Replay(w, c.eliminations, c.keep).value;
    forall y: Vec | |y| == n ensures RowsHold(a, v, y) <==> RowsHold(r, w, y) { RemainingHold(c, a, v, n, y); }
    if c.eliminations == [] {
      assert forall y: Vec :: AgreeOutside(x, y, []) <==> x == y;
      assert u == w && k == r;
    } else {
      ReplayedHold(r, w, c.eliminations, c.keep, n, x);
    }
    KeptSized(c, a, n);
    ScaledIsHold(k, c.scales, u, x);
  }

  // ------------------------------------------------------------------ when an update succeeds

  /** A marked row bounds its head from below by a nonnegative value. */
  ghost predicate HeadHolds(marks: Marks, v: Vec)
    requires MarksIn(marks, |v|)
  {
    exists k :: 0 <= k < |marks| && v[marks[k].0] / marks[k].1 >= 0.0
  }

  /** Every recorded head still has a marked row whose new value keeps it nonnegative. */
  ghost predicate HeadsHold(heads: seq<HeadBound>, v: Vec)
    requires HeadsIn(heads, |v|)
  {
    forall i :: 0 <= i < |heads| ==> HeadHolds(heads[i].rows, v)
  }

  lemma RecheckIsHold(heads: seq<HeadBound>, v: Vec)
    requires HeadsIn(heads, |v|)
    ensures Recheck(heads, v) <==> HeadsHold(heads, v)
  {
    forall i | 0 <= i < |heads|
      ensures Le(Fin(0.0), ImpliedLower(heads[i].rows, v)) <==> HeadHolds(heads[i].rows, v)
    {
      ImpliedWitness(heads[i].rows, v);
    }
  }

  /** Sizes agree and the cache can take an update. */
  predicate Applies(c: RowCache, b: Vec) {
    |b| == c.problemRows && c.supported && |b| + |c.tail| == |c.sense|
  }

  ghost predicate RemovedZero(c: RowCache, v: Vec) {
    forall k :: 0 <= k < |c.removed| ==> c.removed[k] < |v| && v[c.removed[k]] == 0.0
  }

  /** The status of an update on a consistent cache: invalid when a size is wrong or a recorded head
      loses its reason to be nonnegative, else infeasible when an empty row has a nonzero value, else
      a success. */
  lemma UpdateVerdict(c: RowCache, a: seq<Vec>, b: Vec, n: nat)
    requires Fits(c, a, n) && |KeptRows(c, a, n)| == |c.scales|
    ensures Applies(c, b) ==> |b + c.tail| == |c.sense|
    ensures CrushRhs(c, b).Invalid? <==> !(Applies(c, b) && HeadsHold(c.heads, b + c.tail))
    ensures CrushRhs(c, b).Infeasible? <==>
              Applies(c, b) && HeadsHold(c.heads, b + c.tail) && !RemovedZero(c, b + c.tail)
    ensures CrushRhs(c, b).Success? <==>
              Applies(c, b) && HeadsHold(c.heads, b + c.tail) && RemovedZero(c, b + c.tail)
  {
    if Applies(c, b) {
      RecheckIsHold(c.heads, b + c.tail);
      var v := Oriented(c.sense, b + c.tail);
      CheckRemovedFacts(v, c.removed);
      RemovedOriented(c, v, b);
      ReplaySucceeds(c, a, v, n);
      hide Fits, Recheck, HeadsHold, KeptRows, RemovedZero, Remaining, Replay, CheckRemoved, HeadsIn, Oriented;
    }
  }

  lemma RemovedOriented(c: RowCache, v: Vec, b: Vec)
    requires |b + c.tail| == |c.sense| && v == Oriented(c.sense, b + c.tail) && VarsIn(c.removed, |v|)
    ensures RemovedZero(c, b + c.tail) <==> CheckRemoved(v, c.removed) == None
  {
    CheckRemovedFacts(v, c.removed);
    if CheckRemoved(v, c.removed) == Some(Infeasible) {
      var k :| 0 <= k < |c.removed| && v[c.removed[k]] != 0.0;
      assert (b + c.tail)[c.removed[k]] != 0.0;
    } else {
      forall k | 0 <= k < |c.removed| ensures (b + c.tail)[c.removed[k]] == 0.0 { assert v[c.removed[k]] == 0.0; }
    }
  }

  lemma ReplaySucceeds(c: RowCache, a: seq<Vec>, v: Vec, n: nat)
    requires Fits(c, a, n) && |KeptRows(c, a, n)| == |c.scales| && |v| == |a|
    ensures Replay(Remaining(v, c), c.eliminations, c.keep).Some?
    ensures |Replay(Remaining(v, c), c.eliminations, c.keep).value| == |c.scales|
  {
    SizedRemaining(c, a, n);
    KeptSized(c, a, n);
    if c.eliminations != [] {
      ReplayedHold(Remaining(a, c), Remaining(v, c), c.eliminations, c.keep, n, Zeros(n));
      KeptLength(Remaining(v, c), c.eliminations, c.keep);
    }
  }

  lemma KeptLength(v: Vec, es: seq<Elimination>, keep: seq<nat>)
    requires es != [] && Replay(v, es, keep).Some?
    ensures |Replay(v, es, keep).value| == |keep|
  {
  }

  // ------------------------------------------------------------------ what a success says of the expansion

  /** The cache was made from the expansion `e` of `m`. */
  ghost predicate Caches(c: RowCache, m: Model, e: Expansion) {
    && c.problemRows == |m.rows| && c.heads == e.heads && |c.sense| == |e.model.rows|
    && |m.rows| <= |e.model.rows| && c.tail == Rhs(e.model.rows)[|m.rows|..]
  }

  lemma SuccessRechecks(c: RowCache, b: Vec)
    requires HeadsNamed(c) && CrushRhs(c, b).Success? && HeadsIn(c.heads, |b|)
    ensures Applies(c, b) && Recheck(c.heads, b)
  {
    var v := b + c.tail;
    forall i | 0 <= i < |c.heads| ensures Le(Fin(0.0), ImpliedLower(c.heads[i].rows, b)) {
      ImpliedLowerSame(c.heads[i].rows, v, b);
    }
  }

  /** A successful update needs nothing else: the cached expansion with the new values means what the
      quadratic constraints with the new values mean. */
  lemma SuccessKeepsMeaning(m: Model, fs: seq<Option<Factor>>, hs: seq<real>, tol: real, c: RowCache, b: Vec, x: Point)
    requires Input(m, fs, hs, tol) && Expand(m, fs, hs, tol).Some?
    requires HeadsNamed(c) && Caches(c, m, Expand(m, fs, hs, tol).value) && CrushRhs(c, b).Success?
    ensures var e := Expand(m, fs, hs, tol).value;
            && |b| == |m.rows| <= |e.model.rows| && Wf(WithRhs(m, b)) && Wf(WithRhs(e.model, b)) && VarsIn(e.columns, e.model.n)
            && (Sat(WithRhs(m, b), x) <==> exists z: Point :: Sat(WithRhs(e.model, b), z) && Project(e, z) == x)
  {
    SuccessApplies(c, b);
    UpdateIsExpansion(m, fs, hs, tol, b);
    SuccessRechecks(c, b);
    hide CrushRhs, Expand, Input, Recheck, HeadsIn, Sat, Wf;
    UpdatedMeaning(m, fs, hs, tol, b, x);
  }

  lemma SuccessApplies(c: RowCache, b: Vec)
    requires HeadsNamed(c) && CrushRhs(c, b).Success?
    ensures Applies(c, b)
  {
    hide Recheck, CheckRemoved, Replay;
  }

  /** And every recorded head is nonnegative wherever the new rows and the bounds hold. */
  lemma SuccessKeepsHeads(m: Model, fs: seq<Option<Factor>>, hs: seq<real>, tol: real, c: RowCache, b: Vec, x: Point, i: nat)
    requires Input(m, fs, hs, tol) && Expand(m, fs, hs, tol).Some? && |b| == |m.rows| && Wf(WithRhs(m, b))
    requires HeadsNamed(c) && Caches(c, m, Expand(m, fs, hs, tol).value) && CrushRhs(c, b).Success?
    requires i < |c.heads| && |x| == m.n && LinearOk(WithRhs(m, b), x)
    ensures c.heads[i].head < m.n && x[c.heads[i].head] >= 0.0
  {
    UpdateIsExpansion(m, fs, hs, tol, b);
    SuccessRechecks(c, b);
    hide CrushRhs, Expand, Input, Recheck, HeadsIn, LinearOk, Wf;
    UpdatedHeads(m, fs, hs, tol, b, x, i);
  }

  // ------------------------------------------------------------------ the loops

  /** The recheck of the recorded heads: the greatest implied bound of each must be at least 0. */
  method RecheckHeads(heads: seq<HeadBound>, b: Vec) returns (ok: bool)
    requires HeadsIn(heads, |b|)
    ensures ok == Recheck(heads, b)
  {
    for i := 0 to |heads|
      invariant forall k :: 0 <= k < i ==> Le(Fin(0.0), ImpliedLower(heads[k].rows, b))
    {
      var implied, marks := NegInf, heads[i].rows;
      for k := 0 to |marks|
        invariant implied == ImpliedLower(marks[..k], b)
      {
        assert marks[..k + 1][..k] == marks[..k];
        implied := Max(implied, Fin(b[marks[k].0] / marks[k].1));
      }
      assert marks[..|marks|] == marks;
      if !Le(Fin(0.0), implied) { return false; }
    }
    return true;
  }

  method CrushNewRhs(c: RowCache, b: Vec) returns (r: Status)
    requires HeadsNamed(c)
    ensures r == CrushRhs(c, b)
  {
    if |b| != c.problemRows || !c.supported { return Invalid; }
    var expanded := b + c.tail;
    if |expanded| != |c.sense| { return Invalid; }
    var ok := RecheckHeads(c.heads, expanded);
    if !ok { return Invalid; }
    var original: Vec := [];
    for i := 0 to |expanded|
      invariant |original| == i
      invariant forall k :: 0 <= k < i ==> original[k] == if c.sense[k] == GE then -expanded[k] else expanded[k]
    {
      original := original + [if c.sense[i] == GE then -expanded[i] else expanded[i]];
    }
    assert original == Oriented(c.sense, expanded);
    assert c.removed[0..] == c.removed;
    for k := 0 to |c.removed|
      invariant CheckRemoved(original, c.removed[k..]) == CheckRemoved(original, c.removed)
    {
      if c.removed[k] >= |original| { return Invalid; }
      if original[c.removed[k]] != 0.0 { return Infeasible; }
      assert c.removed[k..][1..] == c.removed[k + 1..];
    }
    var presolved := Remaining(original, c);
    var reduced := SubstituteRows(presolved, c.eliminations, c.keep);
    if reduced.None? || |reduced.value| != |c.scales| { return Invalid; }
    var a := new real[|c.scales|](_ => 0.0);
    for i := 0 to |c.scales|
      invariant forall k :: 0 <= k < i ==> a[k] == reduced.value[k] / c.scales[k]
    {
      a[i] := reduced.value[i] / c.scales[i];
    }
    assert a[..] == Divided(reduced.value, c.scales);
    return Success(a[..]);
  }
}
