/** Updating the right-hand side of an expanded problem without expanding it again. */
module ConeRhs {
  import opened Extended
  import opened ConeModel
  import opened ConeClassify
  import opened ConeFactor
  import opened ConeGeneral
  import opened ConeConvert
  import opened ConeSteps
  import opened ConePasses
  import opened ConePermute
  import opened ConeLayout
  import opened ConeTheorem

  function NewRhs(rows: seq<Row>, b: seq<real>): (r: seq<Row>)
    requires |b| <= |rows|
    ensures |r| == |rows|
    ensures forall i :: 0 <= i < |rows| ==> r[i] == if i < |b| then rows[i].(rhs := b[i]) else rows[i]
  {
    seq(|rows|, i requires 0 <= i < |rows| => if i < |b| then rows[i].(rhs := b[i]) else rows[i])
  }

  /** The problem's own rows take the new right-hand side, the appended rows keep theirs. */
  function WithRhs(m: Model, b: seq<real>): Model
    requires |b| <= |m.rows|
  {
    m.(rows := NewRhs(m.rows, b))
  }

  ghost predicate HeadsIn(heads: seq<HeadBound>, n: nat) {
    forall i :: 0 <= i < |heads| ==> MarksIn(heads[i].rows, n)
  }

  /** The test an update makes: every recorded head is still bounded below by 0. */
  predicate Recheck(heads: seq<HeadBound>, b: seq<real>)
    requires HeadsIn(heads, |b|)
  {
    forall i :: 0 <= i < |heads| ==> Le(Fin(0.0), ImpliedLower(heads[i].rows, b))
  }

  lemma RecheckConcat(h: seq<HeadBound>, k: seq<HeadBound>, b: seq<real>)
    requires HeadsIn(h, |b|) && HeadsIn(k, |b|)
    ensures HeadsIn(h + k, |b|) && (Recheck(h + k, b) <==> Recheck(h, b) && Recheck(k, b))
  {
    var s := h + k;
    assert HeadsIn(s, |b|);
    if Recheck(s, b) {
      forall i | 0 <= i < |h| ensures Le(Fin(0.0), ImpliedLower(h[i].rows, b)) { assert s[i] == h[i]; }
      forall i | 0 <= i < |k| ensures Le(Fin(0.0), ImpliedLower(k[i].rows, b)) { assert s[|h| + i] == k[i]; }
    }
  }

  lemma WithRhsWf(m: Model, b: seq<real>)
    requires Wf(m) && |b| <= |m.rows|
    ensures Wf(WithRhs(m, b))
  {
  }

  // ------------------------------------------------------------------ the head test

  lemma {:induction false} ImpliedRowsSame(rows: seq<Row>, b: seq<real>, k: nat, j: nat, tol: real)
    requires |b| <= |rows| && k <= |rows|
    ensures ImpliedRows(NewRhs(rows, b), k, j, tol) == ImpliedRows(rows, k, j, tol)
  {
    if k > 0 { ImpliedRowsSame(rows, b, k - 1, j, tol); }
  }

  lemma SavedIn(m: Model, base: nat, j: nat, tol: real)
    requires Shape(m, base) && j < m.n
    ensures HeadsIn(Saved(m, base, j, tol), base)
  {
  }

  /** Under a new right-hand side the head test passes exactly when the recheck of what was recorded
      for the head does. */
  lemma HeadOkNew(m: Model, b: seq<real>, j: nat, tol: real)
    requires Shape(m, |b|) && j < m.n
    ensures HeadsIn(Saved(m, |b|, j, tol), |b|)
    ensures HeadOk(WithRhs(m, b), |b|, j, tol) <==> Recheck(Saved(m, |b|, j, tol), b)
    ensures Saved(WithRhs(m, b), |b|, j, tol) == Saved(m, |b|, j, tol)
  {
    hide ImpliedRows, ImpliedLower, Recheck;
    SavedIn(m, |b|, j, tol);
    NewMarks(m.rows, b, j, tol);
    RecheckSaved(m, b, j, tol, ImpliedRows(m.rows, |b|, j, tol));
  }

  lemma NewMarks(rows: seq<Row>, b: seq<real>, j: nat, tol: real)
    requires |b| <= |rows|
    ensures var marks, r := ImpliedRows(rows, |b|, j, tol), NewRhs(rows, b);
            && ImpliedRows(r, |b|, j, tol) == marks && MarksIn(marks, |b|) && MarksIn(marks, |Rhs(r)|)
            && ImpliedLower(marks, Rhs(r)) == ImpliedLower(marks, b)
  {
    ImpliedRowsSame(rows, b, |b|, j, tol);
    var marks := ImpliedRows(rows, |b|, j, tol);
    hide ImpliedRows;
    ImpliedLowerSame(marks, Rhs(NewRhs(rows, b)), b);
  }

  lemma RecheckSaved(m: Model, b: seq<real>, j: nat, tol: real, marks: Marks)
    requires Shape(m, |b|) && j < m.n && marks == ImpliedRows(m.rows, |b|, j, tol) && MarksIn(marks, |b|)
    ensures HeadsIn(Saved(m, |b|, j, tol), |b|)
    ensures Recheck(Saved(m, |b|, j, tol), b) <==> Le(Fin(0.0), m.lower[j]) || Le(Fin(0.0), ImpliedLower(marks, b))
  {
    hide ImpliedRows, ImpliedLower;
    var s := Saved(m, |b|, j, tol);
    if !Le(Fin(0.0), m.lower[j]) { assert s == [HeadBound(j, marks)] && s[0].rows == marks; }
  }

  // ------------------------------------------------------------------ the passes commute with an update

  lemma FastRhs(m: Model, c: Cone, b: seq<real>)
    requires m.quads != [] && |b| <= |m.rows|
    ensures Fast(WithRhs(m, b), c) == WithRhs(Fast(m, c), b)
  {
  }

  lemma GeneralRhs(m: Model, q: Quad, f: Factor, tol: real, b: seq<real>)
    requires m.quads != [] && |b| <= |m.rows| && |f.cols| == |f.root|
    requires forall k :: 0 <= k < |f.cols| ==> TermsIn(f.cols[k], |f.order|)
    ensures |b| <= |General(m, q, f, tol).rows|
    ensures General(WithRhs(m, b), q, f, tol) == WithRhs(General(m, q, f, tol), b)
  {
    hide LinkingRows, SlackRow;
    assert General(WithRhs(m, b), q, f, tol).rows == NewRhs(General(m, q, f, tol).rows, b);
  }

  ghost function UpdatedWork(w: Work, b: seq<real>): Work
    requires |b| <= |w.m.rows|
  {
    Work(WithRhs(w.m, b), w.heads)
  }

  /** What a step records beyond what was there. */
  function News(before: seq<HeadBound>, after: seq<HeadBound>): seq<HeadBound>
    requires before <= after
  {
    after[|before|..]
  }

  lemma NothingToRecheck(b: seq<real>)
    ensures HeadsIn([], |b|) && Recheck([], b)
  {
  }

  /** A step under the new right-hand side succeeds exactly when the recheck of its records does, and
      then gives the updated result. */
  lemma StepRhs(w: Work, f: Option<Factor>, tol: real, b: seq<real>)
    requires Shape(w.m, |b|) && w.m.quads != [] && tol > 0.0 && Step(w, |b|, f, tol).Some?
    ensures var v := Step(w, |b|, f, tol).value;
            && HeadsIn(News(w.heads, v.heads), |b|)
            && Step(UpdatedWork(w, b), |b|, f, tol)
               == if Recheck(News(w.heads, v.heads), b) then Some(UpdatedWork(v, b)) else None
  {
    var v := Step(w, |b|, f, tol).value;
    var q := Normalize(w.m.quads[0]);
    assert Shape(WithRhs(w.m, b), |b|) && WithRhs(w.m, b).quads == w.m.quads && WithRhs(w.m, b).n == w.m.n;
    NothingToRecheck(b);
    hide Classify, Normalize, HeadOk, Saved, Fast, General, WithRhs, Recheck;
    match Classify(q, tol) {
      case Rejected =>
      case ToStandard(head, tails) =>
        HeadOkNew(w.m, b, head, tol);
        FastRhs(w.m, Standard([head] + tails), b);
        assert News(w.heads, v.heads) == Saved(w.m, |b|, head, tol);
      case ToRotated(h0, h1, tails, ratio) =>
        HeadOkNew(w.m, b, h0, tol);
        HeadOkNew(w.m, b, h1, tol);
        FastRhs(w.m, Rotated(h0, h1, tails, ratio), b);
        RecheckConcat(Saved(w.m, |b|, h0, tol), Saved(w.m, |b|, h1, tol), b);
        assert News(w.heads, v.heads) == Saved(w.m, |b|, h0, tol) + Saved(w.m, |b|, h1, tol);
      case ToGeneral =>
        GeneralRhs(w.m, q, f.value, tol, b);
        assert News(w.heads, v.heads) == [];
    }
  }

  lemma UpdatedShape(w: Work, b: seq<real>)
    requires Shape(w.m, |b|)
    ensures Shape(UpdatedWork(w, b).m, |b|) && UpdatedWork(w, b).m.quads == w.m.quads && UpdatedWork(w, b).heads == w.heads
  {
  }

  /** The result of converting under the new right-hand side, given that of the old one. */
  ghost function Revised(before: seq<HeadBound>, v: Work, b: seq<real>): Option<Work>
    requires before <= v.heads && |b| <= |v.m.rows| && HeadsIn(News(before, v.heads), |b|)
  {
    if Recheck(News(before, v.heads), b) then Some(UpdatedWork(v, b)) else None
  }

  lemma RevisedChain(before: seq<HeadBound>, u: Work, v: Work, b: seq<real>)
    requires before <= u.heads <= v.heads && |b| <= |v.m.rows|
    requires HeadsIn(News(before, u.heads), |b|) && HeadsIn(News(u.heads, v.heads), |b|)
    ensures HeadsIn(News(before, v.heads), |b|)
    ensures Revised(before, v, b) == if Recheck(News(before, u.heads), b) then Revised(u.heads, v, b) else None
  {
    hide Recheck;
    assert News(before, v.heads) == News(before, u.heads) + News(u.heads, v.heads);
    RecheckConcat(News(before, u.heads), News(u.heads, v.heads), b);
  }

  lemma RevisedNothing(w: Work, b: seq<real>)
    requires |b| <= |w.m.rows|
    ensures HeadsIn(News(w.heads, w.heads), |b|) && Revised(w.heads, w, b) == Some(UpdatedWork(w, b))
  {
    assert News(w.heads, w.heads) == [];
  }

  lemma {:induction false} ConvertRhs(w: Work, fs: seq<Option<Factor>>, tol: real, b: seq<real>)
    requires Shape(w.m, |b|) && |fs| == |w.m.quads| && tol > 0.0 && ConvertAll(w, |b|, fs, tol).Some?
    ensures HeadsIn(News(w.heads, ConvertAll(w, |b|, fs, tol).value.heads), |b|)
    ensures Shape(UpdatedWork(w, b).m, |b|) && |fs| == |UpdatedWork(w, b).m.quads|
    ensures ConvertAll(UpdatedWork(w, b), |b|, fs, tol) == Revised(w.heads, ConvertAll(w, |b|, fs, tol).value, b)
    decreases |fs|
  {
    UpdatedShape(w, b);
    hide Step, Recheck, UpdatedWork, HeadsIn, Revised, News;
    if w.m.quads == [] {
      RevisedNothing(w, b);
    } else {
      var u, v := Step(w, |b|, fs[0], tol).value, ConvertAll(w, |b|, fs, tol).value;
      StepRhs(w, fs[0], tol, b);
      ConvertRhs(u, fs[1..], tol, b);
      RevisedChain(w.heads, u, v, b);
    }
  }

  lemma LiftStepRhs(m: Model, c: nat, h: real, b: seq<real>)
    requires c < |m.cones| && m.cones[c].Rotated? && |b| <= |m.rows|
    ensures Lift(WithRhs(m, b), c, h) == WithRhs(Lift(m, c, h), b)
  {
    assert Lift(WithRhs(m, b), c, h).rows == NewRhs(Lift(m, c, h).rows, b);
  }

  lemma LinkStepRhs(m: Model, c: nat, i: nat, b: seq<real>)
    requires HasSlot(m, c, i) && |b| <= |m.rows|
    ensures Link(WithRhs(m, b), c, i) == WithRhs(Link(m, c, i), b)
  {
    assert Link(WithRhs(m, b), c, i).rows == NewRhs(Link(m, c, i).rows, b);
  }

  lemma {:induction false} LiftRhs(m: Model, c: nat, hs: seq<real>, b: seq<real>)
    requires c <= |m.cones| == |hs| && |b| <= |m.rows|
    ensures LiftFrom(WithRhs(m, b), c, hs) == WithRhs(LiftFrom(m, c, hs), b)
    decreases |m.cones| - c
  {
    if c < |m.cones| {
      if m.cones[c].Rotated? {
        LiftStepRhs(m, c, hs[c], b);
        LiftRhs(Lift(m, c, hs[c]), c + 1, hs, b);
      } else {
        LiftRhs(m, c + 1, hs, b);
      }
    }
  }

  lemma {:induction false} AliasRhs(m: Model, c: nat, i: nat, owner: map<nat, nat>, b: seq<real>)
    requires Cursor(m, c, i) && |b| <= |m.rows|
    ensures AliasFrom(WithRhs(m, b), c, i, owner) == WithRhs(AliasFrom(m, c, i, owner), b)
    decreases Left(m, c, i), |m.cones| - c
  {
    if c < |m.cones| {
      if i == |m.cones[c].vars| {
        AliasRhs(m, c + 1, 0, owner, b);
      } else {
        var v := m.cones[c].vars[i];
        if v !in owner {
          AliasRhs(m, c, i + 1, owner[v := c], b);
        } else if owner[v] == c {
          AliasRhs(m, c, i + 1, owner, b);
        } else {
          LinkStepRhs(m, c, i, b);
          LinkCursor(m, c, i);
          AliasRhs(Link(m, c, i), c, i + 1, owner, b);
        }
      }
    }
  }

  lemma {:induction false} SplitRhs(m: Model, c: nat, i: nat, b: seq<real>)
    requires Cursor(m, c, i) && |b| <= |m.rows|
    ensures SplitFrom(WithRhs(m, b), c, i) == WithRhs(SplitFrom(m, c, i), b)
    decreases Left(m, c, i), |m.cones| - c
  {
    if c < |m.cones| {
      if i == |m.cones[c].vars| {
        SplitRhs(m, c + 1, 0, b);
      } else if Stays(m, i, m.cones[c].vars[i]) {
        SplitRhs(m, c, i + 1, b);
      } else {
        LinkStepRhs(m, c, i, b);
        LinkCursor(m, c, i);
        SplitRhs(Link(m, c, i), c, i + 1, b);
      }
    }
  }

  lemma SettledRhs(m: Model, hs: seq<real>, b: seq<real>)
    requires |hs| == |m.cones| && |b| <= |m.rows|
    ensures |b| <= |Settled(m, hs).rows| && Settled(WithRhs(m, b), hs) == WithRhs(Settled(m, hs), b)
  {
    hide WithRhs;
    LiftRhs(m, 0, hs, b);
    AliasRhs(Lifted(m, hs), 0, 0, map[], b);
    SplitRhs(Aliased(Lifted(m, hs)), 0, 0, b);
  }

  lemma PlaceRhs(s: Model, n: nat, heads: seq<HeadBound>, b: seq<real>)
    requires |b| <= |s.rows| && Placeable(s) && Placeable(WithRhs(s, b)) && n <= s.n
    ensures |Place(s, n, heads).model.rows| == |s.rows|
    ensures Place(WithRhs(s, b), n, heads) == Place(s, n, heads).(model := WithRhs(Place(s, n, heads).model, b))
  {
    var t := WithRhs(s, b);
    assert t.cones == s.cones && t.n == s.n && Columns(t) == Columns(s);
    hide SplitInv, Wf, NewToOld, Flat, Linear;
    assert Place(t, n, heads).model.rows == NewRhs(Place(s, n, heads).model.rows, b);
  }

  // ------------------------------------------------------------------ the update theorem

  lemma ConvertedRhs(m: Model, fs: seq<Option<Factor>>, tol: real, b: seq<real>)
    requires |b| == |m.rows| && Wf(m) && Wf(WithRhs(m, b)) && |fs| == |m.quads| && tol > 0.0
    requires Converted(m, fs, tol).Some?
    ensures var w := Converted(m, fs, tol).value;
            && HeadsIn(w.heads, |b|) && |b| <= |w.m.rows|
            && Converted(WithRhs(m, b), fs, tol) == if Recheck(w.heads, b) then Some(UpdatedWork(w, b)) else None
  {
    ConvertRhs(Work(m, []), fs, tol, b);
    var w := Converted(m, fs, tol).value;
    assert News([], w.heads) == w.heads;
  }

  /** An update is expanding again: with the same oracle answers, the problem under a new right-hand
      side expands exactly when the recheck passes, and then to the cached expansion with its own
      rows updated. */
  lemma UpdateIsExpansion(m: Model, fs: seq<Option<Factor>>, hs: seq<real>, tol: real, b: seq<real>)
    requires Input(m, fs, hs, tol) && Expand(m, fs, hs, tol).Some? && |b| == |m.rows|
    ensures Input(WithRhs(m, b), fs, hs, tol)
    ensures var e := Expand(m, fs, hs, tol).value;
            && HeadsIn(e.heads, |b|) && |b| <= |e.model.rows|
            && Expand(WithRhs(m, b), fs, hs, tol)
               == if Recheck(e.heads, b) then Some(e.(model := WithRhs(e.model, b))) else None
  {
    var w := Converted(m, fs, tol).value;
    WithRhsWf(m, b);
    ConvertedRhs(m, fs, tol, b);
    UpdateInput(m, fs, hs, tol, b);
    ConvertedFacts(m, fs, hs, tol);
    SettledRhs(w.m, hs, b);
    var s := Settled(w.m, hs);
    if Recheck(w.heads, b) {
      ConvertedFacts(WithRhs(m, b), fs, hs, tol);
      hide WithRhs, Settled, Place, Converted, OracleOk, Extends, Recheck, HeadsIn, Placeable, Input;
      PlaceRhs(s, m.n, w.heads, b);
    }
    PlaceRowCount(s, m.n, w.heads);
  }

  lemma PlaceRowCount(s: Model, n: nat, heads: seq<HeadBound>)
    requires Placeable(s) && n <= s.n
    ensures |Place(s, n, heads).model.rows| == |s.rows|
  {
  }

  lemma UpdateInput(m: Model, fs: seq<Option<Factor>>, hs: seq<real>, tol: real, b: seq<real>)
    requires Input(m, fs, hs, tol) && Converted(m, fs, tol).Some? && |b| == |m.rows| && Wf(WithRhs(m, b))
    ensures Input(WithRhs(m, b), fs, hs, tol)
  {
    ConvertedRhs(m, fs, tol, b);
    hide Converted, OracleOk, RootsOk, Wf;
  }

  /** A point of the updated problem is what an expanded point of the updated cache projects to; no
      expansion is run again. */
  lemma UpdatedMeaning(m: Model, fs: seq<Option<Factor>>, hs: seq<real>, tol: real, b: seq<real>, x: Point)
    requires Input(m, fs, hs, tol) && Expand(m, fs, hs, tol).Some? && |b| == |m.rows|
    requires HeadsIn(Expand(m, fs, hs, tol).value.heads, |b|) && Recheck(Expand(m, fs, hs, tol).value.heads, b)
    ensures var e := Expand(m, fs, hs, tol).value;
            && |b| <= |e.model.rows| && Wf(WithRhs(m, b)) && Wf(WithRhs(e.model, b)) && VarsIn(e.columns, e.model.n)
            && (Sat(WithRhs(m, b), x) <==> exists z: Point :: Sat(WithRhs(e.model, b), z) && Project(e, z) == x)
  {
    var e := Expand(m, fs, hs, tol).value;
    UpdateIsExpansion(m, fs, hs, tol, b);
    MeaningPreserved(WithRhs(m, b), fs, hs, tol, x);
    var e' := Expand(WithRhs(m, b), fs, hs, tol).value;
    hide Expand, Input, Sat, Wf;
    assert e'.model == WithRhs(e.model, b) && e'.columns == e.columns;
    assert forall z: Point :: |z| == e'.model.n ==> Project(e, z) == Project(e', z);
  }

  // ------------------------------------------------------------------ recorded heads

  /** A record names the singleton rows of the original problem that bound its head from below. */
  ghost predicate Honest(heads: seq<HeadBound>, rows: seq<Row>, n: nat, tol: real) {
    forall i :: 0 <= i < |heads| ==> heads[i].head < n && heads[i].rows == ImpliedRows(rows, |rows|, heads[i].head, tol)
  }

  lemma SavedHonest(m: Model, rows: seq<Row>, j: nat, n: nat, tol: real)
    requires Shape(m, |rows|) && j < m.n && rows <= m.rows && j < n
    ensures Honest(Saved(m, |rows|, j, tol), rows, n, tol)
  {
    ImpliedRowsPrefix(rows, m.rows, |rows|, j, tol);
  }

  lemma StepHonest(w: Work, rows: seq<Row>, n: nat, f: Option<Factor>, tol: real)
    requires Shape(w.m, |rows|) && rows <= w.m.rows && w.m.quads != [] && tol > 0.0 && Honest(w.heads, rows, n, tol)
    requires forall k :: 0 <= k < |w.m.quads| ==> QuadIn(w.m.quads[k], n)
    requires Step(w, |rows|, f, tol).Some?
    ensures Honest(Step(w, |rows|, f, tol).value.heads, rows, n, tol)
  {
    var q := Normalize(w.m.quads[0]);
    assert QuadIn(w.m.quads[0], n);
    NormalizeIn(w.m.quads[0], n);
    RouteIn(q, tol, n);
    hide Normalize, Saved, HeadOk, Fast, General, Classify, ImpliedRows, Honest;
    match Classify(q, tol) {
      case ToStandard(head, _) =>
        SavedHonest(w.m, rows, head, n, tol);
        HonestConcat(w.heads, Saved(w.m, |rows|, head, tol), rows, n, tol);
      case ToRotated(h0, h1, _, _) =>
        SavedHonest(w.m, rows, h0, n, tol);
        SavedHonest(w.m, rows, h1, n, tol);
        HonestConcat(Saved(w.m, |rows|, h0, tol), Saved(w.m, |rows|, h1, tol), rows, n, tol);
        HonestConcat(w.heads, Saved(w.m, |rows|, h0, tol) + Saved(w.m, |rows|, h1, tol), rows, n, tol);
      case _ =>
    }
  }

  lemma HonestConcat(a: seq<HeadBound>, b: seq<HeadBound>, rows: seq<Row>, n: nat, tol: real)
    requires Honest(a, rows, n, tol) && Honest(b, rows, n, tol)
    ensures Honest(a + b, rows, n, tol)
  {
    hide ImpliedRows;
  }

  lemma {:induction false} ConvertHonest(w: Work, rows: seq<Row>, n: nat, fs: seq<Option<Factor>>, tol: real)
    requires Shape(w.m, |rows|) && rows <= w.m.rows && OracleOk(w.m.quads, fs, tol) && Honest(w.heads, rows, n, tol)
    requires forall k :: 0 <= k < |w.m.quads| ==> QuadIn(w.m.quads[k], n)
    requires ConvertAll(w, |rows|, fs, tol).Some?
    ensures Honest(ConvertAll(w, |rows|, fs, tol).value.heads, rows, n, tol)
    decreases |fs|
  {
    if w.m.quads != [] {
      StepHonest(w, rows, n, fs[0], tol);
      OracleRest(w.m.quads, fs, tol);
      hide Step, Honest, OracleOk, Separated, Normalize;
      ConvertHonest(Step(w, |rows|, fs[0], tol).value, rows, n, fs[1..], tol);
    }
  }

  /** After a successful update every recorded head is nonnegative at every point of the updated rows
      and bounds. */
  lemma UpdatedHeads(m: Model, fs: seq<Option<Factor>>, hs: seq<real>, tol: real, b: seq<real>, x: Point, i: nat)
    requires Input(m, fs, hs, tol) && Expand(m, fs, hs, tol).Some? && |b| == |m.rows| && Wf(WithRhs(m, b))
    requires i < |Expand(m, fs, hs, tol).value.heads| && HeadsIn(Expand(m, fs, hs, tol).value.heads, |b|)
    requires Recheck(Expand(m, fs, hs, tol).value.heads, b) && |x| == m.n && LinearOk(WithRhs(m, b), x)
    ensures Expand(m, fs, hs, tol).value.heads[i].head < m.n && x[Expand(m, fs, hs, tol).value.heads[i].head] >= 0.0
  {
    var heads := Converted(m, fs, tol).value.heads;
    assert heads == Expand(m, fs, hs, tol).value.heads;
    assert forall k :: 0 <= k < |m.quads| ==> QuadIn(m.quads[k], m.n);
    ConvertHonest(Work(m, []), m.rows, m.n, fs, tol);
    hide Input, Expand, Converted, ConvertAll;
    RecordedHead(WithRhs(m, b), heads[i], m.rows, b, tol, x);
  }

  lemma RecordedHead(m: Model, h: HeadBound, rows: seq<Row>, b: seq<real>, tol: real, x: Point)
    requires |b| == |rows| && m.rows == NewRhs(rows, b) && Wf(m) && |x| == m.n && LinearOk(m, x) && tol > 0.0
    requires h.head < m.n && h.rows == ImpliedRows(rows, |rows|, h.head, tol) && MarksIn(h.rows, |b|)
    requires Le(Fin(0.0), ImpliedLower(h.rows, b))
    ensures x[h.head] >= 0.0
  {
    ImpliedWitness(h.rows, b);
    hide ImpliedRows, ImpliedLower;
    var i :| 0 <= i < |h.rows| && b[h.rows[i].0] / h.rows[i].1 >= 0.0;
    var r := m.rows[h.rows[i].0];
    assert BoundsBelow(rows[h.rows[i].0], h.head, tol) && r.rhs == b[h.rows[i].0];
    assert RowOk(r, x);
    MarkedRow(r, h.head, tol, x);
  }
}
