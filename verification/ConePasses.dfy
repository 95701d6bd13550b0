/** The passes of the cone expansion as functions on models, and their meaning. */
module ConePasses {
  import opened Extended
  import opened ConeModel
  import opened ConeClassify
  import opened ConeFactor
  import opened ConeGeneral
  import opened ConeConvert
  import opened ConeSteps

  // ------------------------------------------------------------------ pass 1: conversion

  /** Why a head without a nonnegative bound of its own is nonnegative. */
  datatype HeadBound = HeadBound(head: nat, rows: Marks)

  datatype Work = Work(m: Model, heads: seq<HeadBound>)

  predicate Shape(m: Model, base: nat) {
    base <= |m.rows| && |m.lower| == m.n
  }

  /** save_cone_head_bound */
  function Saved(m: Model, base: nat, j: nat, tol: real): seq<HeadBound>
    requires Shape(m, base) && j < m.n
  {
    if Le(Fin(0.0), m.lower[j]) then [] else [HeadBound(j, ImpliedRows(m.rows, base, j, tol))]
  }

  predicate Usable(f: Option<Factor>) {
    && f.Some? && |f.value.cols| >= 1 && |f.value.cols| == |f.value.root|
    && forall k :: 0 <= k < |f.value.cols| ==> TermsIn(f.value.cols[k], |f.value.order|)
  }

  /** Convert the first quadratic constraint; `f` is what the factorisation returns for it. */
  function Step(w: Work, base: nat, f: Option<Factor>, tol: real): (r: Option<Work>)
    requires Shape(w.m, base) && w.m.quads != [] && tol > 0.0
    ensures r.Some? ==> && Shape(r.value.m, base) && r.value.m.quads == w.m.quads[1..]
                        && w.m.rows <= r.value.m.rows && w.heads <= r.value.heads && w.m.n <= r.value.m.n
  {
    match Classify(Normalize(w.m.quads[0]), tol)
    case Rejected => None
    case ToStandard(head, tails) =>
      if head < w.m.n && HeadOk(w.m, base, head, tol)
      then Some(Work(Fast(w.m, Standard([head] + tails)), w.heads + Saved(w.m, base, head, tol)))
      else None
    case ToRotated(h0, h1, tails, ratio) =>
      if h0 < w.m.n && h1 < w.m.n && HeadOk(w.m, base, h0, tol) && HeadOk(w.m, base, h1, tol)
      then Some(Work(Fast(w.m, Rotated(h0, h1, tails, ratio)),
                     w.heads + (Saved(w.m, base, h0, tol) + Saved(w.m, base, h1, tol))))
      else None
    case ToGeneral =>
      if Usable(f) then Some(Work(General(w.m, Normalize(w.m.quads[0]), f.value, tol), w.heads)) else None
  }

  function ConvertAll(w: Work, base: nat, fs: seq<Option<Factor>>, tol: real): (r: Option<Work>)
    requires Shape(w.m, base) && |fs| == |w.m.quads| && tol > 0.0
    ensures r.Some? ==> Shape(r.value.m, base) && r.value.m.quads == [] && w.m.rows <= r.value.m.rows
                        && w.heads <= r.value.heads
    decreases |fs|
  {
    if w.m.quads == [] then Some(w)
    else
      match Step(w, base, fs[0], tol)
      case None => None
      case Some(v) => ConvertAll(v, base, fs[1..], tol)
  }

  /** The factorisation routine keeps its contract on every constraint sent to it, and coefficients
      are separated by the tolerance. */
  ghost predicate OracleOk(quads: seq<Quad>, fs: seq<Option<Factor>>, tol: real) {
    && |fs| == |quads| && tol > 0.0
    && (forall k :: 0 <= k < |quads| ==> Separated(Normalize(quads[k]), tol))
    && (forall k :: 0 <= k < |quads| && fs[k].Some? && Classify(Normalize(quads[k]), tol).ToGeneral? ==>
          Factors(fs[k].value, Normalize(quads[k]).entries))
  }

  lemma NormalizeIn(q: Quad, n: nat)
    requires QuadIn(q, n)
    ensures QuadIn(Normalize(q), n) && !Normalize(q).greater
  {
    NegatedIn(q, n);
  }

  lemma NegatedIn(q: Quad, n: nat)
    requires QuadIn(q, n)
    ensures EntriesIn(NegatedEntries(q.entries), n) && TermsIn(Negated(q.linear), n)
  {
  }

  /** One conversion extends the model. */
  lemma StepExtends(w: Work, base: nat, fs: seq<Option<Factor>>, tol: real)
    requires Wf(w.m) && Shape(w.m, base) && w.m.quads != [] && OracleOk(w.m.quads, fs, tol)
    requires Step(w, base, fs[0], tol).Some?
    ensures Extends(w.m, Step(w, base, fs[0], tol).value.m)
  {
    var m, q := w.m, Normalize(w.m.quads[0]);
    assert QuadIn(m.quads[0], m.n) && Separated(q, tol);
    NormalizeIn(m.quads[0], m.n);
    var r := Classify(q, tol);
    assert r.ToGeneral? ==> Factors(fs[0].value, q.entries);
    hide Classify, Normalize, Separated, Factors, HeadOk, General, Fast, Extends, Saved;
    match r {
      case ToStandard(_, _) => StandardExtends(m, base, q, r, tol);
      case ToRotated(_, _, _, _) => RotatedExtends(m, base, q, r, tol);
      case ToGeneral =>
        SeparatedTerms(q, tol);
        GeneralExtends(m, fs[0].value, tol);
      case Rejected =>
    }
  }

  lemma SeparatedTerms(q: Quad, tol: real)
    requires Separated(q, tol)
    ensures NoSmallTerms(q, tol)
  {
  }

  lemma OracleRest(quads: seq<Quad>, fs: seq<Option<Factor>>, tol: real)
    requires OracleOk(quads, fs, tol) && quads != []
    ensures OracleOk(quads[1..], fs[1..], tol)
  {
    hide Classify, Normalize, Separated, Factors;
  }

  /** The conversion pass extends the model, and leaves no quadratic constraint. */
  lemma {:induction false} ConvertExtends(w: Work, base: nat, fs: seq<Option<Factor>>, tol: real)
    requires Wf(w.m) && Shape(w.m, base) && OracleOk(w.m.quads, fs, tol) && ConvertAll(w, base, fs, tol).Some?
    ensures Extends(w.m, ConvertAll(w, base, fs, tol).value.m)
    decreases |fs|
  {
    hide Step, Extends;
    if w.m.quads == [] {
      ExtendsSelf(w.m);
    } else {
      var v := Step(w, base, fs[0], tol).value;
      StepExtends(w, base, fs, tol);
      OracleRest(w.m.quads, fs, tol);
      ExtendsWf(w.m, v.m);
      ConvertExtends(v, base, fs[1..], tol);
      ExtendsTransitive(w.m, v.m, ConvertAll(w, base, fs, tol).value.m);
    }
  }

  lemma ExtendsWf(a: Model, b: Model)
    requires Extends(a, b)
    ensures Wf(a) && Wf(b) && a.n <= b.n && b.cost == a.cost + Zeros(b.n - a.n)
  {
  }

  // ------------------------------------------------------------------ pass 2: lifting rotated cones

  /** `hs[c]` is the lift factor sqrt(ratio / 2) of a rotated cone c. */
  ghost predicate RootsOk(cones: seq<Cone>, hs: seq<real>) {
    && |hs| == |cones|
    && forall c :: 0 <= c < |cones| && cones[c].Rotated? ==> hs[c] > 0.0 && 2.0 * (hs[c] * hs[c]) == cones[c].ratio
  }

  function LiftFrom(m: Model, c: nat, hs: seq<real>): (r: Model)
    requires c <= |m.cones| == |hs|
    ensures |r.cones| == |m.cones| && m.rows <= r.rows && r.quads == m.quads && m.n <= r.n
    ensures r.cones[..c] == m.cones[..c]
    ensures forall k :: c <= k < |r.cones| ==> r.cones[k].Standard?
    decreases |m.cones| - c
  {
    if c == |m.cones| then m
    else if m.cones[c].Rotated? then LiftFrom(Lift(m, c, hs[c]), c + 1, hs)
    else LiftFrom(m, c + 1, hs)
  }

  lemma {:induction false} LiftAllExtends(m: Model, c: nat, hs: seq<real>)
    requires Wf(m) && c <= |m.cones| && RootsOk(m.cones, hs)
    ensures Extends(m, LiftFrom(m, c, hs))
    decreases |m.cones| - c
  {
    hide Extends, Wf;
    if c == |m.cones| {
      ExtendsSelf(m);
    } else if m.cones[c].Rotated? {
      LiftExtends(m, c, hs[c]);
      var b := Lift(m, c, hs[c]);
      ExtendsWf(m, b);
      LiftAllExtends(b, c + 1, hs);
      ExtendsTransitive(m, b, LiftFrom(b, c + 1, hs));
    } else {
      LiftAllExtends(m, c + 1, hs);
    }
  }

  // ------------------------------------------------------------------ pass 3: aliasing shared variables

  predicate AllStandard(m: Model) {
    forall c :: 0 <= c < |m.cones| ==> m.cones[c].Standard?
  }

  /** Slots not yet visited when the walk stands at entry i of cone c. */
  function Slots(cones: seq<Cone>, c: nat): nat
    requires forall k :: 0 <= k < |cones| ==> cones[k].Standard?
    decreases |cones| - c
  {
    if c >= |cones| then 0 else |cones[c].vars| + 1 + Slots(cones, c + 1)
  }

  predicate Cursor(m: Model, c: nat, i: nat) {
    AllStandard(m) && (if c < |m.cones| then i <= |m.cones[c].vars| else c == |m.cones| && i == 0)
  }

  function Left(m: Model, c: nat, i: nat): int
    requires Cursor(m, c, i)
  {
    Slots(m.cones, c) - i
  }

  lemma {:induction false} SlotsSame(a: seq<Cone>, b: seq<Cone>, c: nat)
    requires |a| == |b| && forall k :: 0 <= k < |a| ==> a[k].Standard? && b[k].Standard? && |a[k].vars| == |b[k].vars|
    ensures Slots(a, c) == Slots(b, c)
    decreases |a| - c
  {
    if c < |a| { SlotsSame(a, b, c + 1); }
  }

  lemma LinkCursor(m: Model, c: nat, i: nat)
    requires Cursor(m, c, i) && HasSlot(m, c, i)
    ensures Cursor(Link(m, c, i), c, i + 1) && 0 <= Left(m, c, i) && Left(Link(m, c, i), c, i + 1) < Left(m, c, i)
  {
    SlotsSame(m.cones, Link(m, c, i).cones, c);
  }

  /** Walk every slot in order, giving a linked copy to a variable first seen in another cone. */
  function AliasFrom(m: Model, c: nat, i: nat, owner: map<nat, nat>): (r: Model)
    requires Cursor(m, c, i)
    ensures AllStandard(r) && |r.cones| == |m.cones| && m.rows <= r.rows && r.quads == m.quads && m.n <= r.n
    decreases Left(m, c, i), |m.cones| - c
  {
    if c == |m.cones| then m
    else if i == |m.cones[c].vars| then AliasFrom(m, c + 1, 0, owner)
    else
      var v := m.cones[c].vars[i];
      if v !in owner then AliasFrom(m, c, i + 1, owner[v := c])
      else if owner[v] == c then AliasFrom(m, c, i + 1, owner)
      else
        LinkCursor(m, c, i);
        AliasFrom(Link(m, c, i), c, i + 1, owner)
  }

  lemma {:induction false} AliasExtends(m: Model, c: nat, i: nat, owner: map<nat, nat>)
    requires Wf(m) && Cursor(m, c, i)
    ensures Extends(m, AliasFrom(m, c, i, owner))
    decreases Left(m, c, i), |m.cones| - c
  {
    hide Extends, Wf, Link;
    if c == |m.cones| {
      ExtendsSelf(m);
    } else if i == |m.cones[c].vars| {
      AliasExtends(m, c + 1, 0, owner);
    } else {
      var v := m.cones[c].vars[i];
      if v !in owner {
        AliasExtends(m, c, i + 1, owner[v := c]);
      } else if owner[v] == c {
        AliasExtends(m, c, i + 1, owner);
      } else {
        var b := Link(m, c, i);
        LinkExtends(m, c, i);
        ExtendsWf(m, b);
        LinkCursor(m, c, i);
        AliasExtends(b, c, i + 1, owner);
        ExtendsTransitive(m, b, AliasFrom(b, c, i + 1, owner));
      }
    }
  }

  // ------------------------------------------------------------------ pass 4: splitting bounded variables

  /** A column that may stay in the cone block: free, or a head with bounds [0, inf). */
  predicate Stays(m: Model, i: nat, v: nat) {
    v < |m.lower| && v < |m.upper| && m.upper[v] == PosInf && (m.lower[v] == NegInf || (i == 0 && m.lower[v] == Fin(0.0)))
  }

  function SplitFrom(m: Model, c: nat, i: nat): (r: Model)
    requires Cursor(m, c, i)
    ensures AllStandard(r) && |r.cones| == |m.cones| && m.rows <= r.rows && r.quads == m.quads && m.n <= r.n
    decreases Left(m, c, i), |m.cones| - c
  {
    if c == |m.cones| then m
    else if i == |m.cones[c].vars| then SplitFrom(m, c + 1, 0)
    else if Stays(m, i, m.cones[c].vars[i]) then SplitFrom(m, c, i + 1)
    else
      LinkCursor(m, c, i);
      SplitFrom(Link(m, c, i), c, i + 1)
  }

  lemma {:induction false} SplitExtends(m: Model, c: nat, i: nat)
    requires Wf(m) && Cursor(m, c, i)
    ensures Extends(m, SplitFrom(m, c, i))
    decreases Left(m, c, i), |m.cones| - c
  {
    hide Extends, Wf, Link, Stays;
    if c == |m.cones| {
      ExtendsSelf(m);
    } else if i == |m.cones[c].vars| {
      SplitExtends(m, c + 1, 0);
    } else if Stays(m, i, m.cones[c].vars[i]) {
      SplitExtends(m, c, i + 1);
    } else {
      var b := Link(m, c, i);
      LinkExtends(m, c, i);
      ExtendsWf(m, b);
      LinkCursor(m, c, i);
      SplitExtends(b, c, i + 1);
      ExtendsTransitive(m, b, SplitFrom(b, c, i + 1));
    }
  }
}
