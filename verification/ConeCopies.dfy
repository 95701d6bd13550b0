/** What the middle passes leave alone: a cone variable gets a linked copy only where an earlier cone
    holds it or its bounds keep it out of the cone block, cones keep their sizes, and columns keep
    their order within their blocks. */
module ConeCopies {
  import opened Extended
  import opened ConeModel
  import opened ConeClassify
  import opened ConeGeneral
  import opened ConeConvert
  import opened ConeFactor
  import opened ConeSteps
  import opened ConePasses
  import opened ConeLayout
  import opened ConePermute
  import opened ConeTheorem

  // ------------------------------------------------------------------ conversion

  /** A fast step adds nothing but its cone. The general step adds rank + 2 free columns without cost, as
      many equality rows, and the cone over exactly these columns, headed by the last but one. */
  lemma StepAdds(w: Work, base: nat, f: Option<Factor>, tol: real)
    requires Shape(w.m, base) && w.m.quads != [] && tol > 0.0 && Step(w, base, f, tol).Some?
    requires |w.m.upper| == |w.m.cost| == w.m.n
    ensures var a, b := w.m, Step(w, base, f, tol).value.m;
            && a.lower <= b.lower && a.upper <= b.upper && a.cost <= b.cost && a.rows <= b.rows && a.cones <= b.cones
            && |b.lower| == |b.upper| == |b.cost| == b.n && |b.cones| == |a.cones| + 1
            && (!Classify(Normalize(a.quads[0]), tol).ToGeneral? ==> b.n == a.n && b.rows == a.rows)
            && (Classify(Normalize(a.quads[0]), tol).ToGeneral? ==>
                  && f.Some? && b.n == a.n + |f.value.cols| + 2 && |b.rows| == |a.rows| + |f.value.cols| + 2
                  && (forall i :: |a.rows| <= i < |b.rows| ==> b.rows[i].sense == EQ)
                  && (forall j :: a.n <= j < b.n ==> b.lower[j] == NegInf && b.upper[j] == PosInf && b.cost[j] == 0.0)
                  && OverColumns(b.cones[|a.cones|], a.n, |f.value.cols|))
  {
    hide Classify, Normalize, HeadOk, Saved;
  }

  /** The cone headed by column n + r over columns n to n + r + 1. */
  predicate OverColumns(c: Cone, n: nat, r: nat) {
    && c.Standard? && |c.vars| == r + 2 && c.vars[0] == n + r && c.vars[r + 1] == n + r + 1
    && forall k :: 1 <= k <= r ==> c.vars[k] == n + k - 1
  }

  // ------------------------------------------------------------------ lifting

  /** A rotated cone keeps its tails behind two new columns; a standard cone stays as it is. */
  ghost predicate LiftsTo(a: Cone, b: Cone, n: nat) {
    if a.Standard? then b == a
    else b.Standard? && |b.vars| == |a.tails| + 2 && b.vars[2..] == a.tails && n <= b.vars[0] && b.vars[1] == b.vars[0] + 1
  }

  lemma {:induction false} LiftsCones(m: Model, c: nat, hs: seq<real>, d: nat)
    requires c <= |m.cones| == |hs| && c <= d < |m.cones|
    ensures LiftsTo(m.cones[d], LiftFrom(m, c, hs).cones[d], m.n)
    decreases |m.cones| - c
  {
    var r := LiftFrom(m, c, hs);
    if m.cones[c].Rotated? {
      var b := Lift(m, c, hs[c]);
      if d == c {
        assert r.cones[c] == r.cones[..c + 1][c] && b.cones[c] == b.cones[..c + 1][c];
      } else {
        LiftsCones(b, c + 1, hs, d);
      }
    } else if d == c {
      assert r.cones[c] == r.cones[..c + 1][c] && m.cones[c] == m.cones[..c + 1][c];
    } else {
      LiftsCones(m, c + 1, hs, d);
    }
  }

  // ------------------------------------------------------------------ aliasing

  /** Cone d is the first to hold v, as the walk at entry i of cone c knows it. */
  ghost predicate FirstHolder(m: Model, c: nat, i: nat, owner: map<nat, nat>, d: nat, v: nat) {
    if v in owner then owner[v] == d
    else forall e: nat, k: nat :: Slot(m, e, k) && !Before(e, k, c, i) && e < d ==> SlotVar(m, e, k) != v
  }

  /** The slot keeps its variable if `stays`, and holds a new column otherwise. */
  ghost predicate KeptOrCopied(m: Model, r: Model, d: nat, j: nat, stays: bool) {
    && Slot(m, d, j) && Slot(r, d, j)
    && (if stays then SlotVar(r, d, j) == SlotVar(m, d, j) else m.n <= SlotVar(r, d, j))
  }

  lemma HolderStep(m: Model, c: nat, i: nat, owner: map<nat, nat>, d: nat, j: nat)
    requires Slot(m, c, i) && Slot(m, d, j) && !Before(d, j, c, i) && !(d == c && j == i)
    requires SlotVar(m, c, i) !in owner
    ensures FirstHolder(m, c, i, owner, d, SlotVar(m, d, j))
        <==> FirstHolder(m, c, i + 1, owner[SlotVar(m, c, i) := c], d, SlotVar(m, d, j))
  {
    forall e: nat, k: nat | Slot(m, e, k) && !(e == c && k == i) ensures Before(e, k, c, i + 1) == Before(e, k, c, i) { }
  }

  lemma HolderSame(m: Model, b: Model, c: nat, i: nat, owner: map<nat, nat>, d: nat, v: nat)
    requires Slot(m, c, i) && SlotVar(m, c, i) in owner
    requires forall e: nat, k: nat :: Slot(b, e, k) == Slot(m, e, k)
    requires forall e: nat, k: nat :: Slot(m, e, k) && !(e == c && k == i) ==> SlotVar(b, e, k) == SlotVar(m, e, k)
    ensures FirstHolder(m, c, i, owner, d, v) <==> FirstHolder(b, c, i + 1, owner, d, v)
  {
    forall e: nat, k: nat | Slot(m, e, k) && !(e == c && k == i) ensures Before(e, k, c, i + 1) == Before(e, k, c, i) { }
  }

  lemma HolderNext(m: Model, c: nat, owner: map<nat, nat>, d: nat, v: nat)
    requires c < |m.cones| && m.cones[c].Standard?
    ensures FirstHolder(m, c, |m.cones[c].vars|, owner, d, v) <==> FirstHolder(m, c + 1, 0, owner, d, v)
  {
    forall e: nat, k: nat | Slot(m, e, k) ensures Before(e, k, c, |m.cones[c].vars|) == Before(e, k, c + 1, 0) { NextCone(m, c, e, k); }
  }

  lemma LinkSlots(m: Model, c: nat, i: nat)
    requires HasSlot(m, c, i)
    ensures forall e: nat, k: nat :: Slot(Link(m, c, i), e, k) == Slot(m, e, k)
    ensures forall e: nat, k: nat :: Slot(m, e, k) ==> SlotVar(Link(m, c, i), e, k) == if e == c && k == i then m.n else SlotVar(m, e, k)
  {
    forall e: nat, k: nat ensures Slot(Link(m, c, i), e, k) == Slot(m, e, k) { SlotAfterLink(m, c, i, e, k); }
    forall e: nat, k: nat | Slot(m, e, k) ensures SlotVar(Link(m, c, i), e, k) == if e == c && k == i then m.n else SlotVar(m, e, k) {
      SlotAfterLink(m, c, i, e, k);
    }
  }

  /** A visited slot stays; one still ahead keeps its variable exactly in the first cone that holds it. */
  lemma {:induction false} AliasSlots(m: Model, c: nat, i: nat, owner: map<nat, nat>, d: nat, j: nat)
    requires Cursor(m, c, i) && Slot(m, d, j)
    ensures KeptOrCopied(m, AliasFrom(m, c, i, owner), d, j,
                         Before(d, j, c, i) || FirstHolder(m, c, i, owner, d, SlotVar(m, d, j)))
    decreases Left(m, c, i), |m.cones| - c
  {
    hide FirstHolder, Link;
    if c < |m.cones| {
      if i == |m.cones[c].vars| {
        NextCone(m, c, d, j);
        HolderNext(m, c, owner, d, SlotVar(m, d, j));
        AliasSlots(m, c + 1, 0, owner, d, j);
      } else {
        AliasSlot(m, c, i, owner, d, j);
      }
    }
  }

  lemma {:induction false} AliasSlot(m: Model, c: nat, i: nat, owner: map<nat, nat>, d: nat, j: nat)
    requires Cursor(m, c, i) && Slot(m, d, j) && c < |m.cones| && i < |m.cones[c].vars|
    ensures KeptOrCopied(m, AliasFrom(m, c, i, owner), d, j,
                         Before(d, j, c, i) || FirstHolder(m, c, i, owner, d, SlotVar(m, d, j)))
    decreases Left(m, c, i), |m.cones| - c, 0
  {
    var v := m.cones[c].vars[i];
    AtCursor(m, c, i, owner, d, j);
    if v !in owner {
      AliasSlots(m, c, i + 1, owner[v := c], d, j);
      if !Before(d, j, c, i) && !(d == c && j == i) { HolderStep(m, c, i, owner, d, j); }
    } else if owner[v] == c {
      AliasSlots(m, c, i + 1, owner, d, j);
      HolderSame(m, m, c, i, owner, d, SlotVar(m, d, j));
    } else {
      LinkCursor(m, c, i);
      LinkSlots(m, c, i);
      AliasSlots(Link(m, c, i), c, i + 1, owner, d, j);
      HolderSame(m, Link(m, c, i), c, i, owner, d, SlotVar(m, d, j));
      assert Link(m, c, i).n == m.n + 1;
    }
    hide FirstHolder, Link;
  }

  /** What the walk knows of the slot it stands at. */
  lemma AtCursor(m: Model, c: nat, i: nat, owner: map<nat, nat>, d: nat, j: nat)
    requires Slot(m, c, i) && Slot(m, d, j)
    ensures d == c && j == i ==>
              (FirstHolder(m, c, i, owner, d, SlotVar(m, d, j)) <==> (SlotVar(m, c, i) !in owner || owner[SlotVar(m, c, i)] == c))
    ensures Before(d, j, c, i + 1) <==> Before(d, j, c, i) || (d == c && j == i)
  {
  }

  ghost predicate HeldEarlier(m: Model, d: nat, v: nat) {
    exists e: nat, k: nat :: Slot(m, e, k) && e < d && SlotVar(m, e, k) == v
  }

  /** Aliasing copies a variable exactly where an earlier cone already holds it. */
  lemma AliasedSlots(m: Model, d: nat, j: nat)
    requires AllStandard(m) && Slot(m, d, j)
    ensures KeptOrCopied(m, Aliased(m), d, j, !HeldEarlier(m, d, SlotVar(m, d, j)))
  {
    AliasSlots(m, 0, 0, map[], d, j);
    assert FirstHolder(m, 0, 0, map[], d, SlotVar(m, d, j)) <==> !HeldEarlier(m, d, SlotVar(m, d, j));
  }

  // ------------------------------------------------------------------ splitting

  lemma StaysSame(m: Model, c: nat, i: nat, j: nat, v: nat)
    requires HasSlot(m, c, i) && v < |m.lower| && v < |m.upper|
    ensures Stays(Link(m, c, i), j, v) == Stays(m, j, v)
  {
  }

  /** A visited slot stays; one still ahead keeps its variable exactly where that may stay. */
  lemma {:induction false} SplitSlots(m: Model, c: nat, i: nat, d: nat, j: nat)
    requires Cursor(m, c, i) && Slot(m, d, j) && |m.lower| == |m.upper| == m.n && SlotVar(m, d, j) < m.n
    ensures KeptOrCopied(m, SplitFrom(m, c, i), d, j, Before(d, j, c, i) || Stays(m, j, SlotVar(m, d, j)))
    decreases Left(m, c, i), |m.cones| - c
  {
    hide Stays, Link;
    if c < |m.cones| {
      if i == |m.cones[c].vars| {
        NextCone(m, c, d, j);
        SplitSlots(m, c + 1, 0, d, j);
      } else if Stays(m, i, m.cones[c].vars[i]) {
        SplitSlots(m, c, i + 1, d, j);
      } else {
        SplitSlot(m, c, i, d, j);
      }
    }
  }

  lemma {:induction false} SplitSlot(m: Model, c: nat, i: nat, d: nat, j: nat)
    requires Cursor(m, c, i) && Slot(m, d, j) && |m.lower| == |m.upper| == m.n && SlotVar(m, d, j) < m.n
    requires c < |m.cones| && i < |m.cones[c].vars| && !Stays(m, i, m.cones[c].vars[i])
    ensures KeptOrCopied(m, SplitFrom(m, c, i), d, j, Before(d, j, c, i) || Stays(m, j, SlotVar(m, d, j)))
    decreases Left(m, c, i), |m.cones| - c, 0
  {
    LinkCursor(m, c, i);
    LinkSlots(m, c, i);
    StaysSame(m, c, i, j, SlotVar(m, d, j));
    var b := Link(m, c, i);
    assert b.n == m.n + 1 && |b.lower| == b.n && |b.upper| == b.n;
    hide Stays, Link;
    SplitSlots(b, c, i + 1, d, j);
  }

  /** Splitting leaves an entry alone exactly where its variable is free, or is a head with bounds [0, inf). */
  lemma SettledSlots(m: Model, d: nat, j: nat)
    requires AllStandard(m) && Slot(m, d, j) && |m.lower| == |m.upper| == m.n && SlotVar(m, d, j) < m.n
    ensures var lo, hi := m.lower[SlotVar(m, d, j)], m.upper[SlotVar(m, d, j)];
            KeptOrCopied(m, SplitFrom(m, 0, 0), d, j, (lo == NegInf && hi == PosInf) || (j == 0 && lo == Fin(0.0) && hi == PosInf))
  {
    SplitSlots(m, 0, 0, d, j);
  }

  // ------------------------------------------------------------------ sizes and order

  lemma {:induction false} AliasWidths(m: Model, c: nat, i: nat, owner: map<nat, nat>, d: nat)
    requires Cursor(m, c, i) && d < |m.cones|
    ensures |AliasFrom(m, c, i, owner).cones[d].vars| == |m.cones[d].vars|
    decreases Left(m, c, i), |m.cones| - c
  {
    if c < |m.cones| {
      if i == |m.cones[c].vars| {
        AliasWidths(m, c + 1, 0, owner, d);
      } else {
        var v := m.cones[c].vars[i];
        if v !in owner {
          AliasWidths(m, c, i + 1, owner[v := c], d);
        } else if owner[v] == c {
          AliasWidths(m, c, i + 1, owner, d);
        } else {
          LinkCursor(m, c, i);
          AliasWidths(Link(m, c, i), c, i + 1, owner, d);
        }
      }
    }
  }

  lemma {:induction false} SplitWidths(m: Model, c: nat, i: nat, d: nat)
    requires Cursor(m, c, i) && d < |m.cones|
    ensures |SplitFrom(m, c, i).cones[d].vars| == |m.cones[d].vars|
    decreases Left(m, c, i), |m.cones| - c
  {
    hide Stays;
    if c < |m.cones| {
      if i == |m.cones[c].vars| {
        SplitWidths(m, c + 1, 0, d);
      } else if Stays(m, i, m.cones[c].vars[i]) {
        SplitWidths(m, c, i + 1, d);
      } else {
        LinkCursor(m, c, i);
        SplitWidths(Link(m, c, i), c, i + 1, d);
      }
    }
  }

  function Width(c: Cone): nat {
    match c
    case Standard(vars) => |vars|
    case Rotated(_, _, tails, _) => |tails| + 2
  }

  /** The barrier gets one cone for each constraint, with as many entries as the constraint's cone has
      variables. */
  lemma ExpandedDims(m: Model, fs: seq<Option<Factor>>, hs: seq<real>, tol: real, k: nat)
    requires Input(m, fs, hs, tol) && Expand(m, fs, hs, tol).Some? && k < |Converted(m, fs, tol).value.m.cones|
    ensures |Expand(m, fs, hs, tol).value.dims| == |Converted(m, fs, tol).value.m.cones|
    ensures Expand(m, fs, hs, tol).value.dims[k] == Width(Converted(m, fs, tol).value.m.cones[k])
  {
    ConvertedFacts(m, fs, hs, tol);
    var w := Converted(m, fs, tol).value.m;
    RootCount(m, fs, hs, tol);
    hide Input, Extends, Converted, Placeable, Wf;
    LiftsCones(w, 0, hs, k);
    AliasWidths(Lifted(w, hs), 0, 0, map[], k);
    SplitWidths(Aliased(Lifted(w, hs)), 0, 0, k);
  }

  lemma RootCount(m: Model, fs: seq<Option<Factor>>, hs: seq<real>, tol: real)
    requires Input(m, fs, hs, tol) && Converted(m, fs, tol).Some?
    ensures |hs| == |Converted(m, fs, tol).value.m.cones|
  {
  }

  /** The new layout lists the columns outside every cone in their old order, then cone after cone the
      variables of each in theirs. */
  lemma OrderKept(m: Model, c: nat, i: nat)
    requires AllStandard(m) && c < |m.cones| && i < |m.cones[c].vars|
    ensures var f := Flat(m.cones, |m.cones|);
            var w, start := NewToOld(m.cones, m.n), |Linear(f, m.n)|;
            && (forall a, b :: 0 <= a < b < start ==> w[a] < w[b])
            && (forall a :: 0 <= a < start ==> w[a] < m.n && w[a] !in f)
            && start + |Flat(m.cones, c)| + i < |w| && w[start + |Flat(m.cones, c)| + i] == m.cones[c].vars[i]
  {
    LinearLists(Flat(m.cones, |m.cones|), m.n);
    FlatAt(m.cones, c, i);
  }
}
