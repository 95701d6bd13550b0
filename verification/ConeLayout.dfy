/** Aliasing and bound splitting leave pairwise disjoint cones whose columns are free or heads with
    bounds [0, inf). */
module ConeLayout {
  import opened Extended
  import opened ConeModel
  import opened ConeClassify
  import opened ConeFactor
  import opened ConeGeneral
  import opened ConeConvert
  import opened ConeSteps
  import opened ConePasses

  // ------------------------------------------------------------------ a cone repeats no variable

  ghost predicate OwnDistinct(c: Cone) {
    match c
    case Standard(vars) => Distinct(vars)
    case Rotated(_, _, tails, _) => Distinct(tails)
  }

  ghost predicate AllOwnDistinct(m: Model) {
    forall c :: 0 <= c < |m.cones| ==> OwnDistinct(m.cones[c])
  }

  ghost predicate RowsAscend(s: seq<Entry>) {
    forall i, j :: 0 <= i < j < |s| ==> s[i].0 <= s[j].0
  }

  ghost predicate RowsClimb(s: seq<Entry>) {
    forall i, j :: 0 <= i < j < |s| ==> s[i].0 < s[j].0
  }

  lemma {:induction false} InsertAscends(e: Entry, s: seq<Entry>)
    requires RowsAscend(s)
    ensures RowsAscend(Insert(e, s)) && forall d :: d in Insert(e, s) ==> d == e || d in s
  {
    if s != [] && !Precedes(e, s[0]) {
      InsertAscends(e, s[1..]);
      var t := Insert(e, s[1..]);
      forall k | 0 <= k < |t| ensures s[0].0 <= t[k].0 {
        assert t[k] in t;
        if t[k] != e { assert t[k] in s[1..]; }
      }
    }
  }

  lemma {:induction false} SortAscends(s: seq<Entry>)
    ensures RowsAscend(Sort(s))
  {
    if s != [] {
      SortAscends(s[1..]);
      InsertAscends(s[0], Sort(s[1..]));
    }
  }

  lemma SortClimbs(s: seq<Entry>)
    requires !RepeatedRow(Sort(s))
    ensures RowsClimb(Sort(s))
  {
    SortAscends(s);
    var t := Sort(s);
    forall i, j | 0 <= i < j < |t| ensures t[i].0 < t[j].0 {
      assert t[i].0 <= t[i + 1].0 <= t[j].0;
    }
  }

  lemma {:induction false} SiftClimbs(s: seq<Entry>, k: Kind, tol: real)
    requires RowsClimb(s)
    ensures RowsClimb(Sift(s, k, tol)) && forall d :: d in Sift(s, k, tol) ==> d in s
  {
    if s != [] {
      SiftClimbs(s[1..], k, tol);
      var t := Sift(s[1..], k, tol);
      forall i | 0 <= i < |t| ensures s[0].0 < t[i].0 { assert t[i] in t; }
    }
  }

  lemma ClimbDistinct(s: seq<Entry>)
    requires RowsClimb(s)
    ensures Distinct(Rows(s))
  {
  }

  /** Entries of different kinds lie in different rows. */
  lemma KindsApart(s: seq<Entry>, k: Kind, l: Kind, tol: real)
    requires RowsClimb(s) && k != l
    ensures forall a, b :: a in Sift(s, k, tol) && b in Sift(s, l, tol) ==> a.0 != b.0
  {
    SiftClimbs(s, k, tol);
    SiftClimbs(s, l, tol);
    forall a, b | a in Sift(s, k, tol) && b in Sift(s, l, tol) ensures a.0 != b.0 {
      var i :| 0 <= i < |s| && s[i] == a;
      var j :| 0 <= j < |s| && s[j] == b;
      assert KindOf(a, tol) == k && KindOf(b, tol) == l;
    }
  }

  /** Where the variables of a fast route come from. */
  lemma RouteParts(q: Quad, tol: real)
    requires tol > 0.0 && (Classify(q, tol).ToStandard? || Classify(q, tol).ToRotated?)
    ensures var r, p := Classify(q, tol), PartsOf(q.entries, tol);
            && !p.repeated && r.tails == Rows(p.pos) && (r.ToStandard? ==> |p.neg| == 1 && r.head == p.neg[0].0)
  {
    hide PartsOf, ApproxEq;
  }

  /** The parts of entries without a repeated row lie in different rows. */
  lemma PartsDistinct(entries: seq<Entry>, tol: real)
    requires !PartsOf(entries, tol).repeated
    ensures var p := PartsOf(entries, tol);
            Distinct(Rows(p.pos)) && forall a, b :: a in p.neg && b in p.pos ==> a.0 != b.0
  {
    SortClimbs(entries);
    SiftClimbs(Sort(entries), Positive, tol);
    ClimbDistinct(Sift(Sort(entries), Positive, tol));
    KindsApart(Sort(entries), Negative, Positive, tol);
    hide Sift, Sort;
  }

  /** A fast route names no variable twice inside its cone. */
  lemma RouteDistinct(q: Quad, tol: real)
    requires tol > 0.0
    ensures var r := Classify(q, tol);
            && (r.ToStandard? ==> Distinct([r.head] + r.tails))
            && (r.ToRotated? ==> Distinct(r.tails))
  {
    hide Classify, PartsOf;
    var r, p := Classify(q, tol), PartsOf(q.entries, tol);
    if r.ToStandard? || r.ToRotated? {
      RouteParts(q, tol);
      PartsDistinct(q.entries, tol);
      if r.ToStandard? {
        assert p.neg[0] in p.neg;
        forall i | 0 <= i < |r.tails| ensures r.tails[i] != r.head { assert p.pos[i] in p.pos; }
      }
    }
  }

  lemma StepDistinct(w: Work, base: nat, f: Option<Factor>, tol: real)
    requires Shape(w.m, base) && w.m.quads != [] && tol > 0.0 && AllOwnDistinct(w.m)
    requires Step(w, base, f, tol).Some?
    ensures AllOwnDistinct(Step(w, base, f, tol).value.m)
  {
    RouteDistinct(Normalize(w.m.quads[0]), tol);
    hide Classify, Normalize, HeadOk, Saved;
    var b := Step(w, base, f, tol).value.m;
    forall c | 0 <= c < |b.cones| ensures OwnDistinct(b.cones[c]) {
      if c < |w.m.cones| { assert b.cones[c] == w.m.cones[c]; }
    }
  }

  lemma {:induction false} ConvertDistinct(w: Work, base: nat, fs: seq<Option<Factor>>, tol: real)
    requires Shape(w.m, base) && |fs| == |w.m.quads| && tol > 0.0 && AllOwnDistinct(w.m)
    requires ConvertAll(w, base, fs, tol).Some?
    ensures AllOwnDistinct(ConvertAll(w, base, fs, tol).value.m)
    decreases |fs|
  {
    if w.m.quads != [] {
      StepDistinct(w, base, fs[0], tol);
      hide Step, AllOwnDistinct;
      ConvertDistinct(Step(w, base, fs[0], tol).value, base, fs[1..], tol);
    }
  }

  lemma {:induction false} LiftDistinct(m: Model, c: nat, hs: seq<real>)
    requires Wf(m) && c <= |m.cones| && RootsOk(m.cones, hs) && AllOwnDistinct(m)
    ensures AllOwnDistinct(LiftFrom(m, c, hs))
    decreases |m.cones| - c
  {
    hide Wf;
    if c < |m.cones| {
      if m.cones[c].Rotated? {
        var b := Lift(m, c, hs[c]);
        LiftWf(m, c, hs[c]);
        ConeInAt(m, c);
        assert OwnDistinct(m.cones[c]);
        assert AllOwnDistinct(b);
        LiftDistinct(b, c + 1, hs);
      } else {
        LiftDistinct(m, c + 1, hs);
      }
    }
  }

  lemma ConeInAt(m: Model, c: nat)
    requires Wf(m) && c < |m.cones|
    ensures ConeIn(m.cones[c], m.n)
  {
  }

  // ------------------------------------------------------------------ slots

  predicate Slot(m: Model, d: nat, j: nat) {
    d < |m.cones| && m.cones[d].Standard? && j < |m.cones[d].vars|
  }

  function SlotVar(m: Model, d: nat, j: nat): nat
    requires Slot(m, d, j)
  {
    m.cones[d].vars[j]
  }

  /** Visited by a walk that stands at entry i of cone c. */
  predicate Before(d: nat, j: nat, c: nat, i: nat) {
    d < c || (d == c && j < i)
  }

  /** No two visited slots hold the same variable. */
  ghost predicate Apart(m: Model, c: nat, i: nat) {
    forall d, j, e, k :: Slot(m, d, j) && Slot(m, e, k) && Before(d, j, c, i) && Before(e, k, c, i) && !(d == e && j == k) ==>
      SlotVar(m, d, j) != SlotVar(m, e, k)
  }

  /** Cones pairwise disjoint, none repeating a variable. */
  ghost predicate Disjoint(m: Model) {
    Apart(m, |m.cones|, 0)
  }

  ghost predicate SlotsIn(m: Model, n: nat) {
    forall d, j :: Slot(m, d, j) ==> SlotVar(m, d, j) < n
  }

  /** What aliasing keeps: visited variables are aliases or owned by their cone, the others are
      original; `n0` columns were there at the start. */
  ghost predicate AliasInv(m: Model, c: nat, i: nat, owner: map<nat, nat>, n0: nat) {
    && n0 <= m.n && Apart(m, c, i) && AllOwnDistinct(m) && SlotsIn(m, m.n)
    && (forall d, j :: Slot(m, d, j) && Before(d, j, c, i) ==>
          n0 <= SlotVar(m, d, j) || (SlotVar(m, d, j) in owner && owner[SlotVar(m, d, j)] == d))
    && (forall d, j :: Slot(m, d, j) && !Before(d, j, c, i) ==> SlotVar(m, d, j) < n0)
  }

  lemma SlotAfterLink(m: Model, c: nat, i: nat, d: nat, j: nat)
    requires HasSlot(m, c, i)
    ensures Slot(Link(m, c, i), d, j) == Slot(m, d, j)
    ensures Slot(m, d, j) ==> SlotVar(Link(m, c, i), d, j) == if d == c && j == i then m.n else SlotVar(m, d, j)
  {
  }

  lemma OwnAfterLink(m: Model, c: nat, i: nat)
    requires HasSlot(m, c, i) && AllOwnDistinct(m) && SlotsIn(m, m.n)
    ensures AllOwnDistinct(Link(m, c, i)) && SlotsIn(Link(m, c, i), m.n + 1)
  {
    var b := Link(m, c, i);
    forall d | 0 <= d < |b.cones| ensures OwnDistinct(b.cones[d]) {
      assert OwnDistinct(m.cones[d]);
      if d == c {
        var vars := m.cones[c].vars;
        forall j | 0 <= j < |vars| ensures vars[j] < m.n { assert Slot(m, c, j) && SlotVar(m, c, j) == vars[j]; }
      }
    }
    forall d, j | Slot(b, d, j) ensures SlotVar(b, d, j) < m.n + 1 { SlotAfterLink(m, c, i, d, j); }
  }

  /** Giving slot (c, i) a fresh variable keeps visited slots apart. */
  lemma ApartAfterLink(m: Model, c: nat, i: nat, c': nat, i': nat)
    requires HasSlot(m, c, i) && SlotsIn(m, m.n)
    requires forall d, j, e, k ::
               (Slot(m, d, j) && Slot(m, e, k) && Before(d, j, c', i') && Before(e, k, c', i')
                && !(d == e && j == k) && !(d == c && j == i) && !(e == c && k == i)) ==>
               SlotVar(m, d, j) != SlotVar(m, e, k)
    ensures Apart(Link(m, c, i), c', i')
  {
    var b := Link(m, c, i);
    forall d, j, e, k | Slot(b, d, j) && Slot(b, e, k) && Before(d, j, c', i') && Before(e, k, c', i') && !(d == e && j == k)
      ensures SlotVar(b, d, j) != SlotVar(b, e, k)
    {
      SlotAfterLink(m, c, i, d, j);
      SlotAfterLink(m, c, i, e, k);
    }
  }

  lemma AliasLinkInv(m: Model, c: nat, i: nat, owner: map<nat, nat>, n0: nat)
    requires AliasInv(m, c, i, owner, n0) && HasSlot(m, c, i)
    ensures AliasInv(Link(m, c, i), c, i + 1, owner, n0)
  {
    var b := Link(m, c, i);
    OwnAfterLink(m, c, i);
    assert b.n == m.n + 1;
    forall d, j | Slot(m, d, j) && Before(d, j, c, i + 1) && !(d == c && j == i) ensures Before(d, j, c, i) { }
    ApartAfterLink(m, c, i, c, i + 1);
    forall d, j | Slot(b, d, j)
      ensures Before(d, j, c, i + 1) ==> n0 <= SlotVar(b, d, j) || (SlotVar(b, d, j) in owner && owner[SlotVar(b, d, j)] == d)
      ensures !Before(d, j, c, i + 1) ==> SlotVar(b, d, j) < n0
    {
      SlotAfterLink(m, c, i, d, j);
      hide Link, Apart;
      if d == c && j == i { } else { assert Before(d, j, c, i + 1) == Before(d, j, c, i); }
    }
  }

  /** Visiting a slot that keeps its variable: a variable new to the walk, or one owned by this cone. */
  lemma AliasKeepInv(m: Model, c: nat, i: nat, owner: map<nat, nat>, n0: nat)
    requires AliasInv(m, c, i, owner, n0) && HasSlot(m, c, i)
    requires var v := m.cones[c].vars[i]; v !in owner || owner[v] == c
    ensures AliasInv(m, c, i + 1, owner[m.cones[c].vars[i] := c], n0)
  {
    var v := m.cones[c].vars[i];
    assert Slot(m, c, i) && SlotVar(m, c, i) == v && v < n0;
    forall d: nat, j: nat | Slot(m, d, j) && Before(d, j, c, i) ensures SlotVar(m, d, j) != v {
      if d == c { assert OwnDistinct(m.cones[c]); }
    }
    forall d, j | Before(d, j, c, i + 1) && !(d == c && j == i) ensures Before(d, j, c, i) { }
    ApartKeep(m, c, i);
  }

  lemma ApartKeep(m: Model, c: nat, i: nat)
    requires Apart(m, c, i) && Slot(m, c, i)
    requires forall d, j :: Slot(m, d, j) && Before(d, j, c, i) ==> SlotVar(m, d, j) != SlotVar(m, c, i)
    ensures Apart(m, c, i + 1)
  {
    forall d, j, e, k | Slot(m, d, j) && Slot(m, e, k) && Before(d, j, c, i + 1) && Before(e, k, c, i + 1) && !(d == e && j == k)
      ensures SlotVar(m, d, j) != SlotVar(m, e, k)
    {
      assert (d == c && j == i) || Before(d, j, c, i);
      assert (e == c && k == i) || Before(e, k, c, i);
    }
  }

  lemma NextCone(m: Model, c: nat, d: nat, j: nat)
    requires c < |m.cones| && m.cones[c].Standard? && Slot(m, d, j)
    ensures Before(d, j, c, |m.cones[c].vars|) == Before(d, j, c + 1, 0)
  {
  }

  lemma AliasNextInv(m: Model, c: nat, owner: map<nat, nat>, n0: nat)
    requires c < |m.cones| && m.cones[c].Standard? && AliasInv(m, c, |m.cones[c].vars|, owner, n0)
    ensures AliasInv(m, c + 1, 0, owner, n0)
  {
    forall d, j | Slot(m, d, j) ensures Before(d, j, c, |m.cones[c].vars|) == Before(d, j, c + 1, 0) {
      NextCone(m, c, d, j);
    }
  }

  /** Aliasing makes the cones disjoint. */
  lemma {:induction false} AliasDisjoint(m: Model, c: nat, i: nat, owner: map<nat, nat>, n0: nat)
    requires Cursor(m, c, i) && AliasInv(m, c, i, owner, n0)
    ensures var r := AliasFrom(m, c, i, owner); Disjoint(r) && SlotsIn(r, r.n)
    decreases Left(m, c, i), |m.cones| - c
  {
    hide AliasInv, Link;
    if c == |m.cones| {
      AliasDone(m, owner, n0);
    } else if i == |m.cones[c].vars| {
      AliasNextInv(m, c, owner, n0);
      AliasDisjoint(m, c + 1, 0, owner, n0);
    } else {
      var v := m.cones[c].vars[i];
      if v !in owner || owner[v] == c {
        AliasKeepInv(m, c, i, owner, n0);
        assert owner[v := c] == owner || v !in owner;
        AliasDisjoint(m, c, i + 1, owner[v := c], n0);
      } else {
        AliasLinkInv(m, c, i, owner, n0);
        LinkCursor(m, c, i);
        AliasDisjoint(Link(m, c, i), c, i + 1, owner, n0);
      }
    }
  }

  lemma AliasDone(m: Model, owner: map<nat, nat>, n0: nat)
    requires AliasInv(m, |m.cones|, 0, owner, n0)
    ensures Disjoint(m) && SlotsIn(m, m.n)
  {
  }

  lemma AliasStart(m: Model)
    requires Wf(m) && AllStandard(m) && AllOwnDistinct(m)
    ensures AliasInv(m, 0, 0, map[], m.n)
  {
    forall d, j | Slot(m, d, j) ensures SlotVar(m, d, j) < m.n { ConeInAt(m, d); }
  }

  // ------------------------------------------------------------------ splitting

  ghost predicate SplitInv(m: Model, c: nat, i: nat) {
    && Disjoint(m) && SlotsIn(m, m.n) && |m.lower| == m.n && |m.upper| == m.n
    && (forall d, j :: Slot(m, d, j) && Before(d, j, c, i) ==> Stays(m, j, SlotVar(m, d, j)))
  }

  lemma SplitLinkInv(m: Model, c: nat, i: nat)
    requires SplitInv(m, c, i) && HasSlot(m, c, i)
    ensures SplitInv(Link(m, c, i), c, i + 1)
  {
    var b := Link(m, c, i);
    ApartAfterLink(m, c, i, |m.cones|, 0);
    forall d, j | Slot(b, d, j) ensures SlotVar(b, d, j) < m.n + 1 { SlotAfterLink(m, c, i, d, j); }
    forall d, j | Slot(b, d, j) && Before(d, j, c, i + 1) ensures Stays(b, j, SlotVar(b, d, j)) {
      SlotAfterLink(m, c, i, d, j);
      if d == c && j == i { } else { assert Before(d, j, c, i) && Stays(m, j, SlotVar(m, d, j)); }
    }
  }

  lemma SplitKeepInv(m: Model, c: nat, i: nat)
    requires SplitInv(m, c, i) && HasSlot(m, c, i) && Stays(m, i, m.cones[c].vars[i])
    ensures SplitInv(m, c, i + 1)
  {
    forall d, j | Slot(m, d, j) && Before(d, j, c, i + 1) ensures Stays(m, j, SlotVar(m, d, j)) {
      if d == c && j == i { } else { assert Before(d, j, c, i); }
    }
  }

  lemma SplitNextInv(m: Model, c: nat)
    requires c < |m.cones| && m.cones[c].Standard? && SplitInv(m, c, |m.cones[c].vars|)
    ensures SplitInv(m, c + 1, 0)
  {
    forall d, j | Slot(m, d, j) ensures Before(d, j, c, |m.cones[c].vars|) == Before(d, j, c + 1, 0) {
      NextCone(m, c, d, j);
    }
  }

  /** Splitting keeps the cones disjoint and leaves only columns that may stay. */
  lemma {:induction false} SplitSettles(m: Model, c: nat, i: nat)
    requires Cursor(m, c, i) && SplitInv(m, c, i)
    ensures var r := SplitFrom(m, c, i); SplitInv(r, |r.cones|, 0)
    decreases Left(m, c, i), |m.cones| - c
  {
    hide SplitInv, Link, Stays;
    if c == |m.cones| {
    } else if i == |m.cones[c].vars| {
      SplitNextInv(m, c);
      SplitSettles(m, c + 1, 0);
    } else if Stays(m, i, m.cones[c].vars[i]) {
      SplitKeepInv(m, c, i);
      SplitSettles(m, c, i + 1);
    } else {
      SplitLinkInv(m, c, i);
      LinkCursor(m, c, i);
      SplitSettles(Link(m, c, i), c, i + 1);
    }
  }
}
