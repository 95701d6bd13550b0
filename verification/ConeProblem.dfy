/** The expansion as it runs: a problem whose rows, columns and cones grow in place. */
module ConeProblem {
  import opened Extended
  import opened Reals
  import opened ConeModel
  import opened ConeClassify
  import opened ConeFactor
  import opened ConeGeneral
  import opened ConeConvert
  import opened ConeSteps
  import opened ConePasses
  import opened ConeLayout
  import opened ConePermute
  import opened ConeTheorem

  // ------------------------------------------------------------------ collected copies

  function CopyRow(original: nat, copy: nat): Row {
    Row([(original, -1.0), (copy, 1.0)], EQ, 0.0)
  }

  function CopyRows(originals: seq<nat>, n: nat): (r: seq<Row>)
    ensures |r| == |originals| && forall k :: 0 <= k < |r| ==> r[k] == CopyRow(originals[k], n + k)
  {
    seq(|originals|, k requires 0 <= k < |originals| => CopyRow(originals[k], n + k))
  }

  /** The model once the collected copies get their columns and rows; the cones name them already. */
  function Pending(m: Model, originals: seq<nat>): Model {
    m.(n := m.n + |originals|, rows := m.rows + CopyRows(originals, m.n),
       lower := m.lower + Free(NegInf, |originals|), upper := m.upper + Free(PosInf, |originals|),
       cost := m.cost + Zeros(|originals|))
  }

  lemma PendingNone(m: Model)
    ensures Pending(m, []) == m
  {
    assert Pending(m, []).rows == m.rows && Pending(m, []).lower == m.lower && Pending(m, []).upper == m.upper;
    assert Pending(m, []).cost == m.cost;
  }

  /** Slot (c, i) names the next copy. */
  function Renamed(m: Model, originals: seq<nat>, c: nat, i: nat): Model
    requires HasSlot(m, c, i)
  {
    m.(cones := m.cones[c := Standard(m.cones[c].vars[i := m.n + |originals|])])
  }

  /** Collecting one more copy is one more linked column. */
  lemma PendingLink(m: Model, originals: seq<nat>, c: nat, i: nat)
    requires HasSlot(m, c, i)
    ensures Link(Pending(m, originals), c, i) == Pending(Renamed(m, originals, c, i), originals + [m.cones[c].vars[i]])
  {
    var v, k := m.cones[c].vars[i], |originals|;
    var more := originals + [v];
    assert CopyRows(more, m.n) == CopyRows(originals, m.n) + [CopyRow(v, m.n + k)];
    assert Free(NegInf, k + 1) == Free(NegInf, k) + [NegInf];
    assert Free(PosInf, k + 1) == Free(PosInf, k) + [PosInf];
    assert Zeros(k + 1) == Zeros(k) + [0.0];
    var b, p := Link(Pending(m, originals), c, i), Pending(Renamed(m, originals, c, i), more);
    assert b.rows == p.rows && b.lower == p.lower && b.upper == p.upper && b.cost == p.cost;
  }

  lemma PendingStays(m: Model, originals: seq<nat>, i: nat, v: nat)
    requires v < m.n == |m.lower| == |m.upper|
    ensures Stays(Pending(m, originals), i, v) == Stays(m, i, v)
  {
  }

  /** The owner table as an array: -1 for a variable not seen yet. */
  ghost predicate Owners(table: seq<int>, owner: map<nat, nat>) {
    forall v: nat :: v < |table| ==> table[v] == if v in owner then owner[v] else -1
  }

  /** Slots a walk has not reached name columns below n. */
  ghost predicate AheadIn(cones: seq<Cone>, c: nat, i: nat, n: nat) {
    forall d, j :: c <= d < |cones| && cones[d].Standard? && 0 <= j < |cones[d].vars| && (d == c ==> i <= j) ==> cones[d].vars[j] < n
  }

  /** One visit of the aliasing walk, with its copies still to be appended. */
  lemma AliasVisit(m: Model, originals: seq<nat>, c: nat, i: nat, owner: map<nat, nat>)
    requires HasSlot(m, c, i) && Cursor(Pending(m, originals), c, i)
    ensures var v, p, more := m.cones[c].vars[i], Pending(m, originals), originals + [m.cones[c].vars[i]];
            if v !in owner || owner[v] == c then
              Cursor(p, c, i + 1) && AliasFrom(p, c, i, owner) == AliasFrom(p, c, i + 1, owner[v := c])
            else
              && Cursor(Pending(Renamed(m, originals, c, i), more), c, i + 1)
              && AliasFrom(p, c, i, owner) == AliasFrom(Pending(Renamed(m, originals, c, i), more), c, i + 1, owner)
  {
    var v, p := m.cones[c].vars[i], Pending(m, originals);
    if v in owner && owner[v] == c { assert owner[v := c] == owner; }
    PendingLink(m, originals, c, i);
    LinkCursor(p, c, i);
  }

  lemma SplitVisit(m: Model, originals: seq<nat>, c: nat, i: nat)
    requires HasSlot(m, c, i) && Cursor(Pending(m, originals), c, i) && m.cones[c].vars[i] < m.n == |m.lower| == |m.upper|
    ensures var v, p, more := m.cones[c].vars[i], Pending(m, originals), originals + [m.cones[c].vars[i]];
            if Stays(m, i, v) then
              Cursor(p, c, i + 1) && SplitFrom(p, c, i) == SplitFrom(p, c, i + 1)
            else
              && Cursor(Pending(Renamed(m, originals, c, i), more), c, i + 1)
              && SplitFrom(p, c, i) == SplitFrom(Pending(Renamed(m, originals, c, i), more), c, i + 1)
  {
    PendingStays(m, originals, i, m.cones[c].vars[i]);
    PendingLink(m, originals, c, i);
    LinkCursor(Pending(m, originals), c, i);
  }

  /** After its last entry the walk moves to the next cone, and after the last cone it stops. */
  lemma WalkNext(m: Model, originals: seq<nat>, c: nat, owner: map<nat, nat>)
    requires c < |m.cones| && m.cones[c].Standard? && Cursor(Pending(m, originals), c, |m.cones[c].vars|)
    ensures var p, i := Pending(m, originals), |m.cones[c].vars|;
            && Cursor(p, c + 1, 0) && AliasFrom(p, c, i, owner) == AliasFrom(p, c + 1, 0, owner)
            && SplitFrom(p, c, i) == SplitFrom(p, c + 1, 0)
  {
  }

  lemma WalkEnd(m: Model, originals: seq<nat>, owner: map<nat, nat>)
    requires Cursor(Pending(m, originals), |m.cones|, 0)
    ensures AliasFrom(Pending(m, originals), |m.cones|, 0, owner) == Pending(m, originals)
    ensures SplitFrom(Pending(m, originals), |m.cones|, 0) == Pending(m, originals)
  {
  }

  lemma AheadNext(cones: seq<Cone>, c: nat, i: nat, n: nat, a: nat)
    requires AheadIn(cones, c, i, n) && c < |cones| && cones[c].Standard? && i <= |cones[c].vars|
    ensures i < |cones[c].vars| ==> cones[c].vars[i] < n && AheadIn(cones, c, i + 1, n)
    ensures i < |cones[c].vars| ==> AheadIn(cones[c := Standard(cones[c].vars[i := a])], c, i + 1, n)
    ensures i == |cones[c].vars| ==> AheadIn(cones, c + 1, 0, n)
  {
  }

  /** Where the aliasing walk stands: finishing it from here gives `goal`. */
  ghost predicate AliasAt(m: Model, originals: seq<nat>, c: nat, i: nat, owner: map<nat, nat>, table: seq<int>, goal: Model) {
    && AllStandard(m) && |table| == m.n && Owners(table, owner) && AheadIn(m.cones, c, i, m.n)
    && Cursor(Pending(m, originals), c, i) && AliasFrom(Pending(m, originals), c, i, owner) == goal
  }

  lemma AliasAtVisit(m: Model, originals: seq<nat>, c: nat, i: nat, owner: map<nat, nat>, table: seq<int>, goal: Model)
    requires AliasAt(m, originals, c, i, owner, table, goal) && HasSlot(m, c, i)
    ensures var v := m.cones[c].vars[i];
            && v < |table|
            && (table[v] == -1 ==> AliasAt(m, originals, c, i + 1, owner[v := c], table[v := c], goal))
            && (table[v] == c ==> AliasAt(m, originals, c, i + 1, owner, table, goal))
            && (table[v] != -1 && table[v] != c ==>
                  AliasAt(Renamed(m, originals, c, i), originals + [v], c, i + 1, owner, table, goal))
  {
    var v := m.cones[c].vars[i];
    AliasVisit(m, originals, c, i, owner);
    AheadNext(m.cones, c, i, m.n, m.n + |originals|);
    if v in owner && owner[v] == c { assert owner[v := c] == owner; }
    hide Pending, AliasFrom, Cursor, AheadIn;
  }

  lemma AliasAtNext(m: Model, originals: seq<nat>, c: nat, owner: map<nat, nat>, table: seq<int>, goal: Model)
    requires c < |m.cones| && m.cones[c].Standard? && AliasAt(m, originals, c, |m.cones[c].vars|, owner, table, goal)
    ensures AliasAt(m, originals, c + 1, 0, owner, table, goal)
  {
    WalkNext(m, originals, c, owner);
    AheadNext(m.cones, c, |m.cones[c].vars|, m.n, 0);
    hide Pending, AliasFrom, Cursor, AheadIn;
  }

  ghost predicate SplitAt(m: Model, originals: seq<nat>, c: nat, i: nat, goal: Model) {
    && AllStandard(m) && m.n == |m.lower| == |m.upper| && AheadIn(m.cones, c, i, m.n)
    && Cursor(Pending(m, originals), c, i) && SplitFrom(Pending(m, originals), c, i) == goal
  }

  lemma SplitAtVisit(m: Model, originals: seq<nat>, c: nat, i: nat, goal: Model)
    requires SplitAt(m, originals, c, i, goal) && HasSlot(m, c, i)
    ensures var v := m.cones[c].vars[i];
            && v < m.n == |m.lower| == |m.upper|
            && (if Stays(m, i, v) then SplitAt(m, originals, c, i + 1, goal)
                else SplitAt(Renamed(m, originals, c, i), originals + [v], c, i + 1, goal))
  {
    AheadNext(m.cones, c, i, m.n, m.n + |originals|);
    SplitVisit(m, originals, c, i);
    hide Pending, SplitFrom, Cursor, AheadIn, Stays;
  }

  lemma SplitAtNext(m: Model, originals: seq<nat>, c: nat, goal: Model)
    requires c < |m.cones| && m.cones[c].Standard? && SplitAt(m, originals, c, |m.cones[c].vars|, goal)
    ensures SplitAt(m, originals, c + 1, 0, goal)
  {
    WalkNext(m, originals, c, map[]);
    AheadNext(m.cones, c, |m.cones[c].vars|, m.n, 0);
    hide Pending, SplitFrom, Cursor, AheadIn;
  }

  lemma AliasAtEnd(m: Model, originals: seq<nat>, owner: map<nat, nat>, table: seq<int>, goal: Model)
    requires AliasAt(m, originals, |m.cones|, 0, owner, table, goal)
    ensures goal == Pending(m, originals)
  {
    WalkEnd(m, originals, owner);
  }

  lemma SplitAtEnd(m: Model, originals: seq<nat>, goal: Model)
    requires SplitAt(m, originals, |m.cones|, 0, goal)
    ensures goal == Pending(m, originals)
  {
    WalkEnd(m, originals, map[]);
  }

  /** Tables filled from the first k rows. */
  ghost predicate ImpliedTables(rows: seq<Row>, k: nat, tol: real, implied: seq<Ext>, marks: seq<Marks>, n: nat) {
    && |implied| == |marks| == n && k <= |rows|
    && forall j :: 0 <= j < n ==> marks[j] == ImpliedRows(rows, k, j, tol) && implied[j] == ImpliedLower(ImpliedRows(rows, k, j, tol), Rhs(rows))
  }

  /** A row that bounds no column below leaves the tables alone, one that does changes one entry. */
  lemma ImpliedVisit(rows: seq<Row>, k: nat, tol: real, implied: seq<Ext>, marks: seq<Marks>, n: nat)
    requires ImpliedTables(rows, k, tol, implied, marks, n) && k < |rows| && tol > 0.0 && TermsIn(rows[k].terms, n)
    ensures (forall j :: 0 <= j < n ==> !BoundsBelow(rows[k], j, tol)) ==> ImpliedTables(rows, k + 1, tol, implied, marks, n)
    ensures |rows[k].terms| == 1 && BoundsBelow(rows[k], rows[k].terms[0].0, tol) ==>
              var j, a := rows[k].terms[0].0, rows[k].terms[0].1;
              j < n && a != 0.0 &&
              ImpliedTables(rows, k + 1, tol, implied[j := Max(implied[j], Fin(rows[k].rhs / a))], marks[j := marks[j] + [(k, a)]], n)
  {
    forall j: nat | j < n && !BoundsBelow(rows[k], j, tol) ensures ImpliedRows(rows, k + 1, j, tol) == ImpliedRows(rows, k, j, tol) { }
    if |rows[k].terms| == 1 && BoundsBelow(rows[k], rows[k].terms[0].0, tol) {
      var j, a := rows[k].terms[0].0, rows[k].terms[0].1;
      var s := ImpliedRows(rows, k, j, tol);
      assert ImpliedRows(rows, k + 1, j, tol) == s + [(k, a)];
      assert (s + [(k, a)])[..|s|] == s;
    }
  }

  /** Read one row into the tables. */
  method VisitRow(rows: seq<Row>, i: nat, tol: real, implied: array<Ext>, marks: array<Marks>, n: nat)
    requires i < |rows| && tol > 0.0 && TermsIn(rows[i].terms, n) && ImpliedTables(rows, i, tol, implied[..], marks[..], n)
    modifies implied, marks
    ensures ImpliedTables(rows, i + 1, tol, implied[..], marks[..], n)
  {
    ImpliedVisit(rows, i, tol, implied[..], marks[..], n);
    assert implied.Length == n == marks.Length;
    hide ImpliedTables;
    var row := rows[i];
    if |row.terms| == 1 {
      var j, a := row.terms[0].0, row.terms[0].1;
      if Abs(a) >= tol && ((row.sense == GE && a > 0.0) || (row.sense == LE && a < 0.0)) {
        implied[j] := Max(implied[j], Fin(row.rhs / a));
        marks[j] := marks[j] + [(i, a)];
      }
    }
  }

  // ------------------------------------------------------------------ converting one constraint

  lemma HeadTables(m: Model, original: seq<Row>, j: nat, tol: real, implied: seq<Ext>, marks: seq<Marks>, n: nat)
    requires ImpliedTables(original, |original|, tol, implied, marks, n) && j < n && n <= m.n == |m.lower| && original <= m.rows
    ensures Shape(m, |original|)
    ensures HeadOk(m, |original|, j, tol) == Le(Fin(0.0), Max(m.lower[j], implied[j]))
    ensures Saved(m, |original|, j, tol) == if Le(Fin(0.0), m.lower[j]) then [] else [HeadBound(j, marks[j])]
  {
    ImpliedRowsPrefix(original, m.rows, |original|, j, tol);
    ImpliedLowerSame(marks[j], Rhs(m.rows), Rhs(original));
  }

  /** What testing a list of heads records. */
  function Recorded(m: Model, base: nat, tested: seq<nat>, tol: real): seq<HeadBound>
    requires Shape(m, base) && VarsIn(tested, m.n)
  {
    if tested == [] then []
    else Recorded(m, base, tested[..|tested| - 1], tol) + Saved(m, base, tested[|tested| - 1], tol)
  }

  lemma RecordedNext(m: Model, base: nat, tested: seq<nat>, k: nat, tol: real)
    requires Shape(m, base) && VarsIn(tested, m.n) && k < |tested|
    ensures Recorded(m, base, tested[..k + 1], tol) == Recorded(m, base, tested[..k], tol) + Saved(m, base, tested[k], tol)
  {
    assert tested[..k + 1][..k] == tested[..k];
  }

  /** A fast step in terms of the heads it tests. */
  function FastStep(w: Work, base: nat, cone: Cone, tested: seq<nat>, tol: real): Option<Work>
    requires Shape(w.m, base) && w.m.quads != [] && VarsIn(tested, w.m.n)
  {
    if forall k :: 0 <= k < |tested| ==> HeadOk(w.m, base, tested[k], tol)
    then Some(Work(Fast(w.m, cone), w.heads + Recorded(w.m, base, tested, tol)))
    else None
  }

  lemma StepIsFast(w: Work, base: nat, f: Option<Factor>, tol: real, r: Route)
    requires Shape(w.m, base) && w.m.quads != [] && tol > 0.0 && r == Classify(Normalize(w.m.quads[0]), tol)
    ensures r.ToStandard? && r.head < w.m.n ==>
              Step(w, base, f, tol) == FastStep(w, base, Standard([r.head] + r.tails), [r.head], tol)
    ensures r.ToRotated? && r.h0 < w.m.n && r.h1 < w.m.n ==>
              Step(w, base, f, tol) == FastStep(w, base, Rotated(r.h0, r.h1, r.tails, r.ratio), [r.h0, r.h1], tol)
  {
    hide Classify, Normalize, HeadOk, Saved, Fast, General;
    if r.ToStandard? && r.head < w.m.n {
      var t := [r.head];
      assert t[0] == r.head && VarsIn(t, w.m.n);
      RecordedNext(w.m, base, t, 0, tol);
      assert t[..1] == t && Recorded(w.m, base, t, tol) == Saved(w.m, base, r.head, tol);
    }
    if r.ToRotated? && r.h0 < w.m.n && r.h1 < w.m.n {
      var t := [r.h0, r.h1];
      assert t[0] == r.h0 && t[1] == r.h1 && VarsIn(t, w.m.n);
      RecordedNext(w.m, base, t, 0, tol);
      RecordedNext(w.m, base, t, 1, tol);
      assert t[..2] == t && Recorded(w.m, base, t, tol) == Saved(w.m, base, r.h0, tol) + Saved(w.m, base, r.h1, tol);
    }
  }

  /** Where the conversion loop stands: converting what is left gives `goal`. */
  ghost predicate ConvertAt(w: Work, start: Model, left: seq<Option<Factor>>, tol: real, goal: Option<Work>) {
    && tol > 0.0 && Shape(w.m, |start.rows|) && start.rows <= w.m.rows && start.n <= w.m.n && |left| == |w.m.quads|
    && (forall k :: 0 <= k < |w.m.quads| ==> QuadIn(w.m.quads[k], start.n))
    && ConvertAll(w, |start.rows|, left, tol) == goal
  }

  lemma ConvertAtStep(w: Work, start: Model, left: seq<Option<Factor>>, tol: real, goal: Option<Work>)
    requires ConvertAt(w, start, left, tol, goal) && left != []
    ensures w.m.quads != [] && Shape(w.m, |start.rows|) && start.rows <= w.m.rows && start.n <= w.m.n && QuadIn(w.m.quads[0], start.n)
    ensures match Step(w, |start.rows|, left[0], tol)
            case None => goal == None
            case Some(v) => ConvertAt(v, start, left[1..], tol, goal)
  {
    hide Step;
  }

  lemma ConvertAtEnd(w: Work, start: Model, left: seq<Option<Factor>>, tol: real, goal: Option<Work>)
    requires ConvertAt(w, start, left, tol, goal) && left == []
    ensures goal == Some(w)
  {
  }

  class Problem {
    var n: nat
    var rows: seq<Row>
    var lower: seq<Ext>
    var upper: seq<Ext>
    var cost: seq<real>
    var cones: seq<Cone>
    var quads: seq<Quad>
    var heads: seq<HeadBound>

    constructor (m: Model)
      ensures View() == m && heads == []
    {
      n, rows, lower, upper, cost := m.n, m.rows, m.lower, m.upper, m.cost;
      cones, quads, heads := m.cones, m.quads, [];
    }

    function View(): Model
      reads this
    {
      Model(n, rows, lower, upper, cost, cones, quads)
    }

    /** Lower bounds implied by singleton rows, and the rows they come from, for every column. */
    method ComputeImplied(tol: real) returns (implied: array<Ext>, marks: array<Marks>)
      requires Wf(View()) && tol > 0.0
      ensures fresh(implied) && fresh(marks) && ImpliedTables(rows, |rows|, tol, implied[..], marks[..], n)
    {
      implied := new Ext[n](_ => NegInf);
      marks := new Marks[n](_ => []);
      var i := 0;
      assert ImpliedTables(rows, 0, tol, implied[..], marks[..], n);
      hide ImpliedTables;
      while i < |rows|
        invariant i <= |rows| && fresh(implied) && fresh(marks)
        invariant implied.Length == n == marks.Length && ImpliedTables(rows, i, tol, implied[..], marks[..], n)
      {
        VisitRow(rows, i, tol, implied, marks, n);
        i := i + 1;
      }
    }

    /** save_cone_head_bound */
    method SaveHead(j: nat, marks: array<Marks>)
      requires j < |lower| && j < marks.Length
      modifies this
      ensures View() == old(View())
      ensures heads == old(heads) + (if Le(Fin(0.0), lower[j]) then [] else [HeadBound(j, marks[j])])
    {
      if !Le(Fin(0.0), lower[j]) { heads := heads + [HeadBound(j, marks[j])]; }
    }

    method AppendGeneral(q: Quad, f: Factor, tol: real)
      requires quads != [] && Usable(Some(f))
      modifies this
      ensures View() == General(old(View()), q, f, tol) && heads == old(heads)
    {
      ghost var start := View();
      var r, base := |f.cols|, n;
      cost := cost + Zeros(r + 2);
      lower := lower + Free(NegInf, r + 2);
      upper := upper + Free(PosInf, r + 2);
      n := n + r + 2;
      var tails := AppendLinks(f, base);
      rows := rows + [SlackRow(q, tol, base + r, 0.5)];
      rows := rows + [SlackRow(q, tol, base + r + 1, -0.5)];
      cones := cones + [Standard([base + r] + tails + [base + r + 1])];
      quads := quads[1..];
      hide LinkingRows, SlackRow;
      assert View().rows == General(start, q, f, tol).rows;
    }

    /** The rows that fix y_k, and the columns y_k. */
    method AppendLinks(f: Factor, base: nat) returns (tails: seq<nat>)
      requires Usable(Some(f))
      modifies this
      ensures View() == old(View()).(rows := old(rows) + LinkingRows(f, |f.cols|, base)) && heads == old(heads)
      ensures tails == Range(base, |f.cols|)
    {
      tails := [];
      for k := 0 to |f.cols|
        invariant View() == old(View()).(rows := rows) && rows == old(rows) + LinkingRows(f, k, base)
        invariant heads == old(heads) && tails == Range(base, k)
      {
        rows := rows + [LinkingRow(f, k, base)];
        tails := tails + [base + k];
      }
    }

    /** Test one head; record why it is nonnegative. */
    method TestHead(j: nat, tol: real, implied: array<Ext>, marks: array<Marks>, ghost original: seq<Row>, n0: nat) returns (ok: bool)
      requires n0 <= n == |lower| && original <= rows && j < n0
      requires ImpliedTables(original, |original|, tol, implied[..], marks[..], n0)
      modifies this
      ensures View() == old(View()) && Shape(View(), |original|) && ok == HeadOk(View(), |original|, j, tol)
      ensures ok ==> heads == old(heads) + Saved(View(), |original|, j, tol)
    {
      HeadTables(View(), original, j, tol, implied[..], marks[..], n0);
      ok := Le(Fin(0.0), Max(lower[j], implied[j]));
      if ok { SaveHead(j, marks); }
    }

    /** A fast path: test the heads, then register the cone. */
    method AppendFast(cone: Cone, tested: seq<nat>, tol: real, implied: array<Ext>, marks: array<Marks>,
                      ghost original: seq<Row>, n0: nat) returns (ok: bool)
      requires quads != [] && n0 <= n == |lower| && original <= rows && 1 <= |tested| <= 2 && VarsIn(tested, n0)
      requires ImpliedTables(original, |original|, tol, implied[..], marks[..], n0)
      modifies this
      ensures Shape(old(View()), |original|)
      ensures var r := FastStep(Work(old(View()), old(heads)), |original|, cone, tested, tol);
              ok == r.Some? && (ok ==> Work(View(), heads) == r.value)
    {
      hide HeadOk, Saved, ImpliedTables;
      ok := true;
      for k := 0 to |tested|
        invariant View() == old(View()) && Shape(View(), |original|)
        invariant ok && forall i :: 0 <= i < k ==> HeadOk(View(), |original|, tested[i], tol)
        invariant heads == old(heads) + Recorded(View(), |original|, tested[..k], tol)
      {
        ok := TestHead(tested[k], tol, implied, marks, original, n0);
        if !ok { return; }
        RecordedNext(View(), |original|, tested, k, tol);
      }
      assert tested[..|tested|] == tested;
      cones := cones + [cone];
      quads := quads[1..];
    }

    /** Convert the first constraint; `implied` and `marks` come from the `original` rows. */
    method ConvertOne(f: Option<Factor>, tol: real, implied: array<Ext>, marks: array<Marks>, ghost original: seq<Row>, n0: nat)
        returns (ok: bool)
      requires quads != [] && tol > 0.0 && n0 <= n == |lower| && original <= rows && QuadIn(quads[0], n0)
      requires ImpliedTables(original, |original|, tol, implied[..], marks[..], n0)
      modifies this
      ensures var r := Step(Work(old(View()), old(heads)), |original|, f, tol);
              ok == r.Some? && (ok ==> Work(View(), heads) == r.value)
    {
      var q := Normalize(quads[0]);
      NormalizeIn(quads[0], n0);
      RouteIn(q, tol, n0);
      var route := Classify(q, tol);
      StepIsFast(Work(View(), heads), |original|, f, tol, route);
      hide Classify, Normalize, ImpliedTables, FastStep, General;
      match route {
        case Rejected => ok := false;
        case ToStandard(head, tails) =>
          ok := AppendFast(Standard([head] + tails), [head], tol, implied, marks, original, n0);
        case ToRotated(h0, h1, tails, ratio) =>
          ok := AppendFast(Rotated(h0, h1, tails, ratio), [h0, h1], tol, implied, marks, original, n0);
        case ToGeneral =>
          ok := Usable(f);
          if ok { AppendGeneral(q, f.value, tol); }
      }
    }

    /** Convert every quadratic constraint in turn. */
    method ConvertQuadratics(fs: seq<Option<Factor>>, tol: real) returns (ok: bool)
      requires Wf(View()) && |fs| == |quads| && tol > 0.0 && heads == []
      modifies this
      ensures var r := Converted(old(View()), fs, tol);
              ok == r.Some? && (ok ==> Work(View(), heads) == r.value)
    {
      ghost var start := View();
      var n0 := n;
      if quads == [] { return false; }
      var implied, marks := ComputeImplied(tol);
      ghost var goal := ConvertAll(Work(start, []), |start.rows|, fs, tol);
      assert ConvertAt(Work(View(), heads), start, fs, tol, goal);
      hide Wf, ImpliedTables, Step, ConvertAll, ConvertAt;
      var k := 0;
      ok := true;
      assert fs[0..] == fs;
      while ok && k < |fs|
        invariant k <= |fs| && ImpliedTables(start.rows, |start.rows|, tol, implied[..], marks[..], n0)
        invariant if ok then ConvertAt(Work(View(), heads), start, fs[k..], tol, goal) else goal == None
        decreases |fs| - k
      {
        ConvertAtStep(Work(View(), heads), start, fs[k..], tol, goal);
        ok := ConvertOne(fs[k], tol, implied, marks, start.rows, n0);
        assert fs[k..][1..] == fs[k + 1..];
        k := k + 1;
      }
      if ok { ConvertAtEnd(Work(View(), heads), start, fs[k..], tol, goal); }
    }

    /** Columns, bounds and linking rows for the collected copies. */
    method AppendCopies(originals: seq<nat>)
      modifies this
      ensures View() == Pending(old(View()), originals) && heads == old(heads)
    {
      ghost var start := View();
      var first := n;
      cost := cost + Zeros(|originals|);
      lower := lower + Free(NegInf, |originals|);
      upper := upper + Free(PosInf, |originals|);
      n := n + |originals|;
      for k := 0 to |originals|
        invariant rows == start.rows + CopyRows(originals, first)[..k]
        invariant View() == Pending(start, originals).(rows := rows) && heads == old(heads)
      {
        assert CopyRows(originals, first)[..k + 1] == CopyRows(originals, first)[..k] + [CopyRow(originals[k], first + k)];
        rows := rows + [CopyRow(originals[k], first + k)];
      }
      assert CopyRows(originals, first)[..|originals|] == CopyRows(originals, first);
    }

    /** Give a linked copy to every cone entry whose variable another cone saw first. */
    method AliasShared()
      requires AllStandard(View()) && Wf(View())
      modifies this
      ensures View() == Aliased(old(View())) && heads == old(heads)
    {
      ghost var goal := Aliased(View());
      ghost var owner: map<nat, nat> := map[];
      var firstOwner := new int[n](_ => -1);
      var originals: seq<nat> := [];
      PendingNone(View());
      StartAhead(View());
      var c := 0;
      assert AliasAt(View(), originals, 0, 0, owner, firstOwner[..], goal);
      hide AliasAt, Aliased, Wf;
      while c < |cones|
        invariant c <= |cones| && heads == old(heads) && AllStandard(View())
        invariant AliasAt(View(), originals, c, 0, owner, firstOwner[..], goal)
      {
        var i := 0;
        while i < |cones[c].vars|
          invariant c < |cones| && AllStandard(View()) && i <= |cones[c].vars| && heads == old(heads)
          invariant AliasAt(View(), originals, c, i, owner, firstOwner[..], goal)
        {
          AliasAtVisit(View(), originals, c, i, owner, firstOwner[..], goal);
          var v := cones[c].vars[i];
          if firstOwner[v] == -1 {
            firstOwner[v] := c;
            owner := owner[v := c];
          } else if firstOwner[v] != c {
            cones := cones[c := Standard(cones[c].vars[i := n + |originals|])];
            originals := originals + [v];
          }
          i := i + 1;
        }
        AliasAtNext(View(), originals, c, owner, firstOwner[..], goal);
        c := c + 1;
      }
      AliasAtEnd(View(), originals, owner, firstOwner[..], goal);
      AppendCopies(originals);
    }

    /** One entry of the splitting pass. */
    method SplitSlot(originals: seq<nat>, c: nat, i: nat, ghost goal: Model) returns (more: seq<nat>)
      requires SplitAt(View(), originals, c, i, goal) && HasSlot(View(), c, i)
      modifies this
      ensures SplitAt(View(), more, c, i + 1, goal) && heads == old(heads)
      ensures |cones| == old(|cones|) && HasSlot(View(), c, i) && |cones[c].vars| == old(|cones[c].vars|)
    {
      SplitAtVisit(View(), originals, c, i, goal);
      hide SplitAt;
      var v := cones[c].vars[i];
      var free := lower[v] == NegInf && upper[v] == PosInf;
      var head := i == 0 && lower[v] == Fin(0.0) && upper[v] == PosInf;
      if free || head { return originals; }
      cones := cones[c := Standard(cones[c].vars[i := n + |originals|])];
      return originals + [v];
    }

    /** Give a linked copy to every cone entry whose column is bounded, but for heads on [0, inf). */
    method SplitBounded()
      requires AllStandard(View()) && Wf(View())
      modifies this
      ensures View() == SplitFrom(old(View()), 0, 0) && heads == old(heads)
    {
      ghost var goal := SplitFrom(View(), 0, 0);
      var originals: seq<nat> := [];
      PendingNone(View());
      StartAhead(View());
      var c := 0;
      assert SplitAt(View(), originals, 0, 0, goal);
      hide SplitAt, SplitFrom, Wf;
      while c < |cones|
        invariant c <= |cones| && heads == old(heads) && AllStandard(View())
        invariant SplitAt(View(), originals, c, 0, goal)
      {
        var i := 0;
        while i < |cones[c].vars|
          invariant c < |cones| && AllStandard(View()) && i <= |cones[c].vars| && heads == old(heads)
          invariant SplitAt(View(), originals, c, i, goal)
        {
          originals := SplitSlot(originals, c, i, goal);
          i := i + 1;
        }
        SplitAtNext(View(), originals, c, goal);
        c := c + 1;
      }
      SplitAtEnd(View(), originals, goal);
      AppendCopies(originals);
    }

    /** Bring the columns into the order [linear | cone_1 | ... | cone_K]. */
    method PermuteColumns() returns (p: seq<nat>, start: nat)
      requires Placeable(View())
      modifies this
      ensures p == Columns(old(View())) && start == |Linear(Flat(old(cones), |old(cones)|), old(n))|
      ensures View() == Permute(old(View()), p, NewToOld(old(cones), old(n))) && heads == old(heads)
    {
      ghost var s := View();
      p, start := FindColumns();
      ConesIn(s);
      ghost var w := NewToOld(cones, n);
      assert Permutable(s, p, w);
      hide Placeable, Columns, NewToOld, Flat, Linear;
      rows := MapRows(rows, p);
      cost := PermuteDense(cost, p, w);
      lower := PermuteDense(lower, p, w);
      upper := PermuteDense(upper, p, w);
      cones := MapCones(cones, p);
    }

    /** The new place of every column, and where the cone block starts. */
    method FindColumns() returns (p: seq<nat>, start: nat)
      requires Placeable(View())
      ensures p == Columns(View()) && start == |Linear(Flat(cones, |cones|), n)|
    {
      ghost var s := View();
      OrderIsPermutation(s);
      ConesIn(s);
      var table, order, first := BuildOrder(cones, n);
      PlacedIsColumns(s, table[..]);
      hide Placeable, NewToOld, Flat, Linear, Placed;
      p := ReadTable(table);
      start := first;
    }

    /** Lift every rotated cone with the factor its root gives. */
    method LiftRotated(hs: seq<real>)
      requires |hs| == |cones|
      modifies this
      ensures View() == Lifted(old(View()), hs) && heads == old(heads)
    {
      ghost var goal := Lifted(View(), hs);
      for c := 0 to |cones|
        invariant |hs| == |cones| && heads == old(heads)
        invariant LiftFrom(View(), c, hs) == goal
      {
        LiftNext(View(), c, hs);
        hide LiftFrom;
        if cones[c].Rotated? { LiftOne(c, hs[c]); }
      }
    }

    /** Two slack columns and their rows replace the heads of a rotated cone. */
    method LiftOne(c: nat, h: real)
      requires c < |cones| && cones[c].Rotated?
      modifies this
      ensures View() == Lift(old(View()), c, h) && heads == old(heads)
    {
      var r := cones[c];
      lower := lower + [NegInf, NegInf];
      upper := upper + [PosInf, PosInf];
      cost := cost + [0.0, 0.0];
      rows := rows + [Row([(r.h0, -h), (r.h1, -h), (n, 1.0)], EQ, 0.0), Row([(r.h0, -h), (r.h1, h), (n + 1, 1.0)], EQ, 0.0)];
      cones := cones[c := Standard([n, n + 1] + r.tails)];
      n := n + 2;
    }
  }

  // ------------------------------------------------------------------ ordering the columns

  /** Every listed column has its place in the table. */
  ghost predicate Placed(table: seq<int>, order: seq<nat>) {
    forall k :: 0 <= k < |order| ==> order[k] < |table| && table[order[k]] == k
  }

  lemma PlaceNext(table: seq<int>, order: seq<nat>, v: nat, w: seq<nat>)
    requires Placed(table, order) && v < |table| && order + [v] <= w && Distinct(w)
    ensures Placed(table[v := |order|], order + [v])
  {
    var s := order + [v];
    forall k | 0 <= k < |order| ensures order[k] != v { assert w[k] == order[k] && w[|order|] == v; }
  }

  ghost predicate Marked(mask: seq<bool>, block: seq<nat>) {
    forall j :: 0 <= j < |mask| ==> mask[j] == (j in block)
  }

  lemma {:induction false} LinearPrefix(block: seq<nat>, k: nat, n: nat)
    requires k <= n
    ensures Linear(block, k) <= Linear(block, n)
  {
    if k < n { LinearPrefix(block, k, n - 1); }
  }

  /** is_cone_var: which columns lie in a cone. */
  method MarkCones(cones: seq<Cone>, n: nat) returns (mask: array<bool>)
    requires forall k :: 0 <= k < |cones| ==> cones[k].Standard? && VarsIn(cones[k].vars, n)
    ensures fresh(mask) && mask.Length == n && Marked(mask[..], Flat(cones, |cones|))
  {
    mask := new bool[n](_ => false);
    for c := 0 to |cones|
      invariant Marked(mask[..], Flat(cones, c))
    {
      var vars := cones[c].vars;
      for i := 0 to |vars|
        invariant Marked(mask[..], Flat(cones, c) + vars[..i])
      {
        mask[vars[i]] := true;
        assert vars[..i + 1] == vars[..i] + [vars[i]];
      }
      assert vars[..|vars|] == vars;
    }
  }

  /** new_to_old and old_to_new: columns outside the cones in order, then cone after cone. */
  method BuildOrder(cones: seq<Cone>, n: nat) returns (oldToNew: array<int>, newToOld: seq<nat>, start: nat)
    requires forall k :: 0 <= k < |cones| ==> cones[k].Standard? && VarsIn(cones[k].vars, n)
    requires Distinct(NewToOld(cones, n))
    ensures fresh(oldToNew) && oldToNew.Length == n && newToOld == NewToOld(cones, n)
    ensures Placed(oldToNew[..], newToOld) && start == |Linear(Flat(cones, |cones|), n)|
  {
    var mask := MarkCones(cones, n);
    ghost var w := NewToOld(cones, n);
    oldToNew := new int[n](_ => -1);
    var linear := OrderLinear(mask, oldToNew, Flat(cones, |cones|), w);
    start := |linear|;
    newToOld := AppendCones(cones, oldToNew, linear, w);
  }

  method OrderLinear(mask: array<bool>, oldToNew: array<int>, ghost block: seq<nat>, ghost w: seq<nat>) returns (linear: seq<nat>)
    requires mask.Length == oldToNew.Length && Marked(mask[..], block) && Distinct(w) && Linear(block, mask.Length) <= w
    modifies oldToNew
    ensures linear == Linear(block, mask.Length) && Placed(oldToNew[..], linear)
  {
    linear := [];
    for j := 0 to mask.Length
      invariant linear == Linear(block, j) && Placed(oldToNew[..], linear)
    {
      if !mask[j] {
        LinearPrefix(block, j + 1, mask.Length);
        assert linear + [j] <= w;
        PlaceNext(oldToNew[..], linear, j, w);
        oldToNew[j] := |linear|;
        linear := linear + [j];
      }
    }
  }

  method ReadTable(table: array<int>) returns (p: seq<nat>)
    requires forall k :: 0 <= k < table.Length ==> table[k] >= 0
    ensures |p| == table.Length && forall k :: 0 <= k < table.Length ==> p[k] == table[k]
  {
    p := [];
    for j := 0 to table.Length
      invariant |p| == j && forall k :: 0 <= k < j ==> p[k] == table[k]
    {
      p := p + [table[j]];
    }
  }

  method AppendCones(cones: seq<Cone>, oldToNew: array<int>, linear: seq<nat>, ghost w: seq<nat>) returns (order: seq<nat>)
    requires forall k :: 0 <= k < |cones| ==> cones[k].Standard? && VarsIn(cones[k].vars, oldToNew.Length)
    requires Placed(oldToNew[..], linear) && Distinct(w) && w == linear + Flat(cones, |cones|)
    modifies oldToNew
    ensures order == w && Placed(oldToNew[..], order)
  {
    order := linear;
    hide Placed, Distinct;
    for c := 0 to |cones|
      invariant order == linear + Flat(cones, c) && Placed(oldToNew[..], order)
    {
      FlatStep(cones, c, linear);
      hide Flat;
      order := AppendCone(cones[c].vars, oldToNew, order, w);
    }
  }

  lemma FlatStep(cones: seq<Cone>, c: nat, linear: seq<nat>)
    requires c < |cones| && forall k :: 0 <= k < |cones| ==> cones[k].Standard?
    ensures linear + Flat(cones, c) + cones[c].vars == linear + Flat(cones, c + 1)
    ensures linear + Flat(cones, c + 1) <= linear + Flat(cones, |cones|)
  {
    FlatPrefix(cones, c + 1, |cones|);
  }

  method AppendCone(vars: seq<nat>, oldToNew: array<int>, before: seq<nat>, ghost w: seq<nat>) returns (order: seq<nat>)
    requires VarsIn(vars, oldToNew.Length) && Placed(oldToNew[..], before) && Distinct(w) && before + vars <= w
    modifies oldToNew
    ensures order == before + vars && Placed(oldToNew[..], order)
  {
    order := before;
    for i := 0 to |vars|
      invariant order == before + vars[..i] && Placed(oldToNew[..], order)
    {
      assert vars[..i + 1] == vars[..i] + [vars[i]];
      assert order + [vars[i]] <= before + vars;
      PlaceNext(oldToNew[..], order, vars[i], w);
      oldToNew[vars[i]] := |order|;
      order := order + [vars[i]];
    }
    assert vars[..|vars|] == vars;
  }

  /** permute_dense_by_old_to_new */
  method PermuteDense<T>(values: seq<T>, p: seq<nat>, ghost w: seq<nat>) returns (permuted: seq<T>)
    requires Inverse(p, w) && |values| == |p|
    ensures VarsIn(w, |values|) && permuted == Select(values, w)
  {
    var a := new T[|p|](i requires 0 <= i < |p| => values[i]);
    for j := 0 to |p|
      invariant forall i :: 0 <= i < j ==> a[p[i]] == values[i]
    {
      forall i | 0 <= i < j ensures p[i] != p[j] { assert w[p[i]] == i && w[p[j]] == j; }
      a[p[j]] := values[j];
    }
    forall k | 0 <= k < |w| ensures a[k] == values[w[k]] { assert a[p[w[k]]] == values[w[k]]; }
    permuted := a[..];
  }

  lemma PlacedIsColumns(s: Model, table: seq<int>)
    requires Placeable(s) && |table| == s.n && Placed(table, NewToOld(s.cones, s.n))
    ensures forall j :: 0 <= j < s.n ==> table[j] == Columns(s)[j]
  {
    var p, w := Columns(s), NewToOld(s.cones, s.n);
    forall j | 0 <= j < s.n ensures table[j] == p[j] { assert w[p[j]] == j; }
  }

  lemma LiftNext(m: Model, c: nat, hs: seq<real>)
    requires c < |m.cones| == |hs|
    ensures LiftFrom(m, c, hs) == LiftFrom(if m.cones[c].Rotated? then Lift(m, c, hs[c]) else m, c + 1, hs)
  {
  }

  lemma StartAhead(m: Model)
    requires Wf(m) && AllStandard(m)
    ensures AheadIn(m.cones, 0, 0, m.n)
  {
    forall d, j | 0 <= d < |m.cones| && 0 <= j < |m.cones[d].vars| ensures m.cones[d].vars[j] < m.n {
      assert ConeIn(m.cones[d], m.n);
    }
  }

  lemma StagesWf(m: Model, hs: seq<real>)
    requires Wf(m) && RootsOk(m.cones, hs)
    ensures Wf(Lifted(m, hs)) && Wf(Aliased(Lifted(m, hs)))
  {
    hide Extends, Wf;
    LiftAllExtends(m, 0, hs);
    ExtendsWf(m, Lifted(m, hs));
    AliasExtends(Lifted(m, hs), 0, 0, map[]);
    ExtendsWf(Lifted(m, hs), Aliased(Lifted(m, hs)));
  }

  /** convert_quadratic_constraints_to_second_order_cones: the passes in place, one after another. */
  method ExpandProblem(m: Model, fs: seq<Option<Factor>>, hs: seq<real>, tol: real) returns (r: Option<Expansion>)
    requires Input(m, fs, hs, tol)
    ensures r == Expand(m, fs, hs, tol)
  {
    var problem := new Problem(m);
    var ok := problem.ConvertQuadratics(fs, tol);
    if !ok { return None; }
    ghost var w := Converted(m, fs, tol).value;
    ConvertedFacts(m, fs, hs, tol);
    ExtendsWf(m, w.m);
    StagesWf(w.m, hs);
    hide Input, Converted, Extends, Wf, Placeable, RootsOk;
    problem.LiftRotated(hs);
    problem.AliasShared();
    problem.SplitBounded();
    var dims := Dims(problem.cones);
    var columns, start := problem.PermuteColumns();
    return Some(Expansion(problem.View(), columns[..m.n], start, dims, problem.heads));
  }

  // ------------------------------------------------------------------ the Hessian in local indices

  ghost predicate AllUnset(scratch: seq<int>) {
    forall j :: 0 <= j < |scratch| ==> scratch[j] == -1
  }

  /** The scratch array holds the local index of every collected variable and -1 elsewhere. */
  ghost predicate Indexes(scratch: seq<int>, vars: seq<nat>) {
    && Distinct(vars) && VarsIn(vars, |scratch|)
    && (forall k :: 0 <= k < |vars| ==> scratch[vars[k]] == k)
    && (forall j :: 0 <= j < |scratch| && j !in vars ==> scratch[j] == -1)
  }

  method Collect(v: nat, scratch: array<int>, vars: seq<nat>) returns (more: seq<nat>)
    requires Indexes(scratch[..], vars) && v < scratch.Length
    modifies scratch
    ensures Indexes(scratch[..], more) && vars <= more && v in more && forall u :: u in more ==> u in vars || u == v
  {
    if scratch[v] == -1 {
      scratch[v] := |vars|;
      return vars + [v];
    }
    return vars;
  }

  ghost predicate Appears(q: Entries, t: nat, u: nat)
    requires t <= |q|
  {
    exists s :: 0 <= s < t && (q[s].0 == u || q[s].1 == u)
  }

  /** The variables of the first t entries. */
  ghost predicate Collected(q: Entries, t: nat, vars: seq<nat>)
    requires t <= |q|
  {
    && (forall s :: 0 <= s < t ==> q[s].0 in vars && q[s].1 in vars)
    && (forall u :: u in vars ==> Appears(q, t, u))
  }

  lemma CollectedNext(q: Entries, t: nat, before: seq<nat>, vars: seq<nat>)
    requires t < |q| && Collected(q, t, before) && before <= vars && q[t].0 in vars && q[t].1 in vars
    requires forall u :: u in vars ==> u in before || u == q[t].0 || u == q[t].1
    ensures Collected(q, t + 1, vars)
  {
    forall u | u in vars ensures Appears(q, t + 1, u) {
      if u in before {
        assert Appears(q, t, u);
      } else {
        assert q[t].0 == u || q[t].1 == u;
      }
    }
  }

  /** The distinct variables of Q in order of appearance. */
  method CollectVariables(q: Entries, scratch: array<int>) returns (vars: seq<nat>)
    requires EntriesIn(q, scratch.Length) && AllUnset(scratch[..])
    modifies scratch
    ensures Indexes(scratch[..], vars) && Collected(q, |q|, vars)
  {
    vars := [];
    assert Indexes(scratch[..], vars);
    hide Indexes, Collected;
    CollectedNone(q);
    for t := 0 to |q|
      invariant Indexes(scratch[..], vars) && Collected(q, t, vars)
    {
      ghost var before := vars;
      vars := Collect(q[t].0, scratch, vars);
      vars := Collect(q[t].1, scratch, vars);
      CollectedNext(q, t, before, vars);
    }
  }

  lemma CollectedNone(q: Entries)
    ensures Collected(q, 0, [])
  {
  }

  /** Restore the scratch array: only the collected entries need it. */
  method ResetScratch(vars: seq<nat>, scratch: array<int>)
    requires Indexes(scratch[..], vars)
    modifies scratch
    ensures AllUnset(scratch[..])
  {
    for k := 0 to |vars|
      invariant forall j :: 0 <= j < scratch.Length && j !in vars[k..] ==> scratch[j] == -1
    {
      scratch[vars[k]] := -1;
      assert vars[k..] == [vars[k]] + vars[k + 1..];
    }
  }

  /** Entry (a, b) of the symmetric matrix whose lower triangle the folded entries list. */
  function Folded(h: Entries, a: nat, b: nat): real {
    if h == [] then 0.0
    else (if h[0].0 == (if a > b then a else b) && h[0].1 == (if a > b then b else a) then h[0].2 else 0.0) + Folded(h[1..], a, b)
  }

  function Fold(e: (nat, nat, real), r: nat, c: nat): (nat, nat, real) {
    (if r > c then r else c, if r > c then c else r, if r == c then 2.0 * e.2 else e.2)
  }

  /** Folding onto the lower triangle, in local indices, keeps the Hessian. */
  lemma {:induction false} FoldedIsHessian(q: Entries, h: Entries, vars: seq<nat>, a: nat, b: nat)
    requires |h| == |q| && Distinct(vars) && a < |vars| && b < |vars|
    requires forall t :: 0 <= t < |q| ==> q[t].0 in vars && q[t].1 in vars
    requires forall t :: 0 <= t < |q| ==> h[t] == Fold(q[t], Index(vars, q[t].0), Index(vars, q[t].1))
    ensures Folded(h, a, b) == Hessian(q, vars[a], vars[b])
  {
    if q != [] {
      FoldedIsHessian(q[1..], h[1..], vars, a, b);
    }
  }

  /** The Hessian of Q over its own variables, as the factorisation receives it. The scratch array is
      handed back as it came. */
  method BuildHessian(q: Entries, scratch: array<int>) returns (vars: seq<nat>, h: Entries)
    requires EntriesIn(q, scratch.Length) && AllUnset(scratch[..])
    modifies scratch
    ensures AllUnset(scratch[..]) && Distinct(vars) && Collected(q, |q|, vars) && |h| == |q|
    ensures forall a, b :: 0 <= a < |vars| && 0 <= b < |vars| ==> Folded(h, a, b) == Hessian(q, vars[a], vars[b])
  {
    vars := CollectVariables(q, scratch);
    h := [];
    for t := 0 to |q|
      invariant |h| == t && forall s :: 0 <= s < t ==> h[s] == Fold(q[s], Index(vars, q[s].0), Index(vars, q[s].1))
    {
      h := h + [Fold(q[t], scratch[q[t].0], scratch[q[t].1])];
    }
    forall a, b | 0 <= a < |vars| && 0 <= b < |vars| ensures Folded(h, a, b) == Hessian(q, vars[a], vars[b]) {
      FoldedIsHessian(q, h, vars, a, b);
    }
    ResetScratch(vars, scratch);
  }
}
