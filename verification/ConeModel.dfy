/** Models with linear rows, bounds, second-order cones and quadratic constraints, and what it means
    for one model to extend another by determined columns. */
module ConeModel {
  import opened Extended
  import opened Reals

  type Point = seq<real>
  type Terms = seq<(nat, real)>

  datatype Sense = LE | GE | EQ

  datatype Row = Row(terms: Terms, sense: Sense, rhs: real)

  /** A quadratic constraint: sum of v*x_r*x_c over the entries, plus a linear part, compared with
      the right-hand side. */
  datatype Quad = Quad(entries: seq<(nat, nat, real)>, linear: Terms, rhs: real, greater: bool)

  /** `Standard`: first variable bounds the norm of the others. `Rotated`: twice `ratio` times the
      product of the heads bounds the square norm of the tails. */
  datatype Cone = Standard(vars: seq<nat>) | Rotated(h0: nat, h1: nat, tails: seq<nat>, ratio: real)

  datatype Model = Model(
    n: nat, rows: seq<Row>, lower: seq<Ext>, upper: seq<Ext>, cost: seq<real>,
    cones: seq<Cone>, quads: seq<Quad>)

  // ------------------------------------------------------------------ well-formedness

  predicate TermsIn(t: Terms, n: nat) {
    forall i :: 0 <= i < |t| ==> t[i].0 < n
  }

  predicate VarsIn(vars: seq<nat>, n: nat) {
    forall i :: 0 <= i < |vars| ==> vars[i] < n
  }

  predicate ConeIn(c: Cone, n: nat) {
    match c
    case Standard(vars) => |vars| >= 1 && VarsIn(vars, n)
    case Rotated(h0, h1, tails, ratio) => h0 < n && h1 < n && VarsIn(tails, n) && ratio > 0.0
  }

  predicate EntriesIn(e: seq<(nat, nat, real)>, n: nat) {
    forall i :: 0 <= i < |e| ==> e[i].0 < n && e[i].1 < n
  }

  predicate QuadIn(q: Quad, n: nat) {
    EntriesIn(q.entries, n) && TermsIn(q.linear, n)
  }

  ghost predicate Wf(m: Model) {
    && |m.lower| == m.n && |m.upper| == m.n && |m.cost| == m.n
    && (forall i :: 0 <= i < |m.rows| ==> TermsIn(m.rows[i].terms, m.n))
    && (forall i :: 0 <= i < |m.cones| ==> ConeIn(m.cones[i], m.n))
    && (forall i :: 0 <= i < |m.quads| ==> QuadIn(m.quads[i], m.n))
  }

  // ------------------------------------------------------------------ meaning

  function Activity(t: Terms, x: Point): real
    requires TermsIn(t, |x|)
  {
    if t == [] then 0.0 else t[0].1 * x[t[0].0] + Activity(t[1..], x)
  }

  predicate RowOk(r: Row, x: Point)
    requires TermsIn(r.terms, |x|)
  {
    match r.sense
    case LE => Activity(r.terms, x) <= r.rhs
    case GE => Activity(r.terms, x) >= r.rhs
    case EQ => Activity(r.terms, x) == r.rhs
  }

  predicate BoundOk(lo: Ext, hi: Ext, v: real) {
    Le(lo, Fin(v)) && Le(Fin(v), hi)
  }

  function SumSq(vars: seq<nat>, x: Point): (s: real)
    requires VarsIn(vars, |x|)
    ensures s >= 0.0
  {
    if vars == [] then 0.0 else Square(x[vars[0]]) + SumSq(vars[1..], x)
  }

  function Square(v: real): (s: real)
    ensures s >= 0.0
  {
    v * v
  }

  function HeadProduct(ratio: real, a: real, b: real): real {
    2.0 * ratio * (a * b)
  }

  predicate ConeOk(c: Cone, x: Point)
    requires ConeIn(c, |x|)
  {
    match c
    case Standard(vars) => x[vars[0]] >= 0.0 && Square(x[vars[0]]) >= SumSq(vars[1..], x)
    case Rotated(h0, h1, tails, ratio) =>
      x[h0] >= 0.0 && x[h1] >= 0.0 && HeadProduct(ratio, x[h0], x[h1]) >= SumSq(tails, x)
  }

  function Form(entries: seq<(nat, nat, real)>, x: Point): real
    requires EntriesIn(entries, |x|)
  {
    if entries == [] then 0.0
    else Product(entries[0].2, x[entries[0].0], x[entries[0].1]) + Form(entries[1..], x)
  }

  function Product(v: real, a: real, b: real): real {
    v * (a * b)
  }

  predicate QuadOk(q: Quad, x: Point)
    requires QuadIn(q, |x|)
  {
    var v := Form(q.entries, x) + Activity(q.linear, x);
    if q.greater then v >= q.rhs else v <= q.rhs
  }

  ghost predicate LinearOk(m: Model, x: Point)
    requires Wf(m) && |x| == m.n
  {
    && (forall j :: 0 <= j < m.n ==> BoundOk(m.lower[j], m.upper[j], x[j]))
    && (forall i :: 0 <= i < |m.rows| ==> RowOk(m.rows[i], x))
  }

  ghost predicate Sat(m: Model, x: Point)
    requires Wf(m)
  {
    && |x| == m.n && LinearOk(m, x)
    && (forall i :: 0 <= i < |m.cones| ==> ConeOk(m.cones[i], x))
    && (forall i :: 0 <= i < |m.quads| ==> QuadOk(m.quads[i], x))
  }

  /** The entries listed by `at`. */
  function Select<T>(values: seq<T>, at: seq<nat>): (r: seq<T>)
    requires VarsIn(at, |values|)
    ensures |r| == |at| && forall k :: 0 <= k < |at| ==> r[k] == values[at[k]]
  {
    seq(|at|, k requires 0 <= k < |at| => values[at[k]])
  }

  // ------------------------------------------------------------------ extension

  function Zeros(k: nat): (z: seq<real>)
    ensures |z| == k && forall i :: 0 <= i < k ==> z[i] == 0.0
  {
    seq(k, _ => 0.0)
  }

  /** `b` extends `a`: its solutions project onto those of `a`, each of which lifts to one, and the
      added columns cost nothing. */
  ghost predicate Extends(a: Model, b: Model) {
    && Wf(a) && Wf(b) && a.n <= b.n && b.cost == a.cost + Zeros(b.n - a.n)
    && (forall y :: Sat(b, y) ==> Sat(a, y[..a.n]))
    && forall x :: Sat(a, x) ==> exists y :: Sat(b, y) && y[..a.n] == x
  }

  lemma ExtendsSelf(a: Model)
    requires Wf(a)
    ensures Extends(a, a)
  {
    forall x | Sat(a, x) ensures Sat(a, x[..a.n]) && exists y :: Sat(a, y) && y[..a.n] == x {
      assert x[..a.n] == x;
    }
  }

  lemma ExtendsTransitive(a: Model, b: Model, c: Model)
    requires Extends(a, b) && Extends(b, c)
    ensures Extends(a, c)
  {
    assert Zeros(b.n - a.n) + Zeros(c.n - b.n) == Zeros(c.n - a.n);
    forall y | Sat(c, y) ensures Sat(a, y[..a.n]) {
      assert y[..b.n][..a.n] == y[..a.n];
    }
    forall x | Sat(a, x) ensures exists y :: Sat(c, y) && y[..a.n] == x {
      var y :| Sat(b, y) && y[..a.n] == x;
      var z :| Sat(c, z) && z[..b.n] == y;
      assert z[..a.n] == z[..b.n][..a.n];
    }
  }

  // ------------------------------------------------------------------ reading only old columns

  lemma {:induction false} ActivityPrefix(t: Terms, x: Point, y: Point)
    requires TermsIn(t, |x|) && x <= y
    ensures TermsIn(t, |y|) && Activity(t, y) == Activity(t, x)
  {
    if t != [] { ActivityPrefix(t[1..], x, y); }
  }

  lemma {:induction false} SumSqPrefix(vars: seq<nat>, x: Point, y: Point)
    requires VarsIn(vars, |x|) && x <= y
    ensures VarsIn(vars, |y|) && SumSq(vars, y) == SumSq(vars, x)
  {
    if vars != [] { SumSqPrefix(vars[1..], x, y); }
  }

  lemma {:induction false} FormPrefix(e: seq<(nat, nat, real)>, x: Point, y: Point)
    requires EntriesIn(e, |x|) && x <= y
    ensures EntriesIn(e, |y|) && Form(e, y) == Form(e, x)
  {
    if e != [] { FormPrefix(e[1..], x, y); }
  }

  lemma ConePrefix(c: Cone, x: Point, y: Point)
    requires ConeIn(c, |x|) && x <= y
    ensures ConeIn(c, |y|) && ConeOk(c, y) == ConeOk(c, x)
  {
    match c
    case Standard(vars) => SumSqPrefix(vars[1..], x, y);
    case Rotated(_, _, tails, _) => SumSqPrefix(tails, x, y);
  }

  lemma QuadPrefix(q: Quad, x: Point, y: Point)
    requires QuadIn(q, |x|) && x <= y
    ensures QuadIn(q, |y|) && QuadOk(q, y) == QuadOk(q, x)
  {
    FormPrefix(q.entries, x, y);
    ActivityPrefix(q.linear, x, y);
  }

  lemma RowPrefix(r: Row, x: Point, y: Point)
    requires TermsIn(r.terms, |x|) && x <= y
    ensures TermsIn(r.terms, |y|) && RowOk(r, y) == RowOk(r, x)
  {
    ActivityPrefix(r.terms, x, y);
  }

  /** `b` has the columns and rows of `a`, then free columns that cost nothing and further rows. */
  ghost predicate Grown(a: Model, b: Model) {
    && Wf(a) && Wf(b) && a.n <= b.n && a.rows <= b.rows
    && b.cost == a.cost + Zeros(b.n - a.n)
    && a.lower <= b.lower && a.upper <= b.upper
    && (forall j :: a.n <= j < b.n ==> b.lower[j] == NegInf && b.upper[j] == PosInf)
  }

  ghost predicate NewRowsOk(a: Model, b: Model, y: Point)
    requires Grown(a, b) && |y| == b.n
  {
    forall i :: |a.rows| <= i < |b.rows| ==> RowOk(b.rows[i], y)
  }

  lemma GrownLinear(a: Model, b: Model, y: Point)
    requires Grown(a, b) && |y| == b.n
    ensures LinearOk(b, y) <==> LinearOk(a, y[..a.n]) && NewRowsOk(a, b, y)
  {
    var x := y[..a.n];
    assert x <= y;
    forall i | 0 <= i < |a.rows| ensures RowOk(b.rows[i], y) == RowOk(a.rows[i], x) {
      assert b.rows[i] == a.rows[i];
      RowPrefix(a.rows[i], x, y);
    }
    forall j | 0 <= j < a.n ensures BoundOk(b.lower[j], b.upper[j], y[j]) == BoundOk(a.lower[j], a.upper[j], x[j]) {
      assert b.lower[j] == a.lower[j] && b.upper[j] == a.upper[j];
    }
    if LinearOk(b, y) {
      forall i | 0 <= i < |a.rows| ensures RowOk(a.rows[i], x) { assert RowOk(b.rows[i], y); }
      forall j | 0 <= j < a.n ensures BoundOk(a.lower[j], a.upper[j], x[j]) {
        assert BoundOk(b.lower[j], b.upper[j], y[j]);
      }
    }
    if LinearOk(a, x) && NewRowsOk(a, b, y) {
      forall i | 0 <= i < |b.rows| ensures RowOk(b.rows[i], y) {
        if i < |a.rows| { assert RowOk(a.rows[i], x); }
      }
      forall j | 0 <= j < b.n ensures BoundOk(b.lower[j], b.upper[j], y[j]) {
        if j < a.n { assert BoundOk(a.lower[j], a.upper[j], x[j]); }
      }
    }
  }
}
