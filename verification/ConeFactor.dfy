/** The factorisation behind the general path: H = P L D L^T P^T turns the quadratic form into a sum
    of squares. */
module ConeFactor {
  import opened ConeModel
  import opened Sums

  type Entries = seq<(nat, nat, real)>

  /** What the factorisation routine returns. `order` lists the variables in pivot order, column k
      of L pairs positions in `order` with values, `root` holds the square roots of D. */
  datatype Factor = Factor(order: seq<nat>, cols: seq<Terms>, d: seq<real>, root: seq<real>)

  /** The share of one entry of Q in H = Q + Q^T. */
  function Share(e: (nat, nat, real), i: nat, j: nat): real {
    if e.0 == e.1 then (if i == e.0 && j == e.0 then 2.0 * e.2 else 0.0)
    else if (i == e.0 && j == e.1) || (i == e.1 && j == e.0) then e.2
    else 0.0
  }

  function Hessian(q: Entries, i: nat, j: nat): real {
    if q == [] then 0.0 else Share(q[0], i, j) + Hessian(q[1..], i, j)
  }

  /** The value a sparse column holds at position `a`. */
  function Coef(col: Terms, a: int): real {
    if col == [] then 0.0 else (if col[0].0 == a then col[0].1 else 0.0) + Coef(col[1..], a)
  }

  function RankOne(d: real, col: Terms, a: int, b: int): real {
    Mul(d, Mul(Coef(col, a), Coef(col, b)))
  }

  /** Entry (a, b) of L D L^T, summed over the first r columns. */
  ghost function Gram(f: Factor, r: nat, a: int, b: int): real
    requires r <= |f.cols| == |f.d|
  {
    if r == 0 then 0.0
    else Gram(f, r - 1, a, b) + RankOne(f.d[r - 1], f.cols[r - 1], a, b)
  }

  ghost predicate Shaped(f: Factor) {
    && |f.d| == |f.cols| == |f.root| && |f.cols| >= 1
    && (forall k :: 0 <= k < |f.d| ==> f.d[k] > 0.0 && f.root[k] >= 0.0 && f.root[k] * f.root[k] == f.d[k])
    && (forall k :: 0 <= k < |f.cols| ==> TermsIn(f.cols[k], |f.order|))
    && Distinct(f.order)
  }

  /** The contract of right_looking_ldlt: L D L^T is the Hessian in pivot order. */
  ghost predicate Factors(f: Factor, q: Entries) {
    && Shaped(f)
    && (forall t :: 0 <= t < |q| ==> q[t].0 in f.order && q[t].1 in f.order)
    && (forall t :: 0 <= t < |f.order| ==> exists u :: 0 <= u < |q| && (f.order[t] == q[u].0 || f.order[t] == q[u].1))
    && forall a, b :: 0 <= a < |f.order| && 0 <= b < |f.order| ==>
         Gram(f, |f.cols|, a, b) == Hessian(q, f.order[a], f.order[b])
  }

  /** (L^T P x)_k as the linking row computes it. */
  function ColumnValue(col: Terms, z: seq<real>): real
    requires TermsIn(col, |z|)
  {
    if col == [] then 0.0 else Mul(col[0].1, z[col[0].0]) + ColumnValue(col[1..], z)
  }

  ghost function Squares(f: Factor, r: nat, z: seq<real>): real
    requires Shaped(f) && r <= |f.cols| && |z| == |f.order|
  {
    if r == 0 then 0.0
    else Squares(f, r - 1, z) + Mul(f.d[r - 1], Square(ColumnValue(f.cols[r - 1], z)))
  }

  function At(z: seq<real>, i: int): real {
    if 0 <= i < |z| then z[i] else 0.0
  }

  /** Cell (a, b) of the table z_a * z_b * g. */
  function Cell(z: seq<real>, a: int, b: int, g: real): real {
    Mul(Mul(At(z, a), At(z, b)), g)
  }

  lemma CellAdd(z: seq<real>, a: int, b: int, g: real, h: real)
    ensures Cell(z, a, b, g + h) == Cell(z, a, b, g) + Cell(z, a, b, h)
    ensures Cell(z, a, b, 0.0) == 0.0
  {
    hide Mul;
    MulAlgebra(Mul(At(z, a), At(z, b)), g, h);
  }

  // ------------------------------------------------------------------ L D L^T as squares

  lemma {:induction false} ColumnIsDense(col: Terms, z: seq<real>, g: int -> real)
    requires TermsIn(col, |z|)
    requires forall a :: 0 <= a < |z| ==> g(a) == Mul(Coef(col, a), At(z, a))
    ensures ColumnValue(col, z) == Sum(|z|, g)
  {
    hide Mul;
    if col == [] {
      forall a | 0 <= a < |z| ensures g(a) == 0.0 { MulAlgebra(At(z, a), 0.0, 0.0); }
      SumZero(|z|, g);
    } else {
      var rest: int -> real := a => Mul(Coef(col[1..], a), At(z, a));
      var head: int -> real := a => Mul(if col[0].0 == a then col[0].1 else 0.0, At(z, a));
      ColumnIsDense(col[1..], z, rest);
      forall a | 0 <= a < |z| ensures g(a) == head(a) + rest(a) {
        MulAlgebra(if col[0].0 == a then col[0].1 else 0.0, Coef(col[1..], a), At(z, a));
      }
      SumAdd(|z|, head, rest, g);
      forall a | 0 <= a < |z| && a != col[0].0 ensures head(a) == 0.0 { MulAlgebra(At(z, a), 0.0, 0.0); }
      SumPoint(|z|, head, col[0].0);
    }
  }

  /** One column's square as a rank-one table. */
  lemma ColumnTable(d: real, col: Terms, z: seq<real>, f: (int, int) -> real)
    requires TermsIn(col, |z|)
    requires forall a, b :: 0 <= a < |z| && 0 <= b < |z| ==> f(a, b) == Cell(z, a, b, RankOne(d, col, a, b))
    ensures SumRows(f, |z|, |z|) == Mul(d, Square(ColumnValue(col, z)))
  {
    hide Mul, Cell, RankOne, Square;
    var n := |z|;
    var h: int -> real := a => Mul(Coef(col, a), At(z, a));
    var g: int -> real := a => Mul(d, h(a));
    ColumnIsDense(col, z, h);
    SumScale(n, d, h, g);
    forall a, b | 0 <= a < n && 0 <= b < n ensures f(a, b) == Mul(g(a), h(b)) {
      Regroup(z, a, b, d, col);
    }
    TableProduct(f, g, h, n, n);
    SquareOut(d, ColumnValue(col, z));
  }

  lemma SquareOut(d: real, s: real)
    ensures Mul(Mul(d, s), s) == Mul(d, Square(s))
  {
  }

  lemma Regroup(z: seq<real>, a: int, b: int, d: real, col: Terms)
    ensures Cell(z, a, b, RankOne(d, col, a, b)) == Mul(Mul(d, Mul(Coef(col, a), At(z, a))), Mul(Coef(col, b), At(z, b)))
  {
    RegroupMul(At(z, a), At(z, b), d, Coef(col, a), Coef(col, b));
  }

  lemma RegroupMul(x: real, y: real, d: real, p: real, q: real)
    ensures Mul(Mul(x, y), Mul(d, Mul(p, q))) == Mul(Mul(d, Mul(p, x)), Mul(q, y))
  {
    RegroupReals(x, y, d, p, q);
  }

  lemma RegroupReals(x: real, y: real, d: real, p: real, q: real)
    ensures (x * y) * (d * (p * q)) == (d * (p * x)) * (q * y)
  {
    calc {
      (x * y) * (d * (p * q));
      d * ((x * y) * (p * q));
      { assert (x * y) * (p * q) == (p * x) * (q * y); }
      d * ((p * x) * (q * y));
      (d * (p * x)) * (q * y);
    }
  }

  lemma {:induction false} SquaresTable(f: Factor, r: nat, z: seq<real>, t: (int, int) -> real)
    requires Shaped(f) && r <= |f.cols| && |z| == |f.order|
    requires forall a, b :: 0 <= a < |z| && 0 <= b < |z| ==> t(a, b) == Cell(z, a, b, Gram(f, r, a, b))
    ensures Squares(f, r, z) == SumRows(t, |z|, |z|)
  {
    hide Mul, Cell, RankOne, Square;
    var n := |z|;
    if r == 0 {
      forall a, b | 0 <= a < n && 0 <= b < n ensures t(a, b) == 0.0 { CellAdd(z, a, b, 0.0, 0.0); }
      TableZero(t, n, n);
    } else {
      var c, d := f.cols[r - 1], f.d[r - 1];
      var prev: (int, int) -> real := (a, b) => Cell(z, a, b, Gram(f, r - 1, a, b));
      var last: (int, int) -> real := (a, b) => Cell(z, a, b, RankOne(d, c, a, b));
      SquaresTable(f, r - 1, z, prev);
      ColumnTable(d, c, z, last);
      forall a, b | 0 <= a < n && 0 <= b < n ensures t(a, b) == prev(a, b) + last(a, b) {
        CellAdd(z, a, b, Gram(f, r - 1, a, b), RankOne(d, c, a, b));
      }
      TableAdd(prev, last, t, n, n);
    }
  }

  // ------------------------------------------------------------------ the Hessian as a form

  function Var(order: seq<nat>, i: int): nat {
    if 0 <= i < |order| then order[i] else 0
  }

  ghost predicate Distinct(order: seq<nat>) {
    forall i, j :: 0 <= i < j < |order| ==> order[i] != order[j]
  }

  /** Position of a listed variable. */
  function Index(order: seq<nat>, v: nat): (i: nat)
    requires v in order
    ensures i < |order| && order[i] == v
  {
    if order[0] == v then 0 else 1 + Index(order[1..], v)
  }

  lemma ShareElsewhere(e: (nat, nat, real), order: seq<nat>, a: nat, b: nat, p: nat, q: nat)
    requires a < |order| && b < |order| && p < |order| && q < |order| && order[p] == e.0 && order[q] == e.1
    requires Distinct(order) && !(a == p && b == q) && !(a == q && b == p)
    ensures Share(e, order[a], order[b]) == 0.0
  {
  }

  /** One entry's share of the table is twice its term of the form. */
  lemma ShareTable(e: (nat, nat, real), order: seq<nat>, z: seq<real>, t: (int, int) -> real)
    requires |z| == |order| && e.0 in order && e.1 in order && Distinct(order)
    requires forall a, b :: 0 <= a < |z| && 0 <= b < |z| ==> t(a, b) == Cell(z, a, b, Share(e, Var(order, a), Var(order, b)))
    ensures SumRows(t, |z|, |z|) == 2.0 * Product(e.2, z[Index(order, e.0)], z[Index(order, e.1)])
  {
    hide Mul, Cell, Share, Product;
    var n, p, q := |z|, Index(order, e.0), Index(order, e.1);
    forall a, b | 0 <= a < n && 0 <= b < n && !(a == p && b == q) && !(a == q && b == p) ensures t(a, b) == 0.0 {
      ShareElsewhere(e, order, a, b, p, q);
      CellAdd(z, a, b, 0.0, 0.0);
    }
    ShareCells(e, z, order, p, q);
    if p == q {
      TablePoint(t, n, n, p, p);
    } else {
      var t1: (int, int) -> real := (a, b) => if a == p && b == q then t(a, b) else 0.0;
      var t2: (int, int) -> real := (a, b) => if a == q && b == p then t(a, b) else 0.0;
      TableAdd(t1, t2, t, n, n);
      TablePoint(t1, n, n, p, q);
      TablePoint(t2, n, n, q, p);
    }
  }

  lemma ShareCells(e: (nat, nat, real), z: seq<real>, order: seq<nat>, p: nat, q: nat)
    requires p < |z| == |order| && q < |z| && order[p] == e.0 && order[q] == e.1 && Distinct(order)
    ensures p == q ==> Cell(z, p, p, Share(e, order[p], order[p])) == 2.0 * Product(e.2, z[p], z[p])
    ensures p != q ==> Cell(z, p, q, Share(e, order[p], order[q])) == Product(e.2, z[p], z[q])
    ensures p != q ==> Cell(z, q, p, Share(e, order[q], order[p])) == Product(e.2, z[p], z[q])
  {
    var v, x, y := e.2, z[p], z[q];
    if p == q {
      assert Share(e, order[p], order[p]) == 2.0 * v;
      assert (x * x) * (2.0 * v) == 2.0 * (v * (x * x));
    } else {
      assert order[p] != order[q];
      assert Share(e, order[p], order[q]) == v && Share(e, order[q], order[p]) == v;
    }
  }

  lemma ListedIn(q: Entries, order: seq<nat>, n: nat)
    requires VarsIn(order, n) && forall u :: 0 <= u < |q| ==> q[u].0 in order && q[u].1 in order
    ensures EntriesIn(q, n)
  {
  }

  lemma {:induction false} HessianTable(q: Entries, order: seq<nat>, x: Point, z: seq<real>, t: (int, int) -> real)
    requires VarsIn(order, |x|) && Distinct(order) && z == Select(x, order)
    requires forall u :: 0 <= u < |q| ==> q[u].0 in order && q[u].1 in order
    requires forall a, b :: 0 <= a < |order| && 0 <= b < |order| ==>
               t(a, b) == Cell(z, a, b, Hessian(q, Var(order, a), Var(order, b)))
    ensures EntriesIn(q, |x|)
    ensures SumRows(t, |order|, |order|) == 2.0 * Form(q, x)
  {
    hide Mul, Cell, Share, Product, SumRows, Distinct;
    ListedIn(q, order, |x|);
    var n := |order|;
    if q == [] {
      forall a, b | 0 <= a < n && 0 <= b < n ensures t(a, b) == 0.0 { CellAdd(z, a, b, 0.0, 0.0); }
      TableZero(t, n, n);
    } else {
      var rest: (int, int) -> real := (a, b) => Cell(z, a, b, Hessian(q[1..], Var(order, a), Var(order, b)));
      var head: (int, int) -> real := (a, b) => Cell(z, a, b, Share(q[0], Var(order, a), Var(order, b)));
      HessianTable(q[1..], order, x, z, rest);
      ShareTable(q[0], order, z, head);
      forall a, b | 0 <= a < n && 0 <= b < n ensures t(a, b) == head(a, b) + rest(a, b) {
        CellAdd(z, a, b, Share(q[0], Var(order, a), Var(order, b)), Hessian(q[1..], Var(order, a), Var(order, b)));
      }
      TableAdd(head, rest, t, n, n);
      assert z[Index(order, q[0].0)] == x[q[0].0] && z[Index(order, q[0].1)] == x[q[0].1];
    }
  }

  /** The factorisation turns the form into squares: the weighted squares of the columns add up to
      twice the quadratic form, at every point. */
  lemma SquaresAreForm(f: Factor, q: Entries, x: Point)
    requires Factors(f, q) && VarsIn(f.order, |x|)
    ensures EntriesIn(q, |x|)
    ensures Squares(f, |f.cols|, Select(x, f.order)) == 2.0 * Form(q, x)
  {
    hide Mul, Cell, RankOne;
    var z := Select(x, f.order);
    var t: (int, int) -> real := (a, b) => Cell(z, a, b, Gram(f, |f.cols|, a, b));
    SquaresTable(f, |f.cols|, z, t);
    HessianTable(q, f.order, x, z, t);
  }
}
