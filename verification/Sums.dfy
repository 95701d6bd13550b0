/** Finite sums of reals. */
module Sums {

  /** Multiplication by name, so that proofs about sums can hide it. */
  function Mul(a: real, b: real): real {
    a * b
  }

  lemma MulAlgebra(a: real, b: real, c: real)
    ensures Mul(a, b + c) == Mul(a, b) + Mul(a, c) && Mul(a + b, c) == Mul(a, c) + Mul(b, c)
    ensures Mul(a, 0.0) == 0.0 && Mul(0.0, a) == 0.0 && Mul(1.0, a) == a
    ensures Mul(a, b) == Mul(b, a) && Mul(Mul(a, b), c) == Mul(a, Mul(b, c))
  {
  }

  ghost function Sum(n: nat, f: int -> real): real {
    if n == 0 then 0.0 else Sum(n - 1, f) + f(n - 1)
  }

  lemma {:induction false} SumEq(n: nat, f: int -> real, g: int -> real)
    requires forall i :: 0 <= i < n ==> f(i) == g(i)
    ensures Sum(n, f) == Sum(n, g)
  {
    if n > 0 { SumEq(n - 1, f, g); }
  }

  lemma {:induction false} SumZero(n: nat, f: int -> real)
    requires forall i :: 0 <= i < n ==> f(i) == 0.0
    ensures Sum(n, f) == 0.0
  {
    if n > 0 { SumZero(n - 1, f); }
  }

  lemma {:induction false} SumAdd(n: nat, f: int -> real, g: int -> real, h: int -> real)
    requires forall i :: 0 <= i < n ==> h(i) == f(i) + g(i)
    ensures Sum(n, h) == Sum(n, f) + Sum(n, g)
  {
    if n > 0 { SumAdd(n - 1, f, g, h); }
  }

  lemma {:induction false} SumScale(n: nat, c: real, f: int -> real, h: int -> real)
    requires forall i :: 0 <= i < n ==> h(i) == Mul(c, f(i))
    ensures Sum(n, h) == Mul(c, Sum(n, f))
  {
    hide Mul;
    if n > 0 {
      SumScale(n - 1, c, f, h);
      MulAlgebra(c, Sum(n - 1, f), f(n - 1));
    } else {
      MulAlgebra(c, 0.0, 0.0);
    }
  }

  /** A sum with a single nonzero term. */
  lemma {:induction false} SumPoint(n: nat, f: int -> real, k: nat)
    requires k < n && forall i :: 0 <= i < n && i != k ==> f(i) == 0.0
    ensures Sum(n, f) == f(k)
  {
    if k == n - 1 { SumZero(n - 1, f); } else { SumPoint(n - 1, f, k); }
  }

  // ------------------------------------------------------------------ double sums

  ghost function RowSum(f: (int, int) -> real, i: int, n: nat): real {
    if n == 0 then 0.0 else RowSum(f, i, n - 1) + f(i, n - 1)
  }

  ghost function ColSum(f: (int, int) -> real, m: nat, j: int): real {
    if m == 0 then 0.0 else ColSum(f, m - 1, j) + f(m - 1, j)
  }

  /** The m-by-n table of `f`, added up row by row. */
  ghost function SumRows(f: (int, int) -> real, m: nat, n: nat): real {
    if m == 0 then 0.0 else SumRows(f, m - 1, n) + RowSum(f, m - 1, n)
  }

  /** The same table, column by column. */
  ghost function SumCols(f: (int, int) -> real, m: nat, n: nat): real {
    if n == 0 then 0.0 else SumCols(f, m, n - 1) + ColSum(f, m, n - 1)
  }

  /** Order of summation does not matter. */
  lemma {:induction false} SumSwap(f: (int, int) -> real, m: nat, n: nat)
    ensures SumRows(f, m, n) == SumCols(f, m, n)
  {
    if m == 0 {
      EmptyCols(f, n);
    } else {
      SumSwap(f, m - 1, n);
      LastRow(f, m, n);
    }
  }

  lemma {:induction false} EmptyCols(f: (int, int) -> real, n: nat)
    ensures SumCols(f, 0, n) == 0.0
  {
    if n > 0 { EmptyCols(f, n - 1); }
  }

  lemma {:induction false} LastRow(f: (int, int) -> real, m: nat, n: nat)
    requires m > 0
    ensures SumCols(f, m, n) == SumCols(f, m - 1, n) + RowSum(f, m - 1, n)
  {
    if n > 0 { LastRow(f, m, n - 1); }
  }

  /** Connecting a table to nested sums given by name. */
  lemma {:induction false} ColIsSum(f: (int, int) -> real, m: nat, j: int, g: int -> real)
    requires forall i :: 0 <= i < m ==> g(i) == f(i, j)
    ensures ColSum(f, m, j) == Sum(m, g)
  {
    if m > 0 { ColIsSum(f, m - 1, j, g); }
  }

  lemma {:induction false} RowsAreSum(f: (int, int) -> real, m: nat, n: nat, g: int -> real)
    requires forall i :: 0 <= i < m ==> g(i) == RowSum(f, i, n)
    ensures SumRows(f, m, n) == Sum(m, g)
  {
    if m > 0 { RowsAreSum(f, m - 1, n, g); }
  }

  lemma {:induction false} ColsAreSum(f: (int, int) -> real, m: nat, n: nat, g: int -> real)
    requires forall j :: 0 <= j < n ==> g(j) == ColSum(f, m, j)
    ensures SumCols(f, m, n) == Sum(n, g)
  {
    if n > 0 { ColsAreSum(f, m, n - 1, g); }
  }

  // ------------------------------------------------------------------ tables

  lemma {:induction false} TableAdd(f: (int, int) -> real, g: (int, int) -> real, h: (int, int) -> real, m: nat, n: nat)
    requires forall i, j :: 0 <= i < m && 0 <= j < n ==> h(i, j) == f(i, j) + g(i, j)
    ensures SumRows(h, m, n) == SumRows(f, m, n) + SumRows(g, m, n)
  {
    if m > 0 {
      TableAdd(f, g, h, m - 1, n);
      RowAdd(f, g, h, m - 1, n);
    }
  }

  lemma {:induction false} RowAdd(f: (int, int) -> real, g: (int, int) -> real, h: (int, int) -> real, i: int, n: nat)
    requires forall j :: 0 <= j < n ==> h(i, j) == f(i, j) + g(i, j)
    ensures RowSum(h, i, n) == RowSum(f, i, n) + RowSum(g, i, n)
  {
    if n > 0 { RowAdd(f, g, h, i, n - 1); }
  }

  lemma {:induction false} TableZero(f: (int, int) -> real, m: nat, n: nat)
    requires forall i, j :: 0 <= i < m && 0 <= j < n ==> f(i, j) == 0.0
    ensures SumRows(f, m, n) == 0.0
  {
    if m > 0 {
      TableZero(f, m - 1, n);
      RowZero(f, m - 1, n);
    }
  }

  lemma {:induction false} RowZero(f: (int, int) -> real, i: int, n: nat)
    requires forall j :: 0 <= j < n ==> f(i, j) == 0.0
    ensures RowSum(f, i, n) == 0.0
  {
    if n > 0 { RowZero(f, i, n - 1); }
  }

  lemma {:induction false} RowPoint(f: (int, int) -> real, i: int, n: nat, k: nat)
    requires k < n && forall j :: 0 <= j < n && j != k ==> f(i, j) == 0.0
    ensures RowSum(f, i, n) == f(i, k)
  {
    if k == n - 1 { RowZero(f, i, n - 1); } else { RowPoint(f, i, n - 1, k); }
  }

  /** A table with a single nonzero cell. */
  lemma {:induction false} TablePoint(f: (int, int) -> real, m: nat, n: nat, p: nat, q: nat)
    requires p < m && q < n
    requires forall i, j :: 0 <= i < m && 0 <= j < n && !(i == p && j == q) ==> f(i, j) == 0.0
    ensures SumRows(f, m, n) == f(p, q)
  {
    if p == m - 1 {
      TableZero(f, m - 1, n);
      RowPoint(f, p, n, q);
    } else {
      RowZero(f, m - 1, n);
      TablePoint(f, m - 1, n, p, q);
    }
  }

  /** A rank-one table adds up to the product of its factors' sums. */
  lemma {:induction false} TableProduct(f: (int, int) -> real, g: int -> real, h: int -> real, m: nat, n: nat)
    requires forall i, j :: 0 <= i < m && 0 <= j < n ==> f(i, j) == Mul(g(i), h(j))
    ensures SumRows(f, m, n) == Mul(Sum(m, g), Sum(n, h))
  {
    hide Mul;
    if m > 0 {
      TableProduct(f, g, h, m - 1, n);
      RowProduct(f, g(m - 1), h, m - 1, n);
      MulAlgebra(Sum(m - 1, g), g(m - 1), Sum(n, h));
    } else {
      MulAlgebra(Sum(n, h), 0.0, 0.0);
    }
  }

  lemma {:induction false} RowProduct(f: (int, int) -> real, c: real, h: int -> real, i: int, n: nat)
    requires forall j :: 0 <= j < n ==> f(i, j) == Mul(c, h(j))
    ensures RowSum(f, i, n) == Mul(c, Sum(n, h))
  {
    hide Mul;
    if n > 0 {
      RowProduct(f, c, h, i, n - 1);
      MulAlgebra(c, Sum(n - 1, h), h(n - 1));
    } else {
      MulAlgebra(c, 0.0, 0.0);
    }
  }
}
