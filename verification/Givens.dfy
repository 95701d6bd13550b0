/** The least-squares solve inside restarted GMRES: Givens rotations applied column by column to a
    Hessenberg matrix, then back-substitution. */
module Givens {
  import opened Sums

  type Vec = seq<real>

  /** A rotation (c, s) of two neighbouring coordinates. */
  type Rotation = (real, real)

  ghost predicate Unit(r: Rotation) {
    r.0 * r.0 + r.1 * r.1 == 1.0
  }

  function Rot(v: Vec, i: nat, r: Rotation): (w: Vec)
    requires i + 1 < |v|
    ensures |w| == |v|
    ensures w[i] == Mul(r.0, v[i]) + Mul(r.1, v[i + 1]) && w[i + 1] == Mul(-r.1, v[i]) + Mul(r.0, v[i + 1])
    ensures forall j :: 0 <= j < |v| && j != i && j != i + 1 ==> w[j] == v[j]
  {
    v[i := Mul(r.0, v[i]) + Mul(r.1, v[i + 1])][i + 1 := Mul(-r.1, v[i]) + Mul(r.0, v[i + 1])]
  }

  /** Rotations 0 to k - 1 in order; rotation i turns coordinates i and i + 1. */
  function Turn(v: Vec, rs: seq<Rotation>, k: nat): (w: Vec)
    requires k <= |rs| && k < |v|
    ensures |w| == |v|
  {
    if k == 0 then v else Rot(Turn(v, rs, k - 1), k - 1, rs[k - 1])
  }

  // ------------------------------------------------------------------ norms

  function NormSq(v: Vec): (s: real)
    ensures s >= 0.0
  {
    if v == [] then 0.0 else SquareOf(v[0]) + NormSq(v[1..])
  }

  function SquareOf(a: real): (s: real)
    ensures s >= 0.0
  {
    a * a
  }

  lemma {:induction false} NormConcat(v: Vec, w: Vec)
    ensures NormSq(v + w) == NormSq(v) + NormSq(w)
  {
    if v == [] {
      assert v + w == w;
    } else {
      NormConcat(v[1..], w);
      assert (v + w)[1..] == v[1..] + w;
    }
  }

  lemma NormOne(a: real)
    ensures NormSq([a]) == SquareOf(a)
  {
    assert NormSq([a][1..]) == 0.0;
  }

  lemma NormAround(v: Vec, i: nat)
    requires i < |v|
    ensures NormSq(v) == NormSq(v[..i]) + SquareOf(v[i]) + NormSq(v[i + 1..])
  {
    NormConcat(v[..i], [v[i]]);
    NormConcat(v[..i] + [v[i]], v[i + 1..]);
    NormOne(v[i]);
    assert v == v[..i] + [v[i]] + v[i + 1..];
  }

  lemma RotatedPair(c: real, s: real, a: real, b: real)
    requires c * c + s * s == 1.0
    ensures SquareOf(Mul(c, a) + Mul(s, b)) + SquareOf(Mul(-s, a) + Mul(c, b)) == SquareOf(a) + SquareOf(b)
  {
    var p, q := c * a, s * b;
    var u, w := s * a, c * b;
    assert SquareOf(p + q) == p * p + 2.0 * (p * q) + q * q;
    assert SquareOf(w - u) == w * w - 2.0 * (u * w) + u * u;
    assert p * q == u * w by { assert (c * a) * (s * b) == (s * a) * (c * b); }
    assert p * p + u * u == (c * c + s * s) * (a * a);
    assert q * q + w * w == (c * c + s * s) * (b * b);
  }

  /** A rotation keeps the norm. */
  lemma RotNorm(v: Vec, i: nat, r: Rotation)
    requires i + 1 < |v| && Unit(r)
    ensures NormSq(Rot(v, i, r)) == NormSq(v)
  {
    hide Mul, SquareOf, Unit, NormSq, Rot;
    RotSquares(v, i, r);
    var w := Rot(v, i, r);
    NormPair(v, i);
    NormPair(w, i);
    assert w[..i] == v[..i] && w[i + 2..] == v[i + 2..];
  }

  lemma RotSquares(v: Vec, i: nat, r: Rotation)
    requires i + 1 < |v| && Unit(r)
    ensures SquareOf(Rot(v, i, r)[i]) + SquareOf(Rot(v, i, r)[i + 1]) == SquareOf(v[i]) + SquareOf(v[i + 1])
  {
    RotatedPair(r.0, r.1, v[i], v[i + 1]);
    hide Mul, SquareOf, Unit, Rot;
  }

  lemma NormPair(v: Vec, i: nat)
    requires i + 1 < |v|
    ensures NormSq(v) == NormSq(v[..i]) + SquareOf(v[i]) + SquareOf(v[i + 1]) + NormSq(v[i + 2..])
  {
    hide SquareOf;
    NormAround(v, i);
    NormAround(v[i + 1..], 0);
    assert v[i + 1..][1..] == v[i + 2..] && v[i + 1..][..0] == [];
  }

  ghost predicate AllUnit(rs: seq<Rotation>, k: nat) {
    k <= |rs| && forall i :: 0 <= i < k ==> Unit(rs[i])
  }

  lemma {:induction false} TurnNorm(v: Vec, rs: seq<Rotation>, k: nat)
    requires k < |v| && AllUnit(rs, k)
    ensures NormSq(Turn(v, rs, k)) == NormSq(v)
  {
    if k > 0 {
      TurnNorm(v, rs, k - 1);
      assert Unit(rs[k - 1]);
      RotNorm(Turn(v, rs, k - 1), k - 1, rs[k - 1]);
    }
  }

  // ------------------------------------------------------------------ linearity

  function Less(v: Vec, a: real, w: Vec): (r: Vec)
    requires |v| == |w|
    ensures |r| == |v| && forall i :: 0 <= i < |v| ==> r[i] == v[i] - Mul(a, w[i])
  {
    seq(|v|, i requires 0 <= i < |v| => v[i] - Mul(a, w[i]))
  }

  lemma RotCoordinate(c: real, s: real, v: real, v': real, a: real, w: real, w': real)
    ensures Mul(c, v - Mul(a, w)) + Mul(s, v' - Mul(a, w')) == (Mul(c, v) + Mul(s, v')) - Mul(a, Mul(c, w) + Mul(s, w'))
  {
    assert c * (v - a * w) == c * v - a * (c * w);
    assert s * (v' - a * w') == s * v' - a * (s * w');
  }

  lemma RotLinear(v: Vec, a: real, w: Vec, i: nat, r: Rotation)
    requires |v| == |w| && i + 1 < |v|
    ensures Rot(Less(v, a, w), i, r) == Less(Rot(v, i, r), a, Rot(w, i, r))
  {
    hide Mul;
    RotCoordinate(r.0, r.1, v[i], v[i + 1], a, w[i], w[i + 1]);
    RotCoordinate(-r.1, r.0, v[i], v[i + 1], a, w[i], w[i + 1]);
  }

  lemma {:induction false} TurnLinear(v: Vec, a: real, w: Vec, rs: seq<Rotation>, k: nat)
    requires |v| == |w| && k <= |rs| && k < |v|
    ensures Turn(Less(v, a, w), rs, k) == Less(Turn(v, rs, k), a, Turn(w, rs, k))
  {
    if k > 0 {
      TurnLinear(v, a, w, rs, k - 1);
      RotLinear(Turn(v, rs, k - 1), a, Turn(w, rs, k - 1), k - 1, rs[k - 1]);
    }
  }

  ghost predicate Sized(cols: seq<Vec>, n: nat) {
    forall j :: 0 <= j < |cols| ==> |cols[j]| == n
  }

  /** e - y_0 cols_0 - ... - y_{k-1} cols_{k-1} */
  function Residual(e: Vec, cols: seq<Vec>, y: Vec, k: nat): (r: Vec)
    requires k <= |cols| && k <= |y| && Sized(cols, |e|)
    ensures |r| == |e|
  {
    if k == 0 then e else Less(Residual(e, cols, y, k - 1), y[k - 1], cols[k - 1])
  }

  function Turned(cols: seq<Vec>, rs: seq<Rotation>, k: nat, n: nat): (r: seq<Vec>)
    requires Sized(cols, n) && k <= |rs| && k < n
    ensures |r| == |cols| && Sized(r, n) && forall j :: 0 <= j < |cols| ==> r[j] == Turn(cols[j], rs, k)
  {
    seq(|cols|, j requires 0 <= j < |cols| => Turn(cols[j], rs, k))
  }

  /** Rotating the residual is the residual of the rotated system. */
  lemma {:induction false} TurnResidual(e: Vec, cols: seq<Vec>, y: Vec, l: nat, rs: seq<Rotation>, k: nat)
    requires l <= |cols| && l <= |y| && Sized(cols, |e|) && k <= |rs| && k < |e|
    ensures Turn(Residual(e, cols, y, l), rs, k) == Residual(Turn(e, rs, k), Turned(cols, rs, k, |e|), y, l)
  {
    if l > 0 {
      TurnResidual(e, cols, y, l - 1, rs, k);
      TurnLinear(Residual(e, cols, y, l - 1), y[l - 1], cols[l - 1], rs, k);
    }
  }

  // ------------------------------------------------------------------ what the rotations do

  ghost predicate VanishFrom(v: Vec, p: int) {
    forall i :: 0 <= i < |v| && p <= i ==> v[i] == 0.0
  }

  /** Upper Hessenberg columns with a positive subdiagonal. */
  ghost predicate Hessenberg(cols: seq<Vec>, n: nat) {
    && |cols| < n && Sized(cols, n)
    && forall j :: 0 <= j < |cols| ==> cols[j][j + 1] > 0.0 && VanishFrom(cols[j], j + 2)
  }

  lemma RotZero(r: Rotation)
    ensures Mul(r.0, 0.0) + Mul(r.1, 0.0) == 0.0 && Mul(-r.1, 0.0) + Mul(r.0, 0.0) == 0.0
  {
  }

  /** Rotations above the zeros keep them; rotations inside them do nothing. */
  lemma {:induction false} TurnVanish(v: Vec, rs: seq<Rotation>, k: nat, p: nat)
    requires k <= |rs| && k < |v| && VanishFrom(v, p)
    ensures k < p ==> VanishFrom(Turn(v, rs, k), p)
    ensures k >= p ==> VanishFrom(Turn(v, rs, k), k + 1)
  {
    if k > 0 { TurnVanish(v, rs, k - 1, p); }
  }

  /** Once column j is triangular, later rotations leave it alone. */
  lemma {:induction false} TurnSettled(v: Vec, rs: seq<Rotation>, j: nat, k: nat)
    requires j <= k <= |rs| && k < |v| && VanishFrom(Turn(v, rs, j), j)
    ensures Turn(v, rs, k) == Turn(v, rs, j)
  {
    if j < k {
      TurnSettled(v, rs, j, k - 1);
      hide Mul;
      RotZero(rs[k - 1]);
      assert Rot(Turn(v, rs, j), k - 1, rs[k - 1]) == Turn(v, rs, j);
    }
  }

  /** The rotation that annihilates b against a, given d = sqrt(a^2 + b^2). */
  function Annihilate(a: real, b: real, d: real): Rotation {
    if d == 0.0 then (1.0, 0.0) else (a / d, b / d)
  }

  lemma AnnihilateWorks(a: real, b: real, d: real)
    requires d > 0.0 && d * d == a * a + b * b
    ensures var r := Annihilate(a, b, d);
            Unit(r) && Mul(r.0, a) + Mul(r.1, b) == d && Mul(-r.1, a) + Mul(r.0, b) == 0.0
  {
    var i := 1.0 / d;
    assert a / d == a * i && b / d == b * i && d * i == 1.0;
    assert (a * i) * a + (b * i) * b == (d * d) * i;
    assert (d * d) * i == d * (d * i);
    assert (a * i) * (a * i) + (b * i) * (b * i) == ((d * d) * i) * i;
    assert ((d * d) * i) * i == (d * i) * (d * i);
  }

  /** The rotations, column after column; `ds` are the square roots they use. */
  function Rotations(cols: seq<Vec>, ds: seq<real>, k: nat, n: nat): (rs: seq<Rotation>)
    requires k <= |cols| && k <= |ds| && Sized(cols, n) && k < n
    ensures |rs| == k
  {
    if k == 0 then []
    else
      var rs := Rotations(cols, ds, k - 1, n);
      var v := Turn(cols[k - 1], rs, k - 1);
      rs + [Annihilate(v[k - 1], v[k], ds[k - 1])]
  }

  /** ds[j] is the square root taken for column j. */
  ghost predicate Root(cols: seq<Vec>, ds: seq<real>, j: nat, n: nat)
    requires j < |cols| && j < |ds| && Sized(cols, n) && j + 1 < n
  {
    var v := Turn(cols[j], Rotations(cols, ds, j, n), j);
    ds[j] >= 0.0 && ds[j] * ds[j] == v[j] * v[j] + v[j + 1] * v[j + 1]
  }

  ghost predicate Roots(cols: seq<Vec>, ds: seq<real>, k: nat, n: nat) {
    && k <= |cols| && k <= |ds| && Hessenberg(cols, n)
    && forall j :: 0 <= j < k ==> Root(cols, ds, j, n)
  }

  lemma {:induction false} RotationsPrefix(cols: seq<Vec>, ds: seq<real>, j: nat, k: nat, n: nat)
    requires j <= k <= |cols| && k <= |ds| && Sized(cols, n) && k < n
    ensures Rotations(cols, ds, j, n) <= Rotations(cols, ds, k, n)
  {
    if j < k { RotationsPrefix(cols, ds, j, k - 1, n); }
  }

  lemma {:induction false} TurnPrefix(v: Vec, rs: seq<Rotation>, qs: seq<Rotation>, k: nat)
    requires k <= |rs| && rs <= qs && k < |v|
    ensures Turn(v, rs, k) == Turn(v, qs, k)
  {
    if k > 0 { TurnPrefix(v, rs, qs, k - 1); }
  }

  /** Rotations below leave the subdiagonal entry alone. */
  lemma {:induction false} TurnBelow(v: Vec, rs: seq<Rotation>, k: nat, i: nat)
    requires k <= |rs| && k < |v| && k < i < |v|
    ensures Turn(v, rs, k)[i] == v[i]
  {
    if k > 0 { TurnBelow(v, rs, k - 1, i); }
  }

  lemma Positive(a: real, b: real)
    requires a > 0.0 && b > 0.0
    ensures Mul(a, b) > 0.0
  {
  }

  lemma SquareIsMul(a: real)
    ensures SquareOf(a) == Mul(a, a) && SquareOf(0.0) == 0.0
  {
  }

  lemma RootNonzero(a: real, b: real, d: real)
    requires SquareOf(d) == SquareOf(a) + SquareOf(b) && b > 0.0
    ensures d != 0.0
  {
    hide SquareOf, Mul;
    SquareIsMul(b);
    Positive(b, b);
  }

  lemma RootPositive(a: real, b: real, d: real)
    requires d >= 0.0 && d * d == a * a + b * b && b > 0.0
    ensures d > 0.0
  {
    assert SquareOf(d) == SquareOf(a) + SquareOf(b);
    RootNonzero(a, b, d);
  }

  /** Column j once its own rotation is applied: diagonal ds[j] > 0, zeros below. */
  lemma ColumnDone(cols: seq<Vec>, ds: seq<real>, j: nat, n: nat)
    requires j < |cols| && Roots(cols, ds, j + 1, n)
    ensures var rs := Rotations(cols, ds, j + 1, n);
            && Unit(rs[j]) && ds[j] > 0.0
            && Turn(cols[j], rs, j + 1)[j] == ds[j] && VanishFrom(Turn(cols[j], rs, j + 1), j + 1)
  {
    var qs, rs := Rotations(cols, ds, j, n), Rotations(cols, ds, j + 1, n);
    var v := Turn(cols[j], qs, j);
    assert Root(cols, ds, j, n);
    TurnBelow(cols[j], qs, j, j + 1);
    RootPositive(v[j], v[j + 1], ds[j]);
    AnnihilateWorks(v[j], v[j + 1], ds[j]);
    TurnVanish(cols[j], qs, j, j + 2);
    TurnPrefix(cols[j], qs, rs, j);
    hide Mul, Annihilate;
  }

  /** All rotations together: every column j is upper triangular with diagonal ds[j]. */
  lemma Triangular(cols: seq<Vec>, ds: seq<real>, j: nat, k: nat, n: nat)
    requires j < k <= |cols| && Roots(cols, ds, k, n)
    ensures var rs := Rotations(cols, ds, k, n);
            && Unit(rs[j]) && ds[j] > 0.0
            && Turn(cols[j], rs, k)[j] == ds[j] && VanishFrom(Turn(cols[j], rs, k), j + 1)
            && Turn(cols[j], rs, k) == Turn(cols[j], Rotations(cols, ds, j + 1, n), j + 1)
  {
    assert Roots(cols, ds, j + 1, n);
    ColumnDone(cols, ds, j, n);
    RotationsPrefix(cols, ds, j + 1, k, n);
    var qs, rs := Rotations(cols, ds, j + 1, n), Rotations(cols, ds, k, n);
    TurnPrefix(cols[j], qs, rs, j + 1);
    TurnSettled(cols[j], rs, j + 1, k);
  }

  // ------------------------------------------------------------------ least squares

  /** The right-hand side beta * e_1. */
  function Start(beta: real, n: nat): (e: Vec)
    requires n > 0
    ensures |e| == n && e[0] == beta && forall i :: 1 <= i < n ==> e[i] == 0.0
  {
    seq(n, i => if i == 0 then beta else 0.0)
  }

  lemma {:induction false} ResidualAt(e: Vec, cols: seq<Vec>, y: Vec, k: nat, i: nat)
    requires k <= |cols| && k <= |y| && Sized(cols, |e|) && i < |e|
    requires forall j :: 0 <= j < k ==> cols[j][i] == 0.0
    ensures Residual(e, cols, y, k)[i] == e[i]
  {
    if k > 0 {
      ResidualAt(e, cols, y, k - 1, i);
      MulAlgebra(y[k - 1], 0.0, 0.0);
    }
  }

  lemma {:induction false} NormVanish(v: Vec)
    requires VanishFrom(v, 0)
    ensures NormSq(v) == 0.0
  {
    if v != [] { NormVanish(v[1..]); }
  }

  /** The last coordinate of the rotated right-hand side after k columns. */
  function Last(cols: seq<Vec>, ds: seq<real>, beta: real, k: nat, n: nat): real
    requires k <= |cols| && k <= |ds| && Sized(cols, n) && k < n
  {
    Turn(Start(beta, n), Rotations(cols, ds, k, n), k)[k]
  }

  /** The residual after the rotations: the triangular part, then the last coordinate. */
  ghost function Upper(cols: seq<Vec>, ds: seq<real>, beta: real, y: Vec, k: nat, n: nat): (u: Vec)
    requires k <= |cols| && k <= |ds| && k <= |y| && Sized(cols, n) && k < n
    ensures |u| == k
  {
    var rs := Rotations(cols, ds, k, n);
    Residual(Turn(Start(beta, n), rs, k), Turned(cols, rs, k, n), y, k)[..k]
  }

  lemma UnitRotations(cols: seq<Vec>, ds: seq<real>, k: nat, n: nat)
    requires Roots(cols, ds, k, n)
    ensures AllUnit(Rotations(cols, ds, k, n), k)
  {
    forall i | 0 <= i < k ensures Unit(Rotations(cols, ds, k, n)[i]) { Triangular(cols, ds, i, k, n); }
  }

  /** For every y the squared residual splits into the triangular part and the last coordinate. */
  lemma NormSplits(cols: seq<Vec>, ds: seq<real>, beta: real, y: Vec, k: nat, n: nat)
    requires Roots(cols, ds, k, n) && k <= |y|
    ensures NormSq(Residual(Start(beta, n), cols, y, k))
         == NormSq(Upper(cols, ds, beta, y, k, n)) + SquareOf(Last(cols, ds, beta, k, n))
  {
    var e, rs := Start(beta, n), Rotations(cols, ds, k, n);
    var r := Residual(e, cols, y, k);
    UnitRotations(cols, ds, k, n);
    TurnNorm(r, rs, k);
    TurnResidual(e, cols, y, k, rs, k);
    var g, rot := Turn(e, rs, k), Turned(cols, rs, k, n);
    var x := Residual(g, rot, y, k);
    TurnVanish(e, rs, k, 1);
    forall i | k <= i < n ensures x[i] == g[i] {
      forall j | 0 <= j < k ensures rot[j][i] == 0.0 { Triangular(cols, ds, j, k, n); }
      ResidualAt(g, rot, y, k, i);
    }
    hide Rotations, Residual, Turn, SquareOf;
    NormAround(x, k);
    NormVanish(x[k + 1..]);
  }

  /** y solves the triangular system. */
  ghost predicate Solves(cols: seq<Vec>, ds: seq<real>, beta: real, y: Vec, k: nat, n: nat)
    requires k <= |cols| && k <= |ds| && k <= |y| && Sized(cols, n) && k < n
  {
    VanishFrom(Upper(cols, ds, beta, y, k, n), 0)
  }

  /** y attains the least |beta e_1 - H y|, which is |value|. */
  ghost predicate Minimises(cols: seq<Vec>, beta: real, y: Vec, k: nat, n: nat, value: real)
    requires k <= |cols| && k <= |y| && Sized(cols, n) && n > 0
  {
    && NormSq(Residual(Start(beta, n), cols, y, k)) == SquareOf(value)
    && forall z: Vec :: k <= |z| ==>
         NormSq(Residual(Start(beta, n), cols, y, k)) <= NormSq(Residual(Start(beta, n), cols, z, k))
  }

  /** A solution of the triangular system minimises the residual, whose norm is |e1[k]|. */
  lemma LeastSquares(cols: seq<Vec>, ds: seq<real>, beta: real, y: Vec, k: nat, n: nat)
    requires Roots(cols, ds, k, n) && k <= |y| && Solves(cols, ds, beta, y, k, n)
    ensures Minimises(cols, beta, y, k, n, Last(cols, ds, beta, k, n))
  {
    Attained(cols, ds, beta, y, k, n);
    var floor := SquareOf(Last(cols, ds, beta, k, n));
    forall z: Vec | k <= |z| ensures floor <= NormSq(Residual(Start(beta, n), cols, z, k)) {
      Floor(cols, ds, beta, z, k, n);
    }
    hide Residual, Last, SquareOf, NormSq, Solves, Roots;
  }

  lemma Floor(cols: seq<Vec>, ds: seq<real>, beta: real, z: Vec, k: nat, n: nat)
    requires Roots(cols, ds, k, n) && k <= |z|
    ensures SquareOf(Last(cols, ds, beta, k, n)) <= NormSq(Residual(Start(beta, n), cols, z, k))
  {
    hide Residual, Last, SquareOf, NormSq, Upper, Rotations;
    NormSplits(cols, ds, beta, z, k, n);
  }

  lemma Attained(cols: seq<Vec>, ds: seq<real>, beta: real, y: Vec, k: nat, n: nat)
    requires Roots(cols, ds, k, n) && k <= |y| && Solves(cols, ds, beta, y, k, n)
    ensures NormSq(Residual(Start(beta, n), cols, y, k)) == SquareOf(Last(cols, ds, beta, k, n))
  {
    NormVanish(Upper(cols, ds, beta, y, k, n));
    hide Residual, Last, SquareOf, NormSq, Upper, Rotations;
    NormSplits(cols, ds, beta, y, k, n);
  }

  lemma ShrinkingProduct(c: real, s: real, g: real)
    requires c * c + s * s == 1.0
    ensures SquareOf(Mul(-s, g) + Mul(c, 0.0)) <= SquareOf(g)
  {
    assert SquareOf(-s * g) == (s * s) * (g * g);
    assert (s * s) * (g * g) == (g * g) - (c * c) * (g * g);
    assert (c * c) * (g * g) == SquareOf(c * g);
  }

  /** The reported residual never increases. */
  lemma ResidualShrinks(cols: seq<Vec>, ds: seq<real>, beta: real, k: nat, n: nat)
    requires Roots(cols, ds, k + 1, n)
    ensures SquareOf(Last(cols, ds, beta, k + 1, n)) <= SquareOf(Last(cols, ds, beta, k, n))
  {
    var e, rs, qs := Start(beta, n), Rotations(cols, ds, k + 1, n), Rotations(cols, ds, k, n);
    Triangular(cols, ds, k, k + 1, n);
    RotationsPrefix(cols, ds, k, k + 1, n);
    TurnPrefix(e, qs, rs, k);
    TurnVanish(e, qs, k, 1);
    var g := Turn(e, qs, k);
    assert g[k + 1] == 0.0;
    ShrinkingProduct(rs[k].0, rs[k].1, g[k]);
    hide Mul, SquareOf, Rotations;
  }

  // ------------------------------------------------------------------ the host loops

  /** Column k of the workspace holds column k of the rotated matrix, down to row `last`. */
  ghost predicate Holds(h: array2<real>, k: nat, v: Vec, last: nat)
    reads h
  {
    k < h.Length1 && last < h.Length0 && last < |v| && forall i :: 0 <= i <= last ==> h[i, k] == v[i]
  }

  ghost predicate OthersKept(h: array2<real>, before: seq<seq<real>>, k: nat)
    reads h
  {
    && |before| == h.Length0 && (forall i :: 0 <= i < |before| ==> |before[i]| == h.Length1)
    && forall i, j :: 0 <= i < h.Length0 && 0 <= j < h.Length1 && j != k ==> h[i, j] == before[i][j]
  }

  ghost function Snapshot(h: array2<real>): (s: seq<seq<real>>)
    reads h
    ensures |s| == h.Length0 && forall i :: 0 <= i < |s| ==> |s[i]| == h.Length1
    ensures forall i, j :: 0 <= i < h.Length0 && 0 <= j < h.Length1 ==> s[i][j] == h[i, j]
  {
    seq(h.Length0, i requires 0 <= i < h.Length0 reads h => seq(h.Length1, j requires 0 <= j < h.Length1 reads h => h[i, j]))
  }

  /** Copy the new column in. */
  method LoadColumn(raw: Vec, k: nat, h: array2<real>)
    requires k + 1 < |raw| == h.Length0 && k < h.Length1
    modifies h
    ensures Holds(h, k, raw, k + 1) && OthersKept(h, old(Snapshot(h)), k)
  {
    for j := 0 to k + 2
      invariant forall i :: 0 <= i < j ==> h[i, k] == raw[i]
      invariant OthersKept(h, old(Snapshot(h)), k)
    {
      h[j, k] := raw[j];
    }
  }

  /** Apply rotation i to column k. */
  method RotateEntry(k: nat, i: nat, r: Rotation, h: array2<real>, ghost v: Vec)
    requires i < k && Holds(h, k, v, k + 1)
    modifies h
    ensures Holds(h, k, Rot(v, i, r), k + 1) && OthersKept(h, old(Snapshot(h)), k)
  {
    hide Mul;
    var temp := Mul(r.0, h[i, k]) + Mul(r.1, h[i + 1, k]);
    h[i + 1, k] := Mul(-r.1, h[i, k]) + Mul(r.0, h[i + 1, k]);
    h[i, k] := temp;
  }

  lemma OthersTransitive(h: array2<real>, s: seq<seq<real>>, t: seq<seq<real>>, k: nat)
    requires OthersKept(h, t, k) && |s| == |t| && forall i :: 0 <= i < |s| ==> |s[i]| == |t[i]|
    requires forall i, j :: 0 <= i < |s| && 0 <= j < |s[i]| && j != k ==> t[i][j] == s[i][j]
    ensures OthersKept(h, s, k)
  {
  }

  /** Apply the earlier rotations to column k. */
  method RotateEarlier(raw: Vec, k: nat, cs: array<real>, sn: array<real>, h: array2<real>, ghost rs: seq<Rotation>)
    requires k <= cs.Length && k <= sn.Length && |rs| == k && forall i :: 0 <= i < k ==> rs[i] == (cs[i], sn[i])
    requires k + 1 < |raw| && Holds(h, k, raw, k + 1)
    modifies h
    ensures Holds(h, k, Turn(raw, rs, k), k + 1) && OthersKept(h, old(Snapshot(h)), k)
  {
    for i := 0 to k
      invariant Holds(h, k, Turn(raw, rs, i), k + 1) && OthersKept(h, old(Snapshot(h)), k)
    {
      ghost var before := Snapshot(h);
      RotateEntry(k, i, (cs[i], sn[i]), h, Turn(raw, rs, i));
      OthersTransitive(h, old(Snapshot(h)), before, k);
    }
  }

  /** Copy a raw column in, apply the earlier rotations, then compute and apply its own. */
  method RotateColumn(raw: Vec, k: nat, d: real, h: array2<real>, cs: array<real>, sn: array<real>, e1: array<real>,
                      ghost rs: seq<Rotation>)
    requires k + 1 < |raw| == h.Length0 == e1.Length && k < h.Length1 == cs.Length == sn.Length
    requires cs != sn && cs != e1 && sn != e1 && |rs| == k && forall i :: 0 <= i < k ==> rs[i] == (cs[i], sn[i])
    modifies h, cs, sn, e1
    ensures OthersKept(h, old(Snapshot(h)), k)
    ensures forall i :: 0 <= i < cs.Length && i != k ==> cs[i] == old(cs[i]) && sn[i] == old(sn[i])
    ensures var v := Turn(raw, rs, k);
            && (cs[k], sn[k]) == Annihilate(v[k], v[k + 1], d)
            && Holds(h, k, Rot(v, k, (cs[k], sn[k])), k)
            && e1[..] == Rot(old(e1[..]), k, (cs[k], sn[k]))
  {
    LoadColumn(raw, k, h);
    ghost var loaded := Snapshot(h);
    RotateEarlier(raw, k, cs, sn, h, rs);
    OthersTransitive(h, old(Snapshot(h)), loaded, k);
    ghost var v := Turn(raw, rs, k);
    assert h[k, k] == v[k] && h[k + 1, k] == v[k + 1];
    cs[k] := if d == 0.0 then 1.0 else h[k, k] / d;
    sn[k] := if d == 0.0 then 0.0 else h[k + 1, k] / d;
    assert (cs[k], sn[k]) == Annihilate(v[k], v[k + 1], d);
    hide Mul, Annihilate, Turn;
    h[k, k] := Mul(cs[k], h[k, k]) + Mul(sn[k], h[k + 1, k]);
    h[k + 1, k] := 0.0;
    RotateVector(e1, k, (cs[k], sn[k]));
  }

  method RotateVector(e1: array<real>, k: nat, r: Rotation)
    requires k + 1 < e1.Length
    modifies e1
    ensures e1[..] == Rot(old(e1[..]), k, r)
  {
    hide Mul;
    var temp := Mul(r.0, e1[k]) + Mul(r.1, e1[k + 1]);
    e1[k + 1] := Mul(-r.1, e1[k]) + Mul(r.0, e1[k + 1]);
    e1[k] := temp;
  }

  /** The workspace after k columns: rotations, rotated right-hand side, triangular columns. */
  ghost predicate Factored(cols: seq<Vec>, ds: seq<real>, beta: real, k: nat, n: nat,
                           h: array2<real>, cs: array<real>, sn: array<real>, e1: array<real>)
    reads h, cs, sn, e1
    requires k <= |cols| && k <= |ds| && Sized(cols, n) && k < n
  {
    var rs := Rotations(cols, ds, k, n);
    && k <= cs.Length == sn.Length && (forall i :: 0 <= i < k ==> rs[i] == (cs[i], sn[i]))
    && e1[..] == Turn(Start(beta, n), rs, k)
    && forall j :: 0 <= j < k ==> Holds(h, j, Turn(cols[j], Rotations(cols, ds, j + 1, n), j + 1), j)
  }

  /** After every column but the last of k the residual was still outside the tolerance. */
  ghost predicate LargeBefore(cols: seq<Vec>, ds: seq<real>, beta: real, tol: real, k: nat, n: nat)
    requires k <= |cols| && k <= |ds| && Sized(cols, n) && k < n
  {
    forall j: nat :: 0 < j < k ==> !(-tol < Last(cols, ds, beta, j, n) < tol)
  }

  lemma LargeNext(cols: seq<Vec>, ds: seq<real>, beta: real, tol: real, k: nat, n: nat)
    requires k < |cols| && k < |ds| && Sized(cols, n) && k + 1 < n
    requires LargeBefore(cols, ds, beta, tol, k, n) && (k > 0 ==> !(-tol < Last(cols, ds, beta, k, n) < tol))
    ensures LargeBefore(cols, ds, beta, tol, k + 1, n)
  {
    hide Last;
  }

  lemma LastStored(cols: seq<Vec>, ds: seq<real>, beta: real, k: nat, n: nat, h: array2<real>, cs: array<real>, sn: array<real>, e1: array<real>)
    requires k <= |cols| && k <= |ds| && Sized(cols, n) && k < n && Factored(cols, ds, beta, k, n, h, cs, sn, e1)
    ensures k < e1.Length && e1[k] == Last(cols, ds, beta, k, n)
  {
    assert e1[..][k] == e1[k];
    hide Rotations, Turn, Holds;
  }

  /** The column loop: stops when the columns run out, or at the first column after which the residual is
      below the tolerance. */
  method Factor(cols: seq<Vec>, ds: seq<real>, beta: real, tol: real, h: array2<real>, cs: array<real>, sn: array<real>, e1: array<real>)
      returns (k: nat)
    requires |cols| <= |ds| && |cols| <= h.Length1 == cs.Length == sn.Length && h.Length0 == h.Length1 + 1 == e1.Length
    requires Sized(cols, h.Length0) && cs != sn && cs != e1 && sn != e1
    modifies h, cs, sn, e1
    ensures k <= |cols| && Factored(cols, ds, beta, k, h.Length0, h, cs, sn, e1)
    ensures k == |cols| || -tol < Last(cols, ds, beta, k, h.Length0) < tol
    ensures cols != [] ==> k > 0
    ensures LargeBefore(cols, ds, beta, tol, k, h.Length0)
  {
    var n := h.Length0;
    for i := 0 to n
      invariant forall j :: 0 <= j < i ==> e1[j] == if j == 0 then beta else 0.0
    {
      e1[i] := if i == 0 then beta else 0.0;
    }
    assert e1[..] == Start(beta, n);
    k := 0;
    while k < |cols|
      invariant k <= |cols| && Factored(cols, ds, beta, k, n, h, cs, sn, e1)
      invariant LargeBefore(cols, ds, beta, tol, k, n) && (k > 0 ==> !(-tol < Last(cols, ds, beta, k, n) < tol))
    {
      ghost var before := Snapshot(h);
      ghost var rs := Rotations(cols, ds, k, n);
      RotateColumn(cols[k], k, ds[k], h, cs, sn, e1, rs);
      FactoredNext(cols, ds, beta, k, n, before, rs, h, cs, sn, e1);
      LargeNext(cols, ds, beta, tol, k, n);
      k := k + 1;
      LastStored(cols, ds, beta, k, n, h, cs, sn, e1);
      hide Last, LargeBefore, Rotations, Turn;
      if -tol < e1[k] < tol { return; }
    }
  }

  lemma FactoredNext(cols: seq<Vec>, ds: seq<real>, beta: real, k: nat, n: nat, before: seq<seq<real>>, rs: seq<Rotation>,
                     h: array2<real>, cs: array<real>, sn: array<real>, e1: array<real>)
    requires k < |cols| && k < |ds| && Sized(cols, n) && k + 1 < n == h.Length0 && k < h.Length1 == cs.Length == sn.Length
    requires rs == Rotations(cols, ds, k, n) && (forall i :: 0 <= i < k ==> rs[i] == (cs[i], sn[i]))
    requires OthersKept(h, before, k)
    requires forall j :: 0 <= j < k ==> forall i :: 0 <= i <= j ==> before[i][j] == Turn(cols[j], Rotations(cols, ds, j + 1, n), j + 1)[i]
    requires var v := Turn(cols[k], rs, k);
             && (cs[k], sn[k]) == Annihilate(v[k], v[k + 1], ds[k])
             && Holds(h, k, Rot(v, k, (cs[k], sn[k])), k)
             && e1[..] == Rot(Turn(Start(beta, n), rs, k), k, (cs[k], sn[k]))
    ensures Factored(cols, ds, beta, k + 1, n, h, cs, sn, e1)
  {
    var qs := Rotations(cols, ds, k + 1, n);
    assert qs == rs + [(cs[k], sn[k])];
    TurnPrefix(cols[k], rs, qs, k);
    TurnPrefix(Start(beta, n), rs, qs, k);
    hide Rot, Annihilate;
    forall j | 0 <= j < k + 1 ensures Holds(h, j, Turn(cols[j], Rotations(cols, ds, j + 1, n), j + 1), j) {
      if j < k { assert forall i :: 0 <= i <= j ==> h[i, j] == before[i][j]; }
    }
  }

  // ------------------------------------------------------------------ back-substitution

  /** g_i minus the terms of columns lo to hi - 1 in row i. */
  function Gap(g: Vec, rot: seq<Vec>, y: Vec, i: nat, lo: nat, hi: nat): real
    requires Sized(rot, |g|) && i < |g| && hi <= |rot| && hi <= |y|
  {
    if hi <= lo then g[i] else Gap(g, rot, y, i, lo, hi - 1) - Mul(y[hi - 1], rot[hi - 1][i])
  }

  lemma {:induction false} GapLow(g: Vec, rot: seq<Vec>, y: Vec, i: nat, lo: nat, hi: nat)
    requires Sized(rot, |g|) && i < |g| && lo < hi <= |rot| && hi <= |y|
    ensures Gap(g, rot, y, i, lo, hi) == Gap(g, rot, y, i, lo + 1, hi) - Mul(y[lo], rot[lo][i])
  {
    if lo + 1 < hi { GapLow(g, rot, y, i, lo, hi - 1); }
  }

  lemma {:induction false} GapZeros(g: Vec, rot: seq<Vec>, y: Vec, i: nat, lo: nat, hi: nat)
    requires Sized(rot, |g|) && i < |g| && lo <= hi <= |rot| && hi <= |y| && forall j :: 0 <= j < lo ==> rot[j][i] == 0.0
    ensures Gap(g, rot, y, i, 0, hi) == Gap(g, rot, y, i, lo, hi)
    decreases lo
  {
    if lo > 0 {
      GapZeros(g, rot, y, i, lo - 1, hi);
      if lo - 1 < hi { GapLow(g, rot, y, i, lo - 1, hi); }
      MulAlgebra(y[lo - 1], 0.0, 0.0);
    }
  }

  lemma {:induction false} GapIsResidual(g: Vec, rot: seq<Vec>, y: Vec, i: nat, k: nat)
    requires Sized(rot, |g|) && i < |g| && k <= |rot| && k <= |y|
    ensures Residual(g, rot, y, k)[i] == Gap(g, rot, y, i, 0, k)
  {
    if k > 0 { GapIsResidual(g, rot, y, i, k - 1); }
  }

  /** The gap reads only y_lo to y_{hi-1}. */
  lemma {:induction false} GapSame(g: Vec, rot: seq<Vec>, y: Vec, z: Vec, i: nat, lo: nat, hi: nat)
    requires Sized(rot, |g|) && i < |g| && hi <= |rot| && hi <= |y| && hi <= |z| && forall j :: lo <= j < hi ==> y[j] == z[j]
    ensures Gap(g, rot, y, i, lo, hi) == Gap(g, rot, z, i, lo, hi)
  {
    if lo < hi { GapSame(g, rot, y, z, i, lo, hi - 1); }
  }

  lemma DivideOut(s: real, d: real)
    requires d != 0.0
    ensures s - Mul(s / d, d) == 0.0
  {
  }

  ghost predicate Closed(g: Vec, rot: seq<Vec>, y: Vec, i: nat, k: nat)
    requires Sized(rot, |g|) && k <= |rot| && k <= |y|
  {
    forall l :: i <= l < k && l < |g| ==> Gap(g, rot, y, l, l, k) == 0.0
  }

  lemma ClosedNext(g: Vec, rot: seq<Vec>, y: Vec, i: nat, k: nat, s: real)
    requires Sized(rot, |g|) && i < k <= |rot| && k <= |y| && i < |g| && Closed(g, rot, y, i + 1, k)
    requires s == Gap(g, rot, y, i, i + 1, k) && rot[i][i] != 0.0
    ensures Closed(g, rot, y[i := s / rot[i][i]], i, k)
  {
    var z := y[i := s / rot[i][i]];
    forall l | i <= l < k && l < |g| ensures Gap(g, rot, z, l, l, k) == 0.0 {
      if l == i {
        GapLow(g, rot, z, i, i, k);
        GapSame(g, rot, y, z, i, i + 1, k);
        DivideOut(s, rot[i][i]);
      } else {
        GapSame(g, rot, y, z, l, l, k);
      }
    }
  }

  /** Solve the stored triangular system from the last row up. A zero diagonal entry stops the loop: the
      rows below it are closed and the entries from it up are 0. */
  method BackSubstitute(h: array2<real>, e1: array<real>, k: nat, ghost rot: seq<Vec>) returns (y: array<real>)
    requires k < h.Length0 == e1.Length && k <= h.Length1 && |rot| == k && Sized(rot, e1.Length)
    requires forall j :: 0 <= j < k ==> Holds(h, j, rot[j], j)
    ensures fresh(y) && y.Length == h.Length1
    ensures (forall i :: 0 <= i < k ==> rot[i][i] != 0.0) ==> Closed(e1[..], rot, y[..], 0, k)
    ensures forall i: nat :: i < k && rot[i][i] == 0.0 && (forall j :: i < j < k ==> rot[j][j] != 0.0) ==>
              Closed(e1[..], rot, y[..], i + 1, k) && forall l :: 0 <= l <= i ==> y[l] == 0.0
    ensures VanishFrom(y[..], k)
  {
    y := new real[h.Length1](_ => 0.0);
    ghost var g := e1[..];
    var i := k;
    while i > 0
      invariant 0 <= i <= k && e1[..] == g && Closed(g, rot, y[..], i, k)
      invariant forall j :: 0 <= j < k ==> Holds(h, j, rot[j], j)
      invariant forall j :: i <= j < k ==> rot[j][j] != 0.0
      invariant forall l :: 0 <= l < y.Length && (l < i || k <= l) ==> y[l] == 0.0
    {
      i := i - 1;
      var s := e1[i];
      for j := i + 1 to k
        invariant s == Gap(g, rot, y[..], i, i + 1, j) && e1[..] == g && Closed(g, rot, y[..], i + 1, k)
        invariant forall l :: 0 <= l < k ==> Holds(h, l, rot[l], l)
      {
        assert Holds(h, j, rot[j], j);
        s := s - Mul(y[j], h[i, j]);
      }
      assert Holds(h, i, rot[i], i);
      if h[i, i] == 0.0 {
        ghost var closed := y[..];
        y[i] := 0.0;
        assert y[..] == closed;
        return;
      }
      ClosedNext(g, rot, y[..], i, k, s);
      ghost var before := y[..];
      y[i] := s / h[i, i];
      assert y[..] == before[i := s / rot[i][i]];
    }
  }

  /** Rows closed by back-substitution are exactly the triangular system solved. */
  lemma ClosedSolves(cols: seq<Vec>, ds: seq<real>, beta: real, y: Vec, k: nat, n: nat)
    requires Roots(cols, ds, k, n) && k <= |y|
    requires var rs := Rotations(cols, ds, k, n);
             Closed(Turn(Start(beta, n), rs, k), Turned(cols[..k], rs, k, n), y, 0, k)
    ensures Solves(cols, ds, beta, y, k, n)
  {
    var rs := Rotations(cols, ds, k, n);
    var g, rot := Turn(Start(beta, n), rs, k), Turned(cols, rs, k, n);
    var short := Turned(cols[..k], rs, k, n);
    ResidualPrefix(g, rot, short, y, k);
    forall i | 0 <= i < k ensures Residual(g, rot, y, k)[i] == 0.0 {
      forall j | 0 <= j < i ensures short[j][i] == 0.0 { Triangular(cols, ds, j, k, n); }
      GapIsResidual(g, short, y, i, k);
      GapZeros(g, short, y, i, i, k);
    }
  }

  lemma {:induction false} ResidualPrefix(g: Vec, rot: seq<Vec>, short: seq<Vec>, y: Vec, k: nat)
    requires Sized(rot, |g|) && Sized(short, |g|) && k <= |short| && short <= rot && k <= |y|
    ensures Residual(g, rot, y, k) == Residual(g, short, y, k)
  {
    if k > 0 { ResidualPrefix(g, rot, short, y, k - 1); }
  }

  lemma RootsPrefix(cols: seq<Vec>, ds: seq<real>, k: nat, n: nat)
    requires Roots(cols, ds, |cols|, n) && k <= |cols|
    ensures Roots(cols, ds, k, n) && Sized(cols, n) && Sized(cols[..k], n) && k <= |ds| && k < n
  {
  }

  /** The stored columns are the rotated ones, with nonzero diagonal. */
  lemma FactoredColumns(cols: seq<Vec>, ds: seq<real>, beta: real, k: nat, n: nat,
                        h: array2<real>, cs: array<real>, sn: array<real>, e1: array<real>) returns (rot: seq<Vec>)
    requires k <= |cols| && Roots(cols, ds, k, n) && Sized(cols[..k], n) && k < n && Factored(cols, ds, beta, k, n, h, cs, sn, e1)
    ensures rot == Turned(cols[..k], Rotations(cols, ds, k, n), k, n) && |rot| == k && Sized(rot, n)
    ensures forall j :: 0 <= j < k ==> Holds(h, j, rot[j], j)
    ensures forall j :: 0 <= j < k ==> rot[j][j] != 0.0
    ensures e1[..] == Turn(Start(beta, n), Rotations(cols, ds, k, n), k)
  {
    rot := Turned(cols[..k], Rotations(cols, ds, k, n), k, n);
    forall j | 0 <= j < k ensures Holds(h, j, rot[j], j) && rot[j][j] != 0.0 { Triangular(cols, ds, j, k, n); }
  }

  /** One cycle of the host solve, in a workspace that may hold an earlier cycle's values: the y it
      returns minimises |beta e_1 - H y|, the minimum is the last entry of the rotated right-hand
      side, and the loop stopped for one of its two reasons. */
  method SolveCycle(cols: seq<Vec>, ds: seq<real>, beta: real, tol: real,
                    h: array2<real>, cs: array<real>, sn: array<real>, e1: array<real>) returns (y: array<real>, k: nat)
    requires |cols| <= h.Length1 == cs.Length == sn.Length && h.Length0 == h.Length1 + 1 == e1.Length
    requires Roots(cols, ds, |cols|, h.Length0) && cs != sn && cs != e1 && sn != e1
    modifies h, cs, sn, e1
    ensures k <= |cols| && k <= y.Length
    ensures Minimises(cols, beta, y[..], k, h.Length0, Last(cols, ds, beta, k, h.Length0))
    ensures k == |cols| || -tol < Last(cols, ds, beta, k, h.Length0) < tol
    ensures cols != [] ==> k > 0
    ensures LargeBefore(cols, ds, beta, tol, k, h.Length0)
    ensures VanishFrom(y[..], k)
  {
    k := Factor(cols, ds, beta, tol, h, cs, sn, e1);
    RootsPrefix(cols, ds, k, h.Length0);
    ghost var rot := FactoredColumns(cols, ds, beta, k, h.Length0, h, cs, sn, e1);
    hide Factored, Roots, Rotations, Turn, Last, Closed, Solves, Holds, Minimises, LargeBefore, VanishFrom;
    y := BackSubstitute(h, e1, k, rot);
    ClosedSolves(cols, ds, beta, y[..], k, h.Length0);
    LeastSquares(cols, ds, beta, y[..], k, h.Length0);
  }
}
