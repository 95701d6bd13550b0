/** The quadratic objective under the column permutation: compressed rows rebuilt by counting,
    prefix sums and scatter. */
module ConeObjective {
  import opened Extended
  import opened ConeModel
  import opened ConeFactor
  import opened ConePasses
  import opened ConePermute
  import opened ConeTheorem
  import opened Sums

  /** Compressed sparse rows. */
  datatype Csr = Csr(offsets: seq<nat>, indices: seq<nat>, values: seq<real>)

  predicate RowFits(q: Csr, i: nat) {
    i + 1 < |q.offsets| && q.offsets[i] <= q.offsets[i + 1] <= |q.values|
  }

  /** The checks made on the objective before it is rewritten. */
  predicate Valid(q: Csr, n: nat) {
    && |q.indices| == |q.values| && |q.offsets| == n + 1 && q.offsets[0] == 0 && q.offsets[n] == |q.values|
    && (forall i :: 0 <= i < n ==> RowFits(q, i))
    && (forall t :: 0 <= t < |q.indices| ==> q.indices[t] < n)
  }

  function Length(q: Csr, n: nat, i: int): nat
    requires Valid(q, n)
  {
    if 0 <= i < n then assert RowFits(q, i); q.offsets[i + 1] - q.offsets[i] else 0
  }

  /** Row i as a list of column and value; rows past the model's own are empty. */
  function RowOf(q: Csr, n: nat, i: nat): (r: Terms)
    requires Valid(q, n)
    ensures |r| == Length(q, n, i) && TermsIn(r, n)
    ensures i < n ==> RowFits(q, i) && forall t :: 0 <= t < |r| ==> r[t] == (q.indices[q.offsets[i] + t], q.values[q.offsets[i] + t])
  {
    if i < n then
      assert RowFits(q, i);
      seq(Length(q, n, i), t requires 0 <= t < Length(q, n, i) =>
        (q.indices[q.offsets[i] + t], q.values[q.offsets[i] + t]))
    else []
  }

  // ------------------------------------------------------------------ compressed rows

  function ColumnsOf(t: Terms): (r: seq<nat>)
    ensures |r| == |t| && forall k :: 0 <= k < |t| ==> r[k] == t[k].0
  {
    seq(|t|, k requires 0 <= k < |t| => t[k].0)
  }

  function ValuesOf(t: Terms): (r: seq<real>)
    ensures |r| == |t| && forall k :: 0 <= k < |t| ==> r[k] == t[k].1
  {
    seq(|t|, k requires 0 <= k < |t| => t[k].1)
  }

  /** Rows one after another, with the offsets where they begin. */
  function Compress(rows: seq<Terms>): Csr {
    if rows == [] then Csr([0], [], [])
    else
      var k := |rows| - 1;
      var c := Compress(rows[..k]);
      Csr(c.offsets + [|c.values| + |rows[k]|], c.indices + ColumnsOf(rows[k]), c.values + ValuesOf(rows[k]))
  }

  ghost predicate RowsIn(rows: seq<Terms>, n: nat) {
    forall i :: 0 <= i < |rows| ==> TermsIn(rows[i], n)
  }

  lemma {:induction false} CompressFits(rows: seq<Terms>, n: nat)
    requires RowsIn(rows, n)
    ensures var c := Compress(rows);
            && |c.indices| == |c.values| && |c.offsets| == |rows| + 1 && c.offsets[0] == 0 && c.offsets[|rows|] == |c.values|
            && (forall i :: 0 <= i < |rows| ==> RowFits(c, i)) && (forall t :: 0 <= t < |c.indices| ==> c.indices[t] < n)
  {
    if rows != [] {
      var k := |rows| - 1;
      CompressFits(rows[..k], n);
      var c, d := Compress(rows), Compress(rows[..k]);
      assert TermsIn(rows[k], n);
      forall i | 0 <= i < |rows| ensures RowFits(c, i) {
        if i < k { assert RowFits(d, i); }
      }
    }
  }

  function RowsOf(q: Csr, n: nat, k: nat): (r: seq<Terms>)
    requires Valid(q, n)
    ensures |r| == k
  {
    seq(k, i requires 0 <= i < k => RowOf(q, n, i))
  }

  /** Cutting off one more row. */
  lemma SliceRow(q: Csr, n: nat, i: nat)
    requires Valid(q, n) && i < n
    ensures q.offsets[i] <= q.offsets[i + 1] <= |q.values| && |q.indices| == |q.values| && |q.offsets| == n + 1
    ensures q.indices[..q.offsets[i + 1]] == q.indices[..q.offsets[i]] + ColumnsOf(RowOf(q, n, i))
    ensures q.values[..q.offsets[i + 1]] == q.values[..q.offsets[i]] + ValuesOf(RowOf(q, n, i))
    ensures |RowOf(q, n, i)| == q.offsets[i + 1] - q.offsets[i]
  {
    assert RowFits(q, i);
  }

  /** The first k rows of a compressed form. */
  ghost function Head(q: Csr, n: nat, k: nat): Csr
    requires Valid(q, n) && k <= n
  {
    RowEnds(q, n, k);
    Csr(q.offsets[..k + 1], q.indices[..q.offsets[k]], q.values[..q.offsets[k]])
  }

  lemma RowEnds(q: Csr, n: nat, k: nat)
    requires Valid(q, n) && k <= n
    ensures k + 1 <= |q.offsets| && q.offsets[k] <= |q.values| == |q.indices|
  {
    if k > 0 { assert RowFits(q, k - 1); }
  }

  lemma HeadNext(q: Csr, n: nat, k: nat)
    requires Valid(q, n) && k < n
    ensures var c, row := Head(q, n, k), RowOf(q, n, k);
            Head(q, n, k + 1) == Csr(c.offsets + [|c.values| + |row|], c.indices + ColumnsOf(row), c.values + ValuesOf(row))
  {
    SliceRow(q, n, k);
    hide RowOf, RowFits, ColumnsOf, ValuesOf;
    assert q.offsets[..k + 2] == q.offsets[..k + 1] + [q.offsets[k + 1]];
  }

  lemma {:induction false} CompressRows(q: Csr, n: nat, k: nat)
    requires Valid(q, n) && k <= n
    ensures Compress(RowsOf(q, n, k)) == Head(q, n, k)
  {
    if k > 0 {
      CompressRows(q, n, k - 1);
      HeadNext(q, n, k - 1);
      var rows := RowsOf(q, n, k);
      assert rows[..k - 1] == RowsOf(q, n, k - 1) && rows[k - 1] == RowOf(q, n, k - 1);
      hide RowOf, RowsOf, RowFits, ColumnsOf, ValuesOf, Head, Valid;
    } else {
      assert q.offsets[..1] == [0];
    }
  }

  /** What is accepted: an objective is valid exactly when it is the compressed form of n rows over the
      model's columns. */
  lemma ValidIsCompressed(q: Csr, n: nat)
    ensures Valid(q, n) <==> exists rows :: |rows| == n && RowsIn(rows, n) && q == Compress(rows)
  {
    if Valid(q, n) {
      CompressRows(q, n, n);
      var rows := RowsOf(q, n, n);
      assert q.offsets[..n + 1] == q.offsets && q.indices[..|q.values|] == q.indices && q.values[..|q.values|] == q.values;
      assert RowsIn(rows, n);
    }
    if rows :| |rows| == n && RowsIn(rows, n) && q == Compress(rows) {
      CompressFits(rows, n);
    }
  }

  // ------------------------------------------------------------------ offsets

  function Prefix(lens: seq<nat>, k: nat): nat
    requires k <= |lens|
  {
    if k == 0 then 0 else Prefix(lens, k - 1) + lens[k - 1]
  }

  lemma {:induction false} PrefixMonotone(lens: seq<nat>, j: nat, k: nat)
    requires j <= k <= |lens|
    ensures Prefix(lens, j) <= Prefix(lens, k)
  {
    if j < k { PrefixMonotone(lens, j, k - 1); }
  }

  lemma {:induction false} PrefixIsSum(lens: seq<nat>, k: nat, f: int -> real)
    requires k <= |lens| && forall i :: 0 <= i < k ==> f(i) == lens[i] as real
    ensures Prefix(lens, k) as real == Sum(k, f)
  {
    if k > 0 { PrefixIsSum(lens, k - 1, f); }
  }

  lemma {:induction false} OffsetIsSum(q: Csr, n: nat, k: nat, f: int -> real)
    requires Valid(q, n) && k <= n && forall i :: 0 <= i < k ==> f(i) == Length(q, n, i) as real
    ensures q.offsets[k] as real == Sum(k, f)
  {
    if k > 0 {
      OffsetIsSum(q, n, k - 1, f);
      assert RowFits(q, k - 1);
    }
  }

  lemma {:induction false} SumPadded(n: nat, k: nat, f: int -> real)
    requires n <= k && forall i :: n <= i < k ==> f(i) == 0.0
    ensures Sum(k, f) == Sum(n, f)
  {
    if n < k { SumPadded(n, k - 1, f); }
  }

  /** Row lengths in the new order. */
  function Lengths(q: Csr, n: nat, w: seq<nat>): (lens: seq<nat>)
    requires Valid(q, n)
    ensures |lens| == |w| && forall k :: 0 <= k < |w| ==> lens[k] == Length(q, n, w[k])
  {
    seq(|w|, k requires 0 <= k < |w| => Length(q, n, w[k]))
  }

  /** The rows keep their total length. */
  lemma TotalKept(q: Csr, n: nat, p: seq<nat>, w: seq<nat>)
    requires Valid(q, n) && Inverse(p, w) && n <= |p|
    ensures Prefix(Lengths(q, n, w), |w|) == |q.values|
  {
    var lens := Lengths(q, n, w);
    var f: int -> real := k => if 0 <= k < |lens| then lens[k] as real else 0.0;
    var g: int -> real := j => Length(q, n, j) as real;
    PrefixIsSum(lens, |w|, f);
    SumPermuted(|p|, p, w, f, g);
    SumPadded(n, |p|, g);
    OffsetIsSum(q, n, n, g);
  }

  // ------------------------------------------------------------------ what the rewritten objective is

  /** `r` holds row i of `q`, its columns renamed, as row p(i), and nothing else. */
  ghost predicate Rewritten(q: Csr, n: nat, p: seq<nat>, r: Csr)
    requires Valid(q, n) && n <= |p|
  {
    && Valid(r, |p|) && |r.values| == |q.values|
    && (forall i :: 0 <= i < |p| ==> p[i] < |p| && RowOf(r, |p|, p[i]) == MapTerms(Widen(RowOf(q, n, i), n, |p|), p))
  }

  /** The same terms, read in a wider range of columns. */
  function Widen(t: Terms, n: nat, k: nat): (r: Terms)
    requires TermsIn(t, n) && n <= k
    ensures r == t && TermsIn(r, k)
  {
    t
  }

  /** The value of the objective's quadratic form. */
  ghost function QuadraticAt(q: Csr, n: nat, x: Point, i: int): real
    requires Valid(q, n) && n <= |x|
  {
    if 0 <= i < n then Mul(x[i], Activity(Widen(RowOf(q, n, i), n, |x|), x)) else 0.0
  }

  ghost function Quadratic(q: Csr, n: nat, x: Point): real
    requires Valid(q, n) && n <= |x|
  {
    Sum(n, i => QuadraticAt(q, n, x, i))
  }

  /** Entry (i, j): the values row i lists for column j. */
  function Listed(t: Terms, j: nat): real {
    if t == [] then 0.0 else (if t[0].0 == j then t[0].1 else 0.0) + Listed(t[1..], j)
  }

  lemma {:induction false} ListedMapped(t: Terms, p: seq<nat>, w: seq<nat>, j: nat)
    requires TermsIn(t, |p|) && Inverse(p, w) && j < |p|
    ensures Listed(MapTerms(t, p), p[j]) == Listed(t, j)
  {
    if t != [] {
      ListedMapped(t[1..], p, w, j);
      assert MapTerms(t, p)[1..] == MapTerms(t[1..], p);
      assert w[p[t[0].0]] == t[0].0 && w[p[j]] == j;
    }
  }

  /** Q'[p(i), p(j)] = Q[i, j], with Q extended by zero rows for the added columns. */
  lemma EntriesKept(q: Csr, n: nat, p: seq<nat>, w: seq<nat>, r: Csr, i: nat, j: nat)
    requires Valid(q, n) && n <= |p| && Inverse(p, w) && Rewritten(q, n, p, r) && i < |p| && j < |p|
    ensures p[i] < |p| && Listed(RowOf(r, |p|, p[i]), p[j]) == Listed(RowOf(q, n, i), j)
    ensures n <= i ==> RowOf(r, |p|, p[i]) == []
  {
    ListedMapped(Widen(RowOf(q, n, i), n, |p|), p, w, j);
  }

  /** The quadratic form agrees at every point of the new layout. */
  lemma FormKept(q: Csr, n: nat, p: seq<nat>, w: seq<nat>, r: Csr, z: Point)
    requires Valid(q, n) && n <= |p| && Inverse(p, w) && Rewritten(q, n, p, r) && |z| == |p|
    ensures VarsIn(p, |z|) && Quadratic(r, |p|, z) == Quadratic(q, n, Select(z, p))
  {
    var x := Select(z, p);
    var f: int -> real := k => QuadraticAt(r, |p|, z, k);
    var g: int -> real := i => QuadraticAt(q, n, x, i);
    forall i | 0 <= i < |p| ensures g(i) == f(p[i]) { RowKept(q, n, p, r, z, i); }
    hide QuadraticAt, Rewritten;
    SumPermuted(|p|, p, w, f, g);
    SumOutside(q, n, |p|, x, g);
    SumEq(|p|, f, i => QuadraticAt(r, |p|, z, i));
    SumEq(n, g, i => QuadraticAt(q, n, x, i));
  }

  lemma SumOutside(q: Csr, n: nat, k: nat, x: Point, g: int -> real)
    requires Valid(q, n) && n <= |x| && n <= k && forall i :: g(i) == QuadraticAt(q, n, x, i)
    ensures Sum(k, g) == Sum(n, g)
  {
    SumPadded(n, k, g);
  }

  lemma RowKept(q: Csr, n: nat, p: seq<nat>, r: Csr, z: Point, i: nat)
    requires Valid(q, n) && n <= |p| == |z| && Rewritten(q, n, p, r) && i < |p| && VarsIn(p, |z|)
    ensures QuadraticAt(q, n, Select(z, p), i) == QuadraticAt(r, |p|, z, p[i])
  {
    hide Mul;
    MapActivity(Widen(RowOf(q, n, i), n, |p|), p, z);
    if i >= n {
      assert RowOf(r, |p|, p[i]) == [];
      MulAlgebra(z[p[i]], 0.0, 0.0);
    }
  }

  // ------------------------------------------------------------------ the rewriting loops

  ghost predicate Placing(p: seq<nat>, w: seq<nat>, n: nat) {
    Inverse(p, w) && n <= |p|
  }

  /** Row lengths counted into the slot after their new row, for the first k rows. */
  ghost predicate Counted(q: Csr, n: nat, p: seq<nat>, w: seq<nat>, k: nat, counts: seq<nat>)
    requires Valid(q, n) && Placing(p, w, n) && k <= n
  {
    && |counts| == |p| + 1 && counts[0] == 0
    && forall r :: 0 <= r < |p| ==> counts[r + 1] == if w[r] < k then Length(q, n, w[r]) else 0
  }

  method CountRows(q: Csr, n: nat, p: seq<nat>, ghost w: seq<nat>) returns (counts: array<nat>)
    requires Valid(q, n) && Placing(p, w, n)
    ensures fresh(counts) && Counted(q, n, p, w, n, counts[..])
  {
    counts := new nat[|p| + 1](_ => 0);
    for i := 0 to n
      invariant Counted(q, n, p, w, i, counts[..])
    {
      assert RowFits(q, i) && w[p[i]] == i;
      counts[p[i] + 1] := q.offsets[i + 1] - q.offsets[i];
      forall r | 0 <= r < |p| ensures counts[r + 1] == if w[r] < i + 1 then Length(q, n, w[r]) else 0 {
        assert r == p[i] || w[r] != i;
      }
    }
  }

  /** Running sums turn the counts into offsets. */
  method SumOffsets(counts: array<nat>, ghost lens: seq<nat>)
    requires counts.Length == |lens| + 1 && counts[0] == 0 && forall r :: 0 <= r < |lens| ==> counts[r + 1] == lens[r]
    modifies counts
    ensures forall r :: 0 <= r <= |lens| ==> counts[r] == Prefix(lens, r)
  {
    for k := 0 to counts.Length - 1
      invariant forall r :: 0 <= r <= k ==> counts[r] == Prefix(lens, r)
      invariant forall r :: k <= r < |lens| ==> counts[r + 1] == lens[r]
    {
      counts[k + 1] := counts[k + 1] + counts[k];
    }
  }

  /** The segment of new row r holds old row i, renamed. */
  ghost predicate SegmentHolds(q: Csr, n: nat, p: seq<nat>, i: nat, at: nat, indices: seq<nat>, values: seq<real>)
    requires Valid(q, n) && n <= |p| && i < n
  {
    && |indices| == |values| && at + Length(q, n, i) <= |values|
    && forall t :: 0 <= t < Length(q, n, i) ==>
         indices[at + t] == p[RowOf(q, n, i)[t].0] && values[at + t] == RowOf(q, n, i)[t].1
  }

  method ScatterRow(q: Csr, n: nat, p: seq<nat>, i: nat, write: array<nat>, indices: array<nat>, values: array<real>)
    requires Valid(q, n) && n <= |p| && i < n && p[i] < write.Length && indices.Length == values.Length && write != indices
    requires write[p[i]] + Length(q, n, i) <= values.Length
    modifies write, indices, values
    ensures SegmentHolds(q, n, p, i, old(write[p[i]]), indices[..], values[..])
    ensures forall r :: 0 <= r < write.Length && r != p[i] ==> write[r] == old(write[r])
    ensures forall d :: 0 <= d < values.Length && !(old(write[p[i]]) <= d < old(write[p[i]]) + Length(q, n, i)) ==>
              indices[d] == old(indices[d]) && values[d] == old(values[d])
  {
    var r, at := p[i], write[p[i]];
    ghost var row := RowOf(q, n, i);
    assert RowFits(q, i);
    for t := q.offsets[i] to q.offsets[i + 1]
      invariant write[r] == at + (t - q.offsets[i])
      invariant forall s :: 0 <= s < write.Length && s != r ==> write[s] == old(write[s])
      invariant forall s :: 0 <= s < t - q.offsets[i] ==> indices[at + s] == p[row[s].0] && values[at + s] == row[s].1
      invariant forall d :: 0 <= d < values.Length && !(at <= d < at + (t - q.offsets[i])) ==>
                  indices[d] == old(indices[d]) && values[d] == old(values[d])
    {
      assert row[t - q.offsets[i]] == (q.indices[t], q.values[t]);
      var dst := write[r];
      write[r] := dst + 1;
      indices[dst] := p[q.indices[t]];
      values[dst] := q.values[t];
    }
  }

  /** Segments of different rows do not overlap. */
  lemma IntervalsApart(lens: seq<nat>, a: nat, b: nat)
    requires a < |lens| && b < |lens| && a != b
    ensures Prefix(lens, a) + lens[a] <= Prefix(lens, b) || Prefix(lens, b) + lens[b] <= Prefix(lens, a)
  {
    if a < b { PrefixMonotone(lens, a + 1, b); } else { PrefixMonotone(lens, b + 1, a); }
  }

  /** Writing another row's segment leaves a finished one alone. */
  lemma SegmentKept(q: Csr, n: nat, p: seq<nat>, j: nat, at: nat, lo: nat, hi: nat,
                    indices: seq<nat>, values: seq<real>, indices': seq<nat>, values': seq<real>)
    requires Valid(q, n) && n <= |p| && j < n && SegmentHolds(q, n, p, j, at, indices, values)
    requires |indices'| == |indices| && |values'| == |values| && (at + Length(q, n, j) <= lo || hi <= at)
    requires forall d :: 0 <= d < |values| && !(lo <= d < hi) ==> indices'[d] == indices[d] && values'[d] == values[d]
    ensures SegmentHolds(q, n, p, j, at, indices', values')
  {
  }

  ghost predicate InRange(indices: seq<nat>, n: nat) {
    forall d :: 0 <= d < |indices| ==> indices[d] < n
  }

  /** The first k rows are in place. */
  ghost predicate Scattered(q: Csr, n: nat, p: seq<nat>, lens: seq<nat>, k: nat, indices: seq<nat>, values: seq<real>)
    requires Valid(q, n) && n <= |p| == |lens| && k <= n && VarsIn(p, |lens|)
  {
    forall j :: 0 <= j < k ==> SegmentHolds(q, n, p, j, Prefix(lens, p[j]), indices, values)
  }

  lemma ScatteredNext(q: Csr, n: nat, p: seq<nat>, w: seq<nat>, k: nat,
                      indices: seq<nat>, values: seq<real>, indices': seq<nat>, values': seq<real>)
    requires Valid(q, n) && Placing(p, w, n) && k < n && VarsIn(p, |w|) && |p| == |w|
    requires var lens, at := Lengths(q, n, w), Prefix(Lengths(q, n, w), p[k]);
             && Scattered(q, n, p, lens, k, indices, values) && |indices'| == |indices| == |values| == |values'|
             && SegmentHolds(q, n, p, k, at, indices', values')
             && (forall d :: 0 <= d < |values| && !(at <= d < at + Length(q, n, k)) ==>
                   indices'[d] == indices[d] && values'[d] == values[d])
    ensures Scattered(q, n, p, Lengths(q, n, w), k + 1, indices', values')
  {
    var lens := Lengths(q, n, w);
    var at := Prefix(lens, p[k]);
    forall j | 0 <= j < k ensures SegmentHolds(q, n, p, j, Prefix(lens, p[j]), indices', values') {
      assert w[p[j]] == j && w[p[k]] == k;
      IntervalsApart(lens, p[j], p[k]);
      SegmentKept(q, n, p, j, Prefix(lens, p[j]), at, at + Length(q, n, k), indices, values, indices', values');
    }
  }

  /** Row i fits where its offset puts it, and no other row shares its place. */
  lemma RoomFor(q: Csr, n: nat, p: seq<nat>, w: seq<nat>, i: nat)
    requires Valid(q, n) && Placing(p, w, n) && i < n && VarsIn(p, |w|) && |p| == |w|
    ensures Prefix(Lengths(q, n, w), p[i]) + Length(q, n, i) <= |q.values|
    ensures forall j :: i < j < n ==> p[j] != p[i]
  {
    var lens := Lengths(q, n, w);
    TotalKept(q, n, p, w);
    assert w[p[i]] == i;
    PrefixMonotone(lens, p[i] + 1, |lens|);
    forall j | i < j < n ensures p[j] != p[i] { assert w[p[j]] == j; }
  }

  method Scatter(q: Csr, n: nat, p: seq<nat>, ghost w: seq<nat>, offsets: array<nat>) returns (indices: array<nat>, values: array<real>)
    requires Valid(q, n) && Placing(p, w, n) && VarsIn(p, |w|) && |p| == |w| && offsets.Length == |p| + 1
    requires forall r :: 0 <= r <= |p| ==> offsets[r] == Prefix(Lengths(q, n, w), r)
    ensures fresh(indices) && fresh(values) && indices.Length == values.Length == |q.values| && InRange(indices[..], |p|)
    ensures Scattered(q, n, p, Lengths(q, n, w), n, indices[..], values[..])
  {
    ghost var lens := Lengths(q, n, w);
    if q.values != [] { NonemptyRows(q, n); }
    indices := new nat[|q.values|](_ => 0);
    values := new real[|q.values|](_ => 0.0);
    var write := new nat[offsets.Length](i requires 0 <= i < offsets.Length reads offsets => offsets[i]);
    for i := 0 to n
      invariant indices.Length == values.Length == |q.values| && InRange(indices[..], |p|)
      invariant Scattered(q, n, p, lens, i, indices[..], values[..])
      invariant forall j :: i <= j < n ==> write[p[j]] == Prefix(lens, p[j])
    {
      RoomFor(q, n, p, w, i);
      ghost var ix, vs := indices[..], values[..];
      hide Scattered, SegmentHolds, InRange, Inverse, Prefix, Length;
      ScatterRow(q, n, p, i, write, indices, values);
      ScatteredNext(q, n, p, w, i, ix, vs, indices[..], values[..]);
      RangeKept(q, n, p, i, Prefix(lens, p[i]), ix, indices[..], values[..]);
    }
  }

  lemma NonemptyRows(q: Csr, n: nat)
    requires Valid(q, n) && q.values != []
    ensures n > 0
  {
  }

  lemma RangeKept(q: Csr, n: nat, p: seq<nat>, i: nat, at: nat, before: seq<nat>, indices: seq<nat>, values: seq<real>)
    requires Valid(q, n) && n <= |p| && i < n && SegmentHolds(q, n, p, i, at, indices, values) && InRange(before, |p|)
    requires VarsIn(p, |p|) && |before| == |indices|
    requires forall d :: 0 <= d < |indices| && !(at <= d < at + Length(q, n, i)) ==> indices[d] == before[d]
    ensures InRange(indices, |p|)
  {
    forall d | 0 <= d < |indices| ensures indices[d] < |p| {
      if at <= d < at + Length(q, n, i) { assert indices[at + (d - at)] == p[RowOf(q, n, i)[d - at].0]; }
    }
  }

  lemma ScatteredIsRewritten(q: Csr, n: nat, p: seq<nat>, w: seq<nat>, r: Csr)
    requires Valid(q, n) && Placing(p, w, n) && VarsIn(p, |w|) && |p| == |w| && |r.indices| == |r.values| == |q.values|
    requires |r.offsets| == |p| + 1 && forall k :: 0 <= k <= |p| ==> r.offsets[k] == Prefix(Lengths(q, n, w), k)
    requires InRange(r.indices, |p|) && Scattered(q, n, p, Lengths(q, n, w), n, r.indices, r.values)
    ensures Rewritten(q, n, p, r)
  {
    var lens := Lengths(q, n, w);
    TotalKept(q, n, p, w);
    forall k | 0 <= k < |p| ensures RowFits(r, k) { PrefixMonotone(lens, k + 1, |lens|); }
    assert Valid(r, |p|);
    forall i | 0 <= i < |p| ensures RowOf(r, |p|, p[i]) == MapTerms(Widen(RowOf(q, n, i), n, |p|), p) {
      assert w[p[i]] == i && lens[p[i]] == Length(q, n, i);
      assert r.offsets[p[i] + 1] == Prefix(lens, p[i] + 1) == r.offsets[p[i]] + lens[p[i]];
      if i < n { assert SegmentHolds(q, n, p, i, Prefix(lens, p[i]), r.indices, r.values); }
    }
  }

  /** Rewrite the objective for the permuted columns, or reject it. */
  method RewriteObjective(q: Csr, n: nat, p: seq<nat>, ghost w: seq<nat>) returns (r: Option<Csr>)
    requires Placing(p, w, n)
    ensures r.Some? <==> Valid(q, n)
    ensures r.Some? ==> Rewritten(q, n, p, r.value)
  {
    if !Valid(q, n) { return None; }
    var offsets := CountRows(q, n, p, w);
    ghost var lens := Lengths(q, n, w);
    SumOffsets(offsets, lens);
    var indices, values := Scatter(q, n, p, w, offsets);
    var csr := Csr(offsets[..], indices[..], values[..]);
    ScatteredIsRewritten(q, n, p, w, csr);
    return Some(csr);
  }

  // ------------------------------------------------------------------ with the whole expansion

  lemma QuadraticPrefix(q: Csr, n: nat, x: Point, y: Point)
    requires Valid(q, n) && n <= |x| && x <= y
    ensures Quadratic(q, n, x) == Quadratic(q, n, y)
  {
    var f: int -> real := i => QuadraticAt(q, n, x, i);
    var g: int -> real := i => QuadraticAt(q, n, y, i);
    forall i | 0 <= i < n ensures f(i) == g(i) { ActivityPrefix(Widen(RowOf(q, n, i), n, |x|), x, y); }
    SumEq(n, f, g);
    SumEq(n, f, i => QuadraticAt(q, n, x, i));
    SumEq(n, g, i => QuadraticAt(q, n, y, i));
  }

  /** The rewritten quadratic objective of an expanded problem agrees with the original one at the
      projection of every expanded point. */
  lemma QuadraticPreserved(m: Model, fs: seq<Option<Factor>>, hs: seq<real>, tol: real, q: Csr, r: Csr, p: seq<nat>, z: Point)
    requires Input(m, fs, hs, tol) && Expand(m, fs, hs, tol).Some? && Valid(q, m.n)
    requires |z| == Expand(m, fs, hs, tol).value.model.n == |p| && m.n <= |p| && Rewritten(q, m.n, p, r)
    requires Placeable(Settled(Converted(m, fs, tol).value.m, hs)) && p == Columns(Settled(Converted(m, fs, tol).value.m, hs))
    ensures var e := Expand(m, fs, hs, tol).value;
            && VarsIn(e.columns, |z|) && |e.columns| == m.n
            && Quadratic(r, |z|, z) == Quadratic(q, m.n, Project(e, z))
  {
    var w := Converted(m, fs, tol).value;
    var s := Settled(w.m, hs);
    ConvertedFacts(m, fs, hs, tol);
    PlaceParts(s, m.n, w.heads);
    var e := Expand(m, fs, hs, tol).value;
    assert e == Place(s, m.n, w.heads);
    hide Input, Expand, Converted, Place, Placeable, Columns, Settled, Rewritten, NewToOld;
    FormKept(q, m.n, p, NewToOld(s.cones, s.n), r, z);
    assert Project(e, z) <= Select(z, p);
    QuadraticPrefix(q, m.n, Project(e, z), Select(z, p));
  }
}
