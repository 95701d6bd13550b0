/** Routing of a quadratic constraint: a standard cone, a rotated cone, or the general path. */
module ConeClassify {
  import opened Reals
  import opened Extended
  import opened ConeModel
  import opened Sums

  type Entry = (nat, nat, real)

  // ------------------------------------------------------------------ greater to less

  function Negated(t: Terms): (r: Terms)
    ensures |r| == |t| && forall i :: 0 <= i < |t| ==> r[i] == (t[i].0, -t[i].1)
  {
    seq(|t|, i requires 0 <= i < |t| => (t[i].0, -t[i].1))
  }

  function NegatedEntries(e: seq<Entry>): (r: seq<Entry>)
    ensures |r| == |e| && forall i :: 0 <= i < |e| ==> r[i] == (e[i].0, e[i].1, -e[i].2)
  {
    seq(|e|, i requires 0 <= i < |e| => (e[i].0, e[i].1, -e[i].2))
  }

  /** normalize_quadratic_constraint_greater_to_less */
  function Normalize(q: Quad): Quad {
    if q.greater then Quad(NegatedEntries(q.entries), Negated(q.linear), -q.rhs, false) else q
  }

  lemma {:induction false} NegatedActivity(t: Terms, x: Point)
    requires TermsIn(t, |x|)
    ensures TermsIn(Negated(t), |x|) && Activity(Negated(t), x) == -Activity(t, x)
  {
    if t != [] {
      NegatedActivity(t[1..], x);
      assert Negated(t)[1..] == Negated(t[1..]);
    }
  }

  lemma {:induction false} NegatedForm(e: seq<Entry>, x: Point)
    requires EntriesIn(e, |x|)
    ensures EntriesIn(NegatedEntries(e), |x|) && Form(NegatedEntries(e), x) == -Form(e, x)
  {
    if e != [] {
      NegatedForm(e[1..], x);
      assert NegatedEntries(e)[1..] == NegatedEntries(e[1..]);
      NegatedProduct(e[0].2, x[e[0].0], x[e[0].1]);
    }
  }

  lemma NegatedProduct(v: real, a: real, b: real)
    ensures Product(-v, a, b) == -Product(v, a, b)
  {
  }

  /** Normalising keeps the points of the constraint. */
  lemma NormalizeKeeps(q: Quad, x: Point)
    requires QuadIn(q, |x|)
    ensures QuadIn(Normalize(q), |x|) && QuadOk(Normalize(q), x) == QuadOk(q, x)
  {
    NegatedActivity(q.linear, x);
    NegatedForm(q.entries, x);
  }

  // ------------------------------------------------------------------ sorting and sifting entries

  predicate Precedes(a: Entry, b: Entry) {
    a.0 < b.0 || (a.0 == b.0 && a.1 < b.1)
  }

  function Insert(e: Entry, s: seq<Entry>): seq<Entry> {
    if s == [] || Precedes(e, s[0]) then [e] + s else [s[0]] + Insert(e, s[1..])
  }

  function Sort(s: seq<Entry>): seq<Entry> {
    if s == [] then [] else Insert(s[0], Sort(s[1..]))
  }

  lemma {:induction false} InsertForm(e: Entry, s: seq<Entry>, x: Point)
    requires EntriesIn(s, |x|) && e.0 < |x| && e.1 < |x|
    ensures EntriesIn(Insert(e, s), |x|) && |Insert(e, s)| == |s| + 1
    ensures Form(Insert(e, s), x) == Product(e.2, x[e.0], x[e.1]) + Form(s, x)
  {
    hide Product;
    var r := Insert(e, s);
    if s == [] || Precedes(e, s[0]) {
      assert r[1..] == s;
    } else {
      InsertForm(e, s[1..], x);
      assert r[1..] == Insert(e, s[1..]);
    }
  }

  lemma {:induction false} SortForm(s: seq<Entry>, x: Point)
    requires EntriesIn(s, |x|)
    ensures EntriesIn(Sort(s), |x|) && |Sort(s)| == |s| && Form(Sort(s), x) == Form(s, x)
  {
    hide Product;
    if s != [] {
      SortForm(s[1..], x);
      InsertForm(s[0], Sort(s[1..]), x);
    }
  }

  datatype Kind = Positive | Negative | NearZero | Cross

  function KindOf(e: Entry, tol: real): Kind {
    if e.0 != e.1 then Cross else if e.2 > tol then Positive else if e.2 < -tol then Negative else NearZero
  }

  function Sift(s: seq<Entry>, k: Kind, tol: real): (r: seq<Entry>)
    ensures forall i :: 0 <= i < |r| ==> KindOf(r[i], tol) == k
  {
    if s == [] then []
    else (if KindOf(s[0], tol) == k then [s[0]] else []) + Sift(s[1..], k, tol)
  }

  lemma {:induction false} SiftKind(s: seq<Entry>, k: Kind, tol: real, n: nat)
    requires EntriesIn(s, n)
    ensures EntriesIn(Sift(s, k, tol), n) && |Sift(s, k, tol)| <= |s|
    ensures forall i :: 0 <= i < |Sift(s, k, tol)| ==> KindOf(Sift(s, k, tol)[i], tol) == k && Sift(s, k, tol)[i] in s
  {
    if s != [] { SiftKind(s[1..], k, tol, n); }
  }

  /** What the first entry adds to the sifted form of its kind. */
  function Lead(s: seq<Entry>, k: Kind, tol: real, x: Point): real
    requires s != [] && EntriesIn(s, |x|)
  {
    if KindOf(s[0], tol) == k then Product(s[0].2, x[s[0].0], x[s[0].1]) else 0.0
  }

  lemma SiftHead(s: seq<Entry>, k: Kind, tol: real, x: Point)
    requires s != [] && EntriesIn(s, |x|)
    ensures EntriesIn(Sift(s, k, tol), |x|) && EntriesIn(Sift(s[1..], k, tol), |x|)
    ensures Form(Sift(s, k, tol), x) == Lead(s, k, tol, x) + Form(Sift(s[1..], k, tol), x)
  {
    hide Product;
    SiftKind(s, k, tol, |x|);
    SiftKind(s[1..], k, tol, |x|);
    var r := Sift(s, k, tol);
    if KindOf(s[0], tol) == k {
      assert r == [s[0]] + Sift(s[1..], k, tol);
      assert r[1..] == Sift(s[1..], k, tol);
    } else {
      assert r == Sift(s[1..], k, tol);
    }
  }

  ghost predicate SiftedIn(s: seq<Entry>, tol: real, n: nat) {
    && EntriesIn(Sift(s, Positive, tol), n) && EntriesIn(Sift(s, Negative, tol), n)
    && EntriesIn(Sift(s, NearZero, tol), n) && EntriesIn(Sift(s, Cross, tol), n)
  }

  /** The form splits by kind of entry. */
  lemma {:induction false} SiftForm(s: seq<Entry>, tol: real, x: Point)
    requires EntriesIn(s, |x|)
    ensures SiftedIn(s, tol, |x|)
    ensures Form(s, x) == Form(Sift(s, Positive, tol), x) + Form(Sift(s, Negative, tol), x)
                        + Form(Sift(s, NearZero, tol), x) + Form(Sift(s, Cross, tol), x)
  {
    if s != [] {
      hide Product, Sift, Form, Lead;
      SiftForm(s[1..], tol, x);
      SiftHead(s, Positive, tol, x);
      SiftHead(s, Negative, tol, x);
      SiftHead(s, NearZero, tol, x);
      SiftHead(s, Cross, tol, x);
      FormHead(s, tol, x);
    }
  }

  lemma FormHead(s: seq<Entry>, tol: real, x: Point)
    requires s != [] && EntriesIn(s, |x|)
    ensures Form(s, x) == Form(s[1..], x) + Lead(s, Positive, tol, x) + Lead(s, Negative, tol, x)
                        + Lead(s, NearZero, tol, x) + Lead(s, Cross, tol, x)
  {
    hide Product;
  }

  function Rows(s: seq<Entry>): (r: seq<nat>)
    ensures |r| == |s| && forall i :: 0 <= i < |s| ==> r[i] == s[i].0
  {
    seq(|s|, i requires 0 <= i < |s| => s[i].0)
  }

  ghost predicate Diagonal(s: seq<Entry>, v: real) {
    forall i :: 0 <= i < |s| ==> s[i].0 == s[i].1 && s[i].2 == v
  }

  /** Diagonal entries with a common value are a multiple of the square norm. */
  lemma {:induction false} UniformForm(s: seq<Entry>, v: real, x: Point)
    requires EntriesIn(s, |x|) && Diagonal(s, v)
    ensures VarsIn(Rows(s), |x|) && Form(s, x) == Mul(v, SumSq(Rows(s), x))
  {
    hide Mul, Product, Square;
    if s != [] {
      UniformForm(s[1..], v, x);
      assert Rows(s)[1..] == Rows(s[1..]);
      UniformStep(v, x[s[0].0], SumSq(Rows(s[1..]), x));
    } else {
      MulAlgebra(v, 0.0, 0.0);
    }
  }

  lemma UniformStep(v: real, a: real, rest: real)
    ensures Product(v, a, a) + Mul(v, rest) == Mul(v, Square(a) + rest)
  {
  }

  // ------------------------------------------------------------------ routing

  /** Where a constraint goes. The rotated ratio is d/s for a cross term -2d and tails s. */
  datatype Route =
    | ToStandard(head: nat, tails: seq<nat>)
    | ToRotated(h0: nat, h1: nat, tails: seq<nat>, ratio: real)
    | ToGeneral
    | Rejected

  /** The sorted entries by kind, and whether a row repeats among them. */
  datatype Parts = Parts(pos: seq<Entry>, neg: seq<Entry>, near: seq<Entry>, off: seq<Entry>, repeated: bool)

  predicate ApproxEq(a: real, b: real, tol: real) {
    var scale := if Abs(a) > Abs(b) then (if Abs(a) > 1.0 then Abs(a) else 1.0)
                 else (if Abs(b) > 1.0 then Abs(b) else 1.0);
    Abs(a - b) <= tol * scale
  }

  predicate RepeatedRow(s: seq<Entry>) {
    exists i :: 0 <= i < |s| - 1 && s[i].0 == s[i + 1].0
  }

  predicate Nonuniform(p: seq<Entry>, tol: real) {
    exists i :: 1 <= i < |p| && !ApproxEq(p[i].2, p[0].2, tol)
  }

  function PartsOf(entries: seq<Entry>, tol: real): Parts {
    var s := Sort(entries);
    Parts(Sift(s, Positive, tol), Sift(s, Negative, tol), Sift(s, NearZero, tol), Sift(s, Cross, tol), RepeatedRow(s))
  }

  predicate FastShape(q: Quad, p: Parts, tol: real) {
    && q.linear == [] && !p.repeated && p.near == []
    && q.rhs < tol && q.rhs > -tol && !Nonuniform(p.pos, tol)
  }

  /** The routing decision on a normalised constraint, but for the sign of the heads. */
  function Decide(q: Quad, p: Parts, tol: real): Route
    requires tol > 0.0 && forall i :: 0 <= i < |p.pos| ==> p.pos[i].2 > tol
  {
    if q.entries == [] then Rejected
    else if q.linear != [] && (forall i :: 0 <= i < |q.linear| ==> -tol < q.linear[i].1 < tol) then Rejected
    else if FastShape(q, p, tol) && p.off == [] && |p.neg| == 1 then
      var scale := if p.pos != [] then p.pos[0].2 else -p.neg[0].2;
      if ApproxEq(p.neg[0].2, -scale, tol) then ToStandard(p.neg[0].0, Rows(p.pos)) else Rejected
    else if FastShape(q, p, tol) && |p.off| == 1 && p.neg == [] && -p.off[0].2 / 2.0 > tol then
      if p.pos == [] then Rejected
      else ToRotated(p.off[0].0, p.off[0].1, Rows(p.pos), (-p.off[0].2 / 2.0) / p.pos[0].2)
    else ToGeneral
  }

  function Classify(q: Quad, tol: real): Route
    requires tol > 0.0
  {
    var p := PartsOf(q.entries, tol);
    assert forall i :: 0 <= i < |p.pos| ==> KindOf(p.pos[i], tol) == Positive;
    Decide(q, p, tol)
  }

  /** No coefficient falls inside a tolerance without being exactly there. */
  ghost predicate Separated(q: Quad, tol: real) {
    && (-tol < q.rhs < tol ==> q.rhs == 0.0)
    && (forall i :: 0 <= i < |q.linear| && -tol < q.linear[i].1 < tol ==> q.linear[i].1 == 0.0)
    && (forall d, e :: d in q.entries && e in q.entries ==>
          (ApproxEq(d.2, e.2, tol) ==> d.2 == e.2) && (ApproxEq(d.2, -e.2, tol) ==> d.2 == -e.2))
  }

  lemma {:induction false} SortMembers(s: seq<Entry>)
    ensures forall e :: e in Sort(s) ==> e in s
  {
    if s != [] {
      SortMembers(s[1..]);
      InsertMembers(s[0], Sort(s[1..]));
    }
  }

  lemma {:induction false} InsertMembers(e: Entry, s: seq<Entry>)
    ensures forall d :: d in Insert(e, s) ==> d == e || d in s
  {
    if s != [] && !Precedes(e, s[0]) { InsertMembers(e, s[1..]); }
  }

  /** A part lists entries of the constraint of one kind. */
  ghost predicate PartOk(part: seq<Entry>, entries: seq<Entry>, k: Kind, tol: real) {
    forall i :: 0 <= i < |part| ==> KindOf(part[i], tol) == k && part[i] in entries
  }

  lemma SiftPart(entries: seq<Entry>, k: Kind, tol: real, n: nat)
    requires EntriesIn(entries, n)
    ensures EntriesIn(Sort(entries), n) && EntriesIn(Sift(Sort(entries), k, tol), n)
    ensures PartOk(Sift(Sort(entries), k, tol), entries, k, tol)
  {
    SortMembers(entries);
    var s := Sort(entries);
    hide Sort;
    forall i | 0 <= i < |s| ensures s[i].0 < n && s[i].1 < n {
      assert s[i] in s;
      var j :| 0 <= j < |entries| && entries[j] == s[i];
    }
    SiftKind(s, k, tol, n);
    hide Sift;
  }

  ghost predicate PartsIn(p: Parts, n: nat) {
    EntriesIn(p.pos, n) && EntriesIn(p.neg, n) && EntriesIn(p.near, n) && EntriesIn(p.off, n)
  }

  lemma PartsMembers(entries: seq<Entry>, tol: real, n: nat)
    requires EntriesIn(entries, n)
    ensures var p := PartsOf(entries, tol);
            && PartsIn(p, n) && PartOk(p.pos, entries, Positive, tol) && PartOk(p.neg, entries, Negative, tol)
            && PartOk(p.off, entries, Cross, tol)
  {
    SiftPart(entries, Positive, tol, n);
    SiftPart(entries, Negative, tol, n);
    SiftPart(entries, NearZero, tol, n);
    SiftPart(entries, Cross, tol, n);
    hide Sort, Sift, PartOk, EntriesIn;
  }

  /** The form is the sum of its parts. */
  lemma PartsForm(entries: seq<Entry>, tol: real, x: Point)
    requires EntriesIn(entries, |x|)
    ensures var p := PartsOf(entries, tol);
            && PartsIn(p, |x|)
            && Form(entries, x) == Form(p.pos, x) + Form(p.neg, x) + Form(p.near, x) + Form(p.off, x)
  {
    SortForm(entries, x);
    SiftForm(Sort(entries), tol, x);
    hide Sort, Sift, Form;
  }

  lemma UniformValue(q: Quad, p: seq<Entry>, tol: real)
    requires tol > 0.0 && Separated(q, tol) && PartOk(p, q.entries, Positive, tol) && !Nonuniform(p, tol)
    ensures p != [] ==> p[0].2 > tol && Diagonal(p, p[0].2)
  {
    forall i | 0 <= i < |p| ensures p[i].0 == p[i].1 && p[i].2 == p[0].2 {
      if i > 0 { assert ApproxEq(p[i].2, p[0].2, tol); }
      assert KindOf(p[i], tol) == Positive;
    }
  }

  // ------------------------------------------------------------------ a standard route is exact

  lemma OneEntry(e: seq<Entry>, x: Point)
    requires |e| == 1 && EntriesIn(e, |x|)
    ensures Form(e, x) == Product(e[0].2, x[e[0].0], x[e[0].1])
  {
    assert e[1..] == [];
  }

  lemma StandardAlgebra(scale: real, sum: real, h: real)
    ensures Mul(scale, sum) + Product(-scale, h, h) == Mul(scale, sum - Square(h))
  {
  }

  lemma StandardSum(pos: seq<Entry>, neg: seq<Entry>, scale: real, x: Point)
    requires EntriesIn(pos, |x|) && EntriesIn(neg, |x|) && Diagonal(pos, scale)
    requires |neg| == 1 && neg[0].0 == neg[0].1 && neg[0].2 == -scale
    ensures VarsIn(Rows(pos), |x|)
    ensures Form(pos, x) + Form(neg, x) == Mul(scale, SumSq(Rows(pos), x) - Square(x[neg[0].0]))
  {
    hide Mul, Product, Square, Form, SumSq;
    UniformForm(pos, scale, x);
    OneEntry(neg, x);
    StandardAlgebra(scale, SumSq(Rows(pos), x), x[neg[0].0]);
  }

  /** What a standard route says about the parts. */
  lemma StandardParts(q: Quad, tol: real, n: nat) returns (scale: real)
    requires tol > 0.0 && QuadIn(q, n) && Separated(q, tol) && Classify(q, tol).ToStandard?
    ensures var p, r := PartsOf(q.entries, tol), Classify(q, tol);
            && scale > 0.0 && q.rhs == 0.0 && q.linear == [] && p.near == [] && p.off == [] && Diagonal(p.pos, scale)
            && |p.neg| == 1 && p.neg[0].0 == p.neg[0].1 && p.neg[0].2 == -scale
            && p.neg[0].0 < n && r == ToStandard(p.neg[0].0, Rows(p.pos)) && VarsIn(Rows(p.pos), n)
  {
    hide PartsOf, Nonuniform;
    var p := PartsOf(q.entries, tol);
    PartsMembers(q.entries, tol, n);
    UniformValue(q, p.pos, tol);
    assert KindOf(p.neg[0], tol) == Negative;
    scale := if p.pos != [] then p.pos[0].2 else -p.neg[0].2;
  }

  /** A standard route is exact: the form is a positive multiple of tails minus head. */
  lemma StandardForm(q: Quad, tol: real, n: nat) returns (scale: real)
    requires tol > 0.0 && QuadIn(q, n) && Separated(q, tol) && Classify(q, tol).ToStandard?
    ensures var r := Classify(q, tol);
            && r.head < n && VarsIn(r.tails, n) && q.rhs == 0.0 && q.linear == [] && scale > 0.0
            && forall x: Point :: |x| == n ==>
                 Form(q.entries, x) == Mul(scale, SumSq(r.tails, x) - Square(x[r.head]))
  {
    hide Classify, PartsOf, Form, SumSq, Square, Mul, Separated, Diagonal;
    scale := StandardParts(q, tol, n);
    var r := Classify(q, tol);
    forall x: Point | |x| == n
      ensures Form(q.entries, x) == Mul(scale, SumSq(r.tails, x) - Square(x[r.head]))
    {
      StandardAt(q.entries, PartsOf(q.entries, tol), scale, tol, x);
    }
  }

  lemma StandardAt(entries: seq<Entry>, p: Parts, scale: real, tol: real, x: Point)
    requires EntriesIn(entries, |x|) && p == PartsOf(entries, tol) && p.near == [] && p.off == [] && Diagonal(p.pos, scale)
    requires |p.neg| == 1 && p.neg[0].0 == p.neg[0].1 && p.neg[0].2 == -scale && p.neg[0].0 < |x| && VarsIn(Rows(p.pos), |x|)
    ensures Form(entries, x) == Mul(scale, SumSq(Rows(p.pos), x) - Square(x[p.neg[0].0]))
  {
    hide PartsOf, Form, SumSq, Square, Mul, Diagonal;
    PartsForm(entries, tol, x);
    StandardSum(p.pos, p.neg, scale, x);
    EmptyForm(x);
  }

  lemma EmptyForm(x: Point)
    ensures Form([], x) == 0.0
  {
  }

  // ------------------------------------------------------------------ a rotated route is exact

  lemma RatioPositive(d: real, s: real)
    requires d > 0.0 && s > 0.0
    ensures d / s > 0.0 && Mul(s, d / s) == d
  {
  }

  lemma RotatedAlgebra(s: real, d: real, ratio: real, sum: real, a: real, b: real)
    requires Mul(s, ratio) == d
    ensures Mul(s, sum) + Product(-2.0 * d, a, b) == Mul(s, sum - HeadProduct(ratio, a, b))
  {
    var p := a * b;
    assert s * (2.0 * ratio * p) == 2.0 * (s * ratio) * p;
    assert s * (sum - 2.0 * ratio * p) == s * sum - s * (2.0 * ratio * p);
  }

  lemma RotatedSum(pos: seq<Entry>, off: seq<Entry>, scale: real, ratio: real, d: real, x: Point)
    requires EntriesIn(pos, |x|) && EntriesIn(off, |x|) && Diagonal(pos, scale)
    requires |off| == 1 && off[0].2 == -2.0 * d && Mul(scale, ratio) == d
    ensures VarsIn(Rows(pos), |x|)
    ensures Form(pos, x) + Form(off, x)
         == Mul(scale, SumSq(Rows(pos), x) - HeadProduct(ratio, x[off[0].0], x[off[0].1]))
  {
    hide Mul, Product, Square, Form, SumSq, HeadProduct;
    UniformForm(pos, scale, x);
    OneEntry(off, x);
    RotatedAlgebra(scale, d, ratio, SumSq(Rows(pos), x), x[off[0].0], x[off[0].1]);
  }

  lemma RotatedParts(q: Quad, tol: real, n: nat) returns (scale: real, d: real)
    requires tol > 0.0 && QuadIn(q, n) && Separated(q, tol) && Classify(q, tol).ToRotated?
    ensures var p, r := PartsOf(q.entries, tol), Classify(q, tol);
            && scale > 0.0 && d > 0.0 && q.rhs == 0.0 && q.linear == [] && p.near == [] && p.neg == []
            && Diagonal(p.pos, scale)
            && |p.off| == 1 && p.off[0].2 == -2.0 * d && p.off[0].0 < n && p.off[0].1 < n
            && r == ToRotated(p.off[0].0, p.off[0].1, Rows(p.pos), r.ratio) && VarsIn(Rows(p.pos), n)
            && r.ratio > 0.0 && Mul(scale, r.ratio) == d
  {
    var p := PartsOf(q.entries, tol);
    PartsMembers(q.entries, tol, n);
    hide PartsOf, ApproxEq, Separated, Nonuniform, Mul;
    UniformValue(q, p.pos, tol);
    scale, d := p.pos[0].2, -p.off[0].2 / 2.0;
    RatioPositive(d, scale);
  }

  /** A rotated route is exact: the form is a positive multiple of tails minus the product of the
      heads. */
  lemma RotatedForm(q: Quad, tol: real, n: nat) returns (scale: real)
    requires tol > 0.0 && QuadIn(q, n) && Separated(q, tol) && Classify(q, tol).ToRotated?
    ensures var r := Classify(q, tol);
            && r.h0 < n && r.h1 < n && VarsIn(r.tails, n) && r.ratio > 0.0
            && q.rhs == 0.0 && q.linear == [] && scale > 0.0
            && forall x: Point :: |x| == n ==>
                 Form(q.entries, x) == Mul(scale, SumSq(r.tails, x) - HeadProduct(r.ratio, x[r.h0], x[r.h1]))
  {
    var d: real;
    hide HeadProduct, Classify, PartsOf, Form, SumSq, Mul, Separated, Diagonal;
    scale, d := RotatedParts(q, tol, n);
    var r := Classify(q, tol);
    forall x: Point | |x| == n
      ensures Form(q.entries, x) == Mul(scale, SumSq(r.tails, x) - HeadProduct(r.ratio, x[r.h0], x[r.h1]))
    {
      RotatedAt(q.entries, PartsOf(q.entries, tol), scale, r.ratio, d, tol, x);
    }
  }

  lemma RotatedAt(entries: seq<Entry>, p: Parts, scale: real, ratio: real, d: real, tol: real, x: Point)
    requires EntriesIn(entries, |x|) && p == PartsOf(entries, tol) && p.near == [] && p.neg == [] && Diagonal(p.pos, scale)
    requires |p.off| == 1 && p.off[0].2 == -2.0 * d && Mul(scale, ratio) == d
    requires p.off[0].0 < |x| && p.off[0].1 < |x| && VarsIn(Rows(p.pos), |x|)
    ensures Form(entries, x) == Mul(scale, SumSq(Rows(p.pos), x) - HeadProduct(ratio, x[p.off[0].0], x[p.off[0].1]))
  {
    hide PartsOf, Form, SumSq, HeadProduct, Mul, Diagonal;
    PartsForm(entries, tol, x);
    RotatedSum(p.pos, p.off, scale, ratio, d, x);
    EmptyForm(x);
  }

  /** A route names columns of the constraint. */
  lemma RouteIn(q: Quad, tol: real, n: nat)
    requires tol > 0.0 && QuadIn(q, n)
    ensures var r := Classify(q, tol);
            && (r.ToStandard? ==> r.head < n && VarsIn(r.tails, n))
            && (r.ToRotated? ==> r.h0 < n && r.h1 < n && VarsIn(r.tails, n))
  {
    PartsMembers(q.entries, tol, n);
    hide PartsOf, ApproxEq, Nonuniform, KindOf;
  }
}
