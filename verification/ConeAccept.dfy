/** Which problems the expansion accepts, said on the constraints themselves. */
module ConeAccept {
  import opened Extended
  import opened Reals
  import opened ConeModel
  import opened ConeClassify
  import opened ConeFactor
  import opened ConeGeneral
  import opened ConeConvert
  import opened ConePasses
  import opened ConeLayout
  import opened ConeTheorem

  // ------------------------------------------------------------------ entries and their parts

  predicate RowIn(r: nat, s: seq<Entry>) {
    exists i :: 0 <= i < |s| && s[i].0 == r
  }

  /** No two entries share a row. */
  predicate OneRowEach(s: seq<Entry>) {
    forall i, j :: 0 <= i < j < |s| ==> s[i].0 != s[j].0
  }

  lemma OneRowHead(s: seq<Entry>)
    requires s != []
    ensures OneRowEach(s) <==> !RowIn(s[0].0, s[1..]) && OneRowEach(s[1..])
    ensures forall r :: RowIn(r, s) <==> r == s[0].0 || RowIn(r, s[1..])
  {
    var t := s[1..];
    assert forall i :: 0 <= i < |t| ==> t[i] == s[i + 1];
    forall r ensures RowIn(r, s) <==> r == s[0].0 || RowIn(r, t) {
      if RowIn(r, s) && r != s[0].0 {
        var i :| 0 <= i < |s| && s[i].0 == r;
        assert t[i - 1].0 == r;
      }
      if RowIn(r, t) {
        var i :| 0 <= i < |t| && t[i].0 == r;
        assert s[i + 1].0 == r;
      }
    }
    if !RowIn(s[0].0, t) && OneRowEach(t) {
      forall i, j | 0 <= i < j < |s| ensures s[i].0 != s[j].0 {
        assert s[j] == t[j - 1];
        if i > 0 { assert s[i] == t[i - 1]; }
      }
    }
    if OneRowEach(s) {
      forall i | 0 <= i < |t| ensures t[i].0 != s[0].0 { assert t[i] == s[i + 1]; }
    }
  }

  lemma {:induction false} InsertRows(e: Entry, s: seq<Entry>)
    ensures forall d :: d in Insert(e, s) <==> d == e || d in s
    ensures forall r :: RowIn(r, Insert(e, s)) <==> r == e.0 || RowIn(r, s)
    ensures OneRowEach(Insert(e, s)) <==> !RowIn(e.0, s) && OneRowEach(s)
  {
    var t := Insert(e, s);
    OneRowHead(t);
    hide RowIn, OneRowEach, Precedes;
    if s == [] || Precedes(e, s[0]) {
      assert t[1..] == s;
    } else {
      InsertRows(e, s[1..]);
      OneRowHead(s);
      assert t[0] == s[0] && t[1..] == Insert(e, s[1..]);
    }
  }

  lemma EmptyRows()
    ensures OneRowEach([]) && forall r :: !RowIn(r, [])
  {
  }

  lemma {:induction false} SortRows(s: seq<Entry>)
    ensures forall d :: d in Sort(s) <==> d in s
    ensures forall r :: RowIn(r, Sort(s)) <==> RowIn(r, s)
    ensures OneRowEach(Sort(s)) <==> OneRowEach(s)
  {
    hide RowIn, OneRowEach, Insert;
    if s == [] {
      EmptyRows();
    } else {
      SortRows(s[1..]);
      InsertRows(s[0], Sort(s[1..]));
      OneRowHead(s);
    }
  }

  lemma RepeatedIs(entries: seq<Entry>)
    ensures RepeatedRow(Sort(entries)) <==> !OneRowEach(entries)
  {
    SortRows(entries);
    var s := Sort(entries);
    hide Sort;
    if !RepeatedRow(s) {
      SortClimbs(entries);
    }
  }

  lemma {:induction false} SiftRows(s: seq<Entry>, k: Kind, tol: real)
    ensures forall d :: d in Sift(s, k, tol) <==> d in s && KindOf(d, tol) == k
    ensures forall r :: RowIn(r, Sift(s, k, tol)) ==> RowIn(r, s)
    ensures OneRowEach(s) ==> OneRowEach(Sift(s, k, tol))
  {
    hide RowIn, OneRowEach, KindOf;
    if s == [] {
      EmptyRows();
    } else {
      SiftRows(s[1..], k, tol);
      OneRowHead(s);
      var r, t := Sift(s, k, tol), Sift(s[1..], k, tol);
      if KindOf(s[0], tol) == k {
        assert r[0] == s[0] && r[1..] == t;
        OneRowHead(r);
      } else {
        assert r == t;
      }
    }
  }

  /** The parts hold exactly the entries of their kinds. */
  ghost predicate Sifted(entries: seq<Entry>, p: Parts, tol: real) {
    && (forall d :: d in p.pos <==> d in entries && KindOf(d, tol) == Positive)
    && (forall d :: d in p.neg <==> d in entries && KindOf(d, tol) == Negative)
    && (forall d :: d in p.near <==> d in entries && KindOf(d, tol) == NearZero)
    && (forall d :: d in p.off <==> d in entries && KindOf(d, tol) == Cross)
  }

  /** The parts hold exactly the entries of their kinds, and a row repeats among the sorted entries
      exactly when two entries share one. */
  lemma PartsAre(entries: seq<Entry>, tol: real)
    ensures var p := PartsOf(entries, tol);
            && (p.repeated <==> !OneRowEach(entries))
            && Sifted(entries, p, tol)
            && (OneRowEach(entries) ==> OneRowEach(p.pos) && OneRowEach(p.neg) && OneRowEach(p.off))
  {
    var s := Sort(entries);
    SortRows(entries);
    RepeatedIs(entries);
    hide Sort, RowIn, OneRowEach, KindOf, RepeatedRow, Sift;
    SiftRows(s, Positive, tol);
    SiftRows(s, Negative, tol);
    SiftRows(s, NearZero, tol);
    SiftRows(s, Cross, tol);
  }

  /** Entries with rows of their own, all equal: at most one. */
  lemma AtMostOne(s: seq<Entry>, e: Entry)
    requires OneRowEach(s) && e in s && forall d :: d in s ==> d.0 == e.0
    ensures s == [e]
  {
    forall i | 0 <= i < |s| ensures s[i].0 == e.0 { assert s[i] in s; }
    if |s| > 1 { TwoRows(s); }
  }

  lemma TwoRows(s: seq<Entry>)
    requires OneRowEach(s) && |s| > 1
    ensures s[0].0 != s[1].0
  {
  }

  // ------------------------------------------------------------------ the shapes of a constraint

  ghost predicate Plain(q: Quad) {
    q.linear == [] && q.rhs == 0.0 && OneRowEach(q.entries)
  }

  /** One diagonal entry -s at h, diagonal entries s > tol at other columns, nothing else. */
  ghost predicate StandardShape(q: Quad, tol: real, h: nat, s: real) {
    && Plain(q) && s > tol && (h, h, -s) in q.entries
    && forall e :: e in q.entries ==> e == (h, h, -s) || (e.0 == e.1 && e.2 == s)
  }

  /** One cross entry -2d on a and b with d > tol, diagonal entries s > tol, at least one, nothing else. */
  ghost predicate RotatedShape(q: Quad, tol: real, a: nat, b: nat, d: real, s: real) {
    && Plain(q) && s > tol && d > tol && a != b && (a, b, -2.0 * d) in q.entries && |q.entries| > 1
    && forall e :: e in q.entries ==> e == (a, b, -2.0 * d) || (e.0 == e.1 && e.2 == s)
  }

  /** No entries, or a linear part without a coefficient above the tolerance. */
  predicate Empty(q: Quad, tol: real) {
    || q.entries == []
    || (q.linear != [] && forall i :: 0 <= i < |q.linear| ==> -tol < q.linear[i].1 < tol)
  }

  /** A standard shape but for its head, whose entry v is not -s. */
  ghost predicate HeadMismatch(q: Quad, tol: real, h: nat, v: real, s: real) {
    && Plain(q) && s > tol && v < -tol && v != -s && (h, h, v) in q.entries && |q.entries| > 1
    && forall e :: e in q.entries ==> e == (h, h, v) || (e.0 == e.1 && e.2 == s)
  }

  /** A cross entry that would make a rotated cone, without a tail. */
  ghost predicate TailsMissing(q: Quad, tol: real, a: nat, b: nat, d: real) {
    Plain(q) && d > tol && a != b && q.entries == [(a, b, -2.0 * d)]
  }

  // ------------------------------------------------------------------ routes

  /** The columns of the tails: those of the entries with value s, each once, ascending. */
  ghost predicate TailsOf(q: Quad, s: real, tails: seq<nat>) {
    && (forall i, j :: 0 <= i < j < |tails| ==> tails[i] < tails[j])
    && forall j :: j in tails <==> (j, j, s) in q.entries
  }

  lemma SameEntries(p: seq<Entry>, s: real, tol: real)
    requires tol > 0.0 && forall e :: e in p ==> e.2 == s
    ensures !Nonuniform(p, tol)
  {
    forall i | 0 <= i < |p| ensures p[i].2 == s { assert p[i] in p; }
  }

  /** The positive part of a constraint whose positive entries all are s. */
  lemma TailsAre(q: Quad, tol: real, s: real)
    requires tol > 0.0 && s > tol && OneRowEach(q.entries)
    requires forall e :: e in q.entries && KindOf(e, tol) == Positive ==> e.2 == s
    ensures var p := PartsOf(q.entries, tol);
            !Nonuniform(p.pos, tol) && TailsOf(q, s, Rows(p.pos)) && (p.pos != [] ==> p.pos[0].2 == s)
  {
    PartsAre(q.entries, tol);
    var pos := PartsOf(q.entries, tol).pos;
    SameEntries(pos, s, tol);
    RepeatedIs(q.entries);
    SortClimbs(q.entries);
    SiftClimbs(Sort(q.entries), Positive, tol);
    hide PartsOf, Nonuniform, OneRowEach;
    assert RowsClimb(pos);
    forall j ensures j in Rows(pos) <==> (j, j, s) in q.entries {
      if j in Rows(pos) {
        var i :| 0 <= i < |pos| && Rows(pos)[i] == j;
        assert pos[i] in pos;
      }
      if (j, j, s) in q.entries {
        assert (j, j, s) in pos;
        var i :| 0 <= i < |pos| && pos[i] == (j, j, s);
        assert Rows(pos)[i] == j;
      }
    }
    if pos != [] { assert pos[0] in pos; }
  }

  lemma HeadPart(q: Quad, tol: real, h: nat, v: real, s: real)
    requires tol > 0.0 && s > tol && v < -tol && OneRowEach(q.entries) && (h, h, v) in q.entries
    requires forall e :: e in q.entries ==> e == (h, h, v) || (e.0 == e.1 && e.2 == s)
    ensures var p := PartsOf(q.entries, tol); p.neg == [(h, h, v)] && p.near == [] && p.off == []
  {
    PartsAre(q.entries, tol);
    var p := PartsOf(q.entries, tol);
    hide PartsOf, OneRowEach;
    assert (h, h, v) in p.neg;
    AtMostOne(p.neg, (h, h, v));
    NoneOf(p.near);
    NoneOf(p.off);
  }

  lemma NoneOf(s: seq<Entry>)
    requires forall d :: d !in s
    ensures s == []
  {
    if s != [] { HeadListed(s); }
  }

  lemma HeadListed(s: seq<Entry>)
    requires s != []
    ensures s[0] in s
  {
  }

  lemma ApproxSelf(a: real, tol: real)
    requires tol > 0.0
    ensures ApproxEq(a, a, tol)
  {
    ScaleNonneg(tol, if Abs(a) > 1.0 then Abs(a) else 1.0);
  }

  lemma ScaleNonneg(tol: real, scale: real)
    requires tol > 0.0 && scale >= 1.0
    ensures tol * scale >= 0.0
  {
  }

  /** Routing, one step unfolded. */
  lemma ClassifyIs(q: Quad, tol: real)
    requires tol > 0.0
    ensures var p := PartsOf(q.entries, tol);
            && (forall i :: 0 <= i < |p.pos| ==> p.pos[i].2 > tol) && Classify(q, tol) == Decide(q, p, tol)
            && (p.repeated <==> !OneRowEach(q.entries))
  {
    PartsAre(q.entries, tol);
    var p := PartsOf(q.entries, tol);
    hide PartsOf, Decide, OneRowEach;
    forall i | 0 <= i < |p.pos| ensures p.pos[i].2 > tol { assert p.pos[i] in p.pos; }
  }

  lemma PositiveListed(q: Quad, tol: real, e: Entry)
    requires e in q.entries && e.0 == e.1 && e.2 > tol
    ensures e in PartsOf(q.entries, tol).pos
  {
    PartsAre(q.entries, tol);
    hide PartsOf, OneRowEach;
  }

  /** The facts on which a fast route is decided. */
  ghost predicate FastParts(q: Quad, p: Parts, tol: real, s: real) {
    && q.entries != [] && q.linear == [] && q.rhs == 0.0 && !p.repeated && p.near == [] && !Nonuniform(p.pos, tol)
    && (p.pos != [] ==> p.pos[0].2 == s) && forall i :: 0 <= i < |p.pos| ==> p.pos[i].2 > tol
  }

  lemma StandardDecided(q: Quad, p: Parts, tol: real, h: nat, s: real)
    requires tol > 0.0 && FastParts(q, p, tol, s) && p.neg == [(h, h, -s)] && p.off == [] && ApproxEq(-s, -s, tol)
    ensures Decide(q, p, tol) == ToStandard(h, Rows(p.pos))
  {
    hide Nonuniform, ApproxEq;
  }

  lemma MismatchDecided(q: Quad, p: Parts, tol: real, h: nat, v: real, s: real)
    requires tol > 0.0 && FastParts(q, p, tol, s) && p.neg == [(h, h, v)] && p.off == [] && p.pos != [] && !ApproxEq(v, -s, tol)
    ensures Decide(q, p, tol) == Rejected
  {
    hide Nonuniform, ApproxEq;
  }

  lemma RotatedDecided(q: Quad, p: Parts, tol: real, a: nat, b: nat, d: real, s: real)
    requires tol > 0.0 && d > tol && FastParts(q, p, tol, s) && p.off == [(a, b, -2.0 * d)] && p.neg == [] && p.pos != []
    ensures s != 0.0 && Decide(q, p, tol) == ToRotated(a, b, Rows(p.pos), d / s)
  {
    assert p.pos[0].2 > tol;
    hide Nonuniform, ApproxEq;
  }

  /** A constraint of standard shape is routed to the cone over exactly its variables. */
  lemma StandardRouted(q: Quad, tol: real, h: nat, s: real)
    requires tol > 0.0 && StandardShape(q, tol, h, s)
    ensures Classify(q, tol).ToStandard? && Classify(q, tol).head == h && TailsOf(q, s, Classify(q, tol).tails)
  {
    hide PartsOf, Nonuniform, OneRowEach, ApproxEq, TailsOf, Classify, Decide;
    HeadPart(q, tol, h, -s, s);
    TailsAre(q, tol, s);
    ClassifyIs(q, tol);
    ApproxSelf(-s, tol);
    StandardDecided(q, PartsOf(q.entries, tol), tol, h, s);
  }

  lemma CrossPart(q: Quad, tol: real, a: nat, b: nat, v: real, s: real)
    requires tol > 0.0 && s > tol && a != b && OneRowEach(q.entries) && (a, b, v) in q.entries
    requires forall e :: e in q.entries ==> e == (a, b, v) || (e.0 == e.1 && e.2 == s)
    ensures var p := PartsOf(q.entries, tol); p.off == [(a, b, v)] && p.near == [] && p.neg == []
  {
    PartsAre(q.entries, tol);
    var p := PartsOf(q.entries, tol);
    hide PartsOf, OneRowEach;
    assert (a, b, v) in p.off;
    AtMostOne(p.off, (a, b, v));
    NoneOf(p.near);
    NoneOf(p.neg);
  }

  lemma OtherEntry(s: seq<Entry>, e: Entry) returns (d: Entry)
    requires |s| > 1 && OneRowEach(s)
    ensures d in s && d != e
  {
    d := if s[0] == e then s[1] else s[0];
  }

  /** A constraint of rotated shape is routed to the rotated cone over exactly its variables. */
  lemma RotatedRouted(q: Quad, tol: real, a: nat, b: nat, d: real, s: real)
    requires tol > 0.0 && RotatedShape(q, tol, a, b, d, s)
    ensures var r := Classify(q, tol);
            r.ToRotated? && r.h0 == a && r.h1 == b && s != 0.0 && r.ratio == d / s && TailsOf(q, s, r.tails)
  {
    hide PartsOf, Nonuniform, OneRowEach, ApproxEq, TailsOf, Classify, Decide;
    CrossPart(q, tol, a, b, -2.0 * d, s);
    TailsAre(q, tol, s);
    ClassifyIs(q, tol);
    var e := OtherEntry(q.entries, (a, b, -2.0 * d));
    PositiveListed(q, tol, e);
    RotatedDecided(q, PartsOf(q.entries, tol), tol, a, b, d, s);
  }

  /** What a standard route says of the constraint. */
  lemma StandardFound(q: Quad, tol: real, n: nat) returns (s: real)
    requires tol > 0.0 && QuadIn(q, n) && Separated(q, tol) && Classify(q, tol).ToStandard?
    ensures StandardShape(q, tol, Classify(q, tol).head, s)
  {
    s := StandardParts(q, tol, n);
    PartsAre(q.entries, tol);
    RepeatedOnly(q, tol);
    StandardFrom(q, PartsOf(q.entries, tol), tol, s);
    hide PartsOf, OneRowEach, Separated, StandardShape, Decide;
  }

  lemma StandardFrom(q: Quad, p: Parts, tol: real, s: real)
    requires tol > 0.0 && Plain(q) && Sifted(q.entries, p, tol) && Diagonal(p.pos, s) && p.near == [] && p.off == []
    requires |p.neg| == 1 && p.neg[0].0 == p.neg[0].1 && p.neg[0].2 == -s
    ensures StandardShape(q, tol, p.neg[0].0, s)
  {
    var h := p.neg[0].0;
    HeadListed(p.neg);
    hide OneRowEach;
    assert p.neg[0] == (h, h, -s);
    forall e | e in q.entries ensures e == (h, h, -s) || (e.0 == e.1 && e.2 == s) {
      assert KindOf(e, tol) == Positive ==> e in p.pos;
      assert KindOf(e, tol) == Negative ==> e in p.neg;
    }
  }

  /** A fast route has one entry a row. */
  lemma RepeatedOnly(q: Quad, tol: real)
    requires tol > 0.0 && (Classify(q, tol).ToStandard? || Classify(q, tol).ToRotated?)
    ensures OneRowEach(q.entries)
  {
    PartsAre(q.entries, tol);
    hide PartsOf, OneRowEach, Nonuniform, ApproxEq;
  }

  lemma RotatedFound(q: Quad, tol: real, n: nat) returns (d: real, s: real)
    requires tol > 0.0 && QuadIn(q, n) && Separated(q, tol) && Classify(q, tol).ToRotated?
    ensures RotatedShape(q, tol, Classify(q, tol).h0, Classify(q, tol).h1, d, s)
  {
    s, d := RotatedParts(q, tol, n);
    PartsAre(q.entries, tol);
    RepeatedOnly(q, tol);
    RotatedTails(q, tol);
    RotatedFrom(q, PartsOf(q.entries, tol), tol, d, s);
    hide PartsOf, OneRowEach, Separated, RotatedShape, Decide;
  }

  lemma RotatedFrom(q: Quad, p: Parts, tol: real, d: real, s: real)
    requires tol > 0.0 && Plain(q) && Sifted(q.entries, p, tol) && Diagonal(p.pos, s) && p.near == [] && p.neg == []
    requires |p.off| == 1 && p.off[0].2 == -2.0 * d && d > tol && p.pos != []
    ensures RotatedShape(q, tol, p.off[0].0, p.off[0].1, d, s)
  {
    var a, b := p.off[0].0, p.off[0].1;
    HeadListed(p.off);
    HeadListed(p.pos);
    hide OneRowEach;
    assert p.off[0] == (a, b, -2.0 * d);
    forall e | e in q.entries ensures e == (a, b, -2.0 * d) || (e.0 == e.1 && e.2 == s) {
      assert KindOf(e, tol) == Positive ==> e in p.pos;
      assert KindOf(e, tol) == Cross ==> e in p.off;
    }
    TwoEntries(q.entries, p.pos[0], p.off[0]);
  }

  lemma TwoEntries(s: seq<Entry>, d: Entry, e: Entry)
    requires d in s && e in s && d != e
    ensures |s| > 1
  {
  }

  lemma RotatedTails(q: Quad, tol: real)
    requires tol > 0.0 && Classify(q, tol).ToRotated?
    ensures var p := PartsOf(q.entries, tol); p.pos != [] && |p.off| == 1 && -p.off[0].2 / 2.0 > tol
  {
    hide PartsOf, OneRowEach, Nonuniform, ApproxEq;
  }

  /** What a rejection says of the constraint. */
  lemma RejectedFound(q: Quad, tol: real, n: nat)
    requires tol > 0.0 && QuadIn(q, n) && Separated(q, tol) && Classify(q, tol).Rejected?
    ensures Empty(q, tol) || (exists h, v, s :: HeadMismatch(q, tol, h, v, s)) || (exists a, b, d :: TailsMissing(q, tol, a, b, d))
  {
    if !Empty(q, tol) {
      PartsAre(q.entries, tol);
      PartsMembers(q.entries, tol, n);
      var p := PartsOf(q.entries, tol);
      RejectedParts(q, p, tol);
      assert Plain(q);
      if |p.neg| == 1 {
        MismatchFound(q, p, tol);
      } else {
        MissingFound(q, p, tol);
      }
    }
  }

  lemma RejectedParts(q: Quad, p: Parts, tol: real)
    requires tol > 0.0 && p == PartsOf(q.entries, tol) && Classify(q, tol).Rejected? && !Empty(q, tol)
    ensures q.linear == [] && !p.repeated && p.near == [] && -tol < q.rhs < tol && !Nonuniform(p.pos, tol)
    ensures if |p.neg| == 1 then p.off == [] && p.pos != [] && !ApproxEq(p.neg[0].2, -p.pos[0].2, tol)
            else p.neg == [] && |p.off| == 1 && -p.off[0].2 / 2.0 > tol && p.pos == []
  {
    if |p.neg| == 1 && p.pos == [] { ApproxSelf(p.neg[0].2, tol); }
    hide PartsOf, Nonuniform, ApproxEq;
  }

  lemma MismatchFound(q: Quad, p: Parts, tol: real)
    requires tol > 0.0 && Separated(q, tol) && Plain(q) && Sifted(q.entries, p, tol) && PartOk(p.pos, q.entries, Positive, tol)
    requires |p.neg| == 1 && p.off == [] && p.near == [] && p.pos != [] && !Nonuniform(p.pos, tol)
    requires !ApproxEq(p.neg[0].2, -p.pos[0].2, tol)
    ensures exists h, v, s :: HeadMismatch(q, tol, h, v, s)
  {
    UniformValue(q, p.pos, tol);
    HeadListed(p.neg);
    HeadListed(p.pos);
    var h, v, s := p.neg[0].0, p.neg[0].2, p.pos[0].2;
    ApproxSelf(v, tol);
    TwoEntries(q.entries, p.neg[0], p.pos[0]);
    hide OneRowEach, Separated, Nonuniform, ApproxEq;
    forall e | e in q.entries ensures e == (h, h, v) || (e.0 == e.1 && e.2 == s) {
      assert KindOf(e, tol) == Positive ==> e in p.pos;
      assert KindOf(e, tol) == Negative ==> e in p.neg;
    }
    assert HeadMismatch(q, tol, h, v, s);
  }

  lemma MissingFound(q: Quad, p: Parts, tol: real)
    requires tol > 0.0 && Plain(q) && Sifted(q.entries, p, tol)
    requires |p.off| == 1 && p.neg == [] && p.near == [] && p.pos == [] && -p.off[0].2 / 2.0 > tol
    ensures exists a, b, d :: TailsMissing(q, tol, a, b, d)
  {
    HeadListed(p.off);
    var e := p.off[0];
    forall d | d in q.entries ensures d == e {
      assert KindOf(d, tol) == Cross ==> d in p.off;
      assert KindOf(d, tol) == Positive ==> d in p.pos;
      assert KindOf(d, tol) == Negative ==> d in p.neg;
    }
    AtMostOne(q.entries, e);
    assert TailsMissing(q, tol, e.0, e.1, -e.2 / 2.0);
  }

  lemma MismatchRejected(q: Quad, tol: real, h: nat, v: real, s: real)
    requires tol > 0.0 && Separated(q, tol) && HeadMismatch(q, tol, h, v, s)
    ensures Classify(q, tol) == Rejected
  {
    hide PartsOf, Nonuniform, OneRowEach, TailsOf, ApproxEq, Classify, Decide;
    HeadPart(q, tol, h, v, s);
    TailsAre(q, tol, s);
    ClassifyIs(q, tol);
    var e := OtherEntry(q.entries, (h, h, v));
    PositiveListed(q, tol, e);
    assert !ApproxEq((h, h, v).2, -e.2, tol);
    MismatchDecided(q, PartsOf(q.entries, tol), tol, h, v, s);
  }

  lemma MissingRejected(q: Quad, tol: real, a: nat, b: nat, d: real)
    requires tol > 0.0 && TailsMissing(q, tol, a, b, d)
    ensures Classify(q, tol) == Rejected
  {
    CrossPart(q, tol, a, b, -2.0 * d, tol + 1.0);
    PartsAre(q.entries, tol);
    var p := PartsOf(q.entries, tol);
    NoneOf(p.pos);
    hide PartsOf, OneRowEach, ApproxEq;
  }

  /** Where a constraint goes, said on its entries: the two fast shapes and the three causes of a
      rejection; everything else takes the general path. */
  lemma Routes(q: Quad, tol: real, n: nat)
    requires tol > 0.0 && QuadIn(q, n) && Separated(q, tol)
    ensures Classify(q, tol).ToStandard? <==> exists h, s :: StandardShape(q, tol, h, s)
    ensures Classify(q, tol).ToRotated? <==> exists a, b, d, s :: RotatedShape(q, tol, a, b, d, s)
    ensures Classify(q, tol).Rejected? <==>
              Empty(q, tol) || (exists h, v, s :: HeadMismatch(q, tol, h, v, s)) || (exists a, b, d :: TailsMissing(q, tol, a, b, d))
  {
    var r := Classify(q, tol);
    if r.ToStandard? { var s := StandardFound(q, tol, n); }
    if r.ToRotated? { var d, s := RotatedFound(q, tol, n); }
    if r.Rejected? { RejectedFound(q, tol, n); }
    if Empty(q, tol) { EmptyRejected(q, tol); }
    hide Classify, Separated, Empty, StandardShape, RotatedShape, HeadMismatch, TailsMissing;
    forall h, s | StandardShape(q, tol, h, s) ensures r.ToStandard? { StandardRouted(q, tol, h, s); }
    forall a, b, d, s | RotatedShape(q, tol, a, b, d, s) ensures r.ToRotated? { RotatedRouted(q, tol, a, b, d, s); }
    forall h, v, s | HeadMismatch(q, tol, h, v, s) ensures r.Rejected? { MismatchRejected(q, tol, h, v, s); }
    forall a, b, d | TailsMissing(q, tol, a, b, d) ensures r.Rejected? { MissingRejected(q, tol, a, b, d); }
  }

  lemma EmptyRejected(q: Quad, tol: real)
    requires tol > 0.0 && Empty(q, tol)
    ensures Classify(q, tol) == Rejected
  {
    hide PartsOf;
  }

  // ------------------------------------------------------------------ heads

  /** Column j is nonnegative by its own bound, or by a singleton row that bounds it from below. */
  ghost predicate KnownNonneg(m: Model, j: nat, tol: real)
    requires j < |m.lower|
  {
    || Le(Fin(0.0), m.lower[j])
    || exists i :: 0 <= i < |m.rows| && BoundsBelow(m.rows[i], j, tol) && m.rows[i].rhs / m.rows[i].terms[0].1 >= 0.0
  }

  lemma {:induction false} ImpliedListed(rows: seq<Row>, k: nat, j: nat, tol: real, i: nat)
    requires i < k <= |rows| && BoundsBelow(rows[i], j, tol)
    ensures (i, rows[i].terms[0].1) in ImpliedRows(rows, k, j, tol)
  {
    if i < k - 1 { ImpliedListed(rows, k - 1, j, tol, i); }
  }

  /** The head test finds every reason there is. */
  lemma HeadTested(m: Model, j: nat, tol: real)
    requires j < |m.lower| && tol > 0.0
    ensures HeadOk(m, |m.rows|, j, tol) <==> KnownNonneg(m, j, tol)
  {
    var marks, b := ImpliedRows(m.rows, |m.rows|, j, tol), Rhs(m.rows);
    ImpliedWitness(marks, b);
    forall i | 0 <= i < |m.rows| && BoundsBelow(m.rows[i], j, tol) && m.rows[i].rhs / m.rows[i].terms[0].1 >= 0.0
      ensures Le(Fin(0.0), ImpliedLower(marks, b))
    {
      ImpliedListed(m.rows, |m.rows|, j, tol, i);
      var k :| 0 <= k < |marks| && marks[k] == (i, m.rows[i].terms[0].1);
    }
    if Le(Fin(0.0), ImpliedLower(marks, b)) {
      var k :| 0 <= k < |marks| && b[marks[k].0] / marks[k].1 >= 0.0;
      assert BoundsBelow(m.rows[marks[k].0], j, tol);
    }
    hide ImpliedRows, ImpliedLower;
  }

  /** `w` has the columns and rows of `m`, and possibly more. */
  ghost predicate Longer(m: Model, w: Model) {
    m.n <= w.n && |m.lower| == m.n && |w.lower| == w.n && m.lower <= w.lower && m.rows <= w.rows
  }

  lemma HeadSame(m: Model, w: Model, j: nat, tol: real)
    requires Longer(m, w) && j < m.n
    ensures HeadOk(w, |m.rows|, j, tol) == HeadOk(m, |m.rows|, j, tol)
  {
    ImpliedRowsPrefix(m.rows, w.rows, |m.rows|, j, tol);
    ImpliedLowerSame(ImpliedRows(m.rows, |m.rows|, j, tol), Rhs(w.rows), Rhs(m.rows));
  }

  // ------------------------------------------------------------------ acceptance

  ghost predicate FastStandard(m: Model, q: Quad, tol: real, h: nat, s: real) {
    StandardShape(q, tol, h, s) && h < |m.lower| && KnownNonneg(m, h, tol)
  }

  ghost predicate FastRotated(m: Model, q: Quad, tol: real, a: nat, b: nat, d: real, s: real) {
    && RotatedShape(q, tol, a, b, d, s)
    && a < |m.lower| && KnownNonneg(m, a, tol) && b < |m.lower| && KnownNonneg(m, b, tol)
  }

  /** None of the shapes treated apart. */
  ghost predicate GeneralShape(q: Quad, tol: real) {
    && !Empty(q, tol)
    && (forall h, s :: !StandardShape(q, tol, h, s)) && (forall a, b, d, s :: !RotatedShape(q, tol, a, b, d, s))
    && (forall h, v, s :: !HeadMismatch(q, tol, h, v, s)) && (forall a, b, d :: !TailsMissing(q, tol, a, b, d))
  }

  /** A standard or rotated shape with heads known to be nonnegative, or another shape that the
      factorisation accepts. */
  ghost predicate Acceptable(m: Model, q: Quad, f: Option<Factor>, tol: real) {
    || (exists h, s :: FastStandard(m, q, tol, h, s))
    || (exists a, b, d, s :: FastRotated(m, q, tol, a, b, d, s))
    || (GeneralShape(q, tol) && f.Some? && Factors(f.value, q.entries))
  }

  /** The cone a constraint becomes. */
  ghost predicate BecomesCone(q: Quad, tol: real, c: Cone) {
    && (forall h, s :: StandardShape(q, tol, h, s) ==>
          c.Standard? && c.vars != [] && c.vars[0] == h && TailsOf(q, s, c.vars[1..]))
    && (forall a, b, d, s :: RotatedShape(q, tol, a, b, d, s) ==>
          c.Rotated? && c.h0 == a && c.h1 == b && (s != 0.0 ==> c.ratio == d / s) && TailsOf(q, s, c.tails))
    && (GeneralShape(q, tol) ==> c.Standard?)
  }

  /** What the factorisation routine owes one constraint. */
  ghost predicate Answered(q: Quad, f: Option<Factor>, tol: real)
    requires tol > 0.0
  {
    f.Some? && Classify(q, tol).ToGeneral? ==> Factors(f.value, q.entries)
  }

  lemma GeneralRouted(q: Quad, tol: real, n: nat)
    requires tol > 0.0 && QuadIn(q, n) && Separated(q, tol)
    ensures Classify(q, tol).ToGeneral? <==> GeneralShape(q, tol)
  {
    Routes(q, tol, n);
    hide Classify, Separated, Empty, StandardShape, RotatedShape, HeadMismatch, TailsMissing;
  }

  /** The step accepts a constraint exactly when it is acceptable for the original rows and bounds. */
  lemma StepAccepts(m: Model, w: Work, f: Option<Factor>, tol: real)
    requires Longer(m, w.m) && w.m.quads != [] && tol > 0.0 && QuadIn(Normalize(w.m.quads[0]), m.n)
    requires Separated(Normalize(w.m.quads[0]), tol) && Answered(Normalize(w.m.quads[0]), f, tol)
    ensures Step(w, |m.rows|, f, tol).Some? <==> Acceptable(m, Normalize(w.m.quads[0]), f, tol)
  {
    var q := Normalize(w.m.quads[0]);
    var r := Classify(q, tol);
    GeneralRouted(q, tol, m.n);
    RouteIn(q, tol, m.n);
    if r.ToStandard? {
      HeadSame(m, w.m, r.head, tol);
      HeadTested(m, r.head, tol);
      StandardAcceptable(m, q, f, tol);
    } else if r.ToRotated? {
      HeadSame(m, w.m, r.h0, tol);
      HeadTested(m, r.h0, tol);
      HeadSame(m, w.m, r.h1, tol);
      HeadTested(m, r.h1, tol);
      RotatedAcceptable(m, q, f, tol);
    } else {
      OtherAcceptable(m, q, f, tol);
    }
    hide Classify, Normalize, Separated, Factors, HeadOk, KnownNonneg, Acceptable, General, Fast, Saved, GeneralShape;
  }

  lemma StandardAcceptable(m: Model, q: Quad, f: Option<Factor>, tol: real)
    requires tol > 0.0 && QuadIn(q, m.n) && Separated(q, tol) && Classify(q, tol).ToStandard? && Classify(q, tol).head < |m.lower|
    ensures Acceptable(m, q, f, tol) <==> KnownNonneg(m, Classify(q, tol).head, tol)
  {
    var s := StandardFound(q, tol, m.n);
    GeneralRouted(q, tol, m.n);
    hide Classify, Separated, Factors, KnownNonneg, GeneralShape, StandardShape, RotatedShape, Empty;
    var h := Classify(q, tol).head;
    if KnownNonneg(m, h, tol) { assert FastStandard(m, q, tol, h, s); }
    forall g, v | FastStandard(m, q, tol, g, v) ensures g == h { StandardRouted(q, tol, g, v); }
    forall a, b, d, v | FastRotated(m, q, tol, a, b, d, v) ensures false { RotatedRouted(q, tol, a, b, d, v); }
  }

  lemma RotatedAcceptable(m: Model, q: Quad, f: Option<Factor>, tol: real)
    requires tol > 0.0 && QuadIn(q, m.n) && Separated(q, tol) && Classify(q, tol).ToRotated?
    requires Classify(q, tol).h0 < |m.lower| && Classify(q, tol).h1 < |m.lower|
    ensures Acceptable(m, q, f, tol) <==> KnownNonneg(m, Classify(q, tol).h0, tol) && KnownNonneg(m, Classify(q, tol).h1, tol)
  {
    var d, s := RotatedFound(q, tol, m.n);
    GeneralRouted(q, tol, m.n);
    hide Classify, Separated, Factors, KnownNonneg, GeneralShape, StandardShape, RotatedShape, Empty;
    var r := Classify(q, tol);
    if KnownNonneg(m, r.h0, tol) && KnownNonneg(m, r.h1, tol) { assert FastRotated(m, q, tol, r.h0, r.h1, d, s); }
    forall g, v | FastStandard(m, q, tol, g, v) ensures false { StandardRouted(q, tol, g, v); }
    forall a, b, e, v | FastRotated(m, q, tol, a, b, e, v) ensures a == r.h0 && b == r.h1 { RotatedRouted(q, tol, a, b, e, v); }
  }

  lemma OtherAcceptable(m: Model, q: Quad, f: Option<Factor>, tol: real)
    requires tol > 0.0 && QuadIn(q, m.n) && Separated(q, tol) && Answered(q, f, tol)
    requires Classify(q, tol).ToGeneral? || Classify(q, tol).Rejected?
    ensures Acceptable(m, q, f, tol) <==> Classify(q, tol).ToGeneral? && Usable(f)
  {
    GeneralRouted(q, tol, m.n);
    hide Classify, Separated, GeneralShape, StandardShape, RotatedShape, Empty, KnownNonneg;
    forall g, v | FastStandard(m, q, tol, g, v) ensures false { StandardRouted(q, tol, g, v); }
    forall a, b, d, v | FastRotated(m, q, tol, a, b, d, v) ensures false { RotatedRouted(q, tol, a, b, d, v); }
  }

  /** `c` is the cone of route `r`. */
  predicate RouteCone(r: Route, c: Cone) {
    match r
    case ToStandard(head, tails) => c == Standard([head] + tails)
    case ToRotated(h0, h1, tails, ratio) => c == Rotated(h0, h1, tails, ratio)
    case ToGeneral => c.Standard?
    case Rejected => false
  }

  /** One step adds the cone of its route. */
  lemma StepCone(m: Model, w: Work, f: Option<Factor>, tol: real)
    requires Longer(m, w.m) && w.m.quads != [] && tol > 0.0 && Shape(w.m, |m.rows|) && Step(w, |m.rows|, f, tol).Some?
    ensures var v := Step(w, |m.rows|, f, tol).value;
            && Longer(m, v.m) && |v.m.cones| == |w.m.cones| + 1 && w.m.cones <= v.m.cones
            && RouteCone(Classify(Normalize(w.m.quads[0]), tol), v.m.cones[|w.m.cones|])
  {
    hide Classify, Normalize, HeadOk, Saved, LinkingRows, SlackRow, Free;
  }

  lemma StepGrows(m: Model, w: Work, f: Option<Factor>, tol: real)
    requires Longer(m, w.m) && w.m.quads != [] && tol > 0.0 && QuadIn(Normalize(w.m.quads[0]), m.n)
    requires Separated(Normalize(w.m.quads[0]), tol) && Step(w, |m.rows|, f, tol).Some?
    ensures var v := Step(w, |m.rows|, f, tol).value;
            && Longer(m, v.m) && |v.m.cones| == |w.m.cones| + 1 && w.m.cones <= v.m.cones
            && BecomesCone(Normalize(w.m.quads[0]), tol, v.m.cones[|w.m.cones|])
  {
    hide Step, Classify, Normalize, Separated, BecomesCone, RouteCone, QuadIn;
    StepCone(m, w, f, tol);
    ConeGiven(Normalize(w.m.quads[0]), tol, m.n, Step(w, |m.rows|, f, tol).value.m.cones[|w.m.cones|]);
  }

  lemma StandardGiven(q: Quad, tol: real, c: Cone, h: nat, s: real)
    requires tol > 0.0 && RouteCone(Classify(q, tol), c) && StandardShape(q, tol, h, s)
    ensures c.Standard? && c.vars != [] && c.vars[0] == h && TailsOf(q, s, c.vars[1..])
  {
    hide Classify, StandardShape, TailsOf;
    StandardRouted(q, tol, h, s);
    assert ([h] + Classify(q, tol).tails)[1..] == Classify(q, tol).tails;
  }

  lemma RotatedGiven(q: Quad, tol: real, c: Cone, a: nat, b: nat, d: real, s: real)
    requires tol > 0.0 && RouteCone(Classify(q, tol), c) && RotatedShape(q, tol, a, b, d, s)
    ensures c.Rotated? && c.h0 == a && c.h1 == b && (s != 0.0 ==> c.ratio == d / s) && TailsOf(q, s, c.tails)
  {
    hide Classify, RotatedShape, TailsOf;
    RotatedRouted(q, tol, a, b, d, s);
  }

  lemma ConeGiven(q: Quad, tol: real, n: nat, c: Cone)
    requires tol > 0.0 && QuadIn(q, n) && Separated(q, tol) && RouteCone(Classify(q, tol), c)
    ensures BecomesCone(q, tol, c)
  {
    hide Classify, Separated, GeneralShape, StandardShape, RotatedShape, TailsOf;
    GeneralRouted(q, tol, n);
    forall h, s | StandardShape(q, tol, h, s) ensures c.Standard? && c.vars != [] && c.vars[0] == h && TailsOf(q, s, c.vars[1..]) {
      StandardGiven(q, tol, c, h, s);
    }
    forall a, b, d, s | RotatedShape(q, tol, a, b, d, s)
      ensures c.Rotated? && c.h0 == a && c.h1 == b && (s != 0.0 ==> c.ratio == d / s) && TailsOf(q, s, c.tails)
    {
      RotatedGiven(q, tol, c, a, b, d, s);
    }
  }

  // ------------------------------------------------------------------ the whole problem

  ghost predicate AllAcceptable(m: Model, quads: seq<Quad>, fs: seq<Option<Factor>>, tol: real)
    requires |fs| == |quads|
  {
    forall k :: 0 <= k < |quads| ==> Acceptable(m, Normalize(quads[k]), fs[k], tol)
  }

  ghost predicate Ready(m: Model, quads: seq<Quad>, fs: seq<Option<Factor>>, tol: real) {
    && OracleOk(quads, fs, tol) && forall k :: 0 <= k < |quads| ==> QuadIn(Normalize(quads[k]), m.n)
  }

  lemma ReadyHead(m: Model, quads: seq<Quad>, fs: seq<Option<Factor>>, tol: real)
    requires Ready(m, quads, fs, tol) && quads != []
    ensures tol > 0.0 && QuadIn(Normalize(quads[0]), m.n) && Separated(Normalize(quads[0]), tol)
    ensures Answered(Normalize(quads[0]), fs[0], tol) && Ready(m, quads[1..], fs[1..], tol)
  {
    OracleRest(quads, fs, tol);
    hide Classify, Normalize, Separated, Factors, QuadIn;
  }

  lemma AcceptableHead(m: Model, quads: seq<Quad>, fs: seq<Option<Factor>>, tol: real)
    requires |fs| == |quads| && quads != []
    ensures AllAcceptable(m, quads, fs, tol) <==> Acceptable(m, Normalize(quads[0]), fs[0], tol) && AllAcceptable(m, quads[1..], fs[1..], tol)
  {
    hide Acceptable, Normalize;
    var a, b := quads[1..], fs[1..];
    assert forall k :: 0 <= k < |a| ==> a[k] == quads[k + 1] && b[k] == fs[k + 1];
    if Acceptable(m, Normalize(quads[0]), fs[0], tol) && AllAcceptable(m, a, b, tol) {
      forall k | 0 <= k < |quads| ensures Acceptable(m, Normalize(quads[k]), fs[k], tol) {
        if k > 0 { assert Acceptable(m, Normalize(a[k - 1]), b[k - 1], tol); }
      }
    }
    if AllAcceptable(m, quads, fs, tol) {
      forall k | 0 <= k < |a| ensures Acceptable(m, Normalize(a[k]), b[k], tol) {
        assert Acceptable(m, Normalize(quads[k + 1]), fs[k + 1], tol);
      }
    }
  }

  lemma {:induction false} ConvertAccepts(m: Model, w: Work, fs: seq<Option<Factor>>, tol: real)
    requires Longer(m, w.m) && Ready(m, w.m.quads, fs, tol)
    ensures ConvertAll(w, |m.rows|, fs, tol).Some? <==> AllAcceptable(m, w.m.quads, fs, tol)
    decreases |fs|
  {
    hide Step, AllAcceptable, Ready, Acceptable, Longer;
    LongerShape(m, w.m);
    ReadySizes(m, w.m.quads, fs, tol);
    if w.m.quads == [] {
      NoneAcceptable(m, fs, tol);
    } else {
      ReadyHead(m, w.m.quads, fs, tol);
      AcceptableHead(m, w.m.quads, fs, tol);
      StepAccepts(m, w, fs[0], tol);
      if Step(w, |m.rows|, fs[0], tol).Some? {
        StepGrows(m, w, fs[0], tol);
        ConvertAccepts(m, Step(w, |m.rows|, fs[0], tol).value, fs[1..], tol);
      }
    }
  }

  lemma LongerShape(m: Model, w: Model)
    requires Longer(m, w)
    ensures Shape(w, |m.rows|)
  {
  }

  lemma ReadySizes(m: Model, quads: seq<Quad>, fs: seq<Option<Factor>>, tol: real)
    requires Ready(m, quads, fs, tol)
    ensures |fs| == |quads| && tol > 0.0
  {
  }

  lemma NoneAcceptable(m: Model, fs: seq<Option<Factor>>, tol: real)
    requires fs == []
    ensures AllAcceptable(m, [], fs, tol)
  {
  }

  /** The cones made of `quads`, in order, behind those there already. */
  ghost predicate ConesMade(quads: seq<Quad>, tol: real, before: seq<Cone>, after: seq<Cone>) {
    && |after| == |before| + |quads| && before <= after
    && forall k :: 0 <= k < |quads| ==> BecomesCone(Normalize(quads[k]), tol, after[|before| + k])
  }

  lemma ConesMadeStep(quads: seq<Quad>, tol: real, a: seq<Cone>, b: seq<Cone>, c: seq<Cone>)
    requires quads != [] && |b| == |a| + 1 && a <= b && BecomesCone(Normalize(quads[0]), tol, b[|a|])
    requires ConesMade(quads[1..], tol, b, c)
    ensures ConesMade(quads, tol, a, c)
  {
    hide BecomesCone, Normalize;
    forall k | 0 <= k < |quads| ensures BecomesCone(Normalize(quads[k]), tol, c[|a| + k]) {
      if k == 0 {
        assert c[|a|] == b[|a|];
      } else {
        assert quads[1..][k - 1] == quads[k];
        assert BecomesCone(Normalize(quads[1..][k - 1]), tol, c[|b| + (k - 1)]);
      }
    }
  }

  lemma {:induction false} ConvertCones(m: Model, w: Work, fs: seq<Option<Factor>>, tol: real)
    requires Longer(m, w.m) && Ready(m, w.m.quads, fs, tol)
    requires Shape(w.m, |m.rows|) && |fs| == |w.m.quads| && tol > 0.0 && ConvertAll(w, |m.rows|, fs, tol).Some?
    ensures ConesMade(w.m.quads, tol, w.m.cones, ConvertAll(w, |m.rows|, fs, tol).value.m.cones)
    decreases |fs|
  {
    hide Step, Ready, Longer, ConesMade, BecomesCone, Normalize;
    if w.m.quads == [] {
      NoConesMade(tol, w.m.cones);
    } else {
      ReadyHead(m, w.m.quads, fs, tol);
      StepGrows(m, w, fs[0], tol);
      var v := Step(w, |m.rows|, fs[0], tol).value;
      ConvertCones(m, v, fs[1..], tol);
      ConesMadeStep(w.m.quads, tol, w.m.cones, v.m.cones, ConvertAll(w, |m.rows|, fs, tol).value.m.cones);
    }
  }

  lemma NoConesMade(tol: real, cones: seq<Cone>)
    ensures ConesMade([], tol, cones, cones)
  {
  }

  lemma InputReady(m: Model, fs: seq<Option<Factor>>, hs: seq<real>, tol: real)
    requires Input(m, fs, hs, tol)
    ensures Ready(m, m.quads, fs, tol) && Longer(m, m)
  {
    forall k | 0 <= k < |m.quads| ensures QuadIn(Normalize(m.quads[k]), m.n) {
      assert QuadIn(m.quads[k], m.n);
      NormalizeIn(m.quads[k], m.n);
    }
    hide Normalize, OracleOk, Converted;
  }

  /** The expansion succeeds exactly when there are quadratic constraints and each of them is
      acceptable: of standard or rotated shape with heads known to be nonnegative from the original
      rows and bounds, or of another shape with a factorisation. */
  lemma ExpandAccepts(m: Model, fs: seq<Option<Factor>>, hs: seq<real>, tol: real)
    requires Input(m, fs, hs, tol)
    ensures Expand(m, fs, hs, tol).Some? <==> m.quads != [] && AllAcceptable(m, m.quads, fs, tol)
  {
    InputReady(m, fs, hs, tol);
    hide Input, AllAcceptable, Ready, Longer, ConvertAll;
    ConvertAccepts(m, Work(m, []), fs, tol);
  }

  /** Each constraint becomes, in order, the cone over exactly its variables. */
  lemma ExpandCones(m: Model, fs: seq<Option<Factor>>, hs: seq<real>, tol: real, k: nat)
    requires Input(m, fs, hs, tol) && Expand(m, fs, hs, tol).Some? && k < |m.quads|
    ensures Converted(m, fs, tol).Some? && |Converted(m, fs, tol).value.m.cones| == |m.quads|
    ensures BecomesCone(Normalize(m.quads[k]), tol, Converted(m, fs, tol).value.m.cones[k])
  {
    InputReady(m, fs, hs, tol);
    InputSizes(m, fs, hs, tol);
    ExpandedFrom(m, fs, hs, tol);
    hide *;
    ConvertCones(m, Work(m, []), fs, tol);
    MadeAt(m.quads, tol, Converted(m, fs, tol).value.m.cones, k);
  }

  lemma ExpandedFrom(m: Model, fs: seq<Option<Factor>>, hs: seq<real>, tol: real)
    requires Input(m, fs, hs, tol) && Expand(m, fs, hs, tol).Some? && Shape(m, |m.rows|)
    ensures Converted(m, fs, tol).Some? && Converted(m, fs, tol) == ConvertAll(Work(m, []), |m.rows|, fs, tol)
  {
    hide Input, ConvertAll;
  }

  lemma MadeAt(quads: seq<Quad>, tol: real, cones: seq<Cone>, k: nat)
    requires ConesMade(quads, tol, [], cones) && k < |quads|
    ensures |cones| == |quads| && BecomesCone(Normalize(quads[k]), tol, cones[k])
  {
    hide BecomesCone, Normalize;
    var none: seq<Cone> := [];
    assert BecomesCone(Normalize(quads[k]), tol, cones[|none| + k]);
  }

  lemma InputSizes(m: Model, fs: seq<Option<Factor>>, hs: seq<real>, tol: real)
    requires Input(m, fs, hs, tol)
    ensures m.cones == [] && |fs| == |m.quads| && tol > 0.0 && Shape(m, |m.rows|)
  {
  }

  /** An ordinary second-order cone is accepted and stays that cone. */
  lemma OrdinaryCone(m: Model, fs: seq<Option<Factor>>, hs: seq<real>, tol: real, h: nat, s: real)
    requires Input(m, fs, hs, tol) && |m.quads| == |fs| == 1 && StandardShape(Normalize(m.quads[0]), tol, h, s)
    requires h < |m.lower| && KnownNonneg(m, h, tol)
    ensures Expand(m, fs, hs, tol).Some? && |Converted(m, fs, tol).value.m.cones| == 1
    ensures var c := Converted(m, fs, tol).value.m.cones[0];
            c.Standard? && c.vars != [] && c.vars[0] == h && TailsOf(Normalize(m.quads[0]), s, c.vars[1..])
  {
    OrdinaryAcceptable(m, fs, tol, h, s);
    InputSizes(m, fs, hs, tol);
    hide *;
    ExpandAccepts(m, fs, hs, tol);
    ExpandCones(m, fs, hs, tol, 0);
    OrdinaryBecomes(Normalize(m.quads[0]), tol, Converted(m, fs, tol).value.m.cones[0], h, s);
  }

  lemma OrdinaryAcceptable(m: Model, fs: seq<Option<Factor>>, tol: real, h: nat, s: real)
    requires |m.quads| == |fs| == 1 && StandardShape(Normalize(m.quads[0]), tol, h, s) && h < |m.lower| && KnownNonneg(m, h, tol)
    ensures m.quads != [] && AllAcceptable(m, m.quads, fs, tol)
  {
    hide Normalize, StandardShape, KnownNonneg;
    assert FastStandard(m, Normalize(m.quads[0]), tol, h, s);
  }

  lemma OrdinaryBecomes(q: Quad, tol: real, c: Cone, h: nat, s: real)
    requires StandardShape(q, tol, h, s) && BecomesCone(q, tol, c)
    ensures c.Standard? && c.vars != [] && c.vars[0] == h && TailsOf(q, s, c.vars[1..])
  {
    hide StandardShape, TailsOf, RotatedShape, GeneralShape;
  }
}
