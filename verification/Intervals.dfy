/** Intervals of the real line, and lengths of sets of points as sums of intervals that do not
    overlap. */
module Intervals {

  datatype Interval = Interval(x: real, width: real) {
    function End(): real { x + width }

    predicate Covers(p: real) { x <= p < End() }
  }

  function Span(start: real, end: real): Interval {
    Interval(start, end - start)
  }

  ghost function Between(start: real, end: real): iset<real> {
    iset p: real | Span(start, end).Covers(p)
  }

  /** Intervals from left to right that are not empty and do not overlap. */
  predicate Tidy(d: seq<Interval>) {
    && (forall i :: 0 <= i < |d| ==> d[i].width > 0.0)
    && (forall i, j :: 0 <= i < j < |d| ==> d[i].End() <= d[j].x)
  }

  function Length(d: seq<Interval>): real {
    if d == [] then 0.0 else d[0].width + Length(d[1..])
  }

  ghost predicate CoveredBySeq(d: seq<Interval>, p: real) {
    exists i :: 0 <= i < |d| && d[i].Covers(p)
  }

  ghost predicate Covers(d: seq<Interval>, points: iset<real>) {
    Tidy(d) && forall p: real :: CoveredBySeq(d, p) <==> p in points
  }

  /** Some tidy intervals cover exactly these points and add up to `length`. */
  ghost predicate HasLength(points: iset<real>, length: real) {
    exists d :: Covers(d, points) && Length(d) == length
  }

  ghost predicate CoveredBySet(rs: set<Interval>, p: real) {
    exists r :: r in rs && r.Covers(p)
  }

  ghost function UnionOf(rs: set<Interval>): iset<real> {
    iset p: real | CoveredBySet(rs, p)
  }

  // ----- Cutting -----

  /** The parts of the intervals before a point. */
  function Before(d: seq<Interval>, at: real): seq<Interval> {
    if d == [] || at <= d[0].x then []
    else if d[0].End() <= at then [d[0]] + Before(d[1..], at)
    else [Span(d[0].x, at)]
  }

  /** The parts from that point on. */
  function From(d: seq<Interval>, at: real): seq<Interval> {
    if d == [] || at <= d[0].x then d
    else if d[0].End() <= at then From(d[1..], at)
    else [Span(at, d[0].End())] + d[1..]
  }

  lemma CoveredByFirstOrRest(d: seq<Interval>, p: real)
    requires d != []
    ensures CoveredBySeq(d, p) <==> d[0].Covers(p) || CoveredBySeq(d[1..], p)
  {
    if i :| 0 <= i < |d| && d[i].Covers(p) {
      assert i > 0 ==> d[1..][i - 1].Covers(p);
    }
    if i :| 0 <= i < |d[1..]| && d[1..][i].Covers(p) {
      assert d[i + 1].Covers(p);
    }
  }

  lemma {:induction false} CutCovers(d: seq<Interval>, at: real, p: real)
    requires Tidy(d)
    ensures CoveredBySeq(Before(d, at), p) <==> CoveredBySeq(d, p) && p < at
    ensures CoveredBySeq(From(d, at), p) <==> CoveredBySeq(d, p) && at <= p
  {
    if d == [] {
    } else if at <= d[0].x {
      if i :| 0 <= i < |d| && d[i].Covers(p) {
        assert d[0].x <= d[i].x;
      }
    } else {
      CoveredByFirstOrRest(d, p);
      CutCovers(d[1..], at, p);
      if d[0].End() <= at {
        CoveredByFirstOrRest(Before(d, at), p);
        assert Before(d, at)[1..] == Before(d[1..], at);
      } else {
        assert Before(d[1..], at) == [];
        assert From(d[1..], at) == d[1..];
        CoveredByFirstOrRest(Before(d, at), p);
        CoveredByFirstOrRest(From(d, at), p);
        assert From(d, at)[1..] == d[1..];
      }
    }
  }

  /** All within two bounds. */
  predicate Within(d: seq<Interval>, lo: real, hi: real) {
    forall i :: 0 <= i < |d| ==> lo <= d[i].x && d[i].End() <= hi
  }

  lemma TidyCons(r: Interval, d: seq<Interval>, lo: real, hi: real)
    requires r.width > 0.0 && Tidy(d) && Within(d, r.End(), hi)
    requires lo <= r.x && r.End() <= hi
    ensures Tidy([r] + d) && Within([r] + d, lo, hi)
  {
    var all := [r] + d;
    assert forall i :: 0 < i < |all| ==> all[i] == d[i - 1];
    forall i | 0 <= i < |all| ensures lo <= all[i].x && all[i].End() <= hi {
      assert i > 0 ==> d[i - 1].x >= r.End() && d[i - 1].width > 0.0;
    }
  }

  lemma TidyRest(d: seq<Interval>, lo: real, hi: real)
    requires Tidy(d) && d != [] && Within(d, lo, hi)
    ensures d[0].width > 0.0 && lo <= d[0].x && d[0].End() <= hi
    ensures Tidy(d[1..]) && Within(d[1..], d[0].End(), hi)
  {
  }

  lemma {:induction false} CutIsTidy(d: seq<Interval>, at: real, lo: real, hi: real)
    requires Tidy(d) && Within(d, lo, hi) && lo <= at <= hi
    ensures Tidy(Before(d, at)) && Within(Before(d, at), lo, at)
    ensures Tidy(From(d, at)) && Within(From(d, at), at, hi)
    ensures Length(Before(d, at)) + Length(From(d, at)) == Length(d)
  {
    hide Tidy, Within;
    if d == [] || at <= d[0].x {
      NothingIsTidy(lo, at);
      TightenStart(d, lo, at, hi);
    } else {
      TidyRest(d, lo, hi);
      if d[0].End() <= at {
        CutIsTidy(d[1..], at, d[0].End(), hi);
        TidyCons(d[0], Before(d[1..], at), lo, at);
        assert Before(d, at)[1..] == Before(d[1..], at);
      } else {
        NothingIsTidy(at, at);
        TidyCons(Span(d[0].x, at), [], lo, at);
        assert [Span(d[0].x, at)] + [] == Before(d, at);
        TidyCons(Span(at, d[0].End()), d[1..], at, hi);
        assert Before(d, at)[1..] == [] && From(d, at)[1..] == d[1..];
      }
    }
  }

  lemma NothingIsTidy(lo: real, hi: real)
    ensures Tidy([]) && Within([], lo, hi)
  {
  }

  lemma TightenStart(d: seq<Interval>, lo: real, at: real, hi: real)
    requires Tidy(d) && Within(d, lo, hi) && (d == [] || at <= d[0].x)
    ensures Within(d, at, hi)
  {
  }

  /** Some bounds hold all. */
  lemma {:induction false} Bounds(d: seq<Interval>, at: real) returns (lo: real, hi: real)
    ensures lo <= at <= hi && Within(d, lo, hi)
  {
    if d == [] {
      lo, hi := at, at;
    } else {
      var r := d[0];
      lo, hi := Bounds(d[1..], at);
      assert forall i :: 0 < i < |d| ==> d[i] == d[1..][i - 1];
      if r.x < lo { lo := r.x; }
      if r.End() > hi { hi := r.End(); }
    }
  }

  lemma {:induction false} LengthOfBoth(a: seq<Interval>, b: seq<Interval>)
    ensures Length(a + b) == Length(a) + Length(b)
  {
    if a == [] {
      assert a + b == b;
    } else {
      assert (a + b)[1..] == a[1..] + b;
      LengthOfBoth(a[1..], b);
    }
  }

  lemma CoveredByBoth(a: seq<Interval>, b: seq<Interval>, p: real)
    ensures CoveredBySeq(a + b, p) <==> CoveredBySeq(a, p) || CoveredBySeq(b, p)
  {
    if i :| 0 <= i < |a| && a[i].Covers(p) {
      assert (a + b)[i].Covers(p);
    }
    if i :| 0 <= i < |b| && b[i].Covers(p) {
      assert (a + b)[|a| + i].Covers(p);
    }
  }

  // ----- A set of points has one length -----

  ghost predicate CoverAlike(d: seq<Interval>, e: seq<Interval>) {
    forall p: real :: CoveredBySeq(d, p) <==> CoveredBySeq(e, p)
  }

  /** Tidy lists that cover the same points start at the same point. */
  lemma SameStart(d: seq<Interval>, e: seq<Interval>)
    requires Tidy(d) && Tidy(e) && d != [] && CoverAlike(d, e)
    ensures e != [] && e[0].x == d[0].x
  {
    assert d[0].Covers(d[0].x);
    assert CoveredBySeq(e, d[0].x);
    assert e[0].Covers(e[0].x);
    assert CoveredBySeq(d, e[0].x);
  }

  lemma CutFirst(d: seq<Interval>, at: real)
    requires Tidy(d) && d != [] && d[0].x < at <= d[0].End()
    ensures From(d, at) == if d[0].End() <= at then d[1..] else [Span(at, d[0].End())] + d[1..]
    ensures Tidy(From(d, at))
    ensures Length(From(d, at)) == Length(d) - (at - d[0].x)
  {
    var rest := d[1..];
    if d[0].End() <= at {
      assert forall i :: 0 <= i < |rest| ==> rest[i] == d[i + 1];
    } else {
      var c := [Span(at, d[0].End())] + rest;
      assert c[1..] == rest;
      assert forall i :: 1 <= i < |c| ==> c[i] == d[i];
    }
  }

  lemma {:induction false} CoverFixesLength(d: seq<Interval>, e: seq<Interval>)
    requires Tidy(d) && Tidy(e) && CoverAlike(d, e)
    ensures Length(d) == Length(e)
    decreases |d| + |e|
  {
    hide Tidy, Length, From;
    if d == [] && e == [] {
    } else if d == [] {
      SameStart(e, d);
    } else {
      SameStart(d, e);
      PositiveWidths(d, e);
      var at := if d[0].End() <= e[0].End() then d[0].End() else e[0].End();
      var d', e' := From(d, at), From(e, at);
      forall p: real ensures CoveredBySeq(d', p) <==> CoveredBySeq(e', p) {
        CutCovers(d, at, p);
        CutCovers(e, at, p);
      }
      CutFirst(d, at);
      CutFirst(e, at);
      CoverFixesLength(d', e');
    }
  }

  lemma PositiveWidths(d: seq<Interval>, e: seq<Interval>)
    requires Tidy(d) && Tidy(e) && d != [] && e != []
    ensures d[0].width > 0.0 && e[0].width > 0.0
  {
  }

  lemma LengthIsUnique(points: iset<real>, a: real, b: real)
    requires HasLength(points, a) && HasLength(points, b)
    ensures a == b
  {
    var d :| Covers(d, points) && Length(d) == a;
    var e :| Covers(e, points) && Length(e) == b;
    CoverFixesLength(d, e);
  }

  lemma LengthBetween(start: real, end: real)
    requires start <= end
    ensures HasLength(Between(start, end), end - start)
  {
    if start == end {
      assert Covers([], Between(start, end)) && Length([]) == 0.0;
    } else {
      var d := [Span(start, end)];
      forall p: real ensures CoveredBySeq(d, p) <==> p in Between(start, end) {
        assert d[0].Covers(p) <==> start <= p < end;
      }
      assert d[1..] == [];
      assert Covers(d, Between(start, end)) && Length(d) == end - start;
    }
  }

  lemma LengthIsNotNegative(points: iset<real>, length: real)
    requires HasLength(points, length)
    ensures length >= 0.0
  {
    var d :| Covers(d, points) && Length(d) == length;
    TidyIsNotNegative(d);
  }

  lemma {:induction false} TidyIsNotNegative(d: seq<Interval>)
    requires Tidy(d)
    ensures Length(d) >= 0.0
  {
    if d != [] {
      TidyIsNotNegative(d[1..]);
    }
  }

  /** Taking an interval out of a set that holds it takes its length out. */
  lemma TakeOut(points: iset<real>, length: real, start: real, end: real)
    requires HasLength(points, length) && start <= end && Between(start, end) <= points
    ensures HasLength(points - Between(start, end), length - (end - start))
  {
    hide Tidy, Within, CoveredBySeq, Before, From, Length;
    var d :| Covers(d, points) && Length(d) == length;
    var left, right := Before(d, start), From(d, start);
    var middle, rest := Before(right, end), From(right, end);
    var lo, hi := Bounds(d, start);
    CutIsTidy(d, start, lo, hi);
    WithinMore(right, start, hi, end);
    CutIsTidy(right, end, start, if hi < end then end else hi);
    forall p: real
      ensures CoveredBySeq(middle, p) <==> p in Between(start, end)
      ensures CoveredBySeq(left + rest, p) <==> p in points - Between(start, end)
    {
      CutCovers(d, start, p);
      CutCovers(right, end, p);
      CoveredByBoth(left, rest, p);
    }
    assert Covers(middle, Between(start, end));
    LengthBetween(start, end);
    LengthIsUnique(Between(start, end), Length(middle), end - start);
    LengthOfBoth(left, rest);
    BothTidy(left, rest, lo, start, end, if hi < end then end else hi);
    assert Covers(left + rest, points - Between(start, end));
  }

  lemma WithinMore(d: seq<Interval>, lo: real, hi: real, at: real)
    requires Within(d, lo, hi)
    ensures Within(d, lo, if hi < at then at else hi)
  {
  }

  lemma BothTidy(a: seq<Interval>, b: seq<Interval>, lo: real, start: real, end: real, hi: real)
    requires Tidy(a) && Tidy(b) && Within(a, lo, start) && Within(b, end, hi) && start <= end
    ensures Tidy(a + b)
  {
  }
}
