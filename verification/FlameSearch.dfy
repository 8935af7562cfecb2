/** The matched percentage of a search (flamegraph.pl:1118-1197): one pass over the matched
    rectangles by x, against the length of the union of the rectangles. Pixels are exact. */
module FlameSearch {
  import opened Intervals

  /** A drawn frame: where it starts, how wide it is, and whether its name matches. */
  datatype Rect = Rect(x: real, width: real, matched: bool) {
    function Extent(): Interval { Interval(x, width) }
  }

  const FUDGE: real := 0.0001

  // ----- The one pass -----

  /** Steps through the starts by x, counting a width only where the last counted interval has
      ended, give or take the fudge. */
  function Tally(starts: seq<Interval>, last: Interval): real {
    if starts == [] then 0.0
    else if starts[0].x >= last.End() - FUDGE then starts[0].width + Tally(starts[1..], starts[0])
    else Tally(starts[1..], last)
  }

  /** `lastx = -1`, `lastw = 0`. */
  const NOTHING := Interval(-1.0, 0.0)

  predicate Inside(a: Interval, b: Interval) {
    b.x <= a.x && a.End() <= b.End()
  }

  /** Apart, or one inside the other. */
  predicate Nest(a: Interval, b: Interval) {
    a.End() <= b.x || b.End() <= a.x || Inside(a, b) || Inside(b, a)
  }

  /** Intervals on the canvas, possibly empty, any two of them nested or apart. */
  ghost predicate AllNest(rs: set<Interval>) {
    && (forall r :: r in rs ==> r.x >= 0.0 && r.width >= 0.0)
    && (forall a, b :: a in rs && b in rs ==> Nest(a, b))
  }

  /** In no other interval of the set. */
  ghost predicate IsMaximal(rs: set<Interval>, m: Interval) {
    m in rs && forall q :: q in rs && Inside(m, q) ==> q == m
  }

  /** `r` starts strictly inside the maximal `m`, within 0.0001 of its end. */
  ghost predicate StartsLate(rs: set<Interval>, m: Interval, r: Interval) {
    && IsMaximal(rs, m) && r in rs && r.width > 0.0
    && m.x < r.x && m.End() - 0.0001 <= r.x < m.End()
  }

  ghost predicate SomeStartsLate(rs: set<Interval>) {
    exists m, r :: StartsLate(rs, m, r)
  }

  predicate Ascending(starts: seq<Interval>) {
    forall i, j :: 0 <= i < j < |starts| ==> starts[i].x < starts[j].x
  }

  function AsSet(starts: seq<Interval>): set<Interval> {
    set r | r in starts
  }

  /** `last` comes before these starts. */
  ghost predicate Follows(starts: seq<Interval>, last: Interval) {
    && Ascending(starts) && AllNest(AsSet(starts))
    && last.width >= 0.0 && (last == NOTHING || last.x >= 0.0)
    && (forall r :: r in starts ==> last.x < r.x && Nest(last, r))
  }

  lemma FollowsOn(starts: seq<Interval>, last: Interval)
    requires Follows(starts, last) && starts != []
    ensures Follows(starts[1..], last) && Follows(starts[1..], starts[0])
    ensures starts[0].width >= 0.0 && last.x < starts[0].x && starts[0].x >= 0.0
    ensures starts[0].x < last.End() ==> Inside(starts[0], last)
  {
    assert starts[0] in AsSet(starts);
    assert AsSet(starts[1..]) <= AsSet(starts);
    forall r | r in starts[1..] ensures starts[0].x < r.x && Nest(starts[0], r) {
      assert r in AsSet(starts);
    }
  }

  // ----- The pass without the fudge, and what the fudge adds -----

  /** The intervals, not empty, that start where the last such has ended. */
  function Outer(starts: seq<Interval>, last: Interval): seq<Interval> {
    if starts == [] then []
    else if starts[0].x >= last.End() then
      (if starts[0].width > 0.0 then [starts[0]] else []) + Outer(starts[1..], starts[0])
    else Outer(starts[1..], last)
  }

  /** The widths that start inside the last such interval, within the fudge of its end. */
  function Excess(starts: seq<Interval>, last: Interval): real {
    if starts == [] then 0.0
    else if starts[0].x >= last.End() then Excess(starts[1..], starts[0])
    else (if starts[0].x >= last.End() - FUDGE then starts[0].width else 0.0) + Excess(starts[1..], last)
  }

  /** The pass may stand on an interval inside the outer one, once it has counted one too many. */
  predicate StandsIn(actual: Interval, last: Interval) {
    actual == last || last.End() - FUDGE <= actual.x <= actual.End() <= last.End()
  }

  lemma {:induction false} TallySplits(starts: seq<Interval>, last: Interval, actual: Interval)
    requires Follows(starts, last) && StandsIn(actual, last)
    requires forall r :: r in starts ==> actual.x < r.x
    ensures Tally(starts, actual) == Length(Outer(starts, last)) + Excess(starts, last)
  {
    hide Follows;
    if starts != [] {
      var s, rest := starts[0], starts[1..];
      FollowsOn(starts, last);
      FollowsAscends(rest, s);
      if s.x >= last.End() {
        TallySplits(rest, s, s);
        assert s.width > 0.0 ==> ([s] + Outer(rest, s))[1..] == Outer(rest, s);
        assert [] + Outer(rest, s) == Outer(rest, s);
      } else if s.x >= actual.End() - FUDGE {
        TallySplits(rest, last, s);
      } else {
        TallySplits(rest, last, actual);
      }
    }
  }

  lemma FollowsAscends(rest: seq<Interval>, s: Interval)
    requires Follows(rest, s)
    ensures forall r :: r in rest ==> s.x < r.x
  {
  }

  lemma {:induction false} OuterIsTidy(starts: seq<Interval>, last: Interval)
    requires Follows(starts, last)
    ensures Tidy(Outer(starts, last))
    ensures forall i :: 0 <= i < |Outer(starts, last)| ==> Outer(starts, last)[i].x >= last.End()
  {
    hide Follows;
    if starts != [] {
      FollowsOn(starts, last);
      OuterIsTidy(starts[1..], if starts[0].x >= last.End() then starts[0] else last);
    }
  }

  lemma {:induction false} OuterCoversAll(starts: seq<Interval>, last: Interval, p: real)
    requires Follows(starts, last)
    ensures CoveredBySeq(Outer(starts, last), p) || last.Covers(p) <==>
            CoveredBySeq(starts, p) || last.Covers(p)
  {
    hide Follows;
    if starts != [] {
      var s, rest := starts[0], starts[1..];
      FollowsOn(starts, last);
      CoveredByFirstOrRest(starts, p);
      if s.x >= last.End() {
        OuterCoversAll(rest, s, p);
        if s.width > 0.0 {
          var outer := [s] + Outer(rest, s);
          CoveredByFirstOrRest(outer, p);
          assert outer[1..] == Outer(rest, s);
        } else {
          assert [] + Outer(rest, s) == Outer(rest, s);
        }
      } else {
        OuterCoversAll(rest, last, p);
      }
    }
  }

  lemma {:induction false} ExcessIsNotNegative(starts: seq<Interval>, last: Interval)
    requires Follows(starts, last)
    ensures Excess(starts, last) >= 0.0
  {
    hide Follows;
    if starts != [] {
      FollowsOn(starts, last);
      ExcessIsNotNegative(starts[1..], if starts[0].x >= last.End() then starts[0] else last);
    }
  }

  // ----- The search -----

  function Matched(rects: seq<Rect>): set<Interval> {
    set r | r in rects && r.matched :: r.Extent()
  }

  /** The sorted keys of `matches`: for every x of a matched rectangle the widest one there. */
  ghost predicate IsSweep(rs: set<Interval>, starts: seq<Interval>) {
    && Ascending(starts)
    && (forall s :: s in starts ==> s in rs)
    && (forall r {:trigger HasWidest(starts, r)} :: r in rs ==> HasWidest(starts, r))
  }

  ghost predicate HasWidest(starts: seq<Interval>, r: Interval) {
    exists s :: s in starts && s.x == r.x && r.width <= s.width
  }

  lemma SweepFollows(rs: set<Interval>, starts: seq<Interval>)
    requires IsSweep(rs, starts) && AllNest(rs)
    ensures Follows(starts, NOTHING) && AsSet(starts) <= rs
  {
    assert AsSet(starts) <= rs;
    forall r | r in starts ensures NOTHING.x < r.x && Nest(NOTHING, r) {
      assert r in rs;
    }
  }

  lemma WidestCovers(rs: set<Interval>, starts: seq<Interval>, p: real)
    requires IsSweep(rs, starts)
    ensures CoveredBySeq(starts, p) <==> CoveredBySet(rs, p)
  {
    if r :| r in rs && r.Covers(p) {
      assert HasWidest(starts, r);
      var s :| s in starts && s.x == r.x && r.width <= s.width;
      var i :| 0 <= i < |starts| && starts[i] == s;
      assert starts[i].Covers(p);
    }
    if i :| 0 <= i < |starts| && starts[i].Covers(p) {
      assert starts[i] in rs;
    }
  }

  lemma OuterIsUnion(rs: set<Interval>, starts: seq<Interval>)
    requires IsSweep(rs, starts) && AllNest(rs)
    ensures HasLength(UnionOf(rs), Length(Outer(starts, NOTHING)))
  {
    hide IsSweep, AllNest, Follows, Length, Tidy;
    SweepFollows(rs, starts);
    OuterIsTidy(starts, NOTHING);
    var d := Outer(starts, NOTHING);
    forall p: real ensures CoveredBySeq(d, p) <==> p in UnionOf(rs) {
      OuterCoversAll(starts, NOTHING, p);
      WidestCovers(rs, starts, p);
    }
    assert Covers(d, UnionOf(rs));
  }

  // ----- When the fudge adds something -----

  /** What the pass has behind it: everything that does not lie ahead ends by the end of `last`. */
  ghost predicate Swept(rs: set<Interval>, starts: seq<Interval>, last: Interval) {
    && AllNest(rs) && AsSet(starts) <= rs
    && (forall q {:trigger HasWidest(starts, q)} :: q in rs ==> q.End() <= last.End() || HasWidest(starts, q))
    && (last.width > 0.0 ==> IsMaximal(rs, last))
  }

  lemma SweptOn(rs: set<Interval>, starts: seq<Interval>, last: Interval)
    requires Swept(rs, starts, last) && Follows(starts, last) && starts != []
    ensures starts[0].x >= last.End() ==> Swept(rs, starts[1..], starts[0])
    ensures starts[0].x < last.End() ==> Swept(rs, starts[1..], last)
  {
    var s, rest := starts[0], starts[1..];
    FollowsOn(starts, last);
    assert s in AsSet(starts) && AsSet(rest) <= AsSet(starts);
    forall q | q in rs && !HasWidest(rest, q) ensures q.End() <= s.End() || q.End() <= last.End() {
      if q.End() > last.End() {
        assert HasWidest(starts, q);
        var w :| w in starts && w.x == q.x && q.width <= w.width;
        assert w == s || w in rest;
      }
    }
    if s.x >= last.End() && s.width > 0.0 {
      forall q | q in rs && Inside(s, q) ensures q == s {
        assert HasWidest(starts, q);
        var w :| w in starts && w.x == q.x && q.width <= w.width;
        assert w == s || w in rest;
        FollowsAscends(rest, s);
      }
    }
  }

  lemma {:induction false} ExcessIsLate(rs: set<Interval>, starts: seq<Interval>, last: Interval)
    requires Swept(rs, starts, last) && Follows(starts, last) && Excess(starts, last) > 0.0
    ensures SomeStartsLate(rs)
  {
    hide Swept, Follows, StartsLate, SomeStartsLate;
    var s, rest := starts[0], starts[1..];
    FollowsOn(starts, last);
    SweptOn(rs, starts, last);
    if s.x >= last.End() {
      ExcessIsLate(rs, rest, s);
    } else if s.x >= last.End() - FUDGE && s.width > 0.0 {
      LateFound(rs, starts, last);
    } else {
      ExcessIsLate(rs, rest, last);
    }
  }

  lemma LateFound(rs: set<Interval>, starts: seq<Interval>, last: Interval)
    requires Swept(rs, starts, last) && Follows(starts, last) && starts != [] && starts[0].width > 0.0
    requires last.End() - FUDGE <= starts[0].x < last.End()
    ensures SomeStartsLate(rs)
  {
    FollowsOn(starts, last);
    assert starts[0] in AsSet(starts);
    assert StartsLate(rs, last, starts[0]);
  }

  lemma {:induction false} LateIsExcess(starts: seq<Interval>, last: Interval, r: Interval)
    requires Follows(starts, last) && r in starts && r.width > 0.0
    requires last.End() - FUDGE <= r.x < last.End()
    ensures Excess(starts, last) > 0.0
  {
    hide Follows;
    var s, rest := starts[0], starts[1..];
    FollowsOn(starts, last);
    FollowsAscends(rest, s);
    ExcessIsNotNegative(rest, last);
    if s != r {
      assert r in rest;
      LateIsExcess(rest, last, r);
    }
  }

  /** The pass comes to the maximal interval `m` and counts it, and then meets `r`. */
  lemma {:induction false} LateIsMet(rs: set<Interval>, starts: seq<Interval>, last: Interval, m: Interval, r: Interval)
    requires Follows(starts, last) && AsSet(starts) <= rs && (last == NOTHING || last in rs)
    requires m in starts && r in starts && StartsLate(rs, m, r)
    ensures Excess(starts, last) > 0.0
  {
    hide Follows, AllNest;
    var s, rest := starts[0], starts[1..];
    FollowsOn(starts, last);
    FollowsAscends(rest, s);
    assert s in AsSet(starts) && AsSet(rest) <= AsSet(starts);
    assert r == s || r in rest;
    if s == m {
      LateIsExcess(rest, m, r);
    } else {
      assert m in rest;
      ExcessIsNotNegative(rest, last);
      LateIsMet(rs, rest, if s.x >= last.End() then s else last, m, r);
    }
  }

  lemma LateIsCounted(rs: set<Interval>, starts: seq<Interval>)
    requires IsSweep(rs, starts) && AllNest(rs) && SomeStartsLate(rs)
    ensures Excess(starts, NOTHING) > 0.0
  {
    hide AllNest;
    SweepFollows(rs, starts);
    var m, r :| StartsLate(rs, m, r);
    assert HasWidest(starts, m) && HasWidest(starts, r);
    var m' :| m' in starts && m'.x == m.x && m.width <= m'.width;
    var r' :| r' in starts && r'.x == r.x && r.width <= r'.width;
    assert Inside(m, m');
    assert StartsLate(rs, m, r');
    LateIsMet(rs, starts, NOTHING, m, r');
  }

  lemma SweptAtStart(rs: set<Interval>, starts: seq<Interval>)
    requires IsSweep(rs, starts) && AllNest(rs)
    ensures Swept(rs, starts, NOTHING)
  {
    SweepFollows(rs, starts);
  }

  /** On nested intervals, empty ones included, the pass never counts less than the length of
      their union, and exactly that unless one of them starts strictly inside a maximal one,
      within the fudge of its end. */
  lemma TallyIsUnionLengthUnlessLate(rs: set<Interval>, starts: seq<Interval>)
    requires IsSweep(rs, starts) && AllNest(rs)
    ensures HasLength(UnionOf(rs), Tally(starts, NOTHING)) <==> !SomeStartsLate(rs)
    ensures forall length :: HasLength(UnionOf(rs), length) ==> length <= Tally(starts, NOTHING)
  {
    hide IsSweep, AllNest, HasLength, UnionOf, Tally, Outer, Excess, SomeStartsLate, Follows, Swept;
    SweepFollows(rs, starts);
    SweptAtStart(rs, starts);
    FollowsAscends(starts, NOTHING);
    TallySplits(starts, NOTHING, NOTHING);
    ExcessIsNotNegative(starts, NOTHING);
    OuterIsUnion(rs, starts);
    var length := Length(Outer(starts, NOTHING));
    forall other | HasLength(UnionOf(rs), other) ensures other == length {
      LengthIsUnique(UnionOf(rs), other, length);
    }
    if SomeStartsLate(rs) {
      LateIsCounted(rs, starts);
    } else if Excess(starts, NOTHING) > 0.0 {
      ExcessIsLate(rs, starts, NOTHING);
    }
  }

  // ----- Positions printed with one decimal -----

  predicate IsTenths(v: real) {
    (v * 10.0).Floor as real == v * 10.0
  }

  ghost predicate OnTenths(rs: set<Interval>) {
    forall r :: r in rs ==> IsTenths(r.x) && IsTenths(r.width)
  }

  /** On tenths nothing starts within the fudge of an end without starting there. */
  lemma NothingLateOnTenths(rs: set<Interval>)
    requires OnTenths(rs)
    ensures !SomeStartsLate(rs)
  {
    forall m, r ensures !StartsLate(rs, m, r) {
      if m in rs && r in rs && r.x < m.End() {
        var (a, b, c) := ((m.x * 10.0).Floor, (m.width * 10.0).Floor, (r.x * 10.0).Floor);
        assert (m.End() - r.x) * 10.0 == (a + b - c) as real;
        assert a + b - c >= 1;
      }
    }
  }

  lemma EmptyOrNot(xs: set<real>)
    ensures xs == {} || exists x :: x in xs
  {
    if forall x :: x !in xs {
      assert xs == {};
    }
  }

  lemma SmallestOf(xs: set<real>) returns (x: real)
    requires xs != {}
    ensures x in xs && forall y :: y in xs ==> x <= y
  {
    EmptyOrNot(xs);
    var any :| any in xs;
    x := any;
    if xs - {any} != {} {
      var rest := SmallestOf(xs - {any});
      if rest < x {
        x := rest;
      }
    }
    assert forall y :: y in xs ==> y == any || y in xs - {any};
  }

  // ----- The program -----

  /** The last interval the pass has counted. */
  function LastCounted(starts: seq<Interval>, last: Interval): Interval {
    if starts == [] then last
    else LastCounted(starts[1..], if starts[0].x >= last.End() - FUDGE then starts[0] else last)
  }

  /** One more start at the end of the pass. */
  lemma {:induction false} TallyAppend(starts: seq<Interval>, r: Interval, last: Interval)
    ensures var counts := r.x >= LastCounted(starts, last).End() - FUDGE;
            && Tally(starts + [r], last) == Tally(starts, last) + (if counts then r.width else 0.0)
            && LastCounted(starts + [r], last) == if counts then r else LastCounted(starts, last)
  {
    if starts == [] {
      assert [] + [r] == [r] && [r][1..] == [];
    } else {
      assert (starts + [r])[0] == starts[0] && (starts + [r])[1..] == starts[1..] + [r];
      TallyAppend(starts[1..], r, if starts[0].x >= last.End() - FUDGE then starts[0] else last);
    }
  }

  /** The greatest width, or 0 if none is greater. */
  ghost predicate IsWidest(rects: seq<Rect>, width: real) {
    && width >= 0.0
    && (forall r :: r in rects ==> r.width <= width)
    && (width == 0.0 || exists r :: r in rects && r.width == width)
  }

  /** `matches` holds for every x of a matched rectangle the greatest width there. */
  ghost predicate HoldsWidest(matches: map<real, real>, rs: set<Interval>) {
    && (forall x :: x in matches ==> Interval(x, matches[x]) in rs)
    && (forall r :: r in rs ==> r.x in matches && r.width <= matches[r.x])
  }

  lemma MatchedNext(rects: seq<Rect>, rect: Rect)
    ensures Matched(rects + [rect]) == Matched(rects) + if rect.matched then {rect.Extent()} else {}
  {
    forall r | r in Matched(rects) ensures r in Matched(rects + [rect]) {
      var q :| q in rects && q.matched && q.Extent() == r;
      assert q in rects + [rect];
    }
    assert rect in rects + [rect];
  }

  /** Remembers the matches and the greatest width, over the rectangles in document order. */
  method Remember(rects: seq<Rect>) returns (matches: map<real, real>, maxWidth: real)
    ensures HoldsWidest(matches, Matched(rects))
    ensures IsWidest(rects, maxWidth)
  {
    matches, maxWidth := map[], 0.0;
    for i := 0 to |rects|
      invariant IsWidest(rects[..i], maxWidth)
      invariant HoldsWidest(matches, Matched(rects[..i]))
    {
      var rect := rects[i];
      assert rects[..i + 1] == rects[..i] + [rect];
      MatchedNext(rects[..i], rect);
      if rect.width > maxWidth {
        maxWidth := rect.width;
      }
      if rect.matched {
        if rect.x !in matches {
          matches := matches[rect.x := rect.width];
        } else if rect.width > matches[rect.x] {
          matches := matches[rect.x := rect.width];
        }
      }
    }
    assert rects[..|rects|] == rects;
  }

  /** `starts` are the remembered intervals at the keys already stepped through. */
  ghost predicate SteppedThrough(matches: map<real, real>, keys: set<real>, starts: seq<Interval>) {
    && keys <= matches.Keys && Ascending(starts)
    && (forall x :: x in matches && x !in keys ==> Interval(x, matches[x]) in starts)
    && (forall i :: 0 <= i < |starts| ==>
          starts[i].x in matches && starts[i].x !in keys && starts[i].width == matches[starts[i].x])
    && (forall i, x :: 0 <= i < |starts| && x in keys ==> starts[i].x < x)
  }

  lemma StepThrough(matches: map<real, real>, keys: set<real>, starts: seq<Interval>, x: real)
    requires SteppedThrough(matches, keys, starts)
    requires x in keys && forall y :: y in keys ==> x <= y
    ensures SteppedThrough(matches, keys - {x}, starts + [Interval(x, matches[x])])
  {
    var starts' := starts + [Interval(x, matches[x])];
    assert starts'[|starts|] == Interval(x, matches[x]);
    forall y | y in matches && y !in keys - {x} ensures Interval(y, matches[y]) in starts' {
      assert y != x ==> Interval(y, matches[y]) in starts;
    }
  }

  lemma SteppedThroughAll(matches: map<real, real>, starts: seq<Interval>, rs: set<Interval>)
    requires SteppedThrough(matches, {}, starts) && HoldsWidest(matches, rs)
    ensures IsSweep(rs, starts)
  {
    forall s | s in starts ensures s in rs {
      assert Interval(s.x, matches[s.x]) == s;
    }
    forall r | r in rs ensures HasWidest(starts, r) {
      assert Interval(r.x, matches[r.x]) in starts;
    }
  }

  /** Steps through the keys in ascending order. */
  method CountWidths(matches: map<real, real>, ghost rs: set<Interval>) returns (count: real)
    requires HoldsWidest(matches, rs)
    ensures exists starts :: IsSweep(rs, starts) && count == Tally(starts, NOTHING)
  {
    count := 0.0;
    ghost var starts: seq<Interval> := [];
    var lastx, lastw, keys := -1.0, 0.0, matches.Keys;
    while keys != {}
      invariant SteppedThrough(matches, keys, starts)
      invariant count == Tally(starts, NOTHING)
      invariant LastCounted(starts, NOTHING) == Interval(lastx, lastw)
      decreases keys
    {
      ghost var least := SmallestOf(keys);
      var x :| x in keys && forall y :: y in keys ==> x <= y;
      var w := matches[x];
      TallyAppend(starts, Interval(x, w), NOTHING);
      StepThrough(matches, keys, starts, x);
      starts, keys := starts + [Interval(x, w)], keys - {x};
      if x >= lastx + lastw - FUDGE {
        count := count + w;
        lastx := x;
        lastw := w;
      }
    }
    SteppedThroughAll(matches, starts, rs);
  }

  /** What is shown: nothing yet, `NaN%`, or a percentage (before it is rounded for display). */
  datatype Percent = Hidden | NotANumber | Shown(value: real)

  /** The percentage that `part` is of the greatest width. */
  ghost predicate IsPercentage(value: real, part: real, rects: seq<Rect>) {
    exists widest :: widest > 0.0 && IsWidest(rects, widest) && value == 100.0 * part / widest
  }

  ghost predicate IsTallied(value: real, rects: seq<Rect>) {
    exists starts :: IsSweep(Matched(rects), starts) && IsPercentage(value, Tally(starts, NOTHING), rects)
  }

  predicate MatchedAt(r: Rect, p: real) {
    r.matched && r.x <= p < r.x + r.width
  }

  /** The points under some matching rectangle. */
  ghost function MatchedPoints(rects: seq<Rect>): iset<real> {
    iset p: real | SomeMatchedAt(rects, p)
  }

  ghost predicate SomeMatchedAt(rects: seq<Rect>, p: real) {
    exists r :: r in rects && MatchedAt(r, p)
  }

  lemma MatchedPointsAreUnion(rects: seq<Rect>)
    ensures MatchedPoints(rects) == UnionOf(Matched(rects))
  {
    forall p: real ensures p in MatchedPoints(rects) <==> p in UnionOf(Matched(rects)) {
      if r :| r in rects && MatchedAt(r, p) {
        assert r.Extent() in Matched(rects) && r.Extent().Covers(p);
      }
      if i :| i in Matched(rects) && i.Covers(p) {
        var r :| r in rects && r.matched && r.Extent() == i;
        assert MatchedAt(r, p);
      }
    }
  }

  ghost predicate IsMatchedShare(value: real, rects: seq<Rect>) {
    exists length :: HasLength(MatchedPoints(rects), length) && IsPercentage(value, length, rects)
  }

  /** The search. `searching` says whether an earlier one has matched. What is shown is the share
      of the union of the matches in the greatest width, if matches nest and none starts late. */
  method Search(rects: seq<Rect>, searching: bool) returns (percent: Percent)
    ensures percent.Hidden? <==> !searching && forall r :: r in rects ==> !r.matched
    ensures percent.NotANumber? <==> !percent.Hidden? && forall r :: r in rects ==> r.width <= 0.0
    ensures percent.Shown? ==> IsTallied(percent.value, rects)
    ensures percent.Shown? && AllNest(Matched(rects)) && !SomeStartsLate(Matched(rects)) ==>
              IsMatchedShare(percent.value, rects)
  {
    hide IsSweep, AllNest, SomeStartsLate, HasLength, UnionOf, Tally, IsTallied, IsMatchedShare, HoldsWidest, Matched;
    var matches, maxWidth := Remember(rects);
    MatchesAreMatched(rects, matches);
    NothingMatched(rects);
    if !searching && matches.Keys == {} {
      return Hidden;
    }
    var count := CountWidths(matches, Matched(rects));
    if maxWidth == 0.0 {
      return NotANumber;
    }
    percent := Shown(100.0 * count / maxWidth);
    assert IsPercentage(percent.value, count, rects);
    CountIsShown(rects, count, percent.value);
  }

  lemma CountIsShown(rects: seq<Rect>, count: real, value: real)
    requires exists starts :: IsSweep(Matched(rects), starts) && count == Tally(starts, NOTHING)
    requires IsPercentage(value, count, rects)
    ensures IsTallied(value, rects)
    ensures AllNest(Matched(rects)) && !SomeStartsLate(Matched(rects)) ==> IsMatchedShare(value, rects)
  {
    hide IsSweep, AllNest, SomeStartsLate, HasLength, UnionOf, Tally, IsPercentage, Matched, MatchedPoints;
    var starts :| IsSweep(Matched(rects), starts) && count == Tally(starts, NOTHING);
    if AllNest(Matched(rects)) && !SomeStartsLate(Matched(rects)) {
      TallyIsUnionLengthUnlessLate(Matched(rects), starts);
      MatchedPointsAreUnion(rects);
    }
  }

  lemma NothingMatched(rects: seq<Rect>)
    ensures Matched(rects) == {} <==> forall r :: r in rects ==> !r.matched
  {
    assert forall r :: r in rects && r.matched ==> r.Extent() in Matched(rects);
  }

  lemma MatchesAreMatched(rects: seq<Rect>, matches: map<real, real>)
    requires HoldsWidest(matches, Matched(rects))
    ensures matches.Keys == {} <==> Matched(rects) == {}
  {
    assert forall x :: x in matches.Keys ==> Interval(x, matches[x]) in Matched(rects);
    assert forall r :: r in Matched(rects) ==> r.x in matches.Keys;
    EmptyOrNot(matches.Keys);
  }
}
