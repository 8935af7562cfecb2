/** From merged nodes to drawn rectangles to the search: the nesting that the search relies on is
    established by the merge, and pruning, drawing and printing keep it. */
module FlameDraw {
  import opened FlameMerge
  import opened FlameNesting
  import opened Intervals
  import FlameExact
  import FlameSearch

  const XPAD: real := 10.0

  /** Printing with one decimal, as a number of tenths: to the nearest, ties either way. */
  ghost predicate RoundsToNearest(tenths: real -> int) {
    forall v: real :: -0.5 <= v * 10.0 - tenths(v) as real <= 0.5
  }

  function Printed(v: real, tenths: real -> int): real {
    tenths(v) as real / 10.0
  }

  /** Where a node is drawn: the root frame reaches to `timeMax`. */
  function EndDrawn(k: NodeKey, timeMax: real): real {
    if k.func == "" && k.depth == 0 then timeMax else k.etime
  }

  /** The rectangle of a span of time: both ends are rounded, and then their distance. */
  function Box(start: real, end: real, scale: real, tenths: real -> int, matched: bool): FlameSearch.Rect {
    var x1, x2 := Printed(XPAD + start * scale, tenths), Printed(XPAD + end * scale, tenths);
    FlameSearch.Rect(x1, Printed(x2 - x1, tenths), matched)
  }

  function BoxOf(node: map<NodeKey, Frame>, k: NodeKey, timeMax: real, widthPerTime: real,
                 tenths: real -> int, hit: string -> bool): FlameSearch.Rect
    requires k in node && node[k].stime.Some?
  {
    Box(node[k].stime.value, EndDrawn(k, timeMax), widthPerTime, tenths, hit(k.func))
  }

  function Drawn(node: map<NodeKey, Frame>, timeMax: real, widthPerTime: real,
                 tenths: real -> int, hit: string -> bool): set<FlameSearch.Rect>
  {
    set k | k in node && node[k].stime.Some? :: BoxOf(node, k, timeMax, widthPerTime, tenths, hit)
  }

  // ----- Scaling and rounding keep order -----

  lemma ScaleKeepsOrder(a: real, b: real, scale: real)
    requires scale >= 0.0 && a <= b
    ensures a * scale <= b * scale
  {
  }

  lemma PrintedKeepsOrder(a: real, b: real, tenths: real -> int)
    requires RoundsToNearest(tenths) && a <= b
    ensures Printed(a, tenths) <= Printed(b, tenths)
  {
    assert -0.5 <= a * 10.0 - tenths(a) as real && b * 10.0 - tenths(b) as real <= 0.5;
    if tenths(a) > tenths(b) {
      assert tenths(a) >= tenths(b) + 1;
      assert a == b;
    }
  }

  lemma PrintedIsTenths(v: real, tenths: real -> int)
    ensures FlameSearch.IsTenths(Printed(v, tenths))
  {
    assert Printed(v, tenths) * 10.0 == tenths(v) as real;
  }

  /** Printing what was printed changes nothing. */
  lemma PrintedAgain(v: real, n: int, tenths: real -> int)
    requires RoundsToNearest(tenths) && v == n as real / 10.0
    ensures Printed(v, tenths) == v
  {
    var x, m := v * 10.0, tenths(v);
    assert x == n as real;
    assert -0.5 <= x - m as real <= 0.5;
    NearestOfWhole(n, m);
  }

  lemma NearestOfWhole(n: int, m: int)
    requires -0.5 <= n as real - m as real <= 0.5
    ensures n == m
  {
    assert (n - m) as real == n as real - m as real;
  }

  lemma EndOfBox(start: real, end: real, scale: real, tenths: real -> int, matched: bool)
    requires RoundsToNearest(tenths)
    ensures Box(start, end, scale, tenths, matched).Extent().End() == Printed(XPAD + end * scale, tenths)
  {
    var a, b := XPAD + start * scale, XPAD + end * scale;
    assert Printed(b, tenths) - Printed(a, tenths) == (tenths(b) - tenths(a)) as real / 10.0;
    PrintedAgain(Printed(b, tenths) - Printed(a, tenths), tenths(b) - tenths(a), tenths);
  }

  lemma PlaceKeepsOrder(a: real, b: real, scale: real, tenths: real -> int)
    requires scale >= 0.0 && RoundsToNearest(tenths) && a <= b
    ensures Printed(XPAD + a * scale, tenths) <= Printed(XPAD + b * scale, tenths)
  {
    ScaleKeepsOrder(a, b, scale);
    PrintedKeepsOrder(XPAD + a * scale, XPAD + b * scale, tenths);
  }

  lemma BoxesNest(start: real, end: real, start': real, end': real, scale: real, tenths: real -> int, m: bool, m': bool)
    requires scale >= 0.0 && RoundsToNearest(tenths) && SpansNest(start, end, start', end')
    ensures FlameSearch.Nest(Box(start, end, scale, tenths, m).Extent(), Box(start', end', scale, tenths, m').Extent())
  {
    hide RoundsToNearest, Printed;
    EndOfBox(start, end, scale, tenths, m);
    EndOfBox(start', end', scale, tenths, m');
    if end <= start' {
      PlaceKeepsOrder(end, start', scale, tenths);
    } else if end' <= start {
      PlaceKeepsOrder(end', start, scale, tenths);
    } else if start' <= start && end <= end' {
      PlaceKeepsOrder(start', start, scale, tenths);
      PlaceKeepsOrder(end, end', scale, tenths);
    } else {
      PlaceKeepsOrder(start, start', scale, tenths);
      PlaceKeepsOrder(end', end, scale, tenths);
    }
  }

  lemma BoxOnCanvas(start: real, end: real, scale: real, tenths: real -> int, matched: bool)
    requires scale >= 0.0 && RoundsToNearest(tenths) && 0.0 <= start <= end
    ensures var r := Box(start, end, scale, tenths, matched);
            r.x >= 0.0 && r.width >= 0.0 && FlameSearch.IsTenths(r.x) && FlameSearch.IsTenths(r.width)
  {
    EndOfBox(start, end, scale, tenths, matched);
    PlaceKeepsOrder(start, end, scale, tenths);
    ScaleKeepsOrder(0.0, start, scale);
    PrintedIsTenths(XPAD + start * scale, tenths);
    PrintedIsTenths(Printed(XPAD + end * scale, tenths) - Printed(XPAD + start * scale, tenths), tenths);
    var a := XPAD + start * scale;
    assert -0.5 <= a * 10.0 - tenths(a) as real <= 0.5;
  }

  // ----- Whole profiles -----

  lemma DrawnSpansNest(node: map<NodeKey, Frame>, total: real, k: NodeKey, l: NodeKey, timeMax: real)
    requires Tree(node, total) && k in node && l in node && timeMax >= total
    ensures SpansNest(node[k].stime.value, EndDrawn(k, timeMax), node[l].stime.value, EndDrawn(l, timeMax))
    ensures 0.0 <= node[k].stime.value <= EndDrawn(k, timeMax)
  {
    assert NodesNest(node, k, l);
  }

  /** The rectangles drawn for the nodes that are left of any profile are nested, on the canvas,
      and at tenths. */
  lemma DrawnIsNested(node: map<NodeKey, Frame>, total: real, timeMax: real, widthPerTime: real,
                      tenths: real -> int, hit: string -> bool, rs: set<Interval>)
    requires Tree(node, total) && timeMax >= total && widthPerTime >= 0.0 && RoundsToNearest(tenths)
    requires forall r :: r in rs ==> exists q :: q in Drawn(node, timeMax, widthPerTime, tenths, hit) && q.Extent() == r
    ensures FlameSearch.AllNest(rs) && FlameSearch.OnTenths(rs)
  {
    hide Tree, FlameSearch.Nest, Box, EndDrawn, RoundsToNearest;
    TreeHasStarts(node, total);
    forall r | r in rs
      ensures r.x >= 0.0 && r.width >= 0.0 && FlameSearch.IsTenths(r.x) && FlameSearch.IsTenths(r.width)
    {
      var k := NodeBehind(node, timeMax, widthPerTime, tenths, hit, rs, r);
      DrawnSpansNest(node, total, k, k, timeMax);
      BoxOnCanvas(node[k].stime.value, EndDrawn(k, timeMax), widthPerTime, tenths, hit(k.func));
    }
    forall r, s | r in rs && s in rs ensures FlameSearch.Nest(r, s) {
      var k := NodeBehind(node, timeMax, widthPerTime, tenths, hit, rs, r);
      var l := NodeBehind(node, timeMax, widthPerTime, tenths, hit, rs, s);
      DrawnSpansNest(node, total, k, l, timeMax);
      BoxesNest(node[k].stime.value, EndDrawn(k, timeMax), node[l].stime.value, EndDrawn(l, timeMax),
                widthPerTime, tenths, hit(k.func), hit(l.func));
    }
  }

  lemma TreeHasStarts(node: map<NodeKey, Frame>, total: real)
    requires Tree(node, total)
    ensures HasStarts(node)
  {
  }

  lemma NodeBehind(node: map<NodeKey, Frame>, timeMax: real, widthPerTime: real, tenths: real -> int,
                   hit: string -> bool, rs: set<Interval>, r: Interval) returns (k: NodeKey)
    requires HasStarts(node) && r in rs
    requires forall r :: r in rs ==> exists q :: q in Drawn(node, timeMax, widthPerTime, tenths, hit) && q.Extent() == r
    ensures k in node && BoxOf(node, k, timeMax, widthPerTime, tenths, hit).Extent() == r
  {
    hide Box;
    var q :| q in Drawn(node, timeMax, widthPerTime, tenths, hit) && q.Extent() == r;
    k :| k in node && BoxOf(node, k, timeMax, widthPerTime, tenths, hit) == q;
  }

  /** From 10 plus the scaled start to 10 plus the scaled end, both printed. */
  predicate SpanShows(start: real, end: real, scale: real, tenths: real -> int, p: real) {
    tenths(10.0 + start * scale) as real / 10.0 <= p < tenths(10.0 + end * scale) as real / 10.0
  }

  /** A node wide enough to be left is hit and drawn over the point p; the root ends at `timeMax`. */
  ghost predicate ShowsAt(node: map<NodeKey, Frame>, k: NodeKey, minWidth: real, timeMax: real, widthPerTime: real,
                          tenths: real -> int, hit: string -> bool, p: real)
  {
    && k in node && node[k].stime.Some? && k.etime - node[k].stime.value >= minWidth && hit(k.func)
    && SpanShows(node[k].stime.value, if k.func == "" && k.depth == 0 then timeMax else k.etime, widthPerTime, tenths, p)
  }

  ghost function ShownPoints(node: map<NodeKey, Frame>, minWidth: real, timeMax: real, widthPerTime: real,
                             tenths: real -> int, hit: string -> bool): iset<real>
  {
    iset p: real | SomeShowsAt(node, minWidth, timeMax, widthPerTime, tenths, hit, p)
  }

  ghost predicate SomeShowsAt(node: map<NodeKey, Frame>, minWidth: real, timeMax: real, widthPerTime: real,
                              tenths: real -> int, hit: string -> bool, p: real)
  {
    exists k :: ShowsAt(node, k, minWidth, timeMax, widthPerTime, tenths, hit, p)
  }

  lemma BoxShows(start: real, end: real, scale: real, tenths: real -> int, matched: bool, p: real)
    requires RoundsToNearest(tenths)
    ensures FlameSearch.MatchedAt(Box(start, end, scale, tenths, matched), p) <==>
            matched && SpanShows(start, end, scale, tenths, p)
  {
    EndOfBox(start, end, scale, tenths, matched);
  }

  lemma ShowsIffBoxed(node: map<NodeKey, Frame>, k: NodeKey, minWidth: real, timeMax: real, widthPerTime: real,
                      tenths: real -> int, hit: string -> bool, p: real)
    requires RoundsToNearest(tenths) && k in node && node[k].stime.Some? && k.etime - node[k].stime.value >= minWidth
    ensures ShowsAt(node, k, minWidth, timeMax, widthPerTime, tenths, hit, p) <==>
            FlameSearch.MatchedAt(BoxOf(node, k, timeMax, widthPerTime, tenths, hit), p)
  {
    hide RoundsToNearest, SpanShows, Box, FlameSearch.MatchedAt;
    BoxShows(node[k].stime.value, EndDrawn(k, timeMax), widthPerTime, tenths, hit(k.func), p);
  }

  /** What the search finds is what those nodes show. */
  lemma ShownIsMatched(node: map<NodeKey, Frame>, minWidth: real, timeMax: real, widthPerTime: real,
                       tenths: real -> int, hit: string -> bool, rects: seq<FlameSearch.Rect>)
    requires RoundsToNearest(tenths)
    requires forall r :: r in rects <==> r in Drawn(Kept(node, minWidth), timeMax, widthPerTime, tenths, hit)
    ensures ShownPoints(node, minWidth, timeMax, widthPerTime, tenths, hit) == FlameSearch.MatchedPoints(rects)
  {
    hide RoundsToNearest, ShowsAt, FlameSearch.MatchedAt, Box, EndDrawn;
    var kept := Kept(node, minWidth);
    forall p: real
      ensures p in ShownPoints(node, minWidth, timeMax, widthPerTime, tenths, hit) <==>
              p in FlameSearch.MatchedPoints(rects)
    {
      if k :| ShowsAt(node, k, minWidth, timeMax, widthPerTime, tenths, hit, p) {
        ShowsIsKept(node, k, minWidth, timeMax, widthPerTime, tenths, hit, p);
        ShowsIffBoxed(node, k, minWidth, timeMax, widthPerTime, tenths, hit, p);
        assert BoxOf(kept, k, timeMax, widthPerTime, tenths, hit) in rects;
      }
      if r :| r in rects && FlameSearch.MatchedAt(r, p) {
        var k :| k in kept && kept[k].stime.Some? && BoxOf(kept, k, timeMax, widthPerTime, tenths, hit) == r;
        ShowsIffBoxed(node, k, minWidth, timeMax, widthPerTime, tenths, hit, p);
      }
    }
  }

  lemma ShowsIsKept(node: map<NodeKey, Frame>, k: NodeKey, minWidth: real, timeMax: real, widthPerTime: real,
                    tenths: real -> int, hit: string -> bool, p: real)
    requires ShowsAt(node, k, minWidth, timeMax, widthPerTime, tenths, hit, p)
    ensures k in Kept(node, minWidth)
  {
  }

  /** For every profile whose counts are not negative, in any order, every minimum width, every
      time scale and every search: on the rectangles as they are printed, the search counts
      exactly the length of what the nodes that are hit, and wide enough, show together. */
  lemma SearchOfDrawnProfile(lines: seq<Line>, minWidth: real, timeMax: real, widthPerTime: real,
                             tenths: real -> int, hit: string -> bool,
                             rects: seq<FlameSearch.Rect>, starts: seq<Interval>)
    requires FlameExact.NonNegative(lines) && timeMax >= TotalWidth(lines) && widthPerTime >= 0.0
    requires RoundsToNearest(tenths)
    requires forall r :: r in rects <==>
               r in Drawn(Kept(Merged(lines).node, minWidth), timeMax, widthPerTime, tenths, hit)
    requires FlameSearch.IsSweep(FlameSearch.Matched(rects), starts)
    ensures HasLength(ShownPoints(Merged(lines).node, minWidth, timeMax, widthPerTime, tenths, hit),
                      FlameSearch.Tally(starts, FlameSearch.NOTHING))
  {
    hide Tree, Merged, Kept, FlameSearch.IsSweep, FlameSearch.AllNest, FlameSearch.OnTenths, RoundsToNearest, Drawn,
      HasLength, UnionOf, ShownPoints, FlameSearch.MatchedPoints;
    var total, node, rs := TotalWidth(lines), Kept(Merged(lines).node, minWidth), FlameSearch.Matched(rects);
    MergeNests(lines);
    PruningKeepsTree(Merged(lines).node, total, minWidth);
    DrawnIsNested(node, total, timeMax, widthPerTime, tenths, hit, rs);
    FlameSearch.NothingLateOnTenths(rs);
    FlameSearch.TallyIsUnionLengthUnlessLate(rs, starts);
    ShownIsMatched(Merged(lines).node, minWidth, timeMax, widthPerTime, tenths, hit, rects);
    FlameSearch.MatchedPointsAreUnion(rects);
  }
}
