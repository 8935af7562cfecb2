/** From a sampled call graph through the collapser to the flame graph: the width a name has at
    a depth is the time the call graph reports for it there, calls included. */
module SampleFlame {
  import opened Options
  import opened SampleStacks
  import FlameMerge
  import FlameLaminar
  import FlameWidths
  import FlameExact

  /** A printed line as the merge reads it. */
  function LineOf(p: Printed): FlameMerge.Line {
    FlameMerge.Line(p.path, if p.time.Some? then p.time.value as real else 0.0, None)
  }

  function LinesOf(printed: seq<Printed>): seq<FlameMerge.Line> {
    seq(|printed|, i requires 0 <= i < |printed| => LineOf(printed[i]))
  }

  /** The reported times of the nodes of that name at that depth; the forest's roots are at
      depth `d`. */
  function ReportedAt(f: Forest, d: nat, func: string, depth: nat): nat {
    match f
    case Empty => 0
    case Tree(name, time, callees, rest) =>
      (if d == depth && name == func then time else 0)
      + ReportedAt(callees, d + 1, func, depth) + ReportedAt(rest, d, func, depth)
  }

  /** Every node has time of its own, or at least no less than its callees. */
  predicate SelfTimesAtLeast(f: Forest, least: int) {
    match f
    case Empty => true
    case Tree(_, _, callees, rest) =>
      SelfTime(f) >= least && SelfTimesAtLeast(callees, least) && SelfTimesAtLeast(rest, least)
  }

  // ----- Sums over lines, in any order -----

  lemma {:induction false} CountedAppends(a: seq<FlameMerge.Line>, b: seq<FlameMerge.Line>, func: string, depth: nat)
    ensures FlameWidths.CountedWidth(a + b, func, depth)
            == FlameWidths.CountedWidth(a, func, depth) + FlameWidths.CountedWidth(b, func, depth)
    decreases |b|
  {
    if b == [] {
      assert a + b == a;
    } else {
      assert (a + b)[..|a + b| - 1] == a + b[..|b| - 1];
      CountedAppends(a, b[..|b| - 1], func, depth);
    }
  }

  lemma SameWithoutOne(a: seq<FlameMerge.Line>, left: seq<FlameMerge.Line>, right: seq<FlameMerge.Line>, x: FlameMerge.Line)
    requires multiset(a + [x]) == multiset(left + ([x] + right))
    ensures multiset(a) == multiset(left + right)
  {
    assert multiset(a + [x]) == multiset(a) + multiset{x};
    assert multiset(left + ([x] + right)) == multiset(left + right) + multiset{x};
    assert multiset(a) == multiset(a) + multiset{x} - multiset{x};
  }

  lemma {:induction false} CountedInAnyOrder(a: seq<FlameMerge.Line>, b: seq<FlameMerge.Line>, func: string, depth: nat)
    requires multiset(a) == multiset(b)
    ensures FlameWidths.CountedWidth(a, func, depth) == FlameWidths.CountedWidth(b, func, depth)
    decreases |a|
  {
    hide FlameWidths.CountedWidth;
    if a == [] {
      assert |multiset(a)| == 0 && |multiset(b)| == |b|;
    } else {
      var init, x := a[..|a| - 1], a[|a| - 1];
      assert a == init + [x];
      assert x in multiset(b);
      var i :| 0 <= i < |b| && b[i] == x;
      var left, right := b[..i], b[i + 1..];
      assert b == left + ([x] + right);
      SameWithoutOne(init, left, right, x);
      CountedInAnyOrder(init, left + right, func, depth);
      CountedAppends(init, [x], func, depth);
      CountedAppends(left, [x] + right, func, depth);
      CountedAppends([x], right, func, depth);
      CountedAppends(left, right, func, depth);
    }
  }

  lemma LinesAppend(a: seq<Printed>, b: seq<Printed>)
    ensures LinesOf(a + b) == LinesOf(a) + LinesOf(b)
  {
  }

  // ----- The lines of a call forest -----

  function Under(path: seq<string>): seq<string> {
    [""] + path
  }

  lemma OneLine(p: Printed, func: string, depth: nat)
    ensures FlameWidths.CountedWidth(LinesOf([p]), func, depth)
            == if FlameWidths.HasAt(Under(p.path), func, depth) then LineOf(p).Width() else 0.0
  {
    assert LinesOf([p]) == [LineOf(p)];
    assert [LineOf(p)][..0] == [];
    assert FlameWidths.CountedWidth([], func, depth) == 0.0;
  }

  /** What the lines of a forest under `path` count for a name at a depth. */
  function Expected(f: Forest, path: seq<string>, func: string, depth: nat): real {
    (if depth > |path| then ReportedAt(f, |path| + 1, func, depth)
     else if Under(path)[depth] == func then RootTimes(f)
     else 0) as real
  }

  lemma ExpectedOfTree(f: Forest, path: seq<string>, func: string, depth: nat)
    requires f.Tree?
    ensures var own := path + [f.name];
            Expected(f, path, func, depth)
            == Expected(f.callees, own, func, depth)
               + (if FlameWidths.HasAt(Under(own), func, depth) then SelfTime(f) as real else 0.0)
               + Expected(f.rest, path, func, depth)
  {
    var own := path + [f.name];
    assert forall i :: 0 <= i <= |path| ==> Under(own)[i] == Under(path)[i];
    assert Under(own)[|path| + 1] == f.name;
    if depth == |path| + 1 {
      NothingAbove(f.callees, depth + 1, func, depth);
    }
  }

  lemma {:induction false} NothingAbove(f: Forest, d: nat, func: string, depth: nat)
    requires d > depth
    ensures ReportedAt(f, d, func, depth) == 0
    decreases f
  {
    if f.Tree? {
      NothingAbove(f.callees, d + 1, func, depth);
      NothingAbove(f.rest, d, func, depth);
    }
  }

  lemma {:induction false} PostOrderCounts(ignore: set<string>, f: Forest, path: seq<string>, func: string, depth: nat)
    requires !Waits(ignore, f)
    ensures FlameWidths.CountedWidth(LinesOf(PostOrder(ignore, f, path)), func, depth) == Expected(f, path, func, depth)
    decreases f
  {
    hide FlameWidths.CountedWidth, Expected, FlameWidths.HasAt;
    if f == Empty {
      NothingCounted(path, func, depth);
    } else {
      var own := path + [f.name];
      var line := Printed(own, Some(SelfTime(f)));
      LastLeafIsNamed(ignore, f);
      var inner, outer := PostOrder(ignore, f.callees, own), PostOrder(ignore, f.rest, path);
      PostOrderCounts(ignore, f.callees, own, func, depth);
      PostOrderCounts(ignore, f.rest, path, func, depth);
      LinesAppend(inner, [line]);
      LinesAppend(inner + [line], outer);
      CountedAppends(LinesOf(inner), LinesOf([line]), func, depth);
      CountedAppends(LinesOf(inner + [line]), LinesOf(outer), func, depth);
      OneLine(line, func, depth);
      ExpectedOfTree(f, path, func, depth);
    }
  }

  lemma NothingCounted(path: seq<string>, func: string, depth: nat)
    ensures FlameWidths.CountedWidth(LinesOf([]), func, depth) == 0.0 == Expected(Empty, path, func, depth)
  {
  }

  lemma {:induction false} PrintedAtLeast(ignore: set<string>, f: Forest, path: seq<string>, least: int)
    requires SelfTimesAtLeast(f, least)
    ensures forall p :: p in PostOrder(ignore, f, path) ==> p.time.Some? && p.time.value >= least
    decreases f
  {
    if f.Tree? {
      PrintedAtLeast(ignore, f.callees, path + [f.name], least);
      PrintedAtLeast(ignore, f.rest, path, least);
    }
  }

  lemma WidthsAtLeast(printed: seq<Printed>, lines: seq<FlameMerge.Line>, least: int)
    requires multiset(lines) == multiset(LinesOf(printed))
    requires forall p :: p in printed ==> p.time.Some? && p.time.value >= least
    ensures forall i :: 0 <= i < |lines| ==> lines[i].Width() >= least as real
  {
    forall i | 0 <= i < |lines| ensures lines[i].Width() >= least as real {
      assert lines[i] in multiset(lines);
      assert lines[i] in multiset(LinesOf(printed));
      var j :| 0 <= j < |printed| && LinesOf(printed)[j] == lines[i];
      assert printed[j] in printed;
    }
  }

  /** Handed to the merge in any order, what the collapser prints of a call forest without
      ignored leaves and without negative self times gives every name at every depth at most the
      time the forest reports for it there, and exactly that time unless a node is overwritten. */
  lemma FlameGraphShowsReportedTimes(ignore: set<string>, f: Forest, lines: seq<FlameMerge.Line>, func: string, depth: nat)
    requires f.Tree? && !Waits(ignore, f) && SelfTimesAtLeast(f, 0) && depth > 0
    requires multiset(lines) == multiset(LinesOf(AfterAll(ignore, INITIAL, Report(f)).out))
    ensures var width := FlameWidths.MergedWidth(FlameMerge.Merged(lines).node, func, depth);
            && width <= ReportedAt(f, 1, func, depth) as real
            && (width == ReportedAt(f, 1, func, depth) as real <==> !FlameExact.SomeOverwrite(lines, func, depth))
  {
    hide FlameWidths.MergedWidth, FlameMerge.Merged, FlameExact.SomeOverwrite, AfterAll, PostOrder, LinesOf,
      FlameWidths.CountedWidth;
    var printed := PostOrder(ignore, f, []);
    PrintsPostOrder(ignore, f);
    PrintedAtLeast(ignore, f, [], 0);
    WidthsAtLeast(printed, lines, 0);
    PostOrderCounts(ignore, f, [], func, depth);
    CountedInAnyOrder(lines, LinesOf(printed), func, depth);
    FlameExact.MergeConservesUnlessOverwritten(lines, func, depth);
  }

  /** With self times that are all positive, exactly that time. */
  lemma FlameGraphShowsTimesOfBusyCalls(ignore: set<string>, f: Forest, lines: seq<FlameMerge.Line>, func: string, depth: nat)
    requires f.Tree? && !Waits(ignore, f) && SelfTimesAtLeast(f, 1) && depth > 0
    requires multiset(lines) == multiset(LinesOf(AfterAll(ignore, INITIAL, Report(f)).out))
    ensures FlameWidths.MergedWidth(FlameMerge.Merged(lines).node, func, depth) == ReportedAt(f, 1, func, depth) as real
    ensures FlameLaminar.Laminar(FlameMerge.Merged(lines).node, FlameMerge.TotalWidth(lines))
  {
    hide FlameWidths.MergedWidth, FlameMerge.Merged, AfterAll, PostOrder, LinesOf, FlameWidths.CountedWidth,
      FlameLaminar.Laminar;
    var printed := PostOrder(ignore, f, []);
    PrintsPostOrder(ignore, f);
    PrintedAtLeast(ignore, f, [], 1);
    WidthsAtLeast(printed, lines, 1);
    PostOrderCounts(ignore, f, [], func, depth);
    CountedInAnyOrder(lines, LinesOf(printed), func, depth);
    FlameExact.MergeConservesCounts(lines, func, depth);
    FlameLaminar.MergeIsLaminar(lines);
  }
}
