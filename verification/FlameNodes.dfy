/** The merged nodes, described without the merge: a node for every frame of the input, unless a
    later frame of the same name and depth ends at the same time. And what follows for parents when
    counts may be zero. */
module FlameNodes {
  import opened Options
  import opened FlameMerge
  import opened FlameShapes
  import opened FlameWidths
  import opened FlameExact
  import opened FlameFrames

  /** The time at which stack c begins. */
  function Time(lines: seq<Line>, c: nat): real
    requires c <= |lines|
  {
    TotalWidth(lines[..c])
  }

  lemma {:induction false} TimeGoesOn(lines: seq<Line>, a: nat, b: nat)
    requires NonNegative(lines) && a <= b <= |lines|
    ensures Time(lines, a) <= Time(lines, b)
    decreases b
  {
    if a < b {
      TimeGoesOn(lines, a, b - 1);
      assert lines[..b][..b - 1] == lines[..b - 1];
    }
  }

  // ----- One name, depth and end time in the hashes -----

  /** The start of the open frame, and of the node that ends at that time. */
  datatype View = View(open: Option<real>, node: Option<real>) {
    /** The frame may close at time `now`, and may be opened then. */
    function Step(closes: bool, opens: bool, now: real, end: real): View {
      var v := if closes then View(None, if now == end then open else node) else this;
      if opens then v.(open := Some(now)) else v
    }
  }

  ghost function ViewOf(s: Merge, path: seq<string>, func: string, depth: nat, end: real): View {
    var f, k := FrameKey(func, depth), NodeKey(func, depth, end);
    View(if HasAt(path, func, depth) && f in s.tmp then s.tmp[f].stime else None,
         if k in s.node then s.node[k].stime else None)
  }

  lemma CloseView(s: Merge, path: seq<string>, name: string, t: real, func: string, depth: nat, end: real)
    requires Loose(s, path + [name], t)
    ensures var v, s' := ViewOf(s, path + [name], func, depth, end), CloseFrame(s, name, |path|, t);
            ViewOf(s', path, func, depth, end) == v.Step(|path| == depth && name == func, false, t, end)
  {
    hide Loose;
    LooseHoldsPath(s, path + [name], t);
    var k := FrameKey(name, |path|);
    assert k in s.tmp by { assert (path + [name])[k.depth] == k.func; }
  }

  lemma OpenView(s: Merge, path: seq<string>, name: string, t: real, d: Option<real>, innermost: bool,
                 func: string, depth: nat, end: real)
    requires Loose(s, path, t)
    ensures var v, s' := ViewOf(s, path, func, depth, end), OpenFrame(s, name, |path|, t, d, innermost);
            ViewOf(s', path + [name], func, depth, end) == v.Step(false, |path| == depth && name == func, t, end)
  {
    hide Loose;
    LooseHoldsPath(s, path, t);
  }

  lemma {:induction false} CloseDownToView(s: Merge, path: seq<string>, hi: nat, lo: nat, t: real,
                                           func: string, depth: nat, end: real)
    requires lo <= hi <= |path| && Loose(s, path[..hi], t)
    ensures var v, s' := ViewOf(s, path[..hi], func, depth, end), CloseDownTo(s, path, hi, lo, t);
            ViewOf(s', path[..lo], func, depth, end) == v.Step(lo <= depth < hi && path[depth] == func, false, t, end)
    decreases hi
  {
    hide Loose, CloseFrame, ViewOf;
    if hi > lo {
      var path' := path[..hi - 1];
      assert path[..hi] == path' + [path[hi - 1]];
      CloseView(s, path', path[hi - 1], t, func, depth, end);
      CloseLoose(s, path', path[hi - 1], t);
      CloseDownToView(CloseFrame(s, path[hi - 1], hi - 1, t), path, hi - 1, lo, t, func, depth, end);
    }
  }

  lemma {:induction false} OpenUpFromView(s: Merge, next: seq<string>, i: nat, t: real, d: Option<real>,
                                          func: string, depth: nat, end: real)
    requires i <= |next| && Loose(s, next[..i], t)
    ensures var v, s' := ViewOf(s, next[..i], func, depth, end), OpenUpFrom(s, next, i, t, d);
            ViewOf(s', next, func, depth, end) == v.Step(false, i <= depth < |next| && next[depth] == func, t, end)
    decreases |next| - i
  {
    hide Loose, OpenFrame, ViewOf;
    if i == |next| {
      assert next[..i] == next;
    } else {
      var innermost := i == |next| - 1;
      assert next[..i + 1] == next[..i] + [next[i]];
      OpenView(s, next[..i], next[i], t, d, innermost, func, depth, end);
      OpenLoose(s, next[..i], next[i], t, d, innermost);
      OpenUpFromView(OpenFrame(s, next[i], i, t, d, innermost), next, i + 1, t, d, func, depth, end);
    }
  }

  lemma FlowStepView(s: Merge, last: seq<string>, next: seq<string>, t: real, d: Option<real>, w: real,
                     func: string, depth: nat, end: real)
    requires Loose(s, last, t) && w >= 0.0
    ensures var s' := FlowStep(s, last, next, t, d);
            var breaks := Shared(last, next) <= depth;
            && Loose(s', next, t + w)
            && ViewOf(s', next, func, depth, end) ==
               ViewOf(s, last, func, depth, end).Step(HasAt(last, func, depth) && breaks, HasAt(next, func, depth) && breaks, t, end)
  {
    hide Loose, Shared, CloseDownTo, OpenUpFrom, ViewOf;
    var same := Shared(last, next);
    var s1 := CloseDownTo(s, last, |last|, same, t);
    assert last[..|last|] == last && last[..same] == next[..same];
    CloseDownToView(s, last, |last|, same, t, func, depth, end);
    CloseDownToAt(s, last, |last|, same, t, func, depth);
    ClosedIsLoose(s, s1, last, |last|, same, t, func, depth);
    OpenUpFromView(s1, next, same, t, d, func, depth, end);
    FlowStepAt(s, last, next, t, d, func, depth);
    LaterIsLoose(FlowStep(s, last, next, t, d), next, t, w);
  }

  // ----- The same, read off the input -----

  /** A frame of that name and depth closes after stack c, at that time. */
  predicate EndsAfter(lines: seq<Line>, c: nat, func: string, depth: nat, end: real)
    requires c < |lines|
  {
    ClosesAt(lines, c, depth) && HasAt(lines[c].Frames(), func, depth) && Time(lines, c + 1) == end
  }

  /** The start of the last frame so far that ended at that time. */
  function LastStart(lines: seq<Line>, c: nat, func: string, depth: nat, end: real): Option<real>
    requires c <= |lines|
  {
    if c == 0 then None
    else if EndsAfter(lines, c - 1, func, depth, end) then Some(Time(lines, Opener(lines[..c], depth)))
    else LastStart(lines, c - 1, func, depth, end)
  }

  function OpenStart(lines: seq<Line>, n: nat, func: string, depth: nat): Option<real>
    requires n <= |lines|
  {
    if n > 0 && HasAt(lines[n - 1].Frames(), func, depth) then Some(Time(lines, Opener(lines[..n], depth))) else None
  }

  function Expected(lines: seq<Line>, n: nat, func: string, depth: nat, end: real): View
    requires n <= |lines|
  {
    View(OpenStart(lines, n, func, depth), LastStart(lines, if n == 0 then 0 else n - 1, func, depth, end))
  }

  lemma ExpectedNext(lines: seq<Line>, n: nat, func: string, depth: nat, end: real)
    requires n < |lines|
    ensures var last, next := LastFrames(lines[..n]), lines[n].Frames();
            var breaks := Shared(last, next) <= depth;
            Expected(lines, n + 1, func, depth, end) ==
            Expected(lines, n, func, depth, end).Step(
              HasAt(last, func, depth) && breaks, HasAt(next, func, depth) && breaks, Time(lines, n), end)
  {
    hide Shared, Time;
    var next := lines[n].Frames();
    assert lines[..n + 1][..n] == lines[..n];
    if n == 0 {
      NothingShared(next);
    } else {
      assert LastFrames(lines[..n]) == lines[n - 1].Frames();
      assert BreaksAt(lines[..n + 1], n - 1, depth) == BreaksAt(lines, n - 1, depth);
      if depth < Shared(lines[n - 1].Frames(), next) {
        SharedName(lines[n - 1].Frames(), next, func, depth);
      }
    }
  }

  lemma {:induction false} FlowedView(lines: seq<Line>, n: nat, func: string, depth: nat, end: real)
    requires NonNegative(lines) && n <= |lines|
    ensures Loose(Flowed(lines[..n]), LastFrames(lines[..n]), Time(lines, n))
    ensures ViewOf(Flowed(lines[..n]), LastFrames(lines[..n]), func, depth, end) == Expected(lines, n, func, depth, end)
    decreases n
  {
    hide Loose, FlowStep, ViewOf, Expected, Shared, Flowed, Time, LastFrames;
    if n == 0 {
      NothingSeen(lines, func, depth, end);
    } else {
      FlowedView(lines, n - 1, func, depth, end);
      ExpectedNext(lines, n - 1, func, depth, end);
      FlowedNext(lines, n);
      var before, line := lines[..n - 1], lines[n - 1];
      FlowStepView(Flowed(before), LastFrames(before), line.Frames(), Time(lines, n - 1), line.Delta(), line.Width(),
                   func, depth, end);
    }
  }

  lemma FlowedNext(lines: seq<Line>, n: nat)
    requires 0 < n <= |lines|
    ensures var before, line := lines[..n - 1], lines[n - 1];
            && Flowed(lines[..n]) ==
               FlowStep(Flowed(before), LastFrames(before), line.Frames(), Time(lines, n - 1), line.Delta())
            && LastFrames(lines[..n]) == line.Frames()
            && Time(lines, n) == Time(lines, n - 1) + line.Width()
  {
    hide FlowStep;
    assert lines[..n][..n - 1] == lines[..n - 1];
  }

  lemma NothingSeen(lines: seq<Line>, func: string, depth: nat, end: real)
    ensures Loose(Flowed(lines[..0]), LastFrames(lines[..0]), Time(lines, 0))
    ensures ViewOf(Flowed(lines[..0]), LastFrames(lines[..0]), func, depth, end) == Expected(lines, 0, func, depth, end)
  {
  }

  lemma MergedView(lines: seq<Line>, func: string, depth: nat, end: real)
    requires NonNegative(lines)
    ensures HasStarts(Merged(lines).node)
    ensures ViewOf(Merged(lines), [], func, depth, end).node == LastStart(lines, |lines|, func, depth, end)
  {
    hide Loose, Opener, ViewOf, CloseDownTo, Flowed;
    var n, s, last, t := |lines|, Flowed(lines), LastFrames(lines), TotalWidth(lines);
    assert lines[..n] == lines;
    FlowedView(lines, n, func, depth, end);
    assert last[..|last|] == last && last[..0] == [];
    CloseDownToView(s, last, |last|, 0, t, func, depth, end);
    CloseDownToAt(s, last, |last|, 0, t, func, depth);
    ClosedIsLoose(s, Merged(lines), last, |last|, 0, t, func, depth);
    LooseHoldsPath(Merged(lines), [], t);
  }

  // ----- The same in terms of positions -----

  /** The last frame among the first c closings that ends at that time. */
  ghost predicate IsLatest(lines: seq<Line>, c: nat, func: string, depth: nat, end: real, i: nat, m: nat) {
    && m < c <= |lines| && IsFrame(lines, func, depth, i, m) && Time(lines, m + 1) == end
    && (forall j: nat, e: nat :: IsFrame(lines, func, depth, j, e) && m < j && e < c ==> Time(lines, e + 1) != end)
  }

  ghost predicate SomeLatest(lines: seq<Line>, c: nat, func: string, depth: nat, end: real) {
    exists i: nat, m: nat :: IsLatest(lines, c, func, depth, end, i, m)
  }

  lemma FrameEnds(lines: seq<Line>, c: nat, func: string, depth: nat, end: real, i: nat)
    requires c < |lines| && IsFrame(lines, func, depth, i, c) && Time(lines, c + 1) == end
    ensures EndsAfter(lines, c, func, depth, end)
  {
    hide BreaksAt, HasAt, Time;
    NameStays(lines, i, c, func, depth);
  }

  lemma LatestEnds(lines: seq<Line>, n: nat, func: string, depth: nat, end: real)
    requires 0 < n <= |lines| && EndsAfter(lines, n - 1, func, depth, end)
    ensures IsLatest(lines, n, func, depth, end, Opener(lines[..n], depth), n - 1)
    ensures forall i: nat, m: nat :: IsLatest(lines, n, func, depth, end, i, m) ==> i == Opener(lines[..n], depth)
  {
    hide IsFrame, Opener, Time, HasAt, BreaksAt;
    var o := Opener(lines[..n], depth);
    OpenedFrame(lines, n, func, depth, o);
    LaterFramesEndLater(lines, n, func, depth);
    forall i: nat, m: nat | IsLatest(lines, n, func, depth, end, i, m) ensures i == o {
      FramesApart(lines, func, depth, i, m, o, n - 1);
      OpenedFrame(lines, n, func, depth, i);
    }
  }

  lemma LatestStays(lines: seq<Line>, c: nat, func: string, depth: nat, end: real, i: nat, m: nat)
    requires c < |lines| && !EndsAfter(lines, c, func, depth, end)
    ensures IsLatest(lines, c + 1, func, depth, end, i, m) <==> IsLatest(lines, c, func, depth, end, i, m)
  {
    hide IsFrame, EndsAfter, Time;
    forall j: nat, e: nat | IsFrame(lines, func, depth, j, e) && e == c ensures Time(lines, e + 1) != end {
      if Time(lines, e + 1) == end {
        FrameEnds(lines, c, func, depth, end, j);
      }
    }
  }

  lemma {:induction false} LastStartMeans(lines: seq<Line>, c: nat, func: string, depth: nat, end: real)
    requires c <= |lines|
    ensures LastStart(lines, c, func, depth, end).Some? <==> SomeLatest(lines, c, func, depth, end)
    ensures forall i: nat, m: nat :: IsLatest(lines, c, func, depth, end, i, m) ==>
              i < |lines| && LastStart(lines, c, func, depth, end) == Some(Time(lines, i))
    decreases c
  {
    hide IsLatest, EndsAfter, Time, Opener;
    if c == 0 {
      NoneLatest(lines, func, depth, end);
    } else {
      var b: nat := c - 1;
      if EndsAfter(lines, b, func, depth, end) {
        LatestEnds(lines, c, func, depth, end);
        assert IsLatest(lines, c, func, depth, end, Opener(lines[..c], depth), b);
      } else {
        LastStartMeans(lines, b, func, depth, end);
        forall i: nat, m: nat ensures IsLatest(lines, c, func, depth, end, i, m) <==> IsLatest(lines, b, func, depth, end, i, m) {
          LatestStays(lines, b, func, depth, end, i, m);
        }
        assert SomeLatest(lines, c, func, depth, end) <==> SomeLatest(lines, b, func, depth, end);
      }
    }
  }

  lemma NoneLatest(lines: seq<Line>, func: string, depth: nat, end: real)
    ensures forall i: nat, m: nat :: !IsLatest(lines, 0, func, depth, end, i, m)
  {
  }

  // ----- What the merged nodes are -----

  /** A frame of the input such that no later one of its name and depth ends when it does. */
  ghost predicate IsLeft(lines: seq<Line>, func: string, depth: nat, i: nat, m: nat) {
    && IsFrame(lines, func, depth, i, m)
    && (forall j: nat, e: nat :: IsFrame(lines, func, depth, j, e) && m < j ==> Time(lines, e + 1) != Time(lines, m + 1))
  }

  /** For stacks of any non-negative widths in any order: the merge leaves a node exactly for every
      such frame, from the time its first stack begins to the time its last one ends. */
  lemma NodesAreFramesLeft(lines: seq<Line>, func: string, depth: nat, end: real)
    requires NonNegative(lines)
    ensures var node, k := Merged(lines).node, NodeKey(func, depth, end);
            && (k in node <==> exists i: nat, m: nat :: IsLeft(lines, func, depth, i, m) && Time(lines, m + 1) == end)
            && (forall i: nat, m: nat :: IsLeft(lines, func, depth, i, m) && Time(lines, m + 1) == end ==>
                  k in node && node[k].stime == Some(Time(lines, i)))
  {
    hide Merged, Time, IsFrame;
    var n := |lines|;
    MergedView(lines, func, depth, end);
    LastStartMeans(lines, n, func, depth, end);
    LaterFramesEndLater(lines, n, func, depth);
    assert forall i: nat, m: nat :: IsLeft(lines, func, depth, i, m) && Time(lines, m + 1) == end <==>
             IsLatest(lines, n, func, depth, end, i, m);
  }

  // ----- Parents when counts may be zero -----

  /** A break further out is a break further in. */
  lemma BreakReachesIn(lines: seq<Line>, k: nat, depth: nat)
    requires k + 1 < |lines| && depth > 0 && BreaksAt(lines, k, depth - 1)
    ensures BreaksAt(lines, k, depth)
  {
    hide Shared;
  }

  lemma {:induction false} NextBreak(lines: seq<Line>, m: nat, depth: nat) returns (c: nat)
    requires m < |lines|
    ensures m <= c < |lines| && ClosesAt(lines, c, depth) && forall k :: m <= k < c ==> !BreaksAt(lines, k, depth)
    decreases |lines| - m
  {
    hide Shared;
    if ClosesAt(lines, m, depth) {
      c := m;
    } else {
      c := NextBreak(lines, m + 1, depth);
    }
  }

  /** The frame one level out that a frame is opened and closed in. */
  lemma EnclosingFrame(lines: seq<Line>, func: string, depth: nat, i: nat, m: nat) returns (p: string, o: nat, c: nat)
    requires depth > 0 && IsFrame(lines, func, depth, i, m)
    ensures IsFrame(lines, p, depth - 1, o, c) && o <= i && m <= c
  {
    hide BreaksAt;
    NameStays(lines, i, m, func, depth);
    var out: nat := depth - 1;
    p, o := lines[m].Frames()[out], Opener(lines[..m + 1], out);
    OpenerMeans(lines, m + 1, out);
    c := NextBreak(lines, m, out);
    NameStays(lines, o, m, p, out);
    if o > i {
      BreakReachesIn(lines, o - 1, depth);
      assert false;
    }
  }

  /** The node of a frame that lasts has a parent exactly if the node of the frame around it is not
      overwritten by a later frame of the same name, depth and end. */
  lemma ParentIffFrameAroundIsLeft(lines: seq<Line>, func: string, depth: nat, i: nat, m: nat,
                                   p: string, o: nat, c: nat)
    requires NonNegative(lines) && depth > 0 && IsLeft(lines, func, depth, i, m) && Time(lines, i) < Time(lines, m + 1)
    requires IsFrame(lines, p, depth - 1, o, c) && o <= i && m <= c
    ensures var node, k := Merged(lines).node, NodeKey(func, depth, Time(lines, m + 1));
            && HasStarts(node) && k in node
            && (HasParent(node, k) <==> IsLeft(lines, p, depth - 1, o, c))
  {
    hide Merged, Time, IsFrame;
    FrameInside(lines, func, depth, i, m);
    FrameInside(lines, p, depth - 1, o, c);
    var node, k := Merged(lines).node, NodeKey(func, depth, Time(lines, m + 1));
    MergedView(lines, func, depth, 0.0);
    NodesAreFramesLeft(lines, func, depth, Time(lines, m + 1));
    TimeGoesOn(lines, o, i);
    TimeGoesOn(lines, m + 1, c + 1);
    if IsLeft(lines, p, depth - 1, o, c) {
      NodesAreFramesLeft(lines, p, depth - 1, Time(lines, c + 1));
      assert IsParent(node, NodeKey(p, depth - 1, Time(lines, c + 1)), k);
    }
    if q :| IsParent(node, q, k) {
      NodesAreFramesLeft(lines, q.func, q.depth, q.etime);
      LaterFramesEndLater(lines, 0, q.func, q.depth);
      var j: nat, e: nat :| e < |lines| && IsLeft(lines, q.func, q.depth, j, e) && Time(lines, e + 1) == q.etime;
      ParentIsAround(lines, depth, i, m, p, o, c, q.func, j, e);
    }
  }

  /** Frames of one depth do not overlap, so no other one can lie around something that lasts. */
  lemma ParentIsAround(lines: seq<Line>, depth: nat, i: nat, m: nat, p: string, o: nat, c: nat, q: string, j: nat, e: nat)
    requires NonNegative(lines) && depth > 0 && i <= m < |lines| && Time(lines, i) < Time(lines, m + 1)
    requires IsFrame(lines, p, depth - 1, o, c) && o <= i && m <= c && IsFrame(lines, q, depth - 1, j, e)
    requires Time(lines, j) <= Time(lines, i) && Time(lines, m + 1) <= Time(lines, e + 1)
    ensures p == q && o == j && c == e
  {
    hide Time, IsFrame;
    FrameInside(lines, p, depth - 1, o, c);
    FrameInside(lines, q, depth - 1, j, e);
    FramesOfDepthApart(lines, p, q, depth - 1, o, c, j, e);
    if e < o {
      TimeGoesOn(lines, e + 1, i);
    }
    if c < j {
      TimeGoesOn(lines, m + 1, j);
    }
  }

  /** And so after pruning by a positive width: a kept node lacks its parent exactly if the node of
      the frame around it was overwritten. */
  lemma KeptParentIffFrameAroundIsLeft(lines: seq<Line>, func: string, depth: nat, i: nat, m: nat,
                                       p: string, o: nat, c: nat, minWidth: real)
    requires NonNegative(lines) && depth > 0 && IsLeft(lines, func, depth, i, m)
    requires minWidth > 0.0 && Time(lines, m + 1) - Time(lines, i) >= minWidth
    requires IsFrame(lines, p, depth - 1, o, c) && o <= i && m <= c
    ensures var kept, k := Kept(Merged(lines).node, minWidth), NodeKey(func, depth, Time(lines, m + 1));
            && HasStarts(kept) && k in kept
            && (HasParent(kept, k) <==> IsLeft(lines, p, depth - 1, o, c))
  {
    hide Merged, Time, IsFrame;
    FrameInside(lines, func, depth, i, m);
    var node, k := Merged(lines).node, NodeKey(func, depth, Time(lines, m + 1));
    ParentIffFrameAroundIsLeft(lines, func, depth, i, m, p, o, c);
    NodesAreFramesLeft(lines, func, depth, Time(lines, m + 1));
    KeptParents(node, minWidth, k);
  }

  lemma KeptParents(node: map<NodeKey, Frame>, minWidth: real, k: NodeKey)
    requires HasStarts(node) && k in Kept(node, minWidth)
    ensures HasParent(Kept(node, minWidth), k) <==> HasParent(node, k)
  {
    var kept := Kept(node, minWidth);
    if p :| IsParent(node, p, k) {
      assert IsParent(kept, p, k);
    }
    if p :| IsParent(kept, p, k) {
      assert IsParent(node, p, k);
    }
  }
}
