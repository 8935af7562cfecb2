/** The delta of every single merged node: that of the last frame with a delta among those of its
    name and depth that ended when it ends. */
module FlameNodeDeltas {
  import opened Options
  import opened FlameMerge
  import opened FlameWidths
  import opened FlameExact
  import opened FlameFrames
  import opened FlameNodes
  import FlameDeltas

  function DeltaOf(node: map<NodeKey, Frame>, k: NodeKey): Option<real> {
    if k in node then node[k].delta else None
  }

  function OpenDelta(s: Merge, func: string, depth: nat): Option<real> {
    if FrameKey(func, depth) in s.tmp then s.tmp[FrameKey(func, depth)].delta else None
  }

  // ----- One call of `flow` -----

  /** The node's delta after a frame with that delta may have closed. */
  function Closed(was: Option<real>, open: Option<real>, closes: bool): Option<real> {
    if closes && open.Some? then open else was
  }

  lemma {:induction false} CloseDownToDelta(s: Merge, path: seq<string>, hi: nat, lo: nat, t: real,
                                            func: string, depth: nat, end: real)
    requires lo <= hi <= |path|
    ensures DeltaOf(CloseDownTo(s, path, hi, lo, t).node, NodeKey(func, depth, end))
            == Closed(DeltaOf(s.node, NodeKey(func, depth, end)), OpenDelta(s, func, depth),
                      lo <= depth < hi && path[depth] == func && t == end)
    decreases hi
  {
    if hi > lo {
      CloseDownToDelta(CloseFrame(s, path[hi - 1], hi - 1, t), path, hi - 1, lo, t, func, depth, end);
    }
  }

  lemma {:induction false} OpenUpFromKeepsNodes(s: Merge, next: seq<string>, i: nat, t: real, d: Option<real>)
    ensures OpenUpFrom(s, next, i, t, d).node == s.node
    decreases |next| - i
  {
    if i < |next| {
      OpenUpFromKeepsNodes(OpenFrame(s, next[i], i, t, d, i == |next| - 1), next, i + 1, t, d);
    }
  }

  // ----- The same, read off the input -----

  /** The delta of the last frame with one, of those that ended at that time in c closings. */
  function LastDelta(lines: seq<Line>, c: nat, func: string, depth: nat, end: real): Option<real>
    requires c <= |lines|
  {
    if c == 0 then None
    else
      Closed(LastDelta(lines, c - 1, func, depth, end),
             FlameDeltas.Given(lines, Opener(lines[..c], depth), depth), EndsAfter(lines, c - 1, func, depth, end))
  }

  /** The frame open at the end of n stacks has the delta that its opener gave. */
  lemma OpenIsGiven(lines: seq<Line>, n: nat, func: string, depth: nat)
    requires NonNegative(lines) && 0 < n <= |lines| && HasAt(lines[n - 1].Frames(), func, depth)
    ensures LastFrames(lines[..n]) == lines[n - 1].Frames()
    ensures OpenDelta(Flowed(lines[..n]), func, depth) == FlameDeltas.Given(lines, Opener(lines[..n], depth), depth)
  {
    hide Flowed, Opener;
    FlameDeltas.FlowedAgrees(lines[..n], func, depth);
    assert forall j :: 0 <= j < n ==> lines[..n][j] == lines[j];
  }

  lemma {:induction false} FlowedDelta(lines: seq<Line>, n: nat, func: string, depth: nat, end: real)
    requires NonNegative(lines) && n <= |lines|
    ensures DeltaOf(Flowed(lines[..n]).node, NodeKey(func, depth, end))
            == LastDelta(lines, if n == 0 then 0 else n - 1, func, depth, end)
    decreases n
  {
    hide Flowed, CloseDownTo, OpenUpFrom, Opener, Shared, FlameDeltas.Given, Time, OpenDelta, DeltaOf, LastFrames;
    if n == 0 {
      NothingFlowed(lines, NodeKey(func, depth, end));
    } else {
      FlowedDelta(lines, n - 1, func, depth, end);
      FlowedNext(lines, n);
      var before, next := lines[..n - 1], lines[n - 1].Frames();
      var last, s, t, same := LastFrames(before), Flowed(before), Time(lines, n - 1), Shared(LastFrames(before), next);
      OpenUpFromKeepsNodes(CloseDownTo(s, last, |last|, same, t), next, same, t, lines[n - 1].Delta());
      CloseDownToDelta(s, last, |last|, same, t, func, depth, end);
      if n > 1 {
        LastOf(lines, n - 1);
        assert BreaksAt(lines, n - 2, depth) <==> same <= depth;
        if HasAt(last, func, depth) {
          OpenIsGiven(lines, n - 1, func, depth);
        }
      } else {
        NothingYet(lines);
      }
    }
  }

  lemma NothingFlowed(lines: seq<Line>, k: NodeKey)
    ensures DeltaOf(Flowed(lines[..0]).node, k) == None
  {
  }

  lemma NothingYet(lines: seq<Line>)
    ensures LastFrames(lines[..0]) == []
  {
  }

  lemma LastOf(lines: seq<Line>, n: nat)
    requires 0 < n <= |lines|
    ensures LastFrames(lines[..n]) == lines[n - 1].Frames()
  {
  }

  lemma MergedDelta(lines: seq<Line>, func: string, depth: nat, end: real)
    requires NonNegative(lines)
    ensures DeltaOf(Merged(lines).node, NodeKey(func, depth, end)) == LastDelta(lines, |lines|, func, depth, end)
  {
    hide Flowed, CloseDownTo, Opener, FlameDeltas.Given, OpenDelta, DeltaOf, TotalWidth;
    var n, last := |lines|, LastFrames(lines);
    assert lines[..n] == lines;
    FlowedDelta(lines, n, func, depth, end);
    CloseDownToDelta(Flowed(lines), last, |last|, 0, TotalWidth(lines), func, depth, end);
    if n > 0 && HasAt(last, func, depth) {
      OpenIsGiven(lines, n, func, depth);
    }
  }

  // ----- The same in terms of positions -----

  predicate HasTwo(lines: seq<Line>, i: nat) {
    i < |lines| && lines[i].samples2.Some?
  }

  /** The last frame with a delta among the first c closings that ends at that time. */
  ghost predicate IsLast(lines: seq<Line>, c: nat, func: string, depth: nat, end: real, i: nat, m: nat) {
    && m < c <= |lines| && IsFrame(lines, func, depth, i, m) && HasTwo(lines, i) && Time(lines, m + 1) == end
    && (forall j: nat, e: nat ::
          IsFrame(lines, func, depth, j, e) && HasTwo(lines, j) && m < j && e < c ==> Time(lines, e + 1) != end)
  }

  ghost predicate SomeLast(lines: seq<Line>, c: nat, func: string, depth: nat, end: real) {
    exists i: nat, m: nat :: IsLast(lines, c, func, depth, end, i, m)
  }

  /** What stack i gives to a frame it opens at that depth: its difference if the frame is its
      innermost one, or else nothing, but defined. */
  function Gives(lines: seq<Line>, i: nat, depth: nat): Option<real>
    requires HasTwo(lines, i)
  {
    Some(if depth == |lines[i].stack| then lines[i].samples2.value - lines[i].samples else 0.0)
  }

  lemma GivenIsGives(lines: seq<Line>, i: nat, depth: nat)
    requires i < |lines|
    ensures FlameDeltas.Given(lines, i, depth) == if HasTwo(lines, i) then Gives(lines, i, depth) else None
  {
  }

  /** The frame that closes after stack n - 1. */
  lemma LastEnds(lines: seq<Line>, n: nat, func: string, depth: nat, end: real)
    requires 0 < n <= |lines| && EndsAfter(lines, n - 1, func, depth, end) && HasTwo(lines, Opener(lines[..n], depth))
    ensures IsLast(lines, n, func, depth, end, Opener(lines[..n], depth), n - 1)
    ensures forall i: nat, m: nat :: IsLast(lines, n, func, depth, end, i, m) ==> i == Opener(lines[..n], depth)
  {
    hide IsFrame, Opener, Time, HasAt, BreaksAt;
    var o := Opener(lines[..n], depth);
    OpenedFrame(lines, n, func, depth, o);
    LaterFramesEndLater(lines, n, func, depth);
    forall i: nat, m: nat | IsLast(lines, n, func, depth, end, i, m) ensures i == o {
      FramesApart(lines, func, depth, i, m, o, n - 1);
      OpenedFrame(lines, n, func, depth, i);
    }
  }

  lemma LastStays(lines: seq<Line>, c: nat, func: string, depth: nat, end: real, i: nat, m: nat)
    requires c < |lines|
    requires !EndsAfter(lines, c, func, depth, end) || !HasTwo(lines, Opener(lines[..c + 1], depth))
    ensures IsLast(lines, c + 1, func, depth, end, i, m) <==> IsLast(lines, c, func, depth, end, i, m)
  {
    hide IsFrame, EndsAfter, Time, Opener;
    forall j: nat, e: nat | IsFrame(lines, func, depth, j, e) && e == c && HasTwo(lines, j) ensures Time(lines, e + 1) != end {
      if Time(lines, e + 1) == end {
        FrameEnds(lines, c, func, depth, end, j);
        EndIsOpened(lines, c, func, depth, end, j);
      }
    }
  }

  lemma EndIsOpened(lines: seq<Line>, c: nat, func: string, depth: nat, end: real, j: nat)
    requires c < |lines| && EndsAfter(lines, c, func, depth, end) && IsFrame(lines, func, depth, j, c)
    ensures j == Opener(lines[..c + 1], depth)
  {
    hide IsFrame, Opener;
    OpenedFrame(lines, c + 1, func, depth, j);
  }

  lemma {:induction false} LastDeltaMeans(lines: seq<Line>, c: nat, func: string, depth: nat, end: real)
    requires c <= |lines|
    ensures LastDelta(lines, c, func, depth, end).Some? <==> SomeLast(lines, c, func, depth, end)
    ensures forall i: nat, m: nat :: IsLast(lines, c, func, depth, end, i, m) ==>
              HasTwo(lines, i) && LastDelta(lines, c, func, depth, end) == Gives(lines, i, depth)
    decreases c
  {
    hide IsLast, EndsAfter, Time, Opener, Gives, HasTwo, FlameDeltas.Given;
    if c == 0 {
      NoneLast(lines, func, depth, end);
    } else {
      var b: nat := c - 1;
      var o := Opener(lines[..c], depth);
      GivenIsGives(lines, o, depth);
      LastHasTwo(lines, c, func, depth, end);
      if EndsAfter(lines, b, func, depth, end) && HasTwo(lines, o) {
        LastEnds(lines, c, func, depth, end);
        GivesSome(lines, o, depth);
        assert IsLast(lines, c, func, depth, end, o, b);
      } else {
        LastDeltaMeans(lines, b, func, depth, end);
        forall i: nat, m: nat ensures IsLast(lines, c, func, depth, end, i, m) <==> IsLast(lines, b, func, depth, end, i, m) {
          LastStays(lines, b, func, depth, end, i, m);
        }
        assert SomeLast(lines, c, func, depth, end) <==> SomeLast(lines, b, func, depth, end);
      }
    }
  }

  lemma GivesSome(lines: seq<Line>, i: nat, depth: nat)
    requires HasTwo(lines, i)
    ensures Gives(lines, i, depth).Some?
  {
  }

  lemma LastHasTwo(lines: seq<Line>, c: nat, func: string, depth: nat, end: real)
    ensures forall i: nat, m: nat :: IsLast(lines, c, func, depth, end, i, m) ==> HasTwo(lines, i)
  {
  }

  lemma NoneLast(lines: seq<Line>, func: string, depth: nat, end: real)
    ensures forall i: nat, m: nat :: !IsLast(lines, 0, func, depth, end, i, m)
  {
  }

  /** For stacks of any non-negative widths in any order: a merged node has a delta exactly if some
      frame of its name and depth that ended when it does was opened by a stack with two columns,
      and then it is what the last such stack gives at that depth. */
  lemma NodeDeltaIsLastGiven(lines: seq<Line>, k: NodeKey)
    requires NonNegative(lines)
    ensures var node, n := Merged(lines).node, |lines|;
            && (k in node && node[k].delta.Some? <==> SomeLast(lines, n, k.func, k.depth, k.etime))
            && (forall i: nat, m: nat :: IsLast(lines, n, k.func, k.depth, k.etime, i, m) ==>
                  k in node && HasTwo(lines, i) && node[k].delta == Gives(lines, i, k.depth))
  {
    hide Merged, IsLast, Gives, HasTwo, LastDelta;
    MergedDelta(lines, k.func, k.depth, k.etime);
    LastDeltaMeans(lines, |lines|, k.func, k.depth, k.etime);
    forall i: nat, m: nat | IsLast(lines, |lines|, k.func, k.depth, k.etime, i, m)
      ensures SomeLast(lines, |lines|, k.func, k.depth, k.etime)
    {
    }
  }
}
