/** The shape of the merged nodes when counts may be zero: nodes may be empty and may overwrite
    one another, but any two that are left still nest or lie apart. */
module FlameNesting {
  import opened Options
  import opened FlameMerge
  import opened FlameShapes
  import opened FlameWidths
  import FlameExact

  /** Two spans of time lie apart or one lies in the other. */
  predicate SpansNest(start: real, end: real, start': real, end': real) {
    end <= start' || end' <= start || (start' <= start && end <= end') || (start <= start' && end' <= end)
  }

  ghost predicate NodesNest(node: map<NodeKey, Frame>, k: NodeKey, l: NodeKey)
    requires HasStarts(node) && k in node && l in node
  {
    SpansNest(node[k].stime.value, k.etime, node[l].stime.value, l.etime)
  }

  ghost predicate AllNest(node: map<NodeKey, Frame>)
    requires HasStarts(node)
  {
    && (forall k :: k in node ==> 0.0 <= node[k].stime.value <= k.etime)
    && (forall k, l :: k in node && l in node ==> NodesNest(node, k, l))
  }

  /** A finished node lies before or inside every open frame. */
  ghost predicate BesideOpen(s: Merge, path: seq<string>)
    requires HoldsPath(s, path) && HasStarts(s.node)
  {
    forall k, i :: k in s.node && 0 <= i < |path| ==>
      k.etime <= StartOf(s, path, i) || StartOf(s, path, i) <= s.node[k].stime.value
  }

  /** What holds between any two openings and closings, whatever the widths. */
  ghost predicate Nested(s: Merge, path: seq<string>, t: real) {
    Loose(s, path, t) && AllNest(s.node) && BesideOpen(s, path)
  }

  lemma CloseNested(s: Merge, path: seq<string>, name: string, t: real)
    requires Nested(s, path + [name], t)
    ensures Nested(CloseFrame(s, name, |path|, t), path, t)
  {
    hide Loose;
    var open, s', nk := path + [name], CloseFrame(s, name, |path|, t), NodeKey(name, |path|, t);
    CloseLoose(s, path, name, t);
    LooseHoldsPath(s, open, t);
    LooseHoldsPath(s', path, t);
    NewNodeSpan(s, path, name, t);
    forall k, l | k in s'.node && l in s'.node ensures NodesNest(s'.node, k, l) {
      assert k != nk && l != nk ==> NodesNest(s.node, k, l);
    }
  }

  /** The new node starts where its frame was opened, after the frames outside it; the others
      ended by now. */
  lemma NewNodeSpan(s: Merge, path: seq<string>, name: string, t: real)
    requires Loose(s, path + [name], t)
    ensures var s', nk := CloseFrame(s, name, |path|, t), NodeKey(name, |path|, t);
            && s'.node[nk].stime == Some(StartOf(s, path + [name], |path|))
            && 0.0 <= StartOf(s, path + [name], |path|) <= t
            && (forall i :: 0 <= i < |path| ==>
                  StartOf(s, path + [name], i) <= StartOf(s, path + [name], |path|))
            && (forall k :: k in s.node ==> k.etime <= t)
  {
    var open := path + [name];
    assert FrameKey(open[|path|], |path|) in s.tmp;
  }

  lemma OpenNested(s: Merge, path: seq<string>, name: string, t: real, d: Option<real>, innermost: bool)
    requires Nested(s, path, t)
    ensures Nested(OpenFrame(s, name, |path|, t, d, innermost), path + [name], t)
  {
    OpenLoose(s, path, name, t, d, innermost);
  }

  lemma {:induction false} CloseDownToNested(s: Merge, path: seq<string>, hi: nat, lo: nat, t: real)
    requires lo <= hi <= |path| && Nested(s, path[..hi], t)
    ensures Nested(CloseDownTo(s, path, hi, lo, t), path[..lo], t)
    decreases hi
  {
    hide Nested, CloseFrame;
    if hi > lo {
      assert path[..hi] == path[..hi - 1] + [path[hi - 1]];
      CloseNested(s, path[..hi - 1], path[hi - 1], t);
      CloseDownToNested(CloseFrame(s, path[hi - 1], hi - 1, t), path, hi - 1, lo, t);
    }
  }

  lemma {:induction false} OpenUpFromNested(s: Merge, next: seq<string>, i: nat, t: real, d: Option<real>)
    requires i <= |next| && Nested(s, next[..i], t)
    ensures Nested(OpenUpFrom(s, next, i, t, d), next, t)
    decreases |next| - i
  {
    hide Nested, OpenFrame;
    if i == |next| {
      assert next[..i] == next;
    } else {
      assert next[..i + 1] == next[..i] + [next[i]];
      OpenNested(s, next[..i], next[i], t, d, i == |next| - 1);
      OpenUpFromNested(OpenFrame(s, next[i], i, t, d, i == |next| - 1), next, i + 1, t, d);
    }
  }

  lemma FlowStepNested(s: Merge, last: seq<string>, next: seq<string>, t: real, d: Option<real>, w: real)
    requires Nested(s, last, t) && w >= 0.0
    ensures Nested(FlowStep(s, last, next, t, d), next, t + w)
  {
    var same := Shared(last, next);
    assert last[..|last|] == last && last[..same] == next[..same];
    CloseDownToNested(s, last, |last|, same, t);
    OpenUpFromNested(CloseDownTo(s, last, |last|, same, t), next, same, t, d);
    FlameExact.LaterIsLoose(FlowStep(s, last, next, t, d), next, t, w);
  }

  lemma {:induction false} FlowedNested(lines: seq<Line>)
    requires FlameExact.NonNegative(lines)
    ensures Nested(Flowed(lines), LastFrames(lines), TotalWidth(lines))
    decreases |lines|
  {
    hide FlowStep;
    if lines != [] {
      var before, line := lines[..|lines| - 1], lines[|lines| - 1];
      FlowedNested(before);
      FlowStepNested(Flowed(before), LastFrames(before), line.Frames(), TotalWidth(before), line.Delta(), line.Width());
    }
  }

  // ----- The root -----

  /** Nothing was ever closed at depth 0, and the root frame is open since time 0. */
  ghost predicate RootStaysOpen(s: Merge, path: seq<string>) {
    && (forall k :: k in s.node ==> k.depth > 0)
    && (path != [] ==> path[0] == "" && FrameKey("", 0) in s.tmp && s.tmp[FrameKey("", 0)].stime == Some(0.0))
  }

  lemma {:induction false} CloseDownToKeepsRoot(s: Merge, path: seq<string>, hi: nat, lo: nat, t: real)
    requires 0 < lo <= hi <= |path| && RootStaysOpen(s, path)
    ensures RootStaysOpen(CloseDownTo(s, path, hi, lo, t), path)
    decreases hi
  {
    if hi > lo {
      CloseDownToKeepsRoot(CloseFrame(s, path[hi - 1], hi - 1, t), path, hi - 1, lo, t);
    }
  }

  lemma {:induction false} OpenUpFromKeepsRoot(s: Merge, next: seq<string>, i: nat, t: real, d: Option<real>)
    requires 0 < i <= |next| && RootStaysOpen(s, next)
    ensures RootStaysOpen(OpenUpFrom(s, next, i, t, d), next)
    decreases |next| - i
  {
    if i < |next| {
      OpenUpFromKeepsRoot(OpenFrame(s, next[i], i, t, d, i == |next| - 1), next, i + 1, t, d);
    }
  }

  lemma {:induction false} FlowedKeepsRoot(lines: seq<Line>)
    requires FlameExact.NonNegative(lines)
    ensures RootStaysOpen(Flowed(lines), LastFrames(lines))
    decreases |lines|
  {
    if lines != [] {
      var before, line := lines[..|lines| - 1], lines[|lines| - 1];
      FlowedKeepsRoot(before);
      FlowedNested(before);
      NothingFlowed(before);
      var s, last, next, t := Flowed(before), LastFrames(before), line.Frames(), TotalWidth(before);
      var same := Shared(last, next);
      if last == [] {
        assert same == 0 && CloseDownTo(s, last, 0, 0, t) == s;
        var s1 := OpenFrame(s, "", 0, t, line.Delta(), 0 == |next| - 1);
        OpenUpFromKeepsRoot(s1, next, 1, t, line.Delta());
      } else {
        assert same > 0;
        CloseDownToKeepsRoot(s, last, |last|, same, t);
        OpenUpFromKeepsRoot(CloseDownTo(s, last, |last|, same, t), next, same, t, line.Delta());
      }
    }
  }

  // ----- What the merge promises -----

  /** Any two nodes nest or lie apart; the only node at depth 0 is [0, total). */
  ghost predicate Tree(node: map<NodeKey, Frame>, total: real) {
    && HasStarts(node) && AllNest(node)
    && (forall k :: k in node ==> k.etime <= total)
    && (forall k :: k in node && k.depth == 0 ==>
          k == NodeKey("", 0, total) && node[k].stime == Some(0.0))
  }

  lemma TreeStarts(node: map<NodeKey, Frame>, total: real)
    requires Tree(node, total)
    ensures HasStarts(node) && forall k :: k in node ==> 0.0 <= node[k].stime.value
  {
  }

  /** For counts that are not negative, in any order. */
  lemma MergeNests(lines: seq<Line>)
    requires FlameExact.NonNegative(lines)
    ensures Tree(Merged(lines).node, TotalWidth(lines)) && Merged(lines).tmp == map[]
  {
    hide Nested, RootStaysOpen, AllNest;
    var s, last, t := Flowed(lines), LastFrames(lines), TotalWidth(lines);
    FlowedNested(lines);
    assert last[..|last|] == last && last[..0] == [];
    CloseDownToNested(s, last, |last|, 0, t);
    NestedAtEnd(Merged(lines), t);
    if lines == [] {
      NothingMerged();
    } else {
      FlowedKeepsRoot(lines);
      CloseDownToKeepsRoot(s, last, |last|, 1, t);
      CloseDownToSplits(s, last, |last|, 1, t);
      var s1 := CloseDownTo(s, last, |last|, 1, t);
      assert CloseDownTo(s1, last, 1, 0, t) == CloseFrame(s1, last[0], 0, t);
      RootCloses(s1, last, t);
    }
  }

  lemma NestedAtEnd(s: Merge, t: real)
    requires Nested(s, [], t)
    ensures HasStarts(s.node) && AllNest(s.node) && s.tmp == map[]
    ensures forall k :: k in s.node ==> k.etime <= t
  {
  }

  lemma NothingMerged()
    ensures Merged([]).node == map[]
  {
  }

  lemma RootCloses(s: Merge, path: seq<string>, t: real)
    requires RootStaysOpen(s, path) && path != []
    ensures var node := CloseFrame(s, path[0], 0, t).node;
            forall k :: k in node && k.depth == 0 ==> k == NodeKey("", 0, t) && node[k].stime == Some(0.0)
  {
  }

  /** Pruning by width leaves such nodes again. */
  lemma PruningKeepsTree(node: map<NodeKey, Frame>, total: real, minWidth: real)
    requires Tree(node, total)
    ensures Tree(Kept(node, minWidth), total)
  {
    var kept := Kept(node, minWidth);
    forall k, l | k in kept && l in kept ensures NodesNest(kept, k, l) {
      assert NodesNest(node, k, l);
    }
  }
}
