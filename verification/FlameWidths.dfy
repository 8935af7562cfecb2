/** Conservation of the sample counts by the merge, with the exact condition under which
    stacks of zero width break it. */
module FlameWidths {
  import opened Options
  import opened MapSums
  import opened FlameMerge
  import opened FlameShapes

  /** The summed counts of the input stacks that have that name at that depth. */
  ghost function CountedWidth(lines: seq<Line>, func: string, depth: nat): real {
    if lines == [] then 0.0
    else
      var line := lines[|lines| - 1];
      CountedWidth(lines[..|lines| - 1], func, depth) +
      (if !HasAt([""] + line.stack, func, depth) then 0.0
       else if line.samples2.Some? then line.samples2.value else line.samples)
  }

  predicate HasAt(path: seq<string>, func: string, depth: nat) {
    depth < |path| && path[depth] == func
  }

  /** The width of a node, counted for one name at one depth. */
  ghost function WidthAt(func: string, depth: nat): (NodeKey, Frame) -> real {
    (k: NodeKey, n: Frame) =>
      if k.func == func && k.depth == depth && n.stime.Some? then k.etime - n.stime.value else 0.0
  }

  /** The summed widths of all nodes with that name and depth. */
  ghost function MergedWidth(node: map<NodeKey, Frame>, func: string, depth: nat): real {
    Sum(node, WidthAt(func, depth))
  }

  ghost function NodeWidth(node: map<NodeKey, Frame>, k: NodeKey): real {
    if k in node && node[k].stime.Some? then k.etime - node[k].stime.value else 0.0
  }

  // ----- The invariant when widths may be zero -----

  /** As `Inv`, for intervals that may be empty; a node may overwrite one of the same key. */
  ghost predicate Loose(s: Merge, path: seq<string>, t: real) {
    && HoldsPath(s, path) && HasStarts(s.node)
    && StartsInOrder(s, path, t)
    && EndsInOrder(s, path, t)
    && (forall k :: k in s.node ==> s.node[k].stime.value <= k.etime)
  }

  /** The same frames of `path` are open since the same times. */
  ghost predicate SameStarts(s: Merge, s': Merge, path: seq<string>, path': seq<string>, n: nat)
    requires HoldsPath(s, path) && HoldsPath(s', path')
    requires n <= |path| && n <= |path'|
  {
    forall i :: 0 <= i < n ==> StartOf(s', path', i) == StartOf(s, path, i)
  }

  lemma CloseLoose(s: Merge, path: seq<string>, name: string, t: real)
    requires Loose(s, path + [name], t)
    ensures var s' := CloseFrame(s, name, |path|, t);
            var nk := NodeKey(name, |path|, t);
            && Loose(s', path, t)
            && SameStarts(s, s', path + [name], path, |path|)
            && s'.node.Keys == s.node.Keys + {nk}
            && (forall k :: k in s.node && k != nk ==> s'.node[k] == s.node[k])
            && NodeWidth(s'.node, nk) == t - StartOf(s, path + [name], |path|)
  {
    var open := path + [name];
    assert FrameKey(open[|path|], |path|) in s.tmp;
    var s' := CloseFrame(s, name, |path|, t);
    assert HoldsPath(s', path);
    forall i | 0 <= i < |path|
      ensures StartOf(s', path, i) == StartOf(s, open, i)
    {
      assert FrameKey(open[i], i) in s.tmp;
    }
  }

  /** What closing one frame does to the summed width of a name at a depth. */
  lemma CloseMovesWidth(s: Merge, path: seq<string>, name: string, t: real, func: string, depth: nat)
    requires Loose(s, path + [name], t)
    ensures var s' := CloseFrame(s, name, |path|, t);
            var k := NodeKey(func, depth, t);
            && HasStarts(s'.node)
            && (if |path| == depth && name == func then
                  && MergedWidth(s'.node, func, depth) + NodeWidth(s.node, k) ==
                     MergedWidth(s.node, func, depth) + NodeWidth(s'.node, k)
                else
                  && MergedWidth(s'.node, func, depth) == MergedWidth(s.node, func, depth)
                  && NodeWidth(s'.node, k) == NodeWidth(s.node, k))
  {
    CloseLoose(s, path, name, t);
    var s' := CloseFrame(s, name, |path|, t);
    var nk := NodeKey(name, |path|, t);
    SumUpdate(s.node, WidthAt(func, depth), nk, s'.node[nk]);
  }

  /** Closing the frames from depth `hi` down to depth `lo`, for one name and depth. */
  ghost predicate ClosedAt(s: Merge, s': Merge, path: seq<string>, hi: nat, lo: nat, t: real, func: string, depth: nat)
    requires lo <= hi <= |path|
  {
    && Loose(s, path[..hi], t) && Loose(s', path[..lo], t)
    && SameStarts(s, s', path[..hi], path[..lo], lo)
    && var k := NodeKey(func, depth, t);
       if lo <= depth < hi && path[depth] == func then
         && MergedWidth(s'.node, func, depth) + NodeWidth(s.node, k) ==
            MergedWidth(s.node, func, depth) + NodeWidth(s'.node, k)
         && NodeWidth(s'.node, k) == t - StartOf(s, path[..hi], depth)
       else
         && MergedWidth(s'.node, func, depth) == MergedWidth(s.node, func, depth)
         && NodeWidth(s'.node, k) == NodeWidth(s.node, k)
  }

  lemma CloseOneAt(s: Merge, path: seq<string>, hi: nat, t: real, func: string, depth: nat)
    requires 0 < hi <= |path| && Loose(s, path[..hi], t)
    ensures ClosedAt(s, CloseFrame(s, path[hi - 1], hi - 1, t), path, hi, hi - 1, t, func, depth)
  {
    assert path[..hi] == path[..hi - 1] + [path[hi - 1]];
    CloseLoose(s, path[..hi - 1], path[hi - 1], t);
    CloseMovesWidth(s, path[..hi - 1], path[hi - 1], t, func, depth);
  }

  lemma ClosedAtComposes(s: Merge, s1: Merge, s2: Merge, path: seq<string>, hi: nat, mid: nat, lo: nat, t: real,
                         func: string, depth: nat)
    requires lo <= mid <= hi <= |path|
    requires ClosedAt(s, s1, path, hi, mid, t, func, depth)
    requires ClosedAt(s1, s2, path, mid, lo, t, func, depth)
    ensures ClosedAt(s, s2, path, hi, lo, t, func, depth)
  {
    hide Loose, MergedWidth, NodeWidth;
    assert Loose(s, path[..hi], t) && Loose(s1, path[..mid], t) && Loose(s2, path[..lo], t);
    LooseHoldsPath(s, path[..hi], t);
    LooseHoldsPath(s1, path[..mid], t);
    LooseHoldsPath(s2, path[..lo], t);
  }

  lemma LooseHoldsPath(s: Merge, path: seq<string>, t: real)
    requires Loose(s, path, t)
    ensures HoldsPath(s, path) && HasStarts(s.node)
  {
  }

  lemma ClosedAtStart(s: Merge, path: seq<string>, hi: nat, t: real, func: string, depth: nat)
    requires hi <= |path| && Loose(s, path[..hi], t)
    ensures ClosedAt(s, s, path, hi, hi, t, func, depth)
  {
  }

  lemma ClosedIsLoose(s: Merge, s': Merge, path: seq<string>, hi: nat, lo: nat, t: real, func: string, depth: nat)
    requires lo <= hi <= |path| && ClosedAt(s, s', path, hi, lo, t, func, depth)
    ensures Loose(s', path[..lo], t)
  {
  }

  lemma {:induction false} CloseDownToAt(s: Merge, path: seq<string>, hi: nat, lo: nat, t: real,
                                         func: string, depth: nat)
    requires lo <= hi <= |path| && Loose(s, path[..hi], t)
    ensures ClosedAt(s, CloseDownTo(s, path, hi, lo, t), path, hi, lo, t, func, depth)
    decreases hi
  {
    hide Loose, CloseFrame, ClosedAt;
    if hi == lo {
      ClosedAtStart(s, path, hi, t, func, depth);
    } else {
      var s1 := CloseFrame(s, path[hi - 1], hi - 1, t);
      CloseOneAt(s, path, hi, t, func, depth);
      ClosedIsLoose(s, s1, path, hi, hi - 1, t, func, depth);
      CloseDownToAt(s1, path, hi - 1, lo, t, func, depth);
      ClosedAtComposes(s, s1, CloseDownTo(s1, path, hi - 1, lo, t), path, hi, hi - 1, lo, t, func, depth);
    }
  }

  lemma OpenLoose(s: Merge, path: seq<string>, name: string, t: real, d: Option<real>, innermost: bool)
    requires Loose(s, path, t)
    ensures var s' := OpenFrame(s, name, |path|, t, d, innermost);
            && s'.node == s.node
            && Loose(s', path + [name], t)
            && SameStarts(s, s', path, path + [name], |path|)
            && StartOf(s', path + [name], |path|) == t
  {
    var s', path' := OpenFrame(s, name, |path|, t, d, innermost), path + [name];
    assert HoldsPath(s', path');
    forall i | 0 <= i < |path|
      ensures StartOf(s', path', i) == StartOf(s, path, i)
    {
      assert FrameKey(path[i], i) in s.tmp;
    }
    assert StartOf(s', path', |path|) == t;
    StartsStayInOrder(s, s', path, name, t);
  }

  /** Opening the frames of `next` from depth `i` inwards: the outer starts stay, the new ones
      are now. */
  ghost predicate OpenedFrom(s: Merge, s': Merge, next: seq<string>, i: nat, t: real)
    requires i <= |next|
  {
    && Loose(s, next[..i], t) && Loose(s', next, t)
    && s'.node == s.node
    && SameStarts(s, s', next[..i], next, i)
    && (forall j :: i <= j < |next| ==> StartOf(s', next, j) == t)
  }

  lemma {:induction false} OpenUpFromAt(s: Merge, next: seq<string>, i: nat, t: real, d: Option<real>)
    requires i <= |next| && Loose(s, next[..i], t)
    ensures OpenedFrom(s, OpenUpFrom(s, next, i, t, d), next, i, t)
    decreases |next| - i
  {
    if i == |next| {
      assert next[..i] == next;
    } else {
      var s1 := OpenFrame(s, next[i], i, t, d, i == |next| - 1);
      assert next[..i + 1] == next[..i] + [next[i]];
      OpenLoose(s, next[..i], next[i], t, d, i == |next| - 1);
      OpenUpFromAt(s1, next, i + 1, t, d);
      OpenedComposes(s, s1, OpenUpFrom(s1, next, i + 1, t, d), next, i, t);
    }
  }

  lemma OpenedComposes(s: Merge, s1: Merge, s2: Merge, next: seq<string>, i: nat, t: real)
    requires i < |next| && Loose(s, next[..i], t)
    requires Loose(s1, next[..i + 1], t) && s1.node == s.node
    requires SameStarts(s, s1, next[..i], next[..i + 1], i) && StartOf(s1, next[..i + 1], i) == t
    requires OpenedFrom(s1, s2, next, i + 1, t)
    ensures OpenedFrom(s, s2, next, i, t)
  {
    LooseHoldsPath(s2, next, t);
    hide Loose;
    forall j | i <= j < |next|
      ensures StartOf(s2, next, j) == t
    {
      assert j == i ==> StartOf(s2, next, j) == StartOf(s1, next[..i + 1], j);
    }
  }

  /** The frame of that name and depth is closed by the flow from `last` to `next`. */
  predicate Closes(last: seq<string>, next: seq<string>, func: string, depth: nat) {
    HasAt(last, func, depth) && Shared(last, next) <= depth
  }

  /** The whole of one call of `flow`, for one name and depth. */
  lemma FlowStepAt(s: Merge, last: seq<string>, next: seq<string>, t: real, d: Option<real>,
                   func: string, depth: nat)
    requires Loose(s, last, t)
    ensures var s', k := FlowStep(s, last, next, t, d), NodeKey(func, depth, t);
            && Loose(s', next, t)
            && SameStarts(s, s', last, next, Shared(last, next))
            && (forall j :: Shared(last, next) <= j < |next| ==> StartOf(s', next, j) == t)
            && MergedWidth(s'.node, func, depth) + NodeWidth(s.node, k) ==
               MergedWidth(s.node, func, depth) + NodeWidth(s'.node, k)
            && NodeWidth(s'.node, k) ==
               if Closes(last, next, func, depth) then t - StartOf(s, last, depth) else NodeWidth(s.node, k)
  {
    var same := Shared(last, next);
    assert last[..|last|] == last && last[..same] == next[..same];
    CloseDownToAt(s, last, |last|, same, t, func, depth);
    var s1 := CloseDownTo(s, last, |last|, same, t);
    OpenUpFromAt(s1, next, same, t, d);
    hide Loose, MergedWidth, NodeWidth;
    LooseHoldsPath(s1, next[..same], t);
  }
}
