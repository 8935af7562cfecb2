/** With positive counts the merged nodes form a laminar family. */
module FlameLaminar {
  import opened Options
  import opened FlameMerge
  import opened FlameShapes
  import opened FlameExact
  import opened FlameFrames
  import opened FlameNodes
  import FlameNesting

  /** Intervals are not empty, and those of one depth are pairwise disjoint. */
  ghost predicate Disjoint(node: map<NodeKey, Frame>)
    requires HasStarts(node)
  {
    && (forall k :: k in node ==> 0.0 <= node[k].stime.value < k.etime)
    && (forall k, l :: k in node && l in node && k.depth == l.depth && k != l ==> Apart(node, k, l))
  }

  /** The nodes form a laminar family: no frame is left open, every node found its start,
      intervals are not empty, those of one depth are disjoint, every node below the root lies
      in exactly one node one level out, and the only node at depth 0 is [0, total). */
  ghost predicate Laminar(node: map<NodeKey, Frame>, total: real) {
    && HasStarts(node) && Disjoint(node)
    && (forall k :: k in node ==> k.etime <= total)
    && (forall k :: k in node && k.depth > 0 ==> HasParent(node, k))
    && (forall k :: k in node && k.depth == 0 ==>
          k == NodeKey("", 0, total) && node[k].stime == Some(0.0))
  }

  /** With positive counts time always passes. */
  lemma {:induction false} TimePasses(lines: seq<Line>, a: nat, b: nat)
    requires PositiveCounts(lines) && a < b <= |lines|
    ensures Time(lines, a) < Time(lines, b)
  {
    TimeGoesOn(lines, a, b - 1);
    assert lines[..b][..b - 1] == lines[..b - 1];
  }

  /** So no frame is overwritten. */
  lemma EveryFrameIsLeft(lines: seq<Line>, func: string, depth: nat, i: nat, m: nat)
    requires PositiveCounts(lines) && IsFrame(lines, func, depth, i, m)
    ensures IsLeft(lines, func, depth, i, m)
  {
    hide Time, IsFrame;
    LaterFramesEndLater(lines, 0, func, depth);
    forall j: nat, e: nat | IsFrame(lines, func, depth, j, e) && m < j ensures Time(lines, e + 1) != Time(lines, m + 1) {
      TimePasses(lines, m + 1, e + 1);
    }
  }

  lemma FrameOfNode(lines: seq<Line>, k: NodeKey) returns (i: nat, m: nat)
    requires PositiveCounts(lines) && k in Merged(lines).node
    ensures IsLeft(lines, k.func, k.depth, i, m) && i <= m < |lines|
    ensures Time(lines, m + 1) == k.etime && Merged(lines).node[k].stime == Some(Time(lines, i))
    ensures Time(lines, i) < k.etime
  {
    hide Merged, Time, IsFrame;
    NodesAreFramesLeft(lines, k.func, k.depth, k.etime);
    LaterFramesEndLater(lines, 0, k.func, k.depth);
    i, m :| m < |lines| && IsLeft(lines, k.func, k.depth, i, m) && Time(lines, m + 1) == k.etime;
    TimePasses(lines, i, m + 1);
  }

  lemma NodesApart(lines: seq<Line>, k: NodeKey, l: NodeKey)
    requires PositiveCounts(lines) && HasStarts(Merged(lines).node)
    requires k in Merged(lines).node && l in Merged(lines).node && k.depth == l.depth && k != l
    ensures Apart(Merged(lines).node, k, l)
  {
    hide Merged, Time, IsFrame;
    var i, m := FrameOfNode(lines, k);
    var j, e := FrameOfNode(lines, l);
    FramesOfDepthApart(lines, k.func, l.func, k.depth, i, m, j, e);
    if m < j {
      TimeGoesOn(lines, m + 1, j);
    } else if e < i {
      TimeGoesOn(lines, e + 1, i);
    }
  }

  lemma NodeHasParent(lines: seq<Line>, k: NodeKey)
    requires PositiveCounts(lines) && HasStarts(Merged(lines).node) && k in Merged(lines).node && k.depth > 0
    ensures HasParent(Merged(lines).node, k)
  {
    hide Merged, Time, IsFrame, IsLeft;
    var i, m := FrameOfNode(lines, k);
    LeftIsFrame(lines, k.func, k.depth, i, m);
    var p, o, c := EnclosingFrame(lines, k.func, k.depth, i, m);
    EveryFrameIsLeft(lines, p, k.depth - 1, o, c);
    ParentIffFrameAroundIsLeft(lines, k.func, k.depth, i, m, p, o, c);
  }

  lemma LeftIsFrame(lines: seq<Line>, func: string, depth: nat, i: nat, m: nat)
    requires IsLeft(lines, func, depth, i, m)
    ensures IsFrame(lines, func, depth, i, m)
  {
  }

  lemma RootIsThere(lines: seq<Line>)
    requires PositiveCounts(lines) && lines != []
    ensures NodeKey("", 0, TotalWidth(lines)) in Merged(lines).node
  {
    hide Merged;
    var last: nat := |lines| - 1;
    forall k | 0 <= k < last ensures !BreaksAt(lines, k, 0) {
      assert lines[k].Frames()[0] == lines[k + 1].Frames()[0];
    }
    assert IsFrame(lines, "", 0, 0, last);
    EveryFrameIsLeft(lines, "", 0, 0, last);
    assert lines[..last + 1] == lines;
    NodesAreFramesLeft(lines, "", 0, TotalWidth(lines));
  }

  lemma MergeIsLaminar(lines: seq<Line>)
    requires PositiveCounts(lines)
    ensures Laminar(Merged(lines).node, TotalWidth(lines))
    ensures Merged(lines).tmp == map[]
    ensures lines != [] ==> NodeKey("", 0, TotalWidth(lines)) in Merged(lines).node
  {
    hide Merged, Time, IsFrame, IsLeft, HasParent, Apart, FlameNesting.AllNest;
    var node := Merged(lines).node;
    FlameNesting.MergeNests(lines);
    FlameNesting.TreeStarts(node, TotalWidth(lines));
    forall k | k in node ensures 0.0 <= node[k].stime.value < k.etime {
      var i, m := FrameOfNode(lines, k);
    }
    forall k, l | k in node && l in node && k.depth == l.depth && k != l ensures Apart(node, k, l) {
      NodesApart(lines, k, l);
    }
    forall k | k in node && k.depth > 0 ensures HasParent(node, k) {
      NodeHasParent(lines, k);
    }
    if lines != [] {
      RootIsThere(lines);
    }
  }

  /** A node has no second parent. */
  lemma ParentIsUnique(node: map<NodeKey, Frame>, total: real, k: NodeKey, p: NodeKey, q: NodeKey)
    requires Laminar(node, total) && k in node
    requires IsParent(node, p, k) && IsParent(node, q, k)
    ensures p == q
  {
    assert p != q ==> Apart(node, p, q);
  }

  /** Any two nodes are apart or one lies in the other, whatever their depths. */
  lemma {:induction false} NestedOrApart(node: map<NodeKey, Frame>, total: real, inner: NodeKey, outer: NodeKey)
    requires Laminar(node, total) && inner in node && outer in node && outer.depth <= inner.depth
    ensures Within(node, inner, outer) || Apart(node, inner, outer)
    decreases inner.depth
  {
    if inner.depth > outer.depth {
      var p :| IsParent(node, p, inner);
      NestedOrApart(node, total, p, outer);
    } else if inner != outer {
      assert Apart(node, inner, outer);
    }
  }

  /** Pruning never keeps a node whose parent it drops, so what is left is laminar again, with
      the same parents. */
  lemma PruningKeepsLaminar(node: map<NodeKey, Frame>, total: real, minWidth: real)
    requires Laminar(node, total)
    ensures var kept := Kept(node, minWidth);
            && Laminar(kept, total)
            && (forall k, p :: k in kept && IsParent(node, p, k) ==> p in kept && IsParent(kept, p, k))
  {
    var kept := Kept(node, minWidth);
    forall k, l | k in kept && l in kept && k.depth == l.depth && k != l
      ensures Apart(kept, k, l)
    {
      assert Apart(node, k, l);
    }
    forall k, p | k in kept && IsParent(node, p, k)
      ensures p in kept && IsParent(kept, p, k)
    {
    }
    forall k | k in kept && k.depth > 0
      ensures HasParent(kept, k)
    {
      assert HasParent(node, k);
      var p :| IsParent(node, p, k);
      assert IsParent(kept, p, k);
    }
  }
}
