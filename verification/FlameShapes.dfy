/** The open frames and the finished nodes, as they stand between any two openings and closings. */
module FlameShapes {
  import opened FlameMerge

  /** `%Tmp` holds exactly the frames of `path`, each with a start. */
  ghost predicate HoldsPath(s: Merge, path: seq<string>) {
    && (forall k :: k in s.tmp <==> k.depth < |path| && path[k.depth] == k.func)
    && (forall k :: k in s.tmp ==> s.tmp[k].stime.Some?)
  }

  ghost function StartOf(s: Merge, path: seq<string>, i: nat): real
    requires HoldsPath(s, path) && i < |path|
  {
    s.tmp[FrameKey(path[i], i)].stime.value
  }

  /** Interval `inner` lies in interval `outer`. */
  ghost predicate Within(node: map<NodeKey, Frame>, inner: NodeKey, outer: NodeKey)
    requires HasStarts(node) && inner in node && outer in node
  {
    node[outer].stime.value <= node[inner].stime.value && inner.etime <= outer.etime
  }

  ghost predicate Apart(node: map<NodeKey, Frame>, k: NodeKey, l: NodeKey)
    requires HasStarts(node) && k in node && l in node
  {
    k.etime <= node[l].stime.value || l.etime <= node[k].stime.value
  }

  ghost predicate IsParent(node: map<NodeKey, Frame>, p: NodeKey, k: NodeKey)
    requires HasStarts(node) && k in node
  {
    p in node && p.depth + 1 == k.depth && Within(node, k, p)
  }

  ghost predicate HasParent(node: map<NodeKey, Frame>, k: NodeKey)
    requires HasStarts(node) && k in node
  {
    exists p :: IsParent(node, p, k)
  }

  /** Open frames started no later than those inside them, and none after time `t`. */
  ghost predicate StartsInOrder(s: Merge, path: seq<string>, t: real)
    requires HoldsPath(s, path)
  {
    && 0.0 <= t
    && (forall i :: 0 <= i < |path| ==> 0.0 <= StartOf(s, path, i) <= t)
    && (forall i, j :: 0 <= i <= j < |path| ==> StartOf(s, path, i) <= StartOf(s, path, j))
  }

  /** Finished nodes ended by time `t`, and before the open frame of their depth started. */
  ghost predicate EndsInOrder(s: Merge, path: seq<string>, t: real)
    requires HoldsPath(s, path)
  {
    && (forall k :: k in s.node ==> k.etime <= t)
    && (forall k :: k in s.node && k.depth < |path| ==> k.etime <= StartOf(s, path, k.depth))
  }

  lemma StartsStayInOrder(s: Merge, s': Merge, path: seq<string>, name: string, t: real)
    requires HoldsPath(s, path) && HoldsPath(s', path + [name])
    requires StartsInOrder(s, path, t)
    requires forall i :: 0 <= i < |path| ==> StartOf(s', path + [name], i) == StartOf(s, path, i)
    requires StartOf(s', path + [name], |path|) == t
    ensures StartsInOrder(s', path + [name], t)
  {
    var path' := path + [name];
    forall i | 0 <= i < |path'|
      ensures 0.0 <= StartOf(s', path', i) <= t
    {
      assert i < |path| ==> 0.0 <= StartOf(s, path, i) <= t;
    }
    forall i, j | 0 <= i <= j < |path'|
      ensures StartOf(s', path', i) <= StartOf(s', path', j)
    {
      assert j < |path| ==> StartOf(s, path, i) <= StartOf(s, path, j);
    }
  }

  lemma NothingFlowed(lines: seq<Line>)
    ensures LastFrames(lines) == [] ==> TotalWidth(lines) == 0.0 && Flowed(lines).node == map[]
  {
  }

  lemma {:induction false} CloseDownToSplits(s: Merge, path: seq<string>, hi: nat, mid: nat, t: real)
    requires mid <= hi <= |path|
    ensures CloseDownTo(s, path, hi, 0, t) == CloseDownTo(CloseDownTo(s, path, hi, mid, t), path, mid, 0, t)
    decreases hi
  {
    if hi > mid {
      CloseDownToSplits(CloseFrame(s, path[hi - 1], hi - 1, t), path, hi - 1, mid, t);
    }
  }
}
