/** The merge of flamegraph.pl: one pass over stacks, in the order given, that joins equal
    frames of neighbouring stacks into nodes. Times and counts are reals, exact.

    A frame name has no `;` (stacks are split there), so the strings "func;depth" and
    "func;depth;etime" that key the two hashes of the program are the tuples used here. */
module FlameMerge {
  import opened Options

  datatype FrameKey = FrameKey(func: string, depth: nat)

  datatype NodeKey = NodeKey(func: string, depth: nat, etime: real)

  /** A record of either hash; a field may be undefined. */
  datatype Frame = Frame(stime: Option<real>, delta: Option<real>)

  const UNDEFINED := Frame(None, None)

  /** `%Tmp`, the frames still open, and `%Node`, the finished ones. */
  datatype Merge = Merge(tmp: map<FrameKey, Frame>, node: map<NodeKey, Frame>)

  // ----- What one call of `flow` does -----

  function CloseFrame(s: Merge, func: string, depth: nat, v: real): Merge {
    var k, nk := FrameKey(func, depth), NodeKey(func, depth, v);
    var open := if k in s.tmp then s.tmp[k] else UNDEFINED;
    var prior := if nk in s.node then s.node[nk] else UNDEFINED;
    Merge(s.tmp - {k},
          s.node[nk := Frame(open.stime, if open.delta.Some? then open.delta else prior.delta)])
  }

  function OpenFrame(s: Merge, func: string, depth: nat, v: real, d: Option<real>, innermost: bool): Merge {
    var k := FrameKey(func, depth);
    var prior := if k in s.tmp then s.tmp[k] else UNDEFINED;
    var before := if prior.delta.Some? then prior.delta.value else 0.0;
    var delta := if d.Some? then Some(before + (if innermost then d.value else 0.0)) else prior.delta;
    s.(tmp := s.tmp[k := Frame(Some(v), delta)])
  }

  /** The number of frames two stacks share from the root. */
  function Shared(last: seq<string>, next: seq<string>): (n: nat)
    ensures n <= |last| && n <= |next|
    ensures last[..n] == next[..n]
    ensures n < |last| && n < |next| ==> last[n] != next[n]
  {
    if last == [] || next == [] || last[0] != next[0] then 0
    else
      var n := Shared(last[1..], next[1..]);
      assert last[..n + 1] == [last[0]] + last[1..][..n];
      assert next[..n + 1] == [next[0]] + next[1..][..n];
      n + 1
  }

  /** Closes the frames of `path` at depths below `hi`, innermost first, down to depth `lo`. */
  function CloseDownTo(s: Merge, path: seq<string>, hi: nat, lo: nat, v: real): Merge
    requires hi <= |path|
    decreases hi
  {
    if hi <= lo then s
    else CloseDownTo(CloseFrame(s, path[hi - 1], hi - 1, v), path, hi - 1, lo, v)
  }

  /** Opens the frames of `next` from depth `i` inwards. */
  function OpenUpFrom(s: Merge, next: seq<string>, i: nat, v: real, d: Option<real>): Merge
    decreases |next| - i
  {
    if i >= |next| then s
    else OpenUpFrom(OpenFrame(s, next[i], i, v, d, i == |next| - 1), next, i + 1, v, d)
  }

  function FlowStep(s: Merge, last: seq<string>, next: seq<string>, v: real, d: Option<real>): Merge {
    var same := Shared(last, next);
    OpenUpFrom(CloseDownTo(s, last, |last|, same, v), next, same, v, d)
  }

  // ----- The merge loop -----

  /** A parsed input line: the frames of the stack and its one or two sample columns. */
  datatype Line = Line(stack: seq<string>, samples: real, samples2: Option<real>) {
    /** The width the line adds. */
    function Width(): real {
      if samples2.Some? then samples2.value else samples
    }

    function Delta(): Option<real> {
      if samples2.Some? then Some(samples2.value - samples) else None
    }

    /** The stack under the root frame, whose name is empty. */
    function Frames(): seq<string> {
      [""] + stack
    }
  }

  /** The sum of the last columns. */
  function TotalWidth(lines: seq<Line>): real {
    if lines == [] then 0.0
    else
      var line := lines[|lines| - 1];
      TotalWidth(lines[..|lines| - 1]) + (if line.samples2.Some? then line.samples2.value else line.samples)
  }

  function LastFrames(lines: seq<Line>): seq<string> {
    if lines == [] then [] else lines[|lines| - 1].Frames()
  }

  /** The two hashes after the lines have flowed in, before the closing call. */
  function Flowed(lines: seq<Line>): Merge {
    if lines == [] then Merge(map[], map[])
    else
      var before, line := lines[..|lines| - 1], lines[|lines| - 1];
      FlowStep(Flowed(before), LastFrames(before), line.Frames(), TotalWidth(before), line.Delta())
  }

  /** The finished nodes: the closing call of `flow` with an empty stack closes every frame. */
  function Merged(lines: seq<Line>): Merge {
    var last := LastFrames(lines);
    CloseDownTo(Flowed(lines), last, |last|, 0, TotalWidth(lines))
  }

  // ----- Pruning -----

  /** Every finished node found its start. */
  ghost predicate HasStarts(node: map<NodeKey, Frame>) {
    forall k :: k in node ==> node[k].stime.Some?
  }

  /** The nodes at least `minWidth` wide. */
  function Kept(node: map<NodeKey, Frame>, minWidth: real): map<NodeKey, Frame> {
    map k | k in node && node[k].stime.Some? && k.etime - node[k].stime.value >= minWidth :: node[k]
  }

  /** `depthmax`: no kept node is deeper, and unless it is 0 some kept node is that deep. */
  ghost predicate IsDepthMax(kept: map<NodeKey, Frame>, depthMax: nat) {
    && (forall k :: k in kept ==> k.depth <= depthMax)
    && (depthMax > 0 ==> exists k :: k in kept && k.depth == depthMax)
  }

  /** The program's two hashes, updated in place. */
  class FlameGraph {
    var tmp: map<FrameKey, Frame>
    var node: map<NodeKey, Frame>

    constructor ()
      ensures State() == Merge(map[], map[])
    {
      tmp, node := map[], map[];
    }

    function State(): Merge
      reads this
    {
      Merge(tmp, node)
    }

    /** The body of the closing loop. */
    method Close(func: string, depth: nat, v: real)
      modifies this
      ensures State() == CloseFrame(old(State()), func, depth, v)
    {
      var k, nk := FrameKey(func, depth), NodeKey(func, depth, v);
      var open := if k in tmp then tmp[k] else UNDEFINED;
      var closing := if nk in node then node[nk] else UNDEFINED;
      closing := closing.(stime := open.stime);
      if open.delta.Some? {
        closing := closing.(delta := open.delta);
      }
      node := node[nk := closing];
      tmp := tmp - {k};
    }

    /** The body of the opening loop. */
    method Open(func: string, depth: nat, v: real, d: Option<real>, innermost: bool)
      modifies this
      ensures State() == OpenFrame(old(State()), func, depth, v, d, innermost)
    {
      var k := FrameKey(func, depth);
      var opening := if k in tmp then tmp[k] else UNDEFINED;
      opening := opening.(stime := Some(v));
      if d.Some? {
        var before := if opening.delta.Some? then opening.delta.value else 0.0;
        opening := opening.(delta := Some(before + (if innermost then d.value else 0.0)));
      }
      tmp := tmp[k := opening];
    }

    method Flow(last: seq<string>, next: seq<string>, v: real, d: Option<real>)
      modifies this
      ensures State() == FlowStep(old(State()), last, next, v, d)
    {
      hide CloseFrame, OpenFrame;
      var i := 0;
      while i < |last| && i < |next| && last[i] == next[i]
        invariant 0 <= i <= |last| && i <= |next|
        invariant Shared(last, next) == i + Shared(last[i..], next[i..])
      {
        i := i + 1;
      }
      var same := i;
      assert same == Shared(last, next);

      i := |last|;
      while i > same
        invariant same <= i <= |last|
        invariant CloseDownTo(State(), last, i, same, v) == CloseDownTo(old(State()), last, |last|, same, v)
      {
        i := i - 1;
        Close(last[i], i, v);
      }

      i := same;
      while i < |next|
        invariant same <= i <= |next|
        invariant OpenUpFrom(State(), next, i, v, d) ==
                  OpenUpFrom(CloseDownTo(old(State()), last, |last|, same, v), next, same, v, d)
      {
        Open(next[i], i, v, d, i == |next| - 1);
        i := i + 1;
      }
    }

    /** The merge loop and the closing call; returns the total time. */
    method MergeLines(lines: seq<Line>) returns (time: real)
      requires State() == Merge(map[], map[])
      modifies this
      ensures State() == Merged(lines)
      ensures time == TotalWidth(lines)
    {
      var last: seq<string> := [];
      time := 0.0;
      for n := 0 to |lines|
        invariant State() == Flowed(lines[..n])
        invariant last == LastFrames(lines[..n]) && time == TotalWidth(lines[..n])
      {
        var line := lines[n];
        assert lines[..n + 1][..n] == lines[..n];
        Flow(last, [""] + line.stack, time, line.Delta());
        last := [""] + line.stack;
        time := time + line.Width();
      }
      assert lines[..|lines|] == lines;
      Flow(last, [], time, None);
    }

    /** Visits the nodes in any order. Stops with nothing (`die`) exactly if one has no start. */
    method Prune(minWidth: real) returns (depthMax: Option<nat>)
      modifies this`node
      ensures depthMax.Some? <==> HasStarts(old(node))
      ensures depthMax.Some? ==> node == Kept(old(node), minWidth) && IsDepthMax(node, depthMax.value)
      ensures depthMax.Some? ==> forall k :: k in node <==>
                k in old(node) && old(node)[k].stime.Some? && k.etime - old(node)[k].stime.value >= minWidth
      ensures depthMax.Some? ==> forall k :: k in node ==> node[k] == old(node)[k]
    {
      var todo, deepest := node.Keys, 0;
      while todo != {}
        invariant todo <= node.Keys <= old(node).Keys
        invariant forall k :: k in node ==> node[k] == old(node)[k]
        invariant forall k :: k in old(node) && k !in todo ==> old(node)[k].stime.Some?
        invariant forall k :: k in old(node) && k !in todo ==>
                    (k in node <==> k.etime - old(node)[k].stime.value >= minWidth)
        invariant forall k :: k in node && k !in todo ==> k.depth <= deepest
        invariant deepest > 0 ==> exists k :: k in node && k !in todo && k.depth == deepest
        decreases todo
      {
        var id :| id in todo;
        todo := todo - {id};
        if node[id].stime.None? {
          return None;
        }
        if id.etime - node[id].stime.value < minWidth {
          node := node - {id};
        } else {
          if id.depth > deepest {
            deepest := id.depth;
          }
        }
      }
      depthMax := Some(deepest);
    }
  }
}
