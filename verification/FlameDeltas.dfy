/** The deltas of a differential profile through the merge. A stack's delta goes with the innermost
    frame it opens; it is lost if the stack opens none, or if the frame's node is overwritten. */
module FlameDeltas {
  import opened Options
  import opened MapSums
  import opened FlameMerge
  import opened FlameWidths
  import opened FlameExact
  import opened FlameFrames

  function OrZero(d: Option<real>): real {
    if d.Some? then d.value else 0.0
  }

  /** The delta of a node, counted for one name at one depth. */
  ghost function DeltaAt(func: string, depth: nat): (NodeKey, Frame) -> real {
    (k: NodeKey, n: Frame) => if k.func == func && k.depth == depth then OrZero(n.delta) else 0.0
  }

  // ----- One name and depth in the hashes -----

  /** The summed deltas of the nodes, the delta of the open frame, and that of the node which the
      open frame would overwrite if it closed now. */
  datatype View = View(sum: real, open: Option<real>, held: Option<real>) {
    function Closed(): View {
      var left := if open.Some? then open else held;
      View(sum + OrZero(left) - OrZero(held), None, left)
    }
  }

  ghost function ViewOf(s: Merge, path: seq<string>, t: real, func: string, depth: nat): View {
    var f, k := FrameKey(func, depth), NodeKey(func, depth, t);
    View(Sum(s.node, DeltaAt(func, depth)),
         if HasAt(path, func, depth) && f in s.tmp then s.tmp[f].delta else None,
         if k in s.node then s.node[k].delta else None)
  }

  lemma CloseView(s: Merge, path: seq<string>, name: string, t: real, func: string, depth: nat)
    requires Loose(s, path + [name], t)
    ensures var v, s' := ViewOf(s, path + [name], t, func, depth), CloseFrame(s, name, |path|, t);
            ViewOf(s', path, t, func, depth) == if |path| == depth && name == func then v.Closed() else v
  {
    hide Sum, Loose;
    var s', nk, k := CloseFrame(s, name, |path|, t), NodeKey(name, |path|, t), FrameKey(name, |path|);
    LooseHoldsPath(s, path + [name], t);
    assert k in s.tmp by { assert (path + [name])[k.depth] == k.func; }
    SumUpdate(s.node, DeltaAt(func, depth), nk, s'.node[nk]);
  }

  lemma {:induction false} CloseDownToView(s: Merge, path: seq<string>, hi: nat, lo: nat, t: real, func: string, depth: nat)
    requires lo <= hi <= |path| && Loose(s, path[..hi], t)
    ensures var v, s' := ViewOf(s, path[..hi], t, func, depth), CloseDownTo(s, path, hi, lo, t);
            ViewOf(s', path[..lo], t, func, depth) == if lo <= depth < hi && path[depth] == func then v.Closed() else v
    decreases hi
  {
    hide Loose, CloseFrame, ViewOf;
    if hi > lo {
      var path' := path[..hi - 1];
      assert path[..hi] == path' + [path[hi - 1]];
      CloseView(s, path', path[hi - 1], t, func, depth);
      CloseLoose(s, path', path[hi - 1], t);
      CloseDownToView(CloseFrame(s, path[hi - 1], hi - 1, t), path, hi - 1, lo, t, func, depth);
    }
  }

  /** The delta that a stack gives to a frame it opens. */
  function GivenBy(d: Option<real>, innermost: bool): Option<real> {
    if d.Some? then Some(if innermost then d.value else 0.0) else None
  }

  lemma OpenView(s: Merge, path: seq<string>, name: string, t: real, d: Option<real>, innermost: bool,
                 func: string, depth: nat)
    requires Loose(s, path, t)
    ensures var v, s' := ViewOf(s, path, t, func, depth), OpenFrame(s, name, |path|, t, d, innermost);
            ViewOf(s', path + [name], t, func, depth) ==
            if |path| == depth && name == func then v.(open := GivenBy(d, innermost)) else v
  {
    hide Sum, Loose;
    LooseHoldsPath(s, path, t);
    assert FrameKey(name, |path|) !in s.tmp;
  }

  lemma {:induction false} OpenUpFromView(s: Merge, next: seq<string>, i: nat, t: real, d: Option<real>,
                                          func: string, depth: nat)
    requires i <= |next| && Loose(s, next[..i], t)
    ensures var v, s' := ViewOf(s, next[..i], t, func, depth), OpenUpFrom(s, next, i, t, d);
            ViewOf(s', next, t, func, depth) ==
            if i <= depth < |next| && next[depth] == func then v.(open := GivenBy(d, depth == |next| - 1)) else v
    decreases |next| - i
  {
    hide Loose, OpenFrame, ViewOf;
    if i == |next| {
      assert next[..i] == next;
    } else {
      var innermost := i == |next| - 1;
      assert next[..i + 1] == next[..i] + [next[i]];
      OpenView(s, next[..i], next[i], t, d, innermost, func, depth);
      OpenLoose(s, next[..i], next[i], t, d, innermost);
      OpenUpFromView(OpenFrame(s, next[i], i, t, d, innermost), next, i + 1, t, d, func, depth);
    }
  }

  /** The frame may close, may be opened again, and then time `w` passes. */
  function Step(v: View, closes: bool, opens: bool, given: Option<real>, w: real): View {
    var v1 := if closes then v.Closed() else v;
    var v2 := if opens then v1.(open := given) else v1;
    if w > 0.0 then v2.(held := None) else v2
  }

  /** One call of `flow`, and the time `w` that passes after it. */
  function Flow(v: View, last: seq<string>, next: seq<string>, d: Option<real>, w: real, func: string, depth: nat): View {
    Step(v, Closes(last, next, func, depth), HasAt(next, func, depth) && Shared(last, next) <= depth,
         GivenBy(d, depth == |next| - 1), w)
  }

  lemma FlowStepView(s: Merge, last: seq<string>, next: seq<string>, t: real, d: Option<real>, w: real,
                     func: string, depth: nat)
    requires Loose(s, last, t) && w >= 0.0
    ensures var s' := FlowStep(s, last, next, t, d);
            && Loose(s', next, t + w)
            && ViewOf(s', next, t + w, func, depth) == Flow(ViewOf(s, last, t, func, depth), last, next, d, w, func, depth)
  {
    hide Loose, Shared, CloseDownTo, OpenUpFrom, ViewOf;
    var same := Shared(last, next);
    var s1 := CloseDownTo(s, last, |last|, same, t);
    assert last[..|last|] == last && last[..same] == next[..same];
    CloseDownToView(s, last, |last|, same, t, func, depth);
    CloseDownToAt(s, last, |last|, same, t, func, depth);
    ClosedIsLoose(s, s1, last, |last|, same, t, func, depth);
    OpenUpFromView(s1, next, same, t, d, func, depth);
    FlowStepAt(s, last, next, t, d, func, depth);
    LaterIsLoose(FlowStep(s, last, next, t, d), next, t, w);
    LaterView(FlowStep(s, last, next, t, d), next, t, w, func, depth);
  }

  lemma LaterView(s: Merge, path: seq<string>, t: real, w: real, func: string, depth: nat)
    requires Loose(s, path, t) && w >= 0.0
    ensures var v := ViewOf(s, path, t, func, depth);
            ViewOf(s, path, t + w, func, depth) == if w > 0.0 then v.(held := None) else v
  {
    hide Sum;
  }

  // ----- The same, read off the input -----

  /** The delta that stack j gives to the frame it opens at that depth. */
  function Given(lines: seq<Line>, j: nat, depth: nat): Option<real>
    requires j < |lines|
  {
    GivenBy(lines[j].Delta(), depth == |lines[j].stack|)
  }

  /** The opener of the frame whose delta is held by the node that ends now, if any. */
  function Holder(lines: seq<Line>, func: string, depth: nat): (h: Option<nat>)
    ensures h.Some? ==> h.value < |lines|
  {
    if lines == [] || lines[|lines| - 1].Width() > 0.0 then None
    else
      var before := lines[..|lines| - 1];
      if Redefines(before, lines[|lines| - 1].Frames(), func, depth) then Some(Opener(before, depth))
      else Holder(before, func, depth)
  }

  /** The frame closes before `next`, with a delta. */
  predicate Redefines(before: seq<Line>, next: seq<string>, func: string, depth: nat) {
    && before != [] && Closes(LastFrames(before), next, func, depth)
    && GivesDelta(before, Opener(before, depth))
  }

  predicate GivesDelta(lines: seq<Line>, j: nat)
    requires j < |lines|
  {
    lines[j].samples2.Some?
  }

  /** What the deltas given at that name and depth come to, less those overwritten. */
  function Balance(lines: seq<Line>, func: string, depth: nat): real {
    if lines == [] then 0.0
    else
      var before, next := lines[..|lines| - 1], lines[|lines| - 1].Frames();
      Balance(before, func, depth)
      - (if Redefines(before, next, func, depth) then HeldValue(before, func, depth) else 0.0)
      + (if HasAt(next, func, depth) && Shared(LastFrames(before), next) <= depth then
           OrZero(Given(lines, |lines| - 1, depth)) else 0.0)
  }

  function HeldValue(lines: seq<Line>, func: string, depth: nat): real {
    var h := Holder(lines, func, depth);
    if h.Some? then OrZero(Given(lines, h.value, depth)) else 0.0
  }

  function ExpectedOpen(lines: seq<Line>, func: string, depth: nat): Option<real> {
    if HasAt(LastFrames(lines), func, depth) then Given(lines, Opener(lines, depth), depth) else None
  }

  function ExpectedHeld(lines: seq<Line>, func: string, depth: nat): Option<real> {
    var h := Holder(lines, func, depth);
    if h.Some? then Given(lines, h.value, depth) else None
  }

  ghost predicate Agrees(v: View, lines: seq<Line>, func: string, depth: nat) {
    && v.open == ExpectedOpen(lines, func, depth)
    && v.held == ExpectedHeld(lines, func, depth)
    && v.sum + OrZero(v.open) == Balance(lines, func, depth)
  }

  lemma OpenNext(lines: seq<Line>, func: string, depth: nat)
    requires lines != []
    ensures var before, next := lines[..|lines| - 1], lines[|lines| - 1].Frames();
            ExpectedOpen(lines, func, depth) ==
            if !HasAt(next, func, depth) then None
            else if Shared(LastFrames(before), next) <= depth then Given(lines, |lines| - 1, depth)
            else ExpectedOpen(before, func, depth)
  {
    hide Shared;
    var before, next := lines[..|lines| - 1], lines[|lines| - 1].Frames();
    var last := LastFrames(before);
    if before == [] {
      NothingShared(next);
    } else {
      assert BreaksAt(lines, |lines| - 2, depth) <==> Shared(last, next) <= depth;
      if depth < Shared(last, next) {
        SharedName(last, next, func, depth);
        assert Given(lines, Opener(before, depth), depth) == Given(before, Opener(before, depth), depth);
      }
    }
  }

  lemma HeldNext(lines: seq<Line>, func: string, depth: nat)
    requires lines != [] && NonNegative(lines)
    ensures var before, line := lines[..|lines| - 1], lines[|lines| - 1];
            ExpectedHeld(lines, func, depth) ==
            if line.Width() > 0.0 then None
            else if Redefines(before, line.Frames(), func, depth) then ExpectedOpen(before, func, depth)
            else ExpectedHeld(before, func, depth)
  {
    hide Shared, Opener;
    var before := lines[..|lines| - 1];
    assert forall j :: 0 <= j < |before| ==> Given(lines, j, depth) == Given(before, j, depth);
  }

  lemma FlowAgrees(v: View, lines: seq<Line>, func: string, depth: nat)
    requires lines != [] && NonNegative(lines) && Agrees(v, lines[..|lines| - 1], func, depth)
    ensures var last, line := LastFrames(lines[..|lines| - 1]), lines[|lines| - 1];
            Agrees(Flow(v, last, line.Frames(), line.Delta(), line.Width(), func, depth), lines, func, depth)
  {
    hide Shared, Opener, Holder, ExpectedHeld, ExpectedOpen, Redefines, HeldValue, LastFrames, Step, Given, HasAt;
    var before, line := lines[..|lines| - 1], lines[|lines| - 1];
    var last, next := LastFrames(before), line.Frames();
    OpenNext(lines, func, depth);
    HeldNext(lines, func, depth);
    HeldIsValue(before, func, depth);
    GivenIs(lines, depth);
    if depth < Shared(last, next) {
      SharedName(last, next, func, depth);
    }
    RedefinesWhenOpen(before, next, func, depth);
    StepAgrees(v, HasAt(last, func, depth), HasAt(next, func, depth), depth < Shared(last, next),
               Given(lines, |lines| - 1, depth), line.Width());
  }

  lemma GivenIs(lines: seq<Line>, depth: nat)
    requires lines != []
    ensures var line := lines[|lines| - 1];
            Given(lines, |lines| - 1, depth) == GivenBy(line.Delta(), depth == |line.Frames()| - 1)
  {
  }

  /** The frame was there before, is there after, and is kept if so. */
  lemma StepAgrees(v: View, before: bool, after: bool, keeps: bool, given: Option<real>, w: real)
    requires keeps ==> before == after
    requires v.open.Some? ==> before
    ensures var v' := Step(v, before && !keeps, after && !keeps, given, w);
            var redefines := before && !keeps && v.open.Some?;
            && v'.open == (if !after then None else if !keeps then given else v.open)
            && v'.held == (if w > 0.0 then None else if redefines then v.open else v.held)
            && v'.sum + OrZero(v'.open) ==
               v.sum + OrZero(v.open) - (if redefines then OrZero(v.held) else 0.0)
               + (if after && !keeps then OrZero(given) else 0.0)
  {
  }

  lemma HeldIsValue(lines: seq<Line>, func: string, depth: nat)
    ensures HeldValue(lines, func, depth) == OrZero(ExpectedHeld(lines, func, depth))
  {
  }

  lemma RedefinesWhenOpen(before: seq<Line>, next: seq<string>, func: string, depth: nat)
    ensures Redefines(before, next, func, depth) <==>
              Closes(LastFrames(before), next, func, depth) && ExpectedOpen(before, func, depth).Some?
    ensures ExpectedOpen(before, func, depth).Some? ==> HasAt(LastFrames(before), func, depth)
  {
  }

  lemma {:induction false} FlowedAgrees(lines: seq<Line>, func: string, depth: nat)
    requires NonNegative(lines)
    ensures Loose(Flowed(lines), LastFrames(lines), TotalWidth(lines))
    ensures Agrees(ViewOf(Flowed(lines), LastFrames(lines), TotalWidth(lines), func, depth), lines, func, depth)
    decreases |lines|
  {
    hide Loose, FlowStep, ViewOf, Agrees, Flow;
    if lines == [] {
      NothingAgrees(func, depth);
    } else {
      var before, line := lines[..|lines| - 1], lines[|lines| - 1];
      FlowedAgrees(before, func, depth);
      var v := ViewOf(Flowed(before), LastFrames(before), TotalWidth(before), func, depth);
      FlowStepView(Flowed(before), LastFrames(before), line.Frames(), TotalWidth(before), line.Delta(), line.Width(),
                   func, depth);
      FlowAgrees(v, lines, func, depth);
    }
  }

  lemma NothingAgrees(func: string, depth: nat)
    ensures Loose(Merge(map[], map[]), [], 0.0)
    ensures Agrees(ViewOf(Merge(map[], map[]), [], 0.0, func, depth), [], func, depth)
  {
    SumOfNothing(DeltaAt(func, depth));
  }

  /** The deltas of the nodes of that name and depth, when all is closed. */
  lemma MergedBalance(lines: seq<Line>, func: string, depth: nat)
    requires NonNegative(lines)
    ensures Sum(Merged(lines).node, DeltaAt(func, depth)) ==
            Balance(lines, func, depth) - (if Redefines(lines, [], func, depth) then HeldValue(lines, func, depth) else 0.0)
  {
    hide Loose, ViewOf, Opener, Holder, Balance, Flowed, CloseDownTo;
    var s, last, t := Flowed(lines), LastFrames(lines), TotalWidth(lines);
    FlowedAgrees(lines, func, depth);
    assert last[..|last|] == last && last[..0] == [];
    CloseDownToView(s, last, |last|, 0, t, func, depth);
    SumInView(s, last, t, func, depth);
    SumInView(Merged(lines), [], t, func, depth);
    assert Shared(last, []) == 0;
    var v := ViewOf(s, last, t, func, depth);
    assert HasAt(last, func, depth) && v.open.Some? <==> Redefines(lines, [], func, depth);
  }

  lemma SumInView(s: Merge, path: seq<string>, t: real, func: string, depth: nat)
    ensures ViewOf(s, path, t, func, depth).sum == Sum(s.node, DeltaAt(func, depth))
    ensures !HasAt(path, func, depth) ==> ViewOf(s, path, t, func, depth).open == None
  {
  }

  // ----- The same in terms of positions -----

  predicate NoTimeBetween(lines: seq<Line>, m: nat, e: nat)
    requires e <= |lines|
  {
    forall k :: m < k < e ==> lines[k].Width() == 0.0
  }

  /** The frame from i to m is followed by one from j to e of the same name and depth that has a
      delta and closes at the same time. */
  predicate Replaces(lines: seq<Line>, func: string, depth: nat, i: nat, m: nat, j: nat, e: nat) {
    && IsFrame(lines, func, depth, i, m) && IsFrame(lines, func, depth, j, e) && m < j
    && GivesDelta(lines, j) && NoTimeBetween(lines, m, e + 1)
  }

  ghost predicate ReplacedBy(lines: seq<Line>, n: nat, func: string, depth: nat, i: nat) {
    exists m: nat, j: nat, e: nat :: Replaces(lines, func, depth, i, m, j, e) && e + 1 < n
  }

  /** The frame of stack i is what the node that ends after stack n - 1 got its delta from. */
  ghost predicate HoldsAfter(lines: seq<Line>, n: nat, func: string, depth: nat, i: nat, m: nat) {
    && m + 1 < n <= |lines|
    && IsFrame(lines, func, depth, i, m) && GivesDelta(lines, i) && NoTimeBetween(lines, m, n)
    && (forall j: nat, e: nat :: IsFrame(lines, func, depth, j, e) && m < j && e + 1 < n ==> !GivesDelta(lines, j))
  }

  ghost predicate Holds(lines: seq<Line>, n: nat, func: string, depth: nat, i: nat) {
    exists m: nat :: HoldsAfter(lines, n, func, depth, i, m)
  }

  /** With n stacks in, the frame closes with a delta. */
  predicate RedefinesAt(lines: seq<Line>, n: nat, func: string, depth: nat)
    requires n <= |lines|
  {
    && n > 0 && ClosesAt(lines, n - 1, depth) && HasAt(lines[n - 1].Frames(), func, depth)
    && GivesDelta(lines, Opener(lines[..n], depth))
  }

  lemma RedefinesMeans(lines: seq<Line>, n: nat, func: string, depth: nat)
    requires n <= |lines|
    ensures n < |lines| ==> (Redefines(lines[..n], lines[n].Frames(), func, depth) <==> RedefinesAt(lines, n, func, depth))
    ensures n == |lines| ==> (Redefines(lines[..n], [], func, depth) <==> RedefinesAt(lines, n, func, depth))
  {
    hide Shared, Opener;
    assert lines[..|lines|] == lines;
    if n > 0 {
      assert LastFrames(lines[..n]) == lines[n - 1].Frames();
      NothingSharedAfter(lines[n - 1].Frames());
    }
  }

  lemma FrameRedefines(lines: seq<Line>, n: nat, func: string, depth: nat, j: nat)
    requires 0 < n <= |lines| && IsFrame(lines, func, depth, j, n - 1) && GivesDelta(lines, j)
    ensures RedefinesAt(lines, n, func, depth)
  {
    hide BreaksAt, Opener, HasAt;
    NameStays(lines, j, n - 1, func, depth);
    OpenedFrame(lines, n, func, depth, j);
  }

  lemma HolderUnfolds(lines: seq<Line>, n: nat, func: string, depth: nat)
    requires 0 < n <= |lines|
    ensures Holder(lines[..n], func, depth) ==
            if lines[n - 1].Width() > 0.0 then None
            else if RedefinesAt(lines, n - 1, func, depth) then Some(Opener(lines[..n - 1], depth))
            else Holder(lines[..n - 1], func, depth)
  {
    hide Redefines, RedefinesAt, Opener;
    assert lines[..n][..n - 1] == lines[..n - 1];
    RedefinesMeans(lines, n - 1, func, depth);
  }

  /** The frame that closes after stack n - 2 with a delta, with no time after it, is the holder. */
  lemma NewHolder(lines: seq<Line>, n: nat, func: string, depth: nat, i: nat)
    requires 0 < n <= |lines| && lines[n - 1].Width() == 0.0 && RedefinesAt(lines, n - 1, func, depth)
    ensures i == Opener(lines[..n - 1], depth) <==> Holds(lines, n, func, depth, i)
  {
    hide BreaksAt, Opener, HasAt, IsFrame;
    var o := Opener(lines[..n - 1], depth);
    OpenedFrame(lines, n - 1, func, depth, o);
    LaterFramesEndLater(lines, n, func, depth);
    if i == o {
      assert HoldsAfter(lines, n, func, depth, i, n - 2);
    }
    if m: nat :| HoldsAfter(lines, n, func, depth, i, m) {
      if m == n - 2 {
        OpenedFrame(lines, n - 1, func, depth, i);
      } else {
        FramesApart(lines, func, depth, i, m, o, n - 2);
        assert false;
      }
    }
  }

  /** Nothing changes hands when no frame closes with a delta. */
  lemma SameHolder(lines: seq<Line>, n: nat, func: string, depth: nat, i: nat, m: nat)
    requires 0 < n <= |lines| && lines[n - 1].Width() == 0.0 && !RedefinesAt(lines, n - 1, func, depth)
    ensures HoldsAfter(lines, n, func, depth, i, m) <==> HoldsAfter(lines, n - 1, func, depth, i, m)
  {
    hide IsFrame, RedefinesAt;
    LaterFramesEndLater(lines, n, func, depth);
    forall j: nat, e: nat | j < |lines| && IsFrame(lines, func, depth, j, e) && e + 2 == n ensures !GivesDelta(lines, j) {
      if GivesDelta(lines, j) {
        FrameRedefines(lines, n - 1, func, depth, j);
      }
    }
  }

  lemma SameHolders(lines: seq<Line>, n: nat, func: string, depth: nat, i: nat)
    requires 0 < n <= |lines| && lines[n - 1].Width() == 0.0 && !RedefinesAt(lines, n - 1, func, depth)
    ensures Holds(lines, n, func, depth, i) <==> Holds(lines, n - 1, func, depth, i)
  {
    hide RedefinesAt, HoldsAfter;
    var before: nat := n - 1;
    forall m: nat ensures HoldsAfter(lines, n, func, depth, i, m) <==> HoldsAfter(lines, before, func, depth, i, m) {
      SameHolder(lines, n, func, depth, i, m);
    }
    assert Holds(lines, n, func, depth, i) <==> Holds(lines, before, func, depth, i);
  }

  lemma {:induction false} HolderMeans(lines: seq<Line>, n: nat, func: string, depth: nat, i: nat)
    requires NonNegative(lines) && n <= |lines|
    ensures Holder(lines[..n], func, depth) == Some(i) <==> Holds(lines, n, func, depth, i)
    decreases n
  {
    hide Holder, RedefinesAt, IsFrame, Opener;
    if n > 0 {
      HolderUnfolds(lines, n, func, depth);
      if lines[n - 1].Width() == 0.0 {
        if RedefinesAt(lines, n - 1, func, depth) {
          NewHolder(lines, n, func, depth, i);
        } else {
          HolderMeans(lines, n - 1, func, depth, i);
          SameHolders(lines, n, func, depth, i);
        }
      }
    } else {
      NobodyHolds(func, depth);
    }
  }

  lemma NobodyHolds(func: string, depth: nat)
    ensures Holder([], func, depth) == None
  {
  }

  lemma HolderIsUnreplaced(lines: seq<Line>, n: nat, func: string, depth: nat, i: nat, m: nat)
    requires HoldsAfter(lines, n, func, depth, i, m)
    ensures !ReplacedBy(lines, n, func, depth, i)
  {
    hide IsFrame;
    forall m': nat, j: nat, e: nat | Replaces(lines, func, depth, i, m', j, e) ensures e + 1 >= n {
      FramesApart(lines, func, depth, i, m, i, m');
    }
  }

  /** One more closing replaces the holder, if the frame that closes has a delta. */
  lemma ReplacedNext(lines: seq<Line>, n: nat, func: string, depth: nat, i: nat)
    requires NonNegative(lines) && i < n <= |lines| && GivesDelta(lines, i)
    ensures ReplacedBy(lines, n + 1, func, depth, i) <==>
            || ReplacedBy(lines, n, func, depth, i)
            || (RedefinesAt(lines, n, func, depth) && Holder(lines[..n], func, depth) == Some(i))
  {
    hide IsFrame, RedefinesAt, Holder, Opener;
    HolderMeans(lines, n, func, depth, i);
    if ReplacedBy(lines, n + 1, func, depth, i) && !ReplacedBy(lines, n, func, depth, i) {
      var m: nat, j: nat, e: nat :| Replaces(lines, func, depth, i, m, j, e) && e + 1 < n + 1;
      LastReplacement(lines, n, func, depth, i, m, j, e);
    }
    if RedefinesAt(lines, n, func, depth) && Holder(lines[..n], func, depth) == Some(i) {
      var m: nat :| HoldsAfter(lines, n, func, depth, i, m);
      HolderIsReplaced(lines, n, func, depth, i, m);
    }
  }

  lemma LastReplacement(lines: seq<Line>, n: nat, func: string, depth: nat, i: nat, m: nat, j: nat, e: nat)
    requires i < n <= |lines| && GivesDelta(lines, i) && !ReplacedBy(lines, n, func, depth, i)
    requires Replaces(lines, func, depth, i, m, j, e) && e + 1 < n + 1
    ensures RedefinesAt(lines, n, func, depth) && HoldsAfter(lines, n, func, depth, i, m)
  {
    hide IsFrame, RedefinesAt;
    FrameInside(lines, func, depth, j, e);
    assert e + 1 == n;
    FrameRedefines(lines, n, func, depth, j);
    LaterFramesEndLater(lines, n, func, depth);
    forall j': nat, e': nat | j' < |lines| && IsFrame(lines, func, depth, j', e') && m < j' && e' + 1 < n
      ensures !GivesDelta(lines, j')
    {
      assert GivesDelta(lines, j') ==> Replaces(lines, func, depth, i, m, j', e');
    }
  }

  lemma HolderIsReplaced(lines: seq<Line>, n: nat, func: string, depth: nat, i: nat, m: nat)
    requires n <= |lines| && RedefinesAt(lines, n, func, depth) && HoldsAfter(lines, n, func, depth, i, m)
    ensures ReplacedBy(lines, n + 1, func, depth, i)
  {
    hide IsFrame, BreaksAt, HasAt, Opener;
    var j := Opener(lines[..n], depth);
    OpenedFrame(lines, n, func, depth, j);
    FramesApart(lines, func, depth, i, m, j, n - 1);
    assert Replaces(lines, func, depth, i, m, j, n - 1);
  }

  // ----- The sums -----

  /** How much the second column is above the first, where there are two. */
  function Change(line: Line): real {
    if line.samples2.Some? then line.samples2.value - line.samples else 0.0
  }

  /** Stack i opens this as its innermost frame, and has a delta. */
  predicate Shows(lines: seq<Line>, func: string, depth: nat, i: nat)
    requires i < |lines|
  {
    && depth == |lines[i].stack| && HasAt(lines[i].Frames(), func, depth)
    && OpensAt(lines, i, depth) && GivesDelta(lines, i)
  }

  /** The deltas of the first c stacks that are shown there and not replaced by n closings. */
  ghost function KeptDelta(lines: seq<Line>, n: nat, func: string, depth: nat, c: nat): real
    requires c <= |lines|
  {
    if c == 0 then 0.0
    else
      KeptDelta(lines, n, func, depth, c - 1)
      + (if Shows(lines, func, depth, c - 1) && !ReplacedBy(lines, n, func, depth, c - 1) then
           Change(lines[c - 1]) else 0.0)
  }

  lemma HolderShows(lines: seq<Line>, n: nat, func: string, depth: nat, i: nat)
    requires NonNegative(lines) && n <= |lines| && Holder(lines[..n], func, depth) == Some(i)
    ensures i < |lines| && !ReplacedBy(lines, n, func, depth, i)
    ensures (if Shows(lines, func, depth, i) then Change(lines[i]) else 0.0) == OrZero(Given(lines, i, depth))
  {
    hide Holder, ReplacedBy, BreaksAt;
    HolderMeans(lines, n, func, depth, i);
    var m: nat :| HoldsAfter(lines, n, func, depth, i, m);
    HolderIsUnreplaced(lines, n, func, depth, i, m);
  }

  lemma {:induction false} KeptNext(lines: seq<Line>, n: nat, func: string, depth: nat, c: nat)
    requires NonNegative(lines) && c <= n <= |lines|
    ensures var h := Holder(lines[..n], func, depth);
            KeptDelta(lines, n + 1, func, depth, c) == KeptDelta(lines, n, func, depth, c)
            - (if RedefinesAt(lines, n, func, depth) && h.Some? && h.value < c then OrZero(Given(lines, h.value, depth)) else 0.0)
    decreases c
  {
    hide Holder, RedefinesAt, ReplacedBy, Shows, Given;
    if c > 0 {
      var h, i := Holder(lines[..n], func, depth), c - 1;
      KeptNext(lines, n, func, depth, i);
      if h == Some(i) {
        HolderShows(lines, n, func, depth, i);
      }
      ShowsDelta(lines, func, depth, i);
      if GivesDelta(lines, i) {
        ReplacedNext(lines, n, func, depth, i);
      }
    }
  }

  lemma ShowsDelta(lines: seq<Line>, func: string, depth: nat, i: nat)
    requires i < |lines|
    ensures Shows(lines, func, depth, i) ==> GivesDelta(lines, i)
  {
  }

  lemma {:induction false} BalanceMeans(lines: seq<Line>, n: nat, func: string, depth: nat)
    requires NonNegative(lines) && n <= |lines|
    ensures Balance(lines[..n], func, depth) == KeptDelta(lines, n, func, depth, n)
    decreases n
  {
    hide Shared, Redefines, RedefinesAt, Holder, ReplacedBy, Given, KeptDelta, HeldValue;
    if n == 0 {
      NothingKept(lines, func, depth);
    } else {
      BalanceMeans(lines, n - 1, func, depth);
      assert lines[..n][..n - 1] == lines[..n - 1];
      RedefinesMeans(lines, n - 1, func, depth);
      KeptNext(lines, n - 1, func, depth, n - 1);
      HeldValueMeans(lines, n - 1, func, depth);
      NewestKept(lines, n, func, depth);
    }
  }

  lemma NothingKept(lines: seq<Line>, func: string, depth: nat)
    ensures KeptDelta(lines, 0, func, depth, 0) == 0.0
  {
  }

  lemma HeldValueMeans(lines: seq<Line>, n: nat, func: string, depth: nat)
    requires n <= |lines|
    ensures var h := Holder(lines[..n], func, depth);
            HeldValue(lines[..n], func, depth) == (if h.Some? then OrZero(Given(lines, h.value, depth)) else 0.0)
  {
  }

  /** The last stack's own frame is not replaced yet. */
  lemma NewestKept(lines: seq<Line>, n: nat, func: string, depth: nat)
    requires 0 < n <= |lines|
    ensures KeptDelta(lines, n, func, depth, n) == KeptDelta(lines, n, func, depth, n - 1)
            + (if HasAt(lines[n - 1].Frames(), func, depth) && Shared(LastFrames(lines[..n - 1]), lines[n - 1].Frames()) <= depth
               then OrZero(Given(lines[..n], n - 1, depth)) else 0.0)
  {
    hide Shared;
    var i: nat := n - 1;
    forall m: nat, j: nat, e: nat | Replaces(lines, func, depth, i, m, j, e) ensures e + 1 >= n {
    }
    if n == 1 {
      NothingShared(lines[0].Frames());
      assert lines[..0] == [];
    } else {
      assert LastFrames(lines[..n - 1]) == lines[n - 2].Frames();
    }
  }

  // ----- What the merge promises about deltas -----

  /** The innermost frame of stack i. */
  function Own(lines: seq<Line>, i: nat): FrameKey
    requires i < |lines|
  {
    FrameKey(lines[i].Frames()[|lines[i].stack|], |lines[i].stack|)
  }

  /** The node of stack i's innermost frame is overwritten by a later frame of the same name, depth
      and closing time that has a delta. */
  ghost predicate IsOverwritten(lines: seq<Line>, i: nat)
    requires i < |lines|
  {
    exists m: nat, j: nat, e: nat :: Replaces(lines, Own(lines, i).func, Own(lines, i).depth, i, m, j, e)
  }

  /** Stack i opens a frame of its own, and that frame's node is not overwritten. */
  ghost predicate Arrives(lines: seq<Line>, i: nat)
    requires i < |lines|
  {
    OpensAt(lines, i, |lines[i].stack|) && !IsOverwritten(lines, i)
  }

  /** The deltas that arrive from the first c stacks. */
  ghost function ArrivingDelta(lines: seq<Line>, c: nat): real
    requires c <= |lines|
  {
    if c == 0 then 0.0
    else ArrivingDelta(lines, c - 1) + (if Arrives(lines, c - 1) then Change(lines[c - 1]) else 0.0)
  }

  ghost function ArrivingAt(lines: seq<Line>, key: FrameKey, c: nat): real
    requires c <= |lines|
  {
    if c == 0 then 0.0
    else ArrivingAt(lines, key, c - 1)
         + (if Own(lines, c - 1) == key && Arrives(lines, c - 1) then Change(lines[c - 1]) else 0.0)
  }

  lemma {:induction false} KeptArrives(lines: seq<Line>, func: string, depth: nat, c: nat)
    requires c <= |lines|
    ensures KeptDelta(lines, |lines| + 1, func, depth, c) == ArrivingAt(lines, FrameKey(func, depth), c)
    decreases c
  {
    hide Replaces, OpensAt;
    if c > 0 {
      var i: nat := c - 1;
      KeptArrives(lines, func, depth, i);
      assert lines[i].Frames()[|lines[i].stack|] == Own(lines, i).func;
      if Own(lines, i) == FrameKey(func, depth) {
        AllReplaced(lines, func, depth, i);
      }
    }
  }

  lemma AllReplaced(lines: seq<Line>, func: string, depth: nat, i: nat)
    requires i < |lines| && Own(lines, i) == FrameKey(func, depth)
    ensures ReplacedBy(lines, |lines| + 1, func, depth, i) <==> IsOverwritten(lines, i)
  {
    hide IsFrame;
    forall m: nat, j: nat, e: nat | Replaces(lines, func, depth, i, m, j, e) ensures e + 1 < |lines| + 1 {
      FrameInside(lines, func, depth, j, e);
    }
  }

  /** For stacks of any non-negative widths in any order, and any name and depth: the deltas of the
      merged nodes with that name and depth are those of the stacks that arrive there. */
  lemma MergedDeltasAt(lines: seq<Line>, func: string, depth: nat)
    requires NonNegative(lines)
    ensures Sum(Merged(lines).node, DeltaAt(func, depth)) == ArrivingAt(lines, FrameKey(func, depth), |lines|)
  {
    hide Redefines, RedefinesAt, Holder, HeldValue, Balance, KeptDelta, ArrivingAt;
    var n := |lines|;
    assert lines[..n] == lines;
    MergedBalance(lines, func, depth);
    BalanceMeans(lines, n, func, depth);
    RedefinesMeans(lines, n, func, depth);
    HeldValueMeans(lines, n, func, depth);
    KeptNext(lines, n, func, depth, n);
    KeptArrives(lines, func, depth, n);
  }
}
