/** The deltas of all names and depths together, and exactly when none is lost. */
module FlameDeltaTotals {
  import opened Options
  import opened MapSums
  import opened FlameMerge
  import opened FlameWidths
  import opened FlameExact
  import opened FlameDeltas

  // ----- All names and depths together -----

  function AsMap(keys: set<FrameKey>): map<FrameKey, bool> {
    map k | k in keys :: true
  }

  ghost function Weigh(amount: FrameKey -> real): (FrameKey, bool) -> real {
    (k: FrameKey, _: bool) => amount(k)
  }

  /** The sum over names and depths. */
  ghost function OverKeys(keys: set<FrameKey>, amount: FrameKey -> real): real {
    Sum(AsMap(keys), Weigh(amount))
  }

  lemma OverKeysTakeOut(keys: set<FrameKey>, amount: FrameKey -> real, k: FrameKey)
    requires k in keys
    ensures OverKeys(keys, amount) == amount(k) + OverKeys(keys - {k}, amount)
  {
    SumTakeOut(AsMap(keys), Weigh(amount), k);
    assert AsMap(keys) - {k} == AsMap(keys - {k});
  }

  lemma OverNoKeys(amount: FrameKey -> real)
    ensures OverKeys({}, amount) == 0.0
  {
    assert AsMap({}) == map[];
  }

  /** What belongs to one key adds to the sum of the rest. */
  lemma {:induction false} OverKeysAdd(keys: set<FrameKey>, whole: FrameKey -> real, rest: FrameKey -> real, key: FrameKey, amount: real)
    requires forall k :: k in keys ==> whole(k) == rest(k) + if k == key then amount else 0.0
    ensures OverKeys(keys, whole) == OverKeys(keys, rest) + if key in keys then amount else 0.0
    decreases |keys|
  {
    hide OverKeys;
    if keys == {} {
      OverNoKeys(whole);
      OverNoKeys(rest);
    } else {
      var k :| k in keys;
      OverKeysTakeOut(keys, whole, k);
      OverKeysTakeOut(keys, rest, k);
      OverKeysAdd(keys - {k}, whole, rest, key, amount);
    }
  }

  lemma {:induction false} OverKeysNothing(keys: set<FrameKey>, amount: FrameKey -> real)
    requires forall k :: k in keys ==> amount(k) == 0.0
    ensures OverKeys(keys, amount) == 0.0
    decreases |keys|
  {
    hide OverKeys;
    if keys == {} {
      OverNoKeys(amount);
    } else {
      var k :| k in keys;
      OverKeysTakeOut(keys, amount, k);
      OverKeysNothing(keys - {k}, amount);
    }
  }

  ghost function NodesAt(node: map<NodeKey, Frame>): FrameKey -> real {
    (k: FrameKey) => Sum(node, DeltaAt(k.func, k.depth))
  }

  ghost function StacksAt(lines: seq<Line>, c: nat): FrameKey -> real
    requires c <= |lines|
  {
    (k: FrameKey) => ArrivingAt(lines, k, c)
  }

  function NodeDelta(k: NodeKey, f: Frame): real { OrZero(f.delta) }

  function KeyOf(k: NodeKey): FrameKey { FrameKey(k.func, k.depth) }

  lemma {:induction false} NodesByKey(node: map<NodeKey, Frame>, keys: set<FrameKey>)
    requires forall k :: k in node ==> KeyOf(k) in keys
    ensures OverKeys(keys, NodesAt(node)) == Sum(node, NodeDelta)
    decreases |node|
  {
    hide Sum, OverKeys;
    if node == map[] {
      SumOfNothing(NodeDelta);
      forall k: FrameKey ensures Sum(node, DeltaAt(k.func, k.depth)) == 0.0 {
        SumOfNothing(DeltaAt(k.func, k.depth));
      }
      OverKeysNothing(keys, NodesAt(node));
    } else {
      var n :| n in node;
      SumTakeOut(node, NodeDelta, n);
      forall k: FrameKey
        ensures NodesAt(node)(k) == NodesAt(node - {n})(k) + if k == KeyOf(n) then NodeDelta(n, node[n]) else 0.0
      {
        SumTakeOut(node, DeltaAt(k.func, k.depth), n);
      }
      OverKeysAdd(keys, NodesAt(node), NodesAt(node - {n}), KeyOf(n), NodeDelta(n, node[n]));
      NodesByKey(node - {n}, keys);
    }
  }

  lemma {:induction false} StacksByKey(lines: seq<Line>, keys: set<FrameKey>, c: nat)
    requires c <= |lines| && forall i :: 0 <= i < c ==> Own(lines, i) in keys
    ensures OverKeys(keys, StacksAt(lines, c)) == ArrivingDelta(lines, c)
    decreases c
  {
    hide OverKeys, Arrives, Own;
    if c == 0 {
      OverKeysNothing(keys, StacksAt(lines, c));
    } else {
      var i: nat := c - 1;
      StacksByKey(lines, keys, i);
      OverKeysAdd(keys, StacksAt(lines, c), StacksAt(lines, i), Own(lines, i),
                  if Arrives(lines, i) then Change(lines[i]) else 0.0);
    }
  }

  lemma {:induction false} SameOverKeys(keys: set<FrameKey>, a: FrameKey -> real, b: FrameKey -> real)
    requires forall k :: k in keys ==> a(k) == b(k)
    ensures OverKeys(keys, a) == OverKeys(keys, b)
    decreases |keys|
  {
    hide OverKeys;
    if keys == {} {
      OverNoKeys(a);
      OverNoKeys(b);
    } else {
      var k :| k in keys;
      OverKeysTakeOut(keys, a, k);
      OverKeysTakeOut(keys, b, k);
      SameOverKeys(keys - {k}, a, b);
    }
  }

  /** The deltas of the merged nodes add up to those of the stacks that open a frame of their own,
      less those whose node is overwritten: for stacks of any non-negative widths, in any order. */
  lemma MergedDeltasArrive(lines: seq<Line>)
    requires NonNegative(lines)
    ensures Sum(Merged(lines).node, NodeDelta) == ArrivingDelta(lines, |lines|)
  {
    hide Merged, Sum, OverKeys, ArrivingAt, ArrivingDelta, Own;
    var node, n := Merged(lines).node, |lines|;
    var keys := (set k | k in node :: KeyOf(k)) + (set i | 0 <= i < n :: Own(lines, i));
    NodesByKey(node, keys);
    StacksByKey(lines, keys, n);
    forall k: FrameKey ensures NodesAt(node)(k) == StacksAt(lines, n)(k) {
      MergedDeltasAt(lines, k.func, k.depth);
    }
    SameOverKeys(keys, NodesAt(node), StacksAt(lines, n));
  }

  // ----- When all deltas are there -----

  function TotalDelta(lines: seq<Line>, c: nat): real
    requires c <= |lines|
  {
    if c == 0 then 0.0 else TotalDelta(lines, c - 1) + Change(lines[c - 1])
  }

  ghost predicate ConservesDeltas(lines: seq<Line>) {
    Sum(Merged(lines).node, NodeDelta) == TotalDelta(lines, |lines|)
  }

  ghost predicate AllArrive(lines: seq<Line>) {
    forall i :: 0 <= i < |lines| && GivesDelta(lines, i) ==> Arrives(lines, i)
  }

  /** The same profile with another first column, where there are two. */
  function WithFirsts(lines: seq<Line>, firsts: seq<real>): (ls: seq<Line>)
    requires |firsts| == |lines|
    ensures |ls| == |lines|
  {
    seq(|lines|, i requires 0 <= i < |lines| =>
      if lines[i].samples2.Some? then lines[i].(samples := firsts[i]) else lines[i])
  }

  /** The same stacks, widths and number of columns. */
  ghost predicate SameShape(a: seq<Line>, b: seq<Line>) {
    && |a| == |b|
    && (forall i :: 0 <= i < |a| ==> a[i].stack == b[i].stack && a[i].Width() == b[i].Width())
    && (forall i :: 0 <= i < |a| ==> a[i].samples2.Some? == b[i].samples2.Some?)
  }

  lemma SameReplaces(a: seq<Line>, b: seq<Line>, func: string, depth: nat, i: nat, m: nat, j: nat, e: nat)
    requires SameShape(a, b) && Replaces(a, func, depth, i, m, j, e)
    ensures Replaces(b, func, depth, i, m, j, e)
  {
    hide Shared, HasAt;
    SameFrames(a, b);
  }

  lemma SameFrames(a: seq<Line>, b: seq<Line>)
    requires SameShape(a, b)
    ensures forall k :: 0 <= k < |a| ==> a[k].Frames() == b[k].Frames()
    ensures forall k, depth: nat :: 0 <= k < |a| - 1 ==> BreaksAt(a, k, depth) == BreaksAt(b, k, depth)
  {
    hide Shared;
  }

  lemma SameArrives(a: seq<Line>, b: seq<Line>, i: nat)
    requires SameShape(a, b) && i < |a|
    ensures Arrives(a, i) <==> Arrives(b, i)
  {
    hide Replaces, BreaksAt;
    SameFrames(a, b);
    var k := Own(a, i);
    assert Own(b, i) == k;
    forall m: nat, j: nat, e: nat
      ensures Replaces(a, k.func, k.depth, i, m, j, e) <==> Replaces(b, k.func, k.depth, i, m, j, e)
    {
      if Replaces(a, k.func, k.depth, i, m, j, e) {
        SameReplaces(a, b, k.func, k.depth, i, m, j, e);
      }
      if Replaces(b, k.func, k.depth, i, m, j, e) {
        SameReplaces(b, a, k.func, k.depth, i, m, j, e);
      }
    }
  }

  lemma {:induction false} AllArriving(lines: seq<Line>, c: nat)
    requires c <= |lines| && AllArrive(lines)
    ensures ArrivingDelta(lines, c) == TotalDelta(lines, c)
    decreases c
  {
    hide Arrives;
    if c > 0 {
      AllArriving(lines, c - 1);
      assert !GivesDelta(lines, c - 1) ==> Change(lines[c - 1]) == 0.0;
    }
  }

  /** Only stack i has a delta that is not zero. */
  lemma {:induction false} OneDelta(lines: seq<Line>, i: nat, c: nat)
    requires i < |lines| && c <= |lines|
    requires forall k :: 0 <= k < |lines| ==> Change(lines[k]) == if k == i then 1.0 else 0.0
    ensures TotalDelta(lines, c) == if i < c then 1.0 else 0.0
    ensures !Arrives(lines, i) ==> ArrivingDelta(lines, c) == 0.0
    decreases c
  {
    hide Arrives;
    if c > 0 {
      OneDelta(lines, i, c - 1);
    }
  }

  /** Whatever the first column is, the merge conserves the deltas: exactly if every stack with two
      columns opens a frame of its own that is not overwritten. */
  lemma MergeConservesDeltasIff(lines: seq<Line>)
    requires NonNegative(lines)
    ensures (forall firsts :: |firsts| == |lines| ==> ConservesDeltas(WithFirsts(lines, firsts))) <==> AllArrive(lines)
  {
    hide Merged, Arrives;
    if AllArrive(lines) {
      forall firsts: seq<real> | |firsts| == |lines| ensures ConservesDeltas(WithFirsts(lines, firsts)) {
        var ls := WithFirsts(lines, firsts);
        FirstsKeepShape(lines, firsts);
        forall i | 0 <= i < |ls| && GivesDelta(ls, i) ensures Arrives(ls, i) {
          SameArrives(lines, ls, i);
          assert GivesDelta(lines, i);
        }
        MergedDeltasArrive(ls);
        AllArriving(ls, |ls|);
      }
    } else {
      var i :| 0 <= i < |lines| && GivesDelta(lines, i) && !Arrives(lines, i);
      LostDelta(lines, i);
    }
  }

  lemma FirstsKeepShape(lines: seq<Line>, firsts: seq<real>)
    requires |firsts| == |lines|
    ensures SameShape(lines, WithFirsts(lines, firsts))
    ensures NonNegative(lines) ==> NonNegative(WithFirsts(lines, firsts))
  {
  }

  lemma LostDelta(lines: seq<Line>, i: nat)
    requires NonNegative(lines) && i < |lines| && GivesDelta(lines, i) && !Arrives(lines, i)
    ensures exists firsts :: |firsts| == |lines| && !ConservesDeltas(WithFirsts(lines, firsts))
  {
    hide Merged, Arrives;
    var firsts := seq(|lines|, k requires 0 <= k < |lines| => OrZero(lines[k].samples2) - if k == i then 1.0 else 0.0);
    var ls := WithFirsts(lines, firsts);
    FirstsKeepShape(lines, firsts);
    SameArrives(lines, ls, i);
    MergedDeltasArrive(ls);
    OneDelta(ls, i, |ls|);
  }

  /** A frame that is opened again without any time in between: only the second delta is left. */
  lemma ZeroCountOverwritesDelta()
    ensures var lines := [Line(["x"], 1.0, Some(5.0)), Line([], 0.0, Some(0.0)), Line(["x"], 3.0, Some(0.0))];
            Sum(Merged(lines).node, NodeDelta) == -3.0 && TotalDelta(lines, 3) == 1.0
  {
    hide Merged, Sum;
    var a, b, c := Line(["x"], 1.0, Some(5.0)), Line([], 0.0, Some(0.0)), Line(["x"], 3.0, Some(0.0));
    var lines := [a, b, c];
    MergedDeltasArrive(lines);
    assert a.Frames() == ["", "x"] == c.Frames() && b.Frames() == [""];
    SharedOfExample();
    assert !BreaksAt(lines, 0, 0) && BreaksAt(lines, 0, 1) && BreaksAt(lines, 1, 1);
    assert Own(lines, 0) == FrameKey("x", 1);
    assert Replaces(lines, "x", 1, 0, 0, 2, 2);
    assert !Arrives(lines, 0) && !Arrives(lines, 1);
    assert Arrives(lines, 2);
    assert ArrivingDelta(lines, 1) == 0.0 && ArrivingDelta(lines, 2) == 0.0;
  }

  lemma SharedOfExample()
    ensures Shared(["", "x"], [""]) == 1 && Shared([""], ["", "x"]) == 1
  {
    assert ["", "x"][1..] == ["x"] && [""][1..] == [];
  }
}
