/** Exactly when the merge conserves the counts of a name at a depth, for counts that may be
    zero, as in the second column of a differential profile. */
module FlameExact {
  import opened Options
  import opened FlameMerge
  import opened FlameShapes
  import opened FlameWidths

  predicate NonNegative(lines: seq<Line>) {
    forall i :: 0 <= i < |lines| ==> lines[i].Width() >= 0.0
  }

  /** Every stack has a positive count. */
  predicate PositiveCounts(lines: seq<Line>) {
    forall i :: 0 <= i < |lines| ==> lines[i].Width() > 0.0
  }

  /** The stacks at positions m and m + 1 do not share their frames down to that depth. */
  predicate BreaksAt(lines: seq<Line>, m: nat, depth: nat)
    requires m + 1 < |lines|
  {
    Shared(lines[m].Frames(), lines[m + 1].Frames()) <= depth
  }

  /** A frame of that name and depth ends with positive width at the last stack of positive
      width, i; it is opened again, and closed again at stack j, before any more width is added.
      The second node takes the key of the first. */
  ghost predicate Overwrites(lines: seq<Line>, func: string, depth: nat, i: nat, m: nat, j: nat) {
    && i <= m < j < |lines|
    && lines[i].Width() > 0.0
    && (forall k :: i < k <= j ==> lines[k].Width() == 0.0)
    && HasAt(lines[i].Frames(), func, depth) && HasAt(lines[j].Frames(), func, depth)
    && BreaksAt(lines, m, depth)
    && (j + 1 == |lines| || BreaksAt(lines, j, depth))
  }

  ghost predicate SomeOverwrite(lines: seq<Line>, func: string, depth: nat) {
    exists i, m, j :: Overwrites(lines, func, depth, i, m, j)
  }

  // ----- The same, read off one stack at a time -----

  /** The position of the last stack of positive width, or -1. */
  function LastPositive(lines: seq<Line>): (i: int)
    ensures -1 <= i < |lines|
    ensures i >= 0 ==> lines[i].Width() > 0.0
  {
    if lines == [] then -1
    else if lines[|lines| - 1].Width() > 0.0 then |lines| - 1
    else LastPositive(lines[..|lines| - 1])
  }

  /** Some break at that depth at or after stack i. */
  predicate BreakSince(lines: seq<Line>, i: nat, depth: nat)
    requires i < |lines|
    decreases |lines|
  {
    i < |lines| - 1 &&
    (BreaksAt(lines, |lines| - 2, depth) || BreakSince(lines[..|lines| - 1], i, depth))
  }

  /** A frame of that name and depth has closed at the present time with positive width. */
  predicate ClosedJustNow(lines: seq<Line>, func: string, depth: nat) {
    var i := LastPositive(lines);
    i >= 0 && HasAt(lines[i].Frames(), func, depth) && BreakSince(lines, i, depth)
  }

  /** Some closing by the flows so far overwrote a node of positive width. */
  predicate Lost(lines: seq<Line>, func: string, depth: nat) {
    if lines == [] then false
    else
      var before := lines[..|lines| - 1];
      || Lost(before, func, depth)
      || (ClosedJustNow(before, func, depth)
          && Closes(LastFrames(before), lines[|lines| - 1].Frames(), func, depth))
  }

  // ----- What the merge loop keeps -----

  ghost function OpenWidth(s: Merge, path: seq<string>, t: real, func: string, depth: nat): real
    requires HoldsPath(s, path)
  {
    if HasAt(path, func, depth) then t - StartOf(s, path, depth) else 0.0
  }

  /** A frame that is open since before the present time. */
  predicate OpenForAWhile(lines: seq<Line>, func: string, depth: nat) {
    var i := LastPositive(lines);
    HasAt(LastFrames(lines), func, depth) && i >= 0 && !BreakSince(lines, i, depth)
  }

  /** One name and depth in the hashes, beside what the input says of it. */
  datatype Reading = Reading(merged: real, open: real, closed: real, counted: real,
                             lost: bool, closedJustNow: bool, openForAWhile: bool)
  {
    predicate Agrees() {
      && (if lost then merged + open < counted else merged + open == counted)
      && (!lost ==> (closed > 0.0 <==> closedJustNow))
      && (open > 0.0 <==> openForAWhile)
    }

    /** A flow to a stack that has the name at the depth (`has`) and keeps its frame from the
        stack before (`keeps`); the flow may close the frame; then time `w` passes. */
    function Step(closes: bool, has: bool, keeps: bool, w: real): Reading {
      Reading(
        merged + (if closes then open - closed else 0.0),
        (if has then w else 0.0) + (if has && keeps then open else 0.0),
        if w > 0.0 then 0.0 else if closes then open else closed,
        counted + (if has then w else 0.0),
        lost || (closedJustNow && closes),
        w == 0.0 && (closedJustNow || (closes && openForAWhile)),
        has && (w > 0.0 || (keeps && openForAWhile)))
    }
  }

  lemma ReadingAgreesStill(r: Reading, closes: bool, has: bool, keeps: bool, w: real)
    requires r.Agrees() && r.open >= 0.0 && r.closed >= 0.0 && w >= 0.0
    requires r.open > 0.0 ==> (closes <==> !(has && keeps))
    ensures r.Step(closes, has, keeps, w).Agrees()
  {
  }

  ghost function ReadingOf(s: Merge, path: seq<string>, t: real, lines: seq<Line>, func: string, depth: nat): Reading
    requires HoldsPath(s, path)
  {
    Reading(MergedWidth(s.node, func, depth), OpenWidth(s, path, t, func, depth),
            NodeWidth(s.node, NodeKey(func, depth, t)), CountedWidth(lines, func, depth),
            Lost(lines, func, depth), ClosedJustNow(lines, func, depth), OpenForAWhile(lines, func, depth))
  }

  ghost predicate Accounted(s: Merge, path: seq<string>, t: real, lines: seq<Line>, func: string, depth: nat) {
    Loose(s, path, t) && ReadingOf(s, path, t, lines, func, depth).Agrees()
  }

  /** Without a break at that depth, the name there stays. */
  lemma {:induction false} NoBreakKeepsName(lines: seq<Line>, i: nat, func: string, depth: nat)
    requires i < |lines| && !BreakSince(lines, i, depth)
    ensures HasAt(lines[i].Frames(), func, depth) <==> HasAt(LastFrames(lines), func, depth)
    decreases |lines|
  {
    hide Shared;
    if i < |lines| - 1 {
      var before := lines[..|lines| - 1];
      NoBreakKeepsName(before, i, func, depth);
      SharedName(LastFrames(before), LastFrames(lines), func, depth);
    }
  }

  lemma SharedName(last: seq<string>, next: seq<string>, func: string, depth: nat)
    requires depth < Shared(last, next)
    ensures HasAt(last, func, depth) <==> HasAt(next, func, depth)
  {
    assert last[depth] == last[..Shared(last, next)][depth] == next[..Shared(last, next)][depth] == next[depth];
  }

  /** How the readings change with one more stack. */
  lemma ReadingsStep(lines: seq<Line>, func: string, depth: nat)
    requires NonNegative(lines) && lines != []
    ensures var before, line := lines[..|lines| - 1], lines[|lines| - 1];
            var last, next := LastFrames(before), line.Frames();
            && (Lost(lines, func, depth) <==>
                  Lost(before, func, depth) || (ClosedJustNow(before, func, depth) && Closes(last, next, func, depth)))
            && CountedWidth(lines, func, depth) ==
               CountedWidth(before, func, depth) + (if HasAt(next, func, depth) then line.Width() else 0.0)
            && (line.Width() > 0.0 ==>
                  && !ClosedJustNow(lines, func, depth)
                  && (OpenForAWhile(lines, func, depth) <==> HasAt(next, func, depth)))
            && (line.Width() == 0.0 ==>
                  && (ClosedJustNow(lines, func, depth) <==>
                        || ClosedJustNow(before, func, depth)
                        || (Closes(last, next, func, depth) && OpenForAWhile(before, func, depth)))
                  && (OpenForAWhile(lines, func, depth) <==>
                        HasAt(next, func, depth) && depth < Shared(last, next) && OpenForAWhile(before, func, depth)))
  {
    hide Shared;
    var before, line := lines[..|lines| - 1], lines[|lines| - 1];
    var last := LastFrames(before);
    var i := LastPositive(before);
    if line.Width() == 0.0 && i >= 0 {
      assert BreaksAt(lines, |lines| - 2, depth) <==> Shared(last, line.Frames()) <= depth;
      assert BreakSince(lines, i, depth) <==>
             BreaksAt(lines, |lines| - 2, depth) || BreakSince(before, i, depth);
      if !BreakSince(before, i, depth) {
        NoBreakKeepsName(before, i, func, depth);
      }
      if depth < Shared(last, line.Frames()) {
        SharedName(last, line.Frames(), func, depth);
      }
    }
  }

  /** One call of `flow` and the time that passes after it, in the widths of one name and depth. */
  lemma FlowStepWidths(s: Merge, last: seq<string>, next: seq<string>, t: real, w: real, d: Option<real>,
                       func: string, depth: nat)
    requires Loose(s, last, t) && w >= 0.0
    ensures var s' := FlowStep(s, last, next, t, d);
            var closes := Closes(last, next, func, depth);
            var open, closed := OpenWidth(s, last, t, func, depth), NodeWidth(s.node, NodeKey(func, depth, t));
            && Loose(s', next, t + w)
            && open >= 0.0 && closed >= 0.0
            && MergedWidth(s'.node, func, depth) ==
               MergedWidth(s.node, func, depth) + (if closes then open - closed else 0.0)
            && OpenWidth(s', next, t + w, func, depth) ==
               (if HasAt(next, func, depth) then w else 0.0) +
               (if HasAt(next, func, depth) && depth < Shared(last, next) then open else 0.0)
            && NodeWidth(s'.node, NodeKey(func, depth, t + w)) ==
               (if w > 0.0 then 0.0 else if closes then open else closed)
  {
    hide FlowStep, MergedWidth, Shared;
    var s' := FlowStep(s, last, next, t, d);
    FlowStepAt(s, last, next, t, d, func, depth);
    LaterIsLoose(s', next, t, w);
    LooseNodeWidth(s, last, t, NodeKey(func, depth, t));
    LooseHoldsPath(s', next, t);
    if depth < Shared(last, next) {
      SharedName(last, next, func, depth);
    }
  }

  lemma AccountedStep(s: Merge, t: real, lines: seq<Line>, func: string, depth: nat)
    requires NonNegative(lines) && lines != []
    requires Accounted(s, LastFrames(lines[..|lines| - 1]), t, lines[..|lines| - 1], func, depth)
    ensures var line := lines[|lines| - 1];
            Accounted(FlowStep(s, LastFrames(lines[..|lines| - 1]), line.Frames(), t, line.Delta()),
                      line.Frames(), t + line.Width(), lines, func, depth)
  {
    hide FlowStep, ClosedJustNow, OpenForAWhile, MergedWidth, NodeWidth, OpenWidth, Lost, CountedWidth, Loose,
         LastFrames, Shared;
    var before, line := lines[..|lines| - 1], lines[|lines| - 1];
    var last, next := LastFrames(before), line.Frames();
    var s' := FlowStep(s, last, next, t, line.Delta());
    LooseHoldsPath(s, last, t);
    FlowStepWidths(s, last, next, t, line.Width(), line.Delta(), func, depth);
    LooseHoldsPath(s', next, t + line.Width());
    ReadingsStep(lines, func, depth);
    OpenMeansHas(s, last, t, func, depth);
    if depth < Shared(last, next) {
      SharedName(last, next, func, depth);
    }
    var closes, has, keeps := Closes(last, next, func, depth), HasAt(next, func, depth), depth < Shared(last, next);
    var r := ReadingOf(s, last, t, before, func, depth);
    assert ReadingOf(s', next, t + line.Width(), lines, func, depth) == r.Step(closes, has, keeps, line.Width());
    ReadingAgreesStill(r, closes, has, keeps, line.Width());
  }

  lemma OpenMeansHas(s: Merge, path: seq<string>, t: real, func: string, depth: nat)
    requires HoldsPath(s, path)
    ensures OpenWidth(s, path, t, func, depth) > 0.0 ==> HasAt(path, func, depth)
  {
  }

  lemma LooseNodeWidth(s: Merge, path: seq<string>, t: real, k: NodeKey)
    requires Loose(s, path, t)
    ensures HoldsPath(s, path) && NodeWidth(s.node, k) >= 0.0
    ensures forall i :: 0 <= i < |path| ==> StartOf(s, path, i) <= t
  {
  }

  lemma LaterIsLoose(s: Merge, path: seq<string>, t: real, w: real)
    requires Loose(s, path, t) && w >= 0.0
    ensures Loose(s, path, t + w)
    ensures w > 0.0 ==> forall k :: k in s.node ==> k.etime < t + w
  {
  }

  lemma {:induction false} FlowedAccounted(lines: seq<Line>, func: string, depth: nat)
    requires NonNegative(lines)
    ensures Accounted(Flowed(lines), LastFrames(lines), TotalWidth(lines), lines, func, depth)
    decreases |lines|
  {
    hide Accounted, FlowStep;
    if lines == [] {
      NothingAccounted(func, depth);
    } else {
      var before, line := lines[..|lines| - 1], lines[|lines| - 1];
      FlowedAccounted(before, func, depth);
      AccountedStep(Flowed(before), TotalWidth(before), lines, func, depth);
    }
  }

  lemma NothingAccounted(func: string, depth: nat)
    ensures Accounted(Merge(map[], map[]), [], 0.0, [], func, depth)
  {
  }

  // ----- What the merge promises about counts -----

  /** The reading of the whole input, with the closing call of `flow`. */
  predicate LostInTheEnd(lines: seq<Line>, func: string, depth: nat) {
    Lost(lines, func, depth) || (ClosedJustNow(lines, func, depth) && HasAt(LastFrames(lines), func, depth))
  }

  lemma MergedAccounted(lines: seq<Line>, func: string, depth: nat)
    requires NonNegative(lines)
    ensures var merged, counted := MergedWidth(Merged(lines).node, func, depth), CountedWidth(lines, func, depth);
            if LostInTheEnd(lines, func, depth) then merged < counted else merged == counted
  {
    var s, last, t := Flowed(lines), LastFrames(lines), TotalWidth(lines);
    FlowedAccounted(lines, func, depth);
    assert last[..|last|] == last && last[..0] == [];
    CloseDownToAt(s, last, |last|, 0, t, func, depth);
  }

  // ----- The readings in terms of positions -----

  lemma {:induction false} BreakSinceMeans(lines: seq<Line>, i: nat, depth: nat)
    requires i < |lines|
    ensures BreakSince(lines, i, depth) <==> exists m :: i <= m < |lines| - 1 && BreaksAt(lines, m, depth)
    decreases |lines|
  {
    hide Shared;
    if i < |lines| - 1 {
      var before := lines[..|lines| - 1];
      BreakSinceMeans(before, i, depth);
      assert forall m :: 0 <= m < |before| - 1 ==> BreaksAt(lines, m, depth) == BreaksAt(before, m, depth);
    }
  }

  lemma {:induction false} LastPositiveMeans(lines: seq<Line>, i: nat)
    requires NonNegative(lines) && i < |lines|
    ensures LastPositive(lines) == i <==>
            lines[i].Width() > 0.0 && forall k :: i < k < |lines| ==> lines[k].Width() == 0.0
    decreases |lines|
  {
    var before := lines[..|lines| - 1];
    if i < |before| {
      LastPositiveMeans(before, i);
      assert forall k :: i < k < |before| ==> lines[k] == before[k];
    }
  }

  /** Up to stack j the frame has closed with width and is open again, all at one time. */
  lemma ReopenedMeans(lines: seq<Line>, j: nat, func: string, depth: nat)
    requires NonNegative(lines) && j < |lines|
    requires j + 1 == |lines| || BreaksAt(lines, j, depth)
    ensures ClosedJustNow(lines[..j + 1], func, depth) && HasAt(lines[j].Frames(), func, depth) <==>
            exists i, m :: Overwrites(lines, func, depth, i, m, j)
  {
    hide Shared;
    var upTo := lines[..j + 1];
    assert forall k :: 0 <= k <= j ==> upTo[k] == lines[k];
    assert forall m :: 0 <= m < j ==> BreaksAt(upTo, m, depth) == BreaksAt(lines, m, depth);
    if ClosedJustNow(upTo, func, depth) && HasAt(lines[j].Frames(), func, depth) {
      var i := LastPositive(upTo);
      LastPositiveMeans(upTo, i);
      BreakSinceMeans(upTo, i, depth);
      var m :| i <= m < j && BreaksAt(upTo, m, depth);
      assert Overwrites(lines, func, depth, i, m, j);
    }
    if i, m :| Overwrites(lines, func, depth, i, m, j) {
      LastPositiveMeans(upTo, i);
      BreakSinceMeans(upTo, i, depth);
      assert BreaksAt(upTo, m, depth);
    }
  }

  /** The flows so far lost width exactly if some frame was overwritten at a break inside. */
  lemma {:induction false} LostMeans(lines: seq<Line>, n: nat, func: string, depth: nat)
    requires NonNegative(lines) && n <= |lines|
    ensures Lost(lines[..n], func, depth) <==>
            exists i: nat, m: nat, j: nat :: j + 1 < n && Overwrites(lines, func, depth, i, m, j)
    decreases n
  {
    hide Shared, Lost, ClosedJustNow, Overwrites;
    LostUnfolds(lines, n, func, depth);
    if n > 1 {
      LostMeans(lines, n - 1, func, depth);
      if BreaksAt(lines, n - 2, depth) {
        ReopenedMeans(lines, n - 2, func, depth);
      } else {
        NoOverwriteWithoutBreak(lines, n - 2, func, depth);
      }
    }
  }

  lemma LostUnfolds(lines: seq<Line>, n: nat, func: string, depth: nat)
    requires n <= |lines|
    ensures Lost(lines[..n], func, depth) <==>
            n > 1 && (|| Lost(lines[..n - 1], func, depth)
                      || (&& BreaksAt(lines, n - 2, depth)
                          && ClosedJustNow(lines[..n - 1], func, depth)
                          && HasAt(lines[n - 2].Frames(), func, depth)))
  {
    hide Shared;
    if n > 1 {
      assert lines[..n][..n - 1] == lines[..n - 1] && LastFrames(lines[..n - 1]) == lines[n - 2].Frames();
    } else if n == 1 {
      assert lines[..1][..0] == [];
    }
  }

  lemma NoOverwriteWithoutBreak(lines: seq<Line>, j: nat, func: string, depth: nat)
    requires j + 1 < |lines| && !BreaksAt(lines, j, depth)
    ensures forall i: nat, m: nat :: !Overwrites(lines, func, depth, i, m, j)
  {
  }

  lemma LostInTheEndMeans(lines: seq<Line>, func: string, depth: nat)
    requires NonNegative(lines)
    ensures LostInTheEnd(lines, func, depth) <==> SomeOverwrite(lines, func, depth)
  {
    hide Shared;
    assert lines[..|lines|] == lines;
    LostMeans(lines, |lines|, func, depth);
    if lines != [] {
      ReopenedMeans(lines, |lines| - 1, func, depth);
    }
  }

  // ----- Conservation -----

  /** For stacks of any non-negative widths in any order, and any name and depth: the summed
      widths of the merged nodes never exceed the summed counts, and equal them exactly if no
      node of that name and depth is overwritten. */
  lemma MergeConservesUnlessOverwritten(lines: seq<Line>, func: string, depth: nat)
    requires NonNegative(lines)
    ensures var merged, counted := MergedWidth(Merged(lines).node, func, depth), CountedWidth(lines, func, depth);
            && merged <= counted
            && (merged == counted <==> !SomeOverwrite(lines, func, depth))
  {
    MergedAccounted(lines, func, depth);
    LostInTheEndMeans(lines, func, depth);
  }

  /** With positive counts nothing is ever overwritten. */
  lemma MergeConservesCounts(lines: seq<Line>, func: string, depth: nat)
    requires PositiveCounts(lines)
    ensures MergedWidth(Merged(lines).node, func, depth) == CountedWidth(lines, func, depth)
  {
    MergeConservesUnlessOverwritten(lines, func, depth);
    forall i, m, j ensures !Overwrites(lines, func, depth, i, m, j) {
    }
  }

  /** A stack that vanishes in the second profile can erase its neighbour's frame. */
  lemma ZeroCountLosesWidth()
    ensures var lines := [Line(["a", "x"], 5.0, Some(5.0)), Line(["b", "x"], 3.0, Some(0.0))];
            MergedWidth(Merged(lines).node, "x", 2) < CountedWidth(lines, "x", 2)
  {
    var lines := [Line(["a", "x"], 5.0, Some(5.0)), Line(["b", "x"], 3.0, Some(0.0))];
    assert lines[0].Frames() == ["", "a", "x"] && lines[1].Frames() == ["", "b", "x"];
    assert ["", "a", "x"][1..] == ["a", "x"] && ["", "b", "x"][1..] == ["b", "x"];
    assert BreaksAt(lines, 0, 2);
    assert Overwrites(lines, "x", 2, 0, 0, 1);
    MergeConservesUnlessOverwritten(lines, "x", 2);
  }
}
