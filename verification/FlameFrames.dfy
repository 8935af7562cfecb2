/** Frames by position: which stack of the input opens a frame and after which it closes. */
module FlameFrames {
  import opened FlameMerge
  import opened FlameWidths
  import opened FlameExact

  /** Stack j opens its frame at that depth. */
  predicate OpensAt(lines: seq<Line>, j: nat, depth: nat)
    requires j < |lines|
  {
    j == 0 || BreaksAt(lines, j - 1, depth)
  }

  /** The frame at that depth closes after stack m. */
  predicate ClosesAt(lines: seq<Line>, m: nat, depth: nat)
    requires m < |lines|
  {
    m + 1 == |lines| || BreaksAt(lines, m, depth)
  }

  /** A frame of that name and depth is open from stack j to stack m. */
  predicate IsFrame(lines: seq<Line>, func: string, depth: nat, j: nat, m: nat) {
    && j <= m < |lines|
    && HasAt(lines[j].Frames(), func, depth) && OpensAt(lines, j, depth) && ClosesAt(lines, m, depth)
    && (forall k :: j <= k < m ==> !BreaksAt(lines, k, depth))
  }

  /** The stack that opened the frame at that depth of the last stack. */
  function Opener(lines: seq<Line>, depth: nat): (j: nat)
    requires lines != []
    ensures j < |lines|
  {
    if |lines| == 1 || BreaksAt(lines, |lines| - 2, depth) then |lines| - 1
    else Opener(lines[..|lines| - 1], depth)
  }

  lemma {:induction false} OpenerMeans(lines: seq<Line>, n: nat, depth: nat)
    requires 0 < n <= |lines|
    ensures var j := Opener(lines[..n], depth);
            && j < n && OpensAt(lines, j, depth)
            && (forall k :: j <= k < n - 1 ==> !BreaksAt(lines, k, depth))
    decreases n
  {
    hide Shared;
    var upTo := lines[..n];
    if n > 1 {
      assert BreaksAt(upTo, n - 2, depth) == BreaksAt(lines, n - 2, depth);
      if !BreaksAt(upTo, n - 2, depth) {
        assert upTo[..n - 1] == lines[..n - 1];
        OpenerMeans(lines, n - 1, depth);
      }
    }
  }

  lemma {:induction false} NameStays(lines: seq<Line>, j: nat, k: nat, func: string, depth: nat)
    requires j <= k < |lines| && forall l :: j <= l < k ==> !BreaksAt(lines, l, depth)
    ensures HasAt(lines[j].Frames(), func, depth) <==> HasAt(lines[k].Frames(), func, depth)
    decreases k
  {
    hide Shared;
    if j < k {
      NameStays(lines, j, k - 1, func, depth);
      assert !BreaksAt(lines, k - 1, depth);
      SharedName(lines[k - 1].Frames(), lines[k].Frames(), func, depth);
    }
  }

  /** The frame that closes after stack n - 1 is the one its opener opened. */
  lemma OpenedFrame(lines: seq<Line>, n: nat, func: string, depth: nat, j: nat)
    requires 0 < n <= |lines| && ClosesAt(lines, n - 1, depth) && HasAt(lines[n - 1].Frames(), func, depth)
    ensures IsFrame(lines, func, depth, j, n - 1) <==> j == Opener(lines[..n], depth)
  {
    hide BreaksAt, Opener, HasAt;
    var o := Opener(lines[..n], depth);
    OpenerMeans(lines, n, depth);
    NameStays(lines, o, n - 1, func, depth);
    if IsFrame(lines, func, depth, j, n - 1) {
      assert OpensAt(lines, o, depth) && OpensAt(lines, j, depth);
    }
  }

  /** Frames of one depth follow one another. */
  lemma FramesApart(lines: seq<Line>, func: string, depth: nat, i: nat, m: nat, j: nat, e: nat)
    requires IsFrame(lines, func, depth, i, m) && IsFrame(lines, func, depth, j, e)
    ensures m < e ==> m < j
    ensures i == j ==> m == e
  {
    hide BreaksAt, HasAt;
  }

  /** Whatever their names. */
  lemma FramesOfDepthApart(lines: seq<Line>, func: string, func': string, depth: nat, i: nat, m: nat, j: nat, e: nat)
    requires IsFrame(lines, func, depth, i, m) && IsFrame(lines, func', depth, j, e)
    ensures m < j || e < i || (i == j && m == e && func == func')
  {
    hide BreaksAt;
  }

  lemma LaterFramesEndLater(lines: seq<Line>, n: nat, func: string, depth: nat)
    ensures forall j: nat, e: nat :: IsFrame(lines, func, depth, j, e) ==> j <= e < |lines|
  {
  }

  lemma FrameInside(lines: seq<Line>, func: string, depth: nat, j: nat, e: nat)
    requires IsFrame(lines, func, depth, j, e)
    ensures j <= e < |lines|
  {
  }

  lemma NothingShared(next: seq<string>)
    ensures Shared([], next) == 0
  {
  }

  lemma NothingSharedAfter(last: seq<string>)
    ensures Shared(last, []) == 0
  {
  }
}
