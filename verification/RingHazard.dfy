/** The bound on cloned handles is sharp: one push past 2^64 completed pushes, on a clone whose
    cached tail was never refreshed, overwrites an unread event. */
module RingHazard {
  import opened Words
  import opened Events
  import opened RingMachine
  import opened RingWords
  import opened RingCalls

  const COMMON: StrokeEvent := BLANK
  const LAST: StrokeEvent := BLANK.(action := ACTION_UP)

  function Repeat(n: nat): (es: seq<StrokeEvent>)
    ensures |es| == n
  {
    seq(n, i => COMMON)
  }

  /** Between calls, with an untouched clone at index 1. */
  ghost predicate WithStaleClone(r: Ring, head: nat, tail: nat) {
    && |r.slots| == RING_CAPACITY
    && r.producer.ProducerIdle? && r.consumer.ConsumerIdle?
    && |r.cachedTails| == 2 && r.cachedTails[1] == 0 && r.cachedTails[0] <= tail
    && r.head == head % WORD && r.tail == tail && r.cachedHead == tail
  }

  /** `steps` leads from `start` to `r` after pushing `pushed` and popping `popped` events. */
  ghost predicate Reaches(start: Ring, steps: seq<Step>, r: Ring, pushed: seq<StrokeEvent>, popped: seq<StrokeEvent>)
    requires |start.slots| == RING_CAPACITY
  {
    && Legal(Wrapping, start, steps)
    && Run(Wrapping, start, steps) == r
    && EventsPushed(Outcomes(Wrapping, start, steps)) == pushed
    && EventsPopped(Outcomes(Wrapping, start, steps)) == popped
    && Stores(steps) == |pushed| && PushesStartBelow(WORD + 1, steps, 0)
  }

  /** The pushes that complete. */
  function Stores(steps: seq<Step>): nat {
    if steps == [] then 0 else (if steps[0].StoreHead? then 1 else 0) + Stores(steps[1..])
  }

  lemma {:induction false} StoresAppend(limit: nat, a: seq<Step>, b: seq<Step>, completed: nat)
    requires PushesStartBelow(limit, a, completed) && PushesStartBelow(limit, b, completed + Stores(a))
    ensures PushesStartBelow(limit, a + b, completed) && Stores(a + b) == Stores(a) + Stores(b)
    decreases |a|
  {
    if a == [] {
      assert a + b == b;
    } else {
      assert (a + b)[0] == a[0] && (a + b)[1..] == a[1..] + b;
      StoresAppend(limit, a[1..], b, if a[0].StoreHead? then completed + 1 else completed);
    }
  }

  lemma StoresOfPush(r: Ring, handle: nat, e: StrokeEvent, completed: nat)
    requires handle < |r.cachedTails| && |r.slots| == RING_CAPACITY
    requires completed <= WORD && AfterPush(Wrapping, r, handle, e).1
    ensures var steps := PushSteps(Wrapping, r, handle, e);
            PushesStartBelow(WORD + 1, steps, completed) && Stores(steps) == 1
  {
    var tail, begin := [WriteSlot, StoreHead], BeginPush(handle, e);
    assert tail[1..] == [StoreHead] && [StoreHead][1..] == [];
    assert Stores(tail) == 1 && PushesStartBelow(WORD + 1, tail, completed);
    StoresOfOther([ReloadTail(r.tail)], completed);
    StoresAppend(WORD + 1, [ReloadTail(r.tail)], tail, completed);
    StoresOfBegin(begin, tail, completed);
    StoresOfBegin(begin, [ReloadTail(r.tail)] + tail, completed);
    assert [begin] + tail == [begin, WriteSlot, StoreHead];
    assert [begin] + ([ReloadTail(r.tail)] + tail) == [begin, ReloadTail(r.tail), WriteSlot, StoreHead];
  }

  lemma StoresOfBegin(begin: Step, rest: seq<Step>, completed: nat)
    requires begin.BeginPush? && completed <= WORD && PushesStartBelow(WORD + 1, rest, completed)
    ensures PushesStartBelow(WORD + 1, [begin] + rest, completed) && Stores([begin] + rest) == Stores(rest)
  {
    assert ([begin] + rest)[1..] == rest;
  }

  lemma {:induction false} StoresOfOther(steps: seq<Step>, completed: nat)
    requires forall step :: step in steps ==> !step.BeginPush? && !step.StoreHead?
    ensures PushesStartBelow(WORD + 1, steps, completed) && Stores(steps) == 0
  {
    if steps != [] {
      assert steps[0] in steps;
      StoresOfOther(steps[1..], completed);
    }
  }

  lemma PushOn(steps: seq<Step>, r: Ring, pushed: seq<StrokeEvent>, popped: seq<StrokeEvent>,
               handle: nat, e: StrokeEvent)
    requires Reaches(FRESH, steps, r, pushed, popped)
    requires handle < |r.cachedTails| && r.producer.ProducerIdle?
    requires r.tail < WORD && r.cachedTails[handle] < WORD
    requires AfterPush(Wrapping, r, handle, e).1 && |pushed| <= WORD
    ensures Reaches(FRESH, steps + PushSteps(Wrapping, r, handle, e), AfterPush(Wrapping, r, handle, e).0,
                    pushed + [e], popped)
  {
    var more := PushSteps(Wrapping, r, handle, e);
    PushIsRun(Wrapping, r, handle, e);
    RunAppend(Wrapping, FRESH, steps, more);
    EventsAppend(Outcomes(Wrapping, FRESH, steps), Outcomes(Wrapping, r, more));
    StoresOfPush(r, handle, e, |pushed|);
    StoresAppend(WORD + 1, steps, more, 0);
  }

  lemma PopOn(steps: seq<Step>, r: Ring, pushed: seq<StrokeEvent>, popped: seq<StrokeEvent>)
    requires Reaches(FRESH, steps, r, pushed, popped)
    requires r.consumer.ConsumerIdle?
    requires r.head < WORD && r.cachedHead < WORD
    ensures Reaches(FRESH, steps + PopSteps(Wrapping, r), AfterPop(Wrapping, r).0,
                    pushed, popped + AfterPop(Wrapping, r).1)
  {
    hide AfterPop, Legal, Run, Outcomes, PushesStartBelow;
    var more := PopSteps(Wrapping, r);
    PopIsRun(Wrapping, r);
    RunAppend(Wrapping, FRESH, steps, more);
    EventsAppend(Outcomes(Wrapping, FRESH, steps), Outcomes(Wrapping, r, more));
    StoresOfOther(more, |pushed|);
    StoresAppend(WORD + 1, steps, more, 0);
    assert pushed + [] == pushed;
  }

  lemma JustCloned() returns (steps: seq<Step>, r: Ring, popped: seq<StrokeEvent>)
    ensures WithStaleClone(r, 0, 0) && popped == []
    ensures Reaches(FRESH, steps, r, Repeat(0), popped)
  {
    steps, r, popped := [CloneHandle(0)], Next(Wrapping, FRESH, CloneHandle(0)), [];
    RunCons(Wrapping, FRESH, CloneHandle(0), []);
    assert [CloneHandle(0)] == [CloneHandle(0)] + [];
  }

  /** After a push on the first handle. */
  ghost predicate WithOne(r: Ring, k: nat) {
    && |r.slots| == RING_CAPACITY
    && r.producer.ProducerIdle? && r.consumer.ConsumerIdle?
    && |r.cachedTails| == 2 && r.cachedTails[1] == 0 && r.cachedTails[0] <= k
    && r.head == k + 1 && r.tail == k && r.cachedHead == k
  }

  lemma PushRound(r: Ring, k: nat)
    requires WithStaleClone(r, k, k) && k < WORD - RING_CAPACITY
    ensures |r.slots| == RING_CAPACITY && |r.cachedTails| == 2 && r.producer.ProducerIdle?
    ensures r.tail < WORD && r.cachedTails[0] < WORD
    ensures AfterPush(Wrapping, r, 0, COMMON).1 && WithOne(AfterPush(Wrapping, r, 0, COMMON).0, k)
  {
    hide Index;
  }

  lemma PopRound(r: Ring, k: nat)
    requires WithOne(r, k) && k < WORD - RING_CAPACITY
    ensures |r.slots| == RING_CAPACITY && r.consumer.ConsumerIdle? && r.head < WORD && r.cachedHead < WORD
    ensures |AfterPop(Wrapping, r).1| == 1 && WithStaleClone(AfterPop(Wrapping, r).0, k + 1, k + 1)
  {
    hide Index;
  }

  /** k alternating pushes and pops on the first handle. */
  lemma {:induction false} Alternate(k: nat)
    returns (steps: seq<Step>, r: Ring, popped: seq<StrokeEvent>)
    requires k <= WORD - RING_CAPACITY
    ensures WithStaleClone(r, k, k) && |popped| == k
    ensures Reaches(FRESH, steps, r, Repeat(k), popped)
  {
    hide Reaches, AfterPush, AfterPop, PushSteps, PopSteps, WithStaleClone, WithOne;
    if k == 0 {
      steps, r, popped := JustCloned();
    } else {
      steps, r, popped := Alternate(k - 1);
      PushRound(r, k - 1);
      PushOn(steps, r, Repeat(k - 1), popped, 0, COMMON);
      assert Repeat(k - 1) + [COMMON] == Repeat(k);
      steps, r := steps + PushSteps(Wrapping, r, 0, COMMON), AfterPush(Wrapping, r, 0, COMMON).0;
      PopRound(r, k - 1);
      PopOn(steps, r, Repeat(k), popped);
      steps, r, popped := steps + PopSteps(Wrapping, r), AfterPop(Wrapping, r).0, popped + AfterPop(Wrapping, r).1;
    }
  }

  /** m more pushes with no pop. */
  lemma {:induction false} Fill(m: nat)
    returns (steps: seq<Step>, r: Ring, popped: seq<StrokeEvent>)
    requires m <= RING_CAPACITY
    ensures WithStaleClone(r, WORD - RING_CAPACITY + m, WORD - RING_CAPACITY)
    ensures |popped| == WORD - RING_CAPACITY
    ensures Reaches(FRESH, steps, r, Repeat(WORD - RING_CAPACITY + m), popped)
  {
    hide Reaches;
    var drained := WORD - RING_CAPACITY;
    if m == 0 {
      steps, r, popped := Alternate(drained);
    } else {
      steps, r, popped := Fill(m - 1);
      PushOn(steps, r, Repeat(drained + m - 1), popped, 0, COMMON);
      assert Repeat(drained + m - 1) + [COMMON] == Repeat(drained + m);
      steps, r := steps + PushSteps(Wrapping, r, 0, COMMON), AfterPush(Wrapping, r, 0, COMMON).0;
    }
  }

  /** After 2^64 completed pushes, a push on the stale clone of a full ring succeeds, and the
      next event popped is not the oldest one pushed. */
  lemma StaleCloneBreaksFifo() returns (all: seq<Step>)
    ensures Legal(Wrapping, FRESH, all) && PushesStartBelow(WORD + 1, all, 0)
    ensures var os := Outcomes(Wrapping, FRESH, all);
            |EventsPushed(os)| == WORD + 1 && !(EventsPopped(os) <= EventsPushed(os))
  {
    var steps, r, popped := Fill(RING_CAPACITY);
    IndexOfTopIsZero();
    PushOn(steps, r, Repeat(WORD), popped, 1, LAST);
    var steps', r' := steps + PushSteps(Wrapping, r, 1, LAST), AfterPush(Wrapping, r, 1, LAST).0;
    PopOn(steps', r', Repeat(WORD) + [LAST], popped);
    all := steps' + PopSteps(Wrapping, r');
    var out := AfterPop(Wrapping, r').1;
    assert out == [LAST];
    var os := Outcomes(Wrapping, FRESH, all);
    assert EventsPopped(os)[|popped|] == LAST;
    assert EventsPushed(os)[|popped|] == COMMON;
  }

  /** Every run whose pushes all start below so many completed ones is first-in-first-out. */
  ghost predicate FifoBelow(start: Ring, limit: nat)
    requires |start.slots| == RING_CAPACITY
  {
    forall steps :: Legal(Wrapping, start, steps) && PushesStartBelow(limit, steps, 0) ==> RunsAsFifo(start, steps)
  }

  lemma {:induction false} BelowLess(limit: nat, more: nat, steps: seq<Step>, completed: nat)
    requires limit <= more && PushesStartBelow(limit, steps, completed)
    ensures PushesStartBelow(more, steps, completed)
    decreases |steps|
  {
    if steps != [] {
      BelowLess(limit, more, steps[1..], if steps[0].StoreHead? then completed + 1 else completed);
    }
  }

  /** With any number of clones, however stale: the bound on the pushes that keeps the ring
      first-in-first-out is exactly 2^64. */
  lemma FifoIffBelowWord(limit: nat)
    ensures FifoBelow(FRESH, limit) <==> limit <= WORD
  {
    hide Legal, PushesStartBelow, Outcomes, Run;
    if limit <= WORD {
      forall steps | Legal(Wrapping, FRESH, steps) && PushesStartBelow(limit, steps, 0) ensures RunsAsFifo(FRESH, steps) {
        BelowLess(limit, WORD, steps, 0);
        RingIsFifo(steps);
      }
    } else {
      var steps := StaleCloneBreaksFifo();
      BelowLess(WORD + 1, limit, steps, 0);
    }
  }

  lemma IndexOfTopIsZero()
    ensures Index(WORD - RING_CAPACITY) == Index(0) == 0
  {
  }
}
