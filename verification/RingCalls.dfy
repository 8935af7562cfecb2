/** Whole calls of `push` and `pop`: the steps a call takes when nothing interleaves and its
    loads are current, and what such a call does. */
module RingCalls {
  import opened Events
  import opened RingMachine

  lemma {:induction false} RunAppend(c: Counting, r: Ring, a: seq<Step>, b: seq<Step>)
    requires |r.slots| == RING_CAPACITY
    requires Legal(c, r, a) && Legal(c, Run(c, r, a), b)
    ensures Legal(c, r, a + b)
    ensures Run(c, r, a + b) == Run(c, Run(c, r, a), b)
    ensures Outcomes(c, r, a + b) == Outcomes(c, r, a) + Outcomes(c, Run(c, r, a), b)
    decreases |a|
  {
    if a == [] {
      assert a + b == b;
    } else {
      RunAppend(c, Next(c, r, a[0]), a[1..], b);
      assert (a + b)[0] == a[0] && (a + b)[1..] == a[1..] + b;
    }
  }

  lemma AppendAssociates(a: seq<StrokeEvent>, b: seq<StrokeEvent>, c: seq<StrokeEvent>)
    ensures a + (b + c) == (a + b) + c
  {
  }

  lemma {:induction false} EventsAppend(a: seq<Outcome>, b: seq<Outcome>)
    ensures EventsPushed(a + b) == EventsPushed(a) + EventsPushed(b)
    ensures EventsPopped(a + b) == EventsPopped(a) + EventsPopped(b)
  {
    if a == [] {
      assert a + b == b;
    } else {
      EventsAppend(a[1..], b);
      assert (a + b)[0] == a[0] && (a + b)[1..] == a[1..] + b;
      AppendAssociates(PushedBy(a[0]), EventsPushed(a[1..]), EventsPushed(b));
      AppendAssociates(PoppedBy(a[0]), EventsPopped(a[1..]), EventsPopped(b));
    }
  }

  /** The handle's cached tail leaves room for one more event. */
  predicate CacheShowsRoom(c: Counting, r: Ring, handle: nat)
    requires handle < |r.cachedTails|
  {
    c.Sub(r.head, r.cachedTails[handle]) < RING_CAPACITY
  }

  function PushSteps(c: Counting, r: Ring, handle: nat, e: StrokeEvent): seq<Step>
    requires handle < |r.cachedTails|
  {
    if CacheShowsRoom(c, r, handle) then [BeginPush(handle, e), WriteSlot, StoreHead]
    else if c.Sub(r.head, r.tail) < RING_CAPACITY then
      [BeginPush(handle, e), ReloadTail(r.tail), WriteSlot, StoreHead]
    else [BeginPush(handle, e), ReloadTail(r.tail)]
  }

  function AfterPush(c: Counting, r: Ring, handle: nat, e: StrokeEvent): (Ring, bool)
    requires handle < |r.cachedTails| && |r.slots| == RING_CAPACITY
  {
    var room := CacheShowsRoom(c, r, handle);
    var r := if room then r else r.(cachedTails := r.cachedTails[handle := r.tail]);
    if room || c.Sub(r.head, r.tail) < RING_CAPACITY then
      (r.(slots := r.slots[Index(r.head) := e], head := c.Increment(r.head)), true)
    else (r, false)
  }

  lemma PushIsRun(c: Counting, r: Ring, handle: nat, e: StrokeEvent)
    requires handle < |r.cachedTails| && |r.slots| == RING_CAPACITY && r.producer.ProducerIdle?
    requires MayLoad(c, r.cachedTails[handle], r.tail, r.tail)
    ensures var steps := PushSteps(c, r, handle, e);
            && Legal(c, r, steps)
            && Run(c, r, steps) == AfterPush(c, r, handle, e).0
            && EventsPopped(Outcomes(c, r, steps)) == []
            && EventsPushed(Outcomes(c, r, steps)) == if AfterPush(c, r, handle, e).1 then [e] else []
  {
    var begin, finish := BeginPush(handle, e), [WriteSlot, StoreHead];
    if CacheShowsRoom(c, r, handle) {
      WriteAndStore(c, Next(c, r, begin));
      RunCons(c, r, begin, finish);
      assert PushSteps(c, r, handle, e) == [begin] + finish;
    } else {
      PushWithReload(c, r, handle, e);
    }
  }

  lemma PushWithReload(c: Counting, r: Ring, handle: nat, e: StrokeEvent)
    requires handle < |r.cachedTails| && |r.slots| == RING_CAPACITY && r.producer.ProducerIdle?
    requires MayLoad(c, r.cachedTails[handle], r.tail, r.tail)
    requires !CacheShowsRoom(c, r, handle)
    ensures var steps := PushSteps(c, r, handle, e);
            && Legal(c, r, steps)
            && Run(c, r, steps) == AfterPush(c, r, handle, e).0
            && EventsPopped(Outcomes(c, r, steps)) == []
            && EventsPushed(Outcomes(c, r, steps)) == if AfterPush(c, r, handle, e).1 then [e] else []
  {
    hide Legal, Run, Outcomes, EventsPushed, EventsPopped;
    var begin, reload := BeginPush(handle, e), ReloadTail(r.tail);
    var r1 := Next(c, r, begin);
    var r2 := Next(c, r1, reload);
    assert r2.cachedTails[handle] == r.tail;
    var rest := if c.Sub(r.head, r.tail) < RING_CAPACITY then [WriteSlot, StoreHead] else [];
    if rest != [] {
      WriteAndStore(c, r2);
    } else {
      EmptyRun(c, r2);
    }
    RunCons(c, r1, reload, rest);
    RunCons(c, r, begin, [reload] + rest);
    assert PushSteps(c, r, handle, e) == [begin] + ([reload] + rest);
  }

  lemma RunCons(c: Counting, r: Ring, step: Step, rest: seq<Step>)
    requires |r.slots| == RING_CAPACITY
    requires Enabled(c, r, step) && Legal(c, Next(c, r, step), rest)
    ensures var steps, r' := [step] + rest, Next(c, r, step);
            && Legal(c, r, steps)
            && Run(c, r, steps) == Run(c, r', rest)
            && EventsPushed(Outcomes(c, r, steps)) == PushedBy(Result(c, r, step)) + EventsPushed(Outcomes(c, r', rest))
            && EventsPopped(Outcomes(c, r, steps)) == PoppedBy(Result(c, r, step)) + EventsPopped(Outcomes(c, r', rest))
  {
    assert ([step] + rest)[1..] == rest;
    var os := Outcomes(c, Next(c, r, step), rest);
    assert ([Result(c, r, step)] + os)[1..] == os;
  }

  lemma EmptyRun(c: Counting, r: Ring)
    requires |r.slots| == RING_CAPACITY
    ensures Legal(c, r, []) && Run(c, r, []) == r
    ensures EventsPushed(Outcomes(c, r, [])) == EventsPopped(Outcomes(c, r, [])) == []
  {
  }

  lemma WriteAndStore(c: Counting, r: Ring)
    requires |r.slots| == RING_CAPACITY
    requires Enabled(c, r, WriteSlot)
    ensures var steps := [WriteSlot, StoreHead];
            && Legal(c, r, steps)
            && Run(c, r, steps) == r.(slots := r.slots[Index(r.producer.head) := r.producer.event],
                                      head := c.Increment(r.producer.head), producer := ProducerIdle)
            && EventsPushed(Outcomes(c, r, steps)) == [r.producer.event]
            && EventsPopped(Outcomes(c, r, steps)) == []
  {
    var r1 := Next(c, r, WriteSlot);
    RunCons(c, r1, StoreHead, []);
    RunCons(c, r, WriteSlot, [StoreHead] + []);
    assert [WriteSlot, StoreHead] == [WriteSlot] + ([StoreHead] + []);
  }

  /** The cached head shows an unread event. */
  predicate CacheShowsEvent(c: Counting, r: Ring) {
    c.Sub(r.cachedHead, r.tail) != 0
  }

  function PopSteps(c: Counting, r: Ring): seq<Step> {
    if CacheShowsEvent(c, r) then [BeginPop, ReadSlot, StoreTail]
    else if c.Sub(r.head, r.tail) != 0 then [BeginPop, ReloadHead(r.head), ReadSlot, StoreTail]
    else [BeginPop, ReloadHead(r.head)]
  }

  function AfterPop(c: Counting, r: Ring): (Ring, seq<StrokeEvent>)
    requires |r.slots| == RING_CAPACITY
  {
    var shows := CacheShowsEvent(c, r);
    var r := if shows then r else r.(cachedHead := r.head);
    if shows || c.Sub(r.head, r.tail) != 0 then
      (r.(tail := c.Increment(r.tail)), [r.slots[Index(r.tail)]])
    else (r, [])
  }

  lemma PopIsRun(c: Counting, r: Ring)
    requires |r.slots| == RING_CAPACITY && r.consumer.ConsumerIdle?
    requires MayLoad(c, r.cachedHead, r.head, r.head)
    ensures var steps := PopSteps(c, r);
            && Legal(c, r, steps)
            && Run(c, r, steps) == AfterPop(c, r).0
            && EventsPushed(Outcomes(c, r, steps)) == []
            && EventsPopped(Outcomes(c, r, steps)) == AfterPop(c, r).1
  {
    var begin, finish := BeginPop, [ReadSlot, StoreTail];
    if CacheShowsEvent(c, r) {
      ReadAndStore(c, Next(c, r, begin));
      RunCons(c, r, begin, finish);
      assert PopSteps(c, r) == [begin] + finish;
    } else {
      PopWithReload(c, r);
    }
  }

  lemma PopWithReload(c: Counting, r: Ring)
    requires |r.slots| == RING_CAPACITY && r.consumer.ConsumerIdle?
    requires MayLoad(c, r.cachedHead, r.head, r.head)
    requires !CacheShowsEvent(c, r)
    ensures var steps := PopSteps(c, r);
            && Legal(c, r, steps)
            && Run(c, r, steps) == AfterPop(c, r).0
            && EventsPushed(Outcomes(c, r, steps)) == []
            && EventsPopped(Outcomes(c, r, steps)) == AfterPop(c, r).1
  {
    hide Legal, Run, Outcomes, EventsPushed, EventsPopped;
    var begin, reload := BeginPop, ReloadHead(r.head);
    var r1 := Next(c, r, begin);
    var r2 := Next(c, r1, reload);
    var rest := if c.Sub(r.head, r.tail) != 0 then [ReadSlot, StoreTail] else [];
    if rest != [] {
      ReadAndStore(c, r2);
    } else {
      EmptyRun(c, r2);
    }
    RunCons(c, r1, reload, rest);
    RunCons(c, r, begin, [reload] + rest);
    assert PopSteps(c, r) == [begin] + ([reload] + rest);
  }

  lemma ReadAndStore(c: Counting, r: Ring)
    requires |r.slots| == RING_CAPACITY
    requires Enabled(c, r, ReadSlot)
    ensures var steps := [ReadSlot, StoreTail];
            && Legal(c, r, steps)
            && Run(c, r, steps) == r.(tail := c.Increment(r.consumer.tail), consumer := ConsumerIdle)
            && EventsPushed(Outcomes(c, r, steps)) == []
            && EventsPopped(Outcomes(c, r, steps)) == [r.slots[Index(r.consumer.tail)]]
  {
    var r1 := Next(c, r, ReadSlot);
    RunCons(c, r1, StoreTail, []);
    RunCons(c, r, ReadSlot, [StoreTail] + []);
    assert [ReadSlot, StoreTail] == [ReadSlot] + ([StoreTail] + []);
  }
}
