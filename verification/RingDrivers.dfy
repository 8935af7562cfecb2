/** The throughput benchmark as a driver of the ring (shared-ipc/examples/throughput.rs). */
module RingDrivers {
  import opened Options
  import opened Words
  import opened Events
  import opened RingMachine
  import opened RingWords
  import opened RingCalls
  import opened RingObjects

  const WARMUP_N: nat := 1_000_000

  function MakeEvent(i: Word): StrokeEvent {
    StrokeEvent(1, i, 0.0, 0.0, 1.0, 1, seq(16, _ => 0), seq(8, _ => 0))
  }

  /** 0 + 1 + ... + (n - 1). */
  function SumBelow(n: nat): nat {
    if n == 0 then 0 else SumBelow(n - 1) + (n - 1)
  }

  lemma {:induction false} SumBelowClosedForm(n: nat)
    ensures SumBelow(n) == n * (n - 1) / 2
  {
    if n > 0 {
      SumBelowClosedForm(n - 1);
      assert n * (n - 1) == (n - 1) * (n - 2) + 2 * (n - 1);
    }
  }

  /** The same sum in a 64-bit register. */
  function Checksum(n: nat): Word {
    SumBelow(n) % WORD
  }

  lemma ChecksumStep(n: nat)
    requires n < WORD
    ensures WrappingAdd(Checksum(n), n) == Checksum(n + 1)
  {
    AddThenCut(SumBelow(n), n);
  }

  lemma AddThenCut(a: nat, b: nat)
    ensures (a % WORD + b) % WORD == (a + b) % WORD
  {
  }

  /** One push and one pop. */
  method Round(producer: AegisProducer, consumer: CelerConsumer, event: StrokeEvent, ghost r: Ring)
    returns (popped: Option<StrokeEvent>, ghost r': Ring)
    requires producer.ring == consumer.ring && producer.ring.events.Length == RING_CAPACITY
    requires Quiescent(r) && Queue(r) == []
    requires producer.ring.Snapshot(producer.cachedTail, consumer.cachedHead) == Wrap(r)
    modifies producer`cachedTail, consumer`cachedHead, producer.ring, producer.ring.events
    ensures popped == Some(event)
    ensures Quiescent(r') && Queue(r') == []
    ensures producer.ring.Snapshot(producer.cachedTail, consumer.cachedHead) == Wrap(r')
  {
    PushAppends(r, event);
    var ok := producer.Push(event);
    r' := AfterPush(Unbounded, r, 0, event).0;
    assert producer.ring.Snapshot(producer.cachedTail, consumer.cachedHead) == Wrap(r');
    PopTakesOldest(r');
    popped := consumer.Pop();
    r' := AfterPop(Unbounded, r').0;
    if !ok {
      popped := None;
    }
  }

  lemma FreshIsQuiescent()
    ensures Quiescent(FRESH) && Queue(FRESH) == [] && Wrap(FRESH) == FRESH
  {
    assert WrapAll([0]) == [0];
  }

  /** The alternating driver: no push and no pop ever fails, so no `unwrap` panics (`None`),
      and the checksum is that of 0..n-1. */
  method BenchSingleThreaded(n: Word) returns (checksum: Option<Word>)
    ensures checksum == Some((n * (n - 1) / 2) % WORD)
  {
    hide Queue, Wrap;
    FreshIsQuiescent();
    var ring := new SharedRing();
    var producer := new AegisProducer(ring);
    var consumer := new CelerConsumer(ring);
    ghost var r := FRESH;
    var popped: Option<StrokeEvent>;
    for i := 0 to WARMUP_N
      invariant Quiescent(r) && Queue(r) == []
      invariant ring.Snapshot(producer.cachedTail, consumer.cachedHead) == Wrap(r)
    {
      popped, r := Round(producer, consumer, MakeEvent(i), r);
      if popped.None? { return None; }
    }
    var sum: Word := 0;
    for i := 0 to n
      invariant Quiescent(r) && Queue(r) == []
      invariant ring.Snapshot(producer.cachedTail, consumer.cachedHead) == Wrap(r)
      invariant sum == Checksum(i)
    {
      popped, r := Round(producer, consumer, MakeEvent(i), r);
      if popped.None? { return None; }
      ChecksumStep(i);
      sum := WrappingAdd(sum, popped.value.timestamp);
    }
    SumBelowClosedForm(n);
    checksum := Some(sum);
  }

  // ----- The two-thread driver -----

  /** The ring together with the local variables of both threads. */
  datatype Threads = Threads(ring: Ring, sent: nat, received: nat, checksum: Word)

  /** The producer thread pushes event `sent` until it is taken; the consumer thread pops until
      `n` events came out. */
  predicate ThreadMayStep(n: Word, t: Threads, step: Step) {
    && Enabled(Wrapping, t.ring, step)
    && match step
       case BeginPush(h, e) => t.sent < n && h == 0 && t.sent < WORD && e == MakeEvent(t.sent)
       case CloneHandle(_) => false
       case BeginPop => t.received < n
       case _ => true
  }

  function ThreadStep(n: Word, t: Threads, step: Step): Threads
    requires ThreadMayStep(n, t, step) && |t.ring.slots| == RING_CAPACITY
  {
    var ring := Next(Wrapping, t.ring, step);
    match Result(Wrapping, t.ring, step)
    case Pushed(_) => t.(ring := ring, sent := t.sent + 1)
    case Popped(e) =>
      t.(ring := ring, received := t.received + 1, checksum := WrappingAdd(t.checksum, e.timestamp))
    case _ => t.(ring := ring)
  }

  predicate ThreadsLegal(n: Word, t: Threads, steps: seq<Step>)
    requires |t.ring.slots| == RING_CAPACITY
    decreases |steps|
  {
    steps == [] ||
    (ThreadMayStep(n, t, steps[0]) && ThreadsLegal(n, ThreadStep(n, t, steps[0]), steps[1..]))
  }

  function RunThreads(n: Word, t: Threads, steps: seq<Step>): Threads
    requires |t.ring.slots| == RING_CAPACITY && ThreadsLegal(n, t, steps)
    decreases |steps|
  {
    if steps == [] then t else RunThreads(n, ThreadStep(n, t, steps[0]), steps[1..])
  }

  /** The consumed events of the run, in order. */
  function Received(n: Word, t: Threads, steps: seq<Step>): seq<StrokeEvent>
    requires |t.ring.slots| == RING_CAPACITY && ThreadsLegal(n, t, steps)
    decreases |steps|
  {
    if steps == [] then []
    else PoppedBy(Result(Wrapping, t.ring, steps[0])) + Received(n, ThreadStep(n, t, steps[0]), steps[1..])
  }

  /** The events made from the numbers lo..hi-1. */
  function MadeEvents(lo: nat, hi: nat): (es: seq<StrokeEvent>)
    requires lo <= hi <= WORD
    ensures |es| == hi - lo
  {
    seq(hi - lo, i requires 0 <= i < hi - lo => MakeEvent(lo + i))
  }

  lemma MadeEventsGrow(lo: nat, hi: nat)
    requires lo <= hi < WORD
    ensures MadeEvents(lo, hi) + [MakeEvent(hi)] == MadeEvents(lo, hi + 1)
    ensures [MakeEvent(lo)] + MadeEvents(lo + 1, hi + 1) == MadeEvents(lo, hi + 1)
  {
  }

  /** The ring `r` over unbounded counters behind the threads' ring: the unread events are the
      made events from `received` up to `sent`. */
  ghost predicate ThreadsInv(n: Word, t: Threads, r: Ring) {
    && Inv(r) && Wrap(r) == t.ring
    && |r.cachedTails| == 1 && r.head - r.cachedTails[0] <= RING_CAPACITY
    && t.received == r.tail && t.sent == r.head <= n
    && (!r.producer.ProducerIdle? ==> r.head < n && r.producer.event == MakeEvent(r.head))
    && t.checksum == Checksum(t.received)
    && Queue(r) == MadeEvents(r.tail, r.head)
    && (!r.consumer.ConsumerIdle? ==> t.received < n)
  }

  /** What one step of either thread must keep. */
  ghost predicate ThreadStepKeeps(n: Word, t: Threads, r: Ring, step: Step)
    requires |t.ring.slots| == |r.slots| == RING_CAPACITY && ThreadMayStep(n, t, step)
  {
    && Enabled(Unbounded, r, Lift(r, step))
    && ThreadsInv(n, ThreadStep(n, t, step), Next(Unbounded, r, Lift(r, step)))
    && PoppedBy(Result(Wrapping, t.ring, step)) == (if step.StoreTail? then [MakeEvent(t.received)] else [])
    && ThreadStep(n, t, step).received == t.received + (if step.StoreTail? then 1 else 0)
  }

  lemma StoreHeadKeepsThreads(n: Word, t: Threads, r: Ring)
    requires ThreadsInv(n, t, r) && ThreadMayStep(n, t, StoreHead)
    ensures ThreadStepKeeps(n, t, r, StoreHead)
  {
    StepRefinesUnbounded(r, StoreHead);
    StepRefinesFifo(r, StoreHead);
    MadeEventsGrow(r.tail, r.head);
    var r' := Next(Unbounded, r, StoreHead);
    assert Queue(r') == Queue(r) + [MakeEvent(r.head)] == MadeEvents(r'.tail, r'.head);
  }

  lemma StoreTailKeepsThreads(n: Word, t: Threads, r: Ring)
    requires ThreadsInv(n, t, r) && ThreadMayStep(n, t, StoreTail)
    ensures ThreadStepKeeps(n, t, r, StoreTail)
  {
    StepRefinesUnbounded(r, StoreTail);
    StepRefinesFifo(r, StoreTail);
    MadeEventsGrow(r.tail, r.head - 1);
    var e, r' := r.consumer.event, Next(Unbounded, r, StoreTail);
    assert [e] + Queue(r') == [MakeEvent(r.tail)] + MadeEvents(r.tail + 1, r.head);
    assert ([e] + Queue(r'))[0] == e && ([e] + Queue(r'))[1..] == Queue(r');
    assert e == MakeEvent(r.tail) && Queue(r') == MadeEvents(r'.tail, r'.head);
    ChecksumStep(r.tail);
  }

  lemma QuietStepShape(r: Ring, step: Step)
    requires Inv(r) && Enabled(Unbounded, r, step)
    requires !step.StoreHead? && !step.StoreTail? && !step.CloneHandle?
    ensures var r' := Next(Unbounded, r, step);
            && r'.head == r.head && r'.tail == r.tail
            && Queue(r') == Queue(r)
            && PoppedBy(Result(Unbounded, r, step)) == []
            && |r'.cachedTails| == |r.cachedTails|
            && (forall i :: 0 <= i < |r.cachedTails| ==> r'.cachedTails[i] >= r.cachedTails[i])
            && (!r'.producer.ProducerIdle? ==>
                  || step == BeginPush(r'.producer.handle, r'.producer.event)
                  || (!r.producer.ProducerIdle? && r'.producer.event == r.producer.event))
            && (!r'.consumer.ConsumerIdle? ==> step.BeginPop? || !r.consumer.ConsumerIdle?)
  {
    StepRefinesFifo(r, step);
  }

  lemma QuietStepKeepsThreads(n: Word, t: Threads, r: Ring, step: Step)
    requires ThreadsInv(n, t, r) && ThreadMayStep(n, t, step)
    requires !step.StoreHead? && !step.StoreTail?
    ensures ThreadStepKeeps(n, t, r, step)
  {
    StepRefinesUnbounded(r, step);
    StepKeepsInv(r, Lift(r, step));
    QuietStepShape(r, Lift(r, step));
  }

  lemma ThreadStepKeepsInv(n: Word, t: Threads, r: Ring, step: Step)
    requires ThreadsInv(n, t, r) && ThreadMayStep(n, t, step)
    ensures ThreadStepKeeps(n, t, r, step)
  {
    match step {
      case StoreHead => StoreHeadKeepsThreads(n, t, r);
      case StoreTail => StoreTailKeepsThreads(n, t, r);
      case _ => QuietStepKeepsThreads(n, t, r, step);
    }
  }

  lemma {:induction false} RunThreadsKeepsInv(n: Word, t: Threads, r: Ring, steps: seq<Step>)
    requires ThreadsInv(n, t, r) && ThreadsLegal(n, t, steps)
    ensures var t' := RunThreads(n, t, steps);
            && t.received <= t'.received <= n
            && t'.checksum == Checksum(t'.received)
            && Received(n, t, steps) == MadeEvents(t.received, t'.received)
    decreases |steps|
  {
    if steps == [] {
    } else {
      ThreadStepKeepsInv(n, t, r, steps[0]);
      var t' := ThreadStep(n, t, steps[0]);
      assert PoppedBy(Result(Wrapping, t.ring, steps[0])) == MadeEvents(t.received, t'.received);
      hide ThreadsInv, ThreadStep, Enabled, Next, Result, MadeEvents, Checksum;
      RunThreadsKeepsInv(n, t', Next(Unbounded, r, Lift(r, steps[0])), steps[1..]);
      MadeEventsJoin(t.received, t'.received, RunThreads(n, t', steps[1..]).received);
    }
  }

  lemma MadeEventsJoin(lo: nat, mid: nat, hi: nat)
    requires lo <= mid <= hi <= WORD
    ensures MadeEvents(lo, mid) + MadeEvents(mid, hi) == MadeEvents(lo, hi)
  {
  }

  /** The two-thread driver, in every interleaving: what the consumer has received is always
      the first made events in order with their checksum, so when it stops it has received
      exactly events 0..n-1. */
  lemma SpscDeliversInOrder(n: Word, steps: seq<Step>)
    requires ThreadsLegal(n, Threads(FRESH, 0, 0, 0), steps)
    ensures var t := RunThreads(n, Threads(FRESH, 0, 0, 0), steps);
            && t.received <= n
            && Received(n, Threads(FRESH, 0, 0, 0), steps) == MadeEvents(0, t.received)
            && t.checksum == Checksum(t.received)
            && (t.received == n ==> t.checksum == (n * (n - 1) / 2) % WORD)
  {
    assert Wrap(FRESH) == FRESH;
    SumBelowClosedForm(n);
    RunThreadsKeepsInv(n, Threads(FRESH, 0, 0, 0), FRESH, steps);
  }
}
