/** The single-producer/single-consumer ring as a step machine: every atomic load, slot
    write, slot read and atomic store is a step of its own, and the steps of the two
    sides interleave freely. The same steps are read twice: over unbounded counters,
    and over 64-bit words that wrap. */
module RingMachine {
  import opened Words
  import opened Events

  const RING_CAPACITY: nat := 131072
  const INDEX_MASK: nat := RING_CAPACITY - 1

  /** The slot of a counter, `counter & INDEX_MASK`. */
  function Index(counter: nat): (i: nat)
    ensures i == counter % RING_CAPACITY
  {
    assert Pow2(5) == 32 && Pow2(10) == 1024 && Pow2(17) == RING_CAPACITY;
    MaskIsRemainder(counter, 17);
    BitAnd(counter, INDEX_MASK)
  }

  datatype Counting = Unbounded | Wrapping {
    function Increment(a: nat): nat {
      if Unbounded? then a + 1 else WrappingAdd(a, 1)
    }

    function Sub(a: nat, b: nat): int {
      if Unbounded? then a - b else WrappingSub(a, b)
    }
  }

  /** Where a push stands. `Loaded`: head is loaded, the slot is not yet written.
      `Written`: the slot is written, head is not yet stored. */
  datatype ProducerAt =
    | ProducerIdle
    | Loaded(handle: nat, event: StrokeEvent, head: nat)
    | Written(handle: nat, event: StrokeEvent, head: nat)

  datatype ConsumerAt =
    | ConsumerIdle
    | Observing(tail: nat)
    | Taken(tail: nat, event: StrokeEvent)

  /** The shared memory, the cached tail of every producer handle, the cached head of the
      one consumer handle, and where each side stands. */
  datatype Ring = Ring(
    head: nat,
    tail: nat,
    slots: seq<StrokeEvent>,
    cachedTails: seq<nat>,
    producer: ProducerAt,
    cachedHead: nat,
    consumer: ConsumerAt)

  function BlankSlots(): (s: seq<StrokeEvent>)
    ensures |s| == RING_CAPACITY
  {
    seq(RING_CAPACITY, i => BLANK)
  }

  /** Zeroed memory to which one producer and one consumer attach fresh. */
  const FRESH := Ring(0, 0, BlankSlots(), [0], ProducerIdle, 0, ConsumerIdle)

  datatype Step =
    | BeginPush(handle: nat, event: StrokeEvent)
    | ReloadTail(value: nat)
    | WriteSlot
    | StoreHead
    | CloneHandle(handle: nat)
    | BeginPop
    | ReloadHead(value: nat)
    | ReadSlot
    | StoreTail

  datatype Outcome =
    | Silent
    | Pushed(event: StrokeEvent)
    | QueueFull
    | Popped(event: StrokeEvent)
    | FoundEmpty

  /** Room according to the handle's possibly stale copy of tail. */
  predicate SeesRoom(c: Counting, r: Ring)
    requires r.producer.Loaded? && r.producer.handle < |r.cachedTails|
  {
    c.Sub(r.producer.head, r.cachedTails[r.producer.handle]) < RING_CAPACITY
  }

  predicate SeesEvent(c: Counting, r: Ring)
    requires r.consumer.Observing?
  {
    c.Sub(r.cachedHead, r.consumer.tail) != 0
  }

  /** An acquire load may return any value the counter took since `seen`, the last one
      this handle observed. */
  predicate MayLoad(c: Counting, seen: nat, value: nat, current: nat) {
    && 0 <= c.Sub(value, seen) <= c.Sub(current, seen)
    && (c.Wrapping? ==> value < WORD)
  }

  predicate Enabled(c: Counting, r: Ring, step: Step) {
    match step
    case BeginPush(h, _) => r.producer.ProducerIdle? && h < |r.cachedTails|
    case ReloadTail(v) =>
      && r.producer.Loaded? && r.producer.handle < |r.cachedTails|
      && !SeesRoom(c, r)
      && MayLoad(c, r.cachedTails[r.producer.handle], v, r.tail)
    case WriteSlot =>
      r.producer.Loaded? && r.producer.handle < |r.cachedTails| && SeesRoom(c, r)
    case StoreHead => r.producer.Written?
    case CloneHandle(h) =>
      && h < |r.cachedTails|
      && (r.producer.ProducerIdle? || r.producer.handle != h)
    case BeginPop => r.consumer.ConsumerIdle?
    case ReloadHead(v) =>
      r.consumer.Observing? && !SeesEvent(c, r) && MayLoad(c, r.cachedHead, v, r.head)
    case ReadSlot => r.consumer.Observing? && SeesEvent(c, r)
    case StoreTail => r.consumer.Taken?
  }

  function Next(c: Counting, r: Ring, step: Step): Ring
    requires Enabled(c, r, step)
    requires |r.slots| == RING_CAPACITY
  {
    match step
    case BeginPush(h, e) => r.(producer := Loaded(h, e, r.head))
    case ReloadTail(v) =>
      var reloaded := r.(cachedTails := r.cachedTails[r.producer.handle := v]);
      if SeesRoom(c, reloaded) then reloaded else reloaded.(producer := ProducerIdle)
    case WriteSlot =>
      r.(slots := r.slots[Index(r.producer.head) := r.producer.event],
         producer := Written(r.producer.handle, r.producer.event, r.producer.head))
    case StoreHead => r.(head := c.Increment(r.producer.head), producer := ProducerIdle)
    case CloneHandle(h) => r.(cachedTails := r.cachedTails + [r.cachedTails[h]])
    case BeginPop => r.(consumer := Observing(r.tail))
    case ReloadHead(v) =>
      var reloaded := r.(cachedHead := v);
      if SeesEvent(c, reloaded) then reloaded else reloaded.(consumer := ConsumerIdle)
    case ReadSlot =>
      r.(consumer := Taken(r.consumer.tail, r.slots[Index(r.consumer.tail)]))
    case StoreTail => r.(tail := c.Increment(r.consumer.tail), consumer := ConsumerIdle)
  }

  /** What the caller of `push` or `pop` learns from the step. */
  function Result(c: Counting, r: Ring, step: Step): Outcome
    requires Enabled(c, r, step)
    requires |r.slots| == RING_CAPACITY
  {
    match step
    case ReloadTail(_) => if Next(c, r, step).producer.ProducerIdle? then QueueFull else Silent
    case StoreHead => Pushed(r.producer.event)
    case ReloadHead(_) => if Next(c, r, step).consumer.ConsumerIdle? then FoundEmpty else Silent
    case StoreTail => Popped(r.consumer.event)
    case _ => Silent
  }

  // ----- Runs -----

  predicate Legal(c: Counting, r: Ring, steps: seq<Step>)
    requires |r.slots| == RING_CAPACITY
    decreases |steps|
  {
    steps == [] || (Enabled(c, r, steps[0]) && Legal(c, Next(c, r, steps[0]), steps[1..]))
  }

  function Run(c: Counting, r: Ring, steps: seq<Step>): (r': Ring)
    requires |r.slots| == RING_CAPACITY
    requires Legal(c, r, steps)
    ensures |r'.slots| == RING_CAPACITY
    decreases |steps|
  {
    if steps == [] then r else Run(c, Next(c, r, steps[0]), steps[1..])
  }

  /** The results of the run, in order. */
  function Outcomes(c: Counting, r: Ring, steps: seq<Step>): (os: seq<Outcome>)
    requires |r.slots| == RING_CAPACITY
    requires Legal(c, r, steps)
    ensures |os| == |steps|
    decreases |steps|
  {
    if steps == [] then []
    else [Result(c, r, steps[0])] + Outcomes(c, Next(c, r, steps[0]), steps[1..])
  }

  function PushedBy(o: Outcome): seq<StrokeEvent> {
    if o.Pushed? then [o.event] else []
  }

  function PoppedBy(o: Outcome): seq<StrokeEvent> {
    if o.Popped? then [o.event] else []
  }

  function EventsPushed(os: seq<Outcome>): seq<StrokeEvent> {
    if os == [] then [] else PushedBy(os[0]) + EventsPushed(os[1..])
  }

  function EventsPopped(os: seq<Outcome>): seq<StrokeEvent> {
    if os == [] then [] else PoppedBy(os[0]) + EventsPopped(os[1..])
  }

  // ----- Safety over unbounded counters -----

  /** What every step keeps. */
  ghost predicate Inv(r: Ring) {
    && |r.slots| == RING_CAPACITY
    && r.tail <= r.head <= r.tail + RING_CAPACITY
    && (forall i :: 0 <= i < |r.cachedTails| ==> r.cachedTails[i] <= r.tail)
    && r.tail <= r.cachedHead <= r.head
    && (!r.producer.ProducerIdle? ==>
          r.producer.handle < |r.cachedTails| && r.producer.head == r.head)
    && (r.producer.Written? ==>
          && r.head - r.cachedTails[r.producer.handle] < RING_CAPACITY
          && r.slots[Index(r.head)] == r.producer.event)
    && (!r.consumer.ConsumerIdle? ==> r.consumer.tail == r.tail)
    && (r.consumer.Taken? ==>
          r.tail < r.cachedHead && r.slots[Index(r.tail)] == r.consumer.event)
  }

  /** The events in the ring, oldest first. */
  function Queue(r: Ring): seq<StrokeEvent>
    requires |r.slots| == RING_CAPACITY && r.tail <= r.head
  {
    seq(r.head - r.tail, i requires 0 <= i => r.slots[Index(r.tail + i)])
  }

  /** Counters less than a capacity apart have different slots. */
  lemma IndexInjective(a: nat, b: nat)
    requires a < b < a + RING_CAPACITY
    ensures Index(a) != Index(b)
  {
  }

  /** The bounded first-in-first-out queue that the ring promises to be. */
  ghost predicate FifoStep(before: seq<StrokeEvent>, o: Outcome, after: seq<StrokeEvent>) {
    match o
    case Pushed(e) => |before| < RING_CAPACITY && after == before + [e]
    case Popped(e) => before == [e] + after
    case _ => after == before
  }

  lemma StepKeepsInv(r: Ring, step: Step)
    requires Inv(r) && Enabled(Unbounded, r, step)
    ensures Inv(Next(Unbounded, r, step))
  {
    if step.WriteSlot? && r.consumer.Taken? {
      IndexInjective(r.tail, r.head);
    }
  }

  /** Every step of the ring is a step of the bounded queue. A push that reloads the current
      tail fails exactly if the ring is full then; a pop that reloads the current head finds
      nothing exactly if the ring is empty then. */
  lemma StepRefinesFifo(r: Ring, step: Step)
    requires Inv(r) && Enabled(Unbounded, r, step)
    ensures Inv(Next(Unbounded, r, step))
    ensures FifoStep(Queue(r), Result(Unbounded, r, step), Queue(Next(Unbounded, r, step)))
    ensures step == ReloadTail(r.tail) ==>
              (Result(Unbounded, r, step) == QueueFull <==> |Queue(r)| == RING_CAPACITY)
    ensures step == ReloadHead(r.head) ==>
              (Result(Unbounded, r, step) == FoundEmpty <==> Queue(r) == [])
  {
    StepKeepsInv(r, step);
    if step.WriteSlot? {
      WriteSlotKeepsQueue(r);
    }
  }

  lemma WriteSlotKeepsQueue(r: Ring)
    requires Inv(r) && Enabled(Unbounded, r, WriteSlot)
    ensures Queue(Next(Unbounded, r, WriteSlot)) == Queue(r)
  {
    forall i | 0 <= i < r.head - r.tail
      ensures Queue(Next(Unbounded, r, WriteSlot))[i] == Queue(r)[i]
    {
      IndexInjective(r.tail + i, r.head);
    }
  }

  /** The producer is about to write a slot, or has written one and not yet published it. */
  predicate HoldsSlot(c: Counting, r: Ring) {
    || r.producer.Written?
    || (r.producer.Loaded? && r.producer.handle < |r.cachedTails| && SeesRoom(c, r))
  }

  /** The slot being written is never the one the consumer may be reading. */
  predicate NoSlotClash(c: Counting, r: Ring) {
    HoldsSlot(c, r) && r.consumer.Observing? && SeesEvent(c, r) ==>
      Index(r.producer.head) != Index(r.consumer.tail)
  }

  /** The slot being written holds no unread event, so the consumer cannot be reading it. */
  lemma WriterNeverTouchesUnreadSlot(r: Ring)
    requires Inv(r)
    ensures forall k :: HoldsSlot(Unbounded, r) && r.tail <= k < r.head ==>
              Index(r.producer.head) != Index(k)
    ensures NoSlotClash(Unbounded, r)
  {
    forall k | HoldsSlot(Unbounded, r) && r.tail <= k < r.head
      ensures Index(r.producer.head) != Index(k)
    {
      IndexInjective(k, r.head);
    }
  }

  lemma FifoStepConserves(before: seq<StrokeEvent>, o: Outcome, after: seq<StrokeEvent>,
                          pushed: seq<StrokeEvent>, popped: seq<StrokeEvent>, rest: seq<StrokeEvent>)
    requires FifoStep(before, o, after)
    requires after + pushed == popped + rest
    ensures before + (PushedBy(o) + pushed) == (PoppedBy(o) + popped) + rest
  {
    assert before + (PushedBy(o) + pushed) == PoppedBy(o) + (after + pushed);
  }

  /** Over any run, what was queued plus what was pushed is what was popped plus what is
      still queued, in order. */
  lemma {:induction false} RunRefinesFifo(r: Ring, steps: seq<Step>)
    requires Inv(r) && Legal(Unbounded, r, steps)
    ensures Inv(Run(Unbounded, r, steps))
    ensures var os := Outcomes(Unbounded, r, steps);
            Queue(r) + EventsPushed(os) == EventsPopped(os) + Queue(Run(Unbounded, r, steps))
    decreases |steps|
  {
    var os := Outcomes(Unbounded, r, steps);
    if steps == [] {
      assert Queue(r) + [] == [] + Queue(r);
    } else {
      var r' := Next(Unbounded, r, steps[0]);
      StepRefinesFifo(r, steps[0]);
      RunRefinesFifo(r', steps[1..]);
      var os' := Outcomes(Unbounded, r', steps[1..]);
      assert os[1..] == os';
      FifoStepConserves(Queue(r), os[0], Queue(r'), EventsPushed(os'), EventsPopped(os'),
                        Queue(Run(Unbounded, r', steps[1..])));
    }
  }
}
