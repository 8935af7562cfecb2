/** The handles of the ring as objects that update shared memory in place, proved against the
    step machine. */
module RingObjects {
  import opened Options
  import opened Words
  import opened Events
  import opened RingMachine
  import opened RingWords
  import opened RingCalls

  class SharedRing {
    var head: Word
    var tail: Word
    const events: array<StrokeEvent>

    /** Zeroed shared memory. */
    constructor ()
      ensures events.Length == RING_CAPACITY && fresh(events)
      ensures Snapshot(0, 0) == FRESH
    {
      head, tail := 0, 0;
      events := new StrokeEvent[RING_CAPACITY](_ => BLANK);
      new;
      assert events[..] == FRESH.slots;
    }

    /** The machine state this memory stands for between calls, given what the handles hold. */
    function Snapshot(cachedTail: nat, cachedHead: nat): (r: Ring)
      reads this, events
    {
      Ring(head, tail, events[..], [cachedTail], ProducerIdle, cachedHead, ConsumerIdle)
    }
  }

  class AegisProducer {
    const ring: SharedRing
    var cachedTail: Word

    constructor (ring: SharedRing)
      ensures this.ring == ring && cachedTail == 0
    {
      this.ring := ring;
      cachedTail := 0;
    }

    /** One undisturbed run of the producer's steps. The consumer's cache plays no part. */
    method Push(event: StrokeEvent) returns (ok: bool)
      requires ring.events.Length == RING_CAPACITY
      modifies this`cachedTail, ring`head, ring.events
      ensures (ring.Snapshot(cachedTail, 0), ok) ==
              AfterPush(Wrapping, old(ring.Snapshot(cachedTail, 0)), 0, event)
    {
      var currentHead := ring.head;
      if WrappingSub(currentHead, cachedTail) >= RING_CAPACITY {
        cachedTail := ring.tail;
        assert old(ring.Snapshot(cachedTail, 0)).cachedTails[0 := ring.tail] == [cachedTail];
        if WrappingSub(currentHead, cachedTail) >= RING_CAPACITY {
          return false;
        }
      }
      var index := Index(currentHead);
      ring.events[index] := event;
      ring.head := WrappingAdd(currentHead, 1);
      ok := true;
    }

    /** The clone works on the same memory from the same cached tail. */
    method Clone() returns (copy: AegisProducer)
      ensures fresh(copy) && copy.ring == ring && copy.cachedTail == cachedTail
      ensures var r := ring.Snapshot(cachedTail, 0);
              |r.slots| == RING_CAPACITY ==>
                r.(cachedTails := [cachedTail, copy.cachedTail]) == Next(Wrapping, r, CloneHandle(0))
    {
      copy := new AegisProducer(ring);
      copy.cachedTail := cachedTail;
    }
  }

  class CelerConsumer {
    const ring: SharedRing
    var cachedHead: Word

    constructor (ring: SharedRing)
      ensures this.ring == ring && cachedHead == 0
    {
      this.ring := ring;
      cachedHead := 0;
    }

    /** One undisturbed run of the consumer's steps; at most one event comes out. */
    method Pop() returns (event: Option<StrokeEvent>)
      requires ring.events.Length == RING_CAPACITY
      modifies this`cachedHead, ring`tail
      ensures (ring.Snapshot(0, cachedHead), if event.Some? then [event.value] else []) ==
              AfterPop(Wrapping, old(ring.Snapshot(0, cachedHead)))
    {
      var currentTail := ring.tail;
      if WrappingSub(cachedHead, currentTail) == 0 {
        cachedHead := ring.head;
        if WrappingSub(cachedHead, currentTail) == 0 {
          return None;
        }
      }
      var index := Index(currentTail);
      event := Some(ring.events[index]);
      ring.tail := WrappingAdd(currentTail, 1);
    }
  }

  // ----- Whole calls, over words, on one producer handle -----

  /** No call is under way and the one handle's cache is at most a capacity behind. */
  ghost predicate Quiescent(r: Ring) {
    && Inv(r)
    && r.producer.ProducerIdle? && r.consumer.ConsumerIdle?
    && |r.cachedTails| == 1 && r.head - r.cachedTails[0] <= RING_CAPACITY
  }

  /** A whole push appends its event exactly if the ring is not full, and otherwise changes
      nothing that can be read; its copy of tail is taken anew exactly if it shows no room; over
      words it does the same. */
  lemma PushAppends(r: Ring, e: StrokeEvent)
    requires Quiescent(r)
    ensures var (r', ok) := AfterPush(Unbounded, r, 0, e);
            && Quiescent(r')
            && (ok <==> |Queue(r)| < RING_CAPACITY)
            && Queue(r') == (if ok then Queue(r) + [e] else Queue(r))
            && r'.head == r.head + (if ok then 1 else 0) && r'.tail == r.tail && r'.cachedHead == r.cachedHead
            && r'.cachedTails == [if r.head - r.cachedTails[0] < 131072 then r.cachedTails[0] else r.tail]
            && AfterPush(Wrapping, Wrap(r), 0, e) == (Wrap(r'), ok)
  {
    var (r', ok) := AfterPush(Unbounded, r, 0, e);
    PushIsRun(Unbounded, r, 0, e);
    RunRefinesFifo(r, PushSteps(Unbounded, r, 0, e));
    assert Queue(r') == [] + Queue(r');
    assert Queue(r) == Queue(r) + [];
    PushOverWords(r, e);
  }

  lemma PushOverWords(r: Ring, e: StrokeEvent)
    requires Quiescent(r)
    ensures var (r', ok) := AfterPush(Unbounded, r, 0, e);
            AfterPush(Wrapping, Wrap(r), 0, e) == (Wrap(r'), ok)
  {
    SubOfWrapped(r.head, r.cachedTails[0]);
    SubOfWrapped(r.head, r.tail);
    IndexOfWrapped(r.head);
    IncrementOfWrapped(r.head);
    assert WrapAll(r.cachedTails[0 := r.tail]) == WrapAll(r.cachedTails)[0 := r.tail % WORD];
  }

  /** A whole pop takes the oldest event exactly if there is one; its copy of head is taken anew
      exactly if it shows no event; over words it does the same. */
  lemma PopTakesOldest(r: Ring)
    requires Quiescent(r)
    ensures var (r', es) := AfterPop(Unbounded, r);
            && Quiescent(r')
            && es + Queue(r') == Queue(r)
            && |es| == (if Queue(r) == [] then 0 else 1)
            && r'.tail == r.tail + |es| && r'.head == r.head && r'.cachedTails == r.cachedTails
            && r'.cachedHead == (if r.cachedHead != r.tail then r.cachedHead else r.head)
            && AfterPop(Wrapping, Wrap(r)) == (Wrap(r'), es)
  {
    var (r', es) := AfterPop(Unbounded, r);
    PopIsRun(Unbounded, r);
    RunRefinesFifo(r, PopSteps(Unbounded, r));
    assert Queue(r) == Queue(r) + [];
    PopOverWords(r);
  }

  lemma PopOverWords(r: Ring)
    requires Quiescent(r)
    ensures var (r', es) := AfterPop(Unbounded, r);
            AfterPop(Wrapping, Wrap(r)) == (Wrap(r'), es)
  {
    SubOfWrapped(r.cachedHead, r.tail);
    SubOfWrapped(r.head, r.tail);
    IndexOfWrapped(r.tail);
    IncrementOfWrapped(r.tail);
  }
}
