/** The ring as it runs, on 64-bit counters that wrap, against the ring on unbounded
    counters. */
module RingWords {
  import opened Words
  import opened RingMachine

  function WrapProducer(p: ProducerAt): ProducerAt {
    match p
    case ProducerIdle => ProducerIdle
    case Loaded(i, e, h) => Loaded(i, e, h % WORD)
    case Written(i, e, h) => Written(i, e, h % WORD)
  }

  function WrapConsumer(c: ConsumerAt): ConsumerAt {
    match c
    case ConsumerIdle => ConsumerIdle
    case Observing(t) => Observing(t % WORD)
    case Taken(t, e) => Taken(t % WORD, e)
  }

  function WrapAll(cs: seq<nat>): (ws: seq<nat>)
    ensures |ws| == |cs|
    ensures forall i :: 0 <= i < |cs| ==> ws[i] == cs[i] % WORD
  {
    seq(|cs|, i requires 0 <= i < |cs| => cs[i] % WORD)
  }

  /** The same ring with every counter cut to 64 bits. */
  function Wrap(r: Ring): (w: Ring)
    ensures |w.slots| == |r.slots|
  {
    Ring(r.head % WORD, r.tail % WORD, r.slots,
         WrapAll(r.cachedTails),
         WrapProducer(r.producer), r.cachedHead % WORD, WrapConsumer(r.consumer))
  }

  /** A push holds a cached tail less than 2^64 behind its head. */
  ghost predicate CacheWithinWord(r: Ring) {
    !r.producer.ProducerIdle? ==>
      && r.producer.handle < |r.cachedTails|
      && r.producer.head - r.cachedTails[r.producer.handle] < WORD
  }

  lemma SubOfWrapped(a: nat, b: nat)
    requires 0 <= a - b < WORD
    ensures WrappingSub(a % WORD, b % WORD) == a - b
  {
  }

  lemma IncrementOfWrapped(a: nat)
    ensures WrappingAdd(a % WORD, 1) == (a + 1) % WORD
  {
  }

  /** Masking sees no wrap-around: the capacity divides 2^64. */
  lemma IndexOfWrapped(a: nat)
    ensures Index(a % WORD) == Index(a)
  {
    var k := WORD / RING_CAPACITY;
    assert a % WORD == a - WORD * (a / WORD);
    RemainderIsUnique(a, RING_CAPACITY, (a % WORD) / RING_CAPACITY + k * (a / WORD), (a % WORD) % RING_CAPACITY);
  }

  /** The step over unbounded counters that a step over words stands for: a loaded word is
      read as the counter nearest above the one last observed. */
  function Lift(r: Ring, step: Step): Step {
    match step
    case ReloadTail(v) =>
      if r.producer.Loaded? && r.producer.handle < |r.cachedTails| then
        var seen := r.cachedTails[r.producer.handle];
        ReloadTail(seen + Wrapping.Sub(v, seen % WORD))
      else step
    case ReloadHead(v) => ReloadHead(r.cachedHead + Wrapping.Sub(v, r.cachedHead % WORD))
    case _ => step
  }

  lemma LiftedLoad(seen: nat, value: nat, current: nat)
    requires 0 <= current - seen < WORD
    requires MayLoad(Wrapping, seen % WORD, value, current % WORD)
    ensures var lifted := seen + WrappingSub(value, seen % WORD);
            MayLoad(Unbounded, seen, lifted, current) && lifted % WORD == value
  {
    SubOfWrapped(current, seen);
  }

  /** A step over words does what its lifted step does over unbounded counters, with the
      same result. */
  ghost predicate Refines(r: Ring, step: Step)
    requires |r.slots| == RING_CAPACITY
  {
    && Enabled(Wrapping, Wrap(r), step)
    && Enabled(Unbounded, r, Lift(r, step))
    && Wrap(Next(Unbounded, r, Lift(r, step))) == Next(Wrapping, Wrap(r), step)
    && Result(Unbounded, r, Lift(r, step)) == Result(Wrapping, Wrap(r), step)
  }

  lemma ReloadTailRefines(r: Ring, value: nat)
    requires Inv(r) && CacheWithinWord(r)
    requires Enabled(Wrapping, Wrap(r), ReloadTail(value))
    ensures Refines(r, ReloadTail(value))
  {
    hide Index, Inv, WrapAll, CacheWithinWord, MayLoad;
    var i := r.producer.handle;
    LoadedFacts(r);
    var seen := r.cachedTails[i];
    var lifted := seen + WrappingSub(value, seen % WORD);
    SubOfWrapped(r.producer.head, seen);
    assert WrapAll(r.cachedTails)[i] == seen % WORD;
    LiftedLoad(seen, value, r.tail);
    LoadStaysBelow(seen, lifted, r.tail);
    SubOfWrapped(r.producer.head, lifted);
    assert WrapAll(r.cachedTails[i := lifted]) == WrapAll(r.cachedTails)[i := value];
  }

  lemma LoadedFacts(r: Ring)
    requires Inv(r) && CacheWithinWord(r) && !r.producer.ProducerIdle?
    ensures |r.slots| == RING_CAPACITY && r.producer.handle < |r.cachedTails|
    ensures r.cachedTails[r.producer.handle] <= r.tail <= r.producer.head
    ensures r.producer.head - r.cachedTails[r.producer.handle] < WORD
  {
  }

  lemma LoadStaysBelow(seen: nat, value: nat, current: nat)
    requires MayLoad(Unbounded, seen, value, current)
    ensures seen <= value <= current
  {
  }

  lemma ReloadHeadRefines(r: Ring, value: nat)
    requires Inv(r) && CacheWithinWord(r)
    requires Enabled(Wrapping, Wrap(r), ReloadHead(value))
    ensures Refines(r, ReloadHead(value))
  {
    hide Index;
    SubOfWrapped(r.cachedHead, r.consumer.tail);
    LiftedLoad(r.cachedHead, value, r.head);
    SubOfWrapped(r.cachedHead + WrappingSub(value, r.cachedHead % WORD), r.consumer.tail);
    hide Index, Inv, WrapAll;
  }

  lemma WriteSlotRefines(r: Ring)
    requires Inv(r) && CacheWithinWord(r)
    requires Enabled(Wrapping, Wrap(r), WriteSlot)
    ensures Refines(r, WriteSlot)
  {
    SubOfWrapped(r.producer.head, r.cachedTails[r.producer.handle]);
    IndexOfWrapped(r.producer.head);
  }

  lemma ReadSlotRefines(r: Ring)
    requires Inv(r)
    requires Enabled(Wrapping, Wrap(r), ReadSlot)
    ensures Refines(r, ReadSlot)
  {
    SubOfWrapped(r.cachedHead, r.consumer.tail);
    IndexOfWrapped(r.consumer.tail);
  }

  /** Every step over words is matched by a step over unbounded counters, with the same
      result, as long as the pushing handle's cache is less than 2^64 behind. */
  lemma StepRefinesUnbounded(r: Ring, step: Step)
    requires Inv(r) && CacheWithinWord(r)
    requires Enabled(Wrapping, Wrap(r), step)
    ensures Refines(r, step)
  {
    match step {
      case ReloadTail(v) => ReloadTailRefines(r, v);
      case ReloadHead(v) => ReloadHeadRefines(r, v);
      case WriteSlot => WriteSlotRefines(r);
      case ReadSlot => ReadSlotRefines(r);
      case StoreHead => IncrementOfWrapped(r.producer.head);
      case StoreTail => IncrementOfWrapped(r.consumer.tail);
      case CloneHandle(h) =>
        assert WrapAll(r.cachedTails + [r.cachedTails[h]]) == WrapAll(r.cachedTails) + [r.cachedTails[h] % WORD];
      case _ =>
    }
  }

  // ----- Whole runs -----

  /** How the handles are used. Either there is one producer handle and it is never cloned,
      or every push starts while fewer than 2^64 pushes have completed. */
  predicate Disciplined(handles: nat, steps: seq<Step>, completed: nat) {
    || (handles == 1 && NeverClones(steps))
    || PushesStartBelow(WORD, steps, completed)
  }

  predicate NeverClones(steps: seq<Step>) {
    forall step :: step in steps ==> !step.CloneHandle?
  }

  /** Every push starts while fewer than `limit` pushes have completed. */
  predicate PushesStartBelow(limit: nat, steps: seq<Step>, completed: nat) {
    steps == [] ||
    (&& (steps[0].BeginPush? ==> completed < limit)
     && PushesStartBelow(limit, steps[1..], if steps[0].StoreHead? then completed + 1 else completed))
  }

  /** The bound on the caches that the discipline keeps. */
  ghost predicate CachesBounded(r: Ring, steps: seq<Step>) {
    || (&& |r.cachedTails| == 1 && NeverClones(steps)
        && r.head - r.cachedTails[0] <= RING_CAPACITY)
    || (&& PushesStartBelow(WORD, steps, r.head)
        && (!r.producer.ProducerIdle? ==> r.head < WORD))
  }

  /** At every step of the run, the handle that pushes has a cached tail less than 2^64 behind.
      Other handles may be as stale as they like. */
  ghost predicate CachesStayWithinWord(r: Ring, steps: seq<Step>)
    requires |r.slots| == RING_CAPACITY
    decreases |steps|
  {
    && CacheWithinWord(r)
    && (steps != [] && Enabled(Unbounded, r, Lift(r, steps[0])) ==>
          CachesStayWithinWord(Next(Unbounded, r, Lift(r, steps[0])), steps[1..]))
  }

  function LiftAll(r: Ring, steps: seq<Step>): seq<Step>
    requires |r.slots| == RING_CAPACITY
    decreases |steps|
  {
    if steps == [] then []
    else
      var step := Lift(r, steps[0]);
      [step] + (if Enabled(Unbounded, r, step) then LiftAll(Next(Unbounded, r, step), steps[1..]) else [])
  }

  lemma StepKeepsCachesBounded(r: Ring, steps: seq<Step>)
    requires Inv(r) && steps != [] && CachesBounded(r, steps)
    requires Enabled(Unbounded, r, Lift(r, steps[0]))
    ensures CachesBounded(Next(Unbounded, r, Lift(r, steps[0])), steps[1..])
  {
    assert NeverClones(steps) ==> NeverClones(steps[1..]) && !steps[0].CloneHandle?;
  }

  /** The discipline keeps the pushing handle within a word. */
  lemma {:induction false} BoundedStaysWithinWord(r: Ring, steps: seq<Step>)
    requires Inv(r) && CachesBounded(r, steps)
    ensures CachesStayWithinWord(r, steps)
    decreases |steps|
  {
    hide Inv, Next, Enabled, Lift, CachesBounded;
    BoundedIsWithinWord(r, steps);
    InvHasSlots(r);
    if steps != [] && Enabled(Unbounded, r, Lift(r, steps[0])) {
      StepKeepsInv(r, Lift(r, steps[0]));
      StepKeepsCachesBounded(r, steps);
      BoundedStaysWithinWord(Next(Unbounded, r, Lift(r, steps[0])), steps[1..]);
    }
  }

  lemma BoundedIsWithinWord(r: Ring, steps: seq<Step>)
    requires Inv(r) && CachesBounded(r, steps)
    ensures CacheWithinWord(r)
  {
  }

  lemma InvHasSlots(r: Ring)
    requires Inv(r)
    ensures |r.slots| == RING_CAPACITY
  {
  }

  /** Every run over words in which the pushing handle stays within a word is a run over unbounded
      counters with the same results. */
  lemma {:induction false} RunRefinesUnbounded(r: Ring, steps: seq<Step>)
    requires Inv(r) && CachesStayWithinWord(r, steps)
    requires Legal(Wrapping, Wrap(r), steps)
    ensures var lifted := LiftAll(r, steps);
            && Legal(Unbounded, r, lifted)
            && Wrap(Run(Unbounded, r, lifted)) == Run(Wrapping, Wrap(r), steps)
            && Outcomes(Unbounded, r, lifted) == Outcomes(Wrapping, Wrap(r), steps)
            && CacheWithinWord(Run(Unbounded, r, lifted))
    decreases |steps|
  {
    hide CacheWithinWord;
    if steps != [] {
      StepRefinesUnbounded(r, steps[0]);
      var step := Lift(r, steps[0]);
      var r' := Next(Unbounded, r, step);
      StepKeepsInv(r, step);
      RunRefinesUnbounded(r', steps[1..]);
      var lifted := LiftAll(r, steps);
      assert lifted[0] == step && lifted[1..] == LiftAll(r', steps[1..]);
    }
  }

  /** The events popped are a prefix of the events pushed, the ring never holds more than 131072
      events, and the slot being written is never the one being read. */
  ghost predicate RunsAsFifo(start: Ring, steps: seq<Step>)
    requires |start.slots| == RING_CAPACITY && Legal(Wrapping, start, steps)
  {
    var os := Outcomes(Wrapping, start, steps);
    && EventsPopped(os) <= EventsPushed(os)
    && |EventsPushed(os)| - |EventsPopped(os)| <= 131072
    && NoSlotClash(Wrapping, Run(Wrapping, start, steps))
  }

  /** In every interleaving of the two sides from zeroed memory, over 64-bit counters, for a run of
      any length and any number of handles, as long as whichever handle pushes is within a word. */
  lemma RingIsFifoWithinWord(steps: seq<Step>)
    requires Legal(Wrapping, FRESH, steps) && CachesStayWithinWord(FRESH, steps)
    ensures RunsAsFifo(FRESH, steps)
  {
    assert Wrap(FRESH) == FRESH;
    RunRefinesUnbounded(FRESH, steps);
    var lifted := LiftAll(FRESH, steps);
    RunRefinesFifo(FRESH, lifted);
    var os := Outcomes(Unbounded, FRESH, lifted);
    assert EventsPushed(os) == Queue(FRESH) + EventsPushed(os);
    var r := Run(Unbounded, FRESH, lifted);
    NoSlotClashOverWords(r);
  }

  lemma DisciplinedStaysWithinWord(steps: seq<Step>)
    requires Disciplined(1, steps, 0)
    ensures CachesStayWithinWord(FRESH, steps)
  {
    BoundedStaysWithinWord(FRESH, steps);
  }

  /** The ring as shipped: with one handle for a run of any length, and with any number of clones
      while every push starts below 2^64 completed ones. */
  lemma RingIsFifo(steps: seq<Step>)
    requires Legal(Wrapping, FRESH, steps) && Disciplined(1, steps, 0)
    ensures RunsAsFifo(FRESH, steps)
  {
    DisciplinedStaysWithinWord(steps);
    RingIsFifoWithinWord(steps);
  }

  /** On any such run, a push that reloads the current tail fails exactly when a full capacity
      of events is unread, and a pop that reloads the current head returns nothing exactly when
      every pushed event has been popped. */
  lemma FreshReloadTellsTruth(steps: seq<Step>)
    requires Legal(Wrapping, FRESH, steps) && Disciplined(1, steps, 0)
    ensures var w := Run(Wrapping, FRESH, steps);
            var os := Outcomes(Wrapping, FRESH, steps);
            && (Enabled(Wrapping, w, ReloadTail(w.tail)) ==>
                  (Result(Wrapping, w, ReloadTail(w.tail)) == QueueFull <==>
                     |EventsPushed(os)| - |EventsPopped(os)| == 131072))
            && (Enabled(Wrapping, w, ReloadHead(w.head)) ==>
                  (Result(Wrapping, w, ReloadHead(w.head)) == FoundEmpty <==>
                     EventsPushed(os) == EventsPopped(os)))
  {
    assert Wrap(FRESH) == FRESH;
    DisciplinedStaysWithinWord(steps);
    RunRefinesUnbounded(FRESH, steps);
    var lifted := LiftAll(FRESH, steps);
    RunRefinesFifo(FRESH, lifted);
    var r, w := Run(Unbounded, FRESH, lifted), Run(Wrapping, FRESH, steps);
    var os := Outcomes(Wrapping, FRESH, steps);
    assert EventsPushed(os) == EventsPopped(os) + Queue(r);
    FreshTailReload(r);
    FreshHeadReload(r);
  }

  lemma FreshTailReload(r: Ring)
    requires Inv(r) && CacheWithinWord(r)
    ensures var w := Wrap(r);
            Enabled(Wrapping, w, ReloadTail(w.tail)) ==>
              (Result(Wrapping, w, ReloadTail(w.tail)) == QueueFull <==> |Queue(r)| == RING_CAPACITY)
  {
    var w := Wrap(r);
    if Enabled(Wrapping, w, ReloadTail(w.tail)) {
      ReloadTailRefines(r, w.tail);
      SubOfWrapped(r.tail, r.cachedTails[r.producer.handle]);
      StepRefinesFifo(r, ReloadTail(r.tail));
    }
  }

  lemma FreshHeadReload(r: Ring)
    requires Inv(r) && CacheWithinWord(r)
    ensures var w := Wrap(r);
            Enabled(Wrapping, w, ReloadHead(w.head)) ==>
              (Result(Wrapping, w, ReloadHead(w.head)) == FoundEmpty <==> Queue(r) == [])
  {
    var w := Wrap(r);
    if Enabled(Wrapping, w, ReloadHead(w.head)) {
      ReloadHeadRefines(r, w.head);
      SubOfWrapped(r.head, r.cachedHead);
      StepRefinesFifo(r, ReloadHead(r.head));
    }
  }

  lemma NoSlotClashOverWords(r: Ring)
    requires Inv(r) && CacheWithinWord(r)
    ensures NoSlotClash(Wrapping, Wrap(r))
  {
    if HoldsSlot(Wrapping, Wrap(r)) && r.consumer.Observing? && SeesEvent(Wrapping, Wrap(r)) {
      SubOfWrapped(r.producer.head, r.cachedTails[r.producer.handle]);
      SubOfWrapped(r.cachedHead, r.consumer.tail);
      IndexOfWrapped(r.producer.head);
      IndexOfWrapped(r.consumer.tail);
      WriterNeverTouchesUnreadSlot(r);
    }
  }
}
