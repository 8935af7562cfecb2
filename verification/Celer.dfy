/** The stroke state machines of celer (celer/src/main.rs:31-197): one per slot of a fixed pool,
    the slot picked by masking the session id. Coordinates and precision are reals, exact. */
module Celer {
  import opened Words
  import opened Events

  const SESSION_POOL_SIZE: nat := 65536
  const SESSION_MASK: nat := SESSION_POOL_SIZE - 1

  datatype Session = Session(
    active: bool, lastX: real, lastY: real, lastDx: real, lastDy: real,
    lastTimestamp: Word, precision: real)

  const UNUSED := Session(false, 0.0, 0.0, 0.0, 0.0, 0, 100.0)

  /** What is broadcast; the speed is given as its square. */
  datatype PrecisionEvent = PrecisionEvent(sessionId: nat, precision: real, speedSquared: real)

  function Slot(sessionId: nat): (i: nat)
    ensures i == sessionId % SESSION_POOL_SIZE
  {
    assert Pow2(4) == 16 && Pow2(8) == 256 && Pow2(16) == SESSION_POOL_SIZE;
    MaskIsRemainder(sessionId, 16);
    BitAnd(sessionId, SESSION_MASK)
  }

  function Product(a: real, b: real): (r: real)
    ensures a > 0.0 && b > 0.0 ==> r > 0.0
    ensures a < 0.0 && b < 0.0 ==> r > 0.0
    ensures a == 0.0 ==> r == 0.0
  {
    assert a * b == (-a) * (-b);
    a * b
  }

  function Square(a: real): (r: real)
    ensures r >= 0.0 && (r == 0.0 <==> a == 0.0)
  {
    Product(a, a)
  }

  /** The square of the distance from the last position. */
  function DistanceSquared(s: Session, e: StrokeEvent): (d: real)
    ensures d >= 0.0
    ensures d == 0.0 <==> e.x == s.lastX && e.y == s.lastY
  {
    Square(e.x - s.lastX) + Square(e.y - s.lastY)
  }

  /** One event on the machine of its slot. */
  function Handled(s: Session, e: StrokeEvent): (r: (Session, seq<PrecisionEvent>))
    ensures |r.1| <= 1 && (r.1 != [] ==> r.1[0].sessionId == e.sessionId)
  {
    if e.action == ACTION_DOWN then
      (s.(active := true, lastX := e.x, lastY := e.y, lastTimestamp := e.timestamp, precision := 100.0), [])
    else if e.action == ACTION_MOVE && s.active && DistanceSquared(s, e) > 0.0 then
      var d := DistanceSquared(s, e);
      var target := if d > 25.0 then 95.0 else 45.0;
      var p := target * 0.15 + s.precision * (1.0 - 0.15);
      (s.(lastX := e.x, lastY := e.y, precision := p), [PrecisionEvent(e.sessionId, p, d)])
    else if e.action == ACTION_UP then (s.(active := false), [])
    else (s, [])
  }

  type Pool = p: seq<Session> | |p| == SESSION_POOL_SIZE
    ghost witness seq(SESSION_POOL_SIZE, _ => UNUSED)

  function Start(): Pool {
    seq(SESSION_POOL_SIZE, _ => UNUSED)
  }

  datatype Run = Run(pool: Pool, sent: seq<PrecisionEvent>)

  function After(r: Run, e: StrokeEvent): Run {
    var (s, sent) := Handled(r.pool[Slot(e.sessionId)], e);
    Run(r.pool[Slot(e.sessionId) := s], r.sent + sent)
  }

  function RunOf(events: seq<StrokeEvent>): Run {
    if events == [] then Run(Start(), [])
    else After(RunOf(events[..|events| - 1]), events[|events| - 1])
  }

  class Engine {
    const fsmPool: array<Session>
    var sent: seq<PrecisionEvent>

    ghost function Now(): Run
      reads this, fsmPool
      requires fsmPool.Length == SESSION_POOL_SIZE
    {
      Run(fsmPool[..], sent)
    }

    constructor ()
      ensures fresh(fsmPool) && fsmPool.Length == SESSION_POOL_SIZE && Now() == RunOf([])
    {
      fsmPool := new Session[SESSION_POOL_SIZE](_ => UNUSED);
      sent := [];
      new;
      assert fsmPool[..] == Start();
    }

    method Process(event: StrokeEvent)
      requires fsmPool.Length == SESSION_POOL_SIZE
      modifies this, fsmPool
      ensures Now() == After(old(Now()), event)
    {
      var i := Slot(event.sessionId);
      var state := fsmPool[i];
      if event.action == ACTION_DOWN {
        fsmPool[i] := state.(active := true, lastX := event.x, lastY := event.y,
                             lastTimestamp := event.timestamp, precision := 100.0);
      } else if event.action == ACTION_MOVE {
        if state.active {
          var dx := event.x - state.lastX;
          var dy := event.y - state.lastY;
          var d := Square(dx) + Square(dy);
          if d > 0.0 {
            var instant := if d > 25.0 then 95.0 else 45.0;
            var precision := (instant * 0.15) + (state.precision * (1.0 - 0.15));
            sent := sent + [PrecisionEvent(event.sessionId, precision, d)];
            fsmPool[i] := state.(lastX := event.x, lastY := event.y, precision := precision);
          }
        }
      } else if event.action == ACTION_UP {
        fsmPool[i] := state.(active := false);
      }
    }

    method Loop(events: seq<StrokeEvent>)
      requires fsmPool.Length == SESSION_POOL_SIZE && Now() == RunOf([])
      modifies this, fsmPool
      ensures Now() == RunOf(events)
    {
      for n := 0 to |events|
        invariant Now() == RunOf(events[..n])
      {
        Process(events[n]);
        assert events[..n + 1][..n] == events[..n];
      }
      assert events[..|events|] == events;
    }
  }

  // ----- Slots do not see one another -----

  /** The events of one slot. */
  function OfSlot(events: seq<StrokeEvent>, slot: nat): seq<StrokeEvent> {
    if events == [] then []
    else
      var last := events[|events| - 1];
      OfSlot(events[..|events| - 1], slot) + (if Slot(last.sessionId) == slot then [last] else [])
  }

  function OfSession(events: seq<StrokeEvent>, id: nat): seq<StrokeEvent> {
    if events == [] then []
    else
      var last := events[|events| - 1];
      OfSession(events[..|events| - 1], id) + (if last.sessionId == id then [last] else [])
  }

  function SentToSlot(sent: seq<PrecisionEvent>, slot: nat): seq<PrecisionEvent> {
    if sent == [] then []
    else
      var last := sent[|sent| - 1];
      SentToSlot(sent[..|sent| - 1], slot) + (if Slot(last.sessionId) == slot then [last] else [])
  }

  function SentTo(sent: seq<PrecisionEvent>, id: nat): seq<PrecisionEvent> {
    if sent == [] then []
    else
      var last := sent[|sent| - 1];
      SentTo(sent[..|sent| - 1], id) + (if last.sessionId == id then [last] else [])
  }

  /** A machine of its own. */
  function Alone(events: seq<StrokeEvent>): (Session, seq<PrecisionEvent>) {
    if events == [] then (UNUSED, [])
    else
      var (s, sent) := Alone(events[..|events| - 1]);
      var (s', more) := Handled(s, events[|events| - 1]);
      (s', sent + more)
  }

  lemma SentToSlotAdds(sent: seq<PrecisionEvent>, more: seq<PrecisionEvent>, slot: nat)
    requires |more| <= 1
    ensures SentToSlot(sent + more, slot)
            == SentToSlot(sent, slot) + (if more != [] && Slot(more[0].sessionId) == slot then more else [])
  {
    if more == [] {
      assert sent + more == sent;
    } else {
      assert (sent + more)[..|sent + more| - 1] == sent;
    }
  }

  lemma AfterAt(r: Run, e: StrokeEvent, slot: nat)
    requires slot < SESSION_POOL_SIZE
    ensures var (s, sent) := Handled(r.pool[Slot(e.sessionId)], e);
            && After(r, e).pool[slot] == (if Slot(e.sessionId) == slot then s else r.pool[slot])
            && After(r, e).sent == r.sent + sent
  {
  }

  /** Whatever the stream, a slot's state and what it sent are those of a machine that sees the
      events of that slot alone. */
  lemma {:induction false} SlotRunsAlone(events: seq<StrokeEvent>, slot: nat)
    requires slot < SESSION_POOL_SIZE
    ensures RunOf(events).pool[slot] == Alone(OfSlot(events, slot)).0
    ensures SentToSlot(RunOf(events).sent, slot) == Alone(OfSlot(events, slot)).1
    decreases |events|
  {
    hide Slot, Handled, Alone, SentToSlot, Start, After;
    if events == [] {
      NothingRunsAlone(slot);
    } else {
      var init, last := events[..|events| - 1], events[|events| - 1];
      SlotRunsAlone(init, slot);
      var r := RunOf(init);
      SentToSlotAdds(r.sent, Handled(r.pool[Slot(last.sessionId)], last).1, slot);
      AfterAt(r, last, slot);
      if Slot(last.sessionId) == slot {
        assert OfSlot(events, slot) == OfSlot(init, slot) + [last];
        AloneAdds(OfSlot(init, slot), last);
      } else {
        assert OfSlot(events, slot) == OfSlot(init, slot);
      }
    }
  }

  lemma NothingRunsAlone(slot: nat)
    requires slot < SESSION_POOL_SIZE
    ensures Start()[slot] == Alone([]).0 && SentToSlot([], slot) == Alone([]).1
  {
  }

  lemma AloneAdds(events: seq<StrokeEvent>, e: StrokeEvent)
    ensures var (s, sent) := Alone(events);
            var (s', more) := Handled(s, e);
            Alone(events + [e]) == (s', sent + more)
  {
    assert (events + [e])[..|events + [e]| - 1] == events;
  }

  /** No other session of the stream shares the slot of this one. */
  predicate HasSlotToItself(events: seq<StrokeEvent>, id: nat) {
    forall e :: e in events && Slot(e.sessionId) == Slot(id) ==> e.sessionId == id
  }

  lemma SentToAdds(sent: seq<PrecisionEvent>, more: seq<PrecisionEvent>, id: nat)
    requires |more| <= 1
    ensures SentTo(sent + more, id)
            == SentTo(sent, id) + (if more != [] && more[0].sessionId == id then more else [])
  {
    if more == [] {
      assert sent + more == sent;
    } else {
      assert (sent + more)[..|sent + more| - 1] == sent;
    }
  }

  lemma NothingSent(id: nat)
    ensures SentTo([], id) == []
  {
  }

  /** A session with a slot to itself runs as if alone. */
  lemma {:induction false} SessionRunsAlone(events: seq<StrokeEvent>, id: nat)
    requires HasSlotToItself(events, id)
    ensures RunOf(events).pool[Slot(id)] == Alone(OfSession(events, id)).0
    ensures SentTo(RunOf(events).sent, id) == Alone(OfSession(events, id)).1
    decreases |events|
  {
    hide Slot, Handled, Alone, SentTo, Start, After;
    if events == [] {
      NothingRunsAlone(Slot(id));
      NothingSent(id);
    } else {
      var init, last := events[..|events| - 1], events[|events| - 1];
      SessionRunsAlone(init, id);
      var r := RunOf(init);
      SentToAdds(r.sent, Handled(r.pool[Slot(last.sessionId)], last).1, id);
      AfterAt(r, last, Slot(id));
      assert last in events;
      if last.sessionId == id {
        assert OfSession(events, id) == OfSession(init, id) + [last];
        AloneAdds(OfSession(init, id), last);
      } else {
        assert OfSession(events, id) == OfSession(init, id);
      }
    }
  }

  lemma {:induction false} OnlySession(events: seq<StrokeEvent>, id: nat)
    requires forall e :: e in events ==> e.sessionId == id
    ensures RunOf(events).pool[Slot(id)] == Alone(events).0
    ensures RunOf(events).sent == Alone(events).1
    decreases |events|
  {
    hide Slot, Handled;
    if events != [] {
      OnlySession(events[..|events| - 1], id);
      assert events[|events| - 1] in events;
    }
  }

  lemma {:induction false} OfSessionIsOfSession(events: seq<StrokeEvent>, id: nat)
    ensures forall e :: e in OfSession(events, id) ==> e.sessionId == id
    decreases |events|
  {
    if events != [] {
      OfSessionIsOfSession(events[..|events| - 1], id);
    }
  }

  /** What is sent for a session is what the whole program would send on that session's events
      alone. */
  predicate Isolated(events: seq<StrokeEvent>, id: nat) {
    SentTo(RunOf(events).sent, id) == RunOf(OfSession(events, id)).sent
  }

  /** So it is if no other session of the stream is equal to it modulo the pool size. */
  lemma SessionsAreIsolated(events: seq<StrokeEvent>, id: nat)
    requires forall e :: e in events && e.sessionId % SESSION_POOL_SIZE == id % SESSION_POOL_SIZE ==> e.sessionId == id
    ensures Isolated(events, id)
  {
    SessionRunsAlone(events, id);
    OfSessionIsOfSession(events, id);
    OnlySession(OfSession(events, id), id);
  }

  /** Every event is of one of these sessions. */
  predicate IsOver(events: seq<StrokeEvent>, ids: set<nat>) {
    forall e :: e in events ==> e.sessionId in ids
  }

  function DownOf(id: nat): StrokeEvent {
    BLANK.(sessionId := id, action := ACTION_DOWN)
  }

  function MoveOf(id: nat): StrokeEvent {
    BLANK.(sessionId := id, action := ACTION_MOVE, x := 10.0)
  }

  /** Any two sessions that share a slot: a stroke of one makes a lone move of the other count. */
  lemma SharedSlotsInterfere(a: nat, b: nat)
    requires a != b && a % SESSION_POOL_SIZE == b % SESSION_POOL_SIZE
    ensures !Isolated([DownOf(a), MoveOf(b)], b)
  {
    hide Slot;
    var down, move, armed := DownOf(a), MoveOf(b), UNUSED.(active := true);
    assert Slot(a) == Slot(b);
    RunOfTwo(down, move);
    assert DistanceSquared(armed, move) > 0.0;
    SentToAdds([], Handled(armed, move).1, b);
    NothingSent(b);
    assert [down, move][..1] == [down] && [down][..0] == [];
    assert OfSession([down], b) == OfSession([], b) == [];
    assert OfSession([down, move], b) == OfSession([down], b) + [move];
  }

  /** Two sessions can disturb each other exactly if they are equal modulo the pool size. */
  lemma InterferenceIffSlotShared(a: nat, b: nat)
    requires a != b
    ensures (exists events :: IsOver(events, {a, b}) && !Isolated(events, b))
            <==> a % SESSION_POOL_SIZE == b % SESSION_POOL_SIZE
  {
    hide Isolated;
    if a % SESSION_POOL_SIZE == b % SESSION_POOL_SIZE {
      SharedSlotsInterfere(a, b);
      assert IsOver([DownOf(a), MoveOf(b)], {a, b});
    } else {
      forall events | IsOver(events, {a, b}) ensures Isolated(events, b) {
        SessionsAreIsolated(events, b);
      }
    }
  }

  /** Whatever they draw, the sessions of a set never disturb one another exactly if they are
      pairwise distinct modulo the pool size. */
  lemma AllIsolatedIffSlotsDistinct(ids: set<nat>)
    ensures (forall events, id :: IsOver(events, ids) && id in ids ==> Isolated(events, id))
            <==> (forall a, b :: a in ids && b in ids && a % SESSION_POOL_SIZE == b % SESSION_POOL_SIZE ==> a == b)
  {
    hide Isolated;
    if a, b :| a in ids && b in ids && a % SESSION_POOL_SIZE == b % SESSION_POOL_SIZE && a != b {
      SharedSlotsInterfere(a, b);
      assert IsOver([DownOf(a), MoveOf(b)], ids);
    } else {
      forall events, id | IsOver(events, ids) && id in ids ensures Isolated(events, id) {
        SessionsAreIsolated(events, id);
      }
    }
  }

  lemma RunOfTwo(first: StrokeEvent, second: StrokeEvent)
    ensures RunOf([first]) == After(Run(Start(), []), first)
    ensures RunOf([second]) == After(Run(Start(), []), second)
    ensures RunOf([first, second]) == After(After(Run(Start(), []), first), second)
  {
    hide After;
    assert [first, second][..1] == [first] && [first][..0] == [] == [second][..0];
    assert RunOf([]) == Run(Start(), []);
  }

  // ----- Moves of no length -----

  /** The last event of a slot. */
  function LastIn(events: seq<StrokeEvent>, slot: nat): seq<StrokeEvent> {
    if events == [] then []
    else if Slot(events[|events| - 1].sessionId) == slot then [events[|events| - 1]]
    else LastIn(events[..|events| - 1], slot)
  }

  /** A move to where the slot's last event, a down or a move, already was. */
  predicate IsRepeat(before: seq<StrokeEvent>, e: StrokeEvent) {
    var last := LastIn(before, Slot(e.sessionId));
    && e.action == ACTION_MOVE && last != []
    && last[0].action in {ACTION_DOWN, ACTION_MOVE} && last[0].x == e.x && last[0].y == e.y
  }

  function WithoutRepeats(events: seq<StrokeEvent>): seq<StrokeEvent> {
    if events == [] then []
    else
      var init, last := events[..|events| - 1], events[|events| - 1];
      WithoutRepeats(init) + (if IsRepeat(init, last) then [] else [last])
  }

  /** After a down or a move, an armed machine remembers that event's position. */
  lemma {:induction false} LastPosition(events: seq<StrokeEvent>, slot: nat)
    requires slot < SESSION_POOL_SIZE
    ensures var last, s := LastIn(events, slot), RunOf(events).pool[slot];
            last != [] && last[0].action in {ACTION_DOWN, ACTION_MOVE} && s.active ==>
              s.lastX == last[0].x && s.lastY == last[0].y
    decreases |events|
  {
    hide Slot;
    if events != [] {
      LastPosition(events[..|events| - 1], slot);
    }
  }

  /** Leaving out the moves of no length changes no state and nothing that is sent. */
  lemma {:induction false} RepeatsChangeNothing(events: seq<StrokeEvent>)
    ensures RunOf(WithoutRepeats(events)) == RunOf(events)
    decreases |events|
  {
    hide Slot, LastIn, Handled;
    if events != [] {
      var init, last := events[..|events| - 1], events[|events| - 1];
      RepeatsChangeNothing(init);
      if IsRepeat(init, last) {
        RepeatIsIdle(init, last);
        assert WithoutRepeats(events) == WithoutRepeats(init);
      } else {
        assert WithoutRepeats(events)[..|WithoutRepeats(events)| - 1] == WithoutRepeats(init);
      }
    }
  }

  lemma RepeatIsIdle(before: seq<StrokeEvent>, e: StrokeEvent)
    requires IsRepeat(before, e)
    ensures After(RunOf(before), e) == RunOf(before)
  {
    hide LastIn, Slot;
    LastPosition(before, Slot(e.sessionId));
    var r := RunOf(before);
    assert Handled(r.pool[Slot(e.sessionId)], e) == (r.pool[Slot(e.sessionId)], []);
    assert r.sent + [] == r.sent;
  }

  // ----- Smoothing -----

  function Decay(n: nat): (d: real)
    ensures 0.0 < d <= 1.0
  {
    if n == 0 then 1.0 else 0.85 * Decay(n - 1)
  }

  /** The sum of 0.85^(n-1-i) * t_i over the n targets. */
  function Weighted(targets: seq<real>): real {
    if targets == [] then 0.0 else Product(Decay(|targets| - 1), targets[0]) + Weighted(targets[1..])
  }

  /** From one state on, without the events of other slots. */
  function Onwards(s: Session, events: seq<StrokeEvent>): (Session, seq<PrecisionEvent>)
    decreases |events|
  {
    if events == [] then (s, [])
    else
      var (s', sent) := Handled(s, events[0]);
      var (s'', more) := Onwards(s', events[1..]);
      (s'', sent + more)
  }

  /** 95 for each fast move sent and 45 for each slow one. */
  function Targets(sent: seq<PrecisionEvent>): seq<real> {
    seq(|sent|, i requires 0 <= i < |sent| => if sent[i].speedSquared > 25.0 then 95.0 else 45.0)
  }

  lemma WeightedScales(target: real, rest: seq<real>)
    ensures Weighted([target] + rest) == Product(Decay(|rest|), target) + Weighted(rest)
  {
    assert ([target] + rest)[1..] == rest;
  }

  lemma OneMore(p: real, t: real, d: real)
    ensures (0.85 * p + 0.15 * t) * d == p * (0.85 * d) + 0.15 * Product(d, t)
  {
    assert Product(d, t) == d * t;
  }

  /** Within a stroke, after n moves that count, the precision is
      p * 0.85^n + 0.15 * (the sum of 0.85^(n-i) * t_i), t_i being 95 for a fast move and 45
      for a slow one. */
  lemma {:induction false} SmoothingClosedForm(s: Session, events: seq<StrokeEvent>)
    requires s.active && forall e :: e in events ==> e.action != ACTION_DOWN
    ensures var (s', sent) := Onwards(s, events);
            s'.precision == s.precision * Decay(|sent|) + 0.15 * Weighted(Targets(sent))
    decreases |events|
  {
    hide Handled, Weighted, Targets, Product;
    if events == [] {
      NothingWeighted();
    } else {
      var e, rest := events[0], events[1..];
      assert e in events && forall f :: f in rest ==> f in events;
      var (s', sent) := Handled(s, e);
      var more := Onwards(s', rest).1;
      HandledInStroke(s, e);
      if !s'.active {
        IdleUntilDown(s', rest);
        NothingWeighted();
        assert sent + more == [];
      } else {
        SmoothingClosedForm(s', rest);
        if sent == [] {
          assert sent + more == more;
        } else {
          TargetsOfMore(sent, more);
          var t := Targets(sent)[0];
          WeightedScales(t, Targets(more));
          OneMore(s.precision, t, Decay(|more|));
        }
      }
    }
  }

  lemma NothingWeighted()
    ensures Weighted(Targets([])) == 0.0
  {
  }

  lemma TargetsOfMore(sent: seq<PrecisionEvent>, more: seq<PrecisionEvent>)
    requires |sent| == 1
    ensures |Targets(sent)| == 1 && Targets(sent + more) == [Targets(sent)[0]] + Targets(more)
    ensures |Targets(more)| == |more|
  {
  }

  lemma HandledInStroke(s: Session, e: StrokeEvent)
    requires s.active && e.action != ACTION_DOWN
    ensures var (s', sent) := Handled(s, e);
            && (sent == [] ==> s'.precision == s.precision)
            && (!s'.active ==> sent == [])
            && (sent != [] ==> |sent| == 1)
            && (sent != [] ==> s'.precision == 0.85 * s.precision + 0.15 * Targets(sent)[0])
  {
  }

  lemma {:induction false} IdleUntilDown(s: Session, events: seq<StrokeEvent>)
    requires !s.active && forall e :: e in events ==> e.action != ACTION_DOWN
    ensures Onwards(s, events) == (s, [])
    decreases |events|
  {
    hide Handled;
    if events != [] {
      assert events[0] in events;
      IdleStays(s, events[0]);
      assert forall e :: e in events[1..] ==> e in events;
      IdleUntilDown(s, events[1..]);
      var none: seq<PrecisionEvent> := [];
      assert none + none == none;
    }
  }

  lemma IdleStays(s: Session, e: StrokeEvent)
    requires !s.active && e.action != ACTION_DOWN
    ensures Handled(s, e) == (s, [])
  {
    assert s.(active := false) == s;
  }

  predicate AreTargets(targets: seq<real>) {
    forall i :: 0 <= i < |targets| ==> 45.0 <= targets[i] <= 95.0
  }

  lemma ScaledTarget(d: real, t: real)
    requires d > 0.0 && 45.0 <= t <= 95.0
    ensures d * 45.0 <= Product(d, t) <= d * 95.0
  {
    Scaled(d, 45.0, t);
    Scaled(d, t, 95.0);
    assert Product(d, t) == d * t;
  }

  lemma Scaled(d: real, a: real, b: real)
    requires d > 0.0 && a <= b
    ensures d * a <= d * b
  {
  }

  lemma OneMoreBound(d: real, first: real, rest: real)
    requires d * 45.0 <= first <= d * 95.0
    requires 45.0 * (1.0 - d) <= 0.15 * rest <= 95.0 * (1.0 - d)
    ensures 45.0 * (1.0 - 0.85 * d) <= 0.15 * (first + rest) <= 95.0 * (1.0 - 0.85 * d)
  {
  }

  lemma {:induction false} WeightedBounds(targets: seq<real>)
    requires AreTargets(targets)
    ensures 45.0 * (1.0 - Decay(|targets|)) <= 0.15 * Weighted(targets) <= 95.0 * (1.0 - Decay(|targets|))
  {
    hide Product;
    if targets != [] {
      var d := Decay(|targets| - 1);
      WeightedBounds(targets[1..]);
      ScaledTarget(d, targets[0]);
      OneMoreBound(d, Product(d, targets[0]), Weighted(targets[1..]));
    }
  }

  /** A stroke: its precision after the moves that counted, and between what it lies. */
  lemma StrokePrecision(s: Session, down: StrokeEvent, events: seq<StrokeEvent>)
    requires down.action == ACTION_DOWN && forall e :: e in events ==> e.action != ACTION_DOWN
    ensures var (s', sent) := Onwards(s, [down] + events);
            var d := Decay(|sent|);
            && s'.precision == 100.0 * d + 0.15 * Weighted(Targets(sent))
            && 45.0 + 55.0 * d <= s'.precision <= 95.0 + 5.0 * d
  {
    var armed := Handled(s, down).0;
    assert ([down] + events)[1..] == events;
    SmoothingClosedForm(armed, events);
    var sent := Onwards(armed, events).1;
    assert [] + sent == sent;
    WeightedBounds(Targets(sent));
  }

  lemma {:induction false} AloneThenOnwards(before: seq<StrokeEvent>, after: seq<StrokeEvent>)
    ensures var (s, sent) := Alone(before);
            var (s', more) := Onwards(s, after);
            Alone(before + after) == (s', sent + more)
    decreases |after|
  {
    hide Handled, Alone;
    if after == [] {
      assert before + after == before && Alone(before).1 + [] == Alone(before).1;
    } else {
      var e := after[0];
      AloneAdds(before, e);
      AloneThenOnwards(before + [e], after[1..]);
      assert before + [e] + after[1..] == before + after;
      var (s, sent) := Alone(before);
      var (s', one) := Handled(s, e);
      assert sent + one + Onwards(s', after[1..]).1 == sent + (one + Onwards(s', after[1..]).1);
    }
  }

  /** In any stream: the precision of a slot whose events end with a stroke. */
  lemma PrecisionInTheStream(events: seq<StrokeEvent>, slot: nat, before: seq<StrokeEvent>,
                             down: StrokeEvent, stroke: seq<StrokeEvent>)
    requires slot < SESSION_POOL_SIZE && OfSlot(events, slot) == before + ([down] + stroke)
    requires down.action == ACTION_DOWN && forall e :: e in stroke ==> e.action != ACTION_DOWN
    ensures var p := RunOf(events).pool[slot].precision;
            var sent, earlier := SentToSlot(RunOf(events).sent, slot), Alone(before).1;
            && earlier <= sent
            && var n := |sent| - |earlier|;
            && p == 100.0 * Decay(n) + 0.15 * Weighted(Targets(sent[|earlier|..]))
            && 45.0 + 55.0 * Decay(n) <= p <= 95.0 + 5.0 * Decay(n)
  {
    hide Weighted, Targets, OfSlot, Alone, Onwards, SentToSlot;
    SlotRunsAlone(events, slot);
    AloneThenOnwards(before, [down] + stroke);
    var (s, sent) := Alone(before);
    StrokePrecision(s, down, stroke);
    var more := Onwards(s, [down] + stroke).1;
    assert (sent + more)[|sent|..] == more;
  }

  // ----- Bounds on every reachable state -----

  predicate InRange(s: Session) {
    45.0 < s.precision <= 100.0
  }

  lemma HandledInRange(s: Session, e: StrokeEvent)
    requires InRange(s)
    ensures var (s', sent) := Handled(s, e);
            InRange(s') && forall x :: x in sent ==> 45.0 < x.precision < 100.0 && x.speedSquared > 0.0
  {
  }

  /** Every slot always lies above 45 and at most at 100, and everything sent strictly between. */
  lemma {:induction false} EverySlotInRange(events: seq<StrokeEvent>)
    ensures forall i :: 0 <= i < SESSION_POOL_SIZE ==> InRange(RunOf(events).pool[i])
    ensures forall x :: x in RunOf(events).sent ==> 45.0 < x.precision < 100.0 && x.speedSquared > 0.0
    decreases |events|
  {
    hide Handled, Slot, InRange;
    if events == [] {
      assert InRange(UNUSED) by { UnusedInRange(); }
    } else {
      var r, last := RunOf(events[..|events| - 1]), events[|events| - 1];
      EverySlotInRange(events[..|events| - 1]);
      HandledInRange(r.pool[Slot(last.sessionId)], last);
    }
  }

  lemma UnusedInRange()
    ensures InRange(UNUSED)
  {
  }

  lemma {:induction false} SentGrows(events: seq<StrokeEvent>, more: seq<StrokeEvent>)
    ensures RunOf(events).sent <= RunOf(events + more).sent
    decreases |more|
  {
    hide Handled, Slot;
    if more == [] {
      assert events + more == events;
    } else {
      SentGrows(events, more[..|more| - 1]);
      assert (events + more)[..|events + more| - 1] == events + more[..|more| - 1];
    }
  }
}
