/** What celer broadcasts, told by the events alone: which moves count, and what each one sends
    (celer/src/main.rs:163-197). */
module CelerStrokes {
  import opened Events
  import opened Celer

  predicate IsOf(e: StrokeEvent, slot: nat) {
    e.sessionId % 65536 == slot
  }

  predicate IsDown(e: StrokeEvent, slot: nat) {
    IsOf(e, slot) && e.action == 0
  }

  /** A down or a move. */
  predicate IsPoint(e: StrokeEvent, slot: nat) {
    IsOf(e, slot) && e.action in {0, 1}
  }

  predicate IsUp(e: StrokeEvent, slot: nat) {
    IsOf(e, slot) && e.action == 2
  }

  /** The slot went down at event d and has not gone up since. */
  ghost predicate DrawsSince(events: seq<StrokeEvent>, slot: nat, d: nat) {
    d < |events| && IsDown(events[d], slot) && forall k :: d < k < |events| ==> !IsUp(events[k], slot)
  }

  ghost predicate IsDrawing(events: seq<StrokeEvent>, slot: nat) {
    exists d: nat :: DrawsSince(events, slot, d)
  }

  /** Event p is the last down or move of the slot. */
  predicate IsLastPoint(events: seq<StrokeEvent>, slot: nat, p: nat) {
    p < |events| && IsPoint(events[p], slot) && forall k :: p < k < |events| ==> !IsPoint(events[k], slot)
  }

  predicate SamePlace(a: StrokeEvent, b: StrokeEvent) {
    a.x == b.x && a.y == b.y
  }

  /** A move of a slot that is drawing, away from the slot's last point, which is event p. */
  ghost predicate CountsFrom(before: seq<StrokeEvent>, e: StrokeEvent, p: nat) {
    var slot := e.sessionId % 65536;
    && e.action == 1 && IsDrawing(before, slot)
    && IsLastPoint(before, slot, p) && !SamePlace(before[p], e)
  }

  ghost predicate Counts(before: seq<StrokeEvent>, e: StrokeEvent) {
    exists p: nat :: CountsFrom(before, e, p)
  }

  // ----- Pen down and pen up -----

  lemma LastOf(before: seq<StrokeEvent>, e: StrokeEvent)
    ensures RunOf(before + [e]) == After(RunOf(before), e)
  {
    assert (before + [e])[..|before + [e]| - 1] == before;
  }

  lemma DrawsSinceMore(before: seq<StrokeEvent>, e: StrokeEvent, slot: nat, d: nat)
    ensures d < |before| ==> (DrawsSince(before + [e], slot, d) <==> DrawsSince(before, slot, d) && !IsUp(e, slot))
    ensures d == |before| ==> (DrawsSince(before + [e], slot, d) <==> IsDown(e, slot))
  {
    var all := before + [e];
    assert all[|before|] == e;
    if d < |before| && DrawsSince(all, slot, d) {
      assert forall k :: d < k < |before| ==> before[k] == all[k];
    }
  }

  lemma DrawingMore(before: seq<StrokeEvent>, e: StrokeEvent, slot: nat)
    ensures IsDrawing(before + [e], slot) <==> IsDown(e, slot) || (IsDrawing(before, slot) && !IsUp(e, slot))
  {
    hide DrawsSince;
    var all := before + [e];
    if d: nat :| DrawsSince(all, slot, d) {
      DrawsSinceEnds(all, slot, d);
      DrawsSinceMore(before, e, slot, d);
    }
    if d: nat :| DrawsSince(before, slot, d) {
      DrawsSinceEnds(before, slot, d);
      DrawsSinceMore(before, e, slot, d);
    }
    DrawsSinceMore(before, e, slot, |before|);
  }

  lemma DrawsSinceEnds(events: seq<StrokeEvent>, slot: nat, d: nat)
    requires DrawsSince(events, slot, d)
    ensures d < |events|
  {
  }

  /** In every stream a slot is active exactly if its last down or up is a down. */
  lemma {:induction false} ActiveIffDrawing(events: seq<StrokeEvent>, slot: nat)
    requires slot < SESSION_POOL_SIZE
    ensures RunOf(events).pool[slot].active <==> IsDrawing(events, slot)
    decreases |events|
  {
    hide IsDrawing, RunOf, Start;
    if events == [] {
      NothingDrawn(slot);
    } else {
      var before, e := events[..|events| - 1], events[|events| - 1];
      ActiveIffDrawing(before, slot);
      assert before + [e] == events;
      LastOf(before, e);
      DrawingMore(before, e, slot);
    }
  }

  lemma NothingDrawn(slot: nat)
    requires slot < SESSION_POOL_SIZE
    ensures !IsDrawing([], slot) && !RunOf([]).pool[slot].active
  {
  }

  // ----- The last point -----

  lemma LastPointMore(before: seq<StrokeEvent>, e: StrokeEvent, slot: nat, p: nat)
    requires IsLastPoint(before + [e], slot, p)
    ensures p < |before| ==> IsLastPoint(before, slot, p) && !IsPoint(e, slot)
    ensures p == |before| ==> IsPoint(e, slot)
    ensures p <= |before|
  {
    var all := before + [e];
    assert all[|before|] == e;
    assert forall k :: p < k < |before| ==> before[k] == all[k];
  }

  /** A slot that is drawing has a last point. */
  lemma {:induction false} HasLastPoint(events: seq<StrokeEvent>, slot: nat, d: nat) returns (p: nat)
    requires d < |events| && IsPoint(events[d], slot)
    ensures IsLastPoint(events, slot, p)
    decreases |events| - d
  {
    p := d;
    if k :| d < k < |events| && IsPoint(events[k], slot) {
      p := HasLastPoint(events, slot, k);
    }
  }

  lemma DrawingHasLastPoint(events: seq<StrokeEvent>, slot: nat) returns (p: nat)
    requires IsDrawing(events, slot)
    ensures IsLastPoint(events, slot, p)
  {
    var d: nat :| DrawsSince(events, slot, d);
    p := HasLastPoint(events, slot, d);
  }

  /** While a slot is drawing it remembers its last point, whether or not that move counted. */
  lemma {:induction false} RemembersLastPoint(events: seq<StrokeEvent>, slot: nat, p: nat)
    requires slot < SESSION_POOL_SIZE && IsDrawing(events, slot) && IsLastPoint(events, slot, p)
    ensures RunOf(events).pool[slot].lastX == events[p].x && RunOf(events).pool[slot].lastY == events[p].y
    decreases |events|
  {
    hide IsDrawing, IsLastPoint, RunOf, Start;
    LastPointIn(events, slot, p);
    var before, e := events[..|events| - 1], events[|events| - 1];
    assert before + [e] == events;
    LastPointMore(before, e, slot, p);
    DrawingMore(before, e, slot);
    ActiveIffDrawing(before, slot);
    LastOf(before, e);
    if p < |before| {
      assert before[p] == events[p];
      RemembersLastPoint(before, slot, p);
    }
  }

  lemma LastPointIn(events: seq<StrokeEvent>, slot: nat, p: nat)
    requires IsLastPoint(events, slot, p)
    ensures p < |events|
  {
  }

  // ----- What one event does -----

  function SquaredDistance(a: StrokeEvent, b: StrokeEvent): real {
    (b.x - a.x) * (b.x - a.x) + (b.y - a.y) * (b.y - a.y)
  }

  lemma MoveStep(s: Session, last: StrokeEvent, e: StrokeEvent)
    requires s.active && e.action == 1 && s.lastX == last.x && s.lastY == last.y && !SamePlace(last, e)
    ensures var speed := SquaredDistance(last, e);
            var p := 0.85 * s.precision + 0.15 * (if speed > 25.0 then 95.0 else 45.0);
            && Handled(s, e).1 == [PrecisionEvent(e.sessionId, p, speed)]
            && Handled(s, e).0.precision == p
            && Handled(s, e).0.lastTimestamp == s.lastTimestamp
  {
    hide Product;
    ProductIs(e.x - last.x, e.x - last.x);
    ProductIs(e.y - last.y, e.y - last.y);
    assert DistanceSquared(s, e) == SquaredDistance(last, e);
  }

  lemma ProductIs(a: real, b: real)
    ensures Product(a, b) == a * b
  {
  }

  lemma OtherStep(s: Session, e: StrokeEvent)
    requires e.action != 1 || !s.active || (e.x == s.lastX && e.y == s.lastY)
    ensures Handled(s, e).1 == []
    ensures Handled(s, e).0.precision == (if e.action == 0 then 100.0 else s.precision)
    ensures Handled(s, e).0.lastTimestamp == (if e.action == 0 then e.timestamp else s.lastTimestamp)
  {
  }

  /** A move that counts is broadcast with the square of its distance to the last point and the
      precision 0.85 times the slot's own plus 0.15 times 95 or 45; that becomes the slot's. */
  lemma CountedMoveIsSent(before: seq<StrokeEvent>, e: StrokeEvent, p: nat)
    requires CountsFrom(before, e, p)
    ensures var slot, speed := e.sessionId % 65536, SquaredDistance(before[p], e);
            var was, now := RunOf(before), RunOf(before + [e]);
            var precision := 0.85 * was.pool[slot].precision + 0.15 * (if speed > 25.0 then 95.0 else 45.0);
            && now.sent == was.sent + [PrecisionEvent(e.sessionId, precision, speed)]
            && now.pool[slot].precision == precision
            && now.pool[slot].lastTimestamp == was.pool[slot].lastTimestamp
  {
    hide IsDrawing, IsLastPoint, RunOf, Handled, SquaredDistance;
    var slot := e.sessionId % 65536;
    ActiveIffDrawing(before, slot);
    RemembersLastPoint(before, slot, p);
    LastPointIn(before, slot, p);
    LastOf(before, e);
    MoveStep(RunOf(before).pool[slot], before[p], e);
  }

  /** Every other event sends nothing; a down sets the slot's precision to 100. */
  lemma OtherEventIsNotSent(before: seq<StrokeEvent>, e: StrokeEvent)
    requires !Counts(before, e)
    ensures var slot := e.sessionId % 65536;
            var was, now := RunOf(before), RunOf(before + [e]);
            && now.sent == was.sent
            && now.pool[slot].precision == (if e.action == 0 then 100.0 else was.pool[slot].precision)
            && now.pool[slot].lastTimestamp == (if e.action == 0 then e.timestamp else was.pool[slot].lastTimestamp)
  {
    hide IsDrawing, IsLastPoint, RunOf, Handled;
    var slot := e.sessionId % 65536;
    ActiveIffDrawing(before, slot);
    if e.action == 1 && IsDrawing(before, slot) {
      var p := DrawingHasLastPoint(before, slot);
      LastPointIn(before, slot, p);
      RemembersLastPoint(before, slot, p);
      assert !CountsFrom(before, e, p);
    }
    LastOf(before, e);
    OtherStep(RunOf(before).pool[slot], e);
    assert RunOf(before).sent + [] == RunOf(before).sent;
  }

  /** No event touches another slot, and every slot begins at 100. */
  lemma OtherSlotsStay(before: seq<StrokeEvent>, e: StrokeEvent, slot: nat)
    requires slot < SESSION_POOL_SIZE
    ensures slot != e.sessionId % 65536 ==> RunOf(before + [e]).pool[slot] == RunOf(before).pool[slot]
    ensures RunOf([]).pool[slot].precision == 100.0
  {
    hide Handled;
    LastOf(before, e);
  }

  // ----- What is sent -----

  /** The j-th thing sent comes from event n. */
  ghost predicate SentBy(events: seq<StrokeEvent>, j: nat, n: nat) {
    && n < |events| && Counts(events[..n], events[n])
    && j < |RunOf(events).sent|
    && |RunOf(events[..n]).sent| == j && RunOf(events[..n + 1]).sent == RunOf(events).sent[..j + 1]
  }

  ghost predicate IsSent(events: seq<StrokeEvent>, j: nat) {
    exists n: nat :: SentBy(events, j, n)
  }

  lemma SentByMore(before: seq<StrokeEvent>, e: StrokeEvent, j: nat, n: nat)
    requires SentBy(before, j, n)
    ensures SentBy(before + [e], j, n)
  {
    hide RunOf, Counts;
    SentGrows(before, [e]);
    assert (before + [e])[..n] == before[..n] && (before + [e])[..n + 1] == before[..n + 1];
  }

  /** Everything sent comes from a counted move, one for each and in their order, and every
      counted move is sent. */
  lemma {:induction false} SentByCountedMoves(events: seq<StrokeEvent>)
    ensures forall j: nat :: j < |RunOf(events).sent| ==> IsSent(events, j)
    ensures forall n: nat :: n < |events| && Counts(events[..n], events[n]) ==> exists j: nat :: SentBy(events, j, n)
    decreases |events|
  {
    hide Counts, CountsFrom, Handled, SentBy;
    if events != [] {
      var before, e := events[..|events| - 1], events[|events| - 1];
      assert before + [e] == events;
      SentByCountedMoves(before);
      var b: nat := |before|;
      LastSent(before, e);
      forall j: nat | j < |RunOf(events).sent| ensures IsSent(events, j) {
        if j < |RunOf(before).sent| {
          assert IsSent(before, j);
          var n: nat :| SentBy(before, j, n);
          SentByMore(before, e, j, n);
        } else {
          assert SentBy(events, j, b);
        }
      }
      forall n: nat | n < |events| && Counts(events[..n], events[n]) ensures exists j: nat :: SentBy(events, j, n) {
        if n < b {
          assert events[..n] == before[..n] && events[n] == before[n];
          var j: nat :| SentBy(before, j, n);
          SentByMore(before, e, j, n);
        } else {
          assert SentBy(events, |RunOf(before).sent|, n);
        }
      }
    }
  }

  lemma LastSent(before: seq<StrokeEvent>, e: StrokeEvent)
    ensures var events, j := before + [e], |RunOf(before).sent|;
            if Counts(before, e) then |RunOf(events).sent| == j + 1 && SentBy(events, j, |before|)
            else RunOf(events).sent == RunOf(before).sent
  {
    hide CountsFrom, RunOf;
    var events := before + [e];
    assert events[..|before|] == before && events[|before|] == e && events[..|before| + 1] == events;
    if Counts(before, e) {
      var p: nat :| CountsFrom(before, e, p);
      CountedMoveIsSent(before, e, p);
    } else {
      OtherEventIsNotSent(before, e);
    }
  }
}
