/** What the trace collapser records: every event once, and, exactly when the events are nested,
    the time during which each is the innermost. */
module ChromeTimes {
  import opened Intervals
  import opened ChromeStacks

  predicate Sorted(events: seq<Event>) {
    forall i, j :: 0 <= i < j < |events| ==> events[i].ts <= events[j].ts
  }

  predicate Lasting(events: seq<Event>) {
    forall i :: 0 <= i < |events| ==> events[i].dur >= 0.0
  }

  /** Of two events, the later one starts after the earlier one stopped or stops no later. */
  predicate Nested(events: seq<Event>, n: nat)
    requires n <= |events|
  {
    forall i, j :: 0 <= i < j < n ==>
      events[i].Stop() <= events[j].ts || events[j].Stop() <= events[i].Stop()
  }

  predicate During(e: Event, p: real) {
    e.ts <= p < e.Stop()
  }

  ghost predicate IsInnermost(events: seq<Event>, n: nat, i: nat, p: real)
    requires i < n <= |events|
  {
    During(events[i], p) && forall j :: i < j < n ==> !During(events[j], p)
  }

  /** The moments at which event `i` runs and none of the later ones does. */
  ghost function Innermost(events: seq<Event>, n: nat, i: nat): iset<real>
    requires i < n <= |events|
  {
    iset p: real | IsInnermost(events, n, i, p)
  }

  /** Event `i` and the earlier events still running when it starts, in order. */
  ghost predicate IsChain(events: seq<Event>, i: nat, chain: seq<nat>)
    requires i < |events|
  {
    && chain != [] && chain[|chain| - 1] == i
    && (forall a, b :: 0 <= a < b < |chain| ==> chain[a] < chain[b])
    && (forall k :: k in chain ==> k <= i)
    && (forall k :: 0 <= k < i ==> (k in chain <==> events[k].Stop() > events[i].ts))
  }

  function NamesIn(events: seq<Event>, chain: seq<nat>): seq<string>
    requires forall k :: k in chain ==> k < |events|
  {
    seq(|chain|, a requires 0 <= a < |chain| => assert chain[a] in chain; events[chain[a]].name)
  }

  // ----- Every event is recorded once -----

  function Indices(stack: seq<Running>): seq<nat> {
    seq(|stack|, a requires 0 <= a < |stack| => stack[a].index)
  }

  function SavedIndices(saved: seq<Saved>): seq<nat> {
    seq(|saved|, a requires 0 <= a < |saved| => saved[a].index)
  }

  function Upto(n: nat): seq<nat> {
    seq(n, i => i)
  }

  ghost function Held(m: Machine): multiset<nat> {
    multiset(Indices(m.stack)) + multiset(SavedIndices(m.saved))
  }

  lemma PoppedOneHolds(m: Machine)
    requires m.stack != []
    ensures Held(PoppedOne(m)) == Held(m)
  {
    var m', top := PoppedOne(m), Last(m.stack);
    assert Indices(m.stack) == Indices(m'.stack) + [top.index];
    assert SavedIndices(m'.saved) == SavedIndices(m.saved) + [top.index];
  }

  lemma {:induction false} PoppedUntilHolds(m: Machine, now: real)
    ensures Held(PoppedUntil(m, now)) == Held(m)
    decreases |m.stack|
  {
    if m.stack != [] && Last(m.stack).event.Stop() <= now {
      PoppedOneHolds(m);
      PoppedUntilHolds(PoppedOne(m), now);
    }
  }

  lemma {:induction false} PoppedAllHolds(m: Machine)
    ensures Held(PoppedAll(m)) == Held(m) && PoppedAll(m).stack == []
    decreases |m.stack|
  {
    if m.stack != [] {
      PoppedOneHolds(m);
      PoppedAllHolds(PoppedOne(m));
    }
  }

  lemma PushedHolds(m: Machine, n: nat, e: Event)
    ensures Held(Pushed(m, n, e)) == Held(m) + multiset{n}
  {
    ChargedKeeps(m.stack, e.dur);
    assert Indices(Pushed(m, n, e).stack) == Indices(m.stack) + [n];
  }

  lemma UptoNext(n: nat)
    requires n > 0
    ensures var last: nat := n - 1; multiset(Upto(n)) == multiset(Upto(last)) + multiset{last}
  {
    assert Upto(n) == Upto(n - 1) + [n - 1];
  }

  lemma NothingHolds()
    ensures Held(Machine([], [])) == multiset(Upto(0))
  {
    assert Indices([]) == [] && SavedIndices([]) == [];
  }

  lemma {:induction false} RunHolds(events: seq<Event>, n: nat)
    requires n <= |events|
    ensures Held(RunOf(events, n)) == multiset(Upto(n))
  {
    hide Held, Pushed, PoppedUntil;
    if n == 0 {
      NothingHolds();
    } else {
      RunHolds(events, n - 1);
      var m, e := RunOf(events, n - 1), events[n - 1];
      PoppedUntilHolds(m, e.ts);
      PushedHolds(PoppedUntil(m, e.ts), n - 1, e);
      UptoNext(n);
    }
  }

  /** Whatever the events, each is recorded exactly once. */
  lemma EachIsRecordedOnce(events: seq<Event>)
    ensures multiset(SavedIndices(Recorded(events))) == multiset(Upto(|events|))
  {
    RunHolds(events, |events|);
    PoppedAllHolds(RunOf(events, |events|));
    assert Indices(PoppedAll(RunOf(events, |events|)).stack) == [];
  }

  lemma RecordOf(events: seq<Event>, i: nat) returns (a: nat)
    requires i < |events|
    ensures a < |Recorded(events)| && Recorded(events)[a].index == i
  {
    EachIsRecordedOnce(events);
    var indices := SavedIndices(Recorded(events));
    assert Upto(|events|)[i] == i;
    assert i in multiset(Upto(|events|));
    assert i in multiset(indices);
    a :| 0 <= a < |indices| && indices[a] == i;
  }

  // ----- The stack holds what still runs -----

  ghost predicate OnStack(stack: seq<Running>, k: nat) {
    exists a :: 0 <= a < |stack| && stack[a].index == k
  }

  /** Events off the stack have stopped by `now`. */
  ghost predicate Inv(events: seq<Event>, n: nat, now: real, m: Machine) {
    && n <= |events|
    && (forall k :: 0 <= k < n ==> events[k].ts <= now)
    && (forall a :: 0 <= a < |m.stack| ==> m.stack[a].index < n && m.stack[a].event == events[m.stack[a].index])
    && (forall a, b :: 0 <= a < b < |m.stack| ==> m.stack[a].index < m.stack[b].index)
    && (forall k :: 0 <= k < n ==> OnStack(m.stack, k) || events[k].Stop() <= now)
  }

  lemma PopKeepsInv(events: seq<Event>, n: nat, now: real, m: Machine)
    requires Inv(events, n, now, m) && m.stack != [] && Last(m.stack).event.Stop() <= now
    ensures Inv(events, n, now, PoppedOne(m))
  {
    var rest := PoppedOne(m).stack;
    forall k | 0 <= k < n ensures OnStack(rest, k) || events[k].Stop() <= now {
      if a :| 0 <= a < |m.stack| && m.stack[a].index == k {
        assert a < |rest| ==> rest[a].index == k;
      }
    }
  }

  lemma {:induction false} PopUntilKeepsInv(events: seq<Event>, n: nat, now: real, m: Machine)
    requires Inv(events, n, now, m)
    ensures Inv(events, n, now, PoppedUntil(m, now))
    ensures var m' := PoppedUntil(m, now); m'.stack == [] || Last(m'.stack).event.Stop() > now
    decreases |m.stack|
  {
    hide Inv;
    if m.stack != [] && Last(m.stack).event.Stop() <= now {
      PopKeepsInv(events, n, now, m);
      PopUntilKeepsInv(events, n, now, PoppedOne(m));
    }
  }

  lemma ChargedKeeps(stack: seq<Running>, dur: real)
    ensures |Charged(stack, dur)| == |stack|
    ensures forall a :: 0 <= a < |stack| ==>
              Charged(stack, dur)[a].index == stack[a].index && Charged(stack, dur)[a].event == stack[a].event
    ensures Indices(Charged(stack, dur)) == Indices(stack)
  {
  }

  lemma PushKeepsInv(events: seq<Event>, n: nat, m: Machine)
    requires n < |events| && Inv(events, n, events[n].ts, m)
    ensures Inv(events, n + 1, events[n].ts, Pushed(m, n, events[n]))
  {
    hide Charged;
    var stack := Pushed(m, n, events[n]).stack;
    ChargedKeeps(m.stack, events[n].dur);
    assert stack[|m.stack|].index == n;
    forall k | 0 <= k < n + 1 ensures OnStack(stack, k) || events[k].Stop() <= events[n].ts {
      if a :| 0 <= a < |m.stack| && m.stack[a].index == k {
        assert stack[a].index == k;
      }
    }
  }

  lemma LaterKeepsInv(events: seq<Event>, n: nat, now: real, later: real, m: Machine)
    requires Inv(events, n, now, m) && now <= later
    ensures Inv(events, n, later, m)
  {
  }

  lemma {:induction false} RunKeepsInv(events: seq<Event>, n: nat, now: real)
    requires Sorted(events) && n <= |events| && forall k :: 0 <= k < n ==> events[k].ts <= now
    ensures Inv(events, n, now, RunOf(events, n))
    decreases n, 0
  {
    hide Pushed, PoppedUntil;
    if n > 0 {
      var e := events[n - 1];
      ReadyInv(events, n - 1);
      PushKeepsInv(events, n - 1, PoppedUntil(RunOf(events, n - 1), e.ts));
      LaterKeepsInv(events, n, e.ts, now, RunOf(events, n));
    }
  }

  /** The machine when what has stopped by the start of event `n` has left. */
  function Ready(events: seq<Event>, n: nat): Machine
    requires n < |events|
  {
    PoppedUntil(RunOf(events, n), events[n].ts)
  }

  lemma {:induction false} ReadyInv(events: seq<Event>, n: nat)
    requires Sorted(events) && n < |events|
    ensures Inv(events, n, events[n].ts, Ready(events, n))
    ensures var m := Ready(events, n); m.stack == [] || Last(m.stack).event.Stop() > events[n].ts
    decreases n, 1
  {
    RunKeepsInv(events, n, events[n].ts);
    PopUntilKeepsInv(events, n, events[n].ts, RunOf(events, n));
  }

  // ----- What is recorded adds up to the durations of the roots -----

  /** No earlier event still runs when event `i` starts. */
  predicate IsRoot(events: seq<Event>, i: nat)
    requires i < |events|
  {
    forall k :: 0 <= k < i ==> events[k].Stop() <= events[i].ts
  }

  function RootTime(events: seq<Event>, n: nat): real
    requires n <= |events|
  {
    if n == 0 then 0.0
    else RootTime(events, n - 1) + (if IsRoot(events, n - 1) then events[n - 1].dur else 0.0)
  }

  function RunningTotal(stack: seq<Running>): real {
    if stack == [] then 0.0 else RunningTotal(stack[..|stack| - 1]) + Last(stack).total
  }

  function SavedTotal(saved: seq<Saved>): real {
    if saved == [] then 0.0 else SavedTotal(saved[..|saved| - 1]) + saved[|saved| - 1].total
  }

  function Total(m: Machine): real {
    RunningTotal(m.stack) + SavedTotal(m.saved)
  }

  lemma PopKeepsTotal(m: Machine)
    requires m.stack != []
    ensures Total(PoppedOne(m)) == Total(m)
  {
    assert PoppedOne(m).saved[..|m.saved|] == m.saved;
  }

  lemma {:induction false} PopUntilKeepsTotal(m: Machine, now: real)
    ensures Total(PoppedUntil(m, now)) == Total(m)
    decreases |m.stack|
  {
    if m.stack != [] && Last(m.stack).event.Stop() <= now {
      PopKeepsTotal(m);
      PopUntilKeepsTotal(PoppedOne(m), now);
    }
  }

  lemma {:induction false} PopAllKeepsTotal(m: Machine)
    ensures Total(PoppedAll(m)) == Total(m) && PoppedAll(m).stack == []
    decreases |m.stack|
  {
    if m.stack != [] {
      PopKeepsTotal(m);
      PopAllKeepsTotal(PoppedOne(m));
    }
  }

  lemma PushTotal(m: Machine, n: nat, e: Event)
    ensures Total(Pushed(m, n, e)) == Total(m) + if m.stack == [] then e.dur else 0.0
  {
    var stack := Pushed(m, n, e).stack;
    var charged := Charged(m.stack, e.dur);
    assert stack[..|stack| - 1] == charged;
    assert RunningTotal(stack) == RunningTotal(charged) + e.dur;
    if m.stack != [] {
      assert charged[..|m.stack| - 1] == m.stack[..|m.stack| - 1];
      assert RunningTotal(charged) == RunningTotal(m.stack[..|m.stack| - 1]) + Last(m.stack).total - e.dur;
    }
  }

  lemma RootMeetsEmptyStack(events: seq<Event>, n: nat)
    requires Sorted(events) && n < |events|
    ensures IsRoot(events, n) <==> Ready(events, n).stack == []
  {
    ReadyInv(events, n);
    var stack := Ready(events, n).stack;
    if stack == [] {
      assert forall k :: 0 <= k < n ==> !OnStack(stack, k);
    }
  }

  lemma {:induction false} RunTotal(events: seq<Event>, n: nat)
    requires Sorted(events) && n <= |events|
    ensures Total(RunOf(events, n)) == RootTime(events, n)
  {
    hide Total, Pushed;
    if n == 0 {
      NothingTotal();
    } else {
      RunTotal(events, n - 1);
      PopUntilKeepsTotal(RunOf(events, n - 1), events[n - 1].ts);
      RootMeetsEmptyStack(events, n - 1);
      PushTotal(Ready(events, n - 1), n - 1, events[n - 1]);
    }
  }

  lemma NothingTotal()
    ensures Total(Machine([], [])) == 0.0
  {
  }

  /** Nested or not, the recorded times add up to the durations of the roots. */
  lemma RecordedIsRootTime(events: seq<Event>)
    requires Sorted(events)
    ensures SavedTotal(Recorded(events)) == RootTime(events, |events|)
  {
    RunTotal(events, |events|);
    PopAllKeepsTotal(RunOf(events, |events|));
  }

  // ----- The moments at which an event is innermost -----

  lemma StoppedIsUnmoved(events: seq<Event>, n: nat, i: nat)
    requires i < n < |events| && events[i].Stop() <= events[n].ts
    ensures Innermost(events, n + 1, i) == Innermost(events, n, i)
  {
    forall p: real ensures IsInnermost(events, n + 1, i, p) <==> IsInnermost(events, n, i, p) {
    }
  }

  lemma ShieldedIsUnmoved(events: seq<Event>, n: nat, i: nat, t: nat)
    requires Sorted(events) && i < t < n < |events| && events[n].Stop() <= events[t].Stop()
    ensures Innermost(events, n + 1, i) == Innermost(events, n, i)
  {
    forall p: real ensures IsInnermost(events, n + 1, i, p) <==> IsInnermost(events, n, i, p) {
      if During(events[n], p) {
        assert During(events[t], p);
      }
    }
  }

  /** Between the start of event `n` and `end`, the event on top of the stack was innermost. */
  lemma TopLoses(events: seq<Event>, n: nat, t: nat, end: real)
    requires Sorted(events) && t < n < |events|
    requires forall j :: t < j < n ==> events[j].Stop() <= events[n].ts
    requires end <= events[t].Stop() && (end == events[n].Stop() || end == events[t].Stop() < events[n].Stop())
    ensures Between(events[n].ts, end) <= Innermost(events, n, t)
    ensures Innermost(events, n + 1, t) == Innermost(events, n, t) - Between(events[n].ts, end)
  {
    forall p: real
      ensures p in Between(events[n].ts, end) ==> IsInnermost(events, n, t, p)
      ensures IsInnermost(events, n + 1, t, p) <==> IsInnermost(events, n, t, p) && p !in Between(events[n].ts, end)
    {
    }
  }

  lemma NewIsInnermost(events: seq<Event>, n: nat)
    requires n < |events|
    ensures Innermost(events, n + 1, n) == Between(events[n].ts, events[n].Stop())
  {
    forall p: real ensures IsInnermost(events, n + 1, n, p) <==> p in Between(events[n].ts, events[n].Stop()) {
    }
  }

  // ----- Nested events: chains and own times -----

  ghost predicate RunningWell(events: seq<Event>, n: nat, stack: seq<Running>, a: nat)
    requires n <= |events| && a < |stack| && stack[a].index < n
  {
    && IsChain(events, stack[a].index, Indices(stack[..a + 1]))
    && HasLength(Innermost(events, n, stack[a].index), stack[a].total)
  }

  ghost predicate SavedWell(events: seq<Event>, n: nat, s: Saved)
    requires n <= |events|
  {
    && s.index < n
    && HasLength(Innermost(events, n, s.index), s.total)
    && exists chain :: IsChain(events, s.index, chain) && s.path == NamesIn(events, chain)
  }

  ghost predicate Well(events: seq<Event>, n: nat, m: Machine)
    requires n <= |events|
  {
    && (forall a :: 0 <= a < |m.stack| ==> m.stack[a].index < n && RunningWell(events, n, m.stack, a))
    && (forall s :: s in m.saved ==> SavedWell(events, n, s))
  }

  ghost predicate SavedStopped(events: seq<Event>, now: real, m: Machine) {
    forall s :: s in m.saved ==> s.index < |events| && events[s.index].Stop() <= now
  }

  lemma PopKeepsWell(events: seq<Event>, n: nat, now: real, m: Machine)
    requires Inv(events, n, now, m) && Well(events, n, m) && m.stack != []
    ensures Well(events, n, PoppedOne(m))
  {
    hide HasLength, Innermost, SavedWell, IsChain;
    var m', top, last := PoppedOne(m), Last(m.stack), |m.stack| - 1;
    forall a | 0 <= a < last ensures RunningWell(events, n, m'.stack, a) {
      assert RunningWell(events, n, m.stack, a);
      assert m'.stack[..a + 1] == m.stack[..a + 1];
    }
    TopSavedWell(events, n, now, m);
  }

  lemma TopSavedWell(events: seq<Event>, n: nat, now: real, m: Machine)
    requires Inv(events, n, now, m) && Well(events, n, m) && m.stack != []
    ensures SavedWell(events, n, Saved(Last(m.stack).index, Names(m.stack), Last(m.stack).total))
  {
    hide HasLength, Innermost, IsChain;
    var last := |m.stack| - 1;
    assert RunningWell(events, n, m.stack, last);
    assert m.stack[..last + 1] == m.stack;
    NamesOfStack(events, n, now, m);
  }

  lemma NamesOfStack(events: seq<Event>, n: nat, now: real, m: Machine)
    requires Inv(events, n, now, m)
    ensures forall k :: k in Indices(m.stack) ==> k < |events|
    ensures Names(m.stack) == NamesIn(events, Indices(m.stack))
  {
  }

  lemma {:induction false} PopUntilKeepsWell(events: seq<Event>, n: nat, now: real, m: Machine)
    requires Inv(events, n, now, m) && Well(events, n, m) && SavedStopped(events, now, m)
    ensures Well(events, n, PoppedUntil(m, now)) && SavedStopped(events, now, PoppedUntil(m, now))
    decreases |m.stack|
  {
    hide Well;
    if m.stack != [] && Last(m.stack).event.Stop() <= now {
      PopKeepsWell(events, n, now, m);
      PopKeepsInv(events, n, now, m);
      PopUntilKeepsWell(events, n, now, PoppedOne(m));
    }
  }

  lemma BelowTopIsInChain(events: seq<Event>, n: nat, m: Machine, a: nat)
    requires n <= |events| && Well(events, n, m) && a < |m.stack| - 1
    ensures Last(m.stack).index < n && m.stack[a].index < n
    ensures m.stack[a].index < Last(m.stack).index ==>
              events[m.stack[a].index].Stop() > events[Last(m.stack).index].ts
  {
    hide HasLength, Innermost;
    var last := |m.stack| - 1;
    assert RunningWell(events, n, m.stack, last);
    assert m.stack[..last + 1] == m.stack;
    assert Indices(m.stack)[a] in Indices(m.stack);
  }

  /** Nested events on the stack stop in the order in which they lie there. */
  lemma TopStopsFirst(events: seq<Event>, n: nat, now: real, m: Machine, a: nat)
    requires Inv(events, n, now, m) && Well(events, n, m) && Nested(events, n) && a < |m.stack|
    ensures Last(m.stack).event.Stop() <= m.stack[a].event.Stop()
    ensures a < |m.stack| - 1 ==> m.stack[a].event.Stop() > Last(m.stack).event.ts
  {
    hide Well;
    if a < |m.stack| - 1 {
      BelowTopIsInChain(events, n, m, a);
    }
  }

  /** What the machine holds when event `n` is about to be pushed. */
  ghost predicate ReadyFor(events: seq<Event>, n: nat, m: Machine)
    requires n < |events|
  {
    && Inv(events, n, events[n].ts, m) && Well(events, n, m) && SavedStopped(events, events[n].ts, m)
    && (m.stack == [] || Last(m.stack).event.Stop() > events[n].ts)
  }

  lemma StackStillRuns(events: seq<Event>, n: nat, m: Machine)
    requires n < |events| && ReadyFor(events, n, m) && Nested(events, n)
    ensures forall k :: 0 <= k < n ==> (k in Indices(m.stack) <==> events[k].Stop() > events[n].ts)
  {
    hide Well;
    forall k | 0 <= k < n ensures k in Indices(m.stack) <==> events[k].Stop() > events[n].ts {
      if k in Indices(m.stack) {
        var a :| 0 <= a < |m.stack| && Indices(m.stack)[a] == k;
        TopStopsFirst(events, n, events[n].ts, m, a);
      } else {
        forall a | 0 <= a < |m.stack| ensures m.stack[a].index != k {
          assert Indices(m.stack)[a] in Indices(m.stack);
        }
      }
    }
  }

  lemma NewIsWell(events: seq<Event>, n: nat, m: Machine)
    requires n < |events| && ReadyFor(events, n, m) && Nested(events, n) && events[n].dur >= 0.0
    ensures var stack := Pushed(m, n, events[n]).stack;
            RunningWell(events, n + 1, stack, |m.stack|)
  {
    hide Well, SavedStopped, Charged, HasLength, Innermost;
    var stack := Pushed(m, n, events[n]).stack;
    ChargedKeeps(m.stack, events[n].dur);
    StackStillRuns(events, n, m);
    var chain := Indices(stack[..|m.stack| + 1]);
    assert chain == Indices(m.stack) + [n];
    forall a, b | 0 <= a < b < |chain| ensures chain[a] < chain[b] {
      assert b < |m.stack| ==> m.stack[a].index < m.stack[b].index;
    }
    assert IsChain(events, n, chain);
    NewIsInnermost(events, n);
    LengthBetween(events[n].ts, events[n].Stop());
  }

  lemma TopIsWell(events: seq<Event>, n: nat, m: Machine)
    requires n < |events| && ReadyFor(events, n, m) && Nested(events, n + 1) && m.stack != []
    requires Sorted(events) && events[n].dur >= 0.0
    ensures RunningWell(events, n + 1, Pushed(m, n, events[n]).stack, |m.stack| - 1)
  {
    hide Well, SavedStopped, HasLength, Innermost;
    var stack, a, t := Pushed(m, n, events[n]).stack, |m.stack| - 1, Last(m.stack).index;
    TopWasWell(events, n, m);
    LaterOnesStopped(events, n, m);
    TopLoses(events, n, t, events[n].Stop());
    TakeOut(Innermost(events, n, t), Last(m.stack).total, events[n].ts, events[n].Stop());
    assert Indices(stack[..a + 1]) == Indices(m.stack[..a + 1]);
  }

  lemma TopWasWell(events: seq<Event>, n: nat, m: Machine)
    requires n <= |events| && Well(events, n, m) && m.stack != []
    ensures Last(m.stack).index < n && RunningWell(events, n, m.stack, |m.stack| - 1)
  {
  }

  lemma LaterOnesStopped(events: seq<Event>, n: nat, m: Machine)
    requires n < |events| && Inv(events, n, events[n].ts, m) && m.stack != []
    ensures forall j :: Last(m.stack).index < j < n ==> events[j].Stop() <= events[n].ts
  {
    forall j | Last(m.stack).index < j < n ensures events[j].Stop() <= events[n].ts {
      assert !OnStack(m.stack, j) by {
        forall a | 0 <= a < |m.stack| ensures m.stack[a].index != j {
          assert a < |m.stack| - 1 ==> m.stack[a].index < Last(m.stack).index;
        }
      }
    }
  }

  lemma BelowIsWell(events: seq<Event>, n: nat, m: Machine, a: nat)
    requires n < |events| && ReadyFor(events, n, m) && Nested(events, n + 1) && a < |m.stack| - 1
    requires Sorted(events)
    ensures var stack := Pushed(m, n, events[n]).stack;
            stack[a].index < n && RunningWell(events, n + 1, stack, a)
  {
    hide SavedStopped, HasLength, Innermost;
    var stack, t := Pushed(m, n, events[n]).stack, Last(m.stack).index;
    assert RunningWell(events, n, m.stack, a);
    ShieldedIsUnmoved(events, n, m.stack[a].index, t);
    assert Indices(stack[..a + 1]) == Indices(m.stack[..a + 1]);
  }

  lemma SavedStaysWell(events: seq<Event>, n: nat, s: Saved)
    requires n < |events| && SavedWell(events, n, s) && events[s.index].Stop() <= events[n].ts
    ensures SavedWell(events, n + 1, s)
  {
    hide HasLength, IsChain;
    StoppedIsUnmoved(events, n, s.index);
  }

  lemma PushKeepsWell(events: seq<Event>, n: nat, m: Machine)
    requires n < |events| && ReadyFor(events, n, m) && Nested(events, n + 1)
    requires Sorted(events) && events[n].dur >= 0.0
    ensures Well(events, n + 1, Pushed(m, n, events[n]))
  {
    hide Inv, Charged, RunningWell, SavedWell;
    var m' := Pushed(m, n, events[n]);
    ChargedKeeps(m.stack, events[n].dur);
    forall a | 0 <= a < |m'.stack| ensures m'.stack[a].index < n + 1 && RunningWell(events, n + 1, m'.stack, a) {
      if a == |m.stack| {
        NewIsWell(events, n, m);
      } else if a == |m.stack| - 1 {
        TopIsWell(events, n, m);
      } else {
        BelowIsWell(events, n, m, a);
      }
    }
    forall s | s in m'.saved ensures SavedWell(events, n + 1, s) {
      SavedStaysWell(events, n, s);
    }
  }

  lemma {:induction false} RunIsWell(events: seq<Event>, n: nat, now: real)
    requires Sorted(events) && Lasting(events) && n <= |events| && Nested(events, n)
    requires forall k :: 0 <= k < n ==> events[k].ts <= now
    ensures Well(events, n, RunOf(events, n)) && SavedStopped(events, now, RunOf(events, n))
    decreases n, 0
  {
    hide Inv, Well, PoppedUntil;
    if n == 0 {
      NothingIsWell(events);
    } else {
      ReadyIsWell(events, n - 1);
      PushKeepsWell(events, n - 1, Ready(events, n - 1));
    }
  }

  lemma NothingIsWell(events: seq<Event>)
    ensures Well(events, 0, Machine([], []))
  {
  }

  lemma {:induction false} ReadyIsWell(events: seq<Event>, n: nat)
    requires Sorted(events) && Lasting(events) && n < |events| && Nested(events, n)
    ensures ReadyFor(events, n, Ready(events, n))
    decreases n, 1
  {
    hide Inv, Well, SavedStopped;
    RunIsWell(events, n, events[n].ts);
    RunKeepsInv(events, n, events[n].ts);
    ReadyInv(events, n);
    PopUntilKeepsWell(events, n, events[n].ts, RunOf(events, n));
  }

  lemma {:induction false} PopAllKeepsWell(events: seq<Event>, n: nat, now: real, m: Machine)
    requires Inv(events, n, now, m) && Well(events, n, m)
    requires forall a :: 0 <= a < |m.stack| ==> m.stack[a].event.Stop() <= now
    ensures Well(events, n, PoppedAll(m))
    decreases |m.stack|
  {
    hide Well, Inv;
    if m.stack != [] {
      PopKeepsWell(events, n, now, m);
      PopKeepsInv(events, n, now, m);
      PopAllKeepsWell(events, n, now, PoppedOne(m));
    }
  }

  lemma {:induction false} EndOfAll(events: seq<Event>, n: nat) returns (now: real)
    requires n <= |events|
    ensures forall k :: 0 <= k < n ==> events[k].ts <= now && events[k].Stop() <= now
  {
    now := 0.0;
    if n > 0 {
      now := EndOfAll(events, n - 1);
      if events[n - 1].ts > now { now := events[n - 1].ts; }
      if events[n - 1].Stop() > now { now := events[n - 1].Stop(); }
    }
  }

  /** Nested events are recorded with the chain of events running when they start, and with the
      time during which they are innermost. */
  lemma NestedEventsAreRecordedWell(events: seq<Event>)
    requires Sorted(events) && Lasting(events) && Nested(events, |events|)
    ensures forall s :: s in Recorded(events) ==> SavedWell(events, |events|, s) && s.total >= 0.0
  {
    hide SavedWell, RunningWell;
    var n := |events|;
    var now := EndOfAll(events, n);
    RunIsWell(events, n, now);
    RunKeepsInv(events, n, now);
    PopAllKeepsWell(events, n, now, RunOf(events, n));
    forall s | s in Recorded(events) ensures s.total >= 0.0 {
      SavedWellIsPositive(events, n, s);
    }
  }

  lemma SavedWellIsPositive(events: seq<Event>, n: nat, s: Saved)
    requires n <= |events| && SavedWell(events, n, s)
    ensures s.total >= 0.0
  {
    hide Innermost, HasLength, IsChain;
    LengthIsNotNegative(Innermost(events, n, s.index), s.total);
  }

  // ----- Events that are not nested -----

  /** Event `t` has, on the stack or recorded, at most `most` left. */
  ghost predicate Capped(m: Machine, t: nat, most: real) {
    && (forall a :: 0 <= a < |m.stack| && m.stack[a].index == t ==> m.stack[a].total <= most)
    && (forall a :: 0 <= a < |m.saved| && m.saved[a].index == t ==> m.saved[a].total <= most)
  }

  lemma PopKeepsCap(m: Machine, t: nat, most: real)
    requires Capped(m, t, most) && m.stack != []
    ensures Capped(PoppedOne(m), t, most)
  {
  }

  lemma {:induction false} PopUntilKeepsCap(m: Machine, now: real, t: nat, most: real)
    requires Capped(m, t, most)
    ensures Capped(PoppedUntil(m, now), t, most)
    decreases |m.stack|
  {
    hide Capped;
    if m.stack != [] && Last(m.stack).event.Stop() <= now {
      PopKeepsCap(m, t, most);
      PopUntilKeepsCap(PoppedOne(m), now, t, most);
    }
  }

  lemma {:induction false} PopAllKeepsCap(m: Machine, t: nat, most: real)
    requires Capped(m, t, most)
    ensures Capped(PoppedAll(m), t, most)
    decreases |m.stack|
  {
    hide Capped;
    if m.stack != [] {
      PopKeepsCap(m, t, most);
      PopAllKeepsCap(PoppedOne(m), t, most);
    }
  }

  lemma PushKeepsCap(m: Machine, n: nat, e: Event, t: nat, most: real)
    requires Capped(m, t, most) && t != n && e.dur >= 0.0
    ensures Capped(Pushed(m, n, e), t, most)
  {
  }

  lemma {:induction false} RunKeepsCap(events: seq<Event>, from: nat, n: nat, t: nat, most: real)
    requires Lasting(events) && t < from <= n <= |events| && Capped(RunOf(events, from), t, most)
    ensures Capped(RunOf(events, n), t, most)
    decreases n
  {
    hide Capped, Pushed, PoppedUntil;
    if from < n {
      RunKeepsCap(events, from, n - 1, t, most);
      var e := events[n - 1];
      PopUntilKeepsCap(RunOf(events, n - 1), e.ts, t, most);
      PushKeepsCap(PoppedUntil(RunOf(events, n - 1), e.ts), n - 1, e, t, most);
    }
  }

  /** If event `n` outlasts an event it starts in, it outlasts the one on top of the stack. */
  lemma OverlapMeetsTop(events: seq<Event>, n: nat, m: Machine)
    requires n < |events| && ReadyFor(events, n, m)
    requires Nested(events, n) && !Nested(events, n + 1)
    ensures m.stack != [] && Last(m.stack).index < n
    ensures events[n].ts < events[Last(m.stack).index].Stop() < events[n].Stop()
  {
    hide Inv, Well, SavedStopped;
    var e := events[n];
    var i: nat :| i < n && events[i].Stop() > e.ts && e.Stop() > events[i].Stop();
    StackStillRuns(events, n, m);
    var a :| 0 <= a < |m.stack| && Indices(m.stack)[a] == i;
    TopStopsFirst(events, n, e.ts, m, a);
    InvEvents(events, n, e.ts, m, a);
    InvEvents(events, n, e.ts, m, |m.stack| - 1);
  }

  /** What the event on top has left of its own when event `n` takes the rest of it. */
  lemma TopKeeps(events: seq<Event>, n: nat, m: Machine)
    requires Sorted(events) && n < |events| && ReadyFor(events, n, m)
    requires m.stack != [] && Last(m.stack).index < n
    requires events[n].ts < events[Last(m.stack).index].Stop() < events[n].Stop()
    ensures var t := Last(m.stack).index;
            HasLength(Innermost(events, n + 1, t), Last(m.stack).total - (events[t].Stop() - events[n].ts))
  {
    hide Inv, Well, SavedStopped, HasLength, Innermost, IsChain;
    var t := Last(m.stack).index;
    TopWasWell(events, n, m);
    LaterOnesStopped(events, n, m);
    TopLoses(events, n, t, events[t].Stop());
    TakeOut(Innermost(events, n, t), Last(m.stack).total, events[n].ts, events[t].Stop());
  }

  /** An event that outlasts the one it starts in: that one is charged for more than it loses. */
  lemma OverlapIsOvercharged(events: seq<Event>, n: nat) returns (t: nat, own: real, most: real)
    requires Sorted(events) && Lasting(events) && n < |events|
    requires Nested(events, n) && !Nested(events, n + 1)
    ensures t < n && HasLength(Innermost(events, n + 1, t), own)
    ensures most < own && Capped(RunOf(events, n + 1), t, most)
    ensures events[n].ts < events[t].Stop() < events[n].Stop()
  {
    hide Inv, Well, PoppedUntil, HasLength, Innermost, SavedStopped, Capped, Pushed, Nested;
    ReadyIsWell(events, n);
    var m, e := Ready(events, n), events[n];
    OverlapMeetsTop(events, n, m);
    TopKeeps(events, n, m);
    OnceOnStack(events, n, e.ts, m, e);
    t, most := Last(m.stack).index, Last(m.stack).total - e.dur;
    own := Last(m.stack).total - (events[t].Stop() - e.ts);
  }

  lemma InvEvents(events: seq<Event>, n: nat, now: real, m: Machine, a: nat)
    requires Inv(events, n, now, m) && a < |m.stack|
    ensures m.stack[a].index < n <= |events| && m.stack[a].event == events[m.stack[a].index]
  {
  }

  lemma NotYetRecorded(events: seq<Event>, n: nat, a: nat, b: nat)
    requires n < |events| && a < |Ready(events, n).stack| && b < |Ready(events, n).saved|
    ensures Ready(events, n).stack[a].index != Ready(events, n).saved[b].index
  {
    RunHolds(events, n);
    var m := Ready(events, n);
    PoppedUntilHolds(RunOf(events, n), events[n].ts);
    var k := m.stack[a].index;
    assert Indices(m.stack)[a] == k && Indices(m.stack)[a] in multiset(Indices(m.stack));
    if m.saved[b].index == k {
      assert SavedIndices(m.saved)[b] == k && SavedIndices(m.saved)[b] in multiset(SavedIndices(m.saved));
      assert Held(m)[k] >= 2;
      UptoOnce(n, k);
    }
  }

  lemma {:induction false} UptoOnce(n: nat, k: nat)
    ensures multiset(Upto(n))[k] <= 1
    ensures multiset(Upto(n))[k] == 1 ==> k < n
  {
    if n > 0 {
      UptoNext(n);
      UptoOnce(n - 1, k);
    }
  }

  lemma OnceOnStack(events: seq<Event>, n: nat, now: real, m: Machine, e: Event)
    requires n < |events| && m == Ready(events, n) && e == events[n]
    requires Inv(events, n, now, m) && m.stack != []
    ensures Capped(Pushed(m, n, e), Last(m.stack).index, Last(m.stack).total - e.dur)
  {
    hide PoppedUntil, RunOf;
    forall b | 0 <= b < |m.saved| ensures m.saved[b].index != Last(m.stack).index {
      NotYetRecorded(events, n, |m.stack| - 1, b);
    }
  }

  /** Once event `n` covers the end of `t`, later events take nothing more from `t`. */
  lemma NothingMoreToLose(events: seq<Event>, n: nat, t: nat)
    requires Sorted(events) && t < n < |events| && events[t].Stop() < events[n].Stop()
    ensures Innermost(events, |events|, t) == Innermost(events, n + 1, t)
  {
    forall p: real ensures IsInnermost(events, |events|, t, p) <==> IsInnermost(events, n + 1, t, p) {
      if IsInnermost(events, n + 1, t, p) {
        assert !During(events[n], p) && p < events[n].ts;
      }
    }
  }

  lemma {:induction false} FirstOverlap(events: seq<Event>, n: nat) returns (k: nat)
    requires n <= |events| && !Nested(events, n)
    ensures k < n && Nested(events, k) && !Nested(events, k + 1)
  {
    k := 0;
    if n > 0 {
      if Nested(events, n - 1) {
        k := n - 1;
      } else {
        k := FirstOverlap(events, n - 1);
      }
    }
  }

  ghost predicate OwnTimesRecorded(events: seq<Event>) {
    forall a :: 0 <= a < |Recorded(events)| ==>
      var s := Recorded(events)[a];
      s.index < |events| && HasLength(Innermost(events, |events|, s.index), s.total)
  }

  /** For events in order of start: what is recorded for every event is the time during which it
      is innermost, exactly when the events are nested. */
  lemma OwnTimesIffNested(events: seq<Event>)
    requires Sorted(events) && Lasting(events)
    ensures OwnTimesRecorded(events) <==> Nested(events, |events|)
  {
    hide HasLength, Innermost, Recorded;
    if Nested(events, |events|) {
      NestedEventsAreRecordedWell(events);
    } else {
      OverlapIsMisrecorded(events);
    }
  }

  lemma OverlapIsMisrecorded(events: seq<Event>)
    requires Sorted(events) && Lasting(events) && !Nested(events, |events|)
    ensures !OwnTimesRecorded(events)
  {
    hide HasLength, Innermost, RunOf, Nested;
    var n := FirstOverlap(events, |events|);
    var t, own, most := OverlapIsOvercharged(events, n);
    NothingMoreToLose(events, n, t);
    RunKeepsCap(events, n + 1, |events|, t, most);
    PopAllKeepsCap(RunOf(events, |events|), t, most);
    var a := RecordOf(events, t);
    if OwnTimesRecorded(events) {
      LengthIsUnique(Innermost(events, |events|, t), own, Recorded(events)[a].total);
    }
  }
}
