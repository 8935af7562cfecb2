/** The path under which each event is recorded, for any events in order of start, nested or not. */
module ChromeChains {
  import opened ChromeStacks
  import opened ChromeTimes

  /** Some event from k on, before event n, still runs when n starts. */
  ghost predicate IsHeldAt(events: seq<Event>, k: nat, n: nat)
    requires n < |events|
  {
    exists j :: k <= j < n && events[j].Stop() > events[n].ts
  }

  /** Event k is held by one of its successors, or runs itself, at the start of every event up to i. */
  ghost predicate Stays(events: seq<Event>, k: nat, i: nat)
    requires i < |events|
  {
    forall n: nat :: k < n <= i ==> IsHeldAt(events, k, n)
  }

  /** Event i and the earlier events that stay up to it, in order. */
  ghost predicate IsCallPath(events: seq<Event>, i: nat, chain: seq<nat>)
    requires i < |events|
  {
    && chain != [] && chain[|chain| - 1] == i
    && (forall a, b :: 0 <= a < b < |chain| ==> chain[a] < chain[b])
    && (forall k :: k in chain ==> k <= i)
    && (forall k: nat :: k < i ==> (k in chain <==> Stays(events, k, i)))
  }

  // ----- What is on the stack -----

  lemma {:induction false} PoppedIsPrefix(m: Machine, now: real)
    ensures PoppedUntil(m, now).stack <= m.stack
    decreases |m.stack|
  {
    if m.stack != [] && Last(m.stack).event.Stop() <= now {
      PoppedIsPrefix(PoppedOne(m), now);
    }
  }

  lemma OnMeansHeld(events: seq<Event>, n: nat, k: nat)
    requires Sorted(events) && n < |events| && OnStack(Ready(events, n).stack, k)
    ensures OnStack(RunOf(events, n).stack, k) && IsHeldAt(events, k, n)
  {
    hide PoppedUntil, RunOf;
    var all, left := RunOf(events, n).stack, Ready(events, n).stack;
    ReadyInv(events, n);
    PoppedIsPrefix(RunOf(events, n), events[n].ts);
    var a :| 0 <= a < |left| && left[a].index == k;
    assert all[a].index == k;
    var j := Last(left).index;
    InvAscends(events, n, events[n].ts, Ready(events, n), a);
    assert k <= j < n && events[j].Stop() > events[n].ts;
  }

  lemma HeldMeansOn(events: seq<Event>, n: nat, k: nat)
    requires Sorted(events) && n < |events| && OnStack(RunOf(events, n).stack, k) && IsHeldAt(events, k, n)
    ensures OnStack(Ready(events, n).stack, k)
  {
    hide PoppedUntil, RunOf;
    var all, left, now := RunOf(events, n).stack, Ready(events, n).stack, events[n].ts;
    ReadyInv(events, n);
    RunKeepsInv(events, n, now);
    PoppedIsPrefix(RunOf(events, n), now);
    var a :| 0 <= a < |all| && all[a].index == k;
    var j :| k <= j < n && events[j].Stop() > now;
    assert OnStack(left, j);
    var b :| 0 <= b < |left| && left[b].index == j;
    assert all[b].index == j && a <= b;
    assert left[a].index == k;
  }

  /** Of what is on the stack when event n comes, what is held stays, and nothing else. */
  lemma HeldStays(events: seq<Event>, n: nat, k: nat)
    requires Sorted(events) && n < |events|
    ensures OnStack(Ready(events, n).stack, k) <==> OnStack(RunOf(events, n).stack, k) && IsHeldAt(events, k, n)
  {
    hide OnStack, IsHeldAt, RunOf, PoppedUntil;
    if OnStack(Ready(events, n).stack, k) {
      OnMeansHeld(events, n, k);
    } else if OnStack(RunOf(events, n).stack, k) && IsHeldAt(events, k, n) {
      HeldMeansOn(events, n, k);
    }
  }

  lemma PushedOnStack(m: Machine, n: nat, e: Event, k: nat)
    ensures OnStack(Pushed(m, n, e).stack, k) <==> OnStack(m.stack, k) || k == n
  {
    hide Charged;
    ChargedKeeps(m.stack, e.dur);
    var stack := Pushed(m, n, e).stack;
    assert stack[|m.stack|].index == n;
    if a :| 0 <= a < |m.stack| && m.stack[a].index == k {
      assert stack[a].index == k;
    }
  }

  lemma StaysOn(events: seq<Event>, k: nat, n: nat)
    requires k < n < |events|
    ensures Stays(events, k, n) <==> (k == n - 1 || Stays(events, k, n - 1)) && IsHeldAt(events, k, n)
  {
    hide IsHeldAt;
  }

  /** When event n comes, exactly the events that stay up to it are on the stack. */
  lemma {:induction false} StackIsWhatStays(events: seq<Event>, n: nat, k: nat)
    requires Sorted(events) && n < |events|
    ensures OnStack(Ready(events, n).stack, k) <==> k < n && Stays(events, k, n)
    decreases n
  {
    hide OnStack, Stays, IsHeldAt, PoppedUntil, Pushed;
    HeldStays(events, n, k);
    if n == 0 {
      NothingOnStack(k);
    } else {
      StackIsWhatStays(events, n - 1, k);
      PushedOnStack(Ready(events, n - 1), n - 1, events[n - 1], k);
      if k < n {
        StaysOn(events, k, n);
      } else {
        NotHeld(events, k, n);
      }
    }
  }

  lemma NothingOnStack(k: nat)
    ensures !OnStack([], k)
  {
  }

  lemma NotHeld(events: seq<Event>, k: nat, n: nat)
    requires n < |events| && k >= n
    ensures !IsHeldAt(events, k, n)
  {
  }

  // ----- The paths -----

  ghost predicate RunsOnPath(events: seq<Event>, stack: seq<Running>, a: nat)
    requires a < |stack|
  {
    stack[a].index < |events| && IsCallPath(events, stack[a].index, Indices(stack[..a + 1]))
  }

  ghost predicate SavedOnPath(events: seq<Event>, s: Saved) {
    s.index < |events| && exists chain :: IsCallPath(events, s.index, chain) && s.path == NamesIn(events, chain)
  }

  ghost predicate OnPaths(events: seq<Event>, m: Machine) {
    && (forall a :: 0 <= a < |m.stack| ==> RunsOnPath(events, m.stack, a))
    && (forall s :: s in m.saved ==> SavedOnPath(events, s))
  }

  lemma PopKeepsPaths(events: seq<Event>, n: nat, now: real, m: Machine)
    requires Inv(events, n, now, m) && OnPaths(events, m) && m.stack != []
    ensures OnPaths(events, PoppedOne(m))
  {
    hide IsCallPath;
    var rest, top := PoppedOne(m).stack, |m.stack| - 1;
    forall a | 0 <= a < |rest| ensures RunsOnPath(events, rest, a) {
      assert RunsOnPath(events, m.stack, a);
      assert rest[..a + 1] == m.stack[..a + 1];
    }
    assert RunsOnPath(events, m.stack, top);
    assert m.stack[..top + 1] == m.stack;
    var chain := Indices(m.stack);
    PathInEvents(events, Last(m.stack).index, chain);
    assert Names(m.stack) == NamesIn(events, chain);
  }

  lemma PathInEvents(events: seq<Event>, i: nat, chain: seq<nat>)
    requires i < |events| && IsCallPath(events, i, chain)
    ensures forall k :: k in chain ==> k < |events|
  {
  }

  lemma {:induction false} PopUntilKeepsPaths(events: seq<Event>, n: nat, now: real, m: Machine)
    requires Inv(events, n, now, m) && OnPaths(events, m)
    ensures OnPaths(events, PoppedUntil(m, now))
    decreases |m.stack|
  {
    hide Inv, OnPaths;
    if m.stack != [] && Last(m.stack).event.Stop() <= now {
      PopKeepsPaths(events, n, now, m);
      PopKeepsInv(events, n, now, m);
      PopUntilKeepsPaths(events, n, now, PoppedOne(m));
    }
  }

  lemma {:induction false} PopAllKeepsPaths(events: seq<Event>, n: nat, now: real, m: Machine)
    requires Inv(events, n, now, m) && OnPaths(events, m)
    requires forall a :: 0 <= a < |m.stack| ==> m.stack[a].event.Stop() <= now
    ensures OnPaths(events, PoppedAll(m))
    decreases |m.stack|
  {
    hide Inv, OnPaths;
    if m.stack != [] {
      PopKeepsPaths(events, n, now, m);
      PopKeepsInv(events, n, now, m);
      PopAllKeepsPaths(events, n, now, PoppedOne(m));
    }
  }

  lemma PushKeepsPaths(events: seq<Event>, n: nat)
    requires Sorted(events) && n < |events| && OnPaths(events, Ready(events, n))
    ensures OnPaths(events, Pushed(Ready(events, n), n, events[n]))
  {
    hide IsCallPath, Charged, PoppedUntil, SavedOnPath, Inv;
    var m := Ready(events, n);
    var stack := Pushed(m, n, events[n]).stack;
    ChargedKeeps(m.stack, events[n].dur);
    ReadyInv(events, n);
    forall a | 0 <= a < |stack| ensures RunsOnPath(events, stack, a) {
      if a < |m.stack| {
        assert RunsOnPath(events, m.stack, a);
        assert Indices(stack[..a + 1]) == Indices(m.stack[..a + 1]);
      } else {
        assert Indices(stack[..a + 1]) == Indices(m.stack) + [n];
        NewPath(events, n);
      }
    }
  }

  lemma NewPath(events: seq<Event>, n: nat)
    requires Sorted(events) && n < |events|
    ensures IsCallPath(events, n, Indices(Ready(events, n).stack) + [n])
  {
    hide PoppedUntil, Stays;
    var stack := Ready(events, n).stack;
    var chain := Indices(stack) + [n];
    ReadyInv(events, n);
    forall k: nat | k < n ensures k in chain <==> Stays(events, k, n) {
      StackIsWhatStays(events, n, k);
      if k in chain {
        var a :| 0 <= a < |chain| && chain[a] == k;
        assert stack[a].index == k;
      }
      if a :| 0 <= a < |stack| && stack[a].index == k {
        assert chain[a] == k;
      }
    }
  }

  lemma {:induction false} RunKeepsPaths(events: seq<Event>, n: nat)
    requires Sorted(events) && n <= |events|
    ensures OnPaths(events, RunOf(events, n))
  {
    hide Inv, OnPaths, PoppedUntil, Pushed;
    if n == 0 {
      NothingOnPaths(events);
    } else {
      RunKeepsPaths(events, n - 1);
      RunKeepsInv(events, n - 1, events[n - 1].ts);
      PopUntilKeepsPaths(events, n - 1, events[n - 1].ts, RunOf(events, n - 1));
      PushKeepsPaths(events, n - 1);
    }
  }

  lemma NothingOnPaths(events: seq<Event>)
    ensures OnPaths(events, Machine([], []))
  {
  }

  /** For any events in order of start, overlapping as they may: each is recorded under the names of
      the events that stay up to its own start, outermost first, and then its own. */
  lemma RecordedOnPaths(events: seq<Event>)
    requires Sorted(events)
    ensures forall s :: s in Recorded(events) ==> SavedOnPath(events, s)
  {
    hide SavedOnPath, RunsOnPath, RunOf;
    var n := |events|;
    var now := EndOfAll(events, n);
    RunKeepsPaths(events, n);
    RunKeepsInv(events, n, now);
    PopAllKeepsPaths(events, n, now, RunOf(events, n));
  }

  // ----- The times -----

  /** Event i is the last of the earlier events that stay up to event j. */
  ghost predicate IsCaller(events: seq<Event>, i: nat, j: nat)
    requires j < |events|
  {
    i < j && Stays(events, i, j) && forall k: nat :: i < k < j ==> !Stays(events, k, j)
  }

  /** The durations of those of the first n events whose caller is event i. */
  ghost function TakenFrom(events: seq<Event>, i: nat, n: nat): real
    requires n <= |events|
  {
    if n == 0 then 0.0 else TakenFrom(events, i, n - 1) + (if IsCaller(events, i, n - 1) then events[n - 1].dur else 0.0)
  }

  ghost predicate IsOwn(events: seq<Event>, n: nat, i: nat, total: real)
    requires n <= |events|
  {
    i < |events| && total == events[i].dur - TakenFrom(events, i, n)
  }

  ghost predicate TimesAre(events: seq<Event>, n: nat, m: Machine)
    requires n <= |events|
  {
    && (forall a :: 0 <= a < |m.stack| ==> IsOwn(events, n, m.stack[a].index, m.stack[a].total))
    && (forall b :: 0 <= b < |m.saved| ==> IsOwn(events, n, m.saved[b].index, m.saved[b].total))
  }

  lemma {:induction false} PopKeepsTimes(events: seq<Event>, n: nat, m: Machine, now: real)
    requires n <= |events| && TimesAre(events, n, m)
    ensures TimesAre(events, n, PoppedUntil(m, now)) && TimesAre(events, n, PoppedAll(m))
    decreases |m.stack|
  {
    hide IsOwn;
    if m.stack != [] {
      PopKeepsTimes(events, n, PoppedOne(m), now);
    }
  }

  lemma CallerIsTop(events: seq<Event>, n: nat, i: nat)
    requires Sorted(events) && n < |events|
    ensures var stack := Ready(events, n).stack;
            IsCaller(events, i, n) <==> stack != [] && i == Last(stack).index
  {
    hide Stays, PoppedUntil, RunOf;
    var stack := Ready(events, n).stack;
    ReadyInv(events, n);
    forall k: nat | k < n ensures OnStack(stack, k) <==> Stays(events, k, n) {
      StackIsWhatStays(events, n, k);
    }
    if stack != [] {
      assert OnStack(stack, Last(stack).index);
      assert forall k: nat :: OnStack(stack, k) ==> k <= Last(stack).index;
    }
  }

  lemma {:induction false} NothingTakenYet(events: seq<Event>, i: nat, n: nat)
    requires n <= |events| && n <= i + 1
    ensures TakenFrom(events, i, n) == 0.0
  {
    if n > 0 {
      NothingTakenYet(events, i, n - 1);
    }
  }

  lemma NextTaken(events: seq<Event>, n: nat, i: nat, total: real)
    requires n < |events| && IsOwn(events, n, i, total)
    ensures IsOwn(events, n + 1, i, if IsCaller(events, i, n) then total - events[n].dur else total)
  {
    hide IsCaller;
  }

  lemma PushKeepsTimes(events: seq<Event>, n: nat)
    requires Sorted(events) && n < |events| && TimesAre(events, n, Ready(events, n))
    ensures TimesAre(events, n + 1, Pushed(Ready(events, n), n, events[n]))
  {
    hide IsOwn, IsCaller, PoppedUntil, RunOf, Inv;
    var m := Ready(events, n);
    var m', last := Pushed(m, n, events[n]), |m.stack| - 1;
    ReadyInv(events, n);
    forall a | 0 <= a < |m'.stack| ensures IsOwn(events, n + 1, m'.stack[a].index, m'.stack[a].total) {
      if a <= last {
        CallerIsTop(events, n, m.stack[a].index);
        InvAscends(events, n, events[n].ts, m, a);
        NextTaken(events, n, m.stack[a].index, m.stack[a].total);
      } else {
        NewIsOwn(events, n);
      }
    }
    forall b | 0 <= b < |m'.saved| ensures IsOwn(events, n + 1, m'.saved[b].index, m'.saved[b].total) {
      CallerIsTop(events, n, m.saved[b].index);
      if m.stack != [] {
        NotYetRecorded(events, n, last, b);
      }
      NextTaken(events, n, m.saved[b].index, m.saved[b].total);
    }
  }

  lemma InvAscends(events: seq<Event>, n: nat, now: real, m: Machine, a: nat)
    requires Inv(events, n, now, m) && a < |m.stack|
    ensures a < |m.stack| - 1 ==> m.stack[a].index < Last(m.stack).index
  {
  }

  lemma NewIsOwn(events: seq<Event>, n: nat)
    requires n < |events|
    ensures IsOwn(events, n + 1, n, events[n].dur)
  {
    NothingTakenYet(events, n, n + 1);
  }

  lemma {:induction false} RunTimes(events: seq<Event>, n: nat)
    requires Sorted(events) && n <= |events|
    ensures TimesAre(events, n, RunOf(events, n))
  {
    hide TimesAre, PoppedUntil, Pushed;
    if n == 0 {
      NoTimes(events);
    } else {
      RunTimes(events, n - 1);
      PopKeepsTimes(events, n - 1, RunOf(events, n - 1), events[n - 1].ts);
      PushKeepsTimes(events, n - 1);
    }
  }

  lemma NoTimes(events: seq<Event>)
    ensures TimesAre(events, 0, Machine([], []))
  {
  }

  /** For any events in order of start: what is recorded for each is its duration less those of the
      events that it calls. */
  lemma RecordedTimes(events: seq<Event>)
    requires Sorted(events)
    ensures forall b :: 0 <= b < |Recorded(events)| ==>
              IsOwn(events, |events|, Recorded(events)[b].index, Recorded(events)[b].total)
  {
    hide IsOwn, RunOf;
    RunTimes(events, |events|);
    PopKeepsTimes(events, |events|, RunOf(events, |events|), 0.0);
  }
}
