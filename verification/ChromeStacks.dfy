/** The collapser for trace events of one thread (FlameGraph/stackcollapse-chrome-tracing.py):
    a stack of events still running, one pass over events by start. Times are reals, exact. */
module ChromeStacks {
  import opened ChromePaths

  datatype Event = Event(name: string, ts: real, dur: real) {
    function Stop(): real { ts + dur }
  }

  /** An event on the stack, and what is left of its duration. */
  datatype Running = Running(index: nat, event: Event, total: real)

  /** What is recorded when an event leaves the stack. */
  datatype Saved = Saved(index: nat, path: seq<string>, total: real)

  datatype Machine = Machine(stack: seq<Running>, saved: seq<Saved>)

  // ----- The machine -----

  function Names(stack: seq<Running>): seq<string> {
    seq(|stack|, i requires 0 <= i < |stack| => stack[i].event.name)
  }

  function Last(stack: seq<Running>): Running
    requires stack != []
  {
    stack[|stack| - 1]
  }

  /** The innermost event is recorded and leaves. */
  function PoppedOne(m: Machine): Machine
    requires m.stack != []
  {
    var top := Last(m.stack);
    Machine(m.stack[..|m.stack| - 1], m.saved + [Saved(top.index, Names(m.stack), top.total)])
  }

  /** Events that have stopped leave, from the innermost, until one has not. */
  function PoppedUntil(m: Machine, now: real): Machine
    decreases |m.stack|
  {
    if m.stack == [] || Last(m.stack).event.Stop() > now then m else PoppedUntil(PoppedOne(m), now)
  }

  function PoppedAll(m: Machine): Machine
    decreases |m.stack|
  {
    if m.stack == [] then m else PoppedAll(PoppedOne(m))
  }

  function Charged(stack: seq<Running>, dur: real): seq<Running> {
    if stack == [] then []
    else stack[..|stack| - 1] + [Last(stack).(total := Last(stack).total - dur)]
  }

  function Pushed(m: Machine, index: nat, e: Event): Machine {
    m.(stack := Charged(m.stack, e.dur) + [Running(index, e, e.dur)])
  }

  function After(m: Machine, index: nat, e: Event): Machine {
    Pushed(PoppedUntil(m, e.ts), index, e)
  }

  function RunOf(events: seq<Event>, n: nat): Machine
    requires n <= |events|
  {
    if n == 0 then Machine([], []) else After(RunOf(events, n - 1), n - 1, events[n - 1])
  }

  /** Everything recorded, in order. */
  function Recorded(events: seq<Event>): seq<Saved> {
    PoppedAll(RunOf(events, |events|)).saved
  }

  // ----- The program -----

  function ValueAt(identifiers: map<string, real>, identifier: string): real {
    if identifier in identifiers then identifiers[identifier] else 0.0
  }

  function WithSaved(identifiers: map<string, real>, saved: seq<Saved>): map<string, real> {
    if saved == [] then identifiers
    else
      var last := saved[|saved| - 1];
      var before := WithSaved(identifiers, saved[..|saved| - 1]);
      before[Joined(last.path) := ValueAt(before, Joined(last.path)) + last.total]
  }

  /** The time recorded under an identifier. */
  function TimeUnder(saved: seq<Saved>, identifier: string): real {
    if saved == [] then 0.0
    else
      var last := saved[|saved| - 1];
      TimeUnder(saved[..|saved| - 1], identifier) + (if Joined(last.path) == identifier then last.total else 0.0)
  }

  /** Whatever other threads left in the dictionary, an identifier gains what is recorded under
      it, and is there if anything was. */
  lemma {:induction false} DictionaryAddsUp(identifiers: map<string, real>, saved: seq<Saved>, identifier: string)
    ensures ValueAt(WithSaved(identifiers, saved), identifier)
            == ValueAt(identifiers, identifier) + TimeUnder(saved, identifier)
    ensures identifier in WithSaved(identifiers, saved) <==>
              identifier in identifiers || exists s :: s in saved && Joined(s.path) == identifier
    decreases |saved|
  {
    hide Joined;
    if saved != [] {
      var init, last := saved[..|saved| - 1], saved[|saved| - 1];
      DictionaryAddsUp(identifiers, init, identifier);
      assert saved == init + [last];
    }
  }

  /** The time recorded for a path. */
  function TimeOf(saved: seq<Saved>, path: seq<string>): real {
    if saved == [] then 0.0
    else
      var last := saved[|saved| - 1];
      TimeOf(saved[..|saved| - 1], path) + (if last.path == path then last.total else 0.0)
  }

  predicate PlainPaths(saved: seq<Saved>) {
    forall k :: 0 <= k < |saved| ==> saved[k].path != [] && Plain(saved[k].path)
  }

  lemma {:induction false} TimeUnderIsTimeOf(saved: seq<Saved>, identifier: string)
    requires PlainPaths(saved)
    ensures TimeUnder(saved, identifier) == TimeOf(saved, Pieces(identifier))
    ensures forall s :: s in saved ==> (Joined(s.path) == identifier <==> s.path == Pieces(identifier))
    decreases |saved|
  {
    hide Joined, Pieces, Plain;
    if saved != [] {
      var init, last := saved[..|saved| - 1], saved[|saved| - 1];
      TimeUnderIsTimeOf(init, identifier);
      PlainPathComesBack(last.path);
      TextIsOnePath(identifier);
      assert saved == init + [last];
    }
  }

  /** No event has a semicolon in its name. */
  predicate PlainNames(events: seq<Event>) {
    forall i :: 0 <= i < |events| ==> ';' !in events[i].name
  }

  predicate PlainMachine(m: Machine) {
    (forall a :: 0 <= a < |m.stack| ==> ';' !in m.stack[a].event.name) && PlainPaths(m.saved)
  }

  lemma {:induction false} PoppedIsPlain(m: Machine, now: real)
    requires PlainMachine(m)
    ensures PlainMachine(PoppedUntil(m, now)) && PlainMachine(PoppedAll(m))
    decreases |m.stack|
  {
    if m.stack != [] {
      PoppedIsPlain(PoppedOne(m), now);
    }
  }

  lemma {:induction false} RunIsPlain(events: seq<Event>, n: nat)
    requires PlainNames(events) && n <= |events|
    ensures PlainMachine(RunOf(events, n))
  {
    if n > 0 {
      RunIsPlain(events, n - 1);
      PoppedIsPlain(RunOf(events, n - 1), events[n - 1].ts);
    }
  }

  /** If no name has a semicolon, an identifier gains the times recorded for the path it spells,
      outermost name first, and is there if that path was recorded. */
  lemma DictionaryByPath(identifiers: map<string, real>, events: seq<Event>, identifier: string)
    requires PlainNames(events)
    ensures var all, path := WithSaved(identifiers, Recorded(events)), Pieces(identifier);
            && ValueAt(all, identifier) == ValueAt(identifiers, identifier) + TimeOf(Recorded(events), path)
            && (identifier in all <==> identifier in identifiers || exists s :: s in Recorded(events) && s.path == path)
  {
    hide WithSaved, TimeUnder, TimeOf, Joined, Pieces, Plain;
    RunIsPlain(events, |events|);
    PoppedIsPlain(RunOf(events, |events|), 0.0);
    TimeUnderIsTimeOf(Recorded(events), identifier);
    DictionaryAddsUp(identifiers, Recorded(events), identifier);
  }

  class TraceEvent {
    const event: Event
    var totalDuration: real

    constructor (event: Event)
      ensures this.event == event && totalDuration == event.dur
    {
      this.event := event;
      totalDuration := event.dur;
    }
  }

  class Collapser {
    var stackIdentifiers: map<string, real>

    constructor ()
      ensures stackIdentifiers == map[]
    {
      stackIdentifiers := map[];
    }

    method SaveStack(stack: seq<TraceEvent>, ghost running: seq<Running>)
      requires stack != [] && Shows(stack, running)
      modifies this
      ensures stackIdentifiers == old(stackIdentifiers)[Joined(Names(running)) :=
                ValueAt(old(stackIdentifiers), Joined(Names(running))) + Last(running).total]
    {
      var identifier := stack[0].event.name;
      for i := 1 to |stack|
        invariant identifier == Joined(Names(running)[..i])
      {
        identifier := identifier + ";" + stack[i].event.name;
        assert Names(running)[..i + 1][..i] == Names(running)[..i];
      }
      assert Names(running)[..|stack|] == Names(running);
      var total := stack[|stack| - 1].totalDuration;
      if identifier in stackIdentifiers {
        stackIdentifiers := stackIdentifiers[identifier := stackIdentifiers[identifier] + total];
      } else {
        stackIdentifiers := stackIdentifiers[identifier := total];
      }
    }

    method SaveAndPop(events: seq<TraceEvent>, n: nat, stack: seq<TraceEvent>, ghost m: Machine,
                      ghost was: map<string, real>)
      returns (rest: seq<TraceEvent>)
      requires stack != [] && Tracks(events, n, stack, m)
      requires stackIdentifiers == WithSaved(was, m.saved)
      modifies this
      ensures rest == stack[..|stack| - 1] && Tracks(events, n, rest, PoppedOne(m))
      ensures stackIdentifiers == WithSaved(was, PoppedOne(m).saved)
    {
      SaveStack(stack, m.stack);
      assert PoppedOne(m).saved[..|m.saved|] == m.saved;
      rest := stack[..|stack| - 1];
    }

    /** The innermost event is charged for the new one. */
    method Push(events: seq<TraceEvent>, n: nat, stack: seq<TraceEvent>, ghost m: Machine)
      returns (more: seq<TraceEvent>)
      requires Distinct(events) && n < |events| && Tracks(events, n, stack, m)
      modifies events
      ensures more == stack + [events[n]]
      ensures Tracks(events, n + 1, more, Pushed(m, n, events[n].event))
    {
      if stack != [] {
        var top := stack[|stack| - 1];
        top.totalDuration := top.totalDuration - events[n].event.dur;
      }
      more := stack + [events[n]];
    }

    method PopStopped(events: seq<TraceEvent>, n: nat, stack: seq<TraceEvent>, ghost m: Machine,
                      ghost was: map<string, real>)
      returns (rest: seq<TraceEvent>)
      requires n < |events| && Tracks(events, n, stack, m)
      requires stackIdentifiers == WithSaved(was, m.saved)
      modifies this
      ensures Tracks(events, n, rest, PoppedUntil(m, events[n].event.ts))
      ensures stackIdentifiers == WithSaved(was, PoppedUntil(m, events[n].event.ts).saved)
    {
      rest := stack;
      ghost var m', now := m, events[n].event.ts;
      while rest != [] && rest[|rest| - 1].event.Stop() <= events[n].event.ts
        invariant Tracks(events, n, rest, m')
        invariant PoppedUntil(m', now) == PoppedUntil(m, now)
        invariant stackIdentifiers == WithSaved(was, m'.saved)
        decreases |rest|
      {
        rest := SaveAndPop(events, n, rest, m', was);
        m' := PoppedOne(m');
      }
    }

    method PopAll(events: seq<TraceEvent>, n: nat, stack: seq<TraceEvent>, ghost m: Machine,
                  ghost was: map<string, real>)
      requires Tracks(events, n, stack, m)
      requires stackIdentifiers == WithSaved(was, m.saved)
      modifies this
      ensures stackIdentifiers == WithSaved(was, PoppedAll(m).saved)
    {
      var rest := stack;
      ghost var m' := m;
      while rest != []
        invariant Tracks(events, n, rest, m')
        invariant PoppedAll(m') == PoppedAll(m)
        invariant stackIdentifiers == WithSaved(was, m'.saved)
        decreases |rest|
      {
        rest := SaveAndPop(events, n, rest, m', was);
        m' := PoppedOne(m');
      }
    }

    method Add(events: seq<TraceEvent>, n: nat, stack: seq<TraceEvent>, ghost m: Machine,
               ghost was: map<string, real>)
      returns (more: seq<TraceEvent>)
      requires Distinct(events) && n < |events| && Tracks(events, n, stack, m)
      requires stackIdentifiers == WithSaved(was, m.saved)
      modifies this, events
      ensures Tracks(events, n + 1, more, After(m, n, events[n].event))
      ensures stackIdentifiers == WithSaved(was, After(m, n, events[n].event).saved)
    {
      more := PopStopped(events, n, stack, m, was);
      more := Push(events, n, more, PoppedUntil(m, events[n].event.ts));
    }

    /** Every event leaves the stack exactly as it leaves the machine's, and the dictionary holds
        the sum of what is recorded under each identifier. */
    method LoadStackIdentifiers(events: seq<TraceEvent>)
      requires Distinct(events)
      requires forall i :: 0 <= i < |events| ==> events[i].totalDuration == events[i].event.dur
      modifies this, events
      ensures stackIdentifiers == WithSaved(old(stackIdentifiers), Recorded(EventsOf(events)))
      ensures PlainNames(EventsOf(events)) ==> forall identifier ::
                && ValueAt(stackIdentifiers, identifier)
                   == ValueAt(old(stackIdentifiers), identifier) + TimeOf(Recorded(EventsOf(events)), Pieces(identifier))
                && (identifier in stackIdentifiers <==>
                      identifier in old(stackIdentifiers)
                      || exists s :: s in Recorded(EventsOf(events)) && s.path == Pieces(identifier))
    {
      hide Distinct, Tracks, WithSaved, TimeOf, Pieces, Recorded;
      ghost var was := stackIdentifiers;
      var eventStack := AddAll(events);
      PopAll(events, |events|, eventStack, RunOf(EventsOf(events), |events|), was);
      RecordedIsPoppedAll(EventsOf(events));
      if PlainNames(EventsOf(events)) {
        forall identifier
          ensures ValueAt(stackIdentifiers, identifier)
                  == ValueAt(was, identifier) + TimeOf(Recorded(EventsOf(events)), Pieces(identifier))
          ensures identifier in stackIdentifiers <==>
                    identifier in was || exists s :: s in Recorded(EventsOf(events)) && s.path == Pieces(identifier)
        {
          DictionaryByPath(was, EventsOf(events), identifier);
        }
      }
    }

    method AddAll(events: seq<TraceEvent>) returns (eventStack: seq<TraceEvent>)
      requires Distinct(events)
      requires forall i :: 0 <= i < |events| ==> events[i].totalDuration == events[i].event.dur
      modifies this, events
      ensures Tracks(events, |events|, eventStack, RunOf(EventsOf(events), |events|))
      ensures stackIdentifiers == WithSaved(old(stackIdentifiers), RunOf(EventsOf(events), |events|).saved)
    {
      hide Distinct, Tracks, WithSaved, After;
      TracksNothing(events);
      eventStack := [];
      ghost var m, was := Machine([], []), stackIdentifiers;
      for n := 0 to |events|
        invariant m == RunOf(EventsOf(events), n)
        invariant Tracks(events, n, eventStack, m)
        invariant stackIdentifiers == WithSaved(was, m.saved)
      {
        eventStack := Add(events, n, eventStack, m, was);
        m := After(m, n, events[n].event);
      }
    }
  }

  lemma RecordedIsPoppedAll(events: seq<Event>)
    ensures Recorded(events) == PoppedAll(RunOf(events, |events|)).saved
  {
  }

  lemma TracksNothing(events: seq<TraceEvent>)
    requires forall i :: 0 <= i < |events| ==> events[i].totalDuration == events[i].event.dur
    ensures Tracks(events, 0, [], Machine([], []))
    ensures forall was :: WithSaved(was, []) == was
  {
  }

  ghost predicate Distinct(events: seq<TraceEvent>) {
    forall i, j :: 0 <= i < j < |events| ==> events[i] != events[j]
  }

  function EventsOf(events: seq<TraceEvent>): seq<Event> {
    seq(|events|, i requires 0 <= i < |events| => events[i].event)
  }

  /** The stack of objects shows what the machine's stack says. */
  ghost predicate Shows(stack: seq<TraceEvent>, running: seq<Running>)
    reads stack
  {
    && |stack| == |running|
    && forall k :: 0 <= k < |stack| ==>
         stack[k].event == running[k].event && stack[k].totalDuration == running[k].total
  }

  ghost predicate Tracks(events: seq<TraceEvent>, n: nat, stack: seq<TraceEvent>, m: Machine)
    reads events, stack
  {
    && n <= |events|
    && Shows(stack, m.stack)
    && (forall k :: 0 <= k < |stack| ==> m.stack[k].index < n && stack[k] == events[m.stack[k].index])
    && (forall k, l :: 0 <= k < l < |stack| ==> m.stack[k].index < m.stack[l].index)
    && (forall i :: n <= i < |events| ==> events[i].totalDuration == events[i].event.dur)
  }
}
