/** The store and its request loop as objects that update map and files in place, proved to
    take only steps of the store's runs. */
module ChronosServer {
  import opened Options
  import opened ChronosText
  import opened ChronosParser
  import opened ChronosLog
  import opened ChronosRuns

  lemma {:induction false} RunAppend(s: System, steps: seq<Step>, step: Step)
    requires Legal(s, steps) && Enabled(Run(s, steps), step)
    ensures Legal(s, steps + [step])
    ensures Run(s, steps + [step]) == Next(Run(s, steps), step)
    ensures Transcript(s, steps + [step]) == Transcript(s, steps) + Completed(Run(s, steps), step)
    decreases |steps|
  {
    hide Enabled, Next, Completed;
    if steps == [] {
      assert [step][1..] == [];
      assert Completed(s, step) + [] == [] + Completed(s, step);
    } else {
      assert (steps + [step])[0] == steps[0] && (steps + [step])[1..] == steps[1..] + [step];
      RunAppend(Next(s, steps[0]), steps[1..], step);
    }
  }

  lemma NothingRun(s: System)
    ensures Legal(s, []) && Run(s, []) == s && Transcript(s, []) == []
  {
  }

  predicate RequestsOnly(steps: seq<Step>, c: Command) {
    forall step :: step in steps && step.Request? ==> step.command == c
  }

  /** The records of a map, each entry in one of them, in any order. */
  ghost predicate HoldsEachOnce(records: seq<Record>, m: Store) {
    && (forall r :: r in records ==> r.key in m && r.value == m[r.key])
    && (forall k :: k in m ==> Record(k, m[k]) in records)
    && (forall i, j :: 0 <= i < j < |records| ==> records[i].key != records[j].key)
  }

  /** The text is those records and nothing else. */
  ghost predicate IsListing(text: string, m: Store) {
    exists records :: HoldsEachOnce(records, m) && text == Log(records)
  }

  lemma ListsOneMore(text: string, m: Store, todo: set<string>, key: string)
    requires IsListing(text, m - todo) && key in todo && key in m
    ensures IsListing(text + Record(key, m[key]).Text(), m - (todo - {key}))
  {
    var records :| HoldsEachOnce(records, m - todo) && text == Log(records);
    var more := records + [Record(key, m[key])];
    LogAppend(map[], records, Record(key, m[key]));
    assert HoldsEachOnce(more, m - (todo - {key})) by {
      HoldsOneMore(records, m, todo, key);
    }
  }

  lemma HoldsOneMore(records: seq<Record>, m: Store, todo: set<string>, key: string)
    requires HoldsEachOnce(records, m - todo) && key in todo && key in m
    ensures HoldsEachOnce(records + [Record(key, m[key])], m - (todo - {key}))
  {
    var more := records + [Record(key, m[key])];
    forall k | k in m - (todo - {key}) ensures Record(k, m[k]) in more {
      assert k != key ==> k in m - todo;
      assert more[|records|] == Record(key, m[key]);
    }
    forall i, j | 0 <= i < j < |more| ensures more[i].key != more[j].key {
      assert records[i] in records;
    }
  }

  lemma NothingListed()
    ensures IsListing("", map[])
  {
    assert HoldsEachOnce([], map[]);
  }

  class Disk {
    var files: Files

    constructor (files: Files)
      ensures this.files == files
    {
      this.files := files;
    }
  }

  class Engine {
    const disk: Disk
    var store: Store
    /** The file that the open log handle appends to. */
    var path: string

    /** Opens the log, creating it if needed, and replays it line by line. */
    constructor (disk: Disk, filepath: string)
      modifies disk
      ensures this.disk == disk && path == filepath
      ensures disk.files == old(disk.files)[filepath := TextOf(old(disk.files), filepath)]
      ensures store == Replay(TextOf(old(disk.files), filepath))
      ensures filepath == DB_PATH ==> State() == Next(System(old(disk.files), Down), Start)
    {
      this.disk := disk;
      path := filepath;
      store := map[];
      new;
      if filepath !in disk.files {
        disk.files := disk.files[filepath := ""];
      }
      var rest := disk.files[filepath];
      while rest != ""
        invariant ReplayInto(store, rest) == Replay(TextOf(old(disk.files), filepath))
        invariant path == filepath
        invariant disk.files == old(disk.files)[filepath := TextOf(old(disk.files), filepath)]
        decreases |rest|
      {
        var i := IndexOf(rest, '\n');
        var line := if i == |rest| then rest else StripReturn(rest[..i]);
        rest := if i == |rest| then "" else rest[i + 1..];
        match SplitOnce(line, ',') {
          case Some(pair) => store := store[pair.0 := pair.1];
          case None =>
        }
      }
    }

    function State(): System
      reads this, disk
    {
      System(disk.files, Serving(store))
    }

    method Set(key: string, value: string)
      modifies this`store, disk
      ensures store == old(store)[key := value]
      ensures disk.files == old(disk.files)[path := TextOf(old(disk.files), path) + Record(key, value).Text()]
    {
      store := store[key := value];
      var text := if path in disk.files then disk.files[path] else "";
      disk.files := disk.files[path := text + (key + "," + value + "\n")];
    }

    function Get(key: string): Option<string>
      reads this
    {
      if key in store then Some(store[key]) else None
    }

    /** Rewrites the log from the map, in any order, beside the old one, and renames it into
        place. Every instant of it is a step of the store's runs. */
    method Compact() returns (ghost steps: seq<Step>)
      modifies this`path, disk
      ensures path == DB_PATH
      ensures Legal(old(State()), steps) && Run(old(State()), steps) == State()
      ensures Transcript(old(State()), steps) == [Exchange(Command.Compact, "OK_COMPACTED\n")]
      ensures RequestsOnly(steps, Command.Compact) && NeverStops(steps)
      ensures DB_PATH in disk.files && disk.files == (old(disk.files) - {TEMP_PATH})[DB_PATH := disk.files[DB_PATH]]
      ensures IsListing(disk.files[DB_PATH], store)
    {
      hide Legal, Run, Transcript, IsListing;
      NothingListed();
      assert store - store.Keys == map[] && store - {} == store;
      ghost var before := State();
      NothingRun(before);
      disk.files := disk.files[TEMP_PATH := ""];
      steps := [];
      RunAppend(before, steps, Request(Command.Compact));
      steps := steps + [Request(Command.Compact)];
      var todo := store.Keys;
      while todo != {}
        invariant todo <= store.Keys && TEMP_PATH in disk.files
        invariant Legal(before, steps)
        invariant Run(before, steps) == System(disk.files, Copying(store, todo))
        invariant Transcript(before, steps) == [] && RequestsOnly(steps, Command.Compact) && NeverStops(steps)
        invariant disk.files == old(disk.files)[TEMP_PATH := disk.files[TEMP_PATH]]
        invariant IsListing(disk.files[TEMP_PATH], store - todo)
        decreases todo
      {
        var key :| key in todo;
        var value := store[key];
        ListsOneMore(disk.files[TEMP_PATH], store, todo, key);
        disk.files := disk.files[TEMP_PATH := disk.files[TEMP_PATH] + (key + "," + value + "\n")];
        todo := todo - {key};
        RunAppend(before, steps, Copy(key));
        steps := steps + [Copy(key)];
      }
      disk.files := (disk.files - {TEMP_PATH})[DB_PATH := disk.files[TEMP_PATH]];
      RunAppend(before, steps, Rename);
      steps := steps + [Rename];
      path := DB_PATH;
      RunAppend(before, steps, Reopen);
      steps := steps + [Reopen];
    }
  }

  /** One turn of the request loop: parses a message, carries it out under the lock, and
      replies. Nothing is the panic on blank input. */
  method HandleMessage(engine: Engine, message: string) returns (response: Option<string>, ghost steps: seq<Step>)
    requires engine.path == DB_PATH
    modifies engine`store, engine`path, engine.disk
    ensures engine.path == DB_PATH
    ensures response.Some? <==> Parse(message).Some?
    ensures Legal(old(engine.State()), steps) && Run(old(engine.State()), steps) == engine.State()
    ensures Transcript(old(engine.State()), steps) ==
            if response.Some? then [Exchange(Parse(message).value, response.value)] else []
    ensures response.Some? ==> RequestsOnly(steps, Parse(message).value)
    ensures NeverStops(steps)
    ensures response.None? ==> steps == []
    ensures response.Some? ==>
              match Parse(message).value
              case Set(k, v) => response.value == "OK\n" && engine.store == old(engine.store)[k := v]
              case Del(k) => response.value == "OK_DELETED\n" && engine.store == old(engine.store)[k := "__TOMBSTONE__"]
              case Get(k) =>
                && engine.store == old(engine.store)
                && (k in engine.store && engine.store[k] != "__TOMBSTONE__" ==> response.value == engine.store[k] + "\n")
                && (k !in engine.store || engine.store[k] == "__TOMBSTONE__" ==> response.value == "NULL\n")
              case Compact => response.value == "OK_COMPACTED\n" && engine.store == old(engine.store)
              case Ping => response.value == "PONG\n" && engine.store == old(engine.store)
              case Unknown => response.value == "ERR_UNKNOWN_COMMAND\n" && engine.store == old(engine.store)
  {
    ghost var before := engine.State();
    steps := [];
    var parsed := Parse(message);
    if parsed.None? {
      return None, steps;
    }
    var command := parsed.value;
    match command {
      case Set(key, value) =>
        engine.Set(key, value);
        response := Some("OK\n");
      case Del(key) =>
        engine.Set(key, TOMBSTONE);
        response := Some("OK_DELETED\n");
      case Get(key) =>
        var found := engine.Get(key);
        response := Some(if found.Some? && found.value != TOMBSTONE then found.value + "\n" else "NULL\n");
      case Compact =>
        steps := engine.Compact();
        response := Some("OK_COMPACTED\n");
      case Ping =>
        response := Some("PONG\n");
      case Unknown =>
        response := Some("ERR_UNKNOWN_COMMAND\n");
    }
    if !command.Compact? {
      RunAppend(before, steps, Request(command));
      steps := steps + [Request(command)];
      if IsWrite(command) {
        RunAppend(before, steps, Append);
        steps := steps + [Append];
      }
    }
  }

  /** The messages answered so far, with their replies. */
  function Exchanges(messages: seq<string>, responses: seq<string>): seq<Exchange>
    requires |responses| <= |messages| && forall i :: 0 <= i < |responses| ==> Parse(messages[i]).Some?
  {
    seq(|responses|, i requires 0 <= i < |responses| => Exchange(Parse(messages[i]).value, responses[i]))
  }

  /** One client: message after message, up to a blank one, is answered as the plain map that
      memory shows would answer it, whatever the keys. If no key written has a comma, the log goes
      on holding that map. */
  method HandleClient(engine: Engine, messages: seq<string>, ghost plain: Store) returns (responses: seq<string>)
    requires engine.path == DB_PATH && Live(engine.store) == Live(plain)
    modifies engine`store, engine`path, engine.disk
    ensures |responses| <= |messages| && forall i :: 0 <= i < |responses| ==> Parse(messages[i]).Some?
    ensures |responses| < |messages| ==> Parse(messages[|responses|]).None?
    ensures AnsweredAsPlain(plain, Exchanges(messages, responses))
    ensures engine.path == DB_PATH
    ensures Live(engine.store) == Live(PlainAfter(plain, Exchanges(messages, responses)))
    ensures old(Inv(engine.State(), plain)) && (forall m :: m in messages && Parse(m).Some? ==> CleanCommand(Parse(m).value)) ==>
              Inv(engine.State(), PlainAfter(plain, Exchanges(messages, responses)))
  {
    hide Inv, AnsweredAsPlain, PlainAfter, Parse, CleanCommand, Legal, Run, Transcript, Live;
    responses := [];
    ghost var durable := Inv(engine.State(), plain)
      && forall m :: m in messages && Parse(m).Some? ==> CleanCommand(Parse(m).value);
    NothingAnswered(plain);
    assert Exchanges(messages, responses) == [];
    while |responses| < |messages|
      invariant |responses| <= |messages| && forall i :: 0 <= i < |responses| ==> Parse(messages[i]).Some?
      invariant AnsweredAsPlain(plain, Exchanges(messages, responses))
      invariant engine.path == DB_PATH
      invariant Live(engine.store) == Live(PlainAfter(plain, Exchanges(messages, responses)))
      invariant durable ==> Inv(engine.State(), PlainAfter(plain, Exchanges(messages, responses)))
    {
      ghost var before, now := engine.State(), PlainAfter(plain, Exchanges(messages, responses));
      var message := messages[|responses|];
      var response, steps := HandleMessage(engine, message);
      OneMessage(before, engine.store, now, message, response, steps);
      if durable {
        OneCleanMessage(before, now, message, response, steps);
      }
      if response.None? {
        return;
      }
      AnsweredJoins(plain, Exchanges(messages, responses), [Exchange(Parse(message).value, response.value)]);
      assert Exchanges(messages, responses + [response.value])
          == Exchanges(messages, responses) + [Exchange(Parse(message).value, response.value)];
      responses := responses + [response.value];
    }
  }

  function Done(message: string, response: Option<string>): seq<Exchange>
    requires response.Some? ==> Parse(message).Some?
  {
    if response.Some? then [Exchange(Parse(message).value, response.value)] else []
  }

  lemma OneMessage(before: System, store: Store, now: Store, message: string, response: Option<string>, steps: seq<Step>)
    requires before.process.Serving? && Live(before.process.store) == Live(now)
    requires Legal(before, steps) && NeverStops(steps)
    requires Run(before, steps).process == Serving(store)
    requires response.Some? <==> Parse(message).Some?
    requires Transcript(before, steps) == Done(message, response)
    requires response.None? ==> steps == []
    ensures AnsweredAsPlain(now, Done(message, response))
    ensures Live(store) == Live(PlainAfter(now, Done(message, response)))
    ensures response.None? ==> store == before.process.store && PlainAfter(now, []) == now
  {
    hide Live, AnsweredAsPlain;
    RunShows(before, now, steps);
  }

  lemma OneCleanMessage(before: System, now: Store, message: string, response: Option<string>, steps: seq<Step>)
    requires Inv(before, now) && Legal(before, steps)
    requires response.Some? <==> Parse(message).Some?
    requires Parse(message).Some? ==> CleanCommand(Parse(message).value) && RequestsOnly(steps, Parse(message).value)
    requires Transcript(before, steps) == Done(message, response)
    requires response.None? ==> steps == []
    ensures Inv(Run(before, steps), PlainAfter(now, Done(message, response)))
    ensures response.None? ==> Run(before, steps) == before && PlainAfter(now, []) == now
  {
    hide Inv, AnsweredAsPlain;
    RunAnswers(before, now, steps);
  }
}
