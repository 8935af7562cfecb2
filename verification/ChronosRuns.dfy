/** Every run of the store: requests, compaction step by step, and stops and restarts anywhere. */
module ChronosRuns {
  import opened ChronosText
  import opened ChronosParser
  import opened ChronosLog

  const DB_PATH := "chronos_v3.db"
  const TEMP_PATH := "chronos_temp.db"
  const TOMBSTONE := "__TOMBSTONE__"

  type Files = map<string, string>

  /** The server process. `Appending`: the map has the write, the log not yet. `Copying`: the
      compaction still has to write the records of the keys `todo`. `Renamed`: the new log is
      in place, but not yet opened. */
  datatype Process =
    | Down
    | Serving(store: Store)
    | Appending(store: Store, write: Command)
    | Copying(store: Store, todo: set<string>)
    | Renamed(store: Store)

  datatype System = System(files: Files, process: Process)

  /** `Copy` names the next key: a hash map is walked in any order. */
  datatype Step =
    | Start
    | Request(command: Command)
    | Append
    | Copy(key: string)
    | Rename
    | Reopen
    | Stop

  predicate IsWrite(c: Command) {
    c.Set? || c.Del?
  }

  /** The record that a write appends. */
  function RecordOf(c: Command): Record
    requires IsWrite(c)
  {
    if c.Set? then Record(c.key, c.value) else Record(c.key, TOMBSTONE)
  }

  function Reply(store: Store, c: Command): string {
    match c
    case Set(_, _) => "OK\n"
    case Del(_) => "OK_DELETED\n"
    case Get(k) => if k in store && store[k] != TOMBSTONE then store[k] + "\n" else "NULL\n"
    case Compact => "OK_COMPACTED\n"
    case Ping => "PONG\n"
    case Unknown => "ERR_UNKNOWN_COMMAND\n"
  }

  /** The text of a file, and nothing for one that is not there. */
  function TextOf(files: Files, path: string): string {
    if path in files then files[path] else ""
  }

  predicate Enabled(s: System, step: Step) {
    match step
    case Start => s.process.Down?
    case Request(_) => s.process.Serving?
    case Append => s.process.Appending? && IsWrite(s.process.write)
    case Copy(k) => s.process.Copying? && k in s.process.todo && k in s.process.store
    case Rename => s.process.Copying? && s.process.todo == {}
    case Reopen => s.process.Renamed?
    case Stop => !s.process.Down?
  }

  function Next(s: System, step: Step): System
    requires Enabled(s, step)
  {
    match step
    case Start =>
      var text := TextOf(s.files, DB_PATH);
      System(s.files[DB_PATH := text], Serving(Replay(text)))
    case Request(c) =>
      var store := s.process.store;
      if IsWrite(c) then
        s.(process := Appending(store[RecordOf(c).key := RecordOf(c).value], c))
      else if c.Compact? then
        System(s.files[TEMP_PATH := ""], Copying(store, store.Keys))
      else s
    case Append =>
      var text := TextOf(s.files, DB_PATH) + RecordOf(s.process.write).Text();
      System(s.files[DB_PATH := text], Serving(s.process.store))
    case Copy(k) =>
      var text := TextOf(s.files, TEMP_PATH) + Record(k, s.process.store[k]).Text();
      System(s.files[TEMP_PATH := text], Copying(s.process.store, s.process.todo - {k}))
    case Rename =>
      System((s.files - {TEMP_PATH})[DB_PATH := TextOf(s.files, TEMP_PATH)], Renamed(s.process.store))
    case Reopen => s.(process := Serving(s.process.store))
    case Stop => s.(process := Down)
  }

  /** A request and its reply. */
  datatype Exchange = Exchange(command: Command, reply: string)

  /** The exchange that a step completes. */
  function Completed(s: System, step: Step): seq<Exchange>
    requires Enabled(s, step)
  {
    match step
    case Request(c) =>
      if IsWrite(c) || c.Compact? then [] else [Exchange(c, Reply(s.process.store, c))]
    case Append => [Exchange(s.process.write, Reply(s.process.store, s.process.write))]
    case Reopen => [Exchange(Compact, Reply(s.process.store, Compact))]
    case _ => []
  }

  predicate Legal(s: System, steps: seq<Step>)
    decreases |steps|
  {
    steps == [] || (Enabled(s, steps[0]) && Legal(Next(s, steps[0]), steps[1..]))
  }

  function Run(s: System, steps: seq<Step>): System
    requires Legal(s, steps)
    decreases |steps|
  {
    if steps == [] then s else Run(Next(s, steps[0]), steps[1..])
  }

  function Transcript(s: System, steps: seq<Step>): seq<Exchange>
    requires Legal(s, steps)
    decreases |steps|
  {
    if steps == [] then [] else Completed(s, steps[0]) + Transcript(Next(s, steps[0]), steps[1..])
  }

  // ----- The plain map -----

  /** What a plain map with deletion does. */
  function PlainNext(m: Store, c: Command): Store {
    match c
    case Set(k, v) => m[k := v]
    case Del(k) => m - {k}
    case _ => m
  }

  function PlainReply(m: Store, c: Command): string {
    match c
    case Set(_, _) => "OK\n"
    case Del(_) => "OK_DELETED\n"
    case Get(k) => if k in m then m[k] + "\n" else "NULL\n"
    case Compact => "OK_COMPACTED\n"
    case Ping => "PONG\n"
    case Unknown => "ERR_UNKNOWN_COMMAND\n"
  }

  /** The plain map holds the tombstone text itself under the key that is read. */
  predicate ReadsTombstone(m: Store, c: Command) {
    c.Get? && c.key in m && m[c.key] == "__TOMBSTONE__"
  }

  /** Every exchange has the reply of the plain map, except exactly those that read the
      tombstone text. */
  ghost predicate AnsweredAsPlain(m: Store, exchanges: seq<Exchange>)
    decreases |exchanges|
  {
    exchanges == [] ||
    (&& (exchanges[0].reply == PlainReply(m, exchanges[0].command) <==> !ReadsTombstone(m, exchanges[0].command))
     && AnsweredAsPlain(PlainNext(m, exchanges[0].command), exchanges[1..]))
  }

  function PlainAfter(m: Store, exchanges: seq<Exchange>): Store
    decreases |exchanges|
  {
    if exchanges == [] then m else PlainAfter(PlainNext(m, exchanges[0].command), exchanges[1..])
  }

  /** A request the log can hold: one line, and no comma in the key. */
  predicate CleanCommand(c: Command) {
    IsWrite(c) ==> RecordOf(c).Clean()
  }

  predicate CleanSteps(steps: seq<Step>) {
    forall step :: step in steps && step.Request? ==> CleanCommand(step.command)
  }

  // ----- Logs of stores -----

  /** The text is a log of clean records that were written to give `m`. */
  ghost predicate IsLogOf(text: string, m: Store) {
    exists records :: IsWrittenLog(text, m, records)
  }

  ghost predicate IsWrittenLog(text: string, m: Store, records: seq<Record>) {
    AllClean(records) && text == Log(records) && m == Written(map[], records)
  }

  lemma EmptyIsLog()
    ensures IsLogOf("", map[])
  {
    assert IsWrittenLog("", map[], []);
  }

  lemma {:induction false} LogAppend(m: Store, records: seq<Record>, r: Record)
    ensures Log(records + [r]) == Log(records) + r.Text()
    ensures Written(m, records + [r]) == Written(m, records)[r.key := r.value]
    decreases |records|
  {
    if records == [] {
      assert [r][1..] == [];
      assert Log([r]) == r.Text() + "";
    } else {
      assert (records + [r])[0] == records[0] && (records + [r])[1..] == records[1..] + [r];
      LogAppend(m[records[0].key := records[0].value], records[1..], r);
    }
  }

  lemma AppendToLog(text: string, m: Store, r: Record)
    requires IsLogOf(text, m) && r.Clean()
    ensures IsLogOf(text + r.Text(), m[r.key := r.value])
  {
    var records :| IsWrittenLog(text, m, records);
    LogAppend(map[], records, r);
    assert IsWrittenLog(text + r.Text(), m[r.key := r.value], records + [r]);
  }

  lemma ReplayOfLog(text: string, m: Store)
    requires IsLogOf(text, m)
    ensures Replay(text) == m
  {
    var records :| IsWrittenLog(text, m, records);
    ReplayLog(map[], records, "");
    assert Log(records) + "" == Log(records);
  }

  lemma {:induction false} WrittenIsClean(m: Store, records: seq<Record>)
    requires AllClean(records) && forall k :: k in m ==> Record(k, m[k]).Clean()
    ensures forall k :: k in Written(m, records) ==> Record(k, Written(m, records)[k]).Clean()
    decreases |records|
  {
    if records != [] {
      assert records[0] in records;
      WrittenIsClean(m[records[0].key := records[0].value], records[1..]);
    }
  }

  lemma LogHoldsClean(text: string, m: Store)
    requires IsLogOf(text, m)
    ensures forall k :: k in m ==> Record(k, m[k]).Clean()
  {
    var records :| IsWrittenLog(text, m, records);
    WrittenIsClean(map[], records);
  }

  // ----- What every step keeps -----

  /** The entries a reader can see. */
  function Live(m: Store): Store {
    map k | k in m && m[k] != TOMBSTONE :: m[k]
  }

  /** The durable log holds a store that shows the plain map, whatever the process is doing. */
  ghost predicate Inv(s: System, plain: Store) {
    var text := TextOf(s.files, DB_PATH);
    match s.process
    case Down => IsLogOf(text, Replay(text)) && Live(Replay(text)) == Live(plain)
    case Serving(m) => IsLogOf(text, m) && Live(m) == Live(plain)
    case Appending(m, c) =>
      && IsWrite(c) && RecordOf(c).Clean()
      && IsLogOf(text, Replay(text)) && Live(Replay(text)) == Live(plain)
      && m == Replay(text)[RecordOf(c).key := RecordOf(c).value]
    case Copying(m, todo) =>
      && IsLogOf(text, m) && Live(m) == Live(plain)
      && todo <= m.Keys && IsLogOf(TextOf(s.files, TEMP_PATH), m - todo)
    case Renamed(m) => IsLogOf(text, m) && Live(m) == Live(plain)
  }

  /** What is durable does not depend on the process. */
  lemma InvSurvivesStop(s: System, plain: Store)
    requires Inv(s, plain)
    ensures Inv(s.(process := Down), plain)
  {
    var text := TextOf(s.files, DB_PATH);
    match s.process {
      case Serving(m) => ReplayOfLog(text, m);
      case Copying(m, _) => ReplayOfLog(text, m);
      case Renamed(m) => ReplayOfLog(text, m);
      case _ =>
    }
  }

  lemma LiveAfterWrite(m: Store, plain: Store, c: Command)
    requires Live(m) == Live(plain) && IsWrite(c)
    ensures Live(m[RecordOf(c).key := RecordOf(c).value]) == Live(PlainNext(plain, c))
  {
    var m', plain' := m[RecordOf(c).key := RecordOf(c).value], PlainNext(plain, c);
    forall k ensures k in Live(m') <==> k in Live(plain') {
      assert k in Live(m) <==> k in Live(plain);
    }
    forall k | k in Live(m') ensures Live(m')[k] == Live(plain')[k] {
      assert k in Live(m) ==> Live(m)[k] == Live(plain)[k];
    }
  }

  lemma CopyKeepsInv(s: System, plain: Store, key: string)
    requires Inv(s, plain) && Enabled(s, Copy(key))
    ensures Inv(Next(s, Copy(key)), plain)
  {
    var m, todo := s.process.store, s.process.todo;
    LogHoldsClean(TextOf(s.files, DB_PATH), m);
    AppendToLog(TextOf(s.files, TEMP_PATH), m - todo, Record(key, m[key]));
    assert (m - todo)[key := m[key]] == m - (todo - {key});
  }

  /** One step: the invariant moves along with the plain map, and the exchange it completes, if
      any, is answered as the plain map answers. */
  lemma StepAnswers(s: System, plain: Store, step: Step)
    requires Inv(s, plain) && Enabled(s, step)
    requires step.Request? ==> CleanCommand(step.command)
    ensures Inv(Next(s, step), PlainAfter(plain, Completed(s, step)))
    ensures AnsweredAsPlain(plain, Completed(s, step))
  {
    var text := TextOf(s.files, DB_PATH);
    match step {
      case Start =>
      case Request(c) =>
        ReplayOfLog(text, s.process.store);
        EmptyIsLog();
        assert s.process.store - s.process.store.Keys == map[];
        LiveAnswers(s.process.store, plain, c);
      case Append =>
        var c := s.process.write;
        AppendToLog(text, Replay(text), RecordOf(c));
        LiveAfterWrite(Replay(text), plain, c);
      case Copy(k) => CopyKeepsInv(s, plain, k);
      case Rename =>
        assert s.process.store - {} == s.process.store;
      case Reopen =>
      case Stop => InvSurvivesStop(s, plain);
    }
  }

  lemma LiveAnswers(m: Store, plain: Store, c: Command)
    requires Live(m) == Live(plain)
    ensures Reply(m, c) == PlainReply(plain, c) <==> !ReadsTombstone(plain, c)
  {
    if c.Get? {
      assert c.key in Live(m) <==> c.key in Live(plain);
      assert c.key in Live(m) ==> Live(m)[c.key] == Live(plain)[c.key];
      assert TOMBSTONE + "\n" != "NULL\n";
    }
  }

  lemma {:induction false} AnsweredJoins(plain: Store, a: seq<Exchange>, b: seq<Exchange>)
    requires AnsweredAsPlain(plain, a) && AnsweredAsPlain(PlainAfter(plain, a), b)
    ensures AnsweredAsPlain(plain, a + b)
    ensures PlainAfter(plain, a + b) == PlainAfter(PlainAfter(plain, a), b)
    decreases |a|
  {
    hide PlainReply, ReadsTombstone, PlainNext;
    if a == [] {
      assert a + b == b;
    } else {
      assert (a + b)[0] == a[0] && (a + b)[1..] == a[1..] + b;
      AnsweredJoins(PlainNext(plain, a[0].command), a[1..], b);
    }
  }

  /** Any run, from any state the store can be in. */
  lemma {:induction false} RunAnswers(s: System, plain: Store, steps: seq<Step>)
    requires Inv(s, plain) && Legal(s, steps) && CleanSteps(steps)
    ensures AnsweredAsPlain(plain, Transcript(s, steps))
    ensures Inv(Run(s, steps), PlainAfter(plain, Transcript(s, steps)))
    decreases |steps|
  {
    hide Inv, AnsweredAsPlain, PlainAfter;
    if steps == [] {
      NothingAnswered(plain);
    } else {
      assert steps[0] in steps && CleanSteps(steps[1..]);
      var done := Completed(s, steps[0]);
      StepAnswers(s, plain, steps[0]);
      RunAnswers(Next(s, steps[0]), PlainAfter(plain, done), steps[1..]);
      AnsweredJoins(plain, done, Transcript(Next(s, steps[0]), steps[1..]));
    }
  }

  lemma NothingAnswered(plain: Store)
    ensures AnsweredAsPlain(plain, []) && PlainAfter(plain, []) == plain
  {
  }

  /** For every run of SET, DEL, GET, COMPACT and the rest from an empty directory, with stops and
      restarts anywhere, also between any two steps of a compaction, in whatever order it walks
      the map: every completed request has the reply of the plain map, except exactly a GET that
      reads the tombstone text stored as a value. */
  lemma StoreAnswersAsPlainMap(steps: seq<Step>)
    requires Legal(EMPTY_DIRECTORY, steps) && CleanSteps(steps)
    ensures AnsweredAsPlain(map[], Transcript(EMPTY_DIRECTORY, steps))
  {
    EmptyIsLog();
    ReplayOfLog("", map[]);
    RunAnswers(EMPTY_DIRECTORY, map[], steps);
  }

  // ----- While the process runs -----

  predicate NeverStops(steps: seq<Step>) {
    forall step :: step in steps ==> !step.Stop?
  }

  /** The map in memory shows the plain map, with the write under way if there is one. */
  ghost predicate Shows(p: Process, plain: Store) {
    match p
    case Down => false
    case Appending(m, c) => IsWrite(c) && Live(m) == Live(PlainNext(plain, c))
    case Serving(m) => Live(m) == Live(plain)
    case Copying(m, _) => Live(m) == Live(plain)
    case Renamed(m) => Live(m) == Live(plain)
  }

  lemma StepShows(s: System, plain: Store, step: Step)
    requires Shows(s.process, plain) && Enabled(s, step) && !step.Stop?
    ensures Shows(Next(s, step).process, PlainAfter(plain, Completed(s, step)))
    ensures AnsweredAsPlain(plain, Completed(s, step))
  {
    hide Live;
    match step {
      case Request(c) =>
        LiveAnswers(s.process.store, plain, c);
        if IsWrite(c) {
          LiveAfterWrite(s.process.store, plain, c);
        }
      case _ =>
    }
  }

  /** While the process runs, the log plays no part: whatever the keys, every completed request is
      answered as the plain map answers. */
  lemma {:induction false} RunShows(s: System, plain: Store, steps: seq<Step>)
    requires Shows(s.process, plain) && Legal(s, steps) && NeverStops(steps)
    ensures AnsweredAsPlain(plain, Transcript(s, steps))
    ensures Shows(Run(s, steps).process, PlainAfter(plain, Transcript(s, steps)))
    decreases |steps|
  {
    hide Shows, AnsweredAsPlain, PlainAfter;
    if steps == [] {
      NothingAnswered(plain);
    } else {
      assert steps[0] in steps && NeverStops(steps[1..]);
      var done := Completed(s, steps[0]);
      StepShows(s, plain, steps[0]);
      RunShows(Next(s, steps[0]), PlainAfter(plain, done), steps[1..]);
      AnsweredJoins(plain, done, Transcript(Next(s, steps[0]), steps[1..]));
    }
  }

  // ----- Which keys the store can serve -----

  const EMPTY_DIRECTORY := System(map[], Down)

  /** All writes are to these keys, and of values the log can hold. */
  predicate WritesOnly(steps: seq<Step>, keys: set<string>) {
    forall step :: step in steps && step.Request? && IsWrite(step.command) ==>
      RecordOf(step.command).key in keys && RecordOf(step.command).OneLine()
  }

  ghost predicate Serves(keys: set<string>, steps: seq<Step>)
    requires Legal(EMPTY_DIRECTORY, steps)
  {
    WritesOnly(steps, keys) ==> AnsweredAsPlain(map[], Transcript(EMPTY_DIRECTORY, steps))
  }

  /** Written, stopped, restarted, read. */
  function Reread(key: string): seq<Step> {
    [Start, Request(Command.Set(key, "v")), Append, Stop, Start, Request(Get(key))]
  }

  /** The states on the way. */
  function RereadState(key: string, n: nat): System {
    var text := Record(key, "v").Text();
    if n == 0 then EMPTY_DIRECTORY
    else if n == 1 then System(map[DB_PATH := ""], Serving(map[]))
    else if n == 2 then System(map[DB_PATH := ""], Appending(map[key := "v"], Command.Set(key, "v")))
    else if n == 3 then System(map[DB_PATH := text], Serving(map[key := "v"]))
    else if n == 4 then System(map[DB_PATH := text], Down)
    else System(map[DB_PATH := text], Serving(Replay(text)))
  }

  lemma RereadStep(key: string, n: nat)
    requires n < 6
    ensures var s := RereadState(key, n);
            && Enabled(s, Reread(key)[n])
            && (n < 5 ==> Next(s, Reread(key)[n]) == RereadState(key, n + 1))
            && Completed(s, Reread(key)[n]) ==
               (if n == 2 then [Exchange(Command.Set(key, "v"), "OK\n")]
                else if n == 5 then [Exchange(Get(key), Reply(Replay(Record(key, "v").Text()), Get(key)))] else [])
  {
    hide Replay;
    var text := Record(key, "v").Text();
    assert "" + text == text;
    assert map[DB_PATH := ""][DB_PATH := text] == map[DB_PATH := text] == map[DB_PATH := text][DB_PATH := text];
    NothingReplayed();
  }

  lemma NothingReplayed()
    ensures Replay("") == map[]
  {
  }

  lemma {:induction false} RereadRun(key: string, n: nat)
    requires n < 6
    ensures Legal(RereadState(key, n), Reread(key)[n..])
    ensures Transcript(RereadState(key, n), Reread(key)[n..]) ==
            (if n <= 2 then [Exchange(Command.Set(key, "v"), "OK\n")] else [])
            + [Exchange(Get(key), Reply(Replay(Record(key, "v").Text()), Get(key)))]
    decreases 6 - n
  {
    hide Enabled, Next, Completed, RereadState;
    var steps := Reread(key)[n..];
    RereadStep(key, n);
    if n == 5 {
      assert steps[1..] == [];
    } else {
      assert steps[0] == Reread(key)[n] && steps[1..] == Reread(key)[n + 1..];
      RereadRun(key, n + 1);
    }
  }

  /** A key with a comma is not there again after a restart. */
  lemma CommaIsNotServed(key: string)
    requires ',' in key && '\n' !in key
    ensures Legal(EMPTY_DIRECTORY, Reread(key)) && !AnsweredAsPlain(map[], Transcript(EMPTY_DIRECTORY, Reread(key)))
  {
    hide Legal, Transcript, Replay, RereadState;
    var m, get := Replay(Record(key, "v").Text()), Get(key);
    CommaIsNotRead(key);
    RereadRun(key, 0);
    StartsEmpty(key);
    assert Reread(key)[0..] == Reread(key);
    var exchanges := [Exchange(Command.Set(key, "v"), "OK\n")] + [Exchange(get, Reply(m, get))];
    assert exchanges[1..] == [Exchange(get, Reply(m, get))];
    assert PlainReply(map[key := "v"], get) == "v\n" != "NULL\n" == Reply(m, get);
  }

  lemma StartsEmpty(key: string)
    ensures RereadState(key, 0) == EMPTY_DIRECTORY
  {
  }

  lemma CommaIsNotRead(key: string)
    requires ',' in key && '\n' !in key
    ensures key !in Replay(Record(key, "v").Text())
  {
    var r := Record(key, "v");
    assert Log([r]) == r.Text() + Log([]) && r.Text() + "" == r.Text();
    ReplayedKeysHaveNoComma(map[], [r]);
  }

  /** For any set of keys of one line: every run that writes only to them is answered as the plain
      map answers, with stops and restarts anywhere, exactly if none of them has a comma. */
  lemma ServesIffNoCommas(keys: set<string>)
    requires forall k :: k in keys ==> '\n' !in k
    ensures (forall steps :: Legal(EMPTY_DIRECTORY, steps) ==> Serves(keys, steps)) <==>
            forall k :: k in keys ==> ',' !in k
  {
    hide AnsweredAsPlain, Transcript;
    if k :| k in keys && ',' in k {
      CommaIsNotServed(k);
      RereadWrites(k, keys);
      assert !Serves(keys, Reread(k));
    } else {
      forall steps | Legal(EMPTY_DIRECTORY, steps) ensures Serves(keys, steps) {
        if WritesOnly(steps, keys) {
          StoreAnswersAsPlainMap(steps);
        }
      }
    }
  }

  lemma RereadWrites(key: string, keys: set<string>)
    requires key in keys && '\n' !in key
    ensures WritesOnly(Reread(key), keys)
  {
    assert "v"[0] == 'v';
  }

  /** Text requests never carry a line break, so only a comma in a key can break the log. */
  lemma ParsedCommandsAreClean(input: string)
    requires Parse(input).Some? && IsWrite(Parse(input).value)
    ensures CleanCommand(Parse(input).value) <==> ',' !in Parse(input).value.key
  {
    ParsedIsWellFormed(input);
    var c := Parse(input).value;
    if c.Set? {
      var ws :| ws != [] && AreWords(ws) && c.value == Join(ws);
      JoinHasOnlyBlanks(ws);
    }
  }
}
