/** Every run of the store, with stops that cut a record anywhere and keys with commas: the log
    file is worth a map and one unfinished line, and that says what every request is answered. */
module ChronosLedger {
  import opened ChronosText
  import opened ChronosParser
  import opened ChronosLog
  import opened ChronosRuns

  /** A step of the store, or a stop that leaves so many characters of the record being appended. */
  datatype Event = Takes(step: Step) | Cut(length: nat)

  predicate Can(s: System, e: Event) {
    match e
    case Takes(step) => Enabled(s, step)
    case Cut(n) => s.process.Appending? && IsWrite(s.process.write) && n < |RecordOf(s.process.write).Text()|
  }

  function After(s: System, e: Event): System
    requires Can(s, e)
  {
    match e
    case Takes(step) => Next(s, step)
    case Cut(n) =>
      System(s.files[DB_PATH := TextOf(s.files, DB_PATH) + RecordOf(s.process.write).Text()[..n]], Down)
  }

  function Answers(s: System, e: Event): seq<Exchange>
    requires Can(s, e)
  {
    match e
    case Takes(step) => Completed(s, step)
    case Cut(_) => []
  }

  predicate CanAll(s: System, events: seq<Event>)
    decreases |events|
  {
    events == [] || (Can(s, events[0]) && CanAll(After(s, events[0]), events[1..]))
  }

  function AllAnswers(s: System, events: seq<Event>): seq<Exchange>
    requires CanAll(s, events)
    decreases |events|
  {
    if events == [] then [] else Answers(s, events[0]) + AllAnswers(After(s, events[0]), events[1..])
  }

  // ----- The ledger -----

  /** What the finished lines of the log come to, the line that is not finished, what the finished
      lines of a log being rewritten come to, and the process. No files. */
  datatype Ledger = Ledger(durable: Store, unfinished: string, copied: Store, process: Process)

  predicate LedgerCan(l: Ledger, e: Event) {
    Can(System(map[], l.process), e)
  }

  /** A record finishes the unfinished line. The first comma of the whole line ends its key. A stop
      in the middle leaves the line unfinished; a restart reads it as it is. */
  function LedgerAfter(l: Ledger, e: Event): Ledger
    requires LedgerCan(l, e)
  {
    match e
    case Cut(n) => l.(unfinished := l.unfinished + RecordOf(l.process.write).Text()[..n], process := Down)
    case Takes(step) =>
      match step
      case Start => l.(process := Serving(ApplyLine(l.durable, l.unfinished)))
      case Append =>
        l.(durable := ApplyLine(l.durable, l.unfinished + RecordOf(l.process.write).Line()), unfinished := "",
           process := Serving(l.process.store))
      case Copy(k) =>
        l.(copied := ApplyLine(l.copied, Record(k, l.process.store[k]).Line()),
           process := Copying(l.process.store, l.process.todo - {k}))
      case Rename => l.(durable := l.copied, unfinished := "", process := Renamed(l.process.store))
      case _ => l.(copied := map[], process := Next(System(map[], l.process), step).process)
  }

  predicate LedgerCanAll(l: Ledger, events: seq<Event>)
    decreases |events|
  {
    events == [] || (LedgerCan(l, events[0]) && LedgerCanAll(LedgerAfter(l, events[0]), events[1..]))
  }

  function LedgerAnswers(l: Ledger, events: seq<Event>): seq<Exchange>
    requires LedgerCanAll(l, events)
    decreases |events|
  {
    if events == [] then []
    else Answers(System(map[], l.process), events[0]) + LedgerAnswers(LedgerAfter(l, events[0]), events[1..])
  }

  predicate Unbroken(text: string) {
    '\n' !in text && '\r' !in text
  }

  predicate UnbrokenStore(m: Store) {
    forall k :: k in m ==> Unbroken(k) && Unbroken(m[k])
  }

  predicate UnbrokenCommand(c: Command) {
    IsWrite(c) ==> Unbroken(RecordOf(c).key) && Unbroken(RecordOf(c).value)
  }

  /** Requests without line breaks, as every parsed request is. */
  predicate UnbrokenEvents(events: seq<Event>) {
    forall e :: e in events && e.Takes? && e.step.Request? ==> UnbrokenCommand(e.step.command)
  }

  // ----- Replaying a text in two parts -----

  predicate Terminated(text: string) {
    text == "" || text[|text| - 1] == '\n'
  }

  lemma {:induction false} ReplayInParts(m: Store, full: string, rest: string)
    requires Terminated(full)
    ensures ReplayInto(m, full + rest) == ReplayInto(ReplayInto(m, full), rest)
    decreases |full|
  {
    hide ApplyLine, StripReturn, ReplayInto, IndexOf;
    if full == "" {
      assert full + rest == rest;
      ReplayNothing(m);
    } else {
      var i := IndexOf(full, '\n');
      LastIsFound(full);
      var line, more := full[..i], full[i + 1..];
      assert full == line + "\n" + more;
      assert full + rest == line + "\n" + (more + rest);
      ReplayFirstLine(m, line, more + rest);
      ReplayFirstLine(m, line, more);
      ReplayInParts(ApplyLine(m, StripReturn(line)), more, rest);
    }
  }

  lemma LastIsFound(text: string)
    requires text != "" && text[|text| - 1] == '\n'
    ensures IndexOf(text, '\n') < |text|
  {
    IndexOfAtMost(text, '\n', |text| - 1);
  }

  /** A line more, and a piece of a line more. */
  lemma ReplayOneMore(full: string, line: string)
    requires Terminated(full) && '\n' !in line && StripReturn(line) == line
    ensures Replay(full + line + "\n") == ApplyLine(Replay(full), line)
  {
    hide ApplyLine, StripReturn;
    assert full + line + "\n" == full + (line + "\n");
    assert line + "\n" + "" == line + "\n";
    ReplayInParts(map[], full, line + "\n");
    ReplayFirstLine(Replay(full), line, "");
    ReplayNothing(ApplyLine(Replay(full), line));
  }

  lemma ReplayUnfinished(full: string, line: string)
    requires Terminated(full) && '\n' !in line
    ensures Replay(full + line) == ApplyLine(Replay(full), line)
  {
    ReplayInParts(map[], full, line);
    IndexOfAbsent(line, '\n');
    if line == "" {
      IndexOfAbsent(line, ',');
    }
  }

  // ----- The files and the ledger -----

  /** The text is finished lines that come to `m`, and one unfinished line. */
  ghost predicate Comes(text: string, m: Store, unfinished: string) {
    exists full :: ComesFrom(text, full, m, unfinished)
  }

  ghost predicate ComesFrom(text: string, full: string, m: Store, unfinished: string) {
    text == full + unfinished && Terminated(full) && Replay(full) == m && '\n' !in unfinished
  }

  ghost predicate UnbrokenProcess(p: Process) {
    match p
    case Down => true
    case Serving(m) => UnbrokenStore(m)
    case Appending(m, c) => UnbrokenStore(m) && UnbrokenCommand(c)
    case Copying(m, _) => UnbrokenStore(m)
    case Renamed(m) => UnbrokenStore(m)
  }

  ghost predicate Kept(s: System, l: Ledger) {
    && s.process == l.process && UnbrokenProcess(s.process)
    && Comes(TextOf(s.files, DB_PATH), l.durable, l.unfinished)
    && UnbrokenStore(l.durable) && Unbroken(l.unfinished) && UnbrokenStore(l.copied)
    && (s.process.Copying? ==> Comes(TextOf(s.files, TEMP_PATH), l.copied, ""))
  }

  lemma ApplyUnbroken(m: Store, line: string)
    requires UnbrokenStore(m) && Unbroken(line)
    ensures UnbrokenStore(ApplyLine(m, line))
  {
  }

  lemma UnbrokenLine(r: Record)
    requires Unbroken(r.key) && Unbroken(r.value)
    ensures Unbroken(r.Line())
  {
  }

  /** A record, whole, after what is there. */
  lemma ComesWithRecord(text: string, m: Store, unfinished: string, r: Record)
    requires Comes(text, m, unfinished) && UnbrokenStore(m) && Unbroken(unfinished)
    requires Unbroken(r.key) && Unbroken(r.value)
    ensures Comes(text + r.Text(), ApplyLine(m, unfinished + r.Line()), "")
    ensures UnbrokenStore(ApplyLine(m, unfinished + r.Line()))
  {
    hide ApplyLine, StripReturn, Replay;
    var full :| ComesFrom(text, full, m, unfinished);
    var line := unfinished + r.Line();
    UnbrokenLine(r);
    NothingToStrip(line);
    ReplayOneMore(full, line);
    ApplyUnbroken(m, line);
    assert text + r.Text() == full + line + "\n" + "";
    assert ComesFrom(text + r.Text(), full + line + "\n", ApplyLine(m, line), "");
  }

  lemma NothingToStrip(line: string)
    requires Unbroken(line)
    ensures StripReturn(line) == line
  {
  }

  /** A piece of a record after what is there. */
  lemma ComesWithPiece(text: string, m: Store, unfinished: string, r: Record, n: nat)
    requires Comes(text, m, unfinished) && Unbroken(unfinished)
    requires Unbroken(r.key) && Unbroken(r.value) && n < |r.Text()|
    ensures Comes(text + r.Text()[..n], m, unfinished + r.Text()[..n])
    ensures Unbroken(unfinished + r.Text()[..n])
  {
    hide Replay;
    var full :| ComesFrom(text, full, m, unfinished);
    var piece := r.Text()[..n];
    UnbrokenLine(r);
    assert piece == r.Line()[..n];
    assert forall c :: c in piece ==> c in r.Line();
    assert ComesFrom(text + piece, full, m, unfinished + piece);
  }

  lemma ComesAgain(text: string, m: Store, unfinished: string)
    requires Comes(text, m, unfinished)
    ensures Replay(text) == ApplyLine(m, unfinished)
  {
    hide Replay, ApplyLine;
    var full :| ComesFrom(text, full, m, unfinished);
    ReplayUnfinished(full, unfinished);
  }

  lemma NothingComes()
    ensures Comes("", map[], "")
  {
    assert ComesFrom("", "", map[], "");
  }

  /** One event: the ledger moves along with the files, and the answers are the same. */
  lemma EventKept(s: System, l: Ledger, e: Event)
    requires Kept(s, l) && Can(s, e)
    requires e.Takes? && e.step.Request? ==> UnbrokenCommand(e.step.command)
    ensures LedgerCan(l, e) && Kept(After(s, e), LedgerAfter(l, e))
    ensures Answers(s, e) == Answers(System(map[], l.process), e)
  {
    hide Comes, ApplyLine, Replay;
    NothingComes();
    var text := TextOf(s.files, DB_PATH);
    match e {
      case Cut(n) => ComesWithPiece(text, l.durable, l.unfinished, RecordOf(s.process.write), n);
      case Takes(Start) =>
        ComesAgain(text, l.durable, l.unfinished);
        ApplyUnbroken(l.durable, l.unfinished);
      case Takes(Append) => ComesWithRecord(text, l.durable, l.unfinished, RecordOf(s.process.write));
      case Takes(Copy(k)) =>
        var r := Record(k, s.process.store[k]);
        ComesWithRecord(TextOf(s.files, TEMP_PATH), l.copied, "", r);
        assert "" + r.Line() == r.Line();
      case Takes(_) =>
    }
  }

  lemma {:induction false} RunKept(s: System, l: Ledger, events: seq<Event>)
    requires Kept(s, l) && CanAll(s, events) && UnbrokenEvents(events)
    ensures LedgerCanAll(l, events) && AllAnswers(s, events) == LedgerAnswers(l, events)
    decreases |events|
  {
    hide Kept, Can, After, Answers, LedgerAfter, LedgerCan;
    if events != [] {
      assert events[0] in events && UnbrokenEvents(events[1..]);
      EventKept(s, l, events[0]);
      RunKept(After(s, events[0]), LedgerAfter(l, events[0]), events[1..]);
    }
  }

  /** For every run from an empty directory, with stops and restarts anywhere, also in the middle of
      a record or between any two steps of a compaction, and whatever the keys: every request is
      answered from the ledger's map. */
  lemma StoreAnswersFromLedger(events: seq<Event>)
    requires CanAll(EMPTY_DIRECTORY, events) && UnbrokenEvents(events)
    ensures var l := Ledger(map[], "", map[], Down);
            LedgerCanAll(l, events) && AllAnswers(EMPTY_DIRECTORY, events) == LedgerAnswers(l, events)
  {
    NothingComes();
    RunKept(System(map[], Down), Ledger(map[], "", map[], Down), events);
  }

  /** Parsed requests have no line breaks. */
  lemma ParsedIsUnbroken(input: string)
    ensures Parse(input).Some? ==> UnbrokenCommand(Parse(input).value)
  {
    ParsedIsWellFormed(input);
  }
}
