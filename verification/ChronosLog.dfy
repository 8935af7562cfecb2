/** The append log of the store (chronos/src/engine.rs) as text: what a record looks like, what
    replaying a text gives, and what survives a stop in the middle of a record. */
module ChronosLog {
  import opened ChronosText

  type Store = map<string, string>

  datatype Record = Record(key: string, value: string) {
    function Line(): string {
      key + "," + value
    }

    function Text(): string {
      Line() + "\n"
    }

    /** Text that a line of the log can hold. */
    predicate OneLine() {
      && '\n' !in key && '\n' !in value
      && (value == "" || value[|value| - 1] != '\r')
    }

    predicate Clean() {
      OneLine() && ',' !in key
    }
  }

  /** What one line does to the map: the first comma ends the key; a line without one is skipped. */
  function ApplyLine(m: Store, line: string): Store {
    match SplitOnce(line, ',')
    case None => m
    case Some((k, v)) => m[k := v]
  }

  /** Replays a text line by line into `m`. The last line need not be terminated; only a
      terminated line loses a carriage return before its end. */
  function ReplayInto(m: Store, text: string): Store
    decreases |text|
  {
    if text == "" then m
    else
      var i := IndexOf(text, '\n');
      if i == |text| then ApplyLine(m, text)
      else ReplayInto(ApplyLine(m, StripReturn(text[..i])), text[i + 1..])
  }

  function Replay(text: string): Store {
    ReplayInto(map[], text)
  }

  /** The text of the records in order. */
  function Log(records: seq<Record>): string {
    if records == [] then "" else records[0].Text() + Log(records[1..])
  }

  /** The map after writing the records in order. */
  function Written(m: Store, records: seq<Record>): Store
    decreases |records|
  {
    if records == [] then m else Written(m[records[0].key := records[0].value], records[1..])
  }

  predicate AllClean(records: seq<Record>) {
    forall r :: r in records ==> r.Clean()
  }

  predicate AllOneLine(records: seq<Record>) {
    forall r :: r in records ==> r.OneLine()
  }

  // ----- Whole records -----

  /** Key and value as read back: the line breaks at its first comma, also one inside the key. */
  function ReadBack(r: Record): (string, string) {
    var line := r.Line();
    var i := IndexOf(line, ',');
    assert i < |line| by { FirstComma(r); }
    (line[..i], line[i + 1..])
  }

  lemma FirstComma(r: Record)
    ensures IndexOf(r.Line(), ',') <= |r.key| < |r.Line()|
  {
    IndexOfAtMost(r.Line(), ',', |r.key|);
  }

  lemma ReadBackOfClean(r: Record)
    ensures ',' !in r.key ==> ReadBack(r) == (r.key, r.value)
    ensures ',' !in ReadBack(r).0
  {
    if ',' !in r.key {
      IndexOfJoined(r.key, ',', r.value);
      assert r.key + [','] + r.value == r.Line();
      assert r.Line()[..|r.key|] == r.key && r.Line()[|r.key| + 1..] == r.value;
    }
  }

  lemma ReplayFirstLine(m: Store, line: string, rest: string)
    requires '\n' !in line
    ensures ReplayInto(m, line + "\n" + rest) == ReplayInto(ApplyLine(m, StripReturn(line)), rest)
  {
    hide IndexOf, ApplyLine, StripReturn;
    var text := line + "\n" + rest;
    assert text == line + ['\n'] + rest;
    IndexOfJoined(line, '\n', rest);
    assert text[..|line|] == line && text[|line| + 1..] == rest;
  }

  /** A record at the front of a text is read back as one line. */
  lemma ReplayOneRecord(m: Store, r: Record, rest: string)
    requires r.OneLine()
    ensures ReplayInto(m, r.Text() + rest) == ReplayInto(m[ReadBack(r).0 := ReadBack(r).1], rest)
  {
    hide ReplayInto, IndexOf;
    var line := r.Line();
    ReplayFirstLine(m, line, rest);
    assert line[|line| - 1] == if r.value == "" then ',' else r.value[|r.value| - 1];
    assert StripReturn(line) == line;
    FirstComma(r);
  }

  /** Replaying written records gives the map that was written. */
  lemma {:induction false} ReplayLog(m: Store, records: seq<Record>, rest: string)
    requires AllClean(records)
    ensures ReplayInto(m, Log(records) + rest) == ReplayInto(Written(m, records), rest)
    decreases |records|
  {
    if records == [] {
      assert Log(records) + rest == rest;
    } else {
      var r := records[0];
      assert r in records && AllClean(records[1..]);
      assert Log(records) + rest == r.Text() + (Log(records[1..]) + rest);
      ReplayOneRecord(m, r, Log(records[1..]) + rest);
      ReadBackOfClean(r);
      ReplayLog(m[r.key := r.value], records[1..], rest);
    }
  }

  // ----- Commas in keys -----

  lemma {:induction false} ReplayedKeysHaveNoComma(m: Store, records: seq<Record>)
    requires AllOneLine(records) && forall k :: k in m ==> ',' !in k
    ensures forall k :: k in ReplayInto(m, Log(records)) ==> ',' !in k
    decreases |records|
  {
    if records != [] {
      var r := records[0];
      assert r in records && AllOneLine(records[1..]);
      ReplayOneRecord(m, r, Log(records[1..]));
      ReadBackOfClean(r);
      ReplayedKeysHaveNoComma(m[ReadBack(r).0 := ReadBack(r).1], records[1..]);
    }
  }

  lemma {:induction false} WrittenKeys(m: Store, records: seq<Record>)
    ensures forall k :: k in Written(m, records) <==> k in m || exists r :: r in records && r.key == k
    decreases |records|
  {
    if records != [] {
      WrittenKeys(m[records[0].key := records[0].value], records[1..]);
      assert forall r :: r in records <==> r == records[0] || r in records[1..];
    }
  }

  /** Replaying the log of any one-line records gives back the map that was written exactly if
      no key has a comma. */
  lemma ReplayIsFaithfulIffNoCommas(records: seq<Record>)
    requires AllOneLine(records)
    ensures Replay(Log(records)) == Written(map[], records) <==> forall r :: r in records ==> ',' !in r.key
  {
    if AllClean(records) {
      ReplayLog(map[], records, "");
      assert Log(records) + "" == Log(records);
    } else {
      var r :| r in records && ',' in r.key;
      ReplayedKeysHaveNoComma(map[], records);
      WrittenKeys(map[], records);
      assert r.key in Written(map[], records);
    }
  }

  /** No key or value that is read from a text has a line feed, and no key a comma. */
  predicate ReadFromLines(m: Store) {
    forall k :: k in m ==> '\n' !in k && ',' !in k && '\n' !in m[k]
  }

  lemma {:induction false} ReplayedIsReadFromLines(m: Store, text: string)
    requires ReadFromLines(m)
    ensures ReadFromLines(ReplayInto(m, text))
    decreases |text|
  {
    hide StripReturn, SplitOnce, IndexOf, ReadFromLines;
    if text != "" {
      var i := IndexOf(text, '\n');
      if i == |text| {
        assert text[..i] == text;
        LineReads(m, text);
      } else {
        StripReturnIsPrefix(text[..i]);
        LineReads(m, StripReturn(text[..i]));
        ReplayedIsReadFromLines(ApplyLine(m, StripReturn(text[..i])), text[i + 1..]);
      }
    }
  }

  lemma StripReturnIsPrefix(line: string)
    ensures forall c :: c in StripReturn(line) ==> c in line
  {
  }

  lemma LineReads(m: Store, line: string)
    requires ReadFromLines(m) && '\n' !in line
    ensures ReadFromLines(ApplyLine(m, line))
  {
    var i := IndexOf(line, ',');
    if i < |line| {
      assert forall c :: c in line[..i] ==> c in line;
      assert forall c :: c in line[i + 1..] ==> c in line;
    }
  }

  /** For any record at all: written alone, it is read back as it was exactly if it has no line
      feed, its key no comma, and its value no carriage return at the end. */
  lemma RecordSurvivesIff(r: Record)
    ensures Replay(r.Text()) == map[r.key := r.value] <==>
            && '\n' !in r.key && '\n' !in r.value && ',' !in r.key
            && (r.value == "" || r.value[|r.value| - 1] != '\r')
  {
    hide ReplayInto, IndexOf, StripReturn;
    assert r.Text() == r.Text() + "";
    if r.Clean() {
      ReplayOneRecord(map[], r, "");
      ReadBackOfClean(r);
      ReplayNothing(map[r.key := r.value]);
    } else if '\n' in r.key || '\n' in r.value || ',' in r.key {
      ReplayedIsReadFromLines(map[], r.Text());
      assert r.key in map[r.key := r.value];
    } else {
      LosesReturn(r);
      var v := r.value[..|r.value| - 1];
      assert map[r.key := r.value][r.key] == r.value && map[r.key := v][r.key] == v;
    }
  }

  lemma LosesReturn(r: Record)
    requires '\n' !in r.key && '\n' !in r.value && ',' !in r.key
    requires r.value != "" && r.value[|r.value| - 1] == '\r'
    ensures Replay(r.Text()) == map[r.key := r.value[..|r.value| - 1]]
  {
    hide ReplayInto, IndexOf;
    var line, v := r.Line(), r.value[..|r.value| - 1];
    ReplayFirstLine(map[], line, "");
    ReplayNothing(map[r.key := v]);
    assert r.Text() == line + "\n" + "";
    assert StripReturn(line) == Record(r.key, v).Line();
    FirstComma(Record(r.key, v));
    ReadBackOfClean(Record(r.key, v));
  }

  // ----- A log cut anywhere -----

  /** The number of complete records in a text. */
  function Complete(text: string): nat {
    if text == "" then 0 else (if text[0] == '\n' then 1 else 0) + Complete(text[1..])
  }

  lemma {:induction false} CompleteOfJoined(a: string, b: string)
    ensures Complete(a + b) == Complete(a) + Complete(b)
  {
    if a == "" {
      assert a + b == b;
    } else {
      CompleteOfJoined(a[1..], b);
      assert (a + b)[0] == a[0] && (a + b)[1..] == a[1..] + b;
    }
  }

  lemma {:induction false} CompleteOfOpenLine(a: string)
    requires '\n' !in a
    ensures Complete(a) == 0
  {
    if a != "" {
      assert a[0] in a;
      CompleteOfOpenLine(a[1..]);
    }
  }

  /** What a record cut after `cut` characters, short of its line feed, leaves behind: nothing
      while the comma is missing, and then the key with as much of the value as was written. */
  function Torn(m: Store, r: Record, cut: nat): Store
    requires cut < |r.Text()|
  {
    if cut <= |r.key| then m else m[r.key := r.value[..cut - |r.key| - 1]]
  }

  lemma ReplayTornRecord(m: Store, r: Record, cut: nat)
    requires r.Clean() && cut < |r.Text()|
    ensures ReplayInto(m, r.Text()[..cut]) == Torn(m, r, cut)
    ensures '\n' !in r.Text()[..cut]
  {
    var line := r.Line();
    var text := r.Text()[..cut];
    assert text == line[..cut];
    assert forall c :: c in text ==> c in line;
    IndexOfAbsent(text, '\n');
    if cut <= |r.key| {
      assert text == r.key[..cut];
      IndexOfAbsent(text, ',');
    } else {
      var v := r.value[..cut - |r.key| - 1];
      assert text == r.key + [','] + v;
      IndexOfJoined(r.key, ',', v);
      assert text[..|r.key|] == r.key && text[|r.key| + 1..] == v;
    }
  }

  /** The state after the complete records in a cut log, and what the interrupted one left. */
  ghost predicate IsStateOfCut(m: Store, records: seq<Record>, length: nat, text: string, state: Store) {
    var n := Complete(text);
    && n <= |records| && |Log(records[..n])| <= length
    && if n == |records| then state == Written(m, records)
       else
         var cut := length - |Log(records[..n])|;
         cut < |records[n].Text()| && state == Torn(Written(m, records[..n]), records[n], cut)
  }

  lemma CutInFirstRecord(m: Store, records: seq<Record>, length: nat)
    requires records != [] && records[0].Clean() && length < |records[0].Text()|
    ensures var text := records[0].Text()[..length];
            IsStateOfCut(m, records, length, text, ReplayInto(m, text))
  {
    var text := records[0].Text()[..length];
    ReplayTornRecord(m, records[0], length);
    CompleteOfOpenLine(text);
    assert records[..0] == [];
  }

  lemma CutAfterFirstRecord(m: Store, r: Record, records: seq<Record>, length: nat, rest: string)
    requires r.Clean()
    requires IsStateOfCut(m[r.key := r.value], records, length, rest, ReplayInto(m[r.key := r.value], rest))
    ensures IsStateOfCut(m, [r] + records, |r.Text()| + length, r.Text() + rest, ReplayInto(m, r.Text() + rest))
  {
    hide ReplayInto, IndexOf;
    ReplayOneRecord(m, r, rest);
    ReadBackOfClean(r);
    CompleteOfRecord(r);
    CompleteOfJoined(r.Text(), rest);
    var n := Complete(rest);
    assert ([r] + records)[..n + 1] == [r] + records[..n];
    assert ([r] + records[..n])[1..] == records[..n] && ([r] + records)[1..] == records;
    if n < |records| {
      assert ([r] + records)[n + 1] == records[n];
    }
  }

  /** Replaying any prefix of a log gives the state after the complete records in it, except that
      the key of the interrupted record may hold a prefix of its value. */
  lemma {:induction false} ReplayPrefix(m: Store, records: seq<Record>, length: nat)
    requires AllClean(records) && length <= |Log(records)|
    ensures var text := Log(records)[..length];
            IsStateOfCut(m, records, length, text, ReplayInto(m, text))
    decreases |records|
  {
    hide ReplayInto, IsStateOfCut;
    var text := Log(records)[..length];
    if records == [] {
      CutOfNothing(m);
    } else {
      var r := records[0];
      assert r in records && AllClean(records[1..]);
      if length < |r.Text()| {
        assert text == r.Text()[..length];
        CutInFirstRecord(m, records, length);
      } else {
        var rest := Log(records[1..])[..length - |r.Text()|];
        ReplayPrefix(m[r.key := r.value], records[1..], length - |r.Text()|);
        CutAfterFirstRecord(m, r, records[1..], length - |r.Text()|, rest);
        assert text == r.Text() + rest && records == [r] + records[1..];
      }
    }
  }

  lemma CutOfNothing(m: Store)
    ensures IsStateOfCut(m, [], 0, "", ReplayInto(m, ""))
  {
  }

  lemma CompleteOfRecord(r: Record)
    requires r.OneLine()
    ensures Complete(r.Text()) == 1
  {
    CompleteOfOpenLine(r.Line());
    CompleteOfJoined(r.Line(), "\n");
  }

  // ----- Writing on after a cut -----

  /** The record that a cut record and the next one make together on one line. */
  function Glued(r: Record, cut: nat, next: Record): Record
    requires cut < |r.Text()|
  {
    if cut <= |r.key| then Record(r.key[..cut] + next.key, next.value)
    else Record(r.key, r.value[..cut - |r.key| - 1] + next.Line())
  }

  /** A log that ends in a cut record is appended to as it is, so the next record is read back as
      part of the cut one. */
  lemma ReplayGlued(m: Store, r: Record, cut: nat, next: Record)
    requires r.Clean() && next.Clean() && cut < |r.Text()|
    ensures var g := Glued(r, cut, next);
            ReplayInto(m, r.Text()[..cut] + next.Text()) == m[g.key := g.value]
  {
    hide ReplayInto, IndexOf;
    var g := Glued(r, cut, next);
    if cut <= |r.key| {
      assert r.Text()[..cut] == r.key[..cut];
      assert forall c :: c in r.key[..cut] ==> c in r.key;
    } else {
      var v := r.value[..cut - |r.key| - 1];
      assert r.Text()[..cut] == r.key + "," + v;
      assert forall c :: c in v ==> c in r.value;
      assert g.value[|g.value| - 1] == if next.value == "" then ',' else next.value[|next.value| - 1];
    }
    assert g.Clean();
    assert r.Text()[..cut] + next.Text() == g.Text() + "";
    ReplayOneRecord(m, g, "");
    ReadBackOfClean(g);
    ReplayNothing(m[g.key := g.value]);
  }

  lemma ReplayNothing(m: Store)
    ensures ReplayInto(m, "") == m
  {
  }

  /** So the record written after a cut is there after the next replay exactly if nothing of the
      cut one had reached the log, or its value was there already. */
  lemma NextRecordSurvivesIff(m: Store, r: Record, cut: nat, next: Record)
    requires r.Clean() && next.Clean() && cut < |r.Text()|
    ensures var m' := ReplayInto(m, r.Text()[..cut] + next.Text());
            (next.key in m' && m'[next.key] == next.value) <==>
            cut == 0 ||
            (next.key in m && m[next.key] == next.value && next.key != Glued(r, cut, next).key)
  {
    ReplayGlued(m, r, cut, next);
    var g := Glued(r, cut, next);
    if cut > |r.key| {
      assert |g.value| > |next.value|;
    } else if cut > 0 {
      assert |g.key| > |next.key|;
    } else {
      assert r.key[..0] + next.key == next.key;
    }
  }
}
