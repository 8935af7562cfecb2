/** The timestamped byte log with its index in memory (chronos/src/bin/mvp_check.rs). Strings
    are their bytes; the clock is a parameter. */
module ChronosTimeline {
  import opened Options
  import opened Words

  type Byte = b: nat | b < 256

  /** Bytes of a string; its length fits the 64-bit length field. */
  type Text = s: seq<Byte> | |s| < WORD

  datatype Entry = Entry(key: Text, value: Text, timestamp: Word)

  // ----- The encoding: 8-byte little-endian integers, strings as length and bytes -----

  function LittleEndian(n: nat, width: nat): (bs: seq<Byte>)
    ensures |bs| == width
  {
    if width == 0 then [] else [n % 256] + LittleEndian(n / 256, width - 1)
  }

  function FromLittleEndian(bs: seq<Byte>): nat {
    if bs == [] then 0 else bs[0] + 256 * FromLittleEndian(bs[1..])
  }

  function EncodeText(t: Text): seq<Byte> {
    LittleEndian(|t|, 8) + t
  }

  function Encode(e: Entry): seq<Byte> {
    EncodeText(e.key) + EncodeText(e.value) + LittleEndian(e.timestamp, 8)
  }

  /** A number at the front of the bytes, and what follows it. */
  function DecodeWord(bs: seq<Byte>): Option<(nat, seq<Byte>)> {
    if |bs| < 8 then None else Some((FromLittleEndian(bs[..8]), bs[8..]))
  }

  function DecodeText(bs: seq<Byte>): (r: Option<(seq<Byte>, seq<Byte>)>)
    ensures r.Some? ==> |r.value.1| < |bs|
  {
    match DecodeWord(bs)
    case None => None
    case Some((n, rest)) => if |rest| < n then None else Some((rest[..n], rest[n..]))
  }

  /** An entry at the front of the bytes, and what follows it. */
  function Decode(bs: seq<Byte>): (r: Option<((seq<Byte>, seq<Byte>, nat), seq<Byte>)>)
    ensures r.Some? ==> |r.value.1| < |bs|
  {
    match DecodeText(bs)
    case None => None
    case Some((key, rest)) =>
      match DecodeText(rest)
      case None => None
      case Some((value, rest')) =>
        match DecodeWord(rest')
        case None => None
        case Some((timestamp, rest'')) => Some(((key, value, timestamp), rest''))
  }

  function Pow256(k: nat): (p: nat)
    ensures p > 0
  {
    if k == 0 then 1 else 256 * Pow256(k - 1)
  }

  lemma {:induction false} LittleEndianRoundTrip(n: nat, width: nat)
    requires n < Pow256(width)
    ensures FromLittleEndian(LittleEndian(n, width)) == n
  {
    if width > 0 {
      assert n / 256 < Pow256(width - 1);
      LittleEndianRoundTrip(n / 256, width - 1);
      assert LittleEndian(n, width)[1..] == LittleEndian(n / 256, width - 1);
    }
  }

  lemma DecodeEncodedWord(n: Word, rest: seq<Byte>)
    ensures DecodeWord(LittleEndian(n, 8) + rest) == Some((n, rest))
  {
    assert Pow256(4) == 0x1_0000_0000 && Pow256(8) == WORD;
    LittleEndianRoundTrip(n, 8);
    var bs := LittleEndian(n, 8) + rest;
    assert bs[..8] == LittleEndian(n, 8) && bs[8..] == rest;
  }

  lemma DecodeEncodedText(t: Text, rest: seq<Byte>)
    ensures DecodeText(EncodeText(t) + rest) == Some((t, rest))
  {
    assert EncodeText(t) + rest == LittleEndian(|t|, 8) + (t + rest);
    DecodeEncodedWord(|t|, t + rest);
    assert (t + rest)[..|t|] == t && (t + rest)[|t|..] == rest;
  }

  /** What was encoded is decoded, whatever follows it. */
  lemma DecodeEncoded(e: Entry, rest: seq<Byte>)
    ensures Decode(Encode(e) + rest) == Some(((e.key, e.value, e.timestamp), rest))
  {
    hide DecodeText, DecodeWord, EncodeText, LittleEndian;
    var stamp := LittleEndian(e.timestamp, 8);
    assert Encode(e) + rest == EncodeText(e.key) + (EncodeText(e.value) + (stamp + rest));
    DecodeEncodedText(e.key, EncodeText(e.value) + (stamp + rest));
    DecodeEncodedText(e.value, stamp + rest);
    DecodeEncodedWord(e.timestamp, rest);
  }

  lemma {:induction false} LittleEndianDigit(n: nat, width: nat, i: nat)
    requires i < width
    ensures LittleEndian(n, width)[i] == n / Pow256(i) % 256
  {
    if i > 0 {
      LittleEndianDigit(n / 256, width - 1, i - 1);
      DivideTwice(n, Pow256(i - 1));
    }
  }

  lemma DivideTwice(n: nat, p: nat)
    requires p > 0
    ensures n / 256 / p == n / (256 * p)
  {
    var q, r := n / 256 / p, n / 256 % p;
    assert n == 256 * (p * q + r) + n % 256;
    RemainderIsUnique(n, 256 * p, q, 256 * r + n % 256) by {
      assert 256 * p * q == 256 * (p * q);
    }
  }

  /** Eight bytes at a position: the digits of a number to the base 256, the lowest first. */
  predicate IsWordAt(bs: seq<Byte>, at: nat, n: nat) {
    at + 8 <= |bs| && forall i :: 0 <= i < 8 ==> bs[at + i] == n / Pow256(i) % 256
  }

  predicate IsTextAt(bs: seq<Byte>, at: nat, t: seq<Byte>) {
    at + |t| <= |bs| && bs[at..at + |t|] == t
  }

  lemma WordAt(before: seq<Byte>, n: nat, rest: seq<Byte>)
    ensures IsWordAt(before + LittleEndian(n, 8) + rest, |before|, n)
  {
    hide LittleEndian;
    var bs := before + LittleEndian(n, 8) + rest;
    forall i: nat | i < 8 ensures bs[|before| + i] == n / Pow256(i) % 256 {
      LittleEndianDigit(n, 8, i);
    }
  }

  /** Where the bytes of an entry are: the length of the key, the key, the length of the value, the
      value, and the time. */
  lemma EncodedLayout(e: Entry)
    ensures var bs, k, v := Encode(e), |e.key|, |e.value|;
            && |bs| == 24 + k + v
            && IsWordAt(bs, 0, k) && IsTextAt(bs, 8, e.key)
            && IsWordAt(bs, 8 + k, v) && IsTextAt(bs, 16 + k, e.value)
            && IsWordAt(bs, 16 + k + v, e.timestamp)
  {
    hide LittleEndian, IsWordAt;
    var bs, a, b, c := Encode(e), LittleEndian(|e.key|, 8), LittleEndian(|e.value|, 8), LittleEndian(e.timestamp, 8);
    WordAt([], |e.key|, e.key + b + e.value + c);
    assert bs == [] + a + (e.key + b + e.value + c);
    WordAt(a + e.key, |e.value|, e.value + c);
    assert bs == a + e.key + b + (e.value + c);
    WordAt(a + e.key + b + e.value, e.timestamp, []);
    assert bs == a + e.key + b + e.value + c + [];
  }

  // ----- The log and its index -----

  function EncodeAll(es: seq<Entry>): seq<Byte> {
    if es == [] then [] else EncodeAll(es[..|es| - 1]) + Encode(es[|es| - 1])
  }

  /** All entries of a log, front to back, up to the first place that does not decode. */
  function DecodeAll(bs: seq<Byte>): seq<(seq<Byte>, seq<Byte>, nat)>
    decreases |bs|
  {
    match Decode(bs)
    case None => []
    case Some((e, rest)) => [e] + DecodeAll(rest)
  }

  function Fields(e: Entry): (seq<Byte>, seq<Byte>, nat) {
    (e.key, e.value, e.timestamp)
  }

  function AllFields(es: seq<Entry>): seq<(seq<Byte>, seq<Byte>, nat)> {
    seq(|es|, i requires 0 <= i < |es| => Fields(es[i]))
  }

  lemma {:induction false} EncodeAllSplits(es: seq<Entry>, i: nat)
    requires i <= |es|
    ensures EncodeAll(es) == EncodeAll(es[..i]) + EncodeAll(es[i..])
    decreases |es|
  {
    hide Encode;
    if i == |es| {
      assert es[..i] == es && es[i..] == [];
    } else {
      var init := es[..|es| - 1];
      EncodeAllSplits(init, i);
      assert init[..i] == es[..i] && es[i..][..|es[i..]| - 1] == init[i..];
    }
  }

  lemma EncodeAllCons(es: seq<Entry>)
    requires es != []
    ensures EncodeAll(es) == Encode(es[0]) + EncodeAll(es[1..])
  {
    hide Encode;
    EncodeAllSplits(es, 1);
    assert es[..1] == [es[0]] && [es[0]][..0] == [];
    assert EncodeAll([es[0]]) == [] + Encode(es[0]);
  }

  /** The whole log decodes to the entries that were appended. */
  lemma {:induction false} DecodeAllEncoded(es: seq<Entry>)
    ensures DecodeAll(EncodeAll(es)) == AllFields(es)
    decreases |es|
  {
    hide Decode;
    if es == [] {
      NothingDecodes();
    } else {
      EncodeAllCons(es);
      DecodeEncoded(es[0], EncodeAll(es[1..]));
      DecodeAllEncoded(es[1..]);
      assert AllFields(es) == [Fields(es[0])] + AllFields(es[1..]);
    }
  }

  lemma NothingDecodes()
    ensures Decode([]) == None
  {
  }

  /** Every entry decodes at the offset where it was appended. */
  lemma EntryAtOffset(es: seq<Entry>, i: nat)
    requires i < |es|
    ensures var offset := |EncodeAll(es[..i])|;
            && offset <= |EncodeAll(es)|
            && Decode(EncodeAll(es)[offset..]) == Some((Fields(es[i]), EncodeAll(es[i + 1..])))
  {
    EncodeAllSplits(es, i);
    EncodeAllCons(es[i..]);
    assert es[i..][1..] == es[i + 1..];
    DecodeEncoded(es[i], EncodeAll(es[i + 1..]));
    assert EncodeAll(es)[|EncodeAll(es[..i])|..] == EncodeAll(es[i..]);
  }

  type History = seq<(Word, nat)>

  /** The times and offsets of the entries of one key, in order. */
  function HistoryOf(es: seq<Entry>, key: Text): History {
    if es == [] then []
    else
      var init, last := es[..|es| - 1], es[|es| - 1];
      HistoryOf(init, key) + (if last.key == key then [(last.timestamp, |EncodeAll(init)|)] else [])
  }

  /** The linear scan: the last appended entry of the key with a time at most the query. */
  function Scan(es: seq<(seq<Byte>, seq<Byte>, nat)>, key: Text, query: nat): Option<seq<Byte>> {
    if es == [] then None
    else
      var (k, v, t) := es[|es| - 1];
      if k == key && t <= query then Some(v) else Scan(es[..|es| - 1], key, query)
  }

  predicate Sorted(h: History) {
    forall i, j :: 0 <= i <= j < |h| ==> h[i].0 <= h[j].0
  }

  /** A clock that never goes back. */
  predicate ClockNeverGoesBack(es: seq<Entry>) {
    forall i, j :: 0 <= i <= j < |es| ==> es[i].timestamp <= es[j].timestamp
  }

  lemma {:induction false} HistoryIsSorted(es: seq<Entry>, key: Text)
    requires ClockNeverGoesBack(es)
    ensures Sorted(HistoryOf(es, key))
    ensures forall i :: 0 <= i < |HistoryOf(es, key)| ==> es != [] && HistoryOf(es, key)[i].0 <= es[|es| - 1].timestamp
    decreases |es|
  {
    if es != [] {
      HistoryIsSorted(es[..|es| - 1], key);
    }
  }

  /** Each item of a history is the time and offset of an entry of the key. */
  lemma {:induction false} HistoryItem(es: seq<Entry>, key: Text, n: nat)
    returns (i: nat)
    requires n < |HistoryOf(es, key)|
    ensures i < |es| && es[i].key == key
    ensures HistoryOf(es, key)[n] == (es[i].timestamp, |EncodeAll(es[..i])|)
    decreases |es|
  {
    var init := es[..|es| - 1];
    if n < |HistoryOf(init, key)| {
      i := HistoryItem(init, key, n);
      assert init[..i] == es[..i];
    } else {
      i := |es| - 1;
    }
  }

  /** What the cut point of a sorted history says about the scan. */
  lemma {:induction false} CutPointScans(es: seq<Entry>, key: Text, query: nat, cut: nat)
    returns (i: nat)
    requires Sorted(HistoryOf(es, key)) && cut <= |HistoryOf(es, key)|
    requires cut > 0 ==> HistoryOf(es, key)[cut - 1].0 <= query
    requires cut < |HistoryOf(es, key)| ==> HistoryOf(es, key)[cut].0 > query
    ensures cut == 0 ==> Scan(AllFields(es), key, query) == None
    ensures cut > 0 ==>
              && i < |es| && HistoryOf(es, key)[cut - 1].1 == |EncodeAll(es[..i])|
              && Scan(AllFields(es), key, query) == Some(es[i].value)
    decreases |es|
  {
    hide EncodeAll;
    i := 0;
    if es != [] {
      var init, last, h := es[..|es| - 1], es[|es| - 1], HistoryOf(es, key);
      var h' := HistoryOf(init, key);
      assert AllFields(es)[..|es| - 1] == AllFields(init);
      assert AllFields(es)[|es| - 1] == Fields(last);
      assert forall n :: 0 <= n < |h'| ==> h'[n] == h[n];
      if last.key == key && last.timestamp <= query {
        assert h[|h| - 1].0 == last.timestamp;
        assert cut == |h|;
        i := |es| - 1;
      } else {
        i := CutPointScans(init, key, query, cut);
        assert cut > 0 ==> init[..i] == es[..i];
      }
    }
  }

  /** Entries appended later with later times never change what the past looked like. */
  lemma {:induction false} LaterSetsKeepThePast(es: seq<Entry>, later: seq<Entry>, key: Text, query: nat)
    requires forall e :: e in later ==> e.timestamp > query
    ensures Scan(AllFields(es + later), key, query) == Scan(AllFields(es), key, query)
    decreases |later|
  {
    if later == [] {
      assert es + later == es;
    } else {
      var init, last := later[..|later| - 1], later[|later| - 1];
      assert last in later;
      LaterSetsKeepThePast(es, init, key, query);
      assert AllFields(es + later)[..|es + later| - 1] == AllFields(es + init);
      assert AllFields(es + later)[|es + later| - 1] == Fields(last);
    }
  }

  /** The answer of a linear scan over the decoded log. */
  ghost function Answered(file: seq<Byte>, key: Text, query: nat): Option<seq<Byte>> {
    Scan(DecodeAll(file), key, query)
  }

  lemma PastIsKept(es: seq<Entry>, e: Entry)
    ensures forall key: Text, query: nat :: query < e.timestamp ==>
              Answered(EncodeAll(es + [e]), key, query) == Answered(EncodeAll(es), key, query)
  {
    hide EncodeAll, DecodeAll, AllFields, Scan;
    DecodeAllEncoded(es);
    DecodeAllEncoded(es + [e]);
    forall key: Text, query: nat | query < e.timestamp
      ensures Answered(EncodeAll(es + [e]), key, query) == Answered(EncodeAll(es), key, query)
    {
      LaterSetsKeepThePast(es, [e], key, query);
    }
  }

  class ChronosDB {
    /** The log file. */
    var file: seq<Byte>
    var index: map<Text, History>
    /** The entries appended so far. */
    ghost var entries: seq<Entry>

    ghost predicate Valid()
      reads this
    {
      && file == EncodeAll(entries)
      && (forall key :: key in index ==> index[key] == HistoryOf(entries, key) && index[key] != [])
      && (forall key :: key !in index ==> HistoryOf(entries, key) == [])
    }

    /** Removes an old log. */
    constructor ()
      ensures Valid() && entries == []
    {
      file, index, entries := [], map[], [];
    }

    ghost function Answer(key: Text, query: nat): Option<seq<Byte>>
      reads this
    {
      Answered(file, key, query)
    }

    /** What was answered for times before this one is answered still. */
    method Set(key: Text, value: Text, now: Word) returns (time: Word)
      requires Valid()
      modifies this
      ensures Valid() && time == now
      ensures entries == old(entries) + [Entry(key, value, now)]
      ensures forall k: Text, query: nat :: query < now ==> Answered(file, k, query) == Answered(old(file), k, query)
    {
      hide Answered, Encode;
      PastIsKept(entries, Entry(key, value, now));
      var offset := |file|;
      var entry := Entry(key, value, now);
      file := file + Encode(entry);
      var history := if key in index then index[key] else [];
      index := index[key := history + [(now, offset)]];
      entries := entries + [entry];
      assert entries[..|entries| - 1] == old(entries);
      time := now;
    }

    function ReadAt(offset: nat): Option<seq<Byte>>
      reads this
    {
      if offset > |file| then None
      else
        match Decode(file[offset..])
        case None => None
        case Some(((_, value, _), _)) => Some(value)
    }

    /** The value is that of an entry of the key no later than the query. */
    ghost predicate FromThePast(key: Text, query: nat, value: seq<Byte>)
      reads this
    {
      exists i :: 0 <= i < |entries| && entries[i].key == key && entries[i].timestamp <= query && value == entries[i].value
    }

    /** Every offset in the index decodes to its own entry. */
    lemma IndexedOffsetsDecode(key: Text, n: nat)
      requires Valid() && key in index && n < |index[key]|
      ensures exists i ::
                && 0 <= i < |entries| && entries[i].key == key
                && index[key][n].0 == entries[i].timestamp
                && ReadAt(index[key][n].1) == Some(entries[i].value)
    {
      var i := HistoryItem(entries, key, n);
      EntryAtOffset(entries, i);
    }

    /** What a cut point of the key's history says about the entry found there. */
    lemma CutPointAnswers(key: Text, query: nat, cut: nat)
      requires Valid() && key in index && cut <= |index[key]|
      requires cut > 0 ==> index[key][cut - 1].0 <= query
      requires cut < |index[key]| ==> index[key][cut].0 > query
      ensures Sorted(index[key]) || ClockNeverGoesBack(entries) ==>
                (if cut == 0 then None else ReadAt(index[key][cut - 1].1))
                == Answer(key, query)
      ensures cut > 0 ==> var found := ReadAt(index[key][cut - 1].1);
                found.Some? && FromThePast(key, query, found.value)
    {
      if cut > 0 {
        IndexedOffsetsDecode(key, cut - 1);
      }
      CutPointIsScan(key, query, cut);
    }

    lemma CutPointIsScan(key: Text, query: nat, cut: nat)
      requires Valid() && key in index && cut <= |index[key]|
      requires cut > 0 ==> index[key][cut - 1].0 <= query
      requires cut < |index[key]| ==> index[key][cut].0 > query
      ensures Sorted(index[key]) || ClockNeverGoesBack(entries) ==>
                (if cut == 0 then None else ReadAt(index[key][cut - 1].1))
                == Answer(key, query)
    {
      hide EncodeAll, Decode, Scan, DecodeAll, AllFields, HistoryOf;
      DecodeAllEncoded(entries);
      if ClockNeverGoesBack(entries) {
        HistoryIsSorted(entries, key);
      }
      if Sorted(index[key]) {
        var i := CutPointScans(entries, key, query, cut);
        if cut > 0 {
          EntryAtOffset(entries, i);
        }
      }
    }

    lemma UnknownKeyScans(key: Text, query: nat)
      requires Valid() && key !in index
      ensures Answer(key, query) == None
    {
      DecodeAllEncoded(entries);
      var _ := CutPointScans(entries, key, query, 0);
    }

    /** What the history of the key gives at a cut point. */
    ghost predicate IsAtCut(key: Text, query: nat, cut: nat, value: Option<seq<Byte>>)
      reads this
    {
      && key in index && cut <= |index[key]|
      && (cut > 0 ==> index[key][cut - 1].0 <= query)
      && (cut < |index[key]| ==> index[key][cut].0 > query)
      && (cut == 0 <==> value == None)
      && (cut > 0 ==> value == ReadAt(index[key][cut - 1].1))
    }

    /** The answer is that of a linear scan over the decoded log, if the times of the key never
        go back; whatever the clock does, it is never a value from after the query. */
    method GetAtTime(key: Text, query: nat) returns (value: Option<seq<Byte>>)
      requires Valid()
      ensures key in index && Sorted(index[key]) ==> value == Answer(key, query)
      ensures key !in index ==> value == None == Answer(key, query)
      ensures ClockNeverGoesBack(entries) ==> value == Answer(key, query)
      ensures value.Some? ==> FromThePast(key, query, value.value)
      ensures key in index ==> exists cut: nat :: IsAtCut(key, query, cut, value)
    {
      if key !in index {
        UnknownKeyScans(key, query);
        return None;
      }
      var history := index[key];
      var cut := PartitionPoint(history, query);
      CutPointAnswers(key, query, cut);
      if cut == 0 {
        assert IsAtCut(key, query, 0, None);
        return None;
      }
      var (_, offset) := history[cut - 1];
      value := ReadAt(offset);
      assert IsAtCut(key, query, cut, value);
    }
  }

  /** The standard library's binary search for the cut point. On a history that is not sorted
      it stops at some such point. */
  method PartitionPoint(h: History, query: nat) returns (cut: nat)
    ensures cut <= |h|
    ensures cut > 0 ==> h[cut - 1].0 <= query
    ensures cut < |h| ==> h[cut].0 > query
  {
    var lo, hi := 0, |h|;
    while lo < hi
      invariant lo <= hi <= |h|
      invariant lo > 0 ==> h[lo - 1].0 <= query
      invariant hi < |h| ==> h[hi].0 > query
    {
      var mid := lo + (hi - lo) / 2;
      if h[mid].0 <= query {
        lo := mid + 1;
      } else {
        hi := mid;
      }
    }
    cut := lo;
  }
}
