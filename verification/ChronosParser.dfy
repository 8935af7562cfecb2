/** The command language (chronos/src/parser.rs). */
module ChronosParser {
  import opened Options
  import opened ChronosText

  datatype Command =
    | Set(key: string, value: string)
    | Get(key: string)
    | Del(key: string)
    | Compact
    | Ping
    | Unknown

  /** Upper case, as far as it can matter for comparing with the command names: ASCII letters,
      and the two other characters whose upper case is an ASCII letter. */
  function UpperChar(c: char): char {
    if 'a' <= c <= 'z' then c - 'a' + 'A'
    else if c == '\U{017F}' then 'S'
    else if c == '\U{0131}' then 'I'
    else c
  }

  function Upper(s: string): (u: string)
    ensures |u| == |s|
    ensures forall i :: 0 <= i < |s| ==> u[i] == UpperChar(s[i])
  {
    seq(|s|, i requires 0 <= i < |s| => UpperChar(s[i]))
  }

  function Interpret(parts: seq<string>): Command
    requires parts != []
  {
    var name := Upper(parts[0]);
    if name == "SET" && |parts| >= 3 then Set(parts[1], Join(parts[2..]))
    else if name == "GET" && |parts| == 2 then Get(parts[1])
    else if name == "DEL" && |parts| == 2 then Del(parts[1])
    else if name == "PING" then Ping
    else if name == "COMPACT" then Compact
    else Unknown
  }

  /** Nothing for blank input, where `parts[0]` panics. */
  function Parse(input: string): Option<Command> {
    var parts := Words(input);
    if parts == [] then None else Some(Interpret(parts))
  }

  // ----- The commands, letter by letter -----

  /** The three-letter names: S may also be the long s. */
  predicate IsSetName(w: string) {
    |w| == 3 && w[0] in {'S', 's', '\U{017F}'} && w[1] in {'E', 'e'} && w[2] in {'T', 't'}
  }

  predicate IsGetName(w: string) {
    |w| == 3 && w[0] in {'G', 'g'} && w[1] in {'E', 'e'} && w[2] in {'T', 't'}
  }

  predicate IsDelName(w: string) {
    |w| == 3 && w[0] in {'D', 'd'} && w[1] in {'E', 'e'} && w[2] in {'L', 'l'}
  }

  /** I may also be the dotless i. */
  predicate IsPingName(w: string) {
    |w| == 4 && w[0] in {'P', 'p'} && w[1] in {'I', 'i', '\U{0131}'} && w[2] in {'N', 'n'} && w[3] in {'G', 'g'}
  }

  predicate IsCompactName(w: string) {
    && |w| == 7
    && w[0] in {'C', 'c'} && w[1] in {'O', 'o'} && w[2] in {'M', 'm'} && w[3] in {'P', 'p'}
    && w[4] in {'A', 'a'} && w[5] in {'C', 'c'} && w[6] in {'T', 't'}
  }

  lemma NamesInUpperCase(w: string)
    ensures Upper(w) == "SET" <==> IsSetName(w)
    ensures Upper(w) == "GET" <==> IsGetName(w)
    ensures Upper(w) == "DEL" <==> IsDelName(w)
  {
  }

  lemma LongerNamesInUpperCase(w: string)
    ensures Upper(w) == "PING" <==> IsPingName(w)
    ensures Upper(w) == "COMPACT" <==> IsCompactName(w)
  {
  }

  /** For every input: which command it is, by its words. */
  lemma ParseByWords(input: string)
    ensures var parts, c := Words(input), Parse(input);
            && (c.None? <==> parts == [])
            && (parts != [] ==>
              var name, n := parts[0], |parts|;
              && (c.value.Set? <==> IsSetName(name) && n >= 3)
              && (c.value.Set? ==> c.value.key == parts[1] && c.value.value == Join(parts[2..]))
              && (c.value.Get? <==> IsGetName(name) && n == 2)
              && (c.value.Get? ==> c.value.key == parts[1])
              && (c.value.Del? <==> IsDelName(name) && n == 2)
              && (c.value.Del? ==> c.value.key == parts[1])
              && (c.value == Ping <==> IsPingName(name))
              && (c.value == Compact <==> IsCompactName(name))
              && (c.value == Unknown <==>
                && !(IsSetName(name) && n >= 3) && !(IsGetName(name) && n == 2) && !(IsDelName(name) && n == 2)
                && !IsPingName(name) && !IsCompactName(name)))
  {
    hide Upper, Words, Join, IsSetName, IsGetName, IsDelName, IsPingName, IsCompactName;
    var parts := Words(input);
    if parts != [] {
      NamesInUpperCase(parts[0]);
      LongerNamesInUpperCase(parts[0]);
    }
  }

  /** The canonical text of a recognised command. */
  function Print(c: Command): string
    requires !c.Unknown?
  {
    match c
    case Set(k, v) => "SET " + k + " " + v
    case Get(k) => "GET " + k
    case Del(k) => "DEL " + k
    case Compact => "COMPACT"
    case Ping => "PING"
  }

  /** The text the store can keep: one word as key, words separated by single blanks as value. */
  ghost predicate WellFormed(c: Command) {
    match c
    case Set(k, v) => IsWord(k) && exists ws :: ws != [] && AreWords(ws) && v == Join(ws)
    case Get(k) => IsWord(k)
    case Del(k) => IsWord(k)
    case _ => true
  }

  /** Everything `parse` produces is well-formed, and so without white space but for the single
      blanks of a value: no line breaks. */
  lemma ParsedIsWellFormed(input: string)
    ensures Parse(input).Some? ==> WellFormed(Parse(input).value)
    ensures Parse(input).Some? && (Parse(input).value.Set? || Parse(input).value.Get? || Parse(input).value.Del?) ==>
              forall c :: c in Parse(input).value.key ==> !IsWhite(c)
    ensures Parse(input).Some? && Parse(input).value.Set? ==>
              forall c :: c in Parse(input).value.value ==> !IsWhite(c) || c == ' '
  {
    var parts := Words(input);
    if parts != [] {
      assert forall i :: 0 <= i < |parts| ==> parts[i] in parts;
      assert forall w :: w in parts[1..] ==> w in parts;
      if Interpret(parts).Set? {
        assert forall w :: w in parts[2..] ==> w in parts;
        assert parts[2..] != [] && AreWords(parts[2..]);
        JoinHasOnlyBlanks(parts[2..]);
      }
    }
  }

  lemma CommandNames()
    ensures Upper("SET") == "SET" && Upper("GET") == "GET" && Upper("DEL") == "DEL"
    ensures Upper("PING") == "PING" && Upper("COMPACT") == "COMPACT"
    ensures IsWord("SET") && IsWord("GET") && IsWord("DEL") && IsWord("PING") && IsWord("COMPACT")
  {
  }

  /** The words of the canonical text. */
  ghost function PrintedWords(c: Command): seq<string>
    requires !c.Unknown? && WellFormed(c)
  {
    match c
    case Set(k, v) =>
      var ws :| ws != [] && AreWords(ws) && v == Join(ws);
      ["SET", k] + ws
    case Get(k) => ["GET", k]
    case Del(k) => ["DEL", k]
    case Compact => ["COMPACT"]
    case Ping => ["PING"]
  }

  /** Printing and parsing again gives the command back. */
  lemma ParsePrinted(c: Command)
    requires !c.Unknown? && WellFormed(c)
    ensures Parse(Print(c)) == Some(c)
  {
    CommandNames();
    var ws := PrintedWords(c);
    assert AreWords(ws);
    PrintJoins(c);
    WordsOfJoin(ws);
  }

  lemma PrintJoins(c: Command)
    requires !c.Unknown? && WellFormed(c)
    ensures Print(c) == Join(PrintedWords(c))
    ensures c.Set? ==> |PrintedWords(c)| >= 3 && Join(PrintedWords(c)[2..]) == c.value
  {
    var ws := PrintedWords(c);
    match c {
      case Set(k, v) =>
        assert ws[1..] == [k] + ws[2..] && ws[1..][1..] == ws[2..];
        assert Join(ws) == "SET" + " " + (k + " " + Join(ws[2..]));
      case Get(k) => assert ws[1..] == [k];
      case Del(k) => assert ws[1..] == [k];
      case _ =>
    }
  }

  /** Parsing normalises: the canonical text of what was parsed parses to the same command. */
  lemma ParseNormalises(input: string)
    ensures var c := Parse(input);
            c.Some? && !c.value.Unknown? ==> WellFormed(c.value) && Parse(Print(c.value)) == c
  {
    ParsedIsWellFormed(input);
    var c := Parse(input);
    if c.Some? && !c.value.Unknown? {
      ParsePrinted(c.value);
    }
  }
}
