/** Text as the store sees it: lines, the first comma of a line, and words between white space. */
module ChronosText {
  import opened Options

  /** The first position of a character, or the length. */
  function IndexOf(s: string, c: char): (i: nat)
    ensures i <= |s|
    ensures c !in s[..i]
    ensures i < |s| ==> s[i] == c
  {
    if s == "" || s[0] == c then 0
    else
      var i := 1 + IndexOf(s[1..], c);
      assert s[..i] == [s[0]] + s[1..][..i - 1];
      i
  }

  lemma {:induction false} IndexOfFirst(s: string, c: char, k: nat)
    requires k < |s| && s[k] == c && c !in s[..k]
    ensures IndexOf(s, c) == k
  {
    if k > 0 {
      assert s[0] in s[..k];
      assert s[1..][..k - 1] == s[..k][1..];
      IndexOfFirst(s[1..], c, k - 1);
    }
  }

  lemma {:induction false} IndexOfAtMost(s: string, c: char, k: nat)
    requires k < |s| && s[k] == c
    ensures IndexOf(s, c) <= k
  {
    if k > 0 && s[0] != c {
      IndexOfAtMost(s[1..], c, k - 1);
    }
  }

  /** The first position, in a text that is put together around it. */
  lemma IndexOfJoined(a: string, c: char, b: string)
    requires c !in a
    ensures IndexOf(a + [c] + b, c) == |a|
  {
    var s := a + [c] + b;
    assert s[..|a|] == a;
    IndexOfFirst(s, c, |a|);
  }

  lemma IndexOfAbsent(a: string, c: char)
    requires c !in a
    ensures IndexOf(a, c) == |a|
  {
  }

  /** `split_once`: the parts before and after the first occurrence. */
  function SplitOnce(s: string, c: char): Option<(string, string)> {
    var i := IndexOf(s, c);
    if i == |s| then None else Some((s[..i], s[i + 1..]))
  }

  /** A line ending drops one carriage return before the line feed. */
  function StripReturn(line: string): string {
    if line != "" && line[|line| - 1] == '\r' then line[..|line| - 1] else line
  }

  // ----- Words -----

  /** The Unicode White_Space property. */
  predicate IsWhite(c: char) {
    || '\t' <= c <= '\r'
    || c == ' ' || c == '\U{0085}' || c == '\U{00A0}' || c == '\U{1680}'
    || '\U{2000}' <= c <= '\U{200A}'
    || c == '\U{2028}' || c == '\U{2029}' || c == '\U{202F}' || c == '\U{205F}' || c == '\U{3000}'
  }

  /** The same, one code point after the other. */
  lemma WhiteCodePoints(c: char)
    ensures IsWhite(c) <==>
      c as int in {9, 10, 11, 12, 13, 32, 133, 160, 5760, 8192, 8193, 8194, 8195, 8196, 8197, 8198, 8199, 8200, 8201,
                   8202, 8232, 8233, 8239, 8287, 12288}
  {
  }

  predicate IsWord(w: string) {
    w != "" && forall c :: c in w ==> !IsWhite(c)
  }

  predicate AreWords(ws: seq<string>) {
    forall w :: w in ws ==> IsWord(w)
  }

  /** The length of the run of non-white characters at the front. */
  function WordLength(s: string): (n: nat)
    ensures n <= |s|
    ensures forall i :: 0 <= i < n ==> !IsWhite(s[i])
    ensures n < |s| ==> IsWhite(s[n])
  {
    if s == "" || IsWhite(s[0]) then 0 else 1 + WordLength(s[1..])
  }

  /** `split_whitespace`: the maximal runs of non-white characters. (A `trim` before it makes no
      difference.) */
  function Words(s: string): (ws: seq<string>)
    ensures AreWords(ws)
    decreases |s|
  {
    if s == "" then []
    else if IsWhite(s[0]) then Words(s[1..])
    else
      var n := WordLength(s);
      var w := s[..n];
      assert forall c :: c in w ==> !IsWhite(c);
      [w] + Words(s[n..])
  }

  /** `join(" ")`. */
  function Join(ws: seq<string>): string {
    if ws == [] then ""
    else if |ws| == 1 then ws[0]
    else ws[0] + " " + Join(ws[1..])
  }

  /** What a joined text is: a single blank between any two words. */
  lemma {:induction false} JoinApart(ws: seq<string>, w: string, vs: seq<string>)
    ensures Join([w]) == w && Join([]) == ""
    ensures ws != [] && vs != [] ==> Join(ws + vs) == Join(ws) + " " + Join(vs)
  {
    if |ws| == 1 {
      assert (ws + vs)[1..] == vs;
    } else if ws != [] {
      JoinApart(ws[1..], w, vs);
      assert (ws + vs)[1..] == ws[1..] + vs;
    }
  }

  lemma WordThenWhite(w: string, rest: string)
    requires IsWord(w) && (rest == "" || IsWhite(rest[0]))
    ensures Words(w + rest) == [w] + Words(rest)
  {
    var s := w + rest;
    assert !IsWhite(s[0]) by { assert w[0] in w; }
    WordLengthOf(w, rest);
    assert s[..|w|] == w && s[|w|..] == rest;
  }

  lemma {:induction false} WordLengthOf(w: string, rest: string)
    requires (forall c :: c in w ==> !IsWhite(c)) && (rest == "" || IsWhite(rest[0]))
    ensures WordLength(w + rest) == |w|
  {
    if w == "" {
      assert w + rest == rest;
    } else {
      assert w[0] in w;
      assert (w + rest)[1..] == w[1..] + rest;
      WordLengthOf(w[1..], rest);
    }
  }

  lemma WhiteThenWords(s: string)
    requires s != "" && IsWhite(s[0])
    ensures Words(s) == Words(s[1..])
  {
  }

  lemma NoText()
    ensures Words("") == []
  {
  }

  /** What the words of a text are: none in the empty text, a text without white space is one word,
      and any white character parts the words before it from those after it. */
  lemma {:induction false} WordsApart(a: string, c: char, b: string)
    requires IsWhite(c)
    ensures Words(a + [c] + b) == Words(a) + Words(b)
    ensures Words("") == [] && (IsWord(a) ==> Words(a) == [a])
    decreases |a|
  {
    hide Words, IsWhite;
    NoText();
    var s := a + [c] + b;
    if a == "" {
      WhiteThenWords(s);
      assert s[1..] == b;
    } else if IsWhite(a[0]) {
      WhiteThenWords(s);
      WhiteThenWords(a);
      assert s[1..] == a[1..] + [c] + b;
      assert a[0] in a;
      WordsApart(a[1..], c, b);
    } else {
      var n := WordLength(a);
      var w, more := a[..n], a[n..];
      assert more + [c] + b != "" && IsWhite((more + [c] + b)[0]);
      assert s == w + (more + [c] + b) && a == w + more;
      WordThenWhite(w, more + [c] + b);
      WordThenWhite(w, more);
      WordsApart(more, c, b);
    }
    if IsWord(a) {
      WordThenWhite(a, "");
      assert a + "" == a;
    }
  }

  /** Joined words split back into the same words. */
  lemma {:induction false} WordsOfJoin(ws: seq<string>)
    requires AreWords(ws)
    ensures Words(Join(ws)) == ws
  {
    hide Words, IsWord;
    if ws == [] {
      WordsApart("", ' ', "");
    } else {
      assert ws[0] in ws && AreWords(ws[1..]);
      WordsApart(ws[0], ' ', Join(ws[1..]));
      WordsOfJoin(ws[1..]);
      assert ws == [ws[0]] + ws[1..];
    }
  }

  /** A joined text has no white space but single blanks. */
  lemma {:induction false} JoinHasOnlyBlanks(ws: seq<string>)
    requires AreWords(ws)
    ensures forall c :: c in Join(ws) ==> !IsWhite(c) || c == ' '
    ensures ws != [] ==> Join(ws) != "" && !IsWhite(Join(ws)[|Join(ws)| - 1])
  {
    if ws == [] {
    } else if |ws| == 1 {
      assert ws[0] in ws && ws[0][|ws[0]| - 1] in ws[0];
    } else {
      assert ws[0] in ws && AreWords(ws[1..]);
      JoinHasOnlyBlanks(ws[1..]);
    }
  }
}
