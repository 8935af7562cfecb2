/** A path of names as one text, and back (FlameGraph/stackcollapse-chrome-tracing.py:91-104). */
module ChromePaths {

  function Joined(path: seq<string>): string {
    if path == [] then "" else if |path| == 1 then path[0]
    else Joined(path[..|path| - 1]) + ";" + path[|path| - 1]
  }

  /** The pieces of a text between its semicolons, in order. */
  function Pieces(text: string): (pieces: seq<string>)
    ensures pieces != []
    ensures forall k :: 0 <= k < |pieces| ==> ';' !in pieces[k]
  {
    if text == "" then [""]
    else
      var rest := Pieces(text[1..]);
      if text[0] == ';' then [""] + rest else [[text[0]] + rest[0]] + rest[1..]
  }

  /** No name has a semicolon. */
  predicate Plain(path: seq<string>) {
    forall k :: 0 <= k < |path| ==> ';' !in path[k]
  }

  /** What a joined path is: its names in order, outermost first, a semicolon between any two. */
  lemma {:induction false} JoinedApart(outer: seq<string>, name: string, inner: seq<string>)
    ensures Joined([name]) == name && Joined([]) == ""
    ensures outer != [] && inner != [] ==> Joined(outer + inner) == Joined(outer) + ";" + Joined(inner)
    decreases |inner|
  {
    if outer != [] && inner != [] {
      var last := |inner| - 1;
      assert (outer + inner)[..|outer + inner| - 1] == outer + inner[..last];
      if last == 0 {
        assert outer + inner[..last] == outer;
      } else {
        JoinedApart(outer, name, inner[..last]);
      }
    }
  }

  lemma {:induction false} PiecesOfPlain(name: string)
    requires ';' !in name
    ensures Pieces(name) == [name]
  {
    if name != "" {
      assert name[0] in name;
      PiecesOfPlain(name[1..]);
      assert name == [name[0]] + name[1..];
    }
  }

  lemma {:induction false} PiecesApart(name: string, rest: string)
    requires ';' !in name
    ensures Pieces(name + ";" + rest) == [name] + Pieces(rest)
  {
    var text := name + ";" + rest;
    if name == "" {
      assert text[1..] == rest;
    } else {
      assert name[0] in name;
      assert text[1..] == name[1..] + ";" + rest;
      PiecesApart(name[1..], rest);
      assert name == [name[0]] + name[1..];
    }
  }

  lemma {:induction false} PlainPathComesBack(path: seq<string>)
    requires path != [] && Plain(path)
    ensures Pieces(Joined(path)) == path
  {
    JoinedApart(path[..1], path[0], path[1..]);
    assert path == path[..1] + path[1..] && path[..1] == [path[0]];
    if path[1..] == [] {
      PiecesOfPlain(path[0]);
      assert path == [path[0]];
    } else {
      PlainPathComesBack(path[1..]);
      PiecesApart(path[0], Joined(path[1..]));
    }
  }

  /** A path can be read off its identifier exactly if no name on it has a semicolon. */
  lemma PathComesBackIffPlain(path: seq<string>)
    requires path != []
    ensures Pieces(Joined(path)) == path <==> Plain(path)
  {
    if Plain(path) {
      PlainPathComesBack(path);
    }
  }

  lemma JoinedFrom(first: string, rest: seq<string>)
    ensures Joined([first] + rest) == first + (if rest == [] then "" else ";" + Joined(rest))
  {
    hide Joined;
    JoinedApart([first], first, rest);
    assert [first] + [] == [first] && first + "" == first;
  }

  lemma {:induction false} PiecesJoin(text: string)
    ensures Joined(Pieces(text)) == text
  {
    hide Joined;
    if text == "" {
      JoinedFrom("", []);
      assert [""] + [] == [""];
    } else {
      var rest := Pieces(text[1..]);
      PiecesJoin(text[1..]);
      JoinedFrom(rest[0], rest[1..]);
      assert rest == [rest[0]] + rest[1..];
      assert text == [text[0]] + text[1..];
      if text[0] == ';' {
        JoinedFrom("", rest);
      } else {
        JoinedFrom([text[0]] + rest[0], rest[1..]);
      }
    }
  }

  /** Every text is the identifier of exactly one path of names without semicolons. */
  lemma TextIsOnePath(text: string)
    ensures Joined(Pieces(text)) == text
    ensures forall path :: path != [] && Plain(path) && Joined(path) == text ==> path == Pieces(text)
  {
    hide Joined, Pieces;
    PiecesJoin(text);
    forall path | path != [] && Plain(path) && Joined(path) == text ensures path == Pieces(text) {
      PlainPathComesBack(path);
    }
  }
}
