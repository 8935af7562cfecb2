/** The collapser for indented call graphs (FlameGraph/stackcollapse-sample.awk). A line of the
    graph is its nesting, its name and its time; a printed line is a path and a time. */
module SampleStacks {
  import opened Options

  datatype Item = CallGraph | TotalNumber | Frame(nest: nat, name: string, time: nat)

  /** A level that was never named has no time: only its blank is printed. */
  datatype Printed = Printed(path: seq<string>, time: Option<int>)

  // ----- The variables of the script, and what one line does to them -----

  datatype State = State(
    found: bool, level: int, nest: nat,
    names: map<int, string>, times: map<int, int>, out: seq<Printed>)

  const INITIAL := State(false, -1, 0, map[], map[], [])

  function NameAt(names: map<int, string>, l: int): string {
    if l in names then names[l] else ""
  }

  function TimeAt(times: map<int, int>, l: int): Option<int> {
    if l in times then Some(times[l]) else None
  }

  function PathTo(names: map<int, string>, l: nat): seq<string> {
    seq(l + 1, i => NameAt(names, i))
  }

  /** One level is forgotten, and printed if wanted. */
  function Forgotten(s: State, level: nat, printIt: bool): State {
    s.(names := s.names - {level}, times := s.times - {level},
       out := if printIt then s.out + [Printed(PathTo(s.names, level), TimeAt(s.times, level))] else s.out)
  }

  /** Levels `from` down to `to` are forgotten, and printed if wanted. */
  function Unwound(s: State, from: int, to: nat, printIt: bool): (r: State)
    ensures r.found == s.found && r.level == s.level && r.nest == s.nest
    decreases from - to
  {
    if from < to then s else Unwound(Forgotten(s, from, printIt), from - 1, to, printIt)
  }

  function Flushed(ignore: set<string>, s: State, from: int, to: nat): (r: State)
    ensures r.found == s.found && r.level == s.level && r.nest == s.nest
  {
    Unwound(s, from, to, NameAt(s.names, from) !in ignore)
  }

  function AfterFrame(ignore: set<string>, s: State, nest: nat, name: string, time: nat): State {
    var s0 := s.(nest := nest);
    var s' := if nest <= s.level then Flushed(ignore, s0, s.level, nest) else s0;
    var times := s'.times[nest := time];
    var parent := if nest - 1 in times then times[nest - 1] else 0;
    s'.(level := nest, names := s'.names[nest := name],
        times := if nest > 0 then times[nest - 1 := parent - time] else times)
  }

  function After(ignore: set<string>, s: State, item: Item): State {
    match item
    case CallGraph => s.(found := true)
    case TotalNumber => Flushed(ignore, s.(found := false), s.nest, 0)
    case Frame(nest, name, time) => if s.found then AfterFrame(ignore, s, nest, name, time) else s
  }

  function AfterAll(ignore: set<string>, s: State, items: seq<Item>): State
    decreases |items|
  {
    if items == [] then s else AfterAll(ignore, After(ignore, s, items[0]), items[1..])
  }

  class Collapser {
    const ignore: set<string>
    var found: bool
    var level: int
    var nest: nat
    var names: map<int, string>
    var times: map<int, int>
    var out: seq<Printed>

    ghost function Now(): State
      reads this
    {
      State(found, level, nest, names, times, out)
    }

    constructor (ignore: set<string>)
      ensures this.ignore == ignore && Now() == INITIAL
    {
      this.ignore := ignore;
      found, level, nest, names, times, out := false, -1, 0, map[], map[], [];
    }

    method PrintLevel(l: nat, printIt: bool)
      modifies this
      ensures Now() == Forgotten(old(Now()), l, printIt)
    {
      if printIt {
        var path := [if 0 in names then names[0] else ""];
        ghost var known := names;
        for i := 1 to l + 1
          invariant path == seq(i, k => NameAt(known, k))
        {
          path := path + [if i in names then names[i] else ""];
        }
        out := out + [Printed(path, TimeAt(times, l))];
      }
      names := names - {l};
      times := times - {l};
    }

    /** One line of output per level, deepest first. */
    method PrintStack(from: int, to: nat)
      modifies this
      ensures Now() == Flushed(ignore, old(Now()), from, to)
    {
      hide Forgotten;
      var printIt := (if from in names then names[from] else "") !in ignore;
      var l := from;
      while l >= to
        invariant Unwound(Now(), l, to, printIt) == Flushed(ignore, old(Now()), from, to)
        decreases l - to
      {
        PrintLevel(l, printIt);
        l := l - 1;
      }
    }

    method Line(item: Item)
      modifies this
      ensures Now() == After(ignore, old(Now()), item)
    {
      match item
      case CallGraph => found := true;
      case TotalNumber =>
        found := false;
        PrintStack(nest, 0);
      case Frame(newNest, name, time) =>
        if found {
          nest := newNest;
          if nest <= level {
            PrintStack(level, nest);
          }
          names := names[nest := name];
          times := times[nest := time];
          if nest > 0 {
            times := times[nest - 1 := (if nest - 1 in times then times[nest - 1] else 0) - time];
          }
          level := nest;
        }
    }

    /** On the lines of any call forest, what the theorem below says is printed. */
    method Collapse(items: seq<Item>) returns (printed: seq<Printed>)
      requires Now() == INITIAL
      modifies this
      ensures printed == AfterAll(ignore, INITIAL, items).out
      ensures forall forest: Forest :: forest != Empty && items == Report(forest) ==>
                printed == PostOrder(ignore, forest, [])
      ensures forall before, forest, after :: IsReportAmong(items, before, forest, after) ==>
                (printed == PostOrder(ignore, forest, []) <==> "" in ignore || TotalNumber !in before + after)
    {
      for i := 0 to |items|
        invariant AfterAll(ignore, Now(), items[i..]) == AfterAll(ignore, INITIAL, items)
      {
        assert items[i..][0] == items[i] && items[i..][1..] == items[i + 1..];
        Line(items[i]);
      }
      printed := out;
      forall forest: Forest | forest != Empty && items == Report(forest)
        ensures printed == PostOrder(ignore, forest, [])
      {
        PrintsPostOrder(ignore, forest);
      }
      forall before, forest, after | IsReportAmong(items, before, forest, after)
        ensures printed == PostOrder(ignore, forest, []) <==> "" in ignore || TotalNumber !in before + after
      {
        PrintsOnlyTheGraph(ignore, before, forest, after);
      }
    }
  }

  // ----- The same machine over a stack -----

  datatype Open = Open(name: string, time: int)

  datatype Machine = Machine(stack: seq<Open>, out: seq<Printed>)

  function PathOf(stack: seq<Open>): seq<string> {
    seq(|stack|, i requires 0 <= i < |stack| => stack[i].name)
  }

  function Top(stack: seq<Open>): string
    requires stack != []
  {
    stack[|stack| - 1].name
  }

  function PoppedOne(m: Machine, printIt: bool): (r: Machine)
    requires m.stack != []
    ensures r.stack == m.stack[..|m.stack| - 1]
  {
    var last := |m.stack| - 1;
    Machine(m.stack[..last],
            if printIt then m.out + [Printed(PathOf(m.stack), Some(m.stack[last].time))] else m.out)
  }

  function PoppedAs(m: Machine, depth: nat, printIt: bool): (r: Machine)
    ensures |m.stack| >= depth ==> r.stack == m.stack[..depth]
    decreases |m.stack|
  {
    if |m.stack| <= depth then m else PoppedAs(PoppedOne(m, printIt), depth, printIt)
  }

  function Popped(ignore: set<string>, m: Machine, depth: nat): (r: Machine)
    ensures |m.stack| >= depth ==> r.stack == m.stack[..depth]
    ensures |m.stack| <= depth ==> r == m
  {
    if |m.stack| <= depth then m else PoppedAs(m, depth, Top(m.stack) !in ignore)
  }

  /** Time given to a callee is taken from its caller. */
  function Charge(stack: seq<Open>, time: int): (r: seq<Open>)
    ensures |r| == |stack| && PathOf(r) == PathOf(stack)
  {
    if stack == [] then []
    else
      var last := |stack| - 1;
      var r := stack[last := Open(stack[last].name, stack[last].time - time)];
      assert PathOf(r) == PathOf(stack);
      r
  }

  function Pushed(ignore: set<string>, m: Machine, nest: nat, name: string, time: nat): (r: Machine)
    requires nest <= |m.stack|
    ensures |r.stack| == nest + 1
  {
    var m' := Popped(ignore, m, nest);
    Machine(Charge(m'.stack, time) + [Open(name, time)], m'.out)
  }

  ghost predicate Holds(s: State, m: Machine) {
    && s.names == (map i: int | 0 <= i < |m.stack| :: m.stack[i].name)
    && s.times == (map i: int | 0 <= i < |m.stack| :: m.stack[i].time)
    && s.out == m.out
  }

  ghost predicate Represents(s: State, m: Machine) {
    && s.found
    && s.level == |m.stack| - 1
    && (m.stack != [] ==> s.nest == s.level)
    && Holds(s, m)
  }

  lemma HoldsAfterPop(s: State, m: Machine, printIt: bool)
    requires Holds(s, m) && m.stack != []
    ensures Holds(Forgotten(s, |m.stack| - 1, printIt), PoppedOne(m, printIt))
  {
    assert PathTo(s.names, |m.stack| - 1) == PathOf(m.stack);
  }

  lemma {:induction false} UnwoundIsPopped(s: State, m: Machine, depth: nat, printIt: bool)
    requires Holds(s, m) && depth <= |m.stack|
    ensures Holds(Unwound(s, |m.stack| - 1, depth, printIt), PoppedAs(m, depth, printIt))
    decreases |m.stack|
  {
    hide Holds, Forgotten, PoppedOne;
    if |m.stack| > depth {
      HoldsAfterPop(s, m, printIt);
      UnwoundIsPopped(Forgotten(s, |m.stack| - 1, printIt), PoppedOne(m, printIt), depth, printIt);
    }
  }

  lemma HoldsAfterPush(s: State, m: Machine, name: string, time: nat)
    requires Holds(s, m)
    ensures var nest := |m.stack|;
            var times := s.times[nest := time];
            var parent := if nest - 1 in times then times[nest - 1] else 0;
            Holds(s.(level := nest, names := s.names[nest := name],
                     times := if nest > 0 then times[nest - 1 := parent - time] else times),
                  Machine(Charge(m.stack, time) + [Open(name, time)], m.out))
  {
  }

  lemma FlushedIsPopped(ignore: set<string>, s: State, m: Machine, depth: nat)
    requires Holds(s, m) && depth < |m.stack|
    ensures Holds(Flushed(ignore, s, |m.stack| - 1, depth), Popped(ignore, m, depth))
  {
    hide Holds, Unwound, PoppedAs, NameAt;
    TopIsNamed(s, m);
    UnwoundIsPopped(s, m, depth, Top(m.stack) !in ignore);
  }

  lemma TopIsNamed(s: State, m: Machine)
    requires Holds(s, m) && m.stack != []
    ensures NameAt(s.names, |m.stack| - 1) == Top(m.stack)
  {
  }

  lemma HoldsWhenNested(s: State, m: Machine, nest: nat)
    requires Holds(s, m)
    ensures Holds(s.(nest := nest), m)
  {
  }

  lemma FrameIsPush(ignore: set<string>, s: State, m: Machine, nest: nat, name: string, time: nat)
    requires Represents(s, m) && nest <= |m.stack|
    ensures Represents(AfterFrame(ignore, s, nest, name, time), Pushed(ignore, m, nest, name, time))
  {
    hide Holds, Flushed, Popped, Charge;
    var s0 := s.(nest := nest);
    var s', m' := if nest <= s.level then Flushed(ignore, s0, s.level, nest) else s0, Popped(ignore, m, nest);
    HoldsWhenNested(s, m, nest);
    if nest <= s.level {
      FlushedIsPopped(ignore, s0, m, nest);
    }
    HoldsAfterPush(s', m', name, time);
  }

  // ----- Call forests and their lines -----

  /** Trees in order: the first one's root, its callees, and the trees that follow. */
  datatype Forest = Empty | Tree(name: string, time: nat, callees: Forest, rest: Forest)

  function Lines(f: Forest, depth: nat): seq<Item> {
    match f
    case Empty => []
    case Tree(name, time, callees, rest) =>
      [Frame(depth, name, time)] + Lines(callees, depth + 1) + Lines(rest, depth)
  }

  function Report(f: Forest): seq<Item> {
    [CallGraph] + Lines(f, 0) + [TotalNumber]
  }

  function RootTimes(f: Forest): nat {
    match f
    case Empty => 0
    case Tree(_, time, _, rest) => time + RootTimes(rest)
  }

  /** The time a root spends in itself. */
  function SelfTime(f: Forest): int
    requires f.Tree?
  {
    f.time - RootTimes(f.callees)
  }

  /** The leaf reached by following last callees from the first root. */
  function LastLeaf(f: Forest): string
    requires f.Tree?
    decreases f, 0
  {
    if f.callees.Tree? then LastLeafOfLast(f.callees) else f.name
  }

  /** The same from the last root. */
  function LastLeafOfLast(f: Forest): string
    requires f.Tree?
    decreases f, 1
  {
    if f.rest.Tree? then LastLeafOfLast(f.rest) else LastLeaf(f)
  }

  /** The nodes in postorder with their self times; a node whose last leaf is ignored is left out. */
  function PostOrder(ignore: set<string>, f: Forest, path: seq<string>): seq<Printed> {
    match f
    case Empty => []
    case Tree(name, time, callees, rest) =>
      PostOrder(ignore, callees, path + [name])
      + (if LastLeaf(f) in ignore then [] else [Printed(path + [name], Some(SelfTime(f)))])
      + PostOrder(ignore, rest, path)
  }

  function RunLines(ignore: set<string>, m: Machine, f: Forest, depth: nat): (r: Machine)
    requires depth <= |m.stack|
    ensures f.Tree? ==> |r.stack| > depth && Top(r.stack) == LastLeafOfLast(f)
    ensures f == Empty ==> r == m
    decreases f
  {
    match f
    case Empty => m
    case Tree(name, time, callees, rest) =>
      RunLines(ignore, RunLines(ignore, Pushed(ignore, m, depth, name, time), callees, depth + 1), rest, depth)
  }

  lemma {:induction false} AfterAllAppends(ignore: set<string>, s: State, a: seq<Item>, b: seq<Item>)
    ensures AfterAll(ignore, s, a + b) == AfterAll(ignore, AfterAll(ignore, s, a), b)
    decreases |a|
  {
    if a == [] {
      assert a + b == b;
    } else {
      assert (a + b)[1..] == a[1..] + b;
      AfterAllAppends(ignore, After(ignore, s, a[0]), a[1..], b);
    }
  }

  lemma {:induction false} LinesRun(ignore: set<string>, s: State, m: Machine, f: Forest, depth: nat)
    requires Represents(s, m) && depth <= |m.stack|
    ensures Represents(AfterAll(ignore, s, Lines(f, depth)), RunLines(ignore, m, f, depth))
    decreases f
  {
    hide Represents, AfterFrame, After, Pushed;
    if f.Tree? {
      var first := [Frame(depth, f.name, f.time)];
      var s1, m1 := AfterFrame(ignore, s, depth, f.name, f.time), Pushed(ignore, m, depth, f.name, f.time);
      FrameIsPush(ignore, s, m, depth, f.name, f.time);
      OneFrame(ignore, s, m, first[0]);
      LinesRun(ignore, s1, m1, f.callees, depth + 1);
      var s2, m2 := AfterAll(ignore, s1, Lines(f.callees, depth + 1)), RunLines(ignore, m1, f.callees, depth + 1);
      LinesRun(ignore, s2, m2, f.rest, depth);
      AfterAllAppends(ignore, s, first, Lines(f.callees, depth + 1));
      AfterAllAppends(ignore, s, first + Lines(f.callees, depth + 1), Lines(f.rest, depth));
    }
  }

  lemma OneFrame(ignore: set<string>, s: State, m: Machine, frame: Item)
    requires Represents(s, m) && frame.Frame?
    ensures AfterAll(ignore, s, [frame]) == AfterFrame(ignore, s, frame.nest, frame.name, frame.time)
  {
    hide AfterFrame;
    assert [frame][1..] == [];
    assert AfterAll(ignore, After(ignore, s, frame), []) == After(ignore, s, frame);
  }

  // ----- What is printed -----

  lemma {:induction false} PopInTwo(m: Machine, depth: nat, printIt: bool)
    requires |m.stack| > depth
    ensures PoppedAs(m, depth, printIt) == PoppedAs(PoppedAs(m, depth + 1, printIt), depth, printIt)
    decreases |m.stack|
  {
    if |m.stack| > depth + 1 {
      PopInTwo(PoppedOne(m, printIt), depth, printIt);
    }
  }

  lemma ChargeAgain(stack: seq<Open>, a: int, b: int)
    ensures Charge(Charge(stack, a), b) == Charge(stack, a + b)
    ensures Charge(stack, 0) == stack
  {
  }

  lemma ChargePushed(stack: seq<Open>, open: Open, time: int)
    ensures Charge(stack + [open], time) == stack + [Open(open.name, open.time - time)]
  {
  }

  lemma PopOne(stack: seq<Open>, open: Open, out: seq<Printed>, printIt: bool)
    ensures PoppedAs(Machine(stack + [open], out), |stack|, printIt)
            == Machine(stack, out + (if printIt then [Printed(PathOf(stack) + [open.name], Some(open.time))] else []))
  {
    assert (stack + [open])[..|stack|] == stack;
    assert PathOf(stack + [open]) == PathOf(stack) + [open.name];
  }

  /** One tree: from its root's line to the point where its root is popped. */
  lemma {:induction false} TreePrints(ignore: set<string>, m: Machine, f: Forest, depth: nat)
    requires f.Tree? && depth <= |m.stack|
    ensures var before := Popped(ignore, m, depth);
            var after := RunLines(ignore, Pushed(ignore, m, depth, f.name, f.time), f.callees, depth + 1);
            |after.stack| > depth && Popped(ignore, after, depth)
            == Machine(Charge(before.stack, f.time),
                       before.out + PostOrder(ignore, f.(rest := Empty), PathOf(before.stack)))
    decreases f, 0
  {
    hide RunLines, PoppedAs;
    var before := Popped(ignore, m, depth);
    var stack, root := Charge(before.stack, f.time), Open(f.name, f.time);
    var pushed := Pushed(ignore, m, depth, f.name, f.time);
    var path := PathOf(before.stack);
    assert pushed.stack == stack + [root];
    assert PathOf(pushed.stack) == path + [f.name];
    var after := RunLines(ignore, pushed, f.callees, depth + 1);
    if f.callees == Empty {
      PopOne(stack, root, before.out, f.name !in ignore);
    } else {
      ForestPrints(ignore, pushed, f.callees, depth + 1);
      var printIt := LastLeaf(f) !in ignore;
      var inner := before.out + PostOrder(ignore, f.callees, path + [f.name]);
      PopInTwo(after, depth, printIt);
      ChargePushed(stack, root, RootTimes(f.callees));
      PopOne(stack, Open(f.name, SelfTime(f)), inner, printIt);
    }
  }

  /** A forest: its nodes are printed in postorder once the level is left. */
  lemma {:induction false} ForestPrints(ignore: set<string>, m: Machine, f: Forest, depth: nat)
    requires f.Tree? && depth <= |m.stack|
    ensures var before := Popped(ignore, m, depth);
            Popped(ignore, RunLines(ignore, m, f, depth), depth)
            == Machine(Charge(before.stack, RootTimes(f)),
                       before.out + PostOrder(ignore, f, PathOf(before.stack)))
    decreases f, 1
  {
    hide Pushed, Popped, PostOrder;
    TreePrints(ignore, m, f, depth);
    PostOrderSplits(ignore, f, PathOf(Popped(ignore, m, depth).stack));
    var tree := RunLines(ignore, Pushed(ignore, m, depth, f.name, f.time), f.callees, depth + 1);
    ChargeAgain(Popped(ignore, m, depth).stack, f.time, RootTimes(f.rest));
    if f.rest == Empty {
      PostOrderOfNothing(ignore, PathOf(Popped(ignore, m, depth).stack));
    } else {
      ForestPrints(ignore, tree, f.rest, depth);
    }
  }

  lemma PostOrderSplits(ignore: set<string>, f: Forest, path: seq<string>)
    requires f.Tree?
    ensures PostOrder(ignore, f, path) == PostOrder(ignore, f.(rest := Empty), path) + PostOrder(ignore, f.rest, path)
  {
    assert PostOrder(ignore, Empty, path) == [];
  }

  lemma PostOrderOfNothing(ignore: set<string>, path: seq<string>)
    ensures PostOrder(ignore, Empty, path) == []
  {
  }

  /** A report, read when nothing is open: the nodes are printed in postorder, and again nothing is
      open. */
  lemma ReportPrints(ignore: set<string>, s: State, f: Forest)
    requires f.Tree? && Idle(s) && s.level == -1
    ensures var r := AfterAll(ignore, s, Report(f));
            Idle(r) && r.out == s.out + PostOrder(ignore, f, [])
  {
    hide PostOrder, RunLines;
    var start, m := s.(found := true), Machine([], s.out);
    LinesRun(ignore, start, m, f, 0);
    ForestPrints(ignore, m, f, 0);
    AfterAllAppends(ignore, s, [CallGraph], Lines(f, 0));
    AfterAllAppends(ignore, s, [CallGraph] + Lines(f, 0), [TotalNumber]);
    assert AfterAll(ignore, s, [CallGraph]) == AfterAll(ignore, start, []) == start;
    var s', m' := AfterAll(ignore, start, Lines(f, 0)), RunLines(ignore, m, f, 0);
    assert AfterAll(ignore, s', [TotalNumber]) == AfterAll(ignore, After(ignore, s', TotalNumber), [])
           == After(ignore, s', TotalNumber);
    FinishPops(ignore, s', m');
  }

  /** The program prints the nodes in postorder, each with its self time. */
  lemma PrintsPostOrder(ignore: set<string>, f: Forest)
    requires f.Tree?
    ensures AfterAll(ignore, INITIAL, Report(f)).out == PostOrder(ignore, f, [])
  {
    ReportPrints(ignore, INITIAL, f);
  }

  lemma FinishPops(ignore: set<string>, s: State, m: Machine)
    requires Represents(s, m) && m.stack != []
    ensures var r := After(ignore, s, TotalNumber);
            Idle(r) && r.out == Popped(ignore, m, 0).out
  {
    FlushedIsPopped(ignore, s.(found := false), m, 0);
  }

  // ----- Lines outside the graph -----

  /** Outside a graph, with nothing open. */
  predicate Idle(s: State) {
    !s.found && s.names == map[] && s.times == map[]
  }

  function Blank(n: nat): seq<string> {
    seq(n, _ => "")
  }

  /** A line of nothing but separators for each level from n up to the root. */
  function Blanks(n: nat): seq<Printed> {
    seq(n + 1, k requires 0 <= k <= n => Printed(Blank(n + 1 - k), None))
  }

  lemma BlanksMore(n: nat)
    ensures Blanks(n) == [Printed(Blank(n + 1), None)] + (if n == 0 then [] else Blanks(n - 1))
  {
  }

  lemma UnwoundStep(s: State, n: nat, printIt: bool)
    ensures Unwound(s, n, 0, printIt) == Unwound(Forgotten(s, n, printIt), n - 1, 0, printIt)
  {
  }

  lemma NothingToUnwind(s: State, printIt: bool)
    ensures Unwound(s, -1, 0, printIt) == s
  {
  }

  lemma {:induction false} UnwoundBlank(s: State, n: nat, printIt: bool)
    requires s.names == map[] && s.times == map[]
    ensures Unwound(s, n, 0, printIt) == s.(out := if printIt then s.out + Blanks(n) else s.out)
    decreases n
  {
    hide Unwound, Blanks;
    UnwoundStep(s, n, printIt);
    BlanksMore(n);
    var last := Printed(Blank(n + 1), None);
    assert PathTo(s.names, n) == Blank(n + 1);
    assert Forgotten(s, n, printIt) == s.(out := if printIt then s.out + [last] else s.out);
    if n > 0 {
      UnwoundBlank(Forgotten(s, n, printIt), n - 1, printIt);
      assert s.out + [last] + Blanks(n - 1) == s.out + ([last] + Blanks(n - 1));
    } else {
      NothingToUnwind(Forgotten(s, 0, printIt), printIt);
    }
  }

  /** Outside the graph a frame does nothing; a total prints blanks. */
  lemma OutsideTheGraph(ignore: set<string>, s: State, item: Item)
    requires Idle(s) && item != CallGraph
    ensures After(ignore, s, item)
            == s.(out := if item.TotalNumber? && "" !in ignore then s.out + Blanks(s.nest) else s.out)
  {
    if item.TotalNumber? {
      UnwoundBlank(s, s.nest, "" !in ignore);
    }
  }

  lemma {:induction false} AllOutside(ignore: set<string>, s: State, items: seq<Item>)
    requires Idle(s) && CallGraph !in items
    ensures var r := AfterAll(ignore, s, items);
            && r == s.(out := r.out) && |r.out| >= |s.out|
            && (r.out == s.out <==> "" in ignore || TotalNumber !in items)
            && (|r.out| == |s.out| <==> "" in ignore || TotalNumber !in items)
    decreases |items|
  {
    hide After, Blanks;
    if items != [] {
      assert items[0] in items;
      OutsideTheGraph(ignore, s, items[0]);
      BlanksAreSome(s.nest);
      AllOutside(ignore, After(ignore, s, items[0]), items[1..]);
    }
  }

  lemma BlanksAreSome(n: nat)
    ensures |Blanks(n)| == n + 1
  {
  }

  /** A report of a forest, with other lines before and after it. */
  predicate IsReportAmong(items: seq<Item>, before: seq<Item>, f: Forest, after: seq<Item>) {
    f.Tree? && items == before + Report(f) + after && CallGraph !in before + after
  }

  /** The lines before the call graph and after its total print nothing, frames or not, exactly if
      no total is among them or the empty name is ignored. */
  lemma PrintsOnlyTheGraph(ignore: set<string>, before: seq<Item>, f: Forest, after: seq<Item>)
    requires f.Tree? && CallGraph !in before + after
    ensures AfterAll(ignore, INITIAL, before + Report(f) + after).out == PostOrder(ignore, f, []) <==>
            "" in ignore || TotalNumber !in before + after
  {
    hide AfterAll, PostOrder;
    AllOutside(ignore, INITIAL, before);
    var s1 := AfterAll(ignore, INITIAL, before);
    ReportPrints(ignore, s1, f);
    var s2 := AfterAll(ignore, s1, Report(f));
    AllOutside(ignore, s2, after);
    AfterAllAppends(ignore, INITIAL, before, Report(f));
    AfterAllAppends(ignore, INITIAL, before + Report(f), after);
    assert s1.out == [] ==> s2.out == PostOrder(ignore, f, []);
  }

  /** A first frame that is n levels deep: its caller, which has no line, has no name and minus its
      time, and the levels above have neither. */
  lemma SkippedLevels(ignore: set<string>, n: nat, name: string, time: nat)
    requires n > 0
    ensures var minus := 0 - time;
            AfterAll(ignore, INITIAL, [CallGraph, Frame(n, name, time), TotalNumber]).out
            == if name in ignore then []
               else [Printed(Blank(n) + [name], Some(time)), Printed(Blank(n), Some(minus))]
                    + (if n == 1 then [] else Blanks(n - 2))
  {
    hide Unwound;
    var minus := 0 - time;
    var s := State(true, n, n, map[n := name], map[n := time, n - 1 := minus], []);
    var printIt := name !in ignore;
    assert AfterAll(ignore, INITIAL, [CallGraph, Frame(n, name, time), TotalNumber])
        == Unwound(s.(found := false), n, 0, printIt) by { ThreeLines(ignore, n, name, time); }
    var s1 := Forgotten(s.(found := false), n, printIt);
    var s2 := Forgotten(s1, n - 1, printIt);
    UnwoundStep(s.(found := false), n, printIt);
    UnwoundStep(s1, n - 1, printIt);
    assert PathTo(s.names, n) == Blank(n) + [name];
    assert s1.names == map[] && PathTo(s1.names, n - 1) == Blank(n);
    assert s1.times == map[n - 1 := minus] && s2.times == map[];
    if n > 1 {
      UnwoundBlank(s2, n - 2, printIt);
    } else {
      NothingToUnwind(s2, printIt);
    }
  }

  lemma ThreeLines(ignore: set<string>, n: nat, name: string, time: nat)
    requires n > 0
    ensures var minus := 0 - time;
            AfterAll(ignore, INITIAL, [CallGraph, Frame(n, name, time), TotalNumber])
            == Unwound(State(false, n, n, map[n := name], map[n := time, n - 1 := minus], []), n, 0, name !in ignore)
  {
    hide Unwound;
    var items := [CallGraph, Frame(n, name, time), TotalNumber];
    assert items[1..] == [items[1], TotalNumber] && items[1..][1..] == [TotalNumber] && [TotalNumber][1..] == [];
    var s1 := After(ignore, INITIAL, CallGraph);
    var s2 := After(ignore, s1, items[1]);
    var minus := 0 - time;
    assert s2 == State(true, n, n, map[n := name], map[n := time, n - 1 := minus], []);
    assert AfterAll(ignore, s2, [TotalNumber]) == AfterAll(ignore, After(ignore, s2, TotalNumber), []);
  }

  /** With no frames at all, one line with neither name nor time is printed. */
  lemma NoFramesPrintABlank(ignore: set<string>)
    ensures AfterAll(ignore, INITIAL, Report(Empty)).out
            == if "" in ignore then [] else [Printed([""], None)]
  {
    var found := INITIAL.(found := true);
    assert Report(Empty) == [CallGraph, TotalNumber];
    assert Report(Empty)[1..] == [TotalNumber] && [TotalNumber][1..] == [];
    assert AfterAll(ignore, found, [TotalNumber]) == AfterAll(ignore, After(ignore, found, TotalNumber), []);
    assert PathTo(map[], 0) == [""];
    assert Unwound(found, 0, 0, true).out == [Printed([""], None)];
  }

  // ----- How much time is printed -----

  function TotalTime(printed: seq<Printed>): int {
    if printed == [] then 0
    else
      var last := printed[|printed| - 1];
      TotalTime(printed[..|printed| - 1]) + (if last.time.Some? then last.time.value else 0)
  }

  /** The self times of the nodes whose last leaf is ignored. */
  function Dropped(ignore: set<string>, f: Forest): int {
    match f
    case Empty => 0
    case Tree(_, _, callees, rest) =>
      Dropped(ignore, callees) + (if LastLeaf(f) in ignore then SelfTime(f) else 0) + Dropped(ignore, rest)
  }

  lemma {:induction false} TotalTimeAppends(a: seq<Printed>, b: seq<Printed>)
    ensures TotalTime(a + b) == TotalTime(a) + TotalTime(b)
    decreases |b|
  {
    if b == [] {
      assert a + b == a;
    } else {
      assert (a + b)[..|a + b| - 1] == a + b[..|b| - 1];
      TotalTimeAppends(a, b[..|b| - 1]);
    }
  }

  lemma {:induction false} PostOrderTime(ignore: set<string>, f: Forest, path: seq<string>)
    ensures TotalTime(PostOrder(ignore, f, path)) + Dropped(ignore, f) == RootTimes(f)
    decreases f
  {
    if f.Tree? {
      var own := if LastLeaf(f) in ignore then [] else [Printed(path + [f.name], Some(SelfTime(f)))];
      var inner := PostOrder(ignore, f.callees, path + [f.name]);
      PostOrderTime(ignore, f.callees, path + [f.name]);
      PostOrderTime(ignore, f.rest, path);
      TotalTimeAppends(inner, own);
      TotalTimeAppends(inner + own, PostOrder(ignore, f.rest, path));
      assert own != [] ==> own[..0] == [];
    }
  }

  /** Some leaf has an ignored name. */
  predicate Waits(ignore: set<string>, f: Forest) {
    f.Tree? && ((f.callees == Empty && f.name in ignore) || Waits(ignore, f.callees) || Waits(ignore, f.rest))
  }

  function Nodes(f: Forest): nat {
    match f
    case Empty => 0
    case Tree(_, _, callees, rest) => Nodes(callees) + 1 + Nodes(rest)
  }

  /** Every node is printed exactly if no leaf has an ignored name; names of other nodes do not
      matter. */
  lemma {:induction false} AllPrintedIffNoLeafIgnored(ignore: set<string>, f: Forest, path: seq<string>)
    ensures |PostOrder(ignore, f, path)| <= Nodes(f)
    ensures |PostOrder(ignore, f, path)| == Nodes(f) <==> !Waits(ignore, f)
    decreases f
  {
    if f.Tree? {
      AllPrintedIffNoLeafIgnored(ignore, f.callees, path + [f.name]);
      AllPrintedIffNoLeafIgnored(ignore, f.rest, path);
      if !Waits(ignore, f) {
        LastLeafIsNamed(ignore, f);
      }
    }
  }

  lemma {:induction false} LastLeafIsNamed(ignore: set<string>, f: Forest)
    requires f.Tree? && !Waits(ignore, f)
    ensures LastLeaf(f) !in ignore && LastLeafOfLast(f) !in ignore
    decreases f
  {
    if f.callees.Tree? {
      LastLeafIsNamed(ignore, f.callees);
    }
    if f.rest.Tree? {
      LastLeafIsNamed(ignore, f.rest);
    }
  }

  lemma {:induction false} NothingDropped(ignore: set<string>, f: Forest)
    requires !Waits(ignore, f)
    ensures Dropped(ignore, f) == 0
    decreases f
  {
    if f.Tree? {
      LastLeafIsNamed(ignore, f);
      NothingDropped(ignore, f.callees);
      NothingDropped(ignore, f.rest);
    }
  }

  /** The printed times and the dropped ones add up to the times of the roots; nothing is
      dropped when no leaf has an ignored name. */
  lemma PrintedTimeIsRootTime(ignore: set<string>, f: Forest)
    requires f.Tree?
    ensures TotalTime(AfterAll(ignore, INITIAL, Report(f)).out) == RootTimes(f) - Dropped(ignore, f)
    ensures !Waits(ignore, f) ==> TotalTime(AfterAll(ignore, INITIAL, Report(f)).out) == RootTimes(f)
  {
    PrintsPostOrder(ignore, f);
    PostOrderTime(ignore, f, []);
    if !Waits(ignore, f) {
      NothingDropped(ignore, f);
    }
  }

  /** What hides a caller's own time is the order of its callees: the same calls with the
      waiting one last, and with it first. */
  lemma WaitingLastHidesTheCaller()
    ensures var ignore := {"read"};
            var work, wait := Tree("work", 6, Empty, Empty), Tree("read", 4, Empty, Empty);
            && PostOrder(ignore, Tree("main", 12, work.(rest := wait), Empty), [])
               == [Printed(["main", "work"], Some(6))]
            && PostOrder(ignore, Tree("main", 12, wait.(rest := work), Empty), [])
               == [Printed(["main", "work"], Some(6)), Printed(["main"], Some(2))]
  {
    hide PostOrder, LastLeaf, LastLeafOfLast;
    var ignore := {"read"};
    var work, wait := Tree("work", 6, Empty, Empty), Tree("read", 4, Empty, Empty);
    CallerOfTwoLeaves(ignore, "main", 12, work, wait);
    CallerOfTwoLeaves(ignore, "main", 12, wait, work);
  }

  lemma CallerOfTwoLeaves(ignore: set<string>, name: string, time: nat, first: Forest, second: Forest)
    requires first.Tree? && first.callees == first.rest == Empty
    requires second.Tree? && second.callees == second.rest == Empty
    ensures PostOrder(ignore, Tree(name, time, first.(rest := second), Empty), [])
            == (if first.name in ignore then [] else [Printed([name, first.name], Some(first.time))])
               + (if second.name in ignore then [] else
                    [Printed([name, second.name], Some(second.time)),
                     Printed([name], Some(time - first.time - second.time))])
  {
    var callees := first.(rest := second);
    LeafPrints(ignore, second, [name]);
    PostOrderSplits(ignore, callees, [name]);
    LeafPrints(ignore, first, [name]);
    var caller := Tree(name, time, callees, Empty);
    assert LastLeaf(caller) == LastLeafOfLast(callees) == LastLeafOfLast(second) == LastLeaf(second) == second.name;
    assert SelfTime(caller) == time - RootTimes(callees) == time - (first.time + RootTimes(second));
    assert RootTimes(second) == second.time + RootTimes(Empty);
    PostOrderOfCaller(ignore, caller);
    assert callees.(rest := Empty) == first;
    assert [name] + [first.name] == [name, first.name] && [name] + [second.name] == [name, second.name];
  }

  lemma PostOrderOfCaller(ignore: set<string>, f: Forest)
    requires f.Tree? && f.rest == Empty
    ensures PostOrder(ignore, f, []) == PostOrder(ignore, f.callees, [f.name])
            + (if LastLeaf(f) in ignore then [] else [Printed([f.name], Some(SelfTime(f)))])
  {
    assert [] + [f.name] == [f.name];
    PostOrderOfNothing(ignore, []);
  }

  lemma LeafPrints(ignore: set<string>, leaf: Forest, path: seq<string>)
    requires leaf.Tree? && leaf.callees == leaf.rest == Empty
    ensures PostOrder(ignore, leaf, path)
            == if leaf.name in ignore then [] else [Printed(path + [leaf.name], Some(leaf.time))]
  {
  }
}
