/** The difference of two folded profiles (FlameGraph/difffolded.pl:84-115). Counts are reals,
    exact; a line is its stack and its count. */
module DiffFolded {
  import opened Options
  import opened MapSums

  datatype Line = Line(stack: string, count: real)

  /** The counts of a stack in the two files; either may be undefined. */
  datatype Counts = Counts(one: Option<real>, two: Option<real>)

  /** What is printed of a stack. */
  datatype Row = Row(one: real, two: real)

  datatype Report = Table(rows: map<string, Row>) | DivisionByZero

  function OrZero(c: Option<real>): real {
    if c.Some? then c.value else 0.0
  }

  function CountsAt(folded: map<string, Counts>, stack: string): Counts {
    if stack in folded then folded[stack] else Counts(None, None)
  }

  /** `int`: towards zero. */
  function Int(x: real): int {
    if x >= 0.0 then x.Floor else -((-x).Floor)
  }

  function Scaled(count: real, total1: real, total2: real): real
    requires total1 != 0.0
  {
    Int(count * total2 / total1) as real
  }

  // ----- What a stack is counted for -----

  function CountedFor(lines: seq<Line>, stack: string): Option<real> {
    if lines == [] then None
    else
      var last, before := lines[|lines| - 1], CountedFor(lines[..|lines| - 1], stack);
      if last.stack == stack then Some(OrZero(before) + last.count) else before
  }

  function TotalOf(lines: seq<Line>): real {
    if lines == [] then 0.0 else TotalOf(lines[..|lines| - 1]) + lines[|lines| - 1].count
  }

  predicate NonNegative(lines: seq<Line>) {
    forall line :: line in lines ==> line.count >= 0.0
  }

  /** `folded` holds what the two files say of each stack that is in either. */
  ghost predicate Holds(folded: map<string, Counts>, file1: seq<Line>, file2: seq<Line>) {
    && (forall stack :: CountsAt(folded, stack) == Counts(CountedFor(file1, stack), CountedFor(file2, stack)))
    && (forall stack :: stack in folded ==> folded[stack] != Counts(None, None))
  }

  class Differ {
    var folded: map<string, Counts>
    var total1: real
    var total2: real

    constructor ()
      ensures Holds(folded, [], []) && total1 == 0.0 && total2 == 0.0
    {
      folded, total1, total2 := map[], 0.0, 0.0;
    }

    method ReadFirst(lines: seq<Line>)
      requires Holds(folded, [], []) && total1 == 0.0 && total2 == 0.0
      modifies this
      ensures Holds(folded, lines, []) && total1 == TotalOf(lines) && total2 == 0.0
    {
      for i := 0 to |lines|
        invariant Holds(folded, lines[..i], []) && total1 == TotalOf(lines[..i]) && total2 == 0.0
      {
        var stack, count := lines[i].stack, lines[i].count;
        assert lines[..i + 1][..i] == lines[..i];
        var counts := CountsAt(folded, stack);
        folded := folded[stack := counts.(one := Some(OrZero(counts.one) + count))];
        total1 := total1 + count;
      }
      assert lines[..|lines|] == lines;
    }

    method ReadSecond(lines: seq<Line>, ghost file1: seq<Line>)
      requires Holds(folded, file1, []) && total2 == 0.0
      modifies this
      ensures Holds(folded, file1, lines) && total1 == old(total1) && total2 == TotalOf(lines)
    {
      for i := 0 to |lines|
        invariant Holds(folded, file1, lines[..i]) && total1 == old(total1) && total2 == TotalOf(lines[..i])
      {
        var stack, count := lines[i].stack, lines[i].count;
        assert lines[..i + 1][..i] == lines[..i];
        var counts := CountsAt(folded, stack);
        folded := folded[stack := counts.(two := Some(OrZero(counts.two) + count))];
        total2 := total2 + count;
      }
      assert lines[..|lines|] == lines;
    }

    /** Fills in and rescales one stack's counts; there is no row if it has to divide by zero. */
    method RowFor(stack: string, normalize: bool) returns (row: Option<Row>)
      requires stack in folded
      modifies this
      ensures total1 == old(total1) && total2 == old(total2)
      ensures folded.Keys == old(folded).Keys
      ensures forall k :: k in folded && k != stack ==> folded[k] == old(folded)[k]
      ensures row == None <==> normalize && total1 != total2 && total1 == 0.0
      ensures row.Some? ==> RowIs(row.value, old(folded)[stack], total1, total2, normalize)
    {
      folded := folded[stack := Counts(Some(OrZero(folded[stack].one)), Some(OrZero(folded[stack].two)))];
      if normalize && total1 != total2 {
        if total1 == 0.0 {
          return None;
        }
        folded := folded[stack := folded[stack].(one := Some(Scaled(folded[stack].one.value, total1, total2)))];
      }
      row := Some(Row(folded[stack].one.value, folded[stack].two.value));
    }

    /** The rows, whatever the order of the stacks; or none, if the first total is zero and
        has to be divided by. */
    method Print(normalize: bool, ghost file1: seq<Line>, ghost file2: seq<Line>) returns (report: Report)
      requires Holds(folded, file1, file2) && total1 == TotalOf(file1) && total2 == TotalOf(file2)
      modifies this
      ensures report == Difference(old(folded), total1, total2, normalize)
      ensures NonNegative(file1) && NonNegative(file2) ==>
                match report
                case DivisionByZero => normalize && total1 == 0.0 && total2 > 0.0
                case Table(rows) =>
                  && !(normalize && total1 == 0.0 && total2 > 0.0)
                  && (forall k :: k in rows <==> exists line :: (line in file1 || line in file2) && line.stack == k)
                  && (forall k :: k in rows ==>
                        && (normalize && total1 != total2 ==> total1 > 0.0)
                        && RowMeans(rows[k], OrZero(CountedFor(file1, k)), OrZero(CountedFor(file2, k)),
                                    total1, total2, normalize))
      ensures total1 == old(total1) && total2 == old(total2)
    {
      hide Holds, RowMeans;
      if NonNegative(file1) && NonNegative(file2) {
        RowsByCounts(folded, file1, file2, normalize);
      }
      var rows: map<string, Row> := map[];
      var keys := folded.Keys;
      ghost var was := folded;
      while keys != {}
        invariant total1 == old(total1) && total2 == old(total2)
        invariant keys <= was.Keys == folded.Keys
        invariant forall k :: k in keys ==> folded[k] == was[k]
        invariant keys != was.Keys ==> !(normalize && total1 != total2 && total1 == 0.0)
        invariant rows.Keys == was.Keys - keys
        invariant forall k :: k in rows ==> RowIs(rows[k], was[k], total1, total2, normalize)
      {
        var stack :| stack in keys;
        var row := RowFor(stack, normalize);
        if row.None? {
          return DivisionByZero;
        }
        rows := rows[stack := row.value];
        keys := keys - {stack};
      }
      report := Table(rows);
    }
  }

  predicate RowIs(row: Row, counts: Counts, total1: real, total2: real, normalize: bool) {
    && !(normalize && total1 != total2 && total1 == 0.0)
    && row == RowOf(counts, total1, total2, normalize)
  }

  function RowOf(counts: Counts, total1: real, total2: real, normalize: bool): Row
    requires !(normalize && total1 != total2 && total1 == 0.0)
  {
    Row(if normalize && total1 != total2 then Scaled(OrZero(counts.one), total1, total2) else OrZero(counts.one),
        OrZero(counts.two))
  }

  function Difference(folded: map<string, Counts>, total1: real, total2: real, normalize: bool): Report {
    if folded != map[] && normalize && total1 != total2 && total1 == 0.0 then DivisionByZero
    else if folded == map[] then Table(map[])
    else Table(map k | k in folded :: RowOf(folded[k], total1, total2, normalize))
  }

  /** What a row says of the counts: as they are, or the first one scaled to the second total and
      brought down to the next whole number. */
  predicate RowMeans(row: Row, one: real, two: real, total1: real, total2: real, normalize: bool)
    requires normalize && total1 != total2 ==> total1 > 0.0
  {
    && row.two == two
    && if !normalize || total1 == total2 then row.one == one
       else row.one == row.one.Floor as real && row.one <= one * total2 / total1 < row.one + 1.0
  }

  lemma RowOfMeans(counts: Counts, total1: real, total2: real, normalize: bool)
    requires normalize && total1 != total2 ==> total1 > 0.0
    requires OrZero(counts.one) >= 0.0 && total2 >= 0.0
    ensures RowMeans(RowOf(counts, total1, total2, normalize), OrZero(counts.one), OrZero(counts.two),
                     total1, total2, normalize)
  {
    if normalize && total1 != total2 {
      ShareKeepsOrder(0.0, OrZero(counts.one), total1, total2);
      assert Share(OrZero(counts.one), total1, total2) >= 0.0;
    }
  }

  /** For any two files: it divides by zero exactly if it normalises a first file of no samples to a
      second one of some; or else there is a row for every stack of either file, which says what it
      was counted for. */
  lemma RowsByCounts(folded: map<string, Counts>, file1: seq<Line>, file2: seq<Line>, normalize: bool)
    requires Holds(folded, file1, file2) && NonNegative(file1) && NonNegative(file2)
    ensures var total1, total2 := TotalOf(file1), TotalOf(file2);
            match Difference(folded, total1, total2, normalize)
            case DivisionByZero => normalize && total1 == 0.0 && total2 > 0.0
            case Table(rows) =>
              && !(normalize && total1 == 0.0 && total2 > 0.0)
              && (forall k :: k in rows <==> exists line :: (line in file1 || line in file2) && line.stack == k)
              && (forall k :: k in rows ==>
                    && (normalize && total1 != total2 ==> total1 > 0.0)
                    && RowMeans(rows[k], OrZero(CountedFor(file1, k)), OrZero(CountedFor(file2, k)),
                                total1, total2, normalize))
  {
    hide RowOf, RowMeans, Sum, InFirst;
    var total1, total2 := TotalOf(file1), TotalOf(file2);
    TotalsSaySomeStack(folded, file1, file2);
    match Difference(folded, total1, total2, normalize)
    case DivisionByZero =>
    case Table(rows) =>
      forall k ensures k in rows <==> exists line :: (line in file1 || line in file2) && line.stack == k {
        CountsAreNonNegative(file1, k);
        CountsAreNonNegative(file2, k);
        assert CountsAt(folded, k) == Counts(CountedFor(file1, k), CountedFor(file2, k));
      }
      forall k | k in rows
        ensures normalize && total1 != total2 ==> total1 > 0.0
        ensures RowMeans(rows[k], OrZero(CountedFor(file1, k)), OrZero(CountedFor(file2, k)), total1, total2, normalize)
      {
        assert CountsAt(folded, k) == folded[k];
        RowOfMeans(folded[k], total1, total2, normalize);
      }
  }

  /** What the counts and totals are: they add up over the lines, and of one line are its own. */
  lemma {:induction false} CountsApart(a: seq<Line>, b: seq<Line>, line: Line, stack: string)
    ensures OrZero(CountedFor(a + b, stack)) == OrZero(CountedFor(a, stack)) + OrZero(CountedFor(b, stack))
    ensures TotalOf(a + b) == TotalOf(a) + TotalOf(b) && TotalOf([line]) == line.count
    ensures CountedFor([line], stack) == if line.stack == stack then Some(line.count) else None
    decreases |b|
  {
    if b == [] {
      assert a + b == a;
    } else {
      assert (a + b)[..|a + b| - 1] == a + b[..|b| - 1];
      CountsApart(a, b[..|b| - 1], line, stack);
    }
    assert [line][..0] == [];
  }

  // ----- Sums of the columns -----

  function FirstCount(stack: string, c: Counts): real { OrZero(c.one) }

  function SecondCount(stack: string, c: Counts): real { OrZero(c.two) }

  function FirstColumn(stack: string, r: Row): real { r.one }

  function SecondColumn(stack: string, r: Row): real { r.two }

  function WithFirst(folded: map<string, Counts>, lines: seq<Line>): map<string, Counts> {
    if lines == [] then folded
    else
      var before, last := WithFirst(folded, lines[..|lines| - 1]), lines[|lines| - 1];
      var counts := CountsAt(before, last.stack);
      before[last.stack := counts.(one := Some(OrZero(counts.one) + last.count))]
  }

  function WithSecond(folded: map<string, Counts>, lines: seq<Line>): map<string, Counts> {
    if lines == [] then folded
    else
      var before, last := WithSecond(folded, lines[..|lines| - 1]), lines[|lines| - 1];
      var counts := CountsAt(before, last.stack);
      before[last.stack := counts.(two := Some(OrZero(counts.two) + last.count))]
  }

  lemma {:induction false} WithFirstAddsUp(lines: seq<Line>)
    ensures Holds(WithFirst(map[], lines), lines, [])
    ensures Sum(WithFirst(map[], lines), FirstCount) == TotalOf(lines)
    ensures Sum(WithFirst(map[], lines), SecondCount) == 0.0
    decreases |lines|
  {
    if lines != [] {
      WithFirstAddsUp(lines[..|lines| - 1]);
      var before, last := WithFirst(map[], lines[..|lines| - 1]), lines[|lines| - 1];
      var counts := CountsAt(before, last.stack);
      var counts' := counts.(one := Some(OrZero(counts.one) + last.count));
      SumUpdate(before, FirstCount, last.stack, counts');
      SumUpdate(before, SecondCount, last.stack, counts');
    }
  }

  lemma {:induction false} WithSecondAddsUp(folded: map<string, Counts>, file1: seq<Line>, lines: seq<Line>)
    requires Holds(folded, file1, []) && Sum(folded, SecondCount) == 0.0
    ensures Holds(WithSecond(folded, lines), file1, lines)
    ensures Sum(WithSecond(folded, lines), FirstCount) == Sum(folded, FirstCount)
    ensures Sum(WithSecond(folded, lines), SecondCount) == TotalOf(lines)
    decreases |lines|
  {
    hide Sum;
    if lines != [] {
      WithSecondAddsUp(folded, file1, lines[..|lines| - 1]);
      var before, last := WithSecond(folded, lines[..|lines| - 1]), lines[|lines| - 1];
      var counts := CountsAt(before, last.stack);
      var counts' := counts.(two := Some(OrZero(counts.two) + last.count));
      SumUpdate(before, FirstCount, last.stack, counts');
      SumUpdate(before, SecondCount, last.stack, counts');
    }
  }

  lemma HoldsIsUnique(a: map<string, Counts>, b: map<string, Counts>, file1: seq<Line>, file2: seq<Line>)
    requires Holds(a, file1, file2) && Holds(b, file1, file2)
    ensures a == b
  {
    forall k ensures k in a <==> k in b {
      assert CountsAt(a, k) == CountsAt(b, k);
    }
    forall k | k in a ensures a[k] == b[k] {
      assert CountsAt(a, k) == CountsAt(b, k);
    }
  }

  /** The counts of a file's stacks add up to its total. */
  lemma CountsAddUp(folded: map<string, Counts>, file1: seq<Line>, file2: seq<Line>)
    requires Holds(folded, file1, file2)
    ensures Sum(folded, FirstCount) == TotalOf(file1)
    ensures Sum(folded, SecondCount) == TotalOf(file2)
  {
    hide Holds;
    WithFirstAddsUp(file1);
    WithSecondAddsUp(WithFirst(map[], file1), file1, file2);
    HoldsIsUnique(folded, WithSecond(WithFirst(map[], file1), file2), file1, file2);
  }

  // ----- Scaling -----

  /** What a count would scale to without truncation. */
  function Share(count: real, total1: real, total2: real): real
    requires total1 != 0.0
  {
    count * total2 / total1
  }

  lemma ScaledIsMonotone(a: real, b: real, total1: real, total2: real)
    requires 0.0 <= a <= b && total1 > 0.0 && total2 >= 0.0
    ensures 0.0 <= Scaled(a, total1, total2) <= Scaled(b, total1, total2)
  {
    ShareKeepsOrder(0.0, a, total1, total2);
    ShareKeepsOrder(a, b, total1, total2);
    assert Share(a, total1, total2).Floor <= Share(b, total1, total2).Floor;
  }

  lemma ShareKeepsOrder(a: real, b: real, total1: real, total2: real)
    requires a <= b && total1 > 0.0 && total2 >= 0.0
    ensures Share(a, total1, total2) <= Share(b, total1, total2)
    ensures Share(0.0, total1, total2) == 0.0
  {
    assert a * total2 <= b * total2;
    QuotientKeepsOrder(a * total2, b * total2, total1);
    assert 0.0 * total2 == 0.0;
  }

  lemma QuotientKeepsOrder(a: real, b: real, d: real)
    requires a <= b && d > 0.0
    ensures a / d <= b / d
  {
  }

  lemma ShareAddsUp(a: real, b: real, total1: real, total2: real)
    requires total1 != 0.0
    ensures Share(a + b, total1, total2) == Share(a, total1, total2) + Share(b, total1, total2)
    ensures Share(total1, total1, total2) == total2
  {
    assert (a + b) * total2 == a * total2 + b * total2;
  }

  ghost function ShareOf(total1: real, total2: real): (string, Counts) -> real
    requires total1 != 0.0
  {
    (stack, c: Counts) => Share(OrZero(c.one), total1, total2)
  }

  function InFirst(folded: map<string, Counts>): set<string> {
    set k | k in folded && folded[k].one.Some?
  }

  ghost predicate Truncated(folded: map<string, Counts>, rows: map<string, Row>, total1: real, total2: real)
    requires total1 != 0.0
  {
    && rows.Keys == folded.Keys
    && (forall k :: k in folded ==> OrZero(folded[k].one) >= 0.0)
    && (forall k :: k in folded ==> rows[k].one == Scaled(OrZero(folded[k].one), total1, total2))
  }

  ghost predicate IsWhole(c: Counts, total1: real, total2: real)
    requires total1 != 0.0
  {
    var share := Share(OrZero(c.one), total1, total2);
    share == share.Floor as real
  }

  lemma ShareOfStack(stack: string, c: Counts, total1: real, total2: real)
    requires total1 != 0.0
    ensures ShareOf(total1, total2)(stack, c) == Share(OrZero(c.one), total1, total2)
  {
  }

  lemma {:induction false} SharesAddUp(folded: map<string, Counts>, total1: real, total2: real)
    requires total1 != 0.0
    ensures Sum(folded, ShareOf(total1, total2)) == Share(Sum(folded, FirstCount), total1, total2)
    decreases |folded|
  {
    hide Share, ShareOf, Sum;
    if folded == map[] {
      SumOfNothing(ShareOf(total1, total2));
      SumOfNothing(FirstCount);
      ShareAddsUp(0.0, 0.0, total1, total2);
    } else {
      var k :| k in folded;
      SumTakeOut(folded, ShareOf(total1, total2), k);
      SumTakeOut(folded, FirstCount, k);
      ShareOfStack(k, folded[k], total1, total2);
      SharesAddUp(folded - {k}, total1, total2);
      ShareAddsUp(OrZero(folded[k].one), Sum(folded - {k}, FirstCount), total1, total2);
    }
  }

  /** What truncation takes from one stack. */
  lemma OneLoss(c: Counts, total1: real, total2: real)
    requires OrZero(c.one) >= 0.0 && total1 > 0.0 && total2 >= 0.0
    ensures var loss := Share(OrZero(c.one), total1, total2) - Scaled(OrZero(c.one), total1, total2);
            && 0.0 <= loss < 1.0
            && (c.one.None? ==> loss == 0.0)
            && (loss == 0.0 <==> IsWhole(c, total1, total2))
  {
    ShareKeepsOrder(0.0, OrZero(c.one), total1, total2);
  }

  ghost predicate AllWhole(folded: map<string, Counts>, total1: real, total2: real)
    requires total1 != 0.0
  {
    forall k :: k in folded ==> IsWhole(folded[k], total1, total2)
  }

  lemma TakeOutStack(folded: map<string, Counts>, rows: map<string, Row>, k: string, total1: real, total2: real)
    requires total1 != 0.0 && k in folded && Truncated(folded, rows, total1, total2)
    ensures Truncated(folded - {k}, rows - {k}, total1, total2)
    ensures OrZero(folded[k].one) >= 0.0 && rows[k].one == Scaled(OrZero(folded[k].one), total1, total2)
    ensures |InFirst(folded)| == |InFirst(folded - {k})| + if folded[k].one.Some? then 1 else 0
    ensures AllWhole(folded, total1, total2) <==>
              IsWhole(folded[k], total1, total2) && AllWhole(folded - {k}, total1, total2)
  {
    hide Scaled, IsWhole;
    var rest := folded - {k};
    assert InFirst(folded) == InFirst(rest) + (if folded[k].one.Some? then {k} else {});
    forall j | j in folded && IsWhole(folded[k], total1, total2) && AllWhole(rest, total1, total2)
      ensures IsWhole(folded[j], total1, total2)
    {
      if j != k {
        assert j in rest && rest[j] == folded[j];
      }
    }
  }

  lemma {:induction false} ColumnLoss(folded: map<string, Counts>, rows: map<string, Row>, total1: real, total2: real)
    requires total1 > 0.0 && total2 >= 0.0 && Truncated(folded, rows, total1, total2)
    ensures var loss := Sum(folded, ShareOf(total1, total2)) - Sum(rows, FirstColumn);
            && 0.0 <= loss <= |InFirst(folded)| as real
            && (|InFirst(folded)| > 0 ==> loss < |InFirst(folded)| as real)
            && (loss == 0.0 <==> AllWhole(folded, total1, total2))
    decreases |folded|
  {
    hide Share, ShareOf, Scaled, IsWhole, Sum, InFirst, AllWhole, Truncated;
    if folded == map[] {
      NothingLost(rows, total1, total2);
    } else {
      var k :| k in folded;
      TakeOutStack(folded, rows, k, total1, total2);
      SameStacks(folded, rows, total1, total2);
      SumTakeOut(folded, ShareOf(total1, total2), k);
      SumTakeOut(rows, FirstColumn, k);
      ShareOfStack(k, folded[k], total1, total2);
      OneLoss(folded[k], total1, total2);
      ColumnLoss(folded - {k}, rows - {k}, total1, total2);
    }
  }

  lemma SameStacks(folded: map<string, Counts>, rows: map<string, Row>, total1: real, total2: real)
    requires total1 != 0.0 && Truncated(folded, rows, total1, total2)
    ensures rows.Keys == folded.Keys
  {
  }

  lemma NothingLost(rows: map<string, Row>, total1: real, total2: real)
    requires total1 != 0.0 && Truncated(map[], rows, total1, total2)
    ensures Sum(map[], ShareOf(total1, total2)) == 0.0 == Sum(rows, FirstColumn)
    ensures |InFirst(map[])| == 0 && AllWhole(map[], total1, total2)
  {
    assert rows == map[];
    assert InFirst(map[]) == {};
    SumOfNothing(ShareOf(total1, total2));
    SumOfNothing(FirstColumn);
  }

  lemma {:induction false} SecondColumnSum(folded: map<string, Counts>, rows: map<string, Row>)
    requires rows.Keys == folded.Keys && forall k :: k in folded ==> rows[k].two == OrZero(folded[k].two)
    ensures Sum(rows, SecondColumn) == Sum(folded, SecondCount)
    decreases |folded|
  {
    if folded == map[] {
      assert rows == map[];
    } else {
      var k :| k in folded;
      SumTakeOut(folded, SecondCount, k);
      SumTakeOut(rows, SecondColumn, k);
      SecondColumnSum(folded - {k}, rows - {k});
    }
  }

  lemma {:induction false} FirstColumnSum(folded: map<string, Counts>, rows: map<string, Row>)
    requires rows.Keys == folded.Keys && forall k :: k in folded ==> rows[k].one == OrZero(folded[k].one)
    ensures Sum(rows, FirstColumn) == Sum(folded, FirstCount)
    decreases |folded|
  {
    if folded == map[] {
      assert rows == map[];
    } else {
      var k :| k in folded;
      SumTakeOut(folded, FirstCount, k);
      SumTakeOut(rows, FirstColumn, k);
      FirstColumnSum(folded - {k}, rows - {k});
    }
  }

  lemma {:induction false} CountsAreNonNegative(lines: seq<Line>, stack: string)
    requires NonNegative(lines)
    ensures OrZero(CountedFor(lines, stack)) >= 0.0 && TotalOf(lines) >= 0.0
    ensures CountedFor(lines, stack).Some? <==> exists line :: line in lines && line.stack == stack
    decreases |lines|
  {
    if lines != [] {
      var init, last := lines[..|lines| - 1], lines[|lines| - 1];
      assert lines == init + [last];
      CountsAreNonNegative(init, stack);
    }
  }

  /** The two columns of any difference, normalised or not. */
  lemma ColumnsAddUp(folded: map<string, Counts>, file1: seq<Line>, file2: seq<Line>, normalize: bool)
    requires Holds(folded, file1, file2) && NonNegative(file1) && NonNegative(file2)
    ensures var total1, total2 := TotalOf(file1), TotalOf(file2);
            match Difference(folded, total1, total2, normalize)
            case DivisionByZero => normalize && total1 == 0.0 && total2 > 0.0
            case Table(rows) =>
              && rows.Keys == folded.Keys
              && Sum(rows, SecondColumn) == total2
              && (!normalize || total1 == total2 ==> Sum(rows, FirstColumn) == total1)
              && (normalize && total1 != total2 ==>
                  && total1 > 0.0
                  && total2 - |InFirst(folded)| as real < Sum(rows, FirstColumn) <= total2
                  && (Sum(rows, FirstColumn) == total2 <==> AllWhole(folded, total1, total2)))
  {
    hide Holds, Sum, IsWhole, Share, InFirst, AllWhole;
    var total1, total2 := TotalOf(file1), TotalOf(file2);
    CountsAddUp(folded, file1, file2);
    TotalsSaySomeStack(folded, file1, file2);
    match Difference(folded, total1, total2, normalize)
    case DivisionByZero =>
    case Table(rows) =>
      SecondColumnSum(folded, rows);
      if normalize && total1 != total2 {
        NormalizedColumn(folded, rows, file1, file2);
      } else {
        FirstColumnSum(folded, rows);
      }
  }

  lemma TotalsSaySomeStack(folded: map<string, Counts>, file1: seq<Line>, file2: seq<Line>)
    requires Holds(folded, file1, file2) && NonNegative(file1) && NonNegative(file2)
    ensures TotalOf(file1) >= 0.0 && TotalOf(file2) >= 0.0
    ensures folded == map[] ==> TotalOf(file1) == TotalOf(file2) == 0.0
    ensures TotalOf(file1) > 0.0 ==> |InFirst(folded)| > 0
    ensures forall k :: k in folded ==> OrZero(folded[k].one) >= 0.0
  {
    hide Sum;
    CountsAreNonNegative(file1, "");
    CountsAreNonNegative(file2, "");
    CountsAddUp(folded, file1, file2);
    if folded == map[] {
      SumOfNothing(FirstCount);
      SumOfNothing(SecondCount);
    }
    if InFirst(folded) == {} {
      NothingInFirst(folded);
    }
    forall k | k in folded ensures OrZero(folded[k].one) >= 0.0 {
      CountsAreNonNegative(file1, k);
      assert CountsAt(folded, k) == folded[k];
    }
  }

  lemma {:induction false} NothingInFirst(folded: map<string, Counts>)
    requires InFirst(folded) == {}
    ensures Sum(folded, FirstCount) == 0.0
    decreases |folded|
  {
    if folded != map[] {
      var k :| k in folded;
      assert k !in InFirst(folded);
      SumTakeOut(folded, FirstCount, k);
      assert InFirst(folded - {k}) <= InFirst(folded);
      NothingInFirst(folded - {k});
    }
  }

  lemma NormalizedColumn(folded: map<string, Counts>, rows: map<string, Row>, file1: seq<Line>, file2: seq<Line>)
    requires Holds(folded, file1, file2) && NonNegative(file1) && NonNegative(file2) && TotalOf(file1) > 0.0
    requires Truncated(folded, rows, TotalOf(file1), TotalOf(file2))
    ensures var total2 := TotalOf(file2);
            && total2 - |InFirst(folded)| as real < Sum(rows, FirstColumn) <= total2
            && (Sum(rows, FirstColumn) == total2 <==> AllWhole(folded, TotalOf(file1), total2))
  {
    hide Holds, Sum, IsWhole, Share, InFirst, AllWhole, Truncated;
    var total1, total2 := TotalOf(file1), TotalOf(file2);
    TotalsSaySomeStack(folded, file1, file2);
    CountsAddUp(folded, file1, file2);
    SharesAddUp(folded, total1, total2);
    ShareAddsUp(total1, 0.0, total1, total2);
    ColumnLoss(folded, rows, total1, total2);
  }
}
