# Verified models of the ring, the flame graphs, the stores and the stroke machine

Dafny models of the parts of this repository that carry its logic, and proofs about them. The
programs themselves are in Rust, Perl, awk and Python; nothing here runs them.

| part | source | files |
|---|---|---|
| machine words, optional values, sums over maps, intervals and lengths | | `Words`, `Options`, `MapSums`, `Intervals` |
| the shared-memory ring | `shared-ipc` | `Events`, `RingMachine` (step machine), `RingWords` (64-bit counters), `RingCalls` (whole calls), `RingObjects` (the handles as objects), `RingDrivers` (the benchmark drivers), `RingHazard` (where the promise ends) |
| the flame graph | `FlameGraph/flamegraph.pl` | `FlameMerge` (the program), `FlameShapes`, `FlameWidths` and `FlameExact` (conservation), `FlameFrames` and `FlameNodes` (the nodes, described by position), `FlameNesting` (shape, any counts), `FlameLaminar` (shape, positive counts), `FlameDeltas`, `FlameDeltaTotals` and `FlameNodeDeltas`, `FlameSearch`, `FlameDraw` |
| the collapsers and the difference | `FlameGraph/stackcollapse-*`, `difffolded.pl` | `SampleStacks`, `SampleFlame`, `ChromePaths`, `ChromeStacks`, `ChromeTimes` and `ChromeChains` (events that overlap too), `DiffFolded` |
| the key-value store | `chronos/src` | `ChronosText`, `ChronosParser`, `ChronosLog` (the log), `ChronosRuns` (all runs with stops), `ChronosLedger` (also stops inside a record), `ChronosServer` (the objects), `ChronosTimeline` (the timestamped log of `mvp_check.rs`) |
| the stroke state machines | `celer/src/main.rs` | `Celer`, `CelerStrokes` (what is broadcast, told by the events alone), `CelerPipeline` (behind the ring) |

Code that updates state in place is a class whose methods are proved equal to a function of the
old state; what the code promises is then proved about that function.

## Assumptions

- Times, counts, coordinates and widths are exact reals (integers where the program reads
  integers); binary rounding is not modelled. Speeds are compared and reported as squares.
- Ring: memory starts zeroed and both handles attach fresh. Every load, slot access and store is
  a step of its own; the two sides interleave freely; an acquire load may return any value the
  counter has had since the handle last observed it. Pushes do not overlap one another (the type's
  own safety note). `usize` has 64 bits.
- Flame graph: names have no `;`, which is where stacks are split, so the composite string keys of
  the two hashes are tuples. Lines arrive parsed. Drawn positions are printed with one decimal, rounded to the nearest tenth
  with ties either way; the search reads what was printed, on a graph that is not zoomed.
- Store: writes succeed, `rename` is atomic, text is valid UTF-8, one read returns one message.
  Every command holds the lock for its whole length.
- Sample collapser: every line's indentation gives a whole nesting level.
- Trace collapser: events of one thread, in the order the sort leaves them.

## What the proofs found

- **Merge, zero counts.** The merge conserves counts only while no zero-width stack closes a frame
  of the same name and depth at the same instant: the second node takes over the first one's key
  and its width is lost. `FlameExact.MergeConservesUnlessOverwritten` gives the exact condition,
  `ZeroCountLosesWidth` an input (a differential profile whose second column holds a zero).
- **Merge, deltas.** A stack's delta goes with the innermost frame it opens. It is lost if the stack
  opens none, being a beginning of the one before, and if the frame's node is overwritten by a later
  frame with a delta of the same name, depth and closing time. Those are the only two ways
  (`FlameDeltaTotals.MergeConservesDeltasIff`); a zero in the second column, as `difffolded.pl`
  writes it for stacks of the first file only, is enough for the second
  (`FlameDeltaTotals.ZeroCountOverwritesDelta`).
- **Merge, parents.** With zero counts a node of positive width loses its parent, and pruning by a
  positive width keeps it although its parent is gone, exactly if the frame around it was overwritten
  (`FlameNodes.KeptParentIffFrameAroundIsLeft`). Nodes still nest or lie apart, so the search is
  exact all the same (`FlameDraw.SearchOfDrawnProfile`).
- **Search.** The fudge of 0.0001 pixel would count too much exactly if a match started strictly inside
  a maximal one within the fudge of its end (`FlameSearch.TallyIsUnionLengthUnlessLate`). Printed
  positions are tenths of a pixel, so it never does.
- **Store, commas in keys.** The parser accepts a comma in a key and the log does not: replay gives
  back what was written exactly if no key has one (`ChronosLog.ReplayIsFaithfulIffNoCommas`), and a
  set of keys is served through restarts exactly if none has one (`ChronosRuns.ServesIffNoCommas`).
- **Store, other characters.** Any record, written alone, is read back as it was exactly if it has no
  line feed, its key no comma and its value no carriage return at the end
  (`ChronosLog.RecordSurvivesIff`). Requests only ever bring the comma.
- **Store, the tombstone text.** A value equal to the tombstone text reads as absent
  (`ChronosRuns.StoreAnswersAsPlainMap` has it as its one exception).
- **Store, appending after a cut.** After a stop in the middle of a record the next record is glued
  to it, and is lost except in the cases listed by `ChronosLog.NextRecordSurvivesIff`. What every
  later request is answered is given by `ChronosLedger.StoreAnswersFromLedger`.
- **Store, compaction elsewhere.** An engine opened on another path writes to `chronos_v3.db`
  after its first compaction (`ChronosServer.Engine.Compact`). `chronos/README.md` says that
  compaction prunes deleted entries and speaks of sorted tables and Bloom filters; the code keeps
  tombstones and has neither of the others. The model follows the code.
- **Ring, stale clones.** With cloned handles the ring keeps its promise as long as every push
  starts below a bound of completed pushes exactly if the bound is at most 2^64
  (`RingHazard.FifoIffBelowWord`), and past that as long as whichever handle pushes has refreshed
  its copy of tail within the last 2^64 pushes (`RingWords.RingIsFifoWithinWord`).
- **Sample collapser, ignored names.** Which nodes are hidden depends on the last leaf below them,
  so the order of the callees decides whether a caller's own time is printed
  (`SampleStacks.WaitingLastHidesTheCaller`). All nodes are printed exactly if no leaf is ignored
  (`SampleStacks.AllPrintedIffNoLeafIgnored`).
- **Sample collapser, other lines.** Frames before the call graph and after its total print nothing, but
  a total line that is not the graph's own prints blank paths, unless the empty name is ignored
  (`SampleStacks.PrintsOnlyTheGraph`). A first frame that is indented too far gives its caller, which has
  no line, a time below zero (`SampleStacks.SkippedLevels`).
- **Trace collapser, overlapping events.** Recorded times are the innermost times exactly when the
  events are nested (`ChromeTimes.OwnTimesIffNested`). What is recorded for events that overlap is
  given by `ChromeChains.RecordedOnPaths` and `ChromeChains.RecordedTimes`: an event that has stopped
  goes on being on the path while a later one above it still runs.
- **Trace collapser, semicolons.** A path can be read off its identifier exactly if no name on it has a
  semicolon (`ChromePaths.PathComesBackIffPlain`).
- **Celer, shared slots.** Sessions can disturb one another exactly if they are equal modulo 65536
  (`Celer.InterferenceIffSlotShared`, `Celer.AllIsolatedIffSlotsDistinct`).

## Model

| member | source | states |
|---|---|---|
| RingMachine.Index | shared-ipc/src/lib.rs:15 | Masking a counter with the index mask is its remainder modulo the capacity. |
| RingMachine.StepRefinesFifo | shared-ipc/src/lib.rs:95-159 | Every single load, slot access and store, in any interleaving, is a step of a bounded FIFO queue; a push that reloads the current tail fails exactly if the ring is full, a pop that reloads the current head exactly if it is empty. |
| RingMachine.WriterNeverTouchesUnreadSlot | shared-ipc/src/lib.rs:107-109 | The slot a push is about to write or has just written holds no unread event, so it is never the one the consumer may be reading. |
| RingMachine.RunRefinesFifo | shared-ipc/src/lib.rs:95-159 | Over any run, queued then pushed events are popped then still queued events, in order. |
| RingWords.StepRefinesUnbounded | shared-ipc/src/lib.rs:98-109 | With wrapping subtraction and increment and mask indexing, every step over 64-bit words is matched by a step over unbounded counters with the same result. |
| RingWords.RunRefinesUnbounded | shared-ipc/src/lib.rs:95-159 | Every run over words, of any length and past any number of wraps, in which the pushing handle's copy of tail is less than 2^64 behind, is a run over unbounded counters with the same results. |
| RingWords.RingIsFifoWithinWord | shared-ipc/src/lib.rs:81-160 | So with any number of handles, as long as whichever handle pushes is within a word: first-in-first-out, never more than the capacity unread, no slot clash. |
| RingWords.RingIsFifo | shared-ipc/src/lib.rs:81-160 | From zeroed memory, in every interleaving, with stale loads, over words: popped events are a prefix of pushed events, never more than 131072 are unread, no slot clash; for one handle without bound, and for any number of clones while pushes start below 2^64. |
| RingWords.FreshReloadTellsTruth | shared-ipc/src/lib.rs:100-105 | On any such run, a push that reloads the current tail fails exactly if a full capacity of events is unread; likewise pop and empty. |
| RingCalls.PushIsRun | shared-ipc/src/lib.rs:95-112 | A whole undisturbed push is a run of the step machine, and pushes its event exactly if it succeeds. |
| RingCalls.PopIsRun | shared-ipc/src/lib.rs:139-159 | The same for a whole undisturbed pop. |
| RingObjects.AegisProducer.Push | shared-ipc/src/lib.rs:95-112 | The method on shared memory leaves exactly the state, and returns the result, of the machine's push. |
| RingObjects.AegisProducer.Clone | shared-ipc/src/lib.rs:115-119 | A clone works on the same memory from the same cached tail; with both handles that is the clone step of the machine. |
| RingObjects.CelerConsumer.Pop | shared-ipc/src/lib.rs:139-159 | The method leaves exactly the state, and returns the event, of the machine's pop. |
| RingObjects.PushAppends | shared-ipc/src/lib.rs:95-112 | A whole push appends its event exactly if fewer than the capacity are queued and otherwise changes nothing that can be read; the handle's copy of tail becomes the tail exactly if it shows no room; over words it does the same. |
| RingObjects.PopTakesOldest | shared-ipc/src/lib.rs:139-159 | A whole pop takes the oldest event exactly if there is one; the copy of head becomes the head exactly if it shows no event; over words it does the same. |
| RingDrivers.BenchSingleThreaded | shared-ipc/examples/throughput.rs:44-66 | No `unwrap` of the alternating driver fails, and its checksum is n(n-1)/2 modulo 2^64. |
| RingDrivers.SpscDeliversInOrder | shared-ipc/examples/throughput.rs:88-121 | In every interleaving of the two threads, what has been received is the events 0, 1, 2, ... in order with their checksum; when the consumer stops, exactly 0..n-1 with checksum n(n-1)/2 modulo 2^64. |
| RingHazard.StaleCloneBreaksFifo | shared-ipc/src/lib.rs:115-119 | One push more than 2^64 with a clone never refreshed leads to a run that is not FIFO. |
| RingHazard.FifoIffBelowWord | shared-ipc/src/lib.rs:98-119 | For every bound: all runs whose pushes start below that many completed ones are FIFO, whatever the clones, exactly if the bound is at most 2^64. |
| FlameMerge.FlameGraph.Flow | FlameGraph/flamegraph.pl:598-632 | Merging a stack changes the two hashes exactly as closing the frames that end, innermost first, and opening those that begin. |
| FlameMerge.FlameGraph.MergeLines | FlameGraph/flamegraph.pl:673-719 | The merge loop and its closing call leave the merged state, and the time is the sum of the counts. |
| FlameMerge.FlameGraph.Prune | FlameGraph/flamegraph.pl:757-767 | In any order of visits: dies exactly if a node has no start; else leaves exactly the nodes whose end is at least the minimum width after their start, unchanged, and finds their greatest depth. |
| FlameNodes.NodesAreFramesLeft | FlameGraph/flamegraph.pl:598-632 | For counts that are not negative, in any order: the merge leaves a node exactly for every frame of the input (opened at one stack, closed after another) such that no later one of its name and depth closes at the same time, from the time it opens to the time it closes. |
| FlameNodes.EnclosingFrame | FlameGraph/flamegraph.pl:603-610 | Every frame below the root is opened and closed inside a frame one level out. |
| FlameNodes.ParentIffFrameAroundIsLeft | FlameGraph/flamegraph.pl:612-629 | A node of positive width lies in a node one level out exactly if the node of the frame around it is left. |
| FlameNodes.KeptParentIffFrameAroundIsLeft | FlameGraph/flamegraph.pl:757-767 | The same after pruning by any positive width. |
| FlameNesting.MergeNests | FlameGraph/flamegraph.pl:612-629 | For counts that are not negative, in any order: every close finds its start, no frame stays open, any two nodes nest or lie apart, the one root is [0, total). |
| FlameNesting.PruningKeepsTree | FlameGraph/flamegraph.pl:757-767 | Pruning keeps that. |
| FlameLaminar.MergeIsLaminar | FlameGraph/flamegraph.pl:612-629 | With positive counts, in any order: every close finds its start, no frame stays open, intervals are not empty, those of one depth are disjoint, each below the root lies in one a level out, the one root is [0, total). |
| FlameLaminar.ParentIsUnique | FlameGraph/flamegraph.pl:612-629 | No node has two parents. |
| FlameLaminar.NestedOrApart | FlameGraph/flamegraph.pl:612-629 | Any two nodes, whatever their depths, are apart or one lies in the other. |
| FlameLaminar.PruningKeepsLaminar | FlameGraph/flamegraph.pl:757-767 | Pruning by width never keeps a node whose parent it drops; what is left is laminar again with the same parents. |
| FlameExact.MergeConservesCounts | FlameGraph/flamegraph.pl:673-719 | With positive counts, in any order, for every name and depth, the summed widths of the merged nodes are the summed counts of the stacks with that name there. |
| FlameExact.MergeConservesUnlessOverwritten | FlameGraph/flamegraph.pl:616-618 | With counts that may be zero, the widths never exceed the counts, and equal them exactly if no node is overwritten by a later one of the same key. |
| FlameExact.ZeroCountLosesWidth | FlameGraph/flamegraph.pl:683-691 | A differential profile with a zero in its second column whose merge loses width. |
| FlameDeltas.MergedDeltasAt | FlameGraph/flamegraph.pl:616-628 | For counts that are not negative, in any order, for every name and depth: the deltas of the merged nodes there sum to those of the stacks whose innermost frame it is, less those that open no frame and those whose node is overwritten, by position, by a later frame with a delta that closes at the same time. |
| FlameDeltaTotals.MergedDeltasArrive | FlameGraph/flamegraph.pl:616-628 | The same for all names and depths together. |
| FlameDeltaTotals.MergeConservesDeltasIff | FlameGraph/flamegraph.pl:683-693 | Whatever the first column is, the merge keeps the sum of the deltas, exactly if every stack with two columns opens a frame of its own that is not overwritten. |
| FlameDeltaTotals.ZeroCountOverwritesDelta | FlameGraph/flamegraph.pl:616-619 | Three stacks of which the first loses its delta to the third. |
| FlameNodeDeltas.NodeDeltaIsLastGiven | FlameGraph/flamegraph.pl:616-628 | For counts that are not negative, in any order: a merged node has a delta exactly if some frame of its name and depth that ended when it ends was opened by a stack with two columns; then it is what the last such stack gives there, second column less first at its innermost frame and zero further out. |
| Intervals.LengthIsUnique | FlameGraph/flamegraph.pl:1165-1191 | The length of a set of points, as the sum of intervals that do not overlap and cover exactly it, is one number: what the search and the trace collapser are measured against. |
| FlameSearch.TallyIsUnionLengthUnlessLate | FlameGraph/flamegraph.pl:1165-1191 | On nested rectangles, empty ones included, the one pass over the starts with the widest rectangle per start never counts less than the length of their union, and exactly that if and only if none starts strictly inside a maximal one within the fudge of its end. |
| FlameSearch.NothingLateOnTenths | FlameGraph/flamegraph.pl:1182-1186 | At tenths of a pixel none does. |
| FlameSearch.Remember | FlameGraph/flamegraph.pl:1124-1155 | The scan finds the greatest width and, for every x of a match, the widest match there. |
| FlameSearch.CountWidths | FlameGraph/flamegraph.pl:1166-1191 | Stepping through the keys in ascending order counts the tally over the widest match at every x. |
| FlameSearch.Search | FlameGraph/flamegraph.pl:1118-1196 | Nothing is shown if nothing ever matched, NaN if no rectangle has a width, else 100 times the tally over the greatest width; and if matches nest and none starts late, the tally is the length of the set of points under some matching rectangle. |
| FlameDraw.EndOfBox | FlameGraph/flamegraph.pl:335-339 | A rectangle ends, as printed, where its second end is printed: rounding the width adds nothing. |
| FlameDraw.DrawnIsNested | FlameGraph/flamegraph.pl:1217-1225 | Scaling and printing keep nodes nested or apart, on the canvas and at tenths, zero widths included. |
| FlameDraw.SearchOfDrawnProfile | FlameGraph/flamegraph.pl:1179-1181 | For every profile whose counts are not negative, in any order, pruned by any width, drawn at any scale and printed: the search counts exactly the length of the set of points over which some node that is wide enough and hit is drawn, from 10 pixels plus its scaled start to 10 plus its scaled end, to the nearest tenths. |
| SampleStacks.Collapser.PrintStack | FlameGraph/stackcollapse-sample.awk:105-134 | The loop forgets the levels from deepest to shallowest and prints a path and time for each, or nothing if the deepest is ignored. |
| SampleStacks.Collapser.Line | FlameGraph/stackcollapse-sample.awk:89-230 | Each kind of input line changes the script's variables exactly as the line function says; what that function prints in and outside a graph is stated by the lemmas below. |
| SampleStacks.Collapser.Collapse | FlameGraph/stackcollapse-sample.awk:89-231 | On the report of any non-empty call forest the script prints the postorder list below; with any other lines before and after it, exactly if none of them is a total or the empty name is ignored. |
| SampleStacks.PrintsPostOrder | FlameGraph/stackcollapse-sample.awk:215-230 | The output is exactly the postorder list of root-to-node paths with the node's time less its callees' times, leaving out exactly the nodes whose last leaf is ignored. |
| SampleStacks.PrintsOnlyTheGraph | FlameGraph/stackcollapse-sample.awk:89-99 | For any lines without a call graph before and after the report of a non-empty forest: the output is the postorder list and nothing else exactly if none of them is a total or the empty name is ignored; frames there never matter. |
| SampleStacks.SkippedLevels | FlameGraph/stackcollapse-sample.awk:224-230 | A lone frame at any level below the root: what is printed for it, for its caller (minus its time) and for the levels above. |
| SampleStacks.PrintedTimeIsRootTime | FlameGraph/stackcollapse-sample.awk:225-227 | Printed times and left-out times sum to the root times; nothing is left out if no leaf is ignored. |
| SampleStacks.AllPrintedIffNoLeafIgnored | FlameGraph/stackcollapse-sample.awk:115 | Every node is printed exactly if no leaf has an ignored name. |
| SampleStacks.NoFramesPrintABlank | FlameGraph/stackcollapse-sample.awk:96-99 | A report without frames prints one line without name or time. |
| SampleStacks.WaitingLastHidesTheCaller | FlameGraph/stackcollapse-sample.awk:115 | The same calls in two orders: with the ignored one last, the caller's own time is not printed. |
| SampleFlame.FlameGraphShowsReportedTimes | FlameGraph/stackcollapse-sample.awk:215-230 | Collapsed and then merged in any order, every name at every depth gets at most the time the report gives it there, and exactly that time unless the merge overwrites a node. |
| SampleFlame.FlameGraphShowsTimesOfBusyCalls | FlameGraph/flamegraph.pl:673-719 | With positive self times, exactly the reported time, and a laminar family of nodes. |
| ChromeStacks.Collapser.SaveStack | FlameGraph/stackcollapse-chrome-tracing.py:91-109 | The dictionary gains the innermost event's remaining time under the joined names of the stack, which ChromePaths.JoinedApart says are in order, outermost first. |
| ChromePaths.JoinedApart | FlameGraph/stackcollapse-chrome-tracing.py:92-101 | An identifier is the names in order with a semicolon between any two. |
| ChromePaths.PathComesBackIffPlain | FlameGraph/stackcollapse-chrome-tracing.py:92-101 | Splitting an identifier at its semicolons gives the path back exactly if no name on the path has one. |
| ChromePaths.TextIsOnePath | FlameGraph/stackcollapse-chrome-tracing.py:92-101 | Every text is the identifier of exactly one path of names without semicolons. |
| ChromeStacks.DictionaryByPath | FlameGraph/stackcollapse-chrome-tracing.py:106-109 | If no name has a semicolon, an identifier gains the times recorded for the path that it spells. |
| ChromeStacks.Collapser.LoadStackIdentifiers | FlameGraph/stackcollapse-chrome-tracing.py:112-130 | On event objects updated in place, the dictionary ends as the old one with every record of the stack machine added; if no name has a semicolon, every identifier gains exactly the times recorded for the path that it spells, outermost name first, and is there if that path was recorded. |
| ChromeTimes.EachIsRecordedOnce | FlameGraph/stackcollapse-chrome-tracing.py:112-130 | Whatever the events, each is recorded exactly once. |
| ChromeTimes.RecordedIsRootTime | FlameGraph/stackcollapse-chrome-tracing.py:112-130 | For events sorted by start, nested or not, recorded times sum to the durations of the events that start when no earlier one still runs. |
| ChromeTimes.RootMeetsEmptyStack | FlameGraph/stackcollapse-chrome-tracing.py:115-123 | Those are exactly the events pushed onto an empty stack. |
| ChromeTimes.NestedEventsAreRecordedWell | FlameGraph/stackcollapse-chrome-tracing.py:118-125 | Nested events are recorded under the chain of events running when they start, with non-negative times that are the lengths of the moments at which they are innermost. |
| ChromeTimes.OwnTimesIffNested | FlameGraph/stackcollapse-chrome-tracing.py:118-125 | The recorded times are the innermost times exactly if of any two events the later starts after the earlier stopped or stops no later. |
| ChromeChains.StackIsWhatStays | FlameGraph/stackcollapse-chrome-tracing.py:118-125 | For any events sorted by start, overlapping as they may: an earlier event is on the stack when another comes exactly if, at the start of each event in between and of that one, it or a later one still runs. |
| ChromeChains.RecordedOnPaths | FlameGraph/stackcollapse-chrome-tracing.py:112-130 | Each event is recorded under the names of exactly those, in order, and then its own. |
| ChromeChains.RecordedTimes | FlameGraph/stackcollapse-chrome-tracing.py:122-123 | Each is recorded with its duration less the durations of exactly those events that have it as the last on their path before themselves. |
| ChromeStacks.DictionaryAddsUp | FlameGraph/stackcollapse-chrome-tracing.py:106-109 | An identifier gains what is recorded under it, whatever other threads left, and is there if anything was. |
| DiffFolded.Differ.ReadFirst | FlameGraph/difffolded.pl:89-95 | After the first file, every stack is counted for its lines there and the total is their sum. |
| DiffFolded.Differ.ReadSecond | FlameGraph/difffolded.pl:99-105 | The same for the second file, leaving the first counts alone. |
| DiffFolded.Differ.RowFor | FlameGraph/difffolded.pl:109-113 | Fills in, rescales and truncates one stack's counts; fails exactly if it has to divide by a zero total. |
| DiffFolded.Differ.Print | FlameGraph/difffolded.pl:108-115 | In any order of the stacks, the rows are those of the difference of the two files: one for every stack of either, with the second count as it is and the first as it is or, normalised, as the greatest whole number at most count times second total over first total; it divides by zero exactly if it normalises an empty first total to another. |
| DiffFolded.CountsAddUp | FlameGraph/difffolded.pl:93-104 | The counts of all stacks in a file sum to that file's total. |
| DiffFolded.CountsApart | FlameGraph/difffolded.pl:93-104 | Counts and totals add up over the lines, and those of one line are its own. |
| DiffFolded.RowsByCounts | FlameGraph/difffolded.pl:108-115 | For any two files, the rows and the case of division by zero, by the counts of each stack in each file. |
| DiffFolded.ScaledIsMonotone | FlameGraph/difffolded.pl:112 | Scaling a greater count never gives less. |
| DiffFolded.ColumnLoss | FlameGraph/difffolded.pl:112 | Truncation takes less than one from each stack of the first file, and nothing from the others. |
| DiffFolded.ColumnsAddUp | FlameGraph/difffolded.pl:108-115 | The second column sums to the second total; the first to the first total, or, normalised, to at most the second total and more than it less the number of stacks in the first file, and to it exactly if every scaled count is whole; division by zero happens only when normalising an empty first total. |
| ChronosText.WordsOfJoin | chronos/src/parser.rs:13-16 | Words joined by blanks split into the same words. |
| ChronosText.WordsApart | chronos/src/parser.rs:13 | What the words of a text are: none in the empty text; a text without white space is one word; any white character parts the words before it from those after it. |
| ChronosText.WhiteCodePoints | chronos/src/parser.rs:13 | White space is the 25 code points with the Unicode White_Space property. |
| ChronosText.JoinApart | chronos/src/parser.rs:16 | A joined text has a single blank between any two words. |
| ChronosParser.ParsedIsWellFormed | chronos/src/parser.rs:12-23 | Keys are single words and values words joined by single blanks: no character of a key is white space, and none of a value but blanks, so none is a line break. |
| ChronosParser.ParseByWords | chronos/src/parser.rs:12-22 | For every input, which command it is: by the letters of the first word, each in either case (the long s and the dotless i included), and by the number of words: at least three for SET, two for GET and DEL, any for PING and COMPACT, unknown exactly otherwise, nothing exactly for blank input; and which words are key and value. |
| ChronosParser.ParsePrinted | chronos/src/parser.rs:12-23 | Printing any recognised command and parsing it gives it back. |
| ChronosParser.ParseNormalises | chronos/src/parser.rs:12-23 | The canonical text of whatever was parsed parses to the same command. |
| ChronosLog.ReplayLog | chronos/src/engine.rs:30-46 | Replaying written records, comma-free in the keys, gives the map that was written. |
| ChronosLog.ReplayIsFaithfulIffNoCommas | chronos/src/engine.rs:32-46 | Replay gives back the map that was written exactly if no key has a comma. |
| ChronosLog.RecordSurvivesIff | chronos/src/engine.rs:30-46 | For any record at all: written alone, it is read back as it was exactly if it has no line feed, its key no comma, and its value no carriage return at the end. |
| ChronosLog.ReplayPrefix | chronos/src/engine.rs:30-36 | Replaying any character prefix of a log gives the state after its complete records, except that the interrupted record's key may hold a prefix of its value; which of these, and which prefix, is given exactly. |
| ChronosLog.ReplayGlued | chronos/src/engine.rs:44-48 | A record appended after a cut one is read back as part of it. |
| ChronosLog.NextRecordSurvivesIff | chronos/src/engine.rs:44-48 | The exact condition under which the record written after a cut is there after the next replay. |
| ChronosRuns.StepAnswers | chronos/src/engine.rs:18-77 | Every step of the store, stops and compaction steps included, keeps log, map and plain map in agreement and answers as the plain map. |
| ChronosRuns.StoreAnswersAsPlainMap | chronos/src/server.rs:62-95 | For every run with stops and restarts anywhere, also between any two steps of a compaction that walks the map in any order: if keys have no comma, every completed request has the plain map's reply, except exactly a GET of a value equal to the tombstone text. |
| ChronosRuns.ServesIffNoCommas | chronos/src/engine.rs:32-46 | For any set of keys of one line: every run that writes only to them, with stops and restarts anywhere, is answered as the plain map answers, exactly if none has a comma. |
| ChronosRuns.RunShows | chronos/src/server.rs:62-95 | While the process runs, compactions included, every request is answered as the plain map answers, whatever the keys. |
| ChronosLedger.StoreAnswersFromLedger | chronos/src/engine.rs:18-77 | For every run with restarts and stops anywhere, also after any character of a record, whatever the keys: every request is answered from a map, given by the finished lines and one unfinished line of the log without reference to its text. |
| ChronosLedger.ParsedIsUnbroken | chronos/src/parser.rs:12-23 | Every parsed request is one that theorem covers. |
| ChronosRuns.ParsedCommandsAreClean | chronos/src/parser.rs:16-18 | A parsed write is one the log can hold exactly if its key has no comma. |
| ChronosServer.Engine.constructor | chronos/src/engine.rs:19-42 | Opening creates the file if needed and replays it line by line; on the store's own path this is the start step of the runs. |
| ChronosServer.Engine.Set | chronos/src/engine.rs:44-48 | The map gets the entry and the log the record, and nothing else changes. |
| ChronosServer.Engine.Compact | chronos/src/engine.rs:54-77 | Compaction, in any order of the map, is a legal run of single steps that ends in this state, leaves in the log one record for every entry of the map, tombstones too, and nothing else, and moves the handle to the fixed path. |
| ChronosServer.HandleMessage | chronos/src/server.rs:59-95 | One message is a legal run from the old state to the new one whose transcript is the command and the reply sent; for each command, the literal reply and what becomes of the map. |
| ChronosServer.HandleClient | chronos/src/server.rs:45-101 | A client's messages, up to a blank one, get the replies of the plain map that memory shows, whatever the keys; if none written has a comma, the log goes on holding that map. |
| ChronosTimeline.DecodeEncoded | chronos/src/bin/mvp_check.rs:9-14 | What was encoded (fixed-width little-endian lengths, then bytes) is decoded, whatever follows it. |
| ChronosTimeline.EncodedLayout | chronos/src/bin/mvp_check.rs:9-14 | Where the bytes of an entry are: eight for the length of the key, lowest first, the key, eight for the length of the value, the value, and eight for the time. |
| ChronosTimeline.DecodeAllEncoded | chronos/src/bin/mvp_check.rs:52-54 | The whole log decodes to the entries appended. |
| ChronosTimeline.EntryAtOffset | chronos/src/bin/mvp_check.rs:50-58 | Every entry decodes at the offset where it was appended. |
| ChronosTimeline.CutPointScans | chronos/src/bin/mvp_check.rs:76-78 | The entry before the cut point of a sorted history is the last appended one no later than the query. |
| ChronosTimeline.LaterSetsKeepThePast | chronos/src/bin/mvp_check.rs:43-61 | Entries appended later with times above the query never change its answer. |
| ChronosTimeline.ChronosDB.Set | chronos/src/bin/mvp_check.rs:43-61 | Appends one entry; log and index stay those of the entries, and the answer for any key at any earlier time is what it was. |
| ChronosTimeline.ChronosDB.IndexedOffsetsDecode | chronos/src/bin/mvp_check.rs:65-70 | Every offset in the index decodes to an entry of that key with that time. |
| ChronosTimeline.ChronosDB.GetAtTime | chronos/src/bin/mvp_check.rs:73-82 | The answer is that of a linear scan of the decoded log if the key's times never go back; whatever the clock does, it is the entry at a cut point of the key's history, and the value of an entry of the key no later than the query. |
| ChronosTimeline.PartitionPoint | chronos/src/bin/mvp_check.rs:76 | The binary search stops at a point with a time at most the query before it and a greater one after it. |
| Celer.Slot | celer/src/main.rs:31-32 | The masked session id is its remainder modulo the pool size. |
| Celer.Engine.Process | celer/src/main.rs:159-197 | One event changes only the state of its slot, as that slot's machine says, and sends what it sends; CelerStrokes says what that is. |
| Celer.Engine.Loop | celer/src/main.rs:124-201 | After any stream, pool and broadcasts are those of the run. |
| CelerStrokes.ActiveIffDrawing | celer/src/main.rs:162-195 | In every stream a slot is active exactly if it went down at some event and has not gone up since. |
| CelerStrokes.RemembersLastPoint | celer/src/main.rs:164-192 | While it is, it remembers the place of its last down or move, whether or not that move counted. |
| CelerStrokes.CountedMoveIsSent | celer/src/main.rs:170-194 | A move of such a slot away from the slot's last down or move is sent with the square of the distance and 0.85 times the slot's precision plus 0.15 times 95 if that square is above 25 and 45 if not, which becomes the slot's precision. |
| CelerStrokes.OtherEventIsNotSent | celer/src/main.rs:161-197 | Every other event sends nothing; a down sets the slot's precision to 100 and its time, and any other leaves both. |
| CelerStrokes.OtherSlotsStay | celer/src/main.rs:116-122 | No event changes the state of another slot, and every slot begins at 100. |
| CelerStrokes.SentByCountedMoves | celer/src/main.rs:170-194 | Everything ever sent comes from such a move, one for each and in order, and every such move is sent. |
| Celer.SlotRunsAlone | celer/src/main.rs:159 | Whatever the stream, a slot's state and broadcasts are those of a machine that sees the events of that slot alone. |
| Celer.SessionsAreIsolated | celer/src/main.rs:31-32 | What is sent for a session with no other session equal to it modulo the pool size is what the program would send on that session's events alone. |
| Celer.SharedSlotsInterfere | celer/src/main.rs:159 | Any two sessions in one slot: a stroke of one makes a lone move of the other count. |
| Celer.InterferenceIffSlotShared | celer/src/main.rs:31-32 | For any two sessions: some stream of the two changes what is sent for one, exactly if they are equal modulo the pool size. |
| Celer.AllIsolatedIffSlotsDistinct | celer/src/main.rs:31-32 | For any set of sessions: no stream of them ever changes what is sent for one of them, exactly if they are pairwise distinct modulo the pool size. |
| Celer.RepeatsChangeNothing | celer/src/main.rs:176 | Leaving out every move to where the slot's last down or move was changes no state and nothing sent. |
| Celer.StrokePrecision | celer/src/main.rs:162-191 | After a down and n moves that count, the precision is 100*0.85^n + 0.15*(sum of 0.85^(n-i)*t_i), between 45+55*0.85^n and 95+5*0.85^n. |
| Celer.PrecisionInTheStream | celer/src/main.rs:162-191 | The same for the slot of a session in any stream, n being what was sent since the down. |
| Celer.EverySlotInRange | celer/src/main.rs:116-191 | In every reachable state every slot's precision is in (45, 100], and everything sent strictly between. |
| CelerPipeline.CelerSeesWhatAegisPushed | celer/src/main.rs:124-125 | Through the ring, in any interleaving, celer sends a beginning of what it would send on all events pushed. |

## Left out

- Processes and the network: memfd, descriptor passing, mmap, sockets, io_uring, warp and WebSocket serving, signals, core pinning; tracing, metrics and the terminal display.
- aegis: parsing of stroke payloads, and pushes that overlap one another from several threads.
- Reading of profiles: regular expressions, the optional reversal of stacks, chain annotation, sorting of lines (every order is covered).
- Drawing beyond the x extent: colours, SVG text, zoom, URL state.
- FlameSearch.Search: the rounding of the percentage for display, and rectangles that are not at tenths because the graph is zoomed.
- SampleStacks.Collapser.Line: indentation that is not a whole number of levels, and the splitting of a line into name, module and time.
- ChromeStacks.Collapser.LoadStackIdentifiers: reading of JSON, grouping by thread and the sort itself.
- ChromeTimes.OwnTimesIffNested: durations below zero.
- FlameLaminar.MergeIsLaminar: counts of zero, where it does not hold (MergeNests, ParentIffFrameAroundIsLeft say what does).
- ChronosTimeline.ChronosDB.GetAtTime: values that are not valid UTF-8; files above 2^64 bytes.
- ChronosTimeline.PartitionPoint: which of several cut points the library finds when the history is not sorted.
- ChronosRuns.StoreAnswersAsPlainMap: keys with a comma and stops in the middle of a record, where it does not hold (ServesIffNoCommas says when, StoreAnswersFromLedger what is answered instead).
- ChronosServer.HandleClient: failed writes, loss of unsynced data, a message split over two reads or two messages in one.
- ChronosParser.Upper: upper-casing of characters that cannot yield an ASCII letter, which no command name holds.
- DiffFolded.Differ.ReadFirst: matching of lines and the stripping of addresses; a line that does not match counts zero for the empty stack.
- Celer.StrokePrecision: single-precision rounding.
- The other collapsers, benchmarks, the command-line client, container and metrics configuration.
