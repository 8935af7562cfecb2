/** The payload of the shared ring (shared-ipc/src/lib.rs:47-58). Floats are reals. */
module Events {
  import opened Words

  const ACTION_DOWN: nat := 0
  const ACTION_MOVE: nat := 1
  const ACTION_UP: nat := 2

  datatype StrokeEvent = StrokeEvent(
    sessionId: nat,
    timestamp: Word,
    x: real,
    y: real,
    pressure: real,
    action: nat,
    traceId: seq<nat>,
    parentSpanId: seq<nat>)

  /** What a slot of freshly zeroed shared memory holds. */
  const BLANK := StrokeEvent(0, 0, 0.0, 0.0, 0.0, 0, [], [])
}
