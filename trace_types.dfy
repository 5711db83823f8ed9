/**
 * The trace-event vocabulary the frontend receives: four variants tagged by
 * their trace type, and the same record stamped with the wall-clock time at
 * which the frontend received it.
 */
module TraceTypes {

  /** One decoded trace event. `coreId` is present in every variant. */
  datatype TraceEntry =
    | Enter(coreId: int, timestamp: int, traceId: int, funcCallId: int,
            argCount: int, funcArgs: seq<int>, funcName: string, packetId: string)
    | Exit(coreId: int, timestamp: int, traceId: int, funcCallId: int,
           returnVal: int, funcName: string, packetId: string)
    | Panic(coreId: int, timestamp: int, traceId: int, funcCallId: int,
            faultingPC: int, exceptionReason: string, packetId: string)
    | Restart(coreId: int, timestamp: int, restartReason: string, packetId: string)

  /** A trace event with its arrival time in milliseconds since the epoch. */
  datatype TrackedTraceEntry = Tracked(entry: TraceEntry, receivedAt: int)

  /** The sort key the execution graph orders events by. */
  function ReceivedAt(e: TrackedTraceEntry): int {
    e.receivedAt
  }
}
