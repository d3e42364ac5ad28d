/** Rows of the append-only `system_logs` table written by the actions. */
module SystemLog {
  import opened DiffEngine

  /** `event_type`. */
  datatype EventType = ImportScan | ApplyChange | Error | SmartSync

  /** `meta`: the structured part of a log row, one shape per writer. */
  datatype LogMeta =
    | DiffCount(diffCount: nat)
    | AppliedDiff(diff: DiffItem)
    | ErrorMessage(error: string)
    | SyncSummary(matched: nat, lines: seq<string>)

  datatype LogEntry = LogEntry(event: EventType, description: string, meta: LogMeta)

  /**
   * An insert into `system_logs` whose returned error the caller never reads: the row is
   * there only when the database accepted it, and the action carries on either way.
   */
  function Insert(log: seq<LogEntry>, e: LogEntry, accepts: LogEntry -> bool): seq<LogEntry> {
    if accepts(e) then log + [e] else log
  }
}
