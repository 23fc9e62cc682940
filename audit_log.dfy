/** The append-only audit log of embedding and deletion operations. */
module Audit {
  import opened Wrappers
  import opened Services

  /** One log document; timestamps are not modelled. */
  datatype LogEntry =
    | Embedding(filePath: string, commitHash: string, repoTag: string, embeddedCount: nat, skippedCount: nat)
    | DeleteAll(commitHash: string, repoTag: string, deletedCount: nat)
    | DeleteChanged(commitHash: string, repoTag: string, deletedCount: nat, affectedFiles: nat)

  /** The log store: `entries` in creation order, `up` whether writes succeed. */
  class AuditLog {
    var entries: seq<LogEntry>
    var up: bool

    constructor (up: bool)
      ensures entries == [] && this.up == up
    {
      entries := [];
      this.up := up;
    }

    /** Creates one entry and returns its id, its position in the log. */
    method Append(e: LogEntry) returns (r: Result<nat, Failure>)
      modifies this`entries
      ensures up ==> r == Success(|old(entries)|) && entries == old(entries) + [e]
      ensures !up ==> r == Failure(LogUnavailable) && entries == old(entries)
    {
      if !up {
        return Failure(LogUnavailable);
      }
      r := Success(|entries|);
      entries := entries + [e];
    }
  }
}
