/** Durable projection checkpoints and how a pause is stored in them. */
module Checkpoints {
  import opened Wrappers

  /** The stored JSON document, its two reserved keys set apart. */
  datatype Document = Document(extra: map<string, string>, reason: Option<string>, at: Option<nat>)

  datatype ProjectionCheckpoint = ProjectionCheckpoint(
    name: string, appliedSeq: nat, document: Document, pauseReason: Option<string>, pauseSeq: nat)
  {
    function WithApplied(applied: nat): ProjectionCheckpoint { this.(appliedSeq := applied) }

    function PausedAt(reason: string, at: nat): ProjectionCheckpoint {
      this.(pauseReason := Some(reason), pauseSeq := at)
    }

    function Resumed(): ProjectionCheckpoint { this.(pauseReason := None, pauseSeq := 0) }
  }

  function Fresh(name: string): ProjectionCheckpoint {
    ProjectionCheckpoint(name, 0, Document(map[], None, None), None, 0)
  }

  datatype StoredRow = StoredRow(appliedSeq: nat, document: Document)

  /** Saving writes the reserved keys from the checkpoint's own pause fields, or drops them. */
  function Stored(cp: ProjectionCheckpoint): StoredRow {
    if cp.pauseReason.Some? then
      StoredRow(cp.appliedSeq, cp.document.(reason := cp.pauseReason, at := Some(cp.pauseSeq)))
    else
      StoredRow(cp.appliedSeq, cp.document.(reason := None, at := None))
  }

  function Loaded(name: string, row: StoredRow): ProjectionCheckpoint {
    ProjectionCheckpoint(name, row.appliedSeq, row.document, row.document.reason,
                         if row.document.at.Some? then row.document.at.value else 0)
  }

  /** What a reader gets back: progress and pause as saved, the pause position only while paused. */
  lemma SaveThenLoad(cp: ProjectionCheckpoint)
    ensures var back := Loaded(cp.name, Stored(cp));
            && back.appliedSeq == cp.appliedSeq && back.pauseReason == cp.pauseReason
            && back.pauseSeq == (if cp.pauseReason.Some? then cp.pauseSeq else 0)
            && back.document.extra == cp.document.extra
            && Stored(back) == Stored(cp)
  {}

  class ProjectionCheckpointStore {
    var rows: map<string, StoredRow>

    constructor ()
      ensures rows == map[]
    {
      rows := map[];
    }

    method Get(name: string) returns (cp: Option<ProjectionCheckpoint>)
      ensures cp == if name in rows then Some(Loaded(name, rows[name])) else None
    {
      if name !in rows {
        return None;
      }
      return Some(Loaded(name, rows[name]));
    }

    method Save(cp: ProjectionCheckpoint)
      modifies this
      ensures rows == old(rows)[cp.name := Stored(cp)]
    {
      var document := cp.document;
      if cp.pauseReason.Some? {
        document := document.(reason := cp.pauseReason, at := Some(cp.pauseSeq));
      } else {
        document := document.(reason := None, at := None);
      }
      rows := rows[cp.name := StoredRow(cp.appliedSeq, document)];
    }
  }
}
