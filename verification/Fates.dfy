/** What one uninterrupted stage execution comes to, told from its row and its work alone. */
module Fates {
  import opened Wrappers
  import opened StageExecution

  /** What running the work from an open row leads to. */
  function Worked(maxAttempts: nat, work: Work, attempt: nat): Record
    decreases if attempt < maxAttempts then maxAttempts - attempt else 0
  {
    match work(attempt)
    case Produced(refs) => Record(Completed, attempt, Some(refs), false)
    case Malformed(_, _) => Record(Quarantined, 1, None, false)
    case Raised(_) =>
      if attempt < maxAttempts then Worked(maxAttempts, work, attempt + 1) else Record(Failed, attempt, None, false)
  }

  predicate OpenRow(row: Option<RunRow>) { row.None? || row.value.status.Claimed? || row.value.status.Failed? }

  function RowOf(s: Store, key: Key): Option<RunRow> { if key in s.rows then Some(s.rows[key]) else None }

  /** The record an execution returns, from its row and its work alone. */
  function Fate(maxAttempts: nat, row: Option<RunRow>, work: Work): Record {
    if OpenRow(row) then Worked(maxAttempts, work, 1)
    else if row.value.status.Completed? then Record(Completed, 1, Some(row.value.refs), true)
    else Record(row.value.status, 1, None, true)
  }

  /** The row an execution leaves. */
  function RowAfter(maxAttempts: nat, row: Option<RunRow>, m: Manifest, work: Work): RunRow {
    if OpenRow(row) then
      var r := Worked(maxAttempts, work, 1);
      var was := if row.Some? then row.value else RunRow(m.job, m.stage, Claimed, Refs([], []));
      RunRow(was.job, was.stage, r.status, if r.refs.Some? then r.refs.value else was.refs)
    else row.value
  }

  lemma {:induction false} WorkedIsDriven(
    maxAttempts: nat, s: Store, m: Manifest, owner: string, work: Work, attempt: nat)
    requires m.key in s.rows
    ensures var end, r := Driven(maxAttempts, s, m, AtWork(owner, attempt), work), Worked(maxAttempts, work, attempt);
            && end.pc == Done(r)
            && end.store.rows == s.rows[m.key := s.rows[m.key].(status := r.status,
                                 refs := if r.refs.Some? then r.refs.value else s.rows[m.key].refs)]
    decreases if attempt < maxAttempts then maxAttempts - attempt else 0
  {
    match work(attempt)
    case Produced(refs) => UnfoldComplete(maxAttempts, s, m, owner, attempt, refs, work);
    case Malformed(_, _) => UnfoldSink(maxAttempts, s, m, owner, attempt, work);
    case Raised(_) =>
      if attempt < maxAttempts { WorkedIsDriven(maxAttempts, s, m, owner, work, attempt + 1); }
      else { UnfoldFail(maxAttempts, s, m, owner, attempt, work); }
  }

  /** An uninterrupted execution: its record and rows depend on its own row and work only. */
  lemma DrivenFate(maxAttempts: nat, s: Store, m: Manifest, work: Work)
    ensures var end := Driven(maxAttempts, s, m, AtClaim, work);
            && end.pc == Done(Fate(maxAttempts, RowOf(s, m.key), work))
            && end.store.rows == s.rows[m.key := RowAfter(maxAttempts, RowOf(s, m.key), m, work)]
  {
    var row := RowOf(s, m.key);
    if OpenRow(row) {
      var claimed := WithClaim(s, m);
      var owner := claimed.rows[m.key].job;
      if row.Some? {
        assert Driven(maxAttempts, s, m, AtCheck(owner), work) == Driven(maxAttempts, s, m, AtWork(owner, 1), work);
      }
      assert Driven(maxAttempts, s, m, AtClaim, work) == Driven(maxAttempts, claimed, m, AtWork(owner, 1), work);
      WorkedIsDriven(maxAttempts, claimed, m, owner, work, 1);
    } else if row.value.status.Completed? {
      UnfoldReplay(maxAttempts, s, m, work);
      assert s.rows[m.key := row.value] == s.rows;
    } else {
      assert Driven(maxAttempts, s, m, AtCheck(row.value.job), work) ==
             Moved(s, Done(Record(row.value.status, 1, None, true)));
      assert s.rows[m.key := row.value] == s.rows;
    }
  }

  /** Work ends complete with refs, or quarantined or failed without. */
  lemma {:induction false} WorkedShape(maxAttempts: nat, work: Work, attempt: nat)
    ensures var r := Worked(maxAttempts, work, attempt);
            && (r.status.Completed? <==> r.refs.Some?)
            && (r.status.Completed? || r.status.Quarantined? || r.status.Failed?) && !r.replayed
    decreases if attempt < maxAttempts then maxAttempts - attempt else 0
  {
    if work(attempt).Raised? && attempt < maxAttempts { WorkedShape(maxAttempts, work, attempt + 1); }
  }

  /** A row that is not open keeps its contents, and so never opens again; an open one keeps its owner. */
  lemma OnlyOpenRowsMove(maxAttempts: nat, s: Store, m: Manifest, work: Work)
    ensures var end := Driven(maxAttempts, s, m, AtClaim, work).store;
            forall key | !OpenRow(RowOf(s, key)) :: RowOf(end, key) == RowOf(s, key)
  {
    DrivenFate(maxAttempts, s, m, work);
  }
}
