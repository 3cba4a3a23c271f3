/** Durable stage execution: claim, work, atomic completion, retry, quarantine and replay. */
module StageExecution {
  import opened Wrappers

  /** The digest of a stage's inputs; taken to be injective. */
  type Key = string

  datatype Status = Claimed | Completed | Failed | Quarantined | Cancelled

  datatype Refs = Refs(artifacts: seq<string>, evidence: seq<string>)

  datatype RunRow = RunRow(job: string, stage: string, status: Status, refs: Refs)

  /** Ledger idempotency keys: one per stage completion, one per (completion, observing job). */
  datatype LedgerKey = Completion(key: Key) | Observation(key: Key, observer: string)

  /** A StageCompleted event. */
  datatype StageCompleted = StageCompleted(ledgerKey: LedgerKey, job: string, stage: string, refs: Refs)

  datatype Sunk = Sunk(locator: string, reason: string)

  datatype Store = Store(rows: map<Key, RunRow>, ledger: seq<StageCompleted>, quarantine: seq<Sunk>)

  datatype Manifest = Manifest(key: Key, job: string, stage: string)

  datatype WorkResult = Produced(refs: Refs) | Malformed(reason: string, locator: string) | Raised(error: string)

  /** The result of one work call, by attempt number. */
  type Work = nat -> WorkResult

  datatype Record = Record(status: Status, attempts: nat, refs: Option<Refs>, replayed: bool)

  // ---------------------------------------------------------------------------
  // Single transactions
  // ---------------------------------------------------------------------------

  predicate HasKey(ledger: seq<StageCompleted>, k: LedgerKey) {
    exists e | e in ledger :: e.ledgerKey == k
  }

  /** Appending under a key the ledger knows is a no-op. */
  function Appended(ledger: seq<StageCompleted>, e: StageCompleted): seq<StageCompleted> {
    if HasKey(ledger, e.ledgerKey) then ledger else ledger + [e]
  }

  function WithClaim(s: Store, m: Manifest): Store {
    if m.key in s.rows then s
    else s.(rows := s.rows[m.key := RunRow(m.job, m.stage, Claimed, Refs([], []))])
  }

  /** One transaction: append the event unless known, and in any case write the row. */
  function WithCompletion(s: Store, m: Manifest, refs: Refs): Store
    requires m.key in s.rows
  {
    s.(ledger := Appended(s.ledger, StageCompleted(Completion(m.key), m.job, m.stage, refs)),
       rows := s.rows[m.key := s.rows[m.key].(status := Completed, refs := refs)])
  }

  /** The attribution of a replay to the job that observed it; no row is touched. */
  function WithObservation(s: Store, m: Manifest, refs: Refs): Store {
    s.(ledger := Appended(s.ledger, StageCompleted(Observation(m.key, m.job), m.job, m.stage, refs)))
  }

  /** `_mark_run` writes whatever the row says now. */
  function WithMark(s: Store, key: Key, status: Status): Store
    requires key in s.rows
  {
    s.(rows := s.rows[key := s.rows[key].(status := status)])
  }

  // ---------------------------------------------------------------------------
  // One execution as a sequence of transactions and work calls
  // ---------------------------------------------------------------------------

  /** What an execution does next. `owner` is the job of the claimed row. */
  datatype Pc =
    | AtClaim
    | AtCheck(owner: string)
    | AtWork(owner: string, attempt: nat)
    | AtComplete(owner: string, attempt: nat, refs: Refs)
    | AtSink(reason: string, locator: string)
    | AtMark(status: Status, attempt: nat)
    | AtReplay(owner: string)
    | AtObserve(refs: Refs)
    | Done(record: Record)

  datatype Moved = Moved(store: Store, pc: Pc)

  predicate Ready(s: Store, m: Manifest, pc: Pc) { pc.AtClaim? || m.key in s.rows }

  /** One step; `result` matters only to a work call. */
  function Moving(maxAttempts: nat, s: Store, m: Manifest, pc: Pc, result: WorkResult): Moved
    requires Ready(s, m, pc)
  {
    match pc
    case AtClaim =>
      var after := WithClaim(s, m);
      Moved(after, if m.key in s.rows then AtCheck(s.rows[m.key].job) else AtWork(m.job, 1))
    case AtCheck(owner) =>
      var status := s.rows[m.key].status;
      Moved(s, if status.Completed? then AtReplay(owner)
               else if status.Cancelled? || status.Quarantined? then Done(Record(status, 1, None, true))
               else AtWork(owner, 1))
    case AtWork(owner, attempt) =>
      Moved(s, match result
               case Produced(refs) => AtComplete(owner, attempt, refs)
               case Malformed(reason, locator) => AtSink(reason, locator)
               case Raised(_) => if attempt < maxAttempts then AtWork(owner, attempt + 1) else AtMark(Failed, attempt))
    case AtComplete(_, attempt, refs) =>
      Moved(WithCompletion(s, m, refs), Done(Record(Completed, attempt, Some(refs), false)))
    case AtSink(reason, locator) =>
      Moved(s.(quarantine := s.quarantine + [Sunk(locator, reason)]), AtMark(Quarantined, 1))
    case AtMark(status, attempt) =>
      Moved(WithMark(s, m.key, status), Done(Record(status, attempt, None, false)))
    case AtReplay(owner) =>
      var refs := s.rows[m.key].refs;
      Moved(s, if owner != m.job then AtObserve(refs) else Done(Record(Completed, 1, Some(refs), true)))
    case AtObserve(refs) =>
      Moved(WithObservation(s, m, refs), Done(Record(Completed, 1, Some(refs), true)))
    case Done(_) => Moved(s, pc)
  }

  /** Steps left before the end, for termination. */
  function StepsLeft(maxAttempts: nat, pc: Pc): nat {
    match pc
    case AtClaim => maxAttempts + 7
    case AtCheck(_) => maxAttempts + 6
    case AtWork(_, attempt) => 4 + (if attempt < maxAttempts then maxAttempts - attempt else 0)
    case AtSink(_, _) => 3
    case AtReplay(_) => 3
    case AtComplete(_, _, _) => 2
    case AtMark(_, _) => 2
    case AtObserve(_) => 2
    case Done(_) => 0
  }

  function AttemptOf(pc: Pc): nat { if pc.AtWork? then pc.attempt else 0 }

  /** Runs an execution to its end without interruption. */
  function Driven(maxAttempts: nat, s: Store, m: Manifest, pc: Pc, work: Work): Moved
    requires Ready(s, m, pc)
    decreases StepsLeft(maxAttempts, pc)
  {
    if pc.Done? then Moved(s, pc)
    else
      var next := Moving(maxAttempts, s, m, pc, work(AttemptOf(pc)));
      Driven(maxAttempts, next.store, m, next.pc, work)
  }

  /** The two transactions after malformed input: the sink first, then the row. */
  lemma UnfoldSink(maxAttempts: nat, s: Store, m: Manifest, owner: string, attempt: nat, work: Work)
    requires m.key in s.rows && work(attempt).Malformed?
    ensures var w := work(attempt);
            Driven(maxAttempts, s, m, AtWork(owner, attempt), work) ==
            Moved(WithMark(s.(quarantine := s.quarantine + [Sunk(w.locator, w.reason)]), m.key, Quarantined),
                  Done(Record(Quarantined, 1, None, false)))
  {
    var w := work(attempt);
    var sunk := s.(quarantine := s.quarantine + [Sunk(w.locator, w.reason)]);
    assert Driven(maxAttempts, sunk, m, AtMark(Quarantined, 1), work)
        == Moved(WithMark(sunk, m.key, Quarantined), Done(Record(Quarantined, 1, None, false)));
    assert Driven(maxAttempts, s, m, AtSink(w.reason, w.locator), work)
        == Driven(maxAttempts, sunk, m, AtMark(Quarantined, 1), work);
  }

  lemma UnfoldFail(maxAttempts: nat, s: Store, m: Manifest, owner: string, attempt: nat, work: Work)
    requires m.key in s.rows && work(attempt).Raised? && attempt >= maxAttempts
    ensures Driven(maxAttempts, s, m, AtWork(owner, attempt), work) ==
            Moved(WithMark(s, m.key, Failed), Done(Record(Failed, attempt, None, false)))
  {
    assert Driven(maxAttempts, s, m, AtMark(Failed, attempt), work)
        == Moved(WithMark(s, m.key, Failed), Done(Record(Failed, attempt, None, false)));
  }

  lemma UnfoldComplete(maxAttempts: nat, s: Store, m: Manifest, owner: string, attempt: nat, refs: Refs, work: Work)
    requires m.key in s.rows && work(attempt) == Produced(refs)
    ensures Driven(maxAttempts, s, m, AtWork(owner, attempt), work) ==
            Moved(WithCompletion(s, m, refs), Done(Record(Completed, attempt, Some(refs), false)))
  {
    assert Driven(maxAttempts, s, m, AtComplete(owner, attempt, refs), work)
        == Moved(WithCompletion(s, m, refs), Done(Record(Completed, attempt, Some(refs), false)));
  }

  /** A lost claim on a complete row replays it. */
  lemma UnfoldReplay(maxAttempts: nat, s: Store, m: Manifest, work: Work)
    requires m.key in s.rows && s.rows[m.key].status.Completed?
    ensures var row := s.rows[m.key];
            Driven(maxAttempts, s, m, AtClaim, work) ==
            Moved(if row.job != m.job then WithObservation(s, m, row.refs) else s,
                  Done(Record(Completed, 1, Some(row.refs), true)))
  {
    var row := s.rows[m.key];
    if row.job != m.job {
      assert Driven(maxAttempts, s, m, AtObserve(row.refs), work)
          == Moved(WithObservation(s, m, row.refs), Done(Record(Completed, 1, Some(row.refs), true)));
    }
    var end := Moved(if row.job != m.job then WithObservation(s, m, row.refs) else s,
                     Done(Record(Completed, 1, Some(row.refs), true)));
    assert Driven(maxAttempts, s, m, AtReplay(row.job), work) == end;
    assert Driven(maxAttempts, s, m, AtCheck(row.job), work) == Driven(maxAttempts, s, m, AtReplay(row.job), work);
    assert Driven(maxAttempts, s, m, AtClaim, work) == Driven(maxAttempts, s, m, AtCheck(row.job), work);
  }

  // ---------------------------------------------------------------------------
  // The executor
  // ---------------------------------------------------------------------------

  datatype Claim = Claim(won: bool, owner: string)

  class DurableStageExecutor {
    const maxAttempts: nat
    var rows: map<Key, RunRow>
    var ledger: seq<StageCompleted>
    var quarantine: seq<Sunk>

    constructor (maxAttempts: nat)
      ensures this.maxAttempts == maxAttempts && View() == Store(map[], [], [])
    {
      this.maxAttempts := maxAttempts;
      rows, ledger, quarantine := map[], [], [];
    }

    function View(): Store
      reads this
    {
      Store(rows, ledger, quarantine)
    }

    /** Claim before any side effect, then work, complete, retry, quarantine or replay. */
    method Run(m: Manifest, work: Work) returns (record: Record)
      modifies this
      ensures Moved(View(), Done(record)) == Driven(maxAttempts, old(View()), m, AtClaim, work)
    {
      var claim := ClaimRun(m);
      if !claim.won {
        var status := rows[m.key].status;
        if status.Completed? {
          UnfoldReplay(maxAttempts, View(), m, work);
          record := ReplayedComplete(m, claim.owner);
          return;
        }
        if status.Cancelled? || status.Quarantined? {
          assert Driven(maxAttempts, View(), m, AtCheck(claim.owner), work) ==
              Moved(View(), Done(Record(status, 1, None, true)));
          return Record(status, 1, None, true);
        }
      }
      record := Attempt(m, claim.owner, work);
    }

    /** Insert if absent; the loser reads the row that is there. */
    method ClaimRun(m: Manifest) returns (claim: Claim)
      modifies this
      ensures View() == WithClaim(old(View()), m) && m.key in rows
      ensures claim.won <==> m.key !in old(rows)
      ensures claim.owner == rows[m.key].job
    {
      if m.key in rows {
        return Claim(false, rows[m.key].job);
      }
      rows := rows[m.key := RunRow(m.job, m.stage, Claimed, Refs([], []))];
      return Claim(true, m.job);
    }

    /** The retry loop. */
    method Attempt(m: Manifest, owner: string, work: Work) returns (record: Record)
      requires m.key in rows
      modifies this
      ensures Moved(View(), Done(record)) == Driven(maxAttempts, old(View()), m, AtWork(owner, 1), work)
    {
      var attempts := 1;
      while true
        invariant attempts >= 1 && View() == old(View())
        invariant Driven(maxAttempts, View(), m, AtWork(owner, attempts), work)
                  == Driven(maxAttempts, old(View()), m, AtWork(owner, 1), work)
        decreases maxAttempts - attempts
      {
        match work(attempts) {
          case Malformed(reason, locator) =>
            UnfoldSink(maxAttempts, View(), m, owner, attempts, work);
            record := Quarantine(m, reason, locator);
            return;
          case Raised(_) =>
            if attempts < maxAttempts {
              attempts := attempts + 1;
            } else {
              UnfoldFail(maxAttempts, View(), m, owner, attempts, work);
              rows := rows[m.key := rows[m.key].(status := Failed)];
              return Record(Failed, attempts, None, false);
            }
          case Produced(refs) =>
            UnfoldComplete(maxAttempts, View(), m, owner, attempts, refs, work);
            record := Complete(m, attempts, refs);
            return;
        }
      }
    }

    method Complete(m: Manifest, attempts: nat, refs: Refs) returns (record: Record)
      requires m.key in rows
      modifies this
      ensures View() == WithCompletion(old(View()), m, refs) && record == Record(Completed, attempts, Some(refs), false)
    {
      AppendOnce(StageCompleted(Completion(m.key), m.job, m.stage, refs));
      rows := rows[m.key := rows[m.key].(status := Completed, refs := refs)];
      record := Record(Completed, attempts, Some(refs), false);
    }

    method Quarantine(m: Manifest, reason: string, locator: string) returns (record: Record)
      requires m.key in rows
      modifies this
      ensures View() == WithMark(old(View()).(quarantine := old(quarantine) + [Sunk(locator, reason)]), m.key,
                                 Quarantined)
      ensures record == Record(Quarantined, 1, None, false)
    {
      quarantine := quarantine + [Sunk(locator, reason)];
      rows := rows[m.key := rows[m.key].(status := Quarantined)];
      record := Record(Quarantined, 1, None, false);
    }

    /** Hands back the committed refs; another job's replay is attributed in the ledger, the owner's is not. */
    method ReplayedComplete(m: Manifest, owner: string) returns (record: Record)
      requires m.key in rows
      modifies this`ledger
      ensures View() == if owner != m.job then WithObservation(old(View()), m, rows[m.key].refs) else old(View())
      ensures record == Record(Completed, 1, Some(rows[m.key].refs), true)
    {
      var refs := rows[m.key].refs;
      if owner != m.job {
        AppendOnce(StageCompleted(Observation(m.key, m.job), m.job, m.stage, refs));
      }
      record := Record(Completed, 1, Some(refs), true);
    }

    method AppendOnce(e: StageCompleted)
      modifies this`ledger
      ensures ledger == Appended(old(ledger), e)
    {
      for i := 0 to |ledger|
        invariant ledger == old(ledger)
        invariant forall k | 0 <= k < i :: ledger[k].ledgerKey != e.ledgerKey
      {
        if ledger[i].ledgerKey == e.ledgerKey {
          return;
        }
      }
      ledger := ledger + [e];
    }
  }
}
