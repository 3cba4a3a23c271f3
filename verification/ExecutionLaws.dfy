/** Stage executions of many workers, any of which may crash between any two transactions. */
module ExecutionLaws {
  import opened Wrappers
  import opened StageExecution
  import opened Fates

  datatype Process = Process(m: Manifest, pc: Pc)

  /** A work call, with the status its row had at that moment. */
  datatype WorkCall = WorkCall(key: Key, seen: Status)

  /** `calls` and `replayed` record history only: work calls, and (key, job) pairs attributed by a replay. */
  datatype System = System(store: Store, procs: map<nat, Process>, calls: seq<WorkCall>, replayed: set<(Key, string)>)

  datatype Step = Submit(id: nat, m: Manifest) | Advance(id: nat, result: WorkResult) | Crash(id: nat)

  predicate Enabled(s: System, e: Step) {
    match e
    case Submit(id, _) => id !in s.procs
    case Advance(id, _) => id in s.procs && !s.procs[id].pc.Done?
    case Crash(id) => id in s.procs
  }

  /** No execution of the submitted key is under way. */
  predicate Alone(s: System, e: Step) {
    e.Submit? ==> forall id | id in s.procs && s.procs[id].m.key == e.m.key :: s.procs[id].pc.Done?
  }

  function Advanced(maxAttempts: nat, s: System, id: nat, result: WorkResult): System
    requires id in s.procs && Ready(s.store, s.procs[id].m, s.procs[id].pc)
  {
    var p := s.procs[id];
    var moved := Moving(maxAttempts, s.store, p.m, p.pc, result);
    System(moved.store, s.procs[id := Process(p.m, moved.pc)],
           if p.pc.AtWork? then s.calls + [WorkCall(p.m.key, s.store.rows[p.m.key].status)] else s.calls,
           if p.pc.AtObserve? then s.replayed + {(p.m.key, p.m.job)} else s.replayed)
  }

  function Next(maxAttempts: nat, s: System, e: Step): System {
    match e
    case Submit(id, m) => s.(procs := s.procs[id := Process(m, AtClaim)])
    case Advance(id, result) =>
      if id in s.procs && Ready(s.store, s.procs[id].m, s.procs[id].pc) then Advanced(maxAttempts, s, id, result) else s
    case Crash(id) => s.(procs := s.procs - {id})
  }

  function After(maxAttempts: nat, s: System, es: seq<Step>): System {
    if es == [] then s else Next(maxAttempts, After(maxAttempts, s, es[..|es| - 1]), es[|es| - 1])
  }

  ghost predicate Schedule(maxAttempts: nat, s: System, es: seq<Step>) {
    es != [] ==>
      Schedule(maxAttempts, s, es[..|es| - 1]) && Enabled(After(maxAttempts, s, es[..|es| - 1]), es[|es| - 1])
  }

  /** A schedule in which executions of one key never overlap. */
  ghost predicate SoloSchedule(maxAttempts: nat, s: System, es: seq<Step>) {
    es != [] ==>
      && SoloSchedule(maxAttempts, s, es[..|es| - 1])
      && Enabled(After(maxAttempts, s, es[..|es| - 1]), es[|es| - 1])
      && Alone(After(maxAttempts, s, es[..|es| - 1]), es[|es| - 1])
  }

  const START := System(Store(map[], [], []), map[], [], {})

  // ---------------------------------------------------------------------------
  // Under any interleaving
  // ---------------------------------------------------------------------------

  ghost predicate DistinctKeys(ledger: seq<StageCompleted>) {
    forall i, j | 0 <= i < j < |ledger| :: ledger[i].ledgerKey != ledger[j].ledgerKey
  }

  /** Each ledger key is used once, complete rows have their completion, every event has its row. */
  ghost predicate SafeStore(s: Store) {
    && DistinctKeys(s.ledger)
    && (forall k | k in s.rows && s.rows[k].status.Completed? :: HasKey(s.ledger, Completion(k)))
    && (forall e | e in s.ledger :: e.ledgerKey.key in s.rows)
  }

  ghost predicate Safe(s: System) {
    && SafeStore(s.store)
    && (forall id | id in s.procs :: Sane(s.store, s.procs[id]))
  }

  ghost predicate Sane(s: Store, p: Process) {
    && Ready(s, p.m, p.pc)
    && (p.pc.AtMark? ==> p.pc.status.Failed? || p.pc.status.Quarantined?)
  }

  lemma AppendOnceMore(ledger: seq<StageCompleted>, e: StageCompleted)
    requires DistinctKeys(ledger)
    ensures DistinctKeys(Appended(ledger, e)) && ledger <= Appended(ledger, e)
    ensures HasKey(Appended(ledger, e), e.ledgerKey)
    ensures forall k :: HasKey(ledger, k) ==> HasKey(Appended(ledger, e), k)
    ensures forall k :: HasKey(Appended(ledger, e), k) ==> HasKey(ledger, k) || k == e.ledgerKey
    ensures forall x | x in Appended(ledger, e) :: x in ledger || (x == e && !HasKey(ledger, e.ledgerKey))
  {
    var after := Appended(ledger, e);
    if !HasKey(ledger, e.ledgerKey) {
      assert after[|ledger|] == e && e in after;
      assert forall x | x in ledger :: x in after;
    }
  }

  /** A store transition of any kind: rows stay, owners stay, the ledger only grows. */
  ghost predicate Extends(s: Store, t: Store) {
    && (forall k | k in s.rows :: k in t.rows && t.rows[k].job == s.rows[k].job)
    && s.ledger <= t.ledger
  }

  lemma CompletionIsSafe(s: Store, m: Manifest, refs: Refs)
    requires SafeStore(s) && m.key in s.rows
    ensures SafeStore(WithCompletion(s, m, refs)) && Extends(s, WithCompletion(s, m, refs))
  {
    AppendOnceMore(s.ledger, StageCompleted(Completion(m.key), m.job, m.stage, refs));
  }

  lemma ObservationIsSafe(s: Store, m: Manifest, refs: Refs)
    requires SafeStore(s) && m.key in s.rows
    ensures SafeStore(WithObservation(s, m, refs)) && Extends(s, WithObservation(s, m, refs))
  {
    AppendOnceMore(s.ledger, StageCompleted(Observation(m.key, m.job), m.job, m.stage, refs));
  }

  /** Whatever the transaction, one step of one process is safe. */
  lemma MoveIsSafe(maxAttempts: nat, s: Store, p: Process, result: WorkResult)
    requires SafeStore(s) && Sane(s, p)
    ensures var moved := Moving(maxAttempts, s, p.m, p.pc, result);
            SafeStore(moved.store) && Extends(s, moved.store) && Sane(moved.store, Process(p.m, moved.pc))
  {
    match p.pc
    case AtComplete(_, _, refs) => CompletionIsSafe(s, p.m, refs);
    case AtObserve(refs) => ObservationIsSafe(s, p.m, refs);
    case _ =>
  }

  lemma StepIsSafe(maxAttempts: nat, s: System, e: Step)
    requires Safe(s) && Enabled(s, e)
    ensures Safe(Next(maxAttempts, s, e)) && Extends(s.store, Next(maxAttempts, s, e).store)
  {
    if e.Advance? { MoveIsSafe(maxAttempts, s.store, s.procs[e.id], e.result); }
  }

  /**
   * Effective-once: under any interleaving and any crashes, the ledger holds at most one completion of a
   * key and one observation per (key, job); a complete row is backed by its completion; nothing is ever
   * taken back and no row changes hands.
   */
  lemma {:induction false} EffectiveOnce(maxAttempts: nat, es: seq<Step>, n: nat)
    requires Schedule(maxAttempts, START, es) && n <= |es|
    ensures Safe(After(maxAttempts, START, es))
    ensures Extends(After(maxAttempts, START, es[..n]).store, After(maxAttempts, START, es).store)
  {
    if es != [] {
      var init := es[..|es| - 1];
      if n < |es| {
        assert es[..n] == init[..n];
        EffectiveOnce(maxAttempts, init, n);
        StepIsSafe(maxAttempts, After(maxAttempts, START, init), es[|es| - 1]);
      } else {
        assert es[..n] == es;
        EffectiveOnce(maxAttempts, init, |init|);
        StepIsSafe(maxAttempts, After(maxAttempts, START, init), es[|es| - 1]);
      }
    }
  }

  // ---------------------------------------------------------------------------
  // Without overlap
  // ---------------------------------------------------------------------------

  predicate Open(status: Status) { status.Claimed? || status.Failed? }

  /** What a live execution may rely on while it is the only one of its key. */
  ghost predicate Holds(s: Store, p: Process) {
    match p.pc
    case AtClaim => true
    case Done(_) => true
    case AtCheck(owner) => p.m.key in s.rows && owner == s.rows[p.m.key].job
    case AtReplay(owner) => p.m.key in s.rows && owner == s.rows[p.m.key].job && s.rows[p.m.key].status.Completed?
    case AtObserve(refs) =>
      && p.m.key in s.rows && s.rows[p.m.key].status.Completed?
      && refs == s.rows[p.m.key].refs && p.m.job != s.rows[p.m.key].job
    case _ => p.m.key in s.rows && Open(s.rows[p.m.key].status)
  }

  /** A ledger event tells what its row tells, and an observation names another job. */
  ghost predicate Agrees(s: Store, e: StageCompleted) {
    && e.ledgerKey.key in s.rows && s.rows[e.ledgerKey.key].status.Completed?
    && e.refs == s.rows[e.ledgerKey.key].refs
    && (e.ledgerKey.Observation? ==> e.ledgerKey.observer == e.job != s.rows[e.ledgerKey.key].job)
  }

  ghost predicate Exclusive(s: System) {
    forall a, b | a in s.procs && b in s.procs && a != b && s.procs[a].m.key == s.procs[b].m.key ::
      s.procs[a].pc.Done? || s.procs[b].pc.Done?
  }

  function CompleteKeys(rows: map<Key, RunRow>): set<Key> { set k | k in rows && rows[k].status.Completed? }

  /**
   * Every event agrees with its row, and the ledger is conserved: one event per complete key, one per
   * replayed pair, and no others.
   */
  ghost predicate FaithfulStore(s: Store, replayed: set<(Key, string)>) {
    && SafeStore(s)
    && (forall e | e in s.ledger :: Agrees(s, e))
    && |s.ledger| == |CompleteKeys(s.rows)| + |replayed|
    && (forall k, j | (k, j) in replayed :: HasKey(s.ledger, Observation(k, j)))
    && (forall k, j :: HasKey(s.ledger, Observation(k, j)) ==> (k, j) in replayed)
  }

  ghost predicate Faithful(s: System) {
    && Exclusive(s)
    && (forall id | id in s.procs :: Holds(s.store, s.procs[id]))
    && FaithfulStore(s.store, s.replayed)
    && (forall c | c in s.calls :: Open(c.seen))
  }

  ghost predicate Good(s: System) { Safe(s) && Faithful(s) }

  /** What stays out of one execution's key is untouched, so other executions keep what they rely on. */
  lemma OthersKeep(s: System, t: System, id: nat, key: Key)
    requires Faithful(s) && id in s.procs && s.procs[id].m.key == key && !s.procs[id].pc.Done?
    requires t.procs.Keys == s.procs.Keys && t.procs[id].m == s.procs[id].m && Holds(t.store, t.procs[id])
    requires forall x | x in s.procs && x != id :: t.procs[x] == s.procs[x]
    requires forall k | k != key ::
               (k in t.store.rows <==> k in s.store.rows) && (k in s.store.rows ==> t.store.rows[k] == s.store.rows[k])
    ensures Exclusive(t)
    ensures forall x | x in t.procs :: Holds(t.store, t.procs[x])
  {
    forall x | x in t.procs ensures Holds(t.store, t.procs[x]) {
      if x != id {
        assert Holds(s.store, s.procs[x]);
        assert s.procs[x].m.key != key || s.procs[x].pc.Done?;
      }
    }
  }

  lemma NoEventWhileOpen(s: Store, replayed: set<(Key, string)>, key: Key)
    requires FaithfulStore(s, replayed) && (key !in s.rows || !s.rows[key].status.Completed?)
    ensures forall e | e in s.ledger :: e.ledgerKey.key != key
  {
    forall e | e in s.ledger ensures e.ledgerKey.key != key { assert Agrees(s, e); }
  }

  /** Claiming or marking an open row: no event speaks of it, so nothing is disturbed. */
  lemma OpenRowIsFree(s: Store, replayed: set<(Key, string)>, key: Key, row: RunRow)
    requires FaithfulStore(s, replayed) && (key !in s.rows || !s.rows[key].status.Completed?)
    requires !row.status.Completed?
    ensures FaithfulStore(s.(rows := s.rows[key := row]), replayed)
  {
    var t := s.(rows := s.rows[key := row]);
    NoEventWhileOpen(s, replayed, key);
    assert CompleteKeys(t.rows) == CompleteKeys(s.rows);
    forall e | e in t.ledger ensures Agrees(t, e) { assert Agrees(s, e); }
  }

  /** Completing an open row appends its event and makes its key one complete key more. */
  lemma CompletionAppends(s: Store, replayed: set<(Key, string)>, m: Manifest, refs: Refs)
    requires FaithfulStore(s, replayed) && m.key in s.rows && !s.rows[m.key].status.Completed?
    ensures var t := WithCompletion(s, m, refs);
            && t.ledger == s.ledger + [StageCompleted(Completion(m.key), m.job, m.stage, refs)]
            && CompleteKeys(t.rows) == CompleteKeys(s.rows) + {m.key} && m.key !in CompleteKeys(s.rows)
  {
    NoEventWhileOpen(s, replayed, m.key);
    var t := WithCompletion(s, m, refs);
    forall k ensures k in CompleteKeys(t.rows) <==> k in CompleteKeys(s.rows) + {m.key} {}
  }

  lemma CompletionIsFaithful(s: Store, replayed: set<(Key, string)>, m: Manifest, refs: Refs)
    requires FaithfulStore(s, replayed) && m.key in s.rows && !s.rows[m.key].status.Completed?
    ensures FaithfulStore(WithCompletion(s, m, refs), replayed)
    ensures |WithCompletion(s, m, refs).ledger| == |s.ledger| + 1
  {
    var e, t := StageCompleted(Completion(m.key), m.job, m.stage, refs), WithCompletion(s, m, refs);
    NoEventWhileOpen(s, replayed, m.key);
    CompletionIsSafe(s, m, refs);
    CompletionAppends(s, replayed, m, refs);
    forall k, j ensures HasKey(t.ledger, Observation(k, j)) <==> HasKey(s.ledger, Observation(k, j)) {
      assert forall x | x in t.ledger :: x == e || x in s.ledger;
      assert forall x | x in s.ledger :: x in t.ledger;
    }
    forall x | x in t.ledger ensures Agrees(t, x) { if x in s.ledger { assert Agrees(s, x); } }
  }

  lemma ObservationIsFaithful(s: Store, replayed: set<(Key, string)>, m: Manifest)
    requires FaithfulStore(s, replayed) && m.key in s.rows && s.rows[m.key].status.Completed?
    requires m.job != s.rows[m.key].job
    ensures FaithfulStore(WithObservation(s, m, s.rows[m.key].refs), replayed + {(m.key, m.job)})
  {
    var refs := s.rows[m.key].refs;
    var e, t := StageCompleted(Observation(m.key, m.job), m.job, m.stage, refs), WithObservation(s, m, refs);
    ObservationIsSafe(s, m, refs);
    AppendOnceMore(s.ledger, e);
    if HasKey(s.ledger, e.ledgerKey) {
      assert replayed + {(m.key, m.job)} == replayed;
    } else {
      assert (m.key, m.job) !in replayed;
    }
    forall x | x in t.ledger ensures Agrees(t, x) { if x in s.ledger { assert Agrees(s, x); } }
  }

  /** One step of an execution that is alone on its key. */
  lemma MoveIsFaithful(maxAttempts: nat, s: Store, replayed: set<(Key, string)>, p: Process, result: WorkResult)
    requires FaithfulStore(s, replayed) && Sane(s, p) && Holds(s, p)
    ensures var moved := Moving(maxAttempts, s, p.m, p.pc, result);
            && FaithfulStore(moved.store, if p.pc.AtObserve? then replayed + {(p.m.key, p.m.job)} else replayed)
            && Holds(moved.store, Process(p.m, moved.pc))
            && (forall k | k != p.m.key ::
                  (k in moved.store.rows <==> k in s.rows) && (k in s.rows ==> moved.store.rows[k] == s.rows[k]))
  {
    var key := p.m.key;
    match p.pc
    case AtClaim =>
      if key !in s.rows { OpenRowIsFree(s, replayed, key, RunRow(p.m.job, p.m.stage, Claimed, Refs([], []))); }
    case AtComplete(_, _, refs) => CompletionIsFaithful(s, replayed, p.m, refs);
    case AtMark(status, _) => OpenRowIsFree(s, replayed, key, s.rows[key].(status := status));
    case AtObserve(_) => ObservationIsFaithful(s, replayed, p.m);
    case _ =>
  }

  lemma SoloStep(maxAttempts: nat, s: System, e: Step)
    requires Good(s) && Enabled(s, e) && Alone(s, e)
    ensures Good(Next(maxAttempts, s, e))
  {
    StepIsSafe(maxAttempts, s, e);
    if e.Advance? {
      var p, t := s.procs[e.id], Next(maxAttempts, s, e);
      MoveIsFaithful(maxAttempts, s.store, s.replayed, p, e.result);
      OthersKeep(s, t, e.id, p.m.key);
    }
  }

  /**
   * Without overlap, crashes included: every event carries its row's refs, work is only ever called on
   * claimed or failed rows, and the ledger counts complete keys plus replayed (key, other job) pairs.
   */
  lemma {:induction false} SoloExecutions(maxAttempts: nat, es: seq<Step>)
    requires SoloSchedule(maxAttempts, START, es)
    ensures Good(After(maxAttempts, START, es))
  {
    if es != [] {
      var init := es[..|es| - 1];
      SoloExecutions(maxAttempts, init);
      SoloStep(maxAttempts, After(maxAttempts, START, init), es[|es| - 1]);
    } else {
      assert CompleteKeys(START.store.rows) == {};
    }
  }

  /**
   * Without overlap so far, a complete or quarantined row is final, and its work is never called again,
   * whatever follows.
   */
  lemma FinishedIsFinal(maxAttempts: nat, es: seq<Step>, key: Key, more: seq<Step>)
    requires SoloSchedule(maxAttempts, START, es)
    requires var s := After(maxAttempts, START, es);
             key in s.store.rows && Finished(s.store.rows[key].status) && Schedule(maxAttempts, s, more)
    ensures var s := After(maxAttempts, START, es);
            Undisturbed(s, After(maxAttempts, s, more), key)
  {
    var s := After(maxAttempts, START, es);
    SoloExecutions(maxAttempts, es);
    forall id | id in s.procs ensures !Threatens(s.store.rows[key], s.procs[id], key) {
      assert Holds(s.store, s.procs[id]);
    }
    UnthreatenedRun(maxAttempts, s, more, key);
  }

  /** A crashed, failed or new key completes on its next uninterrupted run, with exactly one new event. */
  lemma ResumeCompletes(maxAttempts: nat, s: Store, replayed: set<(Key, string)>, m: Manifest, work: Work,
                        lastAttempt: nat, refs: Refs)
    requires FaithfulStore(s, replayed) && (m.key in s.rows ==> Open(s.rows[m.key].status))
    requires 1 <= lastAttempt && (lastAttempt == 1 || lastAttempt <= maxAttempts)
    requires work(lastAttempt) == Produced(refs) && forall i: nat | 1 <= i < lastAttempt :: work(i).Raised?
    ensures var end := Driven(maxAttempts, s, m, AtClaim, work);
            && end.pc == Done(Record(Completed, lastAttempt, Some(refs), false))
            && m.key in end.store.rows && end.store.rows[m.key].status.Completed? && end.store.rows[m.key].refs == refs
            && |end.store.ledger| == |s.ledger| + 1
            && FaithfulStore(end.store, replayed)
  {
    var claimed := WithClaim(s, m);
    var owner := claimed.rows[m.key].job;
    if m.key !in s.rows {
      OpenRowIsFree(s, replayed, m.key, RunRow(m.job, m.stage, Claimed, Refs([], [])));
    }
    ReachesWork(maxAttempts, s, m, work);
    RetriesReach(maxAttempts, claimed, m, owner, work, 1, lastAttempt);
    UnfoldComplete(maxAttempts, claimed, m, owner, lastAttempt, refs, work);
    CompletionIsFaithful(claimed, replayed, m, refs);
  }

  lemma {:induction false} RetriesReach(maxAttempts: nat, s: Store, m: Manifest, owner: string, work: Work,
                                        first: nat, last: nat)
    requires m.key in s.rows && first <= last && (first == last || last <= maxAttempts)
    requires forall i: nat | first <= i < last :: work(i).Raised?
    ensures Driven(maxAttempts, s, m, AtWork(owner, first), work) ==
            Driven(maxAttempts, s, m, AtWork(owner, last), work)
    decreases last as int - first as int
  {
    if first < last { RetriesReach(maxAttempts, s, m, owner, work, first + 1, last); }
  }

  /** Malformed input is sunk once, leaves the ledger alone, and no later run of the key works again. */
  lemma MalformedIsFinal(maxAttempts: nat, s: Store, m: Manifest, work: Work, lastAttempt: nat, later: Manifest,
                         laterWork: Work)
    requires m.key in s.rows ==> Open(s.rows[m.key].status)
    requires 1 <= lastAttempt && (lastAttempt == 1 || lastAttempt <= maxAttempts)
    requires work(lastAttempt).Malformed? && forall i: nat | 1 <= i < lastAttempt :: work(i).Raised?
    requires later.key == m.key
    ensures var end := Driven(maxAttempts, s, m, AtClaim, work);
            && end.pc == Done(Record(Quarantined, 1, None, false))
            && m.key in end.store.rows && end.store.rows[m.key].status.Quarantined?
            && end.store.ledger == s.ledger
            && end.store.quarantine == s.quarantine + [Sunk(work(lastAttempt).locator, work(lastAttempt).reason)]
            && Driven(maxAttempts, end.store, later, AtClaim, laterWork) ==
               Moved(end.store, Done(Record(Quarantined, 1, None, true)))
  {
    var claimed := WithClaim(s, m);
    var owner := claimed.rows[m.key].job;
    ReachesWork(maxAttempts, s, m, work);
    RetriesReach(maxAttempts, claimed, m, owner, work, 1, lastAttempt);
    UnfoldSink(maxAttempts, claimed, m, owner, lastAttempt, work);
    var t := Driven(maxAttempts, s, m, AtClaim, work).store;
    assert Driven(maxAttempts, t, later, AtCheck(t.rows[m.key].job), laterWork) ==
        Moved(t, Done(Record(Quarantined, 1, None, true)));
  }

  /**
   * Work that keeps raising is tried as often as the policy allows, at least once, and leaves a failed row and
   * no event.
   */
  lemma RetriesRunOut(maxAttempts: nat, s: Store, m: Manifest, work: Work)
    requires m.key in s.rows ==> Open(s.rows[m.key].status)
    requires forall i: nat | 1 <= i && (i == 1 || i <= maxAttempts) :: work(i).Raised?
    ensures var end := Driven(maxAttempts, s, m, AtClaim, work);
            && end.pc == Done(Record(Failed, if maxAttempts >= 1 then maxAttempts else 1, None, false))
            && m.key in end.store.rows && end.store.rows[m.key].status.Failed?
            && end.store.ledger == s.ledger && end.store.quarantine == s.quarantine
  {
    var claimed, last := WithClaim(s, m), if maxAttempts >= 1 then maxAttempts else 1;
    var owner := claimed.rows[m.key].job;
    ReachesWork(maxAttempts, s, m, work);
    RetriesReach(maxAttempts, claimed, m, owner, work, 1, last);
    UnfoldFail(maxAttempts, claimed, m, owner, last, work);
  }

  /** A new or open key goes from the claim straight to its first work call. */
  lemma ReachesWork(maxAttempts: nat, s: Store, m: Manifest, work: Work)
    requires m.key in s.rows ==> Open(s.rows[m.key].status)
    ensures var claimed := WithClaim(s, m);
            Driven(maxAttempts, s, m, AtClaim, work) ==
                Driven(maxAttempts, claimed, m, AtWork(claimed.rows[m.key].job, 1), work)
  {
    var owner := WithClaim(s, m).rows[m.key].job;
    if m.key in s.rows {
      assert Driven(maxAttempts, s, m, AtCheck(owner), work) == Driven(maxAttempts, s, m, AtWork(owner, 1), work);
    }
  }

  // ---------------------------------------------------------------------------
  // When a finished row is final
  // ---------------------------------------------------------------------------

  predicate Finished(status: Status) { status.Completed? || status.Quarantined? }

  /** The execution is past its check of the row and will yet call the key's work, or write something else. */
  predicate Threatens(row: RunRow, p: Process, key: Key) {
    && p.m.key == key
    && match p.pc
       case AtWork(_, _) => true
       case AtComplete(_, _, refs) => row.status != Completed || row.refs != refs
       case AtSink(_, _) => !row.status.Quarantined?
       case AtMark(status, _) => row.status != status
       case _ => false
  }

  /** No live execution threatens the key's row. */
  ghost predicate Unthreatened(s: System, key: Key) {
    && key in s.store.rows && Finished(s.store.rows[key].status)
    && forall id | id in s.procs :: !Threatens(s.store.rows[key], s.procs[id], key)
  }

  /** The row keeps its contents and the key's work is not called. */
  ghost predicate Undisturbed(s: System, t: System, key: Key) {
    && key in s.store.rows && key in t.store.rows && t.store.rows[key] == s.store.rows[key]
    && s.calls <= t.calls && forall i | |s.calls| <= i < |t.calls| :: t.calls[i].key != key
  }

  lemma UnthreatenedStep(maxAttempts: nat, s: System, e: Step, key: Key)
    requires Safe(s) && Enabled(s, e) && Unthreatened(s, key)
    ensures Unthreatened(Next(maxAttempts, s, e), key) && Undisturbed(s, Next(maxAttempts, s, e), key)
  {
    if e.Advance? {
      assert Sane(s.store, s.procs[e.id]) && !Threatens(s.store.rows[key], s.procs[e.id], key);
    }
  }

  lemma {:induction false} UnthreatenedRun(maxAttempts: nat, s: System, es: seq<Step>, key: Key)
    requires Safe(s) && Schedule(maxAttempts, s, es) && Unthreatened(s, key)
    ensures var t := After(maxAttempts, s, es); Safe(t) && Unthreatened(t, key) && Undisturbed(s, t, key)
  {
    if es != [] {
      var before := After(maxAttempts, s, es[..|es| - 1]);
      UnthreatenedRun(maxAttempts, s, es[..|es| - 1], key);
      StepIsSafe(maxAttempts, before, es[|es| - 1]);
      UnthreatenedStep(maxAttempts, before, es[|es| - 1], key);
    }
  }

  /** A schedule of at most two steps that leaves the row changed. */
  ghost predicate Overwrites(maxAttempts: nat, s: System, es: seq<Step>, key: Key) {
    && |es| <= 2 && Schedule(maxAttempts, s, es)
    && key in s.store.rows && key in After(maxAttempts, s, es).store.rows
    && After(maxAttempts, s, es).store.rows[key] != s.store.rows[key]
  }

  /** A threatening execution overwrites the row within two steps. */
  lemma ThreatStrikes(maxAttempts: nat, s: System, id: nat, key: Key)
    requires Safe(s) && id in s.procs && key in s.store.rows && Finished(s.store.rows[key].status)
    requires Threatens(s.store.rows[key], s.procs[id], key)
    ensures exists es :: Overwrites(maxAttempts, s, es, key)
  {
    var row := s.store.rows[key];
    var other := Refs(row.refs.artifacts + [""], row.refs.evidence);
    assert |other.artifacts| != |row.refs.artifacts|;
    var first := Advance(id, Produced(other));
    assert Sane(s.store, s.procs[id]);
    var es := [first];
    assert es[..0] == [];
    assert After(maxAttempts, s, es) == Next(maxAttempts, s, first);
    if s.procs[id].pc.AtWork? || s.procs[id].pc.AtSink? {
      es := [first, first];
      assert es[..1] == [first];
      assert After(maxAttempts, s, es) == Next(maxAttempts, Next(maxAttempts, s, first), first);
    }
    assert Overwrites(maxAttempts, s, es, key);
  }

  /**
   * Under every further schedule, overlap and crashes included, the row keeps its contents and its work is not
   * called.
   */
  ghost predicate Final(maxAttempts: nat, s: System, key: Key) {
    forall es | Schedule(maxAttempts, s, es) :: Undisturbed(s, After(maxAttempts, s, es), key)
  }

  lemma UnthreatenedIsFinal(maxAttempts: nat, s: System, key: Key)
    requires Safe(s) && Unthreatened(s, key)
    ensures Final(maxAttempts, s, key)
  {
    forall es | Schedule(maxAttempts, s, es) ensures Undisturbed(s, After(maxAttempts, s, es), key) {
      UnthreatenedRun(maxAttempts, s, es, key);
    }
  }

  /** A finished row is final exactly when no live execution threatens it. */
  lemma FinishedStaysExactlyWhen(maxAttempts: nat, s: System, key: Key)
    requires Safe(s) && key in s.store.rows && Finished(s.store.rows[key].status)
    ensures Final(maxAttempts, s, key) <==> forall id | id in s.procs :: !Threatens(s.store.rows[key], s.procs[id], key)
  {
    if id :| id in s.procs && Threatens(s.store.rows[key], s.procs[id], key) {
      ThreatStrikes(maxAttempts, s, id, key);
      var es :| Overwrites(maxAttempts, s, es, key);
    } else {
      UnthreatenedIsFinal(maxAttempts, s, key);
    }
  }

  // ---------------------------------------------------------------------------
  // What overlap breaks
  // ---------------------------------------------------------------------------

  /**
   * An uninterrupted call on a key that has a row returns a replayed record, and then changes no row, exactly when
   * the row is neither claimed nor failed; otherwise it works, though it lost the claim.
   */
  lemma LosingDuplicateWorksExactlyWhen(maxAttempts: nat, s: Store, m: Manifest, work: Work)
    requires m.key in s.rows
    ensures var end := Driven(maxAttempts, s, m, AtClaim, work);
            && end.pc.Done? && (end.pc.record.replayed <==> !Open(s.rows[m.key].status))
            && (!Open(s.rows[m.key].status) ==> end.store.rows == s.rows && end.store.quarantine == s.quarantine)
            && (Open(s.rows[m.key].status) ==> end.pc.record == Worked(maxAttempts, work, 1))
  {
    DrivenFate(maxAttempts, s, m, work);
    WorkedShape(maxAttempts, work, 1);
    var row := s.rows[m.key];
    if row.status.Completed? {
      UnfoldReplay(maxAttempts, s, m, work);
    } else if !Open(row.status) {
      assert Driven(maxAttempts, s, m, AtCheck(row.job), work) == Moved(s, Done(Record(row.status, 1, None, true)));
    }
    assert s.rows[m.key := row] == s.rows;
  }

  function One(m: Manifest, p: Pc): map<nat, Process> { map[1 := Process(m, p)] }

  function Two(m: Manifest, p: Pc, q: Pc): map<nat, Process> { map[1 := Process(m, p), 2 := Process(m, q)] }

  /** The system after `k` steps of the overlap: two workers, the second losing the claim but reading a claimed row. */
  function Scene(m: Manifest, refs: Refs, k: nat): System {
    var work, first := AtWork(m.job, 1), [WorkCall(m.key, Claimed)];
    var row := RunRow(m.job, m.stage, Claimed, Refs([], []));
    var open := Store(map[m.key := row], [], []);
    var done := Store(map[m.key := RunRow(m.job, m.stage, Completed, refs)],
                      [StageCompleted(Completion(m.key), m.job, m.stage, refs)], []);
    var won := Done(Record(Completed, 1, Some(refs), false));
    match k
    case 0 => START
    case 1 => System(START.store, One(m, AtClaim), [], {})
    case 2 => System(open, One(m, work), [], {})
    case 3 => System(open, Two(m, work, AtClaim), [], {})
    case 4 => System(open, Two(m, work, AtCheck(m.job)), [], {})
    case 5 => System(open, Two(m, work, work), [], {})
    case 6 => System(open, Two(m, AtComplete(m.job, 1, refs), work), first, {})
    case 7 => System(done, Two(m, won, work), first, {})
    case 8 => System(done, Two(m, won, AtMark(Failed, 1)), first + [WorkCall(m.key, Completed)], {})
    case _ =>
      System(done.(rows := map[m.key := RunRow(m.job, m.stage, Failed, refs)]),
             Two(m, won, Done(Record(Failed, 1, None, false))), first + [WorkCall(m.key, Completed)], {})
  }

  lemma TwoUpdates(m: Manifest, p: Pc, q: Pc, r: Pc)
    ensures One(m, p)[1 := Process(m, r)] == One(m, r) && One(m, p)[2 := Process(m, q)] == Two(m, p, q)
    ensures Two(m, p, q)[1 := Process(m, r)] == Two(m, r, q) && Two(m, p, q)[2 := Process(m, r)] == Two(m, p, r)
  {}

  lemma EarlyScenes(m: Manifest, refs: Refs, k: nat)
    requires k < 5
    ensures Enabled(Scene(m, refs, k), Overlap(m, refs)[k])
    ensures Next(1, Scene(m, refs, k), Overlap(m, refs)[k]) == Scene(m, refs, k + 1)
  {
    var work := AtWork(m.job, 1);
    TwoUpdates(m, AtClaim, AtClaim, work);
    TwoUpdates(m, work, AtClaim, AtCheck(m.job));
    TwoUpdates(m, work, AtCheck(m.job), work);
  }

  /** The first worker's work and completion. */
  lemma MiddleScenes(m: Manifest, refs: Refs, k: nat)
    requires 5 <= k < 7
    ensures Enabled(Scene(m, refs, k), Overlap(m, refs)[k])
    ensures Next(1, Scene(m, refs, k), Overlap(m, refs)[k]) == Scene(m, refs, k + 1)
  {
    var work, won := AtWork(m.job, 1), Done(Record(Completed, 1, Some(refs), false));
    TwoUpdates(m, work, work, AtComplete(m.job, 1, refs));
    TwoUpdates(m, AtComplete(m.job, 1, refs), work, won);
  }

  /** The second worker's work and its mark. */
  lemma LateScenes(m: Manifest, refs: Refs, k: nat)
    requires 7 <= k < 9
    ensures Enabled(Scene(m, refs, k), Overlap(m, refs)[k])
    ensures Next(1, Scene(m, refs, k), Overlap(m, refs)[k]) == Scene(m, refs, k + 1)
  {
    var work, won := AtWork(m.job, 1), Done(Record(Completed, 1, Some(refs), false));
    TwoUpdates(m, won, work, AtMark(Failed, 1));
    TwoUpdates(m, won, AtMark(Failed, 1), Done(Record(Failed, 1, None, false)));
  }

  lemma {:induction false} ScenesAreReached(m: Manifest, refs: Refs, k: nat)
    requires k <= 9
    ensures Schedule(1, START, Overlap(m, refs)[..k]) && After(1, START, Overlap(m, refs)[..k]) == Scene(m, refs, k)
  {
    if k > 0 {
      ScenesAreReached(m, refs, k - 1);
      Stepping(1, START, Overlap(m, refs), k);
      if k <= 5 {
        EarlyScenes(m, refs, k - 1);
      } else if k <= 7 {
        MiddleScenes(m, refs, k - 1);
      } else {
        LateScenes(m, refs, k - 1);
      }
    }
  }

  /** Two overlapping workers of one key: the loser works too, and its failure overwrites the winner's row. */
  lemma OverlapRepeatsWork(m: Manifest, refs: Refs)
    ensures var es := Overlap(m, refs);
            var s := After(1, START, es);
            && Schedule(1, START, es)
            && HasKey(s.store.ledger, Completion(m.key))
            && m.key in s.store.rows && s.store.rows[m.key].status == Failed
            && s.calls == [WorkCall(m.key, Claimed), WorkCall(m.key, Completed)]
  {
    ScenesAreReached(m, refs, 9);
    assert Overlap(m, refs)[..9] == Overlap(m, refs);
    assert Scene(m, refs, 9).store.ledger[0].ledgerKey == Completion(m.key);
  }

  function Overlap(m: Manifest, refs: Refs): seq<Step> {
    [Submit(1, m), Advance(1, Raised("")),
     Submit(2, m), Advance(2, Raised("")), Advance(2, Raised("")),
     Advance(1, Produced(refs)), Advance(1, Raised("")),
     Advance(2, Raised("")), Advance(2, Raised(""))]
  }

  lemma Stepping(maxAttempts: nat, s: System, es: seq<Step>, n: nat)
    requires 0 < n <= |es|
    ensures After(maxAttempts, s, es[..n]) == Next(maxAttempts, After(maxAttempts, s, es[..n - 1]), es[n - 1])
    ensures Schedule(maxAttempts, s, es[..n]) <==>
            Schedule(maxAttempts, s, es[..n - 1]) && Enabled(After(maxAttempts, s, es[..n - 1]), es[n - 1])
  {
    assert es[..n][..n - 1] == es[..n - 1];
  }
}
