/** The durable runner: one graph of stages, driven in order through the stage executor. */
module Runner {
  import opened Wrappers
  import opened Sequences
  import opened Lineage
  import opened Manifests
  import SE = StageExecution
  import JS = JobStore

  /** What one stage does with its manifest, attempt by attempt. */
  type StageWork = StageManifest -> SE.Work
  type Registry = map<string, StageWork>

  datatype GraphRequest = GraphRequest(
    job: string, sourceId: Option<string>, universe: string, causation: Option<string>, enc: Encoding)

  datatype StageRunEvent = StageRunEvent(stage: string, status: string, replayed: bool)

  /** `raised`: an exception (malformed input, an unknown stage) has left the graph. */
  datatype Bench = Bench(
    store: SE.Store, states: seq<JS.StageState>, prior: seq<string>, events: seq<StageRunEvent>,
    stopped: bool, raised: bool)

  function StatusText(s: SE.Status): string {
    match s
    case Claimed => "claimed"
    case Completed => "complete"
    case Failed => "failed"
    case Quarantined => "quarantined"
    case Cancelled => "cancelled"
  }

  /** The universe defaults when it is empty. */
  function ManifestFor(req: GraphRequest, stage: string, evidence: seq<string>): StageManifest {
    var input := map["source_id" := OrEmpty(req.sourceId)];
    StageManifest(req.job, stage, req.sourceId, None,
                  if req.universe != "" then req.universe else BASE_UNIVERSE, evidence,
                  if req.causation.Some? then input["rerun_causation" := req.causation.value] else input,
                  1, map[], None)
  }

  function KeyFor(req: GraphRequest, stage: string, evidence: seq<string>): SE.Key {
    Material(req.enc, ManifestFor(req, stage, evidence))
  }

  function ExecManifest(req: GraphRequest, stage: string, evidence: seq<string>): SE.Manifest {
    SE.Manifest(KeyFor(req, stage, evidence), req.job, stage)
  }

  function Observed(b: Bench, stage: string, status: string, key: Option<string>, attempts: nat,
                    replayed: bool): Bench {
    b.(states := JS.Recorded(b.states, JS.StageState(stage, status, key, attempts)),
       events := b.events + [StageRunEvent(stage, status, replayed)])
  }

  /** The job may go on: it exists and is neither cancelled nor paused. */
  predicate Schedulable(rec: Option<JS.JobRecord>) {
    rec.Some? && !rec.value.status.Cancelled? && !rec.value.status.Paused?
  }

  /** The turn of one stage in the runner's loop. */
  function Turn(maxAttempts: nat, req: GraphRequest, registry: Registry, rec: Option<JS.JobRecord>, b: Bench,
                stage: string): Bench {
    if b.stopped || b.raised then b
    else if !Schedulable(rec) then b.(stopped := true)
    else if stage in rec.value.cancelled then Observed(b, stage, "cancelled", None, 0, true)
    else if stage !in STAGE_ORDER then b.(raised := true)
    else if stage !in registry then Observed(b, stage, "pending", None, 0, false)
    else Executed(maxAttempts, req, registry[stage](ManifestFor(req, stage, b.prior)), b, stage)
  }

  /** A stage that is really run: through the executor, then observed, its refs passed on. */
  function Executed(maxAttempts: nat, req: GraphRequest, work: SE.Work, b: Bench, stage: string): Bench {
    var m := ExecManifest(req, stage, b.prior);
    var moved := SE.Driven(maxAttempts, b.store, m, SE.AtClaim, work);
    var record := RecordOf(moved.pc);
    if record.status.Quarantined? && !record.replayed then b.(store := moved.store, raised := true)
    else
      Observed(b, stage, StatusText(record.status), Some(m.key), record.attempts, record.replayed).(
        store := moved.store, prior := PassedOn(b.prior, record))
  }

  function PassedOn(prior: seq<string>, record: SE.Record): seq<string> {
    if record.status.Completed? && record.refs.Some? then Absorb(prior, record.refs.value.artifacts) else prior
  }

  function RecordOf(pc: SE.Pc): SE.Record {
    if pc.Done? then pc.record else SE.Record(SE.Claimed, 0, None, false)
  }

  function Turns(maxAttempts: nat, req: GraphRequest, registry: Registry, rec: Option<JS.JobRecord>, b: Bench,
                 stages: seq<string>): Bench {
    if stages == [] then b
    else Turn(maxAttempts, req, registry, rec, Turns(maxAttempts, req, registry, rec, b, stages[..|stages| - 1]),
              stages[|stages| - 1])
  }

  // ---------------------------------------------------------------------------
  // Seeding from committed rows
  // ---------------------------------------------------------------------------

  /** A complete row of the job whose stage comes before position `limit`. */
  predicate Contributes(row: SE.RunRow, job: string, limit: nat) {
    row.job == job && row.status.Completed? && row.stage in STAGE_ORDER && IndexOf(STAGE_ORDER, row.stage) < limit
  }

  /** The position a seed reads up to. */
  function LimitOf(upTo: Option<string>): nat {
    if upTo.Some? then IndexOf(STAGE_ORDER, upTo.value) else |STAGE_ORDER|
  }

  /** The non-empty refs of all contributing rows, once each, in no particular order. */
  ghost predicate IsSeed(seed: seq<string>, rows: map<SE.Key, SE.RunRow>, job: string, limit: nat) {
    && NoDuplicates(seed)
    && forall r :: r in seed <==>
         r != "" && exists k | k in rows :: Contributes(rows[k], job, limit) && r in rows[k].refs.artifacts
  }

  method CommittedPriorRefs(rows: map<SE.Key, SE.RunRow>, job: string, upTo: Option<string>)
    returns (merged: seq<string>)
    ensures IsSeed(merged, rows, job, LimitOf(upTo))
  {
    var limit := LimitOf(upTo);
    merged := [];
    var todo := rows.Keys;
    while todo != {}
      invariant todo <= rows.Keys && NoDuplicates(merged)
      invariant forall r :: r in merged <==>
                r != "" && exists k | k in rows && k !in todo ::
                  Contributes(rows[k], job, limit) && r in rows[k].refs.artifacts
    {
      var k :| k in todo;
      if Contributes(rows[k], job, limit) {
        merged := AppendRefs(merged, rows[k].refs.artifacts);
      }
      todo := todo - {k};
    }
  }

  /** Appends the non-empty refs that are not there yet. */
  method AppendRefs(start: seq<string>, refs: seq<string>) returns (merged: seq<string>)
    requires NoDuplicates(start)
    ensures NoDuplicates(merged)
    ensures forall r :: r in merged <==> r in start || (r != "" && r in refs)
  {
    merged := start;
    for i := 0 to |refs|
      invariant NoDuplicates(merged)
      invariant forall r :: r in merged <==> r in start || (r != "" && r in refs[..i])
    {
      assert refs[..i + 1] == refs[..i] + [refs[i]];
      if refs[i] != "" && refs[i] !in merged { merged := merged + [refs[i]]; }
    }
    assert refs[..|refs|] == refs;
  }

  // ---------------------------------------------------------------------------
  // The runner
  // ---------------------------------------------------------------------------

  class DurableDAGRunner {
    const executor: SE.DurableStageExecutor
    const store: JS.InMemoryJobStore

    constructor (executor: SE.DurableStageExecutor, store: JS.InMemoryJobStore)
      ensures this.executor == executor && this.store == store
    {
      this.executor, this.store := executor, store;
    }

    function RecOf(job: string): Option<JS.JobRecord>
      reads store
    {
      if job in store.jobs then Some(store.jobs[job]) else None
    }

    method RunGraph(req: GraphRequest, registry: Registry, stages: seq<string>)
      returns (events: seq<StageRunEvent>, raised: bool, ghost seed: seq<string>)
      modifies executor, store
      ensures store.jobs == old(store.jobs)
      ensures IsSeed(seed, old(executor.rows), req.job, LimitOf(if stages == [] then None else Some(stages[0])))
      ensures var end := Turns(executor.maxAttempts, req, registry, old(RecOf(req.job)),
                               Bench(old(executor.View()), old(store.StatesOf(req.job)), seed, [], false, false),
                               stages);
              && executor.View() == end.store && store.StatesOf(req.job) == end.states
              && events == end.events && raised == end.raised
      ensures forall id | id != req.job :: store.StatesOf(id) == old(store.StatesOf(id))
    {
      var prior := CommittedPriorRefs(executor.rows, req.job, if stages == [] then None else Some(stages[0]));
      seed := prior;
      events, raised := [], false;
      var stopped := false;
      ghost var start := Bench(executor.View(), store.StatesOf(req.job), seed, [], false, false);
      ghost var rec := RecOf(req.job);
      var i := 0;
      while i < |stages| && !stopped && !raised
        invariant 0 <= i <= |stages| && store.jobs == old(store.jobs)
        invariant Bench(executor.View(), store.StatesOf(req.job), prior, events, stopped, raised)
                  == Turns(executor.maxAttempts, req, registry, rec, start, stages[..i])
        invariant forall id | id != req.job :: store.StatesOf(id) == old(store.StatesOf(id))
      {
        assert stages[..i + 1][..i] == stages[..i];
        ghost var b := Bench(executor.View(), store.StatesOf(req.job), prior, events, false, false);
        var more: seq<StageRunEvent>;
        prior, more, stopped, raised := OneStage(req, registry, stages[i], prior, b);
        events := events + more;
        i := i + 1;
      }
      TurnsStop(executor.maxAttempts, req, registry, rec, start, stages, i);
    }

    /** One iteration of the loop. */
    method OneStage(req: GraphRequest, registry: Registry, stage: string, prior: seq<string>, ghost b: Bench)
      returns (next: seq<string>, events: seq<StageRunEvent>, stopped: bool, raised: bool)
      requires b.store == executor.View() && b.states == store.StatesOf(req.job) && b.prior == prior
      requires !b.stopped && !b.raised
      modifies executor, store
      ensures store.jobs == old(store.jobs)
      ensures Bench(executor.View(), store.StatesOf(req.job), next, b.events + events, stopped, raised)
              == Turn(executor.maxAttempts, req, registry, old(RecOf(req.job)), b, stage)
      ensures forall id | id != req.job :: store.StatesOf(id) == old(store.StatesOf(id))
    {
      next, events, stopped, raised := prior, [], false, false;
      if req.job !in store.jobs {
        stopped := true;
        assert b.events + events == b.events;
        return;
      }
      var job := store.jobs[req.job];
      if job.status.Cancelled? || job.status.Paused? {
        stopped := true;
        assert b.events + events == b.events;
        return;
      }
      if stage in job.cancelled {
        store.RecordStage(req.job, JS.StageState(stage, "cancelled", None, 0));
        events := [StageRunEvent(stage, "cancelled", true)];
        return;
      }
      if stage !in STAGE_ORDER {
        // The manifest constructor refuses an unknown stage by raising.
        raised := true;
        assert b.events + events == b.events;
        return;
      }
      if stage !in registry {
        store.RecordStage(req.job, JS.StageState(stage, "pending", None, 0));
        events := [StageRunEvent(stage, "pending", false)];
        return;
      }
      var m := ExecManifest(req, stage, prior);
      var record := executor.Run(m, registry[stage](ManifestFor(req, stage, prior)));
      if record.status.Quarantined? && !record.replayed {
        raised := true;
        assert b.events + events == b.events;
        return;
      }
      store.RecordStage(req.job, JS.StageState(stage, StatusText(record.status), Some(m.key), record.attempts));
      events := [StageRunEvent(stage, StatusText(record.status), record.replayed)];
      if record.status.Completed? && record.refs.Some? {
        next := Merge(prior, record.refs.value.artifacts);
      }
    }
  }

  method Merge(prior: seq<string>, refs: seq<string>) returns (merged: seq<string>)
    ensures merged == Absorb(prior, refs)
  {
    merged := prior;
    for i := 0 to |refs|
      invariant Absorb(merged, refs[i..]) == Absorb(prior, refs)
    {
      if refs[i] !in merged { merged := merged + [refs[i]]; }
    }
  }

  /** What one stage that is really run leaves of a bench, read off the execution. */
  lemma ExecutedParts(maxAttempts: nat, req: GraphRequest, work: SE.Work, b: Bench, stage: string, moved: SE.Moved)
    requires moved == SE.Driven(maxAttempts, b.store, ExecManifest(req, stage, b.prior), SE.AtClaim, work)
    ensures var record, end := RecordOf(moved.pc), Executed(maxAttempts, req, work, b, stage);
            && end.store == moved.store && end.stopped == b.stopped
            && end.raised == (b.raised || (record.status.Quarantined? && !record.replayed))
            && end.prior == (if record.status.Quarantined? then b.prior else PassedOn(b.prior, record))
  {}

  /** A graph can be cut anywhere. */
  lemma {:induction false} TurnsSplit(maxAttempts: nat, req: GraphRequest, registry: Registry,
                                      rec: Option<JS.JobRecord>,
                                      b: Bench, first: seq<string>, second: seq<string>)
    ensures Turns(maxAttempts, req, registry, rec, b, first + second) ==
            Turns(maxAttempts, req, registry, rec, Turns(maxAttempts, req, registry, rec, b, first), second)
    decreases |second|
  {
    if second == [] {
      assert first + second == first;
    } else {
      var init := second[..|second| - 1];
      assert (first + second)[..|first + second| - 1] == first + init;
      TurnsSplit(maxAttempts, req, registry, rec, b, first, init);
    }
  }

  /** Once stopped or raised, further stages change nothing. */
  lemma {:induction false} TurnsStop(maxAttempts: nat, req: GraphRequest, registry: Registry, rec: Option<JS.JobRecord>,
                                     b: Bench, stages: seq<string>, i: nat)
    requires i <= |stages|
    requires var mid := Turns(maxAttempts, req, registry, rec, b, stages[..i]);
             i == |stages| || mid.stopped || mid.raised
    ensures Turns(maxAttempts, req, registry, rec, b, stages) == Turns(maxAttempts, req, registry, rec, b, stages[..i])
    decreases |stages|
  {
    if i == |stages| {
      assert stages[..i] == stages;
    } else {
      var init := stages[..|stages| - 1];
      assert init[..i] == stages[..i];
      TurnsStop(maxAttempts, req, registry, rec, b, init, i);
    }
  }
}
