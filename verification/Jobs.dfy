/** The job facade: submit, cancel, retry and selective rerun over the durable runner. */
module Jobs {
  import opened Wrappers
  import opened Sequences
  import opened Lineage
  import opened Runner
  import M = Manifests
  import SE = StageExecution
  import JS = JobStore

  // ---------------------------------------------------------------------------
  // Derived status
  // ---------------------------------------------------------------------------

  /** The status a stage is listed with last. */
  function LastStatus(states: seq<JS.StageState>, stage: string): Option<string> {
    if states == [] then None
    else if states[|states| - 1].stage == stage then Some(states[|states| - 1].status)
    else LastStatus(states[..|states| - 1], stage)
  }

  function SetOf(stages: seq<string>): set<string> { set s | s in stages }

  function Expected(rec: JS.JobRecord): set<string> {
    if rec.expected.Some? then rec.expected.value else SetOf(STAGE_ORDER)
  }

  function DeriveStatus(rec: JS.JobRecord, states: seq<JS.StageState>): JS.JobStatus {
    if rec.status.Cancelled? || rec.status.Paused? || rec.status.Failed? then rec.status
    else if Expected(rec) == {} || states == [] then rec.status
    else if exists s | s in Expected(rec) :: LastStatus(states, s).None? then JS.Running
    else if exists s | s in Expected(rec) ::
              LastStatus(states, s) == Some("quarantined") || LastStatus(states, s) == Some("failed")
      then JS.Failed
    else if forall s | s in Expected(rec) :: LastStatus(states, s) == Some("complete") then JS.Complete
    else JS.Running
  }

  // ---------------------------------------------------------------------------
  // What the commands make of a job record
  // ---------------------------------------------------------------------------

  /** A stage and everything downstream of it. */
  ghost function ClosureOf(l: Dependents, stage: string): (c: set<string>)
    ensures forall n :: n in c <==> n == stage || Reaches(l, stage, n)
  {
    ReachedAreNodes(l, stage);
    {stage} + set n | n in Nodes(l) && Reaches(l, stage, n)
  }

  lemma ReachedAreNodes(l: Dependents, a: string)
    ensures forall n | Reaches(l, a, n) :: n in Nodes(l)
  {
    forall n | Reaches(l, a, n) ensures n in Nodes(l) {
      var p :| |p| >= 2 && p[0] == a && p[|p| - 1] == n && Chain(l, p);
      var k := |p| - 2;
      assert p[k + 1] in Children(l, p[k]);
    }
  }

  function WithSubmission(rec: JS.JobRecord): JS.JobRecord {
    rec.(status := JS.Running, expected := Some(SetOf(STAGE_ORDER)), causation := None)
  }

  /** An absent reason leaves the recorded error in place. */
  function WithCancel(rec: JS.JobRecord, reason: Option<string>): JS.JobRecord {
    rec.(status := JS.Cancelled, error := if reason.Some? then reason else rec.error)
  }

  ghost function WithStageCancel(l: Dependents, rec: JS.JobRecord, stage: string): JS.JobRecord {
    rec.(cancelled := rec.cancelled + ClosureOf(l, stage))
  }

  function WithRetry(rec: JS.JobRecord): JS.JobRecord { rec.(status := JS.Running, cancelled := {}) }

  ghost function WithStageRetry(l: Dependents, rec: JS.JobRecord, stage: string): JS.JobRecord {
    rec.(status := JS.Running, cancelled := rec.cancelled - ClosureOf(l, stage))
  }

  function WithRerun(rec: JS.JobRecord, targets: seq<string>, causation: string): JS.JobRecord {
    if targets == [] then rec else rec.(expected := Some(SetOf(targets)), causation := Some(causation))
  }

  function Refreshed(rec: JS.JobRecord, states: seq<JS.StageState>): JS.JobRecord {
    rec.(status := DeriveStatus(rec, states))
  }

  function WithFailure(rec: JS.JobRecord): JS.JobRecord {
    rec.(status := JS.Failed, error := Some("submission failed"))
  }

  /** The stages of `order` not recorded complete, in order. */
  function Incomplete(order: seq<string>, states: seq<JS.StageState>): (r: seq<string>)
    ensures forall s :: s in r <==> s in order && LastStatus(states, s) != Some("complete")
  {
    if order == [] then []
    else
      assert order == order[..|order| - 1] + [order[|order| - 1]];
      var init := Incomplete(order[..|order| - 1], states);
      if LastStatus(states, order[|order| - 1]) == Some("complete") then init else init + [order[|order| - 1]]
  }

  function OpenOrAll(closure: set<string>, states: seq<JS.StageState>): set<string> {
    var open := set s | s in closure && LastStatus(states, s) != Some("complete");
    if open == {} then closure else open
  }

  /** What a single-stage retry schedules: the closure's incomplete stages, or all of it if there are none. */
  ghost predicate RetryTargets(targets: seq<string>, l: Dependents, stage: string, states: seq<JS.StageState>) {
    && NoDuplicates(targets)
    && SetOf(targets) == OpenOrAll(ClosureOf(l, stage), states)
  }

  // ---------------------------------------------------------------------------
  // The facade
  // ---------------------------------------------------------------------------

  ghost function Retried(l: Dependents, rec: JS.JobRecord, stage: Option<string>): JS.JobRecord {
    if stage.None? then WithRetry(rec) else WithStageRetry(l, rec, stage.value)
  }

  /** What a retry of the job, or of one stage, schedules. */
  ghost predicate Scheduled(targets: seq<string>, l: Dependents, stage: Option<string>, states: seq<JS.StageState>) {
    if stage.None? then targets == Incomplete(STAGE_ORDER, states) else RetryTargets(targets, l, stage.value, states)
  }

  /** How a graph run over the given stages ends. */
  function EndOf(maxAttempts: nat, req: GraphRequest, registry: Registry, rec: JS.JobRecord, store: SE.Store,
                 states: seq<JS.StageState>, seed: seq<string>, stages: seq<string>): Bench {
    Turns(maxAttempts, req, registry, Some(rec), Bench(store, states, seed, [], false, false), stages)
  }

  datatype JobError = StoreFailed(error: JS.StoreError) | GraphRaised

  class JobService {
    const store: JS.InMemoryJobStore
    const runner: DurableDAGRunner
    const lineage: Dependents
    const enc: M.Encoding

    ghost predicate Valid() { runner.store == store }

    constructor (store: JS.InMemoryJobStore, runner: DurableDAGRunner, lineage: Dependents, enc: M.Encoding)
      requires runner.store == store
      ensures Valid() && this.store == store && this.runner == runner && this.lineage == lineage && this.enc == enc
    {
      this.store, this.runner, this.lineage, this.enc := store, runner, lineage, enc;
    }

    method Closure(stage: string) returns (c: seq<string>)
      ensures c != [] && c[0] == stage
      ensures SetOf(c) == ClosureOf(lineage, stage)
      ensures NoDuplicates(c[1..])
    {
      var plan := PlanDescendants("cancel:" + stage, "SOURCE", Some(stage), Some(lineage));
      c := [stage] + StagesOf(plan.targets);
      assert c[1..] == StagesOf(plan.targets);
    }

    method Status(id: string) returns (r: Result<JS.JobStatus, JS.StoreError>)
      ensures r == if id in store.jobs then Success(DeriveStatus(store.jobs[id], store.StatesOf(id)))
                   else Failure(JS.UnknownJob(id))
    {
      if id !in store.jobs { return Failure(JS.UnknownJob(id)); }
      var rec, states := store.jobs[id], store.StatesOf(id);
      r := Success(DeriveStatus(rec, states));
    }

    method RefreshStatus(id: string)
      requires id in store.jobs
      modifies store`jobs
      ensures store.jobs == old(store.jobs)[id := Refreshed(old(store.jobs)[id], store.StatesOf(id))]
    {
      var status := Status(id);
      var _ := store.UpdateStatus(id, status.value, None);
    }

    method Cancel(id: string, stage: Option<string>, reason: Option<string>)
      returns (r: Result<JS.JobRecord, JS.StoreError>)
      modifies store`jobs
      ensures id !in old(store.jobs) ==> r == Failure(JS.UnknownJob(id)) && store.jobs == old(store.jobs)
      ensures id in old(store.jobs) ==>
                var rec := old(store.jobs)[id];
                && r == Success(if stage.None? then WithCancel(rec, reason)
                                else WithStageCancel(lineage, rec, stage.value))
                && store.jobs == old(store.jobs)[id := r.value]
    {
      if id !in store.jobs { return Failure(JS.UnknownJob(id)); }
      if stage.None? {
        r := store.UpdateStatus(id, JS.Cancelled, reason);
      } else {
        var closure := Closure(stage.value);
        r := store.SetCancelledStages(id, store.jobs[id].cancelled + SetOf(closure));
      }
    }

    /** Runs the stages and, unless the graph raises, refreshes the job's status. */
    method Drive(id: string, req: GraphRequest, registry: Registry, stages: seq<string>)
      returns (raised: bool, ghost seed: seq<string>)
      requires Valid() && id in store.jobs && req.job == id
      modifies store, runner.executor
      ensures stages != [] ==> IsSeed(seed, old(runner.executor.rows), id, LimitOf(Some(stages[0])))
      ensures var end := EndOf(runner.executor.maxAttempts, req, registry, old(store.jobs[id]),
                               old(runner.executor.View()), old(store.StatesOf(id)), seed, stages);
              && raised == end.raised && runner.executor.View() == end.store && store.StatesOf(id) == end.states
              && store.jobs == if raised then old(store.jobs)
                               else old(store.jobs)[id := Refreshed(old(store.jobs[id]), end.states)]
      ensures forall other | other != id :: store.StatesOf(other) == old(store.StatesOf(other))
    {
      raised, seed := false, [];
      if stages != [] {
        var events: seq<StageRunEvent>;
        events, raised, seed := runner.RunGraph(req, registry, stages);
      }
      if !raised { RefreshStatus(id); }
    }

    /** The job a submission is about, created if it is new. */
    function Target(id: string, sourceId: Option<string>, universe: string): JS.JobRecord
      reads store
    {
      if id in store.jobs then store.jobs[id]
      else JS.JobRecord(id, sourceId, universe, JS.Pending, None, None, {}, None)
    }

    /** Creates or finds the job and, if it is pending, marks it running with every stage expected. */
    method PrepareSubmit(id: string, sourceId: Option<string>, universe: string)
      returns (r: Result<JS.JobRecord, JobError>, go: bool)
      modifies store
      ensures var job := old(Target(id, sourceId, universe));
              if job.sourceId != sourceId || job.universe != universe then
                && !go && r == Failure(StoreFailed(JS.ConflictingJob(id)))
                && unchanged(store`jobs) && unchanged(store`stages)
              else if !job.status.Pending? then
                && !go && r == Success(job)
                && unchanged(store`jobs) && unchanged(store`stages)
              else
                && go && r == Success(WithSubmission(job)) && store.jobs == old(store.jobs)[id := r.value]
                && store.StatesOf(id) == if id in old(store.jobs) then old(store.StatesOf(id)) else []
      ensures forall other | other != id :: store.StatesOf(other) == old(store.StatesOf(other))
    {
      go := false;
      var created := store.Create(id, sourceId, universe);
      if created.Failure? { return Failure(StoreFailed(created.error)), go; }
      if !created.value.status.Pending? { return Success(created.value), go; }
      go := true;
      var _ := store.UpdateStatus(id, JS.Running, None);
      var job := store.SetExecution(id, SetOf(STAGE_ORDER), None);
      r := Success(job.value);
    }

    /** Only a job still pending is scheduled; a submission that raises leaves the job failed. */
    method Submit(id: string, sourceId: Option<string>, universe: string, registry: Registry)
      returns (r: Result<JS.JobRecord, JobError>, ghost seed: seq<string>)
      requires Valid()
      modifies store, runner.executor
      ensures var job := old(Target(id, sourceId, universe));
              if job.sourceId != sourceId || job.universe != universe then
                && r == Failure(StoreFailed(JS.ConflictingJob(id)))
                && unchanged(store`jobs) && unchanged(store`stages) && unchanged(runner.executor)
              else if !job.status.Pending? then
                && r == Success(job)
                && unchanged(store`jobs) && unchanged(store`stages) && unchanged(runner.executor)
              else
                var rec := WithSubmission(job);
                var states := if id in old(store.jobs) then old(store.StatesOf(id)) else [];
                var end := EndOf(runner.executor.maxAttempts, GraphRequest(id, sourceId, universe, None, enc),
                                 registry, rec, old(runner.executor.View()), states,
                                 seed, STAGE_ORDER);
                && IsSeed(seed, old(runner.executor.rows), id, LimitOf(Some(STAGE_ORDER[0])))
                && runner.executor.View() == end.store && store.StatesOf(id) == end.states
                && store.jobs == old(store.jobs)[id := if end.raised then WithFailure(rec)
                                                 else Refreshed(rec, end.states)]
                && r == if end.raised then Failure(GraphRaised) else Success(store.jobs[id])
      ensures forall other | other != id :: store.StatesOf(other) == old(store.StatesOf(other))
    {
      seed := [];
      var go: bool;
      r, go := PrepareSubmit(id, sourceId, universe);
      if go {
        r, seed := DriveSubmission(id, GraphRequest(id, sourceId, universe, None, enc), registry, STAGE_ORDER);
        assert store.jobs == old(store.jobs)[id := store.jobs[id]];
      }
    }

    /** `Drive`, an exception leaving the job failed. */
    method DriveSubmission(id: string, req: GraphRequest, registry: Registry, stages: seq<string>)
      returns (r: Result<JS.JobRecord, JobError>, ghost seed: seq<string>)
      requires Valid() && id in store.jobs && req.job == id
      modifies store, runner.executor
      ensures stages != [] ==> IsSeed(seed, old(runner.executor.rows), id, LimitOf(Some(stages[0])))
      ensures var rec := old(store.jobs[id]);
              var end := EndOf(runner.executor.maxAttempts, req, registry, rec, old(runner.executor.View()),
                               old(store.StatesOf(id)), seed, stages);
              && runner.executor.View() == end.store && store.StatesOf(id) == end.states
              && store.jobs == old(store.jobs)[id := if end.raised then WithFailure(rec)
                                               else Refreshed(rec, end.states)]
              && r == if end.raised then Failure(GraphRaised) else Success(store.jobs[id])
      ensures forall other | other != id :: store.StatesOf(other) == old(store.StatesOf(other))
    {
      var raised: bool;
      raised, seed := Drive(id, req, registry, stages);
      if raised { var _ := store.UpdateStatus(id, JS.Failed, Some("submission failed")); }
      r := if raised then Failure(GraphRaised) else Success(store.jobs[id]);
    }

    /** A retry that raises leaves the job running. */
    method Retry(id: string, stage: Option<string>, universe: string, registry: Registry)
      returns (r: Result<JS.JobRecord, JobError>, ghost seed: seq<string>, ghost targets: seq<string>)
      requires Valid()
      modifies store, runner.executor
      ensures id !in old(store.jobs) ==>
                && r == Failure(StoreFailed(JS.UnknownJob(id)))
                && unchanged(store`jobs) && unchanged(store`stages) && unchanged(runner.executor)
      ensures id in old(store.jobs) ==>
                var rec := Retried(lineage, old(store.jobs)[id], stage);
                var end := EndOf(runner.executor.maxAttempts, GraphRequest(id, rec.sourceId, universe, None, enc),
                                 registry, rec, old(runner.executor.View()),
                                 old(store.StatesOf(id)), seed, targets);
                && Scheduled(targets, lineage, stage, old(store.StatesOf(id)))
                && (targets != [] ==> IsSeed(seed, old(runner.executor.rows), id, LimitOf(Some(targets[0]))))
                && runner.executor.View() == end.store && store.StatesOf(id) == end.states
                && store.jobs == old(store.jobs)[id := if end.raised then rec else Refreshed(rec, end.states)]
                && r == if end.raised then Failure(GraphRaised) else Success(store.jobs[id])
      ensures forall other | other != id :: store.StatesOf(other) == old(store.StatesOf(other))
    {
      seed, targets := [], [];
      if id !in store.jobs { return Failure(StoreFailed(JS.UnknownJob(id))), seed, targets; }
      var todo := PrepareRetry(id, stage);
      targets := todo;
      r, seed := DriveOn(id, GraphRequest(id, store.jobs[id].sourceId, universe, None, enc), registry, todo);
      assert store.jobs == old(store.jobs)[id := store.jobs[id]];
    }

    /** `Drive`, answering the job or the exception. */
    method DriveOn(id: string, req: GraphRequest, registry: Registry, stages: seq<string>)
      returns (r: Result<JS.JobRecord, JobError>, ghost seed: seq<string>)
      requires Valid() && id in store.jobs && req.job == id
      modifies store, runner.executor
      ensures stages != [] ==> IsSeed(seed, old(runner.executor.rows), id, LimitOf(Some(stages[0])))
      ensures var end := EndOf(runner.executor.maxAttempts, req, registry, old(store.jobs[id]),
                               old(runner.executor.View()), old(store.StatesOf(id)), seed, stages);
              && runner.executor.View() == end.store && store.StatesOf(id) == end.states
              && store.jobs == old(store.jobs)[id := if end.raised then old(store.jobs[id])
                                               else Refreshed(old(store.jobs[id]), end.states)]
              && r == if end.raised then Failure(GraphRaised) else Success(store.jobs[id])
      ensures forall other | other != id :: store.StatesOf(other) == old(store.StatesOf(other))
    {
      var raised: bool;
      raised, seed := Drive(id, req, registry, stages);
      r := if raised then Failure(GraphRaised) else Success(store.jobs[id]);
    }

    /** Marks the job running, lifts the cancellations and picks the stages to schedule. */
    method PrepareRetry(id: string, stage: Option<string>) returns (todo: seq<string>)
      requires id in store.jobs
      modifies store`jobs
      ensures store.jobs == old(store.jobs)[id := Retried(lineage, old(store.jobs)[id], stage)]
      ensures Scheduled(todo, lineage, stage, store.StatesOf(id))
    {
      var rec, states := store.jobs[id], store.StatesOf(id);
      var _ := store.UpdateStatus(id, JS.Running, None);
      if stage.Some? {
        var closure := Closure(stage.value);
        var _ := store.SetCancelledStages(id, rec.cancelled - SetOf(closure));
        todo := OpenStages(closure, states);
      } else {
        var _ := store.SetCancelledStages(id, {});
        todo := Incomplete(STAGE_ORDER, states);
      }
    }

    /** Expects the given stages under the new causation and runs them. */
    method Reschedule(id: string, req: GraphRequest, registry: Registry, todo: seq<string>, causation: string)
      returns (raised: bool, ghost seed: seq<string>)
      requires Valid() && id in store.jobs && req.job == id
      modifies store, runner.executor
      ensures todo != [] ==> IsSeed(seed, old(runner.executor.rows), id, LimitOf(Some(todo[0])))
      ensures var rec := WithRerun(old(store.jobs)[id], todo, causation);
              var end := EndOf(runner.executor.maxAttempts, req, registry, rec, old(runner.executor.View()),
                               old(store.StatesOf(id)), seed, todo);
              && raised == end.raised && runner.executor.View() == end.store && store.StatesOf(id) == end.states
              && store.jobs == old(store.jobs)[id := if raised then rec else Refreshed(rec, end.states)]
      ensures forall other | other != id :: store.StatesOf(other) == old(store.StatesOf(other))
    {
      if todo != [] {
        var _ := store.SetExecution(id, SetOf(todo), Some(causation));
      }
      assert store.jobs == old(store.jobs)[id := WithRerun(old(store.jobs)[id], todo, causation)];
      raised, seed := Drive(id, req, registry, todo);
      assert store.jobs == old(store.jobs)[id := store.jobs[id]];
    }

    /** Reruns the descendants of a stage, never the stage itself unless it lies on a cycle. */
    method RerunStage(id: string, sourceId: string, stage: string, scope: string, causation: string, universe: string,
                      registry: Registry)
      returns (r: Result<StageTargets, JobError>, ghost seed: seq<string>, plan: StageTargets)
      requires Valid()
      modifies store, runner.executor
      ensures IsPlan(plan, lineage, stage)
      ensures id !in old(store.jobs) ==>
                && r == Failure(StoreFailed(JS.UnknownJob(id)))
                && unchanged(store`jobs) && unchanged(store`stages) && unchanged(runner.executor)
      ensures id in old(store.jobs) ==>
                var targets := StagesOf(plan.targets);
                var rec := WithRerun(old(store.jobs)[id], targets, causation);
                var end := EndOf(runner.executor.maxAttempts,
                                 GraphRequest(id, Some(sourceId), universe, Some(causation), enc), registry,
                                 rec, old(runner.executor.View()), old(store.StatesOf(id)), seed, targets);
                && (targets != [] ==> IsSeed(seed, old(runner.executor.rows), id, LimitOf(Some(targets[0]))))
                && runner.executor.View() == end.store && store.StatesOf(id) == end.states
                && store.jobs == old(store.jobs)[id := if end.raised then rec else Refreshed(rec, end.states)]
                && r == if end.raised then Failure(GraphRaised) else Success(plan)
      ensures forall other | other != id :: store.StatesOf(other) == old(store.StatesOf(other))
    {
      seed := [];
      plan := PlanDescendants(causation, scope, Some(stage), Some(lineage));
      if id !in store.jobs { return Failure(StoreFailed(JS.UnknownJob(id))), seed, plan; }
      var raised: bool;
      raised, seed := Reschedule(id, GraphRequest(id, Some(sourceId), universe, Some(causation), enc), registry,
                                 StagesOf(plan.targets), causation);
      r := if raised then Failure(GraphRaised) else Success(plan);
    }
  }

  /** The stages of a closure not recorded complete, once each; the whole closure if all are. */
  method OpenStages(closure: seq<string>, states: seq<JS.StageState>) returns (targets: seq<string>)
    ensures NoDuplicates(targets)
    ensures SetOf(targets) == OpenOrAll(SetOf(closure), states)
  {
    var all: seq<string> := [];
    targets := [];
    for i := 0 to |closure|
      invariant NoDuplicates(targets) && NoDuplicates(all)
      invariant forall s :: s in all <==> s in closure[..i]
      invariant forall s :: s in targets <==> s in closure[..i] && LastStatus(states, s) != Some("complete")
    {
      assert closure[..i + 1] == closure[..i] + [closure[i]];
      if closure[i] !in all {
        all := all + [closure[i]];
        if LastStatus(states, closure[i]) != Some("complete") { targets := targets + [closure[i]]; }
      }
    }
    assert closure[..|closure|] == closure;
    ghost var open := set s | s in SetOf(closure) && LastStatus(states, s) != Some("complete");
    assert SetOf(targets) == open;
    if targets == [] {
      targets := all;
      assert SetOf(all) == SetOf(closure);
    } else {
      assert targets[0] in open;
    }
  }
}
