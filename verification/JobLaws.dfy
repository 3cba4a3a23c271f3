/** One job under any sequence of commands, its graph runs interleaved stage by stage. */
module JobLaws {
  import opened Wrappers
  import opened Sequences
  import opened Lineage
  import opened Runner
  import opened RunnerLaws
  import opened Jobs
  import opened Fates
  import SE = StageExecution
  import JS = JobStore

  // ---------------------------------------------------------------------------
  // The machine
  // ---------------------------------------------------------------------------

  datatype Origin = Submission | Retrial | Rerun | SourceRerun

  datatype Working = Working(stage: string, work: SE.Work)

  /** A graph run in flight. `todo`: the stages the loop has not reached yet. */
  datatype Flight = Flight(
    origin: Origin, req: GraphRequest, registry: Registry, todo: seq<string>, prior: seq<string>,
    working: Option<Working>, over: bool)

  /** `started`: every stage whose work was handed to the executor, in order. */
  datatype World = World(
    rec: JS.JobRecord, store: SE.Store, states: seq<JS.StageState>, flights: seq<Flight>, started: seq<string>)

  datatype Setup = Setup(maxAttempts: nat, lineage: Dependents)

  /** Commands, and one step of a flight. The seeds and targets are whatever the reads yielded. */
  datatype Action =
    | Submit(req: GraphRequest, registry: Registry, seed: seq<string>)
    | CancelJob(reason: Option<string>)
    | CancelStage(stage: string)
    | RetryJob(req: GraphRequest, registry: Registry, seed: seq<string>)
    | RetryStage(stage: string, req: GraphRequest, registry: Registry, targets: seq<string>, seed: seq<string>)
    | RerunStages(origin: Origin, req: GraphRequest, registry: Registry, targets: seq<string>, seed: seq<string>,
                  causation: string)
    | Tick(flight: nat)

  function WithRefresh(w: World): World { w.(rec := Refreshed(w.rec, w.states)) }

  /** Starting a graph run; with nothing to run, only the status is refreshed, unless the command never does. */
  function Launched(w: World, origin: Origin, req: GraphRequest, registry: Registry, stages: seq<string>,
                    seed: seq<string>): World {
    if stages == [] then (if origin.SourceRerun? then w else WithRefresh(w))
    else w.(flights := w.flights + [Flight(origin, req, registry, stages, seed, None, false)])
  }

  datatype Moved = Moved(world: World, flight: Flight)

  /** The loop is left: the status is refreshed, except after a rerun of the whole source. */
  function Landed(w: World, f: Flight): Moved {
    Moved(if f.origin.SourceRerun? then w else WithRefresh(w), f.(over := true))
  }

  /** An exception leaves the loop: only a submission turns it into a failed job. */
  function Crashed(w: World, f: Flight): Moved {
    Moved(if f.origin.Submission? then w.(rec := WithFailure(w.rec)) else w, f.(over := true, working := None))
  }

  function WithState(w: World, stage: string, status: string): World {
    w.(states := JS.Recorded(w.states, JS.StageState(stage, status, None, 0)))
  }

  /** The head of the loop: read the job, then skip the stage or begin it. */
  function Checked(w: World, f: Flight): Moved {
    if f.todo == [] || !Schedulable(Some(w.rec)) then Landed(w, f)
    else
      var stage, next := f.todo[0], f.(todo := f.todo[1..]);
      if stage in w.rec.cancelled then Moved(WithState(w, stage, "cancelled"), next)
      else if stage !in STAGE_ORDER then Crashed(w, next)
      else if stage !in f.registry then Moved(WithState(w, stage, "pending"), next)
      else
        Moved(w.(started := w.started + [stage]),
              next.(working := Some(Working(stage, f.registry[stage](ManifestFor(f.req, stage, f.prior))))))
  }

  function BenchOf(w: World, f: Flight): Bench { Bench(w.store, w.states, f.prior, [], false, false) }

  /** The rest of the loop body: execute, observe, pass the refs on. */
  function Worked(maxAttempts: nat, w: World, f: Flight): Moved
    requires f.working.Some?
  {
    var b := Executed(maxAttempts, f.req, f.working.value.work, BenchOf(w, f), f.working.value.stage);
    if b.raised then Crashed(w.(store := b.store), f)
    else Moved(w.(store := b.store, states := b.states), f.(prior := b.prior, working := None))
  }

  function Advanced(maxAttempts: nat, w: World, f: Flight): Moved {
    if f.over then Moved(w, f)
    else if f.working.Some? then Worked(maxAttempts, w, f)
    else Checked(w, f)
  }

  ghost function Step(c: Setup, w: World, a: Action): World {
    match a
    case Submit(req, registry, seed) =>
      if !w.rec.status.Pending? then w
      else Launched(w.(rec := WithSubmission(w.rec)), Submission, req, registry, STAGE_ORDER, seed)
    case CancelJob(reason) => w.(rec := WithCancel(w.rec, reason))
    case CancelStage(stage) => w.(rec := WithStageCancel(c.lineage, w.rec, stage))
    case RetryJob(req, registry, seed) =>
      Launched(w.(rec := WithRetry(w.rec)), Retrial, req, registry, Incomplete(STAGE_ORDER, w.states), seed)
    case RetryStage(stage, req, registry, targets, seed) =>
      Launched(w.(rec := WithStageRetry(c.lineage, w.rec, stage)), Retrial, req, registry, targets, seed)
    case RerunStages(origin, req, registry, targets, seed, causation) =>
      Launched(w.(rec := WithRerun(w.rec, targets, causation)), origin, req, registry, targets, seed)
    case Tick(i) =>
      if i >= |w.flights| then w
      else
        var m := Advanced(c.maxAttempts, w, w.flights[i]);
        m.world.(flights := w.flights[i := m.flight])
  }

  ghost function Run(c: Setup, w: World, actions: seq<Action>): World {
    if actions == [] then w else Step(c, Run(c, w, actions[..|actions| - 1]), actions[|actions| - 1])
  }

  // ---------------------------------------------------------------------------
  // Complete means complete
  // ---------------------------------------------------------------------------

  /** What every command and step keeps. */
  ghost predicate Tidy(w: World) {
    && JS.OnePerStage(w.states)
    && w.rec.expected != Some({})
    && (w.rec.status.Complete? ==> w.states != [])
  }

  /** A job as it is created: pending, nothing recorded, nothing cancelled, nothing in flight. */
  function NewJob(id: string, sourceId: Option<string>, universe: string, store: SE.Store): World {
    World(JS.JobRecord(id, sourceId, universe, JS.Pending, None, None, {}, None), store, [], [], [])
  }

  lemma LastIsTheOnly(states: seq<JS.StageState>, stage: string, i: nat)
    requires JS.OnePerStage(states) && i < |states| && states[i].stage == stage
    ensures LastStatus(states, stage) == Some(states[i].status)
  {
    if i < |states| - 1 { LastIsTheOnly(states[..|states| - 1], stage, i); }
  }

  lemma {:induction false} LastIsListed(states: seq<JS.StageState>, stage: string)
    ensures LastStatus(states, stage).Some? <==> exists i: nat | i < |states| :: states[i].stage == stage
    ensures LastStatus(states, stage).Some? ==>
              exists i: nat | i < |states| ::
                states[i].stage == stage && LastStatus(states, stage) == Some(states[i].status)
  {
    if states != [] && states[|states| - 1].stage != stage {
      var init := states[..|states| - 1];
      LastIsListed(init, stage);
      if i: nat :| i < |states| && states[i].stage == stage {
        assert init[i].stage == stage;
      }
      if LastStatus(init, stage).Some? {
        var i: nat :| i < |init| && init[i].stage == stage && LastStatus(init, stage) == Some(init[i].status);
        assert states[i].stage == stage;
      }
    }
  }

  /** The stage has exactly one recorded state, and it is complete. */
  ghost predicate RecordedComplete(states: seq<JS.StageState>, stage: string) {
    && (exists s | s in states :: s.stage == stage)
    && forall s | s in states && s.stage == stage :: s.status == "complete"
  }

  lemma LastDecides(states: seq<JS.StageState>, stage: string)
    requires JS.OnePerStage(states)
    ensures LastStatus(states, stage) == Some("complete") <==> RecordedComplete(states, stage)
  {
    LastIsListed(states, stage);
    forall s | s in states && s.stage == stage ensures LastStatus(states, stage) == Some(s.status) {
      var i: nat :| i < |states| && states[i] == s;
      LastIsTheOnly(states, stage, i);
    }
    if LastStatus(states, stage).Some? {
      var i: nat :| i < |states| && states[i].stage == stage;
      assert states[i] in states;
    }
  }

  lemma RecordedKeepsTidy(w: World, s: JS.StageState)
    requires Tidy(w)
    ensures Tidy(w.(states := JS.Recorded(w.states, s)))
  {
    JS.RecordedIsLatest(w.states, s);
  }

  lemma OrderIsNotEmpty()
    ensures SetOf(STAGE_ORDER) != {}
  {
    assert STAGE_ORDER[0] in SetOf(STAGE_ORDER);
  }

  lemma StepKeepsTidy(c: Setup, w: World, a: Action)
    requires Tidy(w)
    ensures Tidy(Step(c, w, a))
  {
    match a
    case Submit(_, _, _) => OrderIsNotEmpty();
    case RerunStages(_, _, _, targets, _, causation) =>
      if targets != [] { assert targets[0] in SetOf(targets); }
    case Tick(i) =>
      if i < |w.flights| { AdvanceKeepsTidy(c.maxAttempts, w, w.flights[i]); }
    case _ =>
  }

  lemma AdvanceKeepsTidy(maxAttempts: nat, w: World, f: Flight)
    requires Tidy(w)
    ensures Tidy(Advanced(maxAttempts, w, f).world)
  {
    if !f.over && f.working.Some? {
      var stage := f.working.value.stage;
      var b := Executed(maxAttempts, f.req, f.working.value.work, BenchOf(w, f), stage);
      if !b.raised {
        var s :| b.states == JS.Recorded(w.states, s);
        RecordedKeepsTidy(w, s);
      }
    } else if !f.over && f.todo != [] {
      RecordedKeepsTidy(w, JS.StageState(f.todo[0], "cancelled", None, 0));
      RecordedKeepsTidy(w, JS.StageState(f.todo[0], "pending", None, 0));
    }
  }

  lemma {:induction false} RunKeepsTidy(c: Setup, w: World, actions: seq<Action>)
    requires Tidy(w)
    ensures Tidy(Run(c, w, actions))
  {
    if actions != [] {
      RunKeepsTidy(c, w, actions[..|actions| - 1]);
      StepKeepsTidy(c, Run(c, w, actions[..|actions| - 1]), actions[|actions| - 1]);
    }
  }

  /** The stage is awaited before the job can be complete: all of them are until a command says otherwise. */
  predicate Awaited(rec: JS.JobRecord, stage: string) {
    (rec.expected == None ==> stage in STAGE_ORDER) && (rec.expected != None ==> stage in rec.expected.value)
  }

  ghost predicate Has(states: seq<JS.StageState>, stage: string, status: string) {
    exists s | s in states :: s.stage == stage && s.status == status
  }

  ghost predicate Seen(states: seq<JS.StageState>, stage: string) { exists s | s in states :: s.stage == stage }

  /** Every awaited stage has a recorded state, and one of them is a failure. */
  ghost predicate SomeFailed(rec: JS.JobRecord, states: seq<JS.StageState>) {
    && (forall stage | Awaited(rec, stage) :: Seen(states, stage))
    && exists stage :: Awaited(rec, stage) && (Has(states, stage, "failed") || Has(states, stage, "quarantined"))
  }

  ghost predicate AllComplete(rec: JS.JobRecord, states: seq<JS.StageState>) {
    forall stage | Awaited(rec, stage) :: RecordedComplete(states, stage)
  }

  /**
   * A job that was ended keeps the status of its record. Any other has failed exactly when every awaited stage has
   * a recorded state and one of them is a failure, is complete exactly when each has a single, complete state, and
   * is otherwise running, or as recorded if nothing is.
   */
  ghost predicate StatusFits(d: JS.JobStatus, rec: JS.JobRecord, states: seq<JS.StageState>) {
    if rec.status in {JS.Cancelled, JS.Paused, JS.Failed} then d == rec.status
    else
      && (d == JS.Failed <==> SomeFailed(rec, states))
      && (d == JS.Complete <==> AllComplete(rec, states))
      && (!SomeFailed(rec, states) && !AllComplete(rec, states) ==>
            d == if states == [] then rec.status else JS.Running)
  }

  /** In every state reached from a new job the derived status fits what is recorded. */
  lemma {:induction false} StatusFitsTheRecord(c: Setup, id: string, sourceId: Option<string>, universe: string,
                                               store: SE.Store, actions: seq<Action>)
    ensures var end := Run(c, NewJob(id, sourceId, universe, store), actions);
            StatusFits(DeriveStatus(end.rec, end.states), end.rec, end.states)
  {
    RunKeepsTidy(c, NewJob(id, sourceId, universe, store), actions);
    TidyStatusFits(Run(c, NewJob(id, sourceId, universe, store), actions));
  }

  lemma TidyStatusFits(w: World)
    requires Tidy(w)
    ensures StatusFits(DeriveStatus(w.rec, w.states), w.rec, w.states)
  {
    OrderIsNotEmpty();
    AwaitedIsExpected(w.rec);
    forall stage
      ensures Seen(w.states, stage) <==> LastStatus(w.states, stage) != None
      ensures Has(w.states, stage, "failed") <==> LastStatus(w.states, stage) == Some("failed")
      ensures Has(w.states, stage, "quarantined") <==> LastStatus(w.states, stage) == Some("quarantined")
      ensures RecordedComplete(w.states, stage) <==> LastStatus(w.states, stage) == Some("complete")
    {
      LastDecides(w.states, stage);
      LastIsHeld(w.states, stage, "failed");
      LastIsHeld(w.states, stage, "quarantined");
    }
    DerivedFits(w.rec, w.states);
  }

  lemma AwaitedIsExpected(rec: JS.JobRecord)
    ensures forall stage :: Awaited(rec, stage) <==> stage in Expected(rec)
  {}

  lemma LastIsHeld(states: seq<JS.StageState>, stage: string, status: string)
    requires JS.OnePerStage(states)
    ensures Has(states, stage, status) <==> LastStatus(states, stage) == Some(status)
    ensures Seen(states, stage) <==> LastStatus(states, stage) != None
  {
    LastIsListed(states, stage);
    if s :| s in states && s.stage == stage {
      var i: nat :| i < |states| && states[i] == s;
      LastIsTheOnly(states, stage, i);
    }
    forall s | s in states && s.stage == stage ensures LastStatus(states, stage) == Some(s.status) {
      var i: nat :| i < |states| && states[i] == s;
      LastIsTheOnly(states, stage, i);
    }
    if LastStatus(states, stage) != None {
      var i: nat :| i < |states| && states[i].stage == stage && LastStatus(states, stage) == Some(states[i].status);
      assert states[i] in states;
    }
  }

  /** The same over the last status of each stage. */
  lemma DerivedFits(rec: JS.JobRecord, states: seq<JS.StageState>)
    requires Expected(rec) != {} && (rec.status == JS.Complete ==> states != [])
    ensures var d := DeriveStatus(rec, states);
            var all := forall s | s in Expected(rec) :: LastStatus(states, s) != None;
            var bad := exists s | s in Expected(rec) :: LastStatus(states, s) in {Some("failed"), Some("quarantined")};
            var done := forall s | s in Expected(rec) :: LastStatus(states, s) == Some("complete");
            if rec.status in {JS.Cancelled, JS.Paused, JS.Failed} then d == rec.status
            else
              && (d == JS.Failed <==> all && bad) && (d == JS.Complete <==> done)
              && (!(all && bad) && !done ==> d == if states == [] then rec.status else JS.Running)
  {
    var any :| any in Expected(rec);
    assert states == [] ==> LastStatus(states, any) == None;
  }

  /**
   * In every state reached from a new job the derived status is complete exactly when no command ended the job and
   * each expected stage has a single recorded state, which is complete; that state then names a complete row.
   */
  lemma CompleteMeansAllComplete(c: Setup, id: string, sourceId: Option<string>, universe: string, store: SE.Store,
                                 actions: seq<Action>)
    ensures var end := Run(c, NewJob(id, sourceId, universe, store), actions);
            DeriveStatus(end.rec, end.states).Complete? <==>
              && !end.rec.status.Cancelled? && !end.rec.status.Paused? && !end.rec.status.Failed?
              && forall s | s in Expected(end.rec) :: RecordedComplete(end.states, s)
    ensures var end := Run(c, NewJob(id, sourceId, universe, store), actions);
            DeriveStatus(end.rec, end.states).Complete? ==>
              forall stage | Awaited(end.rec, stage) :: Committed(end.states, end.store, stage)
  {
    var end := Run(c, NewJob(id, sourceId, universe, store), actions);
    StatusFitsTheRecord(c, id, sourceId, universe, store, actions);
    AwaitedIsExpected(end.rec);
    RunKeepsBacked(c, NewJob(id, sourceId, universe, store), actions);
    if AllComplete(end.rec, end.states) {
      forall stage | Awaited(end.rec, stage) ensures Committed(end.states, end.store, stage) {
        var s :| s in end.states && s.stage == stage;
        assert RecordedComplete(end.states, stage);
      }
    }
  }

  /** The recorded state of the stage names a complete row of it. */
  ghost predicate Committed(states: seq<JS.StageState>, store: SE.Store, stage: string) {
    exists s | s in states ::
      && s.stage == stage && s.key != None && s.key.value in store.rows
      && store.rows[s.key.value].status == SE.Completed && StageKey(s.key.value, stage)
  }

  lemma WorkedKeepsBacked(maxAttempts: nat, w: World, f: Flight)
    requires Backed(w.states, w.store) && f.working.Some?
    ensures var end := Worked(maxAttempts, w, f).world; Backed(end.states, end.store)
  {
    ExecutedKeepsBacked(maxAttempts, f.req, f.working.value.work, BenchOf(w, f), f.working.value.stage);
  }

  lemma CheckedKeepsBacked(w: World, f: Flight)
    requires Backed(w.states, w.store)
    ensures var end := Checked(w, f).world; Backed(end.states, end.store)
  {
    if f.todo != [] {
      RecordedIsBacked(w.states, w.store, JS.StageState(f.todo[0], "cancelled", None, 0));
      RecordedIsBacked(w.states, w.store, JS.StageState(f.todo[0], "pending", None, 0));
    }
  }

  lemma AdvanceKeepsBacked(maxAttempts: nat, w: World, f: Flight)
    requires Backed(w.states, w.store)
    ensures var end := Advanced(maxAttempts, w, f).world; Backed(end.states, end.store)
  {
    CheckedKeepsBacked(w, f);
    if f.working.Some? { WorkedKeepsBacked(maxAttempts, w, f); }
  }

  lemma {:induction false} RunKeepsBacked(c: Setup, w: World, actions: seq<Action>)
    requires Backed(w.states, w.store)
    ensures var end := Run(c, w, actions); Backed(end.states, end.store)
  {
    if actions != [] {
      var now, a := Run(c, w, actions[..|actions| - 1]), actions[|actions| - 1];
      RunKeepsBacked(c, w, actions[..|actions| - 1]);
      if a.Tick? && a.flight < |now.flights| { AdvanceKeepsBacked(c.maxAttempts, now, now.flights[a.flight]); }
    }
  }

  /** The same for one graph run over a job with nothing recorded. */
  lemma GraphCompletesOverCommittedRows(maxAttempts: nat, req: GraphRequest, registry: Registry, rec: JS.JobRecord,
                                        store: SE.Store, seed: seq<string>, stages: seq<string>)
    requires !rec.status.Complete? && rec.expected != Some({})
    ensures var end := EndOf(maxAttempts, req, registry, rec, store, [], seed, stages);
            DeriveStatus(rec, end.states).Complete? ==>
              forall stage | Awaited(rec, stage) :: Committed(end.states, end.store, stage)
  {
    var end := EndOf(maxAttempts, req, registry, rec, store, [], seed, stages);
    TurnsKeepBacked(maxAttempts, req, registry, Some(rec), Bench(store, [], seed, [], false, false), stages);
    OrderIsNotEmpty();
    DerivedFits(rec, end.states);
    AwaitedIsExpected(rec);
    if DeriveStatus(rec, end.states).Complete? {
      forall stage | Awaited(rec, stage) ensures Committed(end.states, end.store, stage) {
        LastIsListed(end.states, stage);
        var i: nat :| i < |end.states| && end.states[i].stage == stage
          && LastStatus(end.states, stage) == Some(end.states[i].status);
        assert end.states[i] in end.states;
      }
    }
  }

  // ---------------------------------------------------------------------------
  // Cancellation reaches every descendant
  // ---------------------------------------------------------------------------

  ghost predicate Closed(l: Dependents, s: set<string>) {
    forall n, d | n in s && d in Children(l, n) :: d in s
  }

  /** A closed set holds whatever its members reach. */
  lemma ClosedReaches(l: Dependents, s: set<string>, n: string, d: string)
    requires Closed(l, s) && n in s && Reaches(l, n, d)
    ensures d in s
  {
    var p :| |p| >= 2 && p[0] == n && p[|p| - 1] == d && Chain(l, p);
    ClosedHoldsReachable(l, s, p);
  }

  lemma ClosureIsClosed(l: Dependents, stage: string)
    ensures Closed(l, ClosureOf(l, stage))
  {
    forall n, d | n in ClosureOf(l, stage) && d in Children(l, n) ensures d in ClosureOf(l, stage) {
      if n == stage { ReachesChild(l, stage, d); } else { ReachesOn(l, stage, n, d); }
    }
  }

  /** The cancelled stages change only by a stage cancel, which adds a closure, and by the two retries. */
  lemma StepOnCancelled(c: Setup, w: World, a: Action)
    ensures Step(c, w, a).rec.cancelled ==
            match a
            case CancelStage(x) => w.rec.cancelled + ClosureOf(c.lineage, x)
            case RetryJob(_, _, _) => {}
            case RetryStage(x, _, _, _, _) => w.rec.cancelled - ClosureOf(c.lineage, x)
            case _ => w.rec.cancelled
  {}

  /** Without single-stage retries the cancelled stages stay closed under descendants. */
  lemma {:induction false} CancelledStaysClosed(c: Setup, w: World, actions: seq<Action>)
    requires Closed(c.lineage, w.rec.cancelled)
    requires forall a | a in actions :: !a.RetryStage?
    ensures Closed(c.lineage, Run(c, w, actions).rec.cancelled)
  {
    if actions != [] {
      var init, last := actions[..|actions| - 1], actions[|actions| - 1];
      assert last in actions && forall a | a in init :: a in actions;
      CancelledStaysClosed(c, w, init);
      StepOnCancelled(c, Run(c, w, init), last);
      if last.CancelStage? { ClosureIsClosed(c.lineage, last.stage); }
    }
  }

  /** A step starts at most one stage, one that is not cancelled and whose job may go on. */
  lemma StepStarts(c: Setup, w: World, a: Action)
    ensures var next := Step(c, w, a);
            || next.started == w.started
            || (exists s :: next.started == w.started + [s] && s !in w.rec.cancelled && Schedulable(Some(w.rec)))
  {
    if a.Tick? && a.flight < |w.flights| {
      var f := w.flights[a.flight];
      if !f.over && f.working.None? && f.todo != [] && Schedulable(Some(w.rec)) {
        var s := f.todo[0];
        assert s !in w.rec.cancelled && s in STAGE_ORDER && s in f.registry ==>
            Step(c, w, a).started == w.started + [s];
      }
    }
  }

  /** No stage is ever started while it or one of its ancestors is cancelled. */
  lemma NothingStartsBelowACancelledStage(c: Setup, w: World, actions: seq<Action>, a: Action, s: string)
    requires Closed(c.lineage, w.rec.cancelled)
    requires forall x | x in actions :: !x.RetryStage?
    requires var now := Run(c, w, actions); Step(c, now, a).started == now.started + [s]
    ensures var cancelled := Run(c, w, actions).rec.cancelled;
            s !in cancelled && forall n | n in cancelled :: !Reaches(c.lineage, n, s)
  {
    var now := Run(c, w, actions);
    CancelledStaysClosed(c, w, actions);
    StepStarts(c, now, a);
    LongerByOne(now.started, s);
    forall n | n in now.rec.cancelled ensures !Reaches(c.lineage, n, s) {
      if Reaches(c.lineage, n, s) { ClosedReaches(c.lineage, now.rec.cancelled, n, s); }
    }
  }

  lemma LongerByOne(started: seq<string>, s: string)
    ensures started + [s] != started && forall t :: started + [s] == started + [t] ==> s == t
  {
    assert |started + [s]| == |started| + 1 && (started + [s])[|started|] == s;
    forall t | started + [s] == started + [t] ensures s == t { assert (started + [t])[|started|] == t; }
  }

  /** The command lifts no cancellation inside the closure of `stage`. */
  ghost predicate Spares(l: Dependents, stage: string, a: Action) {
    match a
    case RetryJob(_, _, _) => false
    case RetryStage(x, _, _, _, _) => ClosureOf(l, x) !! ClosureOf(l, stage)
    case _ => true
  }

  /** After a stage is cancelled nothing in its closure starts until a retry that lifts the cancellation. */
  lemma {:induction false} CancelledStageNeverStarts(c: Setup, w: World, stage: string, actions: seq<Action>)
    requires forall a | a in actions :: Spares(c.lineage, stage, a)
    ensures var was := Step(c, w, CancelStage(stage));
            var end := Run(c, was, actions);
            && ClosureOf(c.lineage, stage) <= end.rec.cancelled
            && |was.started| <= |end.started|
            && forall i | |was.started| <= i < |end.started| :: end.started[i] !in ClosureOf(c.lineage, stage)
  {
    if actions != [] {
      var init, last := actions[..|actions| - 1], actions[|actions| - 1];
      assert last in actions && forall a | a in init :: a in actions;
      CancelledStageNeverStarts(c, w, stage, init);
      var now := Run(c, Step(c, w, CancelStage(stage)), init);
      StepOnCancelled(c, now, last);
      StepStarts(c, now, last);
    }
  }

  // ---------------------------------------------------------------------------
  // The single-stage retry
  // ---------------------------------------------------------------------------

  /** A single-stage retry keeps the cancelled stages closed exactly when none outside its closure leads into it. */
  lemma StageRetryKeepsClosureExactlyWhen(l: Dependents, rec: JS.JobRecord, stage: string)
    requires Closed(l, rec.cancelled)
    ensures Closed(l, WithStageRetry(l, rec, stage).cancelled) <==>
            forall n, d | n in rec.cancelled && n !in ClosureOf(l, stage) && d in Children(l, n) ::
                d !in ClosureOf(l, stage)
  {}

  /** Cancelling a stage and retrying one of its direct dependents always breaks the closure on an acyclic lineage. */
  lemma RetryBelowACancelledStage(l: Dependents, rec: JS.JobRecord, parent: string, stage: string)
    requires stage in Children(l, parent) && parent !in ClosureOf(l, stage)
    ensures !Closed(l, WithStageRetry(l, WithStageCancel(l, rec, parent), stage).cancelled)
  {
    var after := WithStageRetry(l, WithStageCancel(l, rec, parent), stage).cancelled;
    assert parent in after && stage !in after;
  }

  /** Such a pair in the shipped lineage. */
  lemma RetryBelowACancelledStageShipped(rec: JS.JobRecord)
    ensures var l := Transposed(STAGE_ORDER, STAGE_DEPENDENCIES);
            !Closed(l, WithStageRetry(l, WithStageCancel(l, rec, "STRUCTURAL_ANALYSIS"), "ENTITY_RESOLUTION").cancelled)
  {
    var l := Transposed(STAGE_ORDER, STAGE_DEPENDENCIES);
    var parent, stage := "STRUCTURAL_ANALYSIS", "ENTITY_RESOLUTION";
    assert STAGE_ORDER[4] == parent && STAGE_DEPENDENCIES[5].stage == stage &&
        STAGE_DEPENDENCIES[5] in STAGE_DEPENDENCIES;
    assert DependsOn(STAGE_DEPENDENCIES[5], parent) by { assert STAGE_DEPENDENCIES[5].upstream[0].0 == parent; }
    NeedingIsTranspose(STAGE_DEPENDENCIES, parent, stage);
    ReachesChild(l, parent, stage);
    CanonicalTableIsTopological();
    TargetsComeLater(STAGE_ORDER, STAGE_DEPENDENCIES, parent, stage);
    RetryBelowACancelledStage(l, rec, parent, stage);
  }

  // ---------------------------------------------------------------------------
  // Cancelling the whole job
  // ---------------------------------------------------------------------------

  /** The flight is a submission inside a stage whose row is open and whose work ends in malformed input. */
  predicate Doomed(maxAttempts: nat, s: SE.Store, f: Flight) {
    && f.origin.Submission? && !f.over && f.working.Some?
    && OpenRow(RowOf(s, KeyFor(f.req, f.working.value.stage, f.prior)))
    && Fates.Worked(maxAttempts, f.working.value.work, 1).status.Quarantined?
  }

  /** A stage raises exactly when its row is open and its work ends in malformed input. */
  lemma ExecutedRaisesExactlyWhen(maxAttempts: nat, req: GraphRequest, work: SE.Work, b: Bench, stage: string)
    requires !b.raised
    ensures Executed(maxAttempts, req, work, b, stage).raised <==>
            && OpenRow(RowOf(b.store, KeyFor(req, stage, b.prior)))
            && Fates.Worked(maxAttempts, work, 1).status.Quarantined?
    ensures var end := Executed(maxAttempts, req, work, b, stage);
            forall key | !OpenRow(RowOf(b.store, key)) :: !OpenRow(RowOf(end.store, key))
  {
    var m := ExecManifest(req, stage, b.prior);
    DrivenFate(maxAttempts, b.store, m, work);
    WorkedShape(maxAttempts, work, 1);
    OnlyOpenRowsMove(maxAttempts, b.store, m, work);
    ExecutedParts(maxAttempts, req, work, b, stage, SE.Driven(maxAttempts, b.store, m, SE.AtClaim, work));
  }

  /** The job is cancelled and no submission is about to overwrite that. */
  ghost predicate Calm(maxAttempts: nat, w: World) {
    w.rec.status.Cancelled? && forall f | f in w.flights :: !Doomed(maxAttempts, w.store, f)
  }

  predicate IsRetry(a: Action) { a.RetryJob? || a.RetryStage? }

  /** One step of a flight keeps a calm job calm and starts nothing. */
  lemma CalmAdvance(maxAttempts: nat, w: World, f: Flight)
    requires Calm(maxAttempts, w) && f in w.flights
    ensures var m := Advanced(maxAttempts, w, f);
            && m.world.rec.status.Cancelled? && m.world.started == w.started && m.world.flights == w.flights
            && !Doomed(maxAttempts, m.world.store, m.flight)
            && forall key | !OpenRow(RowOf(w.store, key)) :: !OpenRow(RowOf(m.world.store, key))
  {
    if !f.over && f.working.Some? {
      ExecutedRaisesExactlyWhen(maxAttempts, f.req, f.working.value.work, BenchOf(w, f), f.working.value.stage);
    }
  }

  lemma CalmStep(c: Setup, w: World, a: Action)
    requires Calm(c.maxAttempts, w) && !IsRetry(a)
    ensures Calm(c.maxAttempts, Step(c, w, a)) && Step(c, w, a).started == w.started
  {
    var next := Step(c, w, a);
    if a.Tick? && a.flight < |w.flights| {
      var f := w.flights[a.flight];
      var m := Advanced(c.maxAttempts, w, f);
      CalmAdvance(c.maxAttempts, w, f);
      forall g | g in next.flights ensures !Doomed(c.maxAttempts, next.store, g) {
        assert g == m.flight || g in w.flights;
      }
    }
  }

  lemma {:induction false} CalmRun(c: Setup, w: World, actions: seq<Action>)
    requires Calm(c.maxAttempts, w) && forall a | a in actions :: !IsRetry(a)
    ensures Calm(c.maxAttempts, Run(c, w, actions)) && Run(c, w, actions).started == w.started
  {
    if actions != [] {
      Snoc(actions);
      CalmRun(c, w, actions[..|actions| - 1]);
      CalmStep(c, Run(c, w, actions[..|actions| - 1]), actions[|actions| - 1]);
    }
  }

  /** Until it is retried the job stays cancelled and starts nothing, whatever else happens. */
  ghost predicate StaysCancelled(c: Setup, w: World) {
    forall actions | (forall a | a in actions :: !IsRetry(a)) ::
      Run(c, w, actions).rec.status.Cancelled? && Run(c, w, actions).started == w.started
  }

  /** A doomed submission turns the cancelled job into a failed one with its next step. */
  lemma DoomedOverwrites(c: Setup, w: World, i: nat)
    requires i < |w.flights| && Doomed(c.maxAttempts, w.store, w.flights[i])
    ensures Step(c, w, Tick(i)).rec.status.Failed? && Step(c, w, Tick(i)).started == w.started
    ensures |Step(c, w, Tick(i)).flights| == |w.flights|
    ensures forall j | 0 <= j < |w.flights| && j != i :: Step(c, w, Tick(i)).flights[j] == w.flights[j]
    ensures Step(c, w, Tick(i)).rec.cancelled == w.rec.cancelled
  {
    var f := w.flights[i];
    ExecutedRaisesExactlyWhen(c.maxAttempts, f.req, f.working.value.work, BenchOf(w, f), f.working.value.stage);
  }

  /** A cancelled job stays cancelled and starts nothing until it is retried exactly when no submission is doomed. */
  lemma CancelledJobStaysExactlyWhen(c: Setup, w: World)
    requires w.rec.status.Cancelled?
    ensures StaysCancelled(c, w) <==> forall f | f in w.flights :: !Doomed(c.maxAttempts, w.store, f)
  {
    if f :| f in w.flights && Doomed(c.maxAttempts, w.store, f) {
      var i: nat :| i < |w.flights| && w.flights[i] == f;
      DoomedOverwrites(c, w, i);
      OneStepRun(c, w, Tick(i));
      assert !Run(c, w, [Tick(i)]).rec.status.Cancelled?;
    } else {
      forall actions | (forall a | a in actions :: !IsRetry(a))
        ensures Run(c, w, actions).rec.status.Cancelled? && Run(c, w, actions).started == w.started
      {
        CalmRun(c, w, actions);
      }
    }
  }

  lemma OneStepRun(c: Setup, w: World, a: Action)
    ensures Run(c, w, [a]) == Step(c, w, a)
  {
    assert [a][..0] == [];
  }

  /** In particular when no submission is in the middle of a stage. */
  lemma CancelledJobStartsNothing(c: Setup, w: World, actions: seq<Action>)
    requires w.rec.status.Cancelled? && forall f | f in w.flights :: f.origin.Submission? ==> f.working.None?
    requires forall a | a in actions :: !IsRetry(a)
    ensures Run(c, w, actions).rec.status.Cancelled? && Run(c, w, actions).started == w.started
  {
    CancelledJobStaysExactlyWhen(c, w);
    assert StaysCancelled(c, w);
  }

  /** A submission that raises after the cancel reopens the job: the next flight goes on without any retry. */
  lemma FailingSubmissionUndoesCancel(c: Setup, w: World, i: nat, j: nat)
    requires w.rec.status.Cancelled? && i < |w.flights| && j < |w.flights| && i != j
    requires Doomed(c.maxAttempts, w.store, w.flights[i])
    requires var f := w.flights[j];
             && !f.over && f.working.None? && f.todo != []
             && f.todo[0] !in w.rec.cancelled && f.todo[0] in STAGE_ORDER && f.todo[0] in f.registry
    ensures Run(c, w, [Tick(i), Tick(j)]).rec.status.Failed?
    ensures Run(c, w, [Tick(i), Tick(j)]).started == w.started + [w.flights[j].todo[0]]
  {
    var actions := [Tick(i), Tick(j)];
    assert actions[..1] == [Tick(i)];
    OneStepRun(c, w, Tick(i));
    DoomedOverwrites(c, w, i);
  }

  /** A new job is submitted, retried and cancelled while its first stage, which is malformed, is at work. */
  function Reopening(req: GraphRequest, registry: Registry): seq<Action> {
    [Submit(req, registry, []), Tick(0), RetryJob(req, registry, []), CancelJob(None), Tick(0), Tick(1)]
  }

  /** The state after the cancel: the submission is inside its first stage, the retry has yet to begin. */
  function Reopened(w: World, req: GraphRequest, registry: Registry): World
    requires "INGEST" in registry
  {
    var working := Working("INGEST", registry["INGEST"](ManifestFor(req, "INGEST", [])));
    w.(rec := WithSubmission(w.rec).(status := JS.Cancelled),
       flights := [Flight(Submission, req, registry, STAGE_ORDER[1..], [], Some(working), false),
                   Flight(Retrial, req, registry, STAGE_ORDER, [], None, false)],
       started := ["INGEST"])
  }

  lemma IncompleteOfNothing(order: seq<string>)
    ensures Incomplete(order, []) == order
  {
    if order != [] {
      IncompleteOfNothing(order[..|order| - 1]);
      assert order == order[..|order| - 1] + [order[|order| - 1]];
    }
  }

  lemma CancelledInsideTheFirstStage(c: Setup, w: World, req: GraphRequest, registry: Registry)
    requires w == NewJob(w.rec.id, w.rec.sourceId, w.rec.universe, w.store) && "INGEST" in registry
    ensures Run(c, w, Reopening(req, registry)[..4]) == Reopened(w, req, registry)
  {
    SubmittedAndBegun(c, w, req, registry);
    RetriedAndCancelled(c, w, req, registry);
    FourSteps(c, w, Reopening(req, registry));
  }

  lemma FourSteps(c: Setup, w: World, es: seq<Action>)
    requires |es| >= 4
    ensures Run(c, w, es[..4]) == Step(c, Step(c, Step(c, Step(c, w, es[0]), es[1]), es[2]), es[3])
  {
    RunSnoc(c, w, es, 0);
    RunSnoc(c, w, es, 1);
    RunSnoc(c, w, es, 2);
    RunSnoc(c, w, es, 3);
  }

  lemma RetriedAndCancelled(c: Setup, w: World, req: GraphRequest, registry: Registry)
    requires w == NewJob(w.rec.id, w.rec.sourceId, w.rec.universe, w.store) && "INGEST" in registry
    ensures var begun := w.(rec := WithSubmission(w.rec), started := ["INGEST"],
                            flights := Reopened(w, req, registry).flights[..1]);
            Step(c, Step(c, begun, RetryJob(req, registry, [])), CancelJob(None)) == Reopened(w, req, registry)
  {
    RetriedOnly(c, w, req, registry);
    Snoc(Reopened(w, req, registry).flights);
  }

  lemma RetriedOnly(c: Setup, w: World, req: GraphRequest, registry: Registry)
    requires w == NewJob(w.rec.id, w.rec.sourceId, w.rec.universe, w.store) && "INGEST" in registry
    ensures var begun := w.(rec := WithSubmission(w.rec), started := ["INGEST"],
                            flights := Reopened(w, req, registry).flights[..1]);
            var second := Flight(Retrial, req, registry, STAGE_ORDER, [], None, false);
            Step(c, begun, RetryJob(req, registry, [])) == begun.(flights := begun.flights + [second])
  {
    IncompleteOfNothing(STAGE_ORDER);
    assert STAGE_ORDER != [] by { assert STAGE_ORDER[0] == "INGEST"; }
  }

  lemma SubmittedAndBegun(c: Setup, w: World, req: GraphRequest, registry: Registry)
    requires w == NewJob(w.rec.id, w.rec.sourceId, w.rec.universe, w.store) && "INGEST" in registry
    ensures var begun := Step(c, Step(c, w, Submit(req, registry, [])), Tick(0));
            begun == w.(rec := WithSubmission(w.rec), started := ["INGEST"],
                        flights := Reopened(w, req, registry).flights[..1])
  {
    var flight := Flight(Submission, req, registry, STAGE_ORDER, [], None, false);
    var submitted := Step(c, w, Submit(req, registry, []));
    assert STAGE_ORDER[0] == "INGEST" && submitted == w.(rec := WithSubmission(w.rec), flights := [] + [flight]);
    assert [] + [flight] == [flight] && [flight][0] == flight;
    var begun := Step(c, submitted, Tick(0));
    assert begun.flights == Reopened(w, req, registry).flights[..1];
  }

  lemma RunSnoc(c: Setup, w: World, es: seq<Action>, k: nat)
    requires k < |es|
    ensures Run(c, w, es[..k + 1]) == Step(c, Run(c, w, es[..k]), es[k])
    ensures k == 0 ==> Run(c, w, es[..k]) == w
  {
    assert es[..k + 1][..k] == es[..k];
  }

  /**
   * From a new job: the malformed submission fails after the cancel, and the retried run starts a stage of the
   * cancelled job.
   */
  lemma NewJobIsReopened(c: Setup, w: World, req: GraphRequest, registry: Registry)
    requires w == NewJob(w.rec.id, w.rec.sourceId, w.rec.universe, w.store) && "INGEST" in registry
    requires KeyFor(req, "INGEST", []) !in w.store.rows &&
             registry["INGEST"](ManifestFor(req, "INGEST", []))(1).Malformed?
    ensures var cancelled := Run(c, w, Reopening(req, registry)[..4]);
            cancelled.rec.status.Cancelled? && cancelled.started == ["INGEST"]
    ensures var end := Run(c, w, Reopening(req, registry));
            end.rec.status.Failed? && end.started == ["INGEST", "INGEST"]
  {
    var es, now := Reopening(req, registry), Reopened(w, req, registry);
    CancelledInsideTheFirstStage(c, w, req, registry);
    assert STAGE_ORDER[0] == "INGEST";
    FailingSubmissionUndoesCancel(c, now, 0, 1);
    RunSplits(c, w, es[..4], [Tick(0), Tick(1)]);
    assert es == es[..4] + [Tick(0), Tick(1)];
    assert ["INGEST"] + ["INGEST"] == ["INGEST", "INGEST"];
  }

  lemma {:induction false} RunSplits(c: Setup, w: World, first: seq<Action>, second: seq<Action>)
    ensures Run(c, w, first + second) == Run(c, Run(c, w, first), second)
    decreases |second|
  {
    if second == [] {
      assert first + second == first;
    } else {
      assert (first + second)[..|first + second| - 1] == first + second[..|second| - 1];
      RunSplits(c, w, first, second[..|second| - 1]);
    }
  }

  // ---------------------------------------------------------------------------
  // A flight left alone
  // ---------------------------------------------------------------------------

  /** The steps of one flight until its loop is left. */
  function Alone(maxAttempts: nat, w: World, f: Flight): Moved
    decreases !f.over, |f.todo|, f.working.Some?
  {
    if f.over then Moved(w, f)
    else if f.working.Some? then
      var m := Worked(maxAttempts, w, f);
      assert m.flight.todo == f.todo && (m.flight.over || m.flight.working.None?);
      Alone(maxAttempts, m.world, m.flight)
    else
      var m := Checked(w, f);
      assert m.flight.over || |m.flight.todo| < |f.todo|;
      Alone(maxAttempts, m.world, m.flight)
  }

  /** How the job record looks once a graph run has ended as `end`. */
  function RecAfter(origin: Origin, rec: JS.JobRecord, end: Bench): JS.JobRecord {
    if end.raised then (if origin.Submission? then WithFailure(rec) else rec)
    else if origin.SourceRerun? then rec
    else Refreshed(rec, end.states)
  }

  /** One round of the loop: the check and, for a stage that is begun, the work. */
  function Round(maxAttempts: nat, w: World, f: Flight): Moved {
    var m := Checked(w, f);
    if m.flight.working.Some? && !m.flight.over then Worked(maxAttempts, m.world, m.flight) else m
  }

  /** `w` and `f` stand where the runner's loop stands at `b`. */
  predicate At(w: World, f: Flight, b: Bench) {
    && f.working.None? && f.over == (b.stopped || b.raised)
    && w.store == b.store && w.states == b.states && (!f.over ==> f.prior == b.prior)
  }

  lemma RoundIsTurn(maxAttempts: nat, w: World, f: Flight, b: Bench)
    requires At(w, f, b) && !f.over && f.todo != []
    ensures var n, next := Round(maxAttempts, w, f), Turn(maxAttempts, f.req, f.registry, Some(w.rec), b, f.todo[0]);
            && At(n.world, n.flight, next)
            && n.world.rec == (if n.flight.over then RecAfter(f.origin, w.rec, next) else w.rec)
            && (!n.flight.over ==> n.flight == f.(todo := f.todo[1..], prior := next.prior))
  {
    var stage := f.todo[0];
    if Schedulable(Some(w.rec)) && stage !in w.rec.cancelled && stage in STAGE_ORDER && stage in f.registry {
    }
  }

  lemma AloneByRounds(maxAttempts: nat, w: World, f: Flight)
    requires !f.over && f.working.None?
    ensures var n := Round(maxAttempts, w, f); Alone(maxAttempts, w, f) == Alone(maxAttempts, n.world, n.flight)
  {}

  /** A flight whose steps nothing interrupts does what the runner's loop does in one go. */
  lemma {:induction false} AloneIsTheRunnersLoop(maxAttempts: nat, w: World, f: Flight, b: Bench)
    requires At(w, f, b) && !f.over
    ensures var end := Turns(maxAttempts, f.req, f.registry, Some(w.rec), b, f.todo);
            var m := Alone(maxAttempts, w, f);
            && m.flight.over && m.world.store == end.store && m.world.states == end.states
            && m.world.rec == RecAfter(f.origin, w.rec, end)
    decreases |f.todo|
  {
    AloneByRounds(maxAttempts, w, f);
    if f.todo != [] {
      var n, next := Round(maxAttempts, w, f), Turn(maxAttempts, f.req, f.registry, Some(w.rec), b, f.todo[0]);
      RoundIsTurn(maxAttempts, w, f, b);
      HeadTurn(maxAttempts, f, w.rec, b);
      if n.flight.over { TurnsStop(maxAttempts, f.req, f.registry, Some(w.rec), next, f.todo[1..], 0); }
      else { AloneIsTheRunnersLoop(maxAttempts, n.world, n.flight, next); }
    }
  }

  /**
   * What a command launches, left alone, ends as the facade's graph run does: a raising submission leaves the job
   * failed, other raising runs leave it as it is, and the rest refresh its status, at once if there is nothing to run.
   */
  lemma LaunchedAloneIsTheFacade(maxAttempts: nat, w: World, origin: Origin, req: GraphRequest, registry: Registry,
                                 stages: seq<string>, seed: seq<string>)
    ensures var now := Launched(w, origin, req, registry, stages, seed);
            var end := EndOf(maxAttempts, req, registry, w.rec, w.store, w.states, seed, stages);
            if stages == [] then
              now == w.(rec := if origin.SourceRerun? then w.rec else Refreshed(w.rec, end.states))
            else
              && |now.flights| == |w.flights| + 1 && now == w.(flights := now.flights)
              && now.flights[..|w.flights|] == w.flights
              && var last := Alone(maxAttempts, now, now.flights[|w.flights|]).world;
                 && last.store == end.store && last.states == end.states
                 && last.rec == (if end.raised then (if origin.Submission? then WithFailure(w.rec) else w.rec)
                                 else if origin.SourceRerun? then w.rec else Refreshed(w.rec, end.states))
  {
    if stages != [] {
      var now := Launched(w, origin, req, registry, stages, seed);
      AloneIsTheRunnersLoop(maxAttempts, now, now.flights[|w.flights|],
                            Bench(w.store, w.states, seed, [], false, false));
    }
  }

  lemma HeadTurn(maxAttempts: nat, f: Flight, rec: JS.JobRecord, b: Bench)
    requires f.todo != []
    ensures Turns(maxAttempts, f.req, f.registry, Some(rec), b, f.todo) ==
            Turns(maxAttempts, f.req, f.registry, Some(rec),
                  Turn(maxAttempts, f.req, f.registry, Some(rec), b, f.todo[0]), f.todo[1..])
  {
    assert f.todo == [f.todo[0]] + f.todo[1..];
    TurnsSplit(maxAttempts, f.req, f.registry, Some(rec), b, [f.todo[0]], f.todo[1..]);
    assert [f.todo[0]][..0] == [];
    assert Turns(maxAttempts, f.req, f.registry, Some(rec), b, [f.todo[0]]) ==
           Turn(maxAttempts, f.req, f.registry, Some(rec), b, f.todo[0]);
  }
}
