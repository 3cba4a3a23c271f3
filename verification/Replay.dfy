/** The single-writer replay driver: canonical fold, poison policy, checkpointing. */
module Replay {
  import opened Wrappers
  import opened LedgerEvents
  import opened Checkpoints

  /** A projection over a store of type T, reading canonical state of type C. */
  datatype Builder<!T, !C> = Builder(
    name: string, poisonEnabled: bool,
    wipe: T -> T, prepare: T -> T,
    apply: (T, C, Event) -> T, onSkip: (T, C, Event) -> T, onPause: (T, C, Event) -> T,
    finalize: (T, C) -> T)

  /** The canonical state a driver folds every semantic event into. */
  datatype Reducer<!C> = Reducer(empty: C, reduce: (C, Event) -> C)

  datatype Verdict = ApplyEvent | SkipEvent | PauseOn(reason: string)

  /** The poison classification of each event, under the quarantine list of the run. */
  type Classifier = Event -> Verdict

  /** A driver's fields; the last four describe its latest run. */
  datatype Driver<C> = Driver(
    state: C, appliedSeq: nat, eventsSeen: nat, skipped: nat, pauseReason: Option<string>)

  datatype BuildReport = BuildReport(
    name: string, appliedSeq: nat, ledgerTail: nat, skipped: nat, pauseReason: Option<string>,
    eventsSeen: nat, wipe: bool)

  function ReportOf<C>(name: string, d: Driver<C>, tail: nat, wipe: bool, seen: nat): BuildReport {
    BuildReport(name, d.appliedSeq, tail, d.skipped, d.pauseReason, seen, wipe)
  }

  /** What stays fixed during one run of the replay loop. */
  datatype Plan<!T, !C> = Plan(
    builder: Builder<T, C>, reducer: Reducer<C>, classify: Classifier, applyFrom: nat, poisonOn: bool)

  /** The store and the driver as the loop sees them. */
  datatype Progress<T, C> = Progress(table: T, driver: Driver<C>)

  function Reduced<C>(reducer: Reducer<C>, state: C, ev: Event): C {
    if IsSemantic(ev) then reducer.reduce(state, ev) else state
  }

  /** One turn of the replay loop. */
  function Turn<T, C>(plan: Plan<T, C>, p: Progress<T, C>, ev: Event): Progress<T, C> {
    var b, d := plan.builder, p.driver.(state := Reduced(plan.reducer, p.driver.state, ev));
    if ev.seqNo <= plan.applyFrom then Progress(p.table, d)
    else
      var seen := d.(eventsSeen := d.eventsSeen + 1, appliedSeq := ev.seqNo);
      var verdict := plan.classify(ev);
      if verdict.PauseOn? && plan.poisonOn then
        Progress(b.onPause(p.table, d.state, ev), seen.(pauseReason := Some(verdict.reason)))
      else if verdict.SkipEvent? && plan.poisonOn then
        Progress(b.onSkip(p.table, d.state, ev), seen.(skipped := d.skipped + 1))
      else
        Progress(b.apply(p.table, d.state, ev), seen)
  }

  /** The loop from event `i` on; a pause ends it. */
  function Loop<T, C>(plan: Plan<T, C>, log: seq<Event>, i: nat, p: Progress<T, C>): Progress<T, C>
    requires i <= |log|
    decreases |log| - i
  {
    if i == |log| || p.driver.pauseReason.Some? then p
    else Loop(plan, log, i + 1, Turn(plan, p, log[i]))
  }

  /** Everything one run leaves behind. */
  datatype Outcome<T, C> = Outcome(
    table: T, checkpoints: map<string, StoredRow>, driver: Driver<C>, report: BuildReport)

  function CheckpointOf(name: string, rows: map<string, StoredRow>): ProjectionCheckpoint {
    if name in rows then Loaded(name, rows[name]) else Fresh(name)
  }

  /** The plan a run follows once it is past the pause check. */
  function PlanOf<T, C>(b: Builder<T, C>, reducer: Reducer<C>, policy: bool, classify: Classifier,
                        wipe: bool, force: bool, cp: ProjectionCheckpoint): Plan<T, C> {
    Plan(b, reducer, classify, if wipe || force then 0 else cp.appliedSeq,
         b.poisonEnabled && !force && policy)
  }

  function Started<T, C>(b: Builder<T, C>, reducer: Reducer<C>, wipe: bool, force: bool, table: T,
                         d: Driver<C>): Progress<T, C> {
    Progress(b.prepare(if wipe || force then b.wipe(table) else table),
             Driver(reducer.empty, d.appliedSeq, 0, 0, None))
  }

  /** A whole run as a function of the database, the driver and its arguments. */
  function RunResult<T, C>(b: Builder<T, C>, reducer: Reducer<C>, policy: bool, classify: Classifier,
                           wipe: bool, force: bool, log: seq<Event>, table: T,
                           rows: map<string, StoredRow>, d: Driver<C>): Outcome<T, C> {
    var cp := CheckpointOf(b.name, rows);
    if cp.pauseReason.Some? && !force then
      var stopped := d.(pauseReason := cp.pauseReason, appliedSeq := cp.appliedSeq);
      Outcome(table, rows, stopped, ReportOf(b.name, stopped, Tail(log), false, 0))
    else
      var end := Loop(PlanOf(b, reducer, policy, classify, wipe, force, cp), log, 0,
                      Started(b, reducer, wipe, force, table, d));
      var moved := (if force then cp.Resumed() else cp).WithApplied(end.driver.appliedSeq);
      var saved := if end.driver.pauseReason.Some?
                   then moved.PausedAt(end.driver.pauseReason.value, end.driver.appliedSeq) else moved;
      Outcome(b.finalize(end.table, end.driver.state), rows[b.name := Stored(saved)], end.driver,
              ReportOf(b.name, end.driver, Tail(log), wipe, end.driver.eventsSeen))
  }

  /** One projection's store and the ledger it is built from; a run is one transaction on it. */
  class Database<T> {
    var ledger: seq<Event>
    var table: T
    const checkpoints: ProjectionCheckpointStore

    constructor (table: T)
      ensures ledger == [] && this.table == table && fresh(checkpoints) && checkpoints.rows == map[]
    {
      this.ledger := [];
      this.table := table;
      this.checkpoints := new ProjectionCheckpointStore();
    }
  }

  class ReplayDriver<C> {
    const reducer: Reducer<C>
    const pausePolicy: bool
    var state: C
    var appliedSeq: nat
    var eventsSeen: nat
    var skipped: nat
    var pauseReason: Option<string>

    constructor (reducer: Reducer<C>, pausePolicy: bool)
      ensures this.reducer == reducer && this.pausePolicy == pausePolicy
      ensures Fields() == Driver(reducer.empty, 0, 0, 0, None)
    {
      this.reducer, this.pausePolicy := reducer, pausePolicy;
      state, appliedSeq, eventsSeen, skipped, pauseReason := reducer.empty, 0, 0, 0, None;
    }

    function Fields(): Driver<C>
      reads this
    {
      Driver(state, appliedSeq, eventsSeen, skipped, pauseReason)
    }

    method Run<T>(builder: Builder<T, C>, db: Database<T>, classify: Classifier, wipe: bool, force: bool)
      returns (report: BuildReport)
      modifies this, db, db.checkpoints
      ensures db.ledger == old(db.ledger)
      ensures Outcome(db.table, db.checkpoints.rows, Fields(), report)
              == RunResult(builder, reducer, pausePolicy, classify, wipe, force, old(db.ledger),
                           old(db.table), old(db.checkpoints.rows), old(Fields()))
    {
      var found := db.checkpoints.Get(builder.name);
      var cp := if found.Some? then found.value else Fresh(builder.name);
      if cp.pauseReason.Some? && !force {
        pauseReason := cp.pauseReason;
        appliedSeq := cp.appliedSeq;
        report := ReportOf(builder.name, Fields(), Tail(db.ledger), false, 0);
        return;
      }
      var plan := PlanOf(builder, reducer, pausePolicy, classify, wipe, force, cp);
      if force {
        cp := cp.Resumed();
      }
      pauseReason, eventsSeen, skipped := None, 0, 0;
      state := reducer.empty;
      if wipe || force {
        db.table := builder.wipe(db.table);
      }
      db.table := builder.prepare(db.table);
      ReplayAll(plan, db);
      db.table := builder.finalize(db.table, state);
      cp := cp.WithApplied(appliedSeq);
      if pauseReason.Some? {
        cp := cp.PausedAt(pauseReason.value, appliedSeq);
      }
      db.checkpoints.Save(cp);
      report := ReportOf(builder.name, Fields(), Tail(db.ledger), wipe, eventsSeen);
    }

    /** The replay loop: every event folds, only new ones reach the builder, a pause stops it. */
    method ReplayAll<T>(plan: Plan<T, C>, db: Database<T>)
      requires pauseReason.None?
      modifies this, db
      ensures db.ledger == old(db.ledger)
      ensures Progress(db.table, Fields()) == Loop(plan, db.ledger, 0, old(Progress(db.table, Fields())))
    {
      ghost var start := Progress(db.table, Fields());
      var i := 0;
      while i < |db.ledger| && pauseReason.None?
        invariant db.ledger == old(db.ledger) && 0 <= i <= |db.ledger|
        invariant Loop(plan, db.ledger, i, Progress(db.table, Fields())) == Loop(plan, db.ledger, 0, start)
      {
        Visit(plan, db, db.ledger[i]);
        i := i + 1;
      }
    }

    method Visit<T>(plan: Plan<T, C>, db: Database<T>, ev: Event)
      requires pauseReason.None?
      modifies this, db
      ensures db.ledger == old(db.ledger)
      ensures Progress(db.table, Fields()) == Turn(plan, old(Progress(db.table, Fields())), ev)
    {
      if IsSemantic(ev) {
        state := plan.reducer.reduce(state, ev);
      }
      if ev.seqNo <= plan.applyFrom {
        return;
      }
      eventsSeen := eventsSeen + 1;
      var verdict := plan.classify(ev);
      appliedSeq := ev.seqNo;
      if verdict.PauseOn? && plan.poisonOn {
        pauseReason := Some(verdict.reason);
        db.table := plan.builder.onPause(db.table, state, ev);
      } else if verdict.SkipEvent? && plan.poisonOn {
        skipped := skipped + 1;
        db.table := plan.builder.onSkip(db.table, state, ev);
      } else {
        db.table := plan.builder.apply(db.table, state, ev);
      }
    }
  }
}
