/** What replay runs guarantee for any projection: progress, pauses, forced rebuilds. */
module ReplayLaws {
  import opened Wrappers
  import opened Sequences
  import opened LedgerEvents
  import opened Checkpoints
  import opened Replay

  function CanonAfter<C>(reducer: Reducer<C>, log: seq<Event>): C {
    if log == [] then reducer.empty
    else Reduced(reducer, CanonAfter(reducer, log[..|log| - 1]), log[|log| - 1])
  }

  /** The store after the builder has applied every new event among the first `n`. */
  function Applied<T, C>(b: Builder<T, C>, reducer: Reducer<C>, applyFrom: nat, log: seq<Event>, n: nat, table: T): T
    requires n <= |log|
  {
    if n == 0 then table
    else
      var before := Applied(b, reducer, applyFrom, log, n - 1, table);
      if log[n - 1].seqNo <= applyFrom then before
      else b.apply(before, CanonAfter(reducer, log[..n]), log[n - 1])
  }

  /** A rebuild from nothing: wipe, then apply the whole ledger, poison or not. */
  function Rebuilt<T, C>(b: Builder<T, C>, reducer: Reducer<C>, log: seq<Event>, table: T): T {
    b.finalize(Applied(b, reducer, 0, log, |log|, b.prepare(b.wipe(table))), CanonAfter(reducer, log))
  }

  lemma CanonStep<C>(reducer: Reducer<C>, log: seq<Event>, i: nat)
    requires i < |log|
    ensures CanonAfter(reducer, log[..i + 1]) == Reduced(reducer, CanonAfter(reducer, log[..i]), log[i])
  {
    assert log[..i + 1][..i] == log[..i];
  }

  /** With poison off the loop reaches the end, having applied exactly the new events in order. */
  lemma {:induction false} LoopWithoutPoison<T, C>(plan: Plan<T, C>, log: seq<Event>, i: nat, p: Progress<T, C>,
                                                   start: T)
    requires i <= |log| && !plan.poisonOn && p.driver.pauseReason.None?
    requires p.table == Applied(plan.builder, plan.reducer, plan.applyFrom, log, i, start)
    requires p.driver.state == CanonAfter(plan.reducer, log[..i])
    ensures var end := Loop(plan, log, i, p);
            && end.table == Applied(plan.builder, plan.reducer, plan.applyFrom, log, |log|, start)
            && end.driver.state == CanonAfter(plan.reducer, log)
            && end.driver.pauseReason.None?
    decreases |log| - i
  {
    if i == |log| {
      assert log[..i] == log;
    } else {
      CanonStep(plan.reducer, log, i);
      LoopWithoutPoison(plan, log, i + 1, Turn(plan, p, log[i]), start);
    }
  }

  /** The counter never passes a bound on where it stood and on the events. */
  lemma {:induction false} LoopStaysBelow<T, C>(plan: Plan<T, C>, log: seq<Event>, i: nat, p: Progress<T, C>,
                                                bound: nat)
    requires i <= |log| && p.driver.appliedSeq <= bound && forall ev | ev in log :: ev.seqNo <= bound
    ensures Loop(plan, log, i, p).driver.appliedSeq <= bound
    decreases |log| - i
  {
    if i < |log| && p.driver.pauseReason.None? {
      assert log[i] in log;
      LoopStaysBelow(plan, log, i + 1, Turn(plan, p, log[i]), bound);
    }
  }

  /** Where the applied counter ends: at an event of the ledger, or where it stood. */
  lemma {:induction false} LoopCounter<T, C>(plan: Plan<T, C>, log: seq<Event>, i: nat, p: Progress<T, C>)
    requires i <= |log| && Increasing(log) && p.driver.appliedSeq <= Tail(log)
    ensures Loop(plan, log, i, p).driver.appliedSeq <= Tail(log)
    ensures !plan.poisonOn && p.driver.pauseReason.None? && i < |log| ==>
              Loop(plan, log, i, p).driver.appliedSeq ==
                if Tail(log) > plan.applyFrom then Tail(log) else p.driver.appliedSeq
    decreases |log| - i
  {
    if i < |log| && p.driver.pauseReason.None? {
      assert log[i].seqNo <= Tail(log);
      LoopCounter(plan, log, i + 1, Turn(plan, p, log[i]));
    }
  }

  /** A loop pauses exactly when the policy is on and a new event calls for it. */
  lemma {:induction false} LoopPauses<T, C>(plan: Plan<T, C>, log: seq<Event>, i: nat, p: Progress<T, C>)
    requires i <= |log| && p.driver.pauseReason.None?
    ensures Loop(plan, log, i, p).driver.pauseReason.Some? <==>
            plan.poisonOn && exists k | i <= k < |log| ::
              log[k].seqNo > plan.applyFrom && plan.classify(log[k]).PauseOn?
    ensures var end := Loop(plan, log, i, p).driver;
            end.pauseReason.Some? ==>
              exists k | i <= k < |log| ::
                && log[k].seqNo > plan.applyFrom && plan.classify(log[k]) == PauseOn(end.pauseReason.value)
                && end.appliedSeq == log[k].seqNo
                && forall j | i <= j < k && log[j].seqNo > plan.applyFrom :: !plan.classify(log[j]).PauseOn?
    decreases |log| - i
  {
    if i < |log| {
      var next := Turn(plan, p, log[i]);
      if next.driver.pauseReason.None? { LoopPauses(plan, log, i + 1, next); }
    }
  }

  /** Runs of any projection leave the driver and the checkpoint within the ledger. */
  lemma RunStaysWithinLedger<T, C>(b: Builder<T, C>, reducer: Reducer<C>, policy: bool, classify: Classifier,
                                   wipe: bool, force: bool, log: seq<Event>, table: T,
                                   rows: map<string, StoredRow>, d: Driver<C>)
    requires Increasing(log) && d.appliedSeq <= Tail(log) && CheckpointOf(b.name, rows).appliedSeq <= Tail(log)
    ensures var out := RunResult(b, reducer, policy, classify, wipe, force, log, table, rows, d);
            && out.driver.appliedSeq <= Tail(log)
            && CheckpointOf(b.name, out.checkpoints).appliedSeq <= Tail(log)
  {
    var cp := CheckpointOf(b.name, rows);
    if !(cp.pauseReason.Some? && !force) {
      LoopCounter(PlanOf(b, reducer, policy, classify, wipe, force, cp), log, 0,
                  Started(b, reducer, wipe, force, table, d));
    }
  }

  /** A run that raises leaves its driver within the ledger too. */
  lemma RaiseStaysWithinLedger<T, C>(b: Builder<T, C>, reducer: Reducer<C>, policy: bool, classify: Classifier,
                                     wipe: bool, force: bool, log: seq<Event>, n: nat, table: T,
                                     rows: map<string, StoredRow>, d: Driver<C>)
    requires Increasing(log) && d.appliedSeq <= Tail(log) && CheckpointOf(b.name, rows).appliedSeq <= Tail(log)
    ensures DriverAfterRaise(b, reducer, policy, classify, wipe, force, log, n, table, rows, d).appliedSeq <= Tail(log)
  {
    var cp, part := CheckpointOf(b.name, rows), log[..if n <= |log| then n else |log|];
    forall ev | ev in part ensures ev.seqNo <= Tail(log) {
      var k :| 0 <= k < |part| && part[k] == ev;
      assert ev == log[k];
    }
    LoopStaysBelow(PlanOf(b, reducer, policy, classify, wipe, force, cp), part, 0,
                   Started(b, reducer, wipe, force, table, d), Tail(log));
  }

  // ---------------------------------------------------------------------------
  // The life of one projection among others
  // ---------------------------------------------------------------------------

  /** How a run leaves its transaction: committed, or rolled back by an exception once `n` events had been handled. */
  datatype Ending = Committed | RaisedAfter(n: nat)

  /** The driver an exception leaves; the rollback does not reach its fields. */
  function DriverAfterRaise<T, C>(b: Builder<T, C>, reducer: Reducer<C>, policy: bool, classify: Classifier,
                                  wipe: bool, force: bool, log: seq<Event>, n: nat, table: T,
                                  rows: map<string, StoredRow>, d: Driver<C>): Driver<C> {
    var cp := CheckpointOf(b.name, rows);
    if cp.pauseReason.Some? && !force then d.(pauseReason := cp.pauseReason, appliedSeq := cp.appliedSeq)
    else
      Loop(PlanOf(b, reducer, policy, classify, wipe, force, cp), log[..if n <= |log| then n else |log|], 0,
           Started(b, reducer, wipe, force, table, d)).driver
  }

  /**
   * One database: the ledger, this projection's store, the stores of all others, the checkpoint rows, and the
   * replay drivers, shared or not. `built` is how much of the ledger the latest committed run of this
   * projection found.
   */
  datatype Life<T, U, C> = Life(
    log: seq<Event>, table: T, others: U, rows: map<string, StoredRow>, drivers: map<nat, Driver<C>>, built: nat)

  datatype Act<!U, !C> =
    | Grow(events: seq<Event>)
    | RunOnce(driver: nat, policy: bool, classify: Classifier, wipe: bool, force: bool, ending: Ending)
    | RunOther(driver: nat, builder: Builder<U, C>, policy: bool, classify: Classifier, wipe: bool, force: bool,
               ending: Ending)

  /** A driver not used before is a fresh one. */
  function DriverOf<C>(reducer: Reducer<C>, drivers: map<nat, Driver<C>>, id: nat): Driver<C> {
    if id in drivers then drivers[id] else Driver(reducer.empty, 0, 0, 0, None)
  }

  function Did<T, U, C>(b: Builder<T, C>, reducer: Reducer<C>, w: Life<T, U, C>, a: Act<U, C>): Life<T, U, C> {
    match a
    case Grow(events) => w.(log := w.log + events)
    case RunOnce(id, policy, classify, wipe, force, ending) =>
      var d := DriverOf(reducer, w.drivers, id);
      if ending.Committed? then
        var out := RunResult(b, reducer, policy, classify, wipe, force, w.log, w.table, w.rows, d);
        w.(table := out.table, rows := out.checkpoints, drivers := w.drivers[id := out.driver], built := |w.log|)
      else
        w.(drivers := w.drivers[id := DriverAfterRaise(b, reducer, policy, classify, wipe, force, w.log, ending.n,
                                                       w.table, w.rows, d)])
    case RunOther(id, other, policy, classify, wipe, force, ending) =>
      var d := DriverOf(reducer, w.drivers, id);
      if ending.Committed? then
        var out := RunResult(other, reducer, policy, classify, wipe, force, w.log, w.others, w.rows, d);
        w.(others := out.table, rows := out.checkpoints, drivers := w.drivers[id := out.driver])
      else
        w.(drivers := w.drivers[id := DriverAfterRaise(other, reducer, policy, classify, wipe, force, w.log, ending.n,
                                                       w.others, w.rows, d)])
  }

  function Lived<T, U, C>(b: Builder<T, C>, reducer: Reducer<C>, w: Life<T, U, C>,
                          acts: seq<Act<U, C>>): Life<T, U, C> {
    if acts == [] then w else Did(b, reducer, Lived(b, reducer, w, acts[..|acts| - 1]), acts[|acts| - 1])
  }

  /** A run that paused stores the pause. */
  lemma PauseIsStored<T, C>(b: Builder<T, C>, reducer: Reducer<C>, policy: bool, classify: Classifier,
                            wipe: bool, force: bool, log: seq<Event>, table: T,
                            rows: map<string, StoredRow>, d: Driver<C>)
    ensures var out := RunResult(b, reducer, policy, classify, wipe, force, log, table, rows, d);
            out.report.pauseReason == CheckpointOf(b.name, out.checkpoints).pauseReason == out.driver.pauseReason
  {
    var cp := CheckpointOf(b.name, rows);
    var plan := PlanOf(b, reducer, policy, classify, wipe, force, cp);
    var start := Started(b, reducer, wipe, force, table, d);
    if !(cp.pauseReason.Some? && !force) {
      LoopPauses(plan, log, 0, start);
    }
  }

  /** No forced run of projection `name` commits, and no other projection runs under its name. */
  predicate Unforced<U, C>(name: string, a: Act<U, C>) {
    match a
    case Grow(_) => true
    case RunOnce(_, _, _, _, force, ending) => !force || ending.RaisedAfter?
    case RunOther(_, other, _, _, _, _, _) => other.name != name
  }

  lemma UnforcedActHolds<T, U, C>(b: Builder<T, C>, reducer: Reducer<C>, w: Life<T, U, C>, a: Act<U, C>)
    requires CheckpointOf(b.name, w.rows).pauseReason.Some? && Unforced(b.name, a)
    ensures var end := Did(b, reducer, w, a);
            end.table == w.table && CheckpointOf(b.name, end.rows) == CheckpointOf(b.name, w.rows) && w.log <= end.log
  {}

  /** While paused, nothing short of a committed forced resume moves store, checkpoint or reason. */
  lemma {:induction false} PauseHolds<T, U, C>(b: Builder<T, C>, reducer: Reducer<C>, w: Life<T, U, C>,
                                               acts: seq<Act<U, C>>)
    requires CheckpointOf(b.name, w.rows).pauseReason.Some?
    requires forall a | a in acts :: Unforced(b.name, a)
    ensures var end := Lived(b, reducer, w, acts);
            end.table == w.table && CheckpointOf(b.name, end.rows) == CheckpointOf(b.name, w.rows) && w.log <= end.log
  {
    if acts != [] {
      Snoc(acts);
      PauseHolds(b, reducer, w, acts[..|acts| - 1]);
      UnforcedActHolds(b, reducer, Lived(b, reducer, w, acts[..|acts| - 1]), acts[|acts| - 1]);
    }
  }

  /** A forced resume rebuilds from the whole ledger, whatever was paused on or skipped before. */
  lemma ForcedResumeRebuilds<T, U, C>(b: Builder<T, C>, reducer: Reducer<C>, w: Life<T, U, C>, id: nat, policy: bool,
                                      classify: Classifier, wipe: bool)
    requires Increasing(w.log)
    ensures var end := Did(b, reducer, w, RunOnce(id, policy, classify, wipe, true, Committed));
            && end.table == Rebuilt(b, reducer, w.log, w.table)
            && CheckpointOf(b.name, end.rows).pauseReason.None? && end.drivers[id].pauseReason.None?
            && (w.log != [] && DriverOf(reducer, w.drivers, id).appliedSeq <= Tail(w.log) ==>
                  CheckpointOf(b.name, end.rows).appliedSeq == Tail(w.log))
  {
    var cp, d := CheckpointOf(b.name, w.rows), DriverOf(reducer, w.drivers, id);
    var plan := PlanOf(b, reducer, policy, classify, wipe, true, cp);
    var start := Started(b, reducer, wipe, true, w.table, d);
    LoopWithoutPoison(plan, w.log, 0, start, start.table);
    if d.appliedSeq <= Tail(w.log) { LoopCounter(plan, w.log, 0, start); }
  }

  /** From a pause, any unforced history followed by a forced resume loses no event of the ledger. */
  lemma NothingIsLostToAPause<T, U, C>(b: Builder<T, C>, reducer: Reducer<C>, w: Life<T, U, C>, acts: seq<Act<U, C>>,
                                       id: nat, policy: bool, classify: Classifier, wipe: bool)
    requires CheckpointOf(b.name, w.rows).pauseReason.Some?
    requires forall a | a in acts :: Unforced(b.name, a)
    requires Increasing(Lived(b, reducer, w, acts).log)
    ensures var end := Lived(b, reducer, w, acts + [RunOnce(id, policy, classify, wipe, true, Committed)]);
            && end.table == Rebuilt(b, reducer, end.log, w.table)
            && CheckpointOf(b.name, end.rows).pauseReason.None?
  {
    assert (acts + [RunOnce(id, policy, classify, wipe, true, Committed)])[..|acts|] == acts;
    PauseHolds(b, reducer, w, acts);
    ForcedResumeRebuilds(b, reducer, Lived(b, reducer, w, acts), id, policy, classify, wipe);
  }

  // ---------------------------------------------------------------------------
  // What the checkpoint says was applied
  // ---------------------------------------------------------------------------

  /** A store, and the sequence numbers of the events that reached each hook, in order. */
  datatype Watched<T> = Watched(table: T, applied: seq<nat>, skipped: seq<nat>, paused: seq<nat>)

  function Unwatched<T>(table: T): Watched<T> { Watched(table, [], [], []) }

  /** The builder with the calls of its hooks written down. */
  function Watching<T, C>(b: Builder<T, C>): Builder<Watched<T>, C> {
    Builder(b.name, b.poisonEnabled,
            (w: Watched<T>) => w.(table := b.wipe(w.table)),
            (w: Watched<T>) => w.(table := b.prepare(w.table)),
            (w: Watched<T>, c: C, e: Event) => w.(table := b.apply(w.table, c, e), applied := w.applied + [e.seqNo]),
            (w: Watched<T>, c: C, e: Event) => w.(table := b.onSkip(w.table, c, e), skipped := w.skipped + [e.seqNo]),
            (w: Watched<T>, c: C, e: Event) => w.(table := b.onPause(w.table, c, e), paused := w.paused + [e.seqNo]),
            (w: Watched<T>, c: C) => w.(table := b.finalize(w.table, c)))
  }

  function WatchedPlan<T, C>(plan: Plan<T, C>): Plan<Watched<T>, C> {
    Plan(Watching(plan.builder), plan.reducer, plan.classify, plan.applyFrom, plan.poisonOn)
  }

  /** Watching changes nothing else. */
  lemma {:induction false} WatchingOnlyWatches<T, C>(plan: Plan<T, C>, log: seq<Event>, i: nat,
                                                     p: Progress<Watched<T>, C>)
    requires i <= |log|
    ensures var seen := Loop(WatchedPlan(plan), log, i, p);
            var plain := Loop(plan, log, i, Progress(p.table.table, p.driver));
            seen.table.table == plain.table && seen.driver == plain.driver
    decreases |log| - i
  {
    if i < |log| && p.driver.pauseReason.None? {
      WatchingOnlyWatches(plan, log, i + 1, Turn(WatchedPlan(plan), p, log[i]));
    }
  }

  ghost predicate NoNewPause<T, C>(plan: Plan<T, C>, log: seq<Event>, i: nat) {
    forall k | i <= k < |log| && log[k].seqNo > plan.applyFrom :: !plan.classify(log[k]).PauseOn?
  }

  lemma {:induction false} CounterIsAppliedExactlyWhen<T, C>(plan: Plan<T, C>, log: seq<Event>, i: nat,
                                                             p: Progress<Watched<T>, C>)
    requires i < |log| && Increasing(log) && Tail(log) > plan.applyFrom && p.driver.pauseReason.None?
    requires forall s | s in p.table.applied :: s < log[i].seqNo
    ensures var end := Loop(WatchedPlan(plan), log, i, p);
            end.driver.appliedSeq in end.table.applied <==>
              !plan.poisonOn || (NoNewPause(plan, log, i) && !plan.classify(log[|log| - 1]).SkipEvent?)
    decreases |log| - i
  {
    var next := Turn(WatchedPlan(plan), p, log[i]);
    if i == |log| - 1 {
      assert Loop(WatchedPlan(plan), log, i, p) == next;
    } else {
      assert log[i].seqNo < log[i + 1].seqNo;
      if next.driver.pauseReason.None? { CounterIsAppliedExactlyWhen(plan, log, i + 1, next); }
    }
  }

  /**
   * A run that meets a new event stores a checkpoint naming an event that reached `apply` exactly when poison
   * is off, or no new event pauses and the last one is not skipped.
   */
  lemma CheckpointIsAppliedExactlyWhen<T, C>(b: Builder<T, C>, reducer: Reducer<C>, policy: bool, classify: Classifier,
                                             wipe: bool, force: bool, log: seq<Event>, table: T,
                                             rows: map<string, StoredRow>, d: Driver<C>)
    requires Increasing(log) && log != []
    requires var cp := CheckpointOf(b.name, rows);
             (cp.pauseReason.None? || force) &&
                 Tail(log) > PlanOf(b, reducer, policy, classify, wipe, force, cp).applyFrom
    ensures var plan := PlanOf(b, reducer, policy, classify, wipe, force, CheckpointOf(b.name, rows));
            var out := RunResult(b, reducer, policy, classify, wipe, force, log, table, rows, d);
            var seen := RunResult(Watching(b), reducer, policy, classify, wipe, force, log, Unwatched(table), rows,
                                  d);
            && seen.table.table == out.table && seen.checkpoints == out.checkpoints && seen.driver == out.driver
            && (CheckpointOf(b.name, out.checkpoints).appliedSeq in seen.table.applied <==>
                  !(policy && b.poisonEnabled && !force) ||
                      (NoNewPause(plan, log, 0) && !classify(log[|log| - 1]).SkipEvent?))
  {
    var cp := CheckpointOf(b.name, rows);
    var plan := PlanOf(b, reducer, policy, classify, wipe, force, cp);
    var start := Started(b, reducer, wipe, force, table, d);
    WatchedRun(b, reducer, policy, classify, wipe, force, log, table, rows, d);
    CounterIsAppliedExactlyWhen(plan, log, 0, Progress(Unwatched(start.table), start.driver));
  }

  /** A watched run leaves what the run itself leaves, and what the watched loop wrote down. */
  lemma WatchedRun<T, C>(b: Builder<T, C>, reducer: Reducer<C>, policy: bool, classify: Classifier,
                         wipe: bool, force: bool, log: seq<Event>, table: T, rows: map<string, StoredRow>, d: Driver<C>)
    requires var cp := CheckpointOf(b.name, rows); cp.pauseReason.None? || force
    ensures var plan := PlanOf(b, reducer, policy, classify, wipe, force, CheckpointOf(b.name, rows));
            var start := Started(b, reducer, wipe, force, table, d);
            var out := RunResult(b, reducer, policy, classify, wipe, force, log, table, rows, d);
            var seen := RunResult(Watching(b), reducer, policy, classify, wipe, force, log, Unwatched(table), rows,
                                  d);
            var end := Loop(WatchedPlan(plan), log, 0, Progress(Unwatched(start.table), start.driver));
            && seen.table.table == out.table && seen.checkpoints == out.checkpoints && seen.driver == out.driver
            && seen.table.applied == end.table.applied
            && CheckpointOf(b.name, out.checkpoints).appliedSeq == end.driver.appliedSeq
  {
    var cp := CheckpointOf(b.name, rows);
    var plan := PlanOf(b, reducer, policy, classify, wipe, force, cp);
    assert PlanOf(Watching(b), reducer, policy, classify, wipe, force, cp) == WatchedPlan(plan);
    var start := Started(b, reducer, wipe, force, table, d);
    WatchingOnlyWatches(plan, log, 0, Progress(Unwatched(start.table), start.driver));
  }

  /** The driver's counts are those of the calls; a pause is the last of them. */
  ghost predicate Tallied<T, C>(p: Progress<Watched<T>, C>) {
    var t, d := p.table, p.driver;
    && d.eventsSeen == |t.applied| + |t.skipped| + |t.paused| && d.skipped == |t.skipped|
    && if d.pauseReason == None then t.paused == [] else t.paused == [d.appliedSeq]
  }

  lemma {:induction false} LoopIsTallied<T, C>(plan: Plan<T, C>, log: seq<Event>, i: nat, p: Progress<Watched<T>, C>)
    requires i <= |log| && Tallied(p)
    ensures Tallied(Loop(WatchedPlan(plan), log, i, p))
    decreases |log| - i
  {
    if i < |log| && p.driver.pauseReason.None? {
      LoopIsTallied(plan, log, i + 1, Turn(WatchedPlan(plan), p, log[i]));
    }
  }

  /** The ledger's highest sequence number, 0 if it is empty. */
  ghost predicate IsTail(tail: nat, log: seq<Event>) {
    && (forall ev | ev in log :: ev.seqNo <= tail)
    && if log == [] then tail == 0 else exists ev | ev in log :: ev.seqNo == tail
  }

  lemma TailIsHighest(log: seq<Event>)
    requires Increasing(log)
    ensures IsTail(Tail(log), log)
  {
    if log != [] { assert log[|log| - 1] in log; }
  }

  /**
   * The report of a run: progress as stored, the ledger's tail, and the calls of the builder's hooks; a run that is
   * stopped by an earlier pause calls none.
   */
  lemma ReportTells<T, C>(b: Builder<T, C>, reducer: Reducer<C>, policy: bool, classify: Classifier,
                          wipe: bool, force: bool, log: seq<Event>, table: T, rows: map<string, StoredRow>,
                          d: Driver<C>)
    requires Increasing(log)
    ensures var out := RunResult(b, reducer, policy, classify, wipe, force, log, table, rows, d);
            var r, cp := out.report, CheckpointOf(b.name, out.checkpoints);
            && r.name == b.name && IsTail(r.ledgerTail, log) && r.appliedSeq == cp.appliedSeq
            && r.pauseReason == cp.pauseReason
    ensures var out := RunResult(b, reducer, policy, classify, wipe, force, log, table, rows, d);
            var seen := RunResult(Watching(b), reducer, policy, classify, wipe, force, log, Unwatched(table), rows, d);
            var r, t := out.report, seen.table;
            if CheckpointOf(b.name, rows).pauseReason != None && !force then
              !r.wipe && r.eventsSeen == 0 && t == Unwatched(table)
            else
              && r.wipe == wipe && r.eventsSeen == |t.applied| + |t.skipped| + |t.paused| && r.skipped == |t.skipped|
              && (if r.pauseReason == None then t.paused == []
                  else t.paused == [r.appliedSeq] && CheckpointOf(b.name, out.checkpoints).pauseSeq == r.appliedSeq)
  {
    var cp := CheckpointOf(b.name, rows);
    TailIsHighest(log);
    PauseIsStored(b, reducer, policy, classify, wipe, force, log, table, rows, d);
    if cp.pauseReason.None? || force {
      var plan := PlanOf(b, reducer, policy, classify, wipe, force, cp);
      var start := Started(b, reducer, wipe, force, table, d);
      WatchedRun(b, reducer, policy, classify, wipe, force, log, table, rows, d);
      LoopIsTallied(plan, log, 0, Progress(Unwatched(start.table), start.driver));
    }
  }

  /** The ledger without the operational audit. */
  function WithoutAudit(log: seq<Event>): seq<Event> {
    if log == [] then []
    else
      var init, last := WithoutAudit(log[..|log| - 1]), log[|log| - 1];
      if last.eventType == OtherEvent("JobRunAudit") then init else init + [last]
  }

  /** Canonical state is the plain fold of all events but the operational audit. */
  lemma {:induction false} AuditLeavesNoTrace<C>(reducer: Reducer<C>, log: seq<Event>, ev: Event)
    ensures CanonAfter(reducer, log) == CanonAfter(reducer, WithoutAudit(log))
    ensures ev.eventType != OtherEvent("JobRunAudit") ==>
              CanonAfter(reducer, log + [ev]) == reducer.reduce(CanonAfter(reducer, log), ev)
  {
    assert (log + [ev])[..|log|] == log;
    if log != [] {
      var init, last := log[..|log| - 1], log[|log| - 1];
      AuditLeavesNoTrace(reducer, init, last);
      var kept := WithoutAudit(init);
      assert (kept + [last])[..|kept|] == kept;
    }
  }

  /** A last event that pauses or is skipped is recorded as applied although it never reached `apply`. */
  lemma PoisonOverstatesProgress<T, C>(b: Builder<T, C>, reducer: Reducer<C>, ev: Event, verdict: Verdict, table: T,
                                       d: Driver<C>)
    requires b.poisonEnabled && ev.seqNo > 0 && !verdict.ApplyEvent?
    ensures var out := RunResult(b, reducer, true, (e: Event) => verdict, false, false, [ev], table, map[], d);
            var state := Reduced(reducer, reducer.empty, ev);
            && CheckpointOf(b.name, out.checkpoints).appliedSeq == ev.seqNo
            && CheckpointOf(b.name, out.checkpoints).pauseReason ==
               (if verdict.PauseOn? then Some(verdict.reason) else None)
            && out.table == b.finalize(if verdict.PauseOn? then b.onPause(b.prepare(table), state, ev)
                                       else b.onSkip(b.prepare(table), state, ev), state)
  {
    var plan := PlanOf(b, reducer, true, (e: Event) => verdict, false, false, Fresh(b.name));
    var start := Started(b, reducer, false, false, table, d);
    assert Loop(plan, [ev], 0, start) == Loop(plan, [ev], 1, Turn(plan, start, ev));
  }
}
