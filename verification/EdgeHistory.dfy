/** The edge projection under any history of runs: the stored table always equals one replay from nothing. */
module EdgeHistory {
  import opened Wrappers
  import opened LedgerEvents
  import opened Checkpoints
  import opened Edges
  import opened EdgeLaws
  import opened Replay
  import opened ReplayLaws

  const EDGES := "semantic_edges"

  /** Canonical state: the locks the edge builder reads, and the rows only other builders read. */
  datatype Canonical<R> = Canonical(locks: Locks, rows: R)

  /** The shared reducer, its row half left open. */
  function CanonReducer<R>(none: R, reduceRows: (Canonical<R>, Event) -> R): Reducer<Canonical<R>> {
    Reducer(Canonical(map[], none),
            (c: Canonical<R>, ev: Event) => Canonical(ReduceLocks(c.locks, ev), reduceRows(c, ev)))
  }

  /** The edge builder: poison off, and no hook but `apply` and `wipe` does anything. */
  function EdgeBuilder<R>(idText: IdText): Builder<Table, Canonical<R>> {
    Builder(EDGES, false, (t: Table) => map[], (t: Table) => t,
            (t: Table, c: Canonical<R>, ev: Event) => Step(t, Entry(c.locks, ev), idText),
            (t: Table, c: Canonical<R>, ev: Event) => t, (t: Table, c: Canonical<R>, ev: Event) => t,
            (t: Table, c: Canonical<R>) => t)
  }

  /** Each event of the ledger with the locks its own fold leaves. */
  function Entries(log: seq<Event>): (es: seq<Entry>)
    ensures |es| == |log|
  {
    if log == [] then []
    else Entries(log[..|log| - 1]) + [Entry(LocksAfter(log), log[|log| - 1])]
  }

  /** One replay of the whole ledger over an empty table. */
  function FullReplay(log: seq<Event>, idText: IdText): Table { Fold(map[], Entries(log), idText) }

  lemma {:induction false} EntriesPrefix(log: seq<Event>, n: nat)
    requires n <= |log|
    ensures Entries(log[..n]) == Entries(log)[..n]
  {
    if n == |log| {
      assert log[..n] == log;
    } else {
      var init := log[..|log| - 1];
      assert init[..n] == log[..n];
      EntriesPrefix(init, n);
    }
  }

  lemma {:induction false} CanonLocks<R>(none: R, reduceRows: (Canonical<R>, Event) -> R, log: seq<Event>)
    ensures CanonAfter(CanonReducer(none, reduceRows), log).locks == LocksAfter(log)
  {
    if log != [] { CanonLocks(none, reduceRows, log[..|log| - 1]); }
  }

  /** How many leading events a checkpoint covers. */
  function Covered(log: seq<Event>, applied: nat): (j: nat)
    ensures j <= |log|
  {
    if log == [] then 0
    else if log[|log| - 1].seqNo <= applied then |log| else Covered(log[..|log| - 1], applied)
  }

  lemma {:induction false} CoveredIsPrefix(log: seq<Event>, applied: nat)
    requires Increasing(log)
    ensures forall k | 0 <= k < |log| :: log[k].seqNo <= applied <==> k < Covered(log, applied)
  {
    if log != [] {
      var init, last := log[..|log| - 1], log[|log| - 1];
      CoveredIsPrefix(init, applied);
      forall k | 0 <= k < |log| ensures log[k].seqNo <= applied <==> k < Covered(log, applied) {
        if k < |init| { assert log[k] == init[k]; }
      }
    }
  }

  lemma {:induction false} NothingCoveredByZero(log: seq<Event>)
    requires Increasing(log)
    ensures Covered(log, 0) == 0
  {
    if log != [] { NothingCoveredByZero(log[..|log| - 1]); }
  }

  lemma {:induction false} CoveredByPrefixTail(log: seq<Event>, n: nat)
    requires Increasing(log) && n <= |log|
    ensures Tail(log[..n]) <= Tail(log)
    ensures Covered(log, Tail(log[..n])) == n
  {
    if n == |log| {
      assert log[..n] == log;
    } else {
      var init := log[..|log| - 1];
      assert init[..n] == log[..n];
      CoveredByPrefixTail(init, n);
    }
  }

  /** The entry of event `k`, read off the annotated ledger. */
  lemma EntryAt(log: seq<Event>, k: nat)
    requires k < |log|
    ensures Entries(log)[k] == Entry(LocksAfter(log[..k + 1]), log[k])
  {
    EntriesPrefix(log, k + 1);
    assert log[..k + 1][k] == log[k];
  }

  lemma FoldOneMore(t: Table, es: seq<Entry>, j: nat, n: nat, idText: IdText)
    requires j < n <= |es|
    ensures Fold(t, es[j..n], idText) == Step(Fold(t, es[j..n - 1], idText), es[n - 1], idText)
  {
    SliceEnds(es, j, n);
  }

  lemma SliceEnds<E>(s: seq<E>, j: nat, n: nat)
    requires j < n <= |s|
    ensures s[j..n][..|s[j..n]| - 1] == s[j..n - 1] && s[j..n][|s[j..n]| - 1] == s[n - 1]
  {}

  /** One more new event is one more step of the fold. */
  lemma AppliedOneMore<R>(idText: IdText, none: R, reduceRows: (Canonical<R>, Event) -> R,
                          applied: nat, log: seq<Event>, n: nat, t: Table)
    requires 0 < n <= |log| && log[n - 1].seqNo > applied
    ensures Applied(EdgeBuilder(idText), CanonReducer(none, reduceRows), applied, log, n, t) ==
            Step(Applied(EdgeBuilder(idText), CanonReducer(none, reduceRows), applied, log, n - 1, t),
                 Entries(log)[n - 1], idText)
  {
    CanonLocks(none, reduceRows, log[..n]);
    EntryAt(log, n - 1);
  }

  /** Events up to a checkpoint are not applied again. */
  lemma {:induction false} NothingApplied<R>(idText: IdText, none: R, reduceRows: (Canonical<R>, Event) -> R,
                                             applied: nat, log: seq<Event>, n: nat, t: Table)
    requires n <= |log| && forall k | 0 <= k < n :: log[k].seqNo <= applied
    ensures Applied(EdgeBuilder(idText), CanonReducer(none, reduceRows), applied, log, n, t) == t
  {
    if n > 0 { NothingApplied(idText, none, reduceRows, applied, log, n - 1, t); }
  }

  /** What the driver applies beyond a checkpoint is the fold of the uncovered entries. */
  lemma {:induction false} AppliedIsFold<R>(idText: IdText, none: R, reduceRows: (Canonical<R>, Event) -> R,
                                            applied: nat, log: seq<Event>, j: nat, n: nat, t: Table)
    requires j <= n <= |log|
    requires forall k | 0 <= k < n :: log[k].seqNo <= applied <==> k < j
    ensures Applied(EdgeBuilder(idText), CanonReducer(none, reduceRows), applied, log, n, t) ==
            Fold(t, Entries(log)[j..n], idText)
    decreases n
  {
    if n == j {
      NothingApplied(idText, none, reduceRows, applied, log, n, t);
      assert Entries(log)[j..n] == [];
    } else {
      AppliedIsFold(idText, none, reduceRows, applied, log, j, n - 1, t);
      AppliedOneFoldMore(idText, none, reduceRows, applied, log, n, t, j);
    }
  }

  lemma AppliedOneFoldMore<R>(idText: IdText, none: R, reduceRows: (Canonical<R>, Event) -> R,
                              applied: nat, log: seq<Event>, n: nat, t: Table, j: nat)
    requires j < n <= |log| && log[n - 1].seqNo > applied
    requires Applied(EdgeBuilder(idText), CanonReducer(none, reduceRows), applied, log, n - 1, t) ==
             Fold(t, Entries(log)[j..n - 1], idText)
    ensures Applied(EdgeBuilder(idText), CanonReducer(none, reduceRows), applied, log, n, t) ==
            Fold(t, Entries(log)[j..n], idText)
  {
    AppliedOneMore(idText, none, reduceRows, applied, log, n, t);
    FoldOneMore(t, Entries(log), j, n, idText);
  }

  lemma ThreeParts<E>(s: seq<E>, j: nat, k: nat)
    requires j <= k <= |s|
    ensures s[..j] + s[j..k] == s[..k]
    ensures s[j..k] + s[k..] == s[j..]
    ensures s[..j] + s[j..k] + s[k..] == s
  {}

  /** Over the table of `prefix + mid`, delivering `mid` again and going on completes the replay. */
  lemma FoldCatchesUp(prefix: seq<Entry>, mid: seq<Entry>, rest: seq<Entry>, idText: IdText)
    ensures Fold(Fold(map[], prefix + mid, idText), mid + rest, idText) == Fold(map[], prefix + mid + rest, idText)
  {
    FoldSplits(Fold(map[], prefix + mid, idText), mid, rest, idText);
    SuffixRedelivery(prefix, mid, idText);
    FoldSplits(map[], prefix + mid, rest, idText);
  }

  /** A table that is a full replay of a prefix becomes one of the whole ledger, from any covered point. */
  lemma CatchUp(log: seq<Event>, built: nat, j: nat, idText: IdText)
    requires j <= built <= |log|
    ensures Fold(FullReplay(log[..built], idText), Entries(log)[j..], idText) == FullReplay(log, idText)
  {
    var es := Entries(log);
    EntriesPrefix(log, built);
    ThreeParts(es, j, built);
    FoldCatchesUp(es[..j], es[j..built], es[built..], idText);
  }

  /** All uncovered events of the ledger, applied to `t`. */
  lemma AppliedToTheEnd<R>(idText: IdText, none: R, reduceRows: (Canonical<R>, Event) -> R,
                           applied: nat, log: seq<Event>, t: Table)
    requires Increasing(log)
    ensures Applied(EdgeBuilder(idText), CanonReducer(none, reduceRows), applied, log, |log|, t) ==
              Fold(t, Entries(log)[Covered(log, applied)..], idText)
  {
    var j := Covered(log, applied);
    CoveredIsPrefix(log, applied);
    AppliedIsFold(idText, none, reduceRows, applied, log, j, |log|, t);
    assert Entries(log)[j..|log|] == Entries(log)[j..];
  }

  // ---------------------------------------------------------------------------
  // Histories
  // ---------------------------------------------------------------------------

  /** The edge projection among the projections of one database, whose stores are the `others`. */
  type World<T, R> = Life<Table, T, Canonical<R>>

  type Action<!T, !R> = Act<T, Canonical<R>>

  datatype Setup<!R> = Setup(idText: IdText, none: R, reduceRows: (Canonical<R>, Event) -> R) {
    function TheReducer(): Reducer<Canonical<R>> { CanonReducer(none, reduceRows) }
  }

  function EdgeRun<T, R>(s: Setup<R>, w: World<T, R>, id: nat, policy: bool, classify: Classifier,
                         wipe: bool, force: bool): Outcome<Table, Canonical<R>> {
    RunResult(EdgeBuilder(s.idText), s.TheReducer(), policy, classify, wipe, force, w.log, w.table, w.rows,
              DriverOf(s.TheReducer(), w.drivers, id))
  }

  ghost predicate Legal<T, R>(w: World<T, R>, a: Action<T, R>) {
    match a
    case Grow(events) => Increasing(w.log + events)
    case RunOnce(_, _, _, _, _, _) => true
    case RunOther(_, b, _, _, _, _, _) => b.name != EDGES
  }

  function Acted<T, R>(s: Setup<R>, w: World<T, R>, a: Action<T, R>): World<T, R> {
    Did(EdgeBuilder(s.idText), s.TheReducer(), w, a)
  }

  function Reached<T, R>(s: Setup<R>, w: World<T, R>, acts: seq<Action<T, R>>): World<T, R> {
    Lived(EdgeBuilder(s.idText), s.TheReducer(), w, acts)
  }

  ghost predicate AllLegal<T, R>(s: Setup<R>, w: World<T, R>, acts: seq<Action<T, R>>) {
    acts != [] ==>
      AllLegal(s, w, acts[..|acts| - 1]) && Legal(Reached(s, w, acts[..|acts| - 1]), acts[|acts| - 1])
  }

  /** The edge table is a full replay of what was built, and no checkpoint claims more than that. */
  ghost predicate Sound<T, R>(s: Setup<R>, w: World<T, R>) {
    && Increasing(w.log) && w.built <= |w.log|
    && w.table == FullReplay(w.log[..w.built], s.idText)
    && CheckpointOf(EDGES, w.rows).appliedSeq <= Tail(w.log[..w.built])
    && CheckpointOf(EDGES, w.rows).pauseReason.None?
    && Bounded(w.drivers, w.rows, Tail(w.log))
  }

  /** No driver and no checkpoint of any projection stands beyond the ledger. */
  ghost predicate Bounded<C>(drivers: map<nat, Driver<C>>, rows: map<string, StoredRow>, tail: nat) {
    && (forall id | id in drivers :: drivers[id].appliedSeq <= tail)
    && (forall n | n in rows :: rows[n].appliedSeq <= tail)
  }

  /** A run of any projection touches one driver and one row, and leaves both within the ledger. */
  lemma RunKeepsBounded<T, C>(b: Builder<T, C>, reducer: Reducer<C>, policy: bool, classify: Classifier,
                              wipe: bool, force: bool, log: seq<Event>, table: T,
                              rows: map<string, StoredRow>, drivers: map<nat, Driver<C>>, id: nat, d: Driver<C>)
    requires Increasing(log) && Bounded(drivers, rows, Tail(log)) && d.appliedSeq <= Tail(log)
    ensures var out := RunResult(b, reducer, policy, classify, wipe, force, log, table, rows, d);
            && Bounded(drivers[id := out.driver], out.checkpoints, Tail(log))
            && forall n | n != b.name :: CheckpointOf(n, out.checkpoints) == CheckpointOf(n, rows)
  {
    RunStaysWithinLedger(b, reducer, policy, classify, wipe, force, log, table, rows, d);
  }

  function Initial<T, R>(others: T): World<T, R> { Life([], map[], others, map[], map[], 0) }

  lemma CoveredIsMonotone(log: seq<Event>, a: nat, b: nat)
    requires Increasing(log) && a <= b
    ensures Covered(log, a) <= Covered(log, b)
  {
    CoveredIsPrefix(log, a);
    CoveredIsPrefix(log, b);
    if Covered(log, a) > 0 { assert log[Covered(log, a) - 1].seqNo <= b; }
  }

  /** What the replay loop of an edge run leaves in the table, given where it starts. */
  lemma EdgeLoop<R>(idText: IdText, none: R, reduceRows: (Canonical<R>, Event) -> R, policy: bool,
                    classify: Classifier, wipe: bool, force: bool, log: seq<Event>, table: Table,
                    rows: map<string, StoredRow>, d: Driver<Canonical<R>>)
    requires Increasing(log) && CheckpointOf(EDGES, rows).pauseReason.None?
    ensures var out := RunResult(EdgeBuilder(idText), CanonReducer(none, reduceRows), policy, classify, wipe,
                                 force, log, table, rows, d);
            var j := if wipe || force then 0 else Covered(log, CheckpointOf(EDGES, rows).appliedSeq);
            && out.table == Fold(if wipe || force then map[] else table, Entries(log)[j..], idText)
            && CheckpointOf(EDGES, out.checkpoints).pauseReason.None?
  {
    var b: Builder<Table, Canonical<R>>, reducer := EdgeBuilder(idText), CanonReducer(none, reduceRows);
    var plan := PlanOf(b, reducer, policy, classify, wipe, force, CheckpointOf(EDGES, rows));
    var start := Started(b, reducer, wipe, force, table, d);
    LoopWithoutPoison(plan, log, 0, start, start.table);
    AppliedToTheEnd(idText, none, reduceRows, plan.applyFrom, log, start.table);
    NothingCoveredByZero(log);
  }

  /** One edge run of any kind brings the table to a full replay of the ledger it read. */
  lemma EdgeRunRebuilds<T, R>(s: Setup<R>, w: World<T, R>, id: nat, policy: bool, classify: Classifier,
                              wipe: bool, force: bool)
    requires Sound(s, w)
    ensures var out := EdgeRun(s, w, id, policy, classify, wipe, force);
            && out.table == FullReplay(w.log, s.idText)
            && CheckpointOf(EDGES, out.checkpoints).pauseReason.None?
  {
    EdgeLoop(s.idText, s.none, s.reduceRows, policy, classify, wipe, force, w.log, w.table, w.rows,
             DriverOf(s.TheReducer(), w.drivers, id));
    if wipe || force {
      assert Entries(w.log)[0..] == Entries(w.log);
    } else {
      var applied := CheckpointOf(EDGES, w.rows).appliedSeq;
      CoveredByPrefixTail(w.log, w.built);
      CoveredIsMonotone(w.log, applied, Tail(w.log[..w.built]));
      CatchUp(w.log, w.built, Covered(w.log, applied), s.idText);
    }
  }

  lemma GrowthKeepsSound<T, R>(s: Setup<R>, w: World<T, R>, events: seq<Event>)
    requires Sound(s, w) && Increasing(w.log + events)
    ensures Sound(s, w.(log := w.log + events))
  {
    assert (w.log + events)[..w.built] == w.log[..w.built];
    CoveredByPrefixTail(w.log + events, |w.log|);
    assert (w.log + events)[..|w.log|] == w.log;
  }

  lemma EdgeRunKeepsSound<T, R>(s: Setup<R>, w: World<T, R>, a: Action<T, R>)
    requires Sound(s, w) && a.RunOnce? && a.ending.Committed?
    ensures Sound(s, Acted(s, w, a))
    ensures Acted(s, w, a).table == FullReplay(w.log, s.idText) && Acted(s, w, a).log == w.log
  {
    var out := EdgeRun(s, w, a.driver, a.policy, a.classify, a.wipe, a.force);
    EdgeRunRebuilds(s, w, a.driver, a.policy, a.classify, a.wipe, a.force);
    EdgeRunKeepsBounded(s, w, a.driver, a.policy, a.classify, a.wipe, a.force);
    SoundOnceBuilt(s, w, out.table, out.checkpoints, w.drivers[a.driver := out.driver]);
  }

  /** A run that raises changes nothing but its driver, which stays within the ledger. */
  lemma RaiseKeepsSound<T, R>(s: Setup<R>, w: World<T, R>, a: Action<T, R>)
    requires Sound(s, w) && !a.Grow? && a.ending.RaisedAfter?
    ensures Sound(s, Acted(s, w, a))
  {
    var d := DriverOf(s.TheReducer(), w.drivers, a.driver);
    if a.RunOnce? {
      RaiseStaysWithinLedger(EdgeBuilder(s.idText), s.TheReducer(), a.policy, a.classify, a.wipe, a.force, w.log,
                             a.ending.n, w.table, w.rows, d);
    } else {
      RaiseStaysWithinLedger(a.builder, s.TheReducer(), a.policy, a.classify, a.wipe, a.force, w.log, a.ending.n,
                             w.others, w.rows, d);
    }
  }

  lemma EdgeRunKeepsBounded<T, R>(s: Setup<R>, w: World<T, R>, id: nat, policy: bool, classify: Classifier,
                                  wipe: bool, force: bool)
    requires Sound(s, w)
    ensures var out := EdgeRun(s, w, id, policy, classify, wipe, force);
            Bounded(w.drivers[id := out.driver], out.checkpoints, Tail(w.log))
  {
    RunKeepsBounded(EdgeBuilder(s.idText), s.TheReducer(), policy, classify, wipe, force,
                    w.log, w.table, w.rows, w.drivers, id, DriverOf(s.TheReducer(), w.drivers, id));
  }

  lemma SoundOnceBuilt<T, R>(s: Setup<R>, w: World<T, R>, table: Table, rows: map<string, StoredRow>,
                             drivers: map<nat, Driver<Canonical<R>>>)
    requires Increasing(w.log) && table == FullReplay(w.log, s.idText)
    requires CheckpointOf(EDGES, rows).pauseReason.None? && Bounded(drivers, rows, Tail(w.log))
    ensures Sound(s, w.(table := table, rows := rows, drivers := drivers, built := |w.log|))
  {
    assert w.log[..|w.log|] == w.log;
  }

  lemma OtherRunKeepsSound<T, R>(s: Setup<R>, w: World<T, R>, a: Action<T, R>)
    requires Sound(s, w) && a.RunOther? && a.ending.Committed? && Legal(w, a)
    ensures Sound(s, Acted(s, w, a))
  {
    RunKeepsBounded(a.builder, s.TheReducer(), a.policy, a.classify, a.wipe, a.force,
                    w.log, w.others, w.rows, w.drivers, a.driver, DriverOf(s.TheReducer(), w.drivers, a.driver));
  }

  lemma ActKeepsSound<T, R>(s: Setup<R>, w: World<T, R>, a: Action<T, R>)
    requires Sound(s, w) && Legal(w, a)
    ensures Sound(s, Acted(s, w, a))
    ensures a.RunOnce? && a.ending.Committed? ==> Acted(s, w, a).table == FullReplay(Acted(s, w, a).log, s.idText)
  {
    if a.Grow? {
      GrowthKeepsSound(s, w, a.events);
    } else if a.ending.RaisedAfter? {
      RaiseKeepsSound(s, w, a);
    } else if a.RunOnce? {
      EdgeRunKeepsSound(s, w, a);
    } else {
      OtherRunKeepsSound(s, w, a);
    }
  }

  /** Whatever the history, the edge table is one replay of the ledger its latest committed run read. */
  lemma {:induction false} HistoryEqualsReplay<T, R>(s: Setup<R>, others: T, acts: seq<Action<T, R>>)
    requires AllLegal(s, Initial(others), acts)
    ensures Sound(s, Reached(s, Initial(others), acts))
    ensures acts != [] && acts[|acts| - 1].RunOnce? && acts[|acts| - 1].ending.Committed? ==>
              var w := Reached(s, Initial(others), acts);
              w.table == FullReplay(w.log, s.idText)
  {
    if acts != [] {
      HistoryEqualsReplay(s, others, acts[..|acts| - 1]);
      ActKeepsSound(s, Reached(s, Initial(others), acts[..|acts| - 1]), acts[|acts| - 1]);
    }
  }

  /** The checkpoint falls exactly when an incremental run finds nothing new and its driver stands lower. */
  lemma CheckpointFallsExactlyWhen<T, R>(s: Setup<R>, w: World<T, R>, id: nat, policy: bool, classify: Classifier,
                                         wipe: bool, force: bool)
    requires Sound(s, w)
    ensures var before := CheckpointOf(EDGES, w.rows).appliedSeq;
            var after := CheckpointOf(EDGES, EdgeRun(s, w, id, policy, classify, wipe, force).checkpoints).appliedSeq;
            after < before <==>
              !wipe && !force && before == Tail(w.log) && DriverOf(s.TheReducer(), w.drivers, id).appliedSeq < before
  {
    var b: Builder<Table, Canonical<R>>, reducer := EdgeBuilder(s.idText), s.TheReducer();
    var cp, d := CheckpointOf(EDGES, w.rows), DriverOf(s.TheReducer(), w.drivers, id);
    CoveredByPrefixTail(w.log, w.built);
    LoopWithoutPoison(PlanOf(b, reducer, policy, classify, wipe, force, cp), w.log, 0,
                      Started(b, reducer, wipe, force, w.table, d), Started(b, reducer, wipe, force, w.table, d).table);
    LoopCounter(PlanOf(b, reducer, policy, classify, wipe, force, cp), w.log, 0,
                Started(b, reducer, wipe, force, w.table, d));
  }
}
