/** Interrupted graphs: when running the rest of the stages reproduces the keys of the uninterrupted run. */
module ResumeLaws {
  import opened Wrappers
  import opened Sequences
  import opened Lineage
  import opened Manifests
  import opened Runner
  import opened RunnerLaws
  import opened Fates
  import SE = StageExecution
  import JS = JobStore

  // ---------------------------------------------------------------------------
  // Keys depend on the set of prior refs only
  // ---------------------------------------------------------------------------

  lemma {:induction false} DistinctSameSet(a: seq<string>, b: seq<string>)
    requires NoDuplicates(a) && NoDuplicates(b)
    ensures multiset(a) == multiset(b) <==> forall r :: r in a <==> r in b
  {
    forall r ensures multiset(a)[r] == (if r in a then 1 else 0) && multiset(b)[r] == (if r in b then 1 else 0) {
      CountOfDistinct(a, r);
      CountOfDistinct(b, r);
    }
    if multiset(a) == multiset(b) {
      forall r ensures r in a <==> r in b { assert r in multiset(a) <==> r in multiset(b); }
    }
  }

  lemma {:induction false} CountOfDistinct(a: seq<string>, r: string)
    requires NoDuplicates(a)
    ensures multiset(a)[r] == if r in a then 1 else 0
  {
    if a != [] {
      assert a == a[..|a| - 1] + [a[|a| - 1]];
      CountOfDistinct(a[..|a| - 1], r);
    }
  }

  /** Two duplicate-free lists of prior refs give a stage one key exactly when they hold the same refs. */
  lemma KeyDependsOnRefSet(req: GraphRequest, stage: string, a: seq<string>, b: seq<string>)
    requires Stable(req.enc) && PlainRequest(req) && stage in STAGE_ORDER
    requires NoDuplicates(a) && NoDuplicates(b)
    ensures KeyFor(req, stage, a) == KeyFor(req, stage, b) <==> forall r :: r in a <==> r in b
  {
    KeyDecides(req, req, stage, stage, a, b);
    DistinctSameSet(a, b);
  }

  // ---------------------------------------------------------------------------
  // Two graphs in lockstep
  // ---------------------------------------------------------------------------

  /** The two rows lead every future execution to the same record. */
  predicate SameFate(a: Option<SE.RunRow>, b: Option<SE.RunRow>) {
    || (OpenRow(a) && OpenRow(b))
    || (a.Some? && b.Some? && a.value.status == b.value.status
        && (a.value.status.Completed? ==> a.value.refs == b.value.refs))
  }

  ghost predicate Twins(a: Bench, b: Bench) {
    && a.stopped == b.stopped && a.raised == b.raised
    && NoDuplicates(a.prior) && NoDuplicates(b.prior) && (forall r :: r in a.prior <==> r in b.prior)
    && (forall key :: SameFate(RowOf(a.store, key), RowOf(b.store, key)))
  }

  /** Work is deterministic: manifests with one key get the same results, attempt by attempt. */
  ghost predicate Deterministic(enc: Encoding, registry: Registry) {
    forall stage, m, n, i: nat | stage in registry && Material(enc, m) == Material(enc, n) ::
      registry[stage](m)(i) == registry[stage](n)(i)
  }

  lemma {:induction false} SameWorkSameEnd(maxAttempts: nat, v: SE.Work, w: SE.Work, attempt: nat)
    requires forall i: nat :: v(i) == w(i)
    ensures Worked(maxAttempts, v, attempt) == Worked(maxAttempts, w, attempt)
    decreases if attempt < maxAttempts then maxAttempts - attempt else 0
  {
    assert v(attempt) == w(attempt);
    if v(attempt).Raised? && attempt < maxAttempts { SameWorkSameEnd(maxAttempts, v, w, attempt + 1); }
  }

  /** Twin rows and equal work give one record, and twin rows again. */
  lemma TwinExecutions(maxAttempts: nat, s: SE.Store, t: SE.Store, m: SE.Manifest, v: SE.Work, w: SE.Work)
    requires forall key :: SameFate(RowOf(s, key), RowOf(t, key))
    requires forall i: nat :: v(i) == w(i)
    ensures var a, b := SE.Driven(maxAttempts, s, m, SE.AtClaim, v), SE.Driven(maxAttempts, t, m, SE.AtClaim, w);
            && a.pc == b.pc && a.pc.Done?
            && forall key :: SameFate(RowOf(a.store, key), RowOf(b.store, key))
  {
    DrivenFate(maxAttempts, s, m, v);
    DrivenFate(maxAttempts, t, m, w);
    SameWorkSameEnd(maxAttempts, v, w, 1);
    WorkedShape(maxAttempts, v, 1);
    var a, b := SE.Driven(maxAttempts, s, m, SE.AtClaim, v), SE.Driven(maxAttempts, t, m, SE.AtClaim, w);
    assert SameFate(RowOf(s, m.key), RowOf(t, m.key));
    forall key ensures SameFate(RowOf(a.store, key), RowOf(b.store, key)) {
      assert SameFate(RowOf(s, key), RowOf(t, key));
    }
  }

  /** One stage in two twin graphs: the same key, and twins again. */
  lemma TwinTurn(maxAttempts: nat, req: GraphRequest, registry: Registry, rec: Option<JS.JobRecord>,
                 a: Bench, b: Bench, stage: string)
    requires Stable(req.enc) && PlainRequest(req) && stage in STAGE_ORDER && Deterministic(req.enc, registry)
    requires Twins(a, b)
    ensures KeyFor(req, stage, a.prior) == KeyFor(req, stage, b.prior)
    ensures Twins(Turn(maxAttempts, req, registry, rec, a, stage), Turn(maxAttempts, req, registry, rec, b, stage))
  {
    KeyDependsOnRefSet(req, stage, a.prior, b.prior);
    if !a.stopped && !a.raised && Schedulable(rec) && stage !in rec.value.cancelled && stage in registry {
      var v, w := registry[stage](ManifestFor(req, stage, a.prior)), registry[stage](ManifestFor(req, stage, b.prior));
      forall i: nat ensures v(i) == w(i) {}
      TwinExecuted(maxAttempts, req, a, b, stage, v, w);
    }
  }

  lemma TwinExecuted(maxAttempts: nat, req: GraphRequest, a: Bench, b: Bench, stage: string, v: SE.Work, w: SE.Work)
    requires Twins(a, b) && KeyFor(req, stage, a.prior) == KeyFor(req, stage, b.prior)
    requires forall i: nat :: v(i) == w(i)
    ensures Twins(Executed(maxAttempts, req, v, a, stage), Executed(maxAttempts, req, w, b, stage))
  {
    var m := ExecManifest(req, stage, a.prior);
    assert m == ExecManifest(req, stage, b.prior);
    TwinExecutions(maxAttempts, a.store, b.store, m, v, w);
    var x, y := SE.Driven(maxAttempts, a.store, m, SE.AtClaim, v), SE.Driven(maxAttempts, b.store, m, SE.AtClaim, w);
    SameRefsPassedOn(a.prior, b.prior, RecordOf(x.pc));
    ExecutedParts(maxAttempts, req, v, a, stage, x);
    ExecutedParts(maxAttempts, req, w, b, stage, y);
  }

  lemma SameRefsPassedOn(a: seq<string>, b: seq<string>, record: SE.Record)
    requires NoDuplicates(a) && NoDuplicates(b) && forall r :: r in a <==> r in b
    ensures var x, y := PassedOn(a, record), PassedOn(b, record);
            NoDuplicates(x) && NoDuplicates(y) && forall r :: r in x <==> r in y
  {
    if record.refs.Some? {
      AbsorbAll(a, record.refs.value.artifacts);
      AbsorbAll(b, record.refs.value.artifacts);
    }
  }

  /** Twin graphs stay twins. */
  lemma {:induction false} Lockstep(maxAttempts: nat, req: GraphRequest, registry: Registry, rec: Option<JS.JobRecord>,
                                    a: Bench, b: Bench, stages: seq<string>)
    requires Stable(req.enc) && PlainRequest(req) && Deterministic(req.enc, registry) && Twins(a, b)
    requires forall s | s in stages :: s in STAGE_ORDER
    ensures Twins(Turns(maxAttempts, req, registry, rec, a, stages), Turns(maxAttempts, req, registry, rec, b, stages))
  {
    if stages != [] {
      var init, last := stages[..|stages| - 1], stages[|stages| - 1];
      assert last in stages && forall s | s in init :: s in stages;
      Lockstep(maxAttempts, req, registry, rec, a, b, init);
      TwinTurn(maxAttempts, req, registry, rec, Turns(maxAttempts, req, registry, rec, a, init),
               Turns(maxAttempts, req, registry, rec, b, init), last);
    }
  }

  /** Twin graphs give every stage one key. */
  lemma LockstepKeys(maxAttempts: nat, req: GraphRequest, registry: Registry, rec: Option<JS.JobRecord>,
                     a: Bench, b: Bench, stages: seq<string>, stage: string)
    requires Stable(req.enc) && PlainRequest(req) && Deterministic(req.enc, registry) && Twins(a, b)
    requires stage in STAGE_ORDER && forall s | s in stages :: s in STAGE_ORDER
    ensures KeyFor(req, stage, Turns(maxAttempts, req, registry, rec, a, stages).prior) ==
            KeyFor(req, stage, Turns(maxAttempts, req, registry, rec, b, stages).prior)
  {
    Lockstep(maxAttempts, req, registry, rec, a, b, stages);
    KeyDependsOnRefSet(req, stage, Turns(maxAttempts, req, registry, rec, a, stages).prior,
                       Turns(maxAttempts, req, registry, rec, b, stages).prior);
  }

  lemma TwinsTransitive(a: Bench, b: Bench, c: Bench)
    requires Twins(a, b) && Twins(b, c)
    ensures Twins(a, c)
  {
    forall key ensures SameFate(RowOf(a.store, key), RowOf(c.store, key)) {
      assert SameFate(RowOf(a.store, key), RowOf(b.store, key)) && SameFate(RowOf(b.store, key), RowOf(c.store, key));
    }
  }

  // ---------------------------------------------------------------------------
  // What the committed rows know of the refs in memory
  // ---------------------------------------------------------------------------

  type Rows = map<SE.Key, SE.RunRow>

  function RefsAt(rows: Rows, key: SE.Key): seq<string> { if key in rows then rows[key].refs.artifacts else [] }

  predicate Owned(rows: Rows, key: SE.Key, job: string) { key in rows && rows[key].job == job }

  /**
   * The refs in memory are those of the rows under `keys`, all complete and of stages done; the job owns no
   * other complete row.
   */
  ghost predicate Tracks(rows: Rows, job: string, prior: seq<string>, keys: set<SE.Key>, done: seq<string>) {
    && NoDuplicates(prior)
    && (forall k | k in keys :: k in rows && rows[k].status.Completed? && rows[k].stage in done)
    && (forall k | k in rows && rows[k].job == job && rows[k].status.Completed? :: k in keys)
    && (forall r :: r in prior <==> exists k :: k in keys && r in RefsAt(rows, k))
  }

  /** Every ref of these rows is non-empty and occurs in one of them that the job owns. */
  ghost predicate Recoverable(rows: Rows, job: string, keys: set<SE.Key>) {
    forall k, r | k in keys && r in RefsAt(rows, k) ::
      r != "" && exists o :: o in keys && Owned(rows, o, job) && r in RefsAt(rows, o)
  }

  /** The seed read back holds the refs that were in memory exactly when they are recoverable from owned rows. */
  lemma SeedRecoversExactlyWhen(rows: Rows, job: string, prior: seq<string>, keys: set<SE.Key>, done: seq<string>,
                                limit: nat,
                                seed: seq<string>)
    requires Tracks(rows, job, prior, keys, done) && IsSeed(seed, rows, job, limit)
    requires forall s | s in done :: s in STAGE_ORDER && IndexOf(STAGE_ORDER, s) < limit
    ensures (forall r :: r in seed <==> r in prior) <==> Recoverable(rows, job, keys)
  {
    if forall r :: r in seed <==> r in prior {
      forall k, r | k in keys && r in RefsAt(rows, k)
        ensures r != "" && exists o :: o in keys && Owned(rows, o, job) && r in RefsAt(rows, o)
      {
        assert r in prior && r in seed;
      }
    }
  }

  /** When the job owns every row and no ref is empty, nothing can be lost. */
  lemma OwnedRowsAreRecoverable(rows: Rows, job: string, keys: set<SE.Key>)
    requires forall k | k in keys :: Owned(rows, k, job) && "" !in RefsAt(rows, k)
    ensures Recoverable(rows, job, keys)
  {}

  // ---------------------------------------------------------------------------
  // Uninterrupted stretches
  // ---------------------------------------------------------------------------

  /** What all runs of one graph share. */
  datatype Graph = Graph(maxAttempts: nat, req: GraphRequest, registry: Registry, rec: Option<JS.JobRecord>) {
    function Key(stage: string, refs: seq<string>): SE.Key { KeyFor(req, stage, refs) }

    function After(b: Bench, stages: seq<string>): Bench { Turns(maxAttempts, req, registry, rec, b, stages) }

    ghost predicate Regular() { Stable(req.enc) && PlainRequest(req) && Deterministic(req.enc, registry) }

    /** The job may go on, and each stage has work and is not cancelled. */
    ghost predicate Free(stages: seq<string>) {
      && Schedulable(rec)
      && forall s | s in stages :: s in STAGE_ORDER && s !in rec.value.cancelled && s in registry
    }
  }

  /** The turn of `stage` ends with its row complete, whoever owns it. */
  ghost predicate Completes(g: Graph, before: Bench, after: Bench, stage: string) {
    var key := g.Key(stage, before.prior);
    && !after.stopped && !after.raised
    && key in after.store.rows && after.store.rows[key].status.Completed? && after.store.rows[key].stage == stage
  }

  ghost predicate AllComplete(g: Graph, b: Bench, stages: seq<string>) {
    stages != [] ==>
      var init := stages[..|stages| - 1];
      AllComplete(g, b, init) && Completes(g, g.After(b, init), g.After(b, stages), stages[|stages| - 1])
  }

  /** The keys under which the stages ran. */
  function KeysOf(g: Graph, b: Bench, stages: seq<string>): set<SE.Key> {
    if stages == [] then {}
    else
      var init := stages[..|stages| - 1];
      KeysOf(g, b, init) + {g.Key(stages[|stages| - 1], g.After(b, init).prior)}
  }

  /** Completing a stage keeps the refs in memory in step with the rows. */
  lemma TurnKeepsTrack(g: Graph, b: Bench, stage: string, keys: set<SE.Key>, done: seq<string>)
    requires !b.stopped && !b.raised && g.Free([stage]) && Tracks(b.store.rows, g.req.job, b.prior, keys, done)
    requires Completes(g, b, Turn(g.maxAttempts, g.req, g.registry, g.rec, b, stage), stage)
    ensures var after := Turn(g.maxAttempts, g.req, g.registry, g.rec, b, stage);
            Tracks(after.store.rows, g.req.job, after.prior, keys + {g.Key(stage, b.prior)}, done + [stage])
  {
    assert stage in [stage];
    var m, work := ExecManifest(g.req, stage, b.prior), g.registry[stage](ManifestFor(g.req, stage, b.prior));
    var after := Turn(g.maxAttempts, g.req, g.registry, g.rec, b, stage);
    DrivenFate(g.maxAttempts, b.store, m, work);
    WorkedShape(g.maxAttempts, work, 1);
    var record, row := Fate(g.maxAttempts, RowOf(b.store, m.key), work), after.store.rows[m.key];
    assert after.store.rows == b.store.rows[m.key := row];
    assert record.status.Completed? && record.refs == Some(row.refs);
    assert m.key in keys ==> row == b.store.rows[m.key];
    AbsorbAll(b.prior, row.refs.artifacts);
    OneRowMoreTracks(b.store.rows, g.req.job, b.prior, keys, done, m.key, row, stage, after.prior);
  }

  lemma OneRowMoreTracks(rows: Rows, job: string, prior: seq<string>, keys: set<SE.Key>, done: seq<string>, key: SE.Key,
                         row: SE.RunRow, stage: string, now: seq<string>)
    requires Tracks(rows, job, prior, keys, done) && (key in keys ==> row == rows[key])
    requires row.status.Completed? && row.stage == stage
    requires NoDuplicates(now) && forall r :: r in now <==> r in prior || r in row.refs.artifacts
    ensures Tracks(rows[key := row], job, now, keys + {key}, done + [stage])
  {
    var next, more := rows[key := row], keys + {key};
    forall k | k in keys ensures RefsAt(next, k) == RefsAt(rows, k) {}
    forall r ensures r in now <==> exists k :: k in more && r in RefsAt(next, k) {
      if r in prior {
        var k :| k in keys && r in RefsAt(rows, k);
        assert k in more && r in RefsAt(next, k);
      }
      if r in row.refs.artifacts { assert key in more && r in RefsAt(next, key); }
      if k :| k in more && r in RefsAt(next, k) {
        assert k == key || (k in keys && r in RefsAt(rows, k));
      }
    }
  }

  /** A stretch that completes keeps the refs in memory in step with the rows. */
  lemma {:induction false} StretchKeepsTrack(g: Graph, b: Bench, stages: seq<string>, keys: set<SE.Key>,
                                             done: seq<string>)
    requires !b.stopped && !b.raised && g.Free(stages) && AllComplete(g, b, stages)
    requires Tracks(b.store.rows, g.req.job, b.prior, keys, done)
    ensures var end := g.After(b, stages);
            && !end.stopped && !end.raised
            && Tracks(end.store.rows, g.req.job, end.prior, keys + KeysOf(g, b, stages), done + stages)
  {
    if stages == [] {
      assert keys + {} == keys && done + [] == done;
    } else {
      var init, last := stages[..|stages| - 1], stages[|stages| - 1];
      Snoc(stages);
      StretchKeepsTrack(g, b, init, keys, done);
      TurnKeepsTrack(g, g.After(b, init), last, keys + KeysOf(g, b, init), done + init);
      OneMore(keys, KeysOf(g, b, init), g.Key(last, g.After(b, init).prior), done, init, last);
    }
  }

  lemma OneMore(keys: set<SE.Key>, more: set<SE.Key>, key: SE.Key, done: seq<string>, init: seq<string>, last: string)
    ensures keys + (more + {key}) == keys + more + {key} && done + (init + [last]) == done + init + [last]
  {}

  // ---------------------------------------------------------------------------
  // Crashes
  // ---------------------------------------------------------------------------

  /** A crash inside a stage, and whatever follows it before the next run, touches open rows at most. */
  ghost predicate CrashedFrom(before: SE.Store, after: SE.Store) {
    forall key :: RowOf(after, key) == RowOf(before, key) || (OpenRow(RowOf(before, key)) && OpenRow(RowOf(after, key)))
  }

  lemma CrashKeepsTrack(before: SE.Store, after: SE.Store, job: string, prior: seq<string>, keys: set<SE.Key>,
                        done: seq<string>)
    requires CrashedFrom(before, after) && Tracks(before.rows, job, prior, keys, done)
    ensures Tracks(after.rows, job, prior, keys, done)
    ensures forall key :: SameFate(RowOf(before, key), RowOf(after, key))
  {
    forall k | k in keys ensures k in after.rows && after.rows[k] == before.rows[k] {
      assert RowOf(before, k) == Some(before.rows[k]) && !OpenRow(RowOf(before, k));
    }
    forall k | k in after.rows && after.rows[k].job == job && after.rows[k].status.Completed? ensures k in keys {
      assert RowOf(after, k) == Some(after.rows[k]) && !OpenRow(RowOf(after, k));
    }
    assert forall k | k in keys :: RefsAt(after.rows, k) == RefsAt(before.rows, k);
    forall key ensures SameFate(RowOf(before, key), RowOf(after, key)) {}
  }

  /** A run that was lost after `stages`: the store its crash left, and the seed and states the next run read. */
  datatype Leg = Leg(stages: seq<string>, crashed: SE.Store, states: seq<JS.StageState>, seed: seq<string>)

  /** Where the next run starts. */
  function Resumed(b: Bench, legs: seq<Leg>): Bench {
    if legs == [] then b
    else
      var l := legs[|legs| - 1];
      Bench(l.crashed, l.states, l.seed, [], false, false)
  }

  function Ran(legs: seq<Leg>): seq<string> {
    if legs == [] then [] else Ran(legs[..|legs| - 1]) + legs[|legs| - 1].stages
  }

  /** The keys under which the stages ran so far, in whichever leg. */
  function KeysRan(g: Graph, b: Bench, legs: seq<Leg>): set<SE.Key> {
    if legs == [] then {}
    else
      var init := legs[..|legs| - 1];
      KeysRan(g, b, init) + KeysOf(g, Resumed(b, init), legs[|legs| - 1].stages)
  }

  /** Each leg completes the next stages, is lost, and is followed by a run seeded for the stage that comes next. */
  ghost predicate Interrupted(g: Graph, b: Bench, stages: seq<string>, legs: seq<Leg>) {
    legs != [] ==>
      var init, l := legs[..|legs| - 1], legs[|legs| - 1];
      && Interrupted(g, b, stages, init)
      && Ran(legs) <= stages && |Ran(legs)| < |stages|
      && AllComplete(g, Resumed(b, init), l.stages)
      && CrashedFrom(g.After(Resumed(b, init), l.stages).store, l.crashed)
      && IsSeed(l.seed, l.crashed.rows, g.req.job, LimitOf(Some(stages[|Ran(legs)|])))
  }

  /** At every crash the refs in memory were recoverable from the rows it left. */
  ghost predicate AllRecoverable(g: Graph, b: Bench, legs: seq<Leg>) {
    legs != [] ==>
      && AllRecoverable(g, b, legs[..|legs| - 1])
      && Recoverable(legs[|legs| - 1].crashed.rows, g.req.job, KeysRan(g, b, legs))
  }

  /** The stages come in strictly increasing pipeline order. */
  ghost predicate Ascending(stages: seq<string>) {
    && (forall s | s in stages :: s in STAGE_ORDER)
    && forall i, j | 0 <= i < j < |stages| :: IndexOf(STAGE_ORDER, stages[i]) < IndexOf(STAGE_ORDER, stages[j])
  }

  /** A run of a job that has completed nothing yet. */
  ghost predicate Fresh(g: Graph, b: Bench) {
    && !b.stopped && !b.raised && b.prior == []
    && forall k | k in b.store.rows && b.store.rows[k].job == g.req.job :: !b.store.rows[k].status.Completed?
  }

  /** A graph of regular work over ascending stages, on a job that has completed none of them. */
  ghost predicate Begun(g: Graph, b: Bench, stages: seq<string>) {
    g.Regular() && g.Free(stages) && Ascending(stages) && Fresh(g, b)
  }

  lemma EarlierStages(stages: seq<string>, ran: seq<string>)
    requires Ascending(stages) && ran <= stages && |ran| < |stages|
    ensures forall s | s in ran ::
              s in stages && s in STAGE_ORDER && IndexOf(STAGE_ORDER, s) < LimitOf(Some(stages[|ran|]))
  {
    forall s | s in ran ensures s in stages && IndexOf(STAGE_ORDER, s) < IndexOf(STAGE_ORDER, stages[|ran|]) {
      var k :| 0 <= k < |ran| && ran[k] == s;
      assert stages[k] == s;
    }
  }

  lemma PartOfStages(g: Graph, stages: seq<string>, ran: seq<string>, first: seq<string>, last: seq<string>)
    requires g.Free(stages) && ran <= stages && ran == first + last
    ensures g.Free(last) && first <= stages && |first| <= |ran|
  {
    forall s | s in last ensures s in stages {
      var k :| 0 <= k < |last| && last[k] == s;
      assert ran[|first| + k] == s && stages[|first| + k] == s;
    }
  }

  /** However often the run was lost, the run about to resume is a twin of the uninterrupted one. */
  lemma {:induction false} ResumedIsTwin(g: Graph, b: Bench, stages: seq<string>, legs: seq<Leg>)
    requires Begun(g, b, stages) && Interrupted(g, b, stages, legs) && AllRecoverable(g, b, legs)
    ensures Twins(g.After(b, Ran(legs)), Resumed(b, legs))
    ensures Tracks(Resumed(b, legs).store.rows, g.req.job, Resumed(b, legs).prior, KeysRan(g, b, legs), Ran(legs))
    decreases |legs|, 1
  {
    if legs != [] {
      var l, next := legs[|legs| - 1], Resumed(b, legs);
      var mid := g.After(Resumed(b, legs[..|legs| - 1]), l.stages);
      LostRun(g, b, stages, legs);
      EarlierStages(stages, Ran(legs));
      SeedRecoversExactlyWhen(l.crashed.rows, g.req.job, mid.prior, KeysRan(g, b, legs), Ran(legs),
                              LimitOf(Some(stages[|Ran(legs)|])), l.seed);
      TwinsTransitive(g.After(b, Ran(legs)), mid, next);
    }
  }

  /** The run lost last: a twin of the uninterrupted one, its refs those of the rows its crash left. */
  lemma LostRun(g: Graph, b: Bench, stages: seq<string>, legs: seq<Leg>)
    requires legs != [] && Begun(g, b, stages) && Interrupted(g, b, stages, legs) &&
             AllRecoverable(g, b, legs[..|legs| - 1])
    ensures var l, mid := legs[|legs| - 1], g.After(Resumed(b, legs[..|legs| - 1]), legs[|legs| - 1].stages);
            && !mid.stopped && !mid.raised
            && Twins(g.After(b, Ran(legs)), mid)
            && Tracks(l.crashed.rows, g.req.job, mid.prior, KeysRan(g, b, legs), Ran(legs))
            && forall key :: SameFate(RowOf(mid.store, key), RowOf(l.crashed, key))
    decreases |legs|, 0
  {
    var init, l := legs[..|legs| - 1], legs[|legs| - 1];
    var start := Resumed(b, init);
    ResumedIsTwin(g, b, stages, init);
    PartOfStages(g, stages, Ran(legs), Ran(init), l.stages);
    Lockstep(g.maxAttempts, g.req, g.registry, g.rec, g.After(b, Ran(init)), start, l.stages);
    TurnsSplit(g.maxAttempts, g.req, g.registry, g.rec, b, Ran(init), l.stages);
    StretchKeepsTrack(g, start, l.stages, KeysRan(g, b, init), Ran(init));
    CrashKeepsTrack(g.After(start, l.stages).store, l.crashed, g.req.job, g.After(start, l.stages).prior,
                    KeysRan(g, b, legs), Ran(legs));
  }

  // ---------------------------------------------------------------------------
  // Main results
  // ---------------------------------------------------------------------------

  /**
   * After any number of crashes the next stage keeps the key of the uninterrupted run exactly when every ref of
   * the rows completed so far is non-empty and occurs in one of them that this job owns.
   */
  lemma ResumeKeepsKeyExactlyWhen(g: Graph, b: Bench, stages: seq<string>, legs: seq<Leg>)
    requires legs != [] && Begun(g, b, stages) && Interrupted(g, b, stages, legs) &&
             AllRecoverable(g, b, legs[..|legs| - 1])
    ensures var next, l := stages[|Ran(legs)|], legs[|legs| - 1];
            g.Key(next, l.seed) == g.Key(next, g.After(b, Ran(legs)).prior) <==>
            Recoverable(l.crashed.rows, g.req.job, KeysRan(g, b, legs))
  {
    var next, l := stages[|Ran(legs)|], legs[|legs| - 1];
    var mid := g.After(Resumed(b, legs[..|legs| - 1]), l.stages);
    LostRun(g, b, stages, legs);
    EarlierStages(stages, Ran(legs));
    SeedRecoversExactlyWhen(l.crashed.rows, g.req.job, mid.prior, KeysRan(g, b, legs), Ran(legs), LimitOf(Some(next)),
                            l.seed);
    KeyDependsOnRefSet(g.req, next, l.seed, g.After(b, Ran(legs)).prior);
  }

  /** The `j`-th stage after the first `at` gets one key, whether `resumed` runs on from there or `b` runs through. */
  ghost predicate SameKeyLater(g: Graph, b: Bench, stages: seq<string>, at: nat, resumed: Bench, j: nat)
    requires at + j < |stages|
  {
    var stage := stages[at + j];
    g.Key(stage, g.After(resumed, stages[at..][..j]).prior) == g.Key(stage, g.After(b, stages[..at + j]).prior)
  }

  /**
   * After any number of crashes whose refs were recoverable, every remaining stage gets the key of the
   * uninterrupted run.
   */
  lemma ResumeReproducesKeys(g: Graph, b: Bench, stages: seq<string>, legs: seq<Leg>, j: nat)
    requires Begun(g, b, stages) && Interrupted(g, b, stages, legs) && AllRecoverable(g, b, legs)
    requires |Ran(legs)| + j < |stages|
    ensures SameKeyLater(g, b, stages, |Ran(legs)|, Resumed(b, legs), j)
  {
    var ran := Ran(legs);
    ResumedIsTwin(g, b, stages, legs);
    TwinsShareKeys(g, b, stages, ran, Resumed(b, legs), j);
  }

  lemma TwinsShareKeys(g: Graph, b: Bench, stages: seq<string>, ran: seq<string>, resumed: Bench, j: nat)
    requires g.Regular() && (forall s | s in stages :: s in STAGE_ORDER)
    requires ran <= stages && |ran| + j < |stages| && Twins(g.After(b, ran), resumed)
    ensures SameKeyLater(g, b, stages, |ran|, resumed, j)
  {
    var rest := stages[|ran|..][..j];
    RestOfStages(stages, ran, j);
    LockstepKeys(g.maxAttempts, g.req, g.registry, g.rec, g.After(b, ran), resumed, rest, stages[|ran| + j]);
    TurnsSplit(g.maxAttempts, g.req, g.registry, g.rec, b, ran, rest);
  }

  lemma RestOfStages(stages: seq<string>, ran: seq<string>, j: nat)
    requires ran <= stages && |ran| + j < |stages|
    ensures ran + stages[|ran|..][..j] == stages[..|ran| + j]
    ensures stages[|ran| + j] in stages && forall s | s in stages[|ran|..][..j] :: s in stages
  {}

  /** One complete row of another job. */
  function ForeignIngest(g: Graph, other: string, ref: string): Bench {
    Bench(SE.Store(map[g.Key("INGEST", []) := SE.RunRow(other, "INGEST", SE.Completed, SE.Refs([ref], []))], [], []),
          [], [], [], false, false)
  }

  /**
   * A run whose first stage replays another job's row, lost after that stage: the second stage resumes under
   * another key.
   */
  lemma CrossJobReplayChangesKey(g: Graph, other: string, ref: string, seed: seq<string>)
    requires Stable(g.req.enc) && PlainRequest(g.req) && g.Free(["INGEST"]) && other != g.req.job
    requires IsSeed(seed, g.After(ForeignIngest(g, other, ref), ["INGEST"]).store.rows, g.req.job,
                    LimitOf(Some("FORMAT_ANALYSIS")))
    ensures var mid := g.After(ForeignIngest(g, other, ref), ["INGEST"]);
            && Completes(g, ForeignIngest(g, other, ref), mid, "INGEST")
            && mid.prior == [ref] && mid.store.rows == ForeignIngest(g, other, ref).store.rows && seed == []
            && g.Key("FORMAT_ANALYSIS", seed) != g.Key("FORMAT_ANALYSIS", mid.prior)
  {
    ForeignIngestIsReplayed(g, other, ref);
    HasItsHead(seed);
    assert STAGE_ORDER[1] == "FORMAT_ANALYSIS";
    KeyDependsOnRefSet(g.req, "FORMAT_ANALYSIS", seed, [ref]);
    assert ref in [ref];
  }

  lemma ForeignIngestIsReplayed(g: Graph, other: string, ref: string)
    requires g.Free(["INGEST"]) && other != g.req.job
    ensures var b, mid := ForeignIngest(g, other, ref), g.After(ForeignIngest(g, other, ref), ["INGEST"]);
            Completes(g, b, mid, "INGEST") && mid.prior == [ref] && mid.store.rows == b.store.rows
  {
    var b := ForeignIngest(g, other, ref);
    TurnsSnoc(g.maxAttempts, g.req, g.registry, g.rec, b, [], "INGEST");
    assert [] + ["INGEST"] == ["INGEST"] && "INGEST" in ["INGEST"];
    assert [ref][1..] == [] && [] + [ref] == [ref] && Absorb([], [ref]) == [ref];
    CompleteRowIsReplayed(g, b, "INGEST", [ref]);
  }

  /** A stage whose row is complete changes no row and passes on the refs of the row. */
  lemma CompleteRowIsReplayed(g: Graph, b: Bench, stage: string, refs: seq<string>)
    requires g.Free([stage]) && !b.stopped && !b.raised
    requires var row := RowOf(b.store, g.Key(stage, b.prior));
             row.Some? && row.value.status.Completed? && row.value.refs.artifacts == refs
    ensures var end := Turn(g.maxAttempts, g.req, g.registry, g.rec, b, stage);
            && !end.stopped && !end.raised && end.store.rows == b.store.rows
            && end.prior == Absorb(b.prior, refs)
  {
    var m, work := ExecManifest(g.req, stage, b.prior), g.registry[stage](ManifestFor(g.req, stage, b.prior));
    assert stage in [stage];
    DrivenFate(g.maxAttempts, b.store, m, work);
    ExecutedParts(g.maxAttempts, g.req, work, b, stage, SE.Driven(g.maxAttempts, b.store, m, SE.AtClaim, work));
  }

  lemma TurnsSnoc(maxAttempts: nat, req: GraphRequest, registry: Registry, rec: Option<JS.JobRecord>,
                  b: Bench, stages: seq<string>, stage: string)
    ensures Turns(maxAttempts, req, registry, rec, b, stages + [stage]) ==
            Turn(maxAttempts, req, registry, rec, Turns(maxAttempts, req, registry, rec, b, stages), stage)
  {
    assert (stages + [stage])[..|stages|] == stages;
  }
}
