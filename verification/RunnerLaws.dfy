/** What a graph run records of its stages, what decides their keys, and why a rerun works again. */
module RunnerLaws {
  import opened Wrappers
  import opened Sequences
  import opened Lineage
  import opened Manifests
  import opened Runner
  import opened Fates
  import SE = StageExecution
  import JS = JobStore

  // ---------------------------------------------------------------------------
  // Recorded states and committed rows
  // ---------------------------------------------------------------------------

  /** The recorded text is that of the row under the recorded key, which is never left claimed. */
  ghost predicate TellsRow(s: JS.StageState, store: SE.Store) {
    && s.key != None && s.key.value in store.rows
    && var status := store.rows[s.key.value].status;
       && status != SE.Claimed
       && (s.status == "complete" <==> status == SE.Completed)
       && (s.status == "failed" <==> status == SE.Failed)
       && (s.status == "quarantined" <==> status == SE.Quarantined)
       && (s.status == "cancelled" <==> status == SE.Cancelled)
  }

  /**
   * A stage that is executed either raises, with its row quarantined and nothing recorded, or records one state
   * that tells its row, and an event that says whether the row was final before.
   */
  lemma ExecutedTellsRow(maxAttempts: nat, req: GraphRequest, work: SE.Work, b: Bench, stage: string)
    requires !b.raised
    ensures var key, end := KeyFor(req, stage, b.prior), Executed(maxAttempts, req, work, b, stage);
            if end.raised then
              && end.states == b.states && end.events == b.events
              && key in end.store.rows && end.store.rows[key].status == SE.Quarantined
            else
              exists s ::
                && end.states == JS.Recorded(b.states, s) && s.stage == stage && s.key == Some(key)
                && TellsRow(s, end.store)
                && end.events == b.events + [StageRunEvent(stage, s.status, !OpenRow(RowOf(b.store, key)))]
  {
    var m := ExecManifest(req, stage, b.prior);
    DrivenFate(maxAttempts, b.store, m, work);
    WorkedShape(maxAttempts, work, 1);
    var record, end := Fate(maxAttempts, RowOf(b.store, m.key), work), Executed(maxAttempts, req, work, b, stage);
    if !end.raised {
      var s := JS.StageState(stage, StatusText(record.status), Some(m.key), record.attempts);
      TextsDiffer(record.status);
      assert end.states == JS.Recorded(b.states, s) && TellsRow(s, end.store);
    }
  }

  lemma TextsDiffer(status: SE.Status)
    ensures StatusText(status) == "complete" <==> status == SE.Completed
    ensures StatusText(status) == "failed" <==> status == SE.Failed
    ensures StatusText(status) == "quarantined" <==> status == SE.Quarantined
    ensures StatusText(status) == "cancelled" <==> status == SE.Cancelled
  {
    assert |"complete"| == 8 && |"failed"| == 6 && |"quarantined"| == 11 && |"cancelled"| == 9 && |"claimed"| == 7;
  }

  /** The key is one of the stage's. */
  ghost predicate StageKey(key: SE.Key, stage: string) { exists req, refs :: key == KeyFor(req, stage, refs) }

  /** Whatever is recorded complete names a complete row of its stage. */
  ghost predicate Backed(states: seq<JS.StageState>, store: SE.Store) {
    forall s | s in states && s.status == "complete" ::
      && s.key != None && s.key.value in store.rows && store.rows[s.key.value].status == SE.Completed
      && StageKey(s.key.value, s.stage)
  }

  lemma RecordedIsBacked(states: seq<JS.StageState>, store: SE.Store, s: JS.StageState)
    requires Backed(states, store)
    requires s.status == "complete" ==>
               && s.key != None && s.key.value in store.rows && store.rows[s.key.value].status == SE.Completed
               && StageKey(s.key.value, s.stage)
    ensures Backed(JS.Recorded(states, s), store)
  {
    forall x | x in JS.Recorded(states, s) ensures x == s || x in states {}
  }

  lemma StaysBacked(states: seq<JS.StageState>, before: SE.Store, after: SE.Store)
    requires Backed(states, before)
    requires forall key | !OpenRow(RowOf(before, key)) :: RowOf(after, key) == RowOf(before, key)
    ensures Backed(states, after)
  {
    forall s | s in states && s.status == "complete" ensures RowOf(after, s.key.value) == RowOf(before, s.key.value) {
      assert !OpenRow(RowOf(before, s.key.value));
    }
  }

  lemma ExecutedKeepsBacked(maxAttempts: nat, req: GraphRequest, work: SE.Work, b: Bench, stage: string)
    requires !b.raised && Backed(b.states, b.store)
    ensures var end := Executed(maxAttempts, req, work, b, stage); Backed(end.states, end.store)
  {
    var end := Executed(maxAttempts, req, work, b, stage);
    ExecutedTellsRow(maxAttempts, req, work, b, stage);
    OnlyOpenRowsMove(maxAttempts, b.store, ExecManifest(req, stage, b.prior), work);
    StaysBacked(b.states, b.store, end.store);
    if !end.raised {
      var s :| end.states == JS.Recorded(b.states, s) && s.stage == stage && s.key == Some(KeyFor(req, stage, b.prior))
        && TellsRow(s, end.store);
      RecordedIsBacked(b.states, end.store, s);
    }
  }

  /** A graph run keeps every complete state backed by a complete row. */
  lemma {:induction false} TurnsKeepBacked(maxAttempts: nat, req: GraphRequest, registry: Registry,
                                           rec: Option<JS.JobRecord>, b: Bench, stages: seq<string>)
    requires Backed(b.states, b.store)
    ensures var end := Turns(maxAttempts, req, registry, rec, b, stages); Backed(end.states, end.store)
  {
    if stages != [] {
      var init, stage := stages[..|stages| - 1], stages[|stages| - 1];
      TurnsKeepBacked(maxAttempts, req, registry, rec, b, init);
      var now := Turns(maxAttempts, req, registry, rec, b, init);
      RecordedIsBacked(now.states, now.store, JS.StageState(stage, "cancelled", None, 0));
      RecordedIsBacked(now.states, now.store, JS.StageState(stage, "pending", None, 0));
      if !now.raised && !now.stopped && Schedulable(rec) && stage !in rec.value.cancelled && stage in STAGE_ORDER
         && stage in registry {
        ExecutedKeepsBacked(maxAttempts, req, registry[stage](ManifestFor(req, stage, now.prior)), now, stage);
      }
    }
  }

  // ---------------------------------------------------------------------------
  // Where a seed comes from
  // ---------------------------------------------------------------------------

  /** A stage of the order, before `upTo` if that is one too. */
  ghost predicate Upstream(order: seq<string>, stage: string, upTo: Option<string>) {
    exists i: nat | i < |order| ::
      && order[i] == stage
      && (upTo == None || upTo.value !in order || exists j: nat | i < j < |order| :: order[j] == upTo.value)
  }

  lemma LimitIsUpstream(order: seq<string>, stage: string, upTo: Option<string>)
    requires NoDuplicates(order)
    ensures stage in order && IndexOf(order, stage) < (if upTo.Some? then IndexOf(order, upTo.value) else |order|) <==>
            Upstream(order, stage, upTo)
  {
    forall i: nat | i < |order| ensures IndexOf(order, order[i]) == i { IndexOfDistinct(order, i); }
  }

  /** A seed holds the non-empty refs of the job's complete rows of stages upstream. */
  lemma SeedIsUpstream(seed: seq<string>, rows: map<SE.Key, SE.RunRow>, job: string, upTo: Option<string>)
    requires IsSeed(seed, rows, job, LimitOf(upTo))
    ensures NoDuplicates(seed)
    ensures forall r :: r in seed <==>
              r != "" && exists k | k in rows ::
                && rows[k].job == job && rows[k].status == SE.Completed && Upstream(STAGE_ORDER, rows[k].stage, upTo)
                && r in rows[k].refs.artifacts
  {
    OrderIsDistinct();
    SeedOfOrder(STAGE_ORDER, seed, rows, job, upTo);
  }

  lemma SeedOfOrder(order: seq<string>, seed: seq<string>, rows: map<SE.Key, SE.RunRow>, job: string,
                    upTo: Option<string>)
    requires order == STAGE_ORDER && NoDuplicates(order) && IsSeed(seed, rows, job, LimitOf(upTo))
    ensures forall r :: r in seed <==>
              r != "" && exists k | k in rows ::
                && rows[k].job == job && rows[k].status == SE.Completed && Upstream(order, rows[k].stage, upTo)
                && r in rows[k].refs.artifacts
  {
    forall k | k in rows
      ensures Contributes(rows[k], job, LimitOf(upTo)) <==>
                rows[k].job == job && rows[k].status == SE.Completed && Upstream(order, rows[k].stage, upTo)
    {
      LimitIsUpstream(order, rows[k].stage, upTo);
    }
  }

  // ---------------------------------------------------------------------------
  // What decides a key
  // ---------------------------------------------------------------------------

  /** Every free-text field of the graph's manifests is plain. */
  predicate PlainRequest(req: GraphRequest) {
    SEP !in req.universe && SEP !in OrEmpty(req.sourceId)
  }

  lemma StagesArePlain(stage: string)
    requires stage in STAGE_ORDER
    ensures SEP !in stage
  {}

  function UniverseOf(req: GraphRequest): string { if req.universe == "" then "v1-dag:base" else req.universe }

  /** The manifest of a stage is the constructor's, given job, stage, source, universe, refs and input. */
  lemma ManifestIsConstructed(req: GraphRequest, stage: string, refs: seq<string>)
    requires stage in STAGE_ORDER
    ensures var m := ManifestFor(req, stage, refs);
            && Constructed(ManifestDict(req.job, stage, req.sourceId, None, Some(req.universe), Some(refs),
                                        Some(m.inputManifest), None, None, None)) == Success(m)
            && m.stageName == stage && m.jobId == req.job && m.evidenceRefs == refs && m.dagUniverse == UniverseOf(req)
            && m.schemaVersion == 1 && m.toolVersions == map[]
            && ExecManifest(req, stage, refs) == SE.Manifest(KeyFor(req, stage, refs), req.job, stage)
  {}

  /** Two stage runs share their key exactly when they share stage, universe, source, causation and refs. */
  lemma KeyDecides(a: GraphRequest, b: GraphRequest, stage: string, other: string, refs: seq<string>, more: seq<string>)
    requires Stable(a.enc) && b.enc == a.enc && PlainRequest(a) && PlainRequest(b)
    requires stage in STAGE_ORDER && other in STAGE_ORDER
    ensures KeyFor(a, stage, refs) == KeyFor(b, other, more) <==>
              && stage == other && UniverseOf(a) == UniverseOf(b) && SameText(a.sourceId, b.sourceId)
              && a.causation == b.causation && multiset(refs) == multiset(more)
  {
    StagesArePlain(stage);
    StagesArePlain(other);
    assert SEP !in BASE_UNIVERSE;
    MaterialDecidesInputs(a.enc, ManifestFor(a, stage, refs), ManifestFor(b, other, more));
    InputDecides(a, b, stage, refs, other, more);
  }

  lemma InputDecides(a: GraphRequest, b: GraphRequest, stage: string, refs: seq<string>, other: string,
                     more: seq<string>)
    ensures ManifestFor(a, stage, refs).inputManifest == ManifestFor(b, other, more).inputManifest <==>
            SameText(a.sourceId, b.sourceId) && a.causation == b.causation
  {
    var x, y := ManifestFor(a, stage, refs).inputManifest, ManifestFor(b, other, more).inputManifest;
    assert |"source_id"| != |"rerun_causation"|;
    assert x["source_id"] == OrEmpty(a.sourceId) && y["source_id"] == OrEmpty(b.sourceId);
    assert "rerun_causation" in x <==> a.causation != None;
    assert "rerun_causation" in y <==> b.causation != None;
    if x == y && a.causation != None { assert x["rerun_causation"] == y["rerun_causation"]; }
  }

  // ---------------------------------------------------------------------------
  // A rerun works again
  // ---------------------------------------------------------------------------

  /** The key belongs to some run that this request, or its causation, had no part in. */
  ghost predicate Elsewhere(req: GraphRequest, key: SE.Key) {
    exists r: GraphRequest, s, refs :: ByOther(req, key, r, s, refs)
  }

  ghost predicate ByOther(req: GraphRequest, key: SE.Key, r: GraphRequest, s: string, refs: seq<string>) {
    r.enc == req.enc && PlainRequest(r) && s in STAGE_ORDER && r.causation != req.causation && key == KeyFor(r, s, refs)
  }

  /** Every row comes from another causation or from one of the stages done. */
  ghost predicate NewGround(req: GraphRequest, store: SE.Store, done: seq<string>) {
    forall key | key in store.rows ::
      Elsewhere(req, key) || exists s, refs :: s in done && s in STAGE_ORDER && key == KeyFor(req, s, refs)
  }

  lemma NewGroundHasNoRow(req: GraphRequest, store: SE.Store, done: seq<string>, stage: string, refs: seq<string>)
    requires Stable(req.enc) && PlainRequest(req) && NewGround(req, store, done)
    requires stage in STAGE_ORDER && stage !in done
    ensures KeyFor(req, stage, refs) !in store.rows
  {
    var key := KeyFor(req, stage, refs);
    if key in store.rows {
      if Elsewhere(req, key) {
        var r: GraphRequest, s, more :| ByOther(req, key, r, s, more);
        KeyDecides(req, r, stage, s, refs, more);
      } else {
        var s, more :| s in done && s in STAGE_ORDER && key == KeyFor(req, s, more);
        KeyDecides(req, req, stage, s, refs, more);
      }
    }
  }

  /** What the runner may go on with: the job may, and each stage has work and is not cancelled. */
  ghost predicate Open(registry: Registry, rec: Option<JS.JobRecord>, stages: seq<string>) {
    && Schedulable(rec)
    && forall s | s in stages :: s in STAGE_ORDER && s !in rec.value.cancelled && s in registry
  }

  lemma {:induction false} RerunStaysNew(maxAttempts: nat, req: GraphRequest, registry: Registry,
                                         rec: Option<JS.JobRecord>, b: Bench, stages: seq<string>, done: seq<string>)
    requires Stable(req.enc) && PlainRequest(req) && Open(registry, rec, stages) && !b.stopped && !b.raised
    requires NoDuplicates(stages) && NewGround(req, b.store, done) && forall s | s in stages :: s !in done
    ensures var end := Turns(maxAttempts, req, registry, rec, b, stages);
            !end.stopped && NewGround(req, end.store, done + stages) && OnlyFresh(b.events, end.events)
  {
    if stages == [] {
      assert done + stages == done;
    } else {
      var init, stage := stages[..|stages| - 1], stages[|stages| - 1];
      Snoc(stages);
      RerunStaysNew(maxAttempts, req, registry, rec, b, init, done);
      var now := Turns(maxAttempts, req, registry, rec, b, init);
      NewGroundHasNoRow(req, now.store, done + init, stage, now.prior);
      RerunTurn(maxAttempts, req, registry, rec, now, stage, done + init);
      assert done + stages == done + init + [stage];
    }
  }

  /**
   * A run under a causation that no row was keyed with finds no row for any of its stages: each one it reaches
   * works, and none is replayed.
   */
  lemma RerunWorksAgain(maxAttempts: nat, req: GraphRequest, registry: Registry, rec: Option<JS.JobRecord>, b: Bench,
                        stages: seq<string>, i: nat)
    requires Stable(req.enc) && PlainRequest(req) && Open(registry, rec, stages) && !b.stopped && !b.raised
    requires NoDuplicates(stages) && i < |stages|
    requires forall key | key in b.store.rows :: Elsewhere(req, key)
    ensures OnlyFresh(b.events, Turns(maxAttempts, req, registry, rec, b, stages).events)
    ensures var now := Turns(maxAttempts, req, registry, rec, b, stages[..i]);
            && !now.stopped && KeyFor(req, stages[i], now.prior) !in now.store.rows
            && (now.raised || WorkDecides(maxAttempts, req, registry, now, stages[i],
                                          Turn(maxAttempts, req, registry, rec, now, stages[i])))
  {
    RerunStaysNew(maxAttempts, req, registry, rec, b, stages, []);
    RerunStaysNew(maxAttempts, req, registry, rec, b, stages[..i], []);
    var now := Turns(maxAttempts, req, registry, rec, b, stages[..i]);
    assert [] + stages[..i] == stages[..i];
    NewGroundHasNoRow(req, now.store, stages[..i], stages[i], now.prior);
    if !now.raised { NewKeyWorks(maxAttempts, req, registry, rec, now, stages[i]); }
  }

  lemma NewKeyWorks(maxAttempts: nat, req: GraphRequest, registry: Registry, rec: Option<JS.JobRecord>, now: Bench,
                    stage: string)
    requires Open(registry, rec, [stage]) && !now.stopped && !now.raised
    requires KeyFor(req, stage, now.prior) !in now.store.rows
    ensures stage in registry
    ensures WorkDecides(maxAttempts, req, registry, now, stage, Turn(maxAttempts, req, registry, rec, now, stage))
  {
    assert stage in [stage];
    DrivenFate(maxAttempts, now.store, ExecManifest(req, stage, now.prior),
               registry[stage](ManifestFor(req, stage, now.prior)));
  }

  /** The turn leaves the row its work comes to. */
  predicate WorkDecides(maxAttempts: nat, req: GraphRequest, registry: Registry, now: Bench, stage: string, end: Bench)
    requires stage in registry
  {
    var key := KeyFor(req, stage, now.prior);
    var r := Worked(maxAttempts, registry[stage](ManifestFor(req, stage, now.prior)), 1);
    key in end.store.rows && end.store.rows[key].status == r.status && end.store.rows[key].job == req.job
  }

  /** No event after the first ones tells of a replay. */
  predicate OnlyFresh(before: seq<StageRunEvent>, after: seq<StageRunEvent>) {
    |before| <= |after| && forall i | |before| <= i < |after| :: !after[i].replayed
  }

  lemma MoreGround(req: GraphRequest, store: SE.Store, done: seq<string>, stage: string)
    requires NewGround(req, store, done)
    ensures NewGround(req, store, done + [stage])
  {}

  lemma RerunTurn(maxAttempts: nat, req: GraphRequest, registry: Registry, rec: Option<JS.JobRecord>, b: Bench,
                  stage: string, done: seq<string>)
    requires Open(registry, rec, [stage]) && !b.stopped && NewGround(req, b.store, done)
    requires KeyFor(req, stage, b.prior) !in b.store.rows
    ensures var end := Turn(maxAttempts, req, registry, rec, b, stage);
            && !end.stopped && NewGround(req, end.store, done + [stage])
            && forall before | OnlyFresh(before, b.events) :: OnlyFresh(before, end.events)
  {
    assert stage in [stage];
    if b.raised {
      MoreGround(req, b.store, done, stage);
    } else {
      NewStageExecuted(maxAttempts, req, registry[stage](ManifestFor(req, stage, b.prior)), b, stage, done);
    }
  }

  lemma NewStageExecuted(maxAttempts: nat, req: GraphRequest, work: SE.Work, b: Bench, stage: string, done: seq<string>)
    requires !b.raised && stage in STAGE_ORDER && NewGround(req, b.store, done)
    requires KeyFor(req, stage, b.prior) !in b.store.rows
    ensures var end := Executed(maxAttempts, req, work, b, stage);
            && end.stopped == b.stopped && NewGround(req, end.store, done + [stage])
            && (end.events == b.events || exists ev :: end.events == b.events + [ev] && !ev.replayed)
  {
    var end, key := Executed(maxAttempts, req, work, b, stage), KeyFor(req, stage, b.prior);
    ExecutedTellsRow(maxAttempts, req, work, b, stage);
    DrivenFate(maxAttempts, b.store, ExecManifest(req, stage, b.prior), work);
    OneRowMoreIsNew(req, b.store, end.store, done, stage, b.prior);
  }

  lemma OneRowMoreIsNew(req: GraphRequest, before: SE.Store, after: SE.Store, done: seq<string>, stage: string,
                        refs: seq<string>)
    requires NewGround(req, before, done) && stage in STAGE_ORDER
    requires forall key | key in after.rows :: key == KeyFor(req, stage, refs) || key in before.rows
    ensures NewGround(req, after, done + [stage])
  {
    assert stage in done + [stage];
    MoreGround(req, before, done, stage);
  }
}
