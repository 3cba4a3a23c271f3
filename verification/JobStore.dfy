/** Job records and the in-memory job store. */
module JobStore {
  import opened Wrappers

  datatype JobStatus = Pending | Running | Complete | Failed | Cancelled | Paused

  /** The latest observed status of one stage of a job. */
  datatype StageState = StageState(stage: string, status: string, key: Option<string>, attempts: nat)

  datatype JobRecord = JobRecord(
    id: string, sourceId: Option<string>, universe: string, status: JobStatus,
    expected: Option<set<string>>, causation: Option<string>, cancelled: set<string>, error: Option<string>)

  datatype StoreError = UnknownJob(id: string) | ConflictingJob(id: string)

  /** The states of every other stage, in order. */
  function Without(states: seq<StageState>, stage: string): (r: seq<StageState>)
    ensures forall s :: s in r <==> s in states && s.stage != stage
  {
    if states == [] then []
    else
      var last := states[|states| - 1];
      assert states == states[..|states| - 1] + [last];
      if last.stage == stage then Without(states[..|states| - 1], stage)
      else Without(states[..|states| - 1], stage) + [last]
  }

  function Recorded(states: seq<StageState>, s: StageState): seq<StageState> { Without(states, s.stage) + [s] }

  ghost predicate OnePerStage(states: seq<StageState>) {
    forall i, j | 0 <= i < j < |states| :: states[i].stage != states[j].stage
  }

  lemma {:induction false} WithoutKeepsOnePerStage(states: seq<StageState>, stage: string)
    requires OnePerStage(states)
    ensures OnePerStage(Without(states, stage))
  {
    if states != [] { WithoutKeepsOnePerStage(states[..|states| - 1], stage); }
  }

  /** Recording keeps one state a stage: the new one for its stage, the old ones for the rest. */
  lemma RecordedIsLatest(states: seq<StageState>, s: StageState)
    requires OnePerStage(states)
    ensures OnePerStage(Recorded(states, s))
    ensures forall x :: x in Recorded(states, s) <==> x == s || (x in states && x.stage != s.stage)
  {
    WithoutKeepsOnePerStage(states, s.stage);
  }

  class InMemoryJobStore {
    var jobs: map<string, JobRecord>
    var stages: map<string, seq<StageState>>

    constructor ()
      ensures jobs == map[] && stages == map[]
    {
      jobs, stages := map[], map[];
    }

    function StatesOf(id: string): seq<StageState>
      reads this
    {
      if id in stages then stages[id] else []
    }

    /** Creating a job twice with the same identity answers the job that is there. */
    method Create(id: string, sourceId: Option<string>, universe: string) returns (r: Result<JobRecord, StoreError>)
      modifies this
      ensures id !in old(jobs) ==>
                && r == Success(JobRecord(id, sourceId, universe, Pending, None, None, {}, None))
                && jobs == old(jobs)[id := r.value] && stages == old(stages)[id := []]
      ensures id in old(jobs) ==>
                && jobs == old(jobs) && stages == old(stages)
                && r == if old(jobs)[id].sourceId == sourceId && old(jobs)[id].universe == universe
                        then Success(old(jobs)[id]) else Failure(ConflictingJob(id))
    {
      if id in jobs {
        if jobs[id].sourceId == sourceId && jobs[id].universe == universe {
          return Success(jobs[id]);
        }
        return Failure(ConflictingJob(id));
      }
      var job := JobRecord(id, sourceId, universe, Pending, None, None, {}, None);
      jobs := jobs[id := job];
      stages := stages[id := []];
      r := Success(job);
    }

    /** An absent error leaves the recorded one in place. */
    method UpdateStatus(id: string, status: JobStatus, error: Option<string>) returns (r: Result<JobRecord, StoreError>)
      modifies this`jobs
      ensures id !in old(jobs) ==> r == Failure(UnknownJob(id)) && jobs == old(jobs)
      ensures id in old(jobs) ==>
                && r == Success(old(jobs)[id].(status := status, error := if error.Some? then error
                                               else old(jobs)[id].error))
                && jobs == old(jobs)[id := r.value]
    {
      if id !in jobs {
        return Failure(UnknownJob(id));
      }
      var job := jobs[id].(status := status);
      if error.Some? { job := job.(error := error); }
      jobs := jobs[id := job];
      r := Success(job);
    }

    method SetCancelledStages(id: string, cancelled: set<string>) returns (r: Result<JobRecord, StoreError>)
      modifies this`jobs
      ensures id !in old(jobs) ==> r == Failure(UnknownJob(id)) && jobs == old(jobs)
      ensures id in old(jobs) ==>
                r == Success(old(jobs)[id].(cancelled := cancelled)) && jobs == old(jobs)[id := r.value]
    {
      if id !in jobs {
        return Failure(UnknownJob(id));
      }
      jobs := jobs[id := jobs[id].(cancelled := cancelled)];
      r := Success(jobs[id]);
    }

    method SetExecution(id: string, expected: set<string>, causation: Option<string>)
      returns (r: Result<JobRecord, StoreError>)
      modifies this`jobs
      ensures id !in old(jobs) ==> r == Failure(UnknownJob(id)) && jobs == old(jobs)
      ensures id in old(jobs) ==>
                && r == Success(old(jobs)[id].(expected := Some(expected), causation := causation))
                && jobs == old(jobs)[id := r.value]
    {
      if id !in jobs {
        return Failure(UnknownJob(id));
      }
      jobs := jobs[id := jobs[id].(expected := Some(expected), causation := causation)];
      r := Success(jobs[id]);
    }

    /** Drops the stage's earlier state and appends the new one. */
    method RecordStage(id: string, state: StageState)
      modifies this`stages
      ensures stages == old(stages)[id := Recorded(old(StatesOf(id)), state)]
    {
      var states := StatesOf(id);
      var kept: seq<StageState> := [];
      for i := 0 to |states|
        invariant kept == Without(states[..i], state.stage)
      {
        assert states[..i + 1][..i] == states[..i];
        if states[i].stage != state.stage { kept := kept + [states[i]]; }
      }
      assert states[..|states|] == states;
      stages := stages[id := kept + [state]];
    }
  }
}
