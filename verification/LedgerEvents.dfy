/** Semantic events as replay sees them, and the entity locks folded from them. */
module LedgerEvents {
  import opened Wrappers

  /** A JSON list of refs, which may hold nulls. */
  type Refs = seq<Option<string>>

  /** `narrative_time`: absent, a bare scalar, or a mapping with its two ends. */
  datatype NarrativeTime = Unset | Scalar(value: string) | Span(from: string, to: string)

  datatype EventType =
    | SemanticAsserted | OverrideApplied | CorrectionApplied | Invalidated | ContradictionRecorded
    | Locked | Unlocked
    | OtherEvent(name: string)

  datatype Payload = Payload(
    subjectRef: Option<string>, entityRef: Option<string>, sourceId: Option<string>,
    subjectEntityId: Option<string>, entityId: Option<string>, objectEntityId: Option<string>,
    continuityId: Option<string>,
    predicateCode: Option<string>, pred: Option<string>, objectRef: Option<string>,
    priorRef: Option<string>, relationshipType: Option<string>, scope: Option<string>,
    state: Option<string>, authority: Option<string>, confidence: Option<real>,
    supportRefs: seq<string>, contradictionRefs: Refs, refs: Refs, contradictingRef: Option<string>,
    generatedBy: Option<string>, derivedFrom: seq<string>,
    narrativeTime: NarrativeTime, spatial: Option<string>)

  datatype Event = Event(eventType: EventType, seqNo: nat, payload: Payload,
                         authority: Option<string>, confidence: Option<real>, generatedBy: Option<string>)

  /** Every event type folds into canonical state, except the operational audit. */
  predicate IsSemantic(ev: Event) { ev.eventType != OtherEvent("JobRunAudit") }

  /** Sequence numbers are positive and strictly increasing. */
  ghost predicate Increasing(log: seq<Event>) {
    && (forall i | 0 <= i < |log| :: log[i].seqNo > 0)
    && (forall i, j | 0 <= i < j < |log| :: log[i].seqNo < log[j].seqNo)
  }

  /** The highest sequence number, 0 for an empty ledger. */
  function Tail(log: seq<Event>): nat { if log == [] then 0 else log[|log| - 1].seqNo }

  /** Python truthiness of an optional string. */
  predicate Truthy(s: Option<string>) { s.Some? && s.value != "" }

  /** `s or default`. */
  function OrElse(s: Option<string>, default: string): string { if Truthy(s) then s.value else default }

  /** `s or t`. */
  function Or(s: Option<string>, t: Option<string>): Option<string> { if Truthy(s) then s else t }

  // ---------------------------------------------------------------------------
  // Locks
  // ---------------------------------------------------------------------------

  type Locks = map<string, bool>

  /** The entity an event addresses: the first of its reference fields that is set. */
  function EntityRefOf(ev: Event): Option<string> {
    var p := ev.payload;
    Or(p.subjectRef, Or(p.entityRef, Or(p.sourceId, Or(p.subjectEntityId,
      if Truthy(p.entityId) then p.entityId else None))))
  }

  /** The lock half of the canonical reducer: `Locked` pins an entity, `Unlocked` releases it. */
  function ReduceLocks(locks: Locks, ev: Event): Locks {
    if !ev.eventType.Locked? && !ev.eventType.Unlocked? then locks
    else
      match EntityRefOf(ev)
      case None => locks
      case Some(ref) => locks[ref := ev.eventType.Locked?]
  }

  predicate IsLocked(locks: Locks, ref: string) { ref in locks && locks[ref] }

  function LocksAfter(log: seq<Event>): Locks {
    if log == [] then map[] else ReduceLocks(LocksAfter(log[..|log| - 1]), log[|log| - 1])
  }

  /** The first of the candidates that is set and not empty. */
  function FirstSet(candidates: seq<Option<string>>): Option<string> {
    if candidates == [] then None
    else if candidates[0] != None && candidates[0] != Some("") then candidates[0]
    else FirstSet(candidates[1..])
  }

  /** The event locks or unlocks the entity. */
  predicate Rules(ev: Event, ref: string) {
    var p := ev.payload;
    && (ev.eventType == Locked || ev.eventType == Unlocked)
    && FirstSet([p.subjectRef, p.entityRef, p.sourceId, p.subjectEntityId, p.entityId]) == Some(ref)
  }

  lemma FirstOfFive(a: Option<string>, b: Option<string>, c: Option<string>, d: Option<string>, e: Option<string>)
    ensures FirstSet([a, b, c, d, e]) == Or(a, Or(b, Or(c, Or(d, if Truthy(e) then e else None))))
  {
    assert [a, b, c, d, e][1..] == [b, c, d, e] && [b, c, d, e][1..] == [c, d, e];
    assert [c, d, e][1..] == [d, e] && [d, e][1..] == [e] && [e][1..] == [];
    assert FirstSet([e]) == if Truthy(e) then e else None;
    assert FirstSet([d, e]) == Or(d, FirstSet([e]));
    assert FirstSet([c, d, e]) == Or(c, FirstSet([d, e]));
    assert FirstSet([b, c, d, e]) == Or(b, FirstSet([c, d, e]));
  }

  /** Event `i` is the last of the log that rules on the entity. */
  ghost predicate LastRuling(log: seq<Event>, ref: string, i: nat) {
    i < |log| && Rules(log[i], ref) && forall j: nat | i < j < |log| :: !Rules(log[j], ref)
  }

  /** A ruling sets the lock of its entity, and nothing else does. */
  lemma RulingSetsTheLock(locks: Locks, ev: Event, ref: string)
    ensures IsLocked(ReduceLocks(locks, ev), ref) <==>
            if Rules(ev, ref) then ev.eventType == Locked else IsLocked(locks, ref)
  {
    var p := ev.payload;
    FirstOfFive(p.subjectRef, p.entityRef, p.sourceId, p.subjectEntityId, p.entityId);
  }

  /** An entity is locked after a log exactly when the last event that rules on it is a lock. */
  lemma {:induction false} LockIsTheLastWord(log: seq<Event>, ref: string)
    ensures IsLocked(LocksAfter(log), ref) <==> exists i: nat :: LastRuling(log, ref, i) && log[i].eventType.Locked?
  {
    if log != [] {
      var init, last := log[..|log| - 1], log[|log| - 1];
      LockIsTheLastWord(init, ref);
      RulingSetsTheLock(LocksAfter(init), last, ref);
      if Rules(last, ref) {
        assert LastRuling(log, ref, |init|);
      } else {
        forall i: nat ensures LastRuling(log, ref, i) <==> LastRuling(init, ref, i) {
          assert forall j: nat | j < |init| :: log[j] == init[j];
        }
      }
    }
  }
}
