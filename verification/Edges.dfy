/** The active-edge projection: one row per fact, rewritten in place by ledger events. */
module Edges {
  import opened Wrappers
  import opened Sequences
  import opened LedgerEvents

  /** Content-addressed row keys; the digest is taken to be injective, so its material is the key. */
  datatype FactId =
    | MachineFact(predicateCode: Option<string>, subjectRef: Option<string>, objectRef: Option<string>,
                  subjectEntityId: Option<string>, objectEntityId: Option<string>, scope: Option<string>,
                  continuityId: Option<string>, relationshipType: Option<string>)
    | UserFact(eventType: EventType, subject: string, pred: string, target: string,
               relationshipType: Option<string>)

  datatype Derivation = Derivation(
    generatedBy: Option<string>, derivedFrom: seq<string>, sourceSeq: nat, eventType: EventType,
    sourceRefs: seq<string>, narrativeTime: NarrativeTime, spatial: Option<string>,
    relationshipType: Option<string>)

  datatype Row = Row(
    eventType: EventType, pred: string, subjectRef: string, objectRef: Option<string>,
    authority: string, confidence: Option<real>, state: string, scope: string,
    supportRefs: seq<string>, contradictionRefs: Refs, derivation: Derivation,
    active: bool, supersededBySeq: Option<nat>, supersededByFact: Option<FactId>, ledgerSeq: nat)

  type Table = map<FactId, Row>

  /** The text of a fact id, as a correction's prior ref may spell it. */
  type IdText = FactId -> string

  /** An event together with the locks in force once it has been folded. */
  datatype Entry = Entry(locks: Locks, event: Event)

  // ---------------------------------------------------------------------------
  // What one event does to one row
  // ---------------------------------------------------------------------------

  function WhenTruthy(s: Option<string>): Option<string> { if Truthy(s) then s else None }

  function MachineFactOf(p: Payload): FactId {
    MachineFact(p.predicateCode, p.subjectRef, p.objectRef, WhenTruthy(p.subjectEntityId),
                WhenTruthy(p.objectEntityId), p.scope, WhenTruthy(p.continuityId), p.relationshipType)
  }

  function Normalized(t: NarrativeTime): NarrativeTime {
    if t.Scalar? then Span(t.value, t.value) else t
  }

  /** The full row an activation writes. */
  function NewRow(ev: Event, pred: string, subject: string, state: string, authority: string): Row {
    var p := ev.payload;
    Row(ev.eventType, pred, subject, p.objectRef, authority,
        if p.confidence.Some? then p.confidence else ev.confidence,
        state, OrElse(p.scope, "GLOBAL"), p.supportRefs, p.contradictionRefs,
        Derivation(Or(p.generatedBy, ev.generatedBy), p.derivedFrom, ev.seqNo, ev.eventType,
                   p.supportRefs, Normalized(p.narrativeTime), p.spatial, p.relationshipType),
        true, None, None, ev.seqNo)
  }

  /** The event may change edges of its subject: both names are set and the subject is not locked. */
  predicate Admitted(e: Entry, pred: Option<string>) {
    && Truthy(pred) && Truthy(e.event.payload.subjectRef)
    && !IsLocked(e.locks, e.event.payload.subjectRef.value)
  }

  predicate IsUserChange(t: EventType) { t.OverrideApplied? || t.CorrectionApplied? }

  /** The fact an event activates and the row it writes for it. */
  function Activation(e: Entry): Option<(FactId, Row)> {
    var ev, p := e.event, e.event.payload;
    if ev.eventType.SemanticAsserted? && Admitted(e, p.predicateCode) then
      Some((MachineFactOf(p),
            NewRow(ev, p.predicateCode.value, p.subjectRef.value, OrElse(p.state, "UNKNOWN"),
                   OrElse(p.authority, OrElse(ev.authority, "machine")))))
    else if IsUserChange(ev.eventType) && Admitted(e, p.pred) && p.objectRef.Some? then
      Some((UserFact(ev.eventType, p.subjectRef.value, p.pred.value, p.objectRef.value, p.relationshipType),
            NewRow(ev, p.pred.value, p.subjectRef.value, "USER_CONFIRMED", "USER_OVERRIDE")))
    else None
  }

  predicate TypeMatches(wanted: Option<string>, row: Row) {
    wanted.Some? ==> row.derivation.relationshipType == wanted
  }

  predicate PriorMatches(prior: Option<string>, f: FactId, row: Row, idText: IdText) {
    Truthy(prior) ==> row.objectRef == prior || idText(f) == prior.value
  }

  /** An unlocked override or correction that names the row, or any invalidation that does. */
  predicate Retires(e: Entry, f: FactId, row: Row, idText: IdText) {
    var ev, p := e.event, e.event.payload;
    if IsUserChange(ev.eventType) then
      && Admitted(e, p.pred)
      && row.subjectRef == p.subjectRef.value && row.pred == p.pred.value
      && TypeMatches(p.relationshipType, row)
      && PriorMatches(if ev.eventType.CorrectionApplied? then p.priorRef else None, f, row, idText)
    else
      && ev.eventType.Invalidated? && Truthy(p.subjectRef) && row.subjectRef == p.subjectRef.value
      && (Truthy(p.pred) ==> row.pred == p.pred.value)
      && (Truthy(p.scope) ==> row.scope == p.scope.value)
      && TypeMatches(p.relationshipType, row)
  }

  predicate Contradicts(e: Entry, row: Row) {
    var p := e.event.payload;
    && e.event.eventType.ContradictionRecorded? && Truthy(p.subjectRef) && Truthy(p.pred)
    && row.subjectRef == p.subjectRef.value && row.pred == p.pred.value
    && TypeMatches(p.relationshipType, row)
  }

  /** The refs that are not null. */
  function Present(refs: Refs): Refs {
    if refs == [] then []
    else
      var rest := Present(refs[..|refs| - 1]);
      if refs[|refs| - 1].Some? then rest + [refs[|refs| - 1]] else rest
  }

  function MergedRefs(existing: Refs, p: Payload): Refs {
    var merged := Absorb(Absorb([], existing), p.refs);
    Present(if p.contradictingRef.Some? then Absorb(merged, [p.contradictingRef]) else merged)
  }

  function Retired(row: Row, at: nat): Row {
    row.(active := false, supersededBySeq := Some(at), ledgerSeq := at)
  }

  function Conflicting(row: Row, ev: Event): Row {
    row.(contradictionRefs := MergedRefs(row.contradictionRefs, ev.payload), state := "CONFLICTING",
         ledgerSeq := ev.seqNo)
  }

  /** The update statements of one event, seen by one stored row. */
  function Updated(f: FactId, row: Row, e: Entry, idText: IdText): Row {
    if !row.active then row
    else if Retires(e, f, row, idText) then Retired(row, e.event.seqNo)
    else if Contradicts(e, row) then Conflicting(row, e.event)
    else row
  }

  // ---------------------------------------------------------------------------
  // What one event, and a run of events, does to the table
  // ---------------------------------------------------------------------------

  function UpdateAll(t: Table, e: Entry, idText: IdText): Table {
    map f | f in t :: Updated(f, t[f], e, idText)
  }

  /** Updates first, then the activation: an override's own edge survives its supersession. */
  function Step(t: Table, e: Entry, idText: IdText): Table {
    match Activation(e)
    case None => UpdateAll(t, e, idText)
    case Some((f, row)) => UpdateAll(t, e, idText)[f := row]
  }

  function Fold(t: Table, es: seq<Entry>, idText: IdText): Table {
    if es == [] then t else Step(Fold(t, es[..|es| - 1], idText), es[|es| - 1], idText)
  }

  // ---------------------------------------------------------------------------
  // The builder
  // ---------------------------------------------------------------------------

  class ActiveSemanticEdgeProjectionBuilder {
    var rows: Table
    const idText: IdText

    constructor (idText: IdText)
      ensures rows == map[] && this.idText == idText
    {
      rows := map[];
      this.idText := idText;
    }

    method Apply(locks: Locks, ev: Event)
      modifies this
      ensures rows == Step(old(rows), Entry(locks, ev), idText)
    {
      ghost var e := Entry(locks, ev);
      var p := ev.payload;
      match ev.eventType
      case SemanticAsserted =>
        ApplyAssertion(locks, ev);
      case OverrideApplied =>
        ApplyUserChange(locks, ev);
      case CorrectionApplied =>
        ApplyUserChange(locks, ev);
      case Invalidated =>
        if Truthy(p.subjectRef) {
          Invalidate(p.subjectRef.value, p.pred, p.scope, ev.seqNo, p.relationshipType);
        }
        assert rows == UpdateAll(old(rows), e, idText);
      case ContradictionRecorded =>
        if Truthy(p.subjectRef) && Truthy(p.pred) {
          MarkConflicting(p.subjectRef.value, p.pred.value, ev);
        }
        assert rows == UpdateAll(old(rows), e, idText);
      case _ =>
        assert UpdateAll(rows, e, idText) == rows;
    }

    method ApplyAssertion(locks: Locks, ev: Event)
      requires ev.eventType.SemanticAsserted?
      modifies this
      ensures rows == Step(old(rows), Entry(locks, ev), idText)
    {
      var p := ev.payload;
      assert UpdateAll(rows, Entry(locks, ev), idText) == rows;
      if !Truthy(p.predicateCode) || !Truthy(p.subjectRef) || IsLocked(locks, p.subjectRef.value) {
        return;
      }
      Upsert(MachineFactOf(p), NewRow(ev, p.predicateCode.value, p.subjectRef.value,
             OrElse(p.state, "UNKNOWN"), OrElse(p.authority, OrElse(ev.authority, "machine"))));
    }

    method ApplyUserChange(locks: Locks, ev: Event)
      requires IsUserChange(ev.eventType)
      modifies this
      ensures rows == Step(old(rows), Entry(locks, ev), idText)
    {
      var p := ev.payload;
      ghost var e := Entry(locks, ev);
      if !Truthy(p.pred) || !Truthy(p.subjectRef) || IsLocked(locks, p.subjectRef.value) {
        assert rows == UpdateAll(old(rows), e, idText);
        return;
      }
      Supersede(p.subjectRef.value, p.pred.value, ev.seqNo,
                if ev.eventType.CorrectionApplied? then p.priorRef else None, p.relationshipType);
      assert rows == UpdateAll(old(rows), e, idText);
      if p.objectRef.Some? {
        Upsert(UserFact(ev.eventType, p.subjectRef.value, p.pred.value, p.objectRef.value, p.relationshipType),
               NewRow(ev, p.pred.value, p.subjectRef.value, "USER_CONFIRMED", "USER_OVERRIDE"));
      }
    }

    /** Insert, or overwrite every column. */
    method Upsert(f: FactId, row: Row)
      modifies this
      ensures rows == old(rows)[f := row]
    {
      rows := rows[f := row];
    }

    method Supersede(subject: string, pred: string, at: nat, prior: Option<string>, relType: Option<string>)
      modifies this
      ensures rows == map f | f in old(rows) ::
                var row := old(rows)[f];
                if row.active && row.subjectRef == subject && row.pred == pred
                   && TypeMatches(relType, row) && PriorMatches(prior, f, row, idText)
                then Retired(row, at) else row
    {
      Deactivate((f: FactId, row: Row) =>
        row.subjectRef == subject && row.pred == pred && row.active
        && TypeMatches(relType, row) && PriorMatches(prior, f, row, idText), at);
    }

    method Invalidate(subject: string, pred: Option<string>, scope: Option<string>, at: nat,
                      relType: Option<string>)
      modifies this
      ensures rows == map f | f in old(rows) ::
                var row := old(rows)[f];
                if row.active && row.subjectRef == subject
                   && (Truthy(pred) ==> row.pred == pred.value)
                   && (Truthy(scope) ==> row.scope == scope.value) && TypeMatches(relType, row)
                then Retired(row, at) else row
    {
      Deactivate((f: FactId, row: Row) =>
        row.subjectRef == subject && row.active
        && (Truthy(pred) ==> row.pred == pred.value)
        && (Truthy(scope) ==> row.scope == scope.value) && TypeMatches(relType, row), at);
    }

    /** One UPDATE statement over the rows a condition selects. */
    method Deactivate(where: (FactId, Row) -> bool, at: nat)
      modifies this
      ensures rows == map f | f in old(rows) ::
                if where(f, old(rows)[f]) then Retired(old(rows)[f], at) else old(rows)[f]
    {
      rows := map f | f in rows :: if where(f, rows[f]) then Retired(rows[f], at) else rows[f];
    }

    method MarkConflicting(subject: string, pred: string, ev: Event)
      modifies this
      ensures rows == map f | f in old(rows) ::
                if old(rows)[f].active && old(rows)[f].subjectRef == subject && old(rows)[f].pred == pred
                   && TypeMatches(ev.payload.relationshipType, old(rows)[f])
                then Conflicting(old(rows)[f], ev) else old(rows)[f]
    {
      var selected := set f | f in rows && rows[f].active && rows[f].subjectRef == subject
                              && rows[f].pred == pred
                              && TypeMatches(ev.payload.relationshipType, rows[f]);
      var todo := selected;
      while todo != {}
        invariant todo <= selected <= old(rows).Keys && rows.Keys == old(rows).Keys
        invariant forall f | f in rows ::
            rows[f] == if f in selected - todo then Conflicting(old(rows)[f], ev) else old(rows)[f]
      {
        var f :| f in todo;
        var merged := MergeRefs(rows[f].contradictionRefs, ev.payload);
        rows := rows[f := rows[f].(contradictionRefs := merged, state := "CONFLICTING", ledgerSeq := ev.seqNo)];
        todo := todo - {f};
      }
    }
  }

  /** The duplicate-free union of the stored refs, the event's refs and its contradicting ref, nulls dropped. */
  method MergeRefs(existing: Refs, p: Payload) returns (out: Refs)
    ensures out == MergedRefs(existing, p)
  {
    var merged := AppendUnseen([], existing);
    merged := AppendUnseen(merged, p.refs);
    if p.contradictingRef.Some? {
      merged := AppendUnseen(merged, [p.contradictingRef]);
    }
    out := [];
    for i := 0 to |merged|
      invariant out == Present(merged[..i])
    {
      assert merged[..i + 1][..i] == merged[..i];
      if merged[i].Some? { out := out + [merged[i]]; }
    }
    assert merged[..|merged|] == merged;
  }

  method AppendUnseen(start: Refs, more: Refs) returns (merged: Refs)
    ensures merged == Absorb(start, more)
  {
    merged := start;
    var seen := set r | r in start;
    for i := 0 to |more|
      invariant seen == (set r | r in merged)
      invariant Absorb(merged, more[i..]) == Absorb(start, more)
    {
      if more[i] !in seen {
        seen := seen + {more[i]};
        merged := merged + [more[i]];
      }
    }
  }
}
