/** What a stored edge says, told from the payloads of the log alone. */
module EdgeMeaning {
  import opened Wrappers
  import opened Sequences
  import opened LedgerEvents
  import opened Edges
  import opened EdgeLaws

  // ---------------------------------------------------------------------------
  // What an event says about a fact
  // ---------------------------------------------------------------------------

  /** Subject and predicate are given, and the subject is not locked. */
  predicate Unlocked(e: Entry, pred: Option<string>) {
    var subject := e.event.payload.subjectRef;
    && pred.Some? && pred != Some("") && subject.Some? && subject != Some("")
    && !(subject.value in e.locks && e.locks[subject.value])
  }

  /** An empty id counts as none. */
  predicate SameId(id: Option<string>, given: Option<string>) { id == if given == Some("") then None else given }

  /** The event asserts the fact, or sets it by hand. */
  predicate Names(e: Entry, f: FactId) {
    var t, p := e.event.eventType, e.event.payload;
    match f
    case MachineFact(pred, subject, target, subjectId, targetId, scope, continuity, relType) =>
      && t == SemanticAsserted && Unlocked(e, p.predicateCode)
      && p.predicateCode == pred && p.subjectRef == subject && p.objectRef == target
      && SameId(subjectId, p.subjectEntityId) && SameId(targetId, p.objectEntityId)
      && p.scope == scope && SameId(continuity, p.continuityId) && p.relationshipType == relType
    case UserFact(kind, subject, pred, target, relType) =>
      && t == kind && (t == OverrideApplied || t == CorrectionApplied) && Unlocked(e, p.pred)
      && p.subjectRef == Some(subject) && p.pred == Some(pred) && p.objectRef == Some(target)
      && p.relationshipType == relType
  }

  /** The predicate an event that names a fact gives it. */
  function GivenPredicate(was: Event): Option<string> {
    if was.eventType == SemanticAsserted then was.payload.predicateCode else was.payload.pred
  }

  function GivenScope(was: Event): Option<string> { FirstSet([was.payload.scope, Some("GLOBAL")]) }

  /** A relationship type, where one is asked for, is that of the fact. */
  predicate TypeAsked(asked: Option<string>, was: Event) { asked == None || asked == was.payload.relationshipType }

  /** `e` retires the fact last named by `was`: an unlocked change by hand of it, or an invalidation that covers it. */
  predicate Displaces(e: Entry, f: FactId, was: Event, idText: IdText) {
    var t, p := e.event.eventType, e.event.payload;
    && p.subjectRef == was.payload.subjectRef && TypeAsked(p.relationshipType, was)
    && match t
       case OverrideApplied => Unlocked(e, p.pred) && p.pred == GivenPredicate(was)
       case CorrectionApplied =>
         && Unlocked(e, p.pred) && p.pred == GivenPredicate(was)
         && (p.priorRef in {None, Some("")} || p.priorRef == was.payload.objectRef || p.priorRef == Some(idText(f)))
       case Invalidated =>
         && (p.pred in {None, Some("")} || p.pred == GivenPredicate(was))
         && (p.scope in {None, Some("")} || p.scope == GivenScope(was))
       case _ => false
  }

  /** `e` is a contradiction of the fact last named by `was`. */
  predicate Disputes(e: Entry, was: Event) {
    var p := e.event.payload;
    && e.event.eventType == ContradictionRecorded && p.subjectRef == was.payload.subjectRef
    && p.pred == GivenPredicate(was) && TypeAsked(p.relationshipType, was)
  }

  /** The columns no later event but another naming changes. */
  predicate Written(row: Row, was: Event) {
    var p, d, byHand := was.payload, row.derivation, was.eventType != SemanticAsserted;
    && row.eventType == was.eventType && Some(row.subjectRef) == p.subjectRef
    && Some(row.pred) == GivenPredicate(was) && row.objectRef == p.objectRef
    && Some(row.authority) ==
       (if byHand then Some("USER_OVERRIDE") else FirstSet([p.authority, was.authority, Some("machine")]))
    && row.confidence == (if p.confidence == None then was.confidence else p.confidence)
    && Some(row.scope) == GivenScope(was) && row.supportRefs == p.supportRefs && row.supersededByFact == None
    && d.generatedBy == (if p.generatedBy in {None, Some("")} then was.generatedBy else p.generatedBy)
    && d.derivedFrom == p.derivedFrom && d.sourceSeq == was.seqNo && d.eventType == was.eventType
    && d.sourceRefs == p.supportRefs && d.spatial == p.spatial && d.relationshipType == p.relationshipType
    && (match p.narrativeTime
        case Scalar(at) => d.narrativeTime == Span(at, at)
        case other => d.narrativeTime == other)
  }

  /** The state a fact is given. */
  function GivenState(was: Event): Option<string> {
    if was.eventType == SemanticAsserted then FirstSet([was.payload.state, Some("UNKNOWN")])
    else Some("USER_CONFIRMED")
  }

  // ---------------------------------------------------------------------------
  // The builder's own conditions say the same
  // ---------------------------------------------------------------------------

  lemma FirstOfTwo(a: Option<string>, fallback: string)
    ensures FirstSet([a, Some(fallback)]) == Some(OrElse(a, fallback)) || fallback == ""
  {
    assert [a, Some(fallback)][1..] == [Some(fallback)];
  }

  lemma FirstOfThree(a: Option<string>, b: Option<string>, fallback: string)
    ensures FirstSet([a, b, Some(fallback)]) == Some(OrElse(a, OrElse(b, fallback))) || fallback == ""
  {
    assert [a, b, Some(fallback)][1..] == [b, Some(fallback)];
    FirstOfTwo(b, fallback);
  }

  lemma NamingActivates(e: Entry, f: FactId)
    ensures Names(e, f) <==> Activates(e, f)
  {}

  lemma NamingWrites(e: Entry, f: FactId)
    requires Names(e, f)
    ensures Activates(e, f)
    ensures var row := Activation(e).value.1;
            && Written(row, e.event) && row.active && row.supersededBySeq == None && row.ledgerSeq == e.event.seqNo
            && Some(row.state) == GivenState(e.event) && row.contradictionRefs == e.event.payload.contradictionRefs
  {
    var p := e.event.payload;
    FirstOfTwo(p.scope, "GLOBAL");
    FirstOfTwo(p.state, "UNKNOWN");
    FirstOfThree(p.authority, e.event.authority, "machine");
  }

  lemma WrittenDecides(e: Entry, f: FactId, row: Row, was: Event, idText: IdText)
    requires Written(row, was) && row.subjectRef != "" && row.pred != ""
    ensures Retires(e, f, row, idText) <==> Displaces(e, f, was, idText)
    ensures Contradicts(e, row) <==> Disputes(e, was)
  {}

  // ---------------------------------------------------------------------------
  // A whole log
  // ---------------------------------------------------------------------------

  /** Entry `a` is the last one that names the fact. */
  ghost predicate LastNaming(es: seq<Entry>, f: FactId, a: nat) {
    && a < |es| && Names(es[a], f)
    && forall k | a < k < |es| :: !Names(es[k], f)
  }

  /** Entry `i` is the first after `a` to retire the fact; none does when `i` is the length. */
  ghost predicate StandsUntil(es: seq<Entry>, f: FactId, a: nat, i: nat, idText: IdText) {
    && a < i <= |es|
    && (forall k | a < k < i :: !Displaces(es[k], f, es[a].event, idText))
    && (i < |es| ==> Displaces(es[i], f, es[a].event, idText))
  }

  /** Entry `k` contradicted the fact while it stood. */
  ghost predicate Charge(es: seq<Entry>, a: nat, i: nat, k: nat) {
    a < k < i && k < |es| && Disputes(es[k], es[a].event)
  }

  /** Entry `k` names, charges or retires the fact. */
  ghost predicate Touch(es: seq<Entry>, a: nat, i: nat, k: nat) { k == a || k == i || Charge(es, a, i, k) }

  ghost predicate LastTouch(es: seq<Entry>, a: nat, i: nat, top: nat) {
    top < |es| && Touch(es, a, i, top) && forall k: nat | top < k < |es| :: !Touch(es, a, i, k)
  }

  predicate Brings(e: Entry, r: Option<string>) { r in e.event.payload.refs || r == e.event.payload.contradictingRef }

  /** Some charge brought the ref. */
  ghost predicate Brought(es: seq<Entry>, a: nat, i: nat, r: Option<string>) {
    exists k: nat :: Charge(es, a, i, k) && Brings(es[k], r)
  }

  /** State, refs and stamp after the charges and the retirement. */
  ghost predicate Charged(row: Row, es: seq<Entry>, a: nat, i: nat)
    requires a < |es|
  {
    var p := es[a].event.payload;
    && (if exists k: nat :: Charge(es, a, i, k) then
          && row.state == "CONFLICTING" && Clean(row.contradictionRefs)
          && (forall r :: r in row.contradictionRefs <==>
                r != None && (r in p.contradictionRefs || Brought(es, a, i, r)))
        else Some(row.state) == GivenState(es[a].event) && row.contradictionRefs == p.contradictionRefs)
    && exists top: nat :: LastTouch(es, a, i, top) && row.ledgerSeq == es[top].event.seqNo
  }

  /** All columns of the edge that entry `a` named last and entry `i` retired. */
  ghost predicate Says(row: Row, es: seq<Entry>, a: nat, i: nat)
    requires a < i <= |es|
  {
    && Written(row, es[a].event) && row.active == (i == |es|)
    && row.supersededBySeq == (if i < |es| then Some(es[i].event.seqNo) else None)
    && Charged(row, es, a, i)
  }

  lemma ChargesOfMore(init: seq<Entry>, last: Entry, a: nat, i: nat)
    requires a < |init| && a < i <= |init| + 1
    ensures forall k: nat :: Charge(init + [last], a, i, k) <==>
              Charge(init, a, i, k) || (k == |init| && i == |init| + 1 && Disputes(last, init[a].event))
  {}

  /** One entry more that charges nothing and retires nothing. */
  lemma UntouchedSays(row: Row, init: seq<Entry>, last: Entry, a: nat, j: nat, i: nat)
    requires a < j <= |init| && Says(row, init, a, j)
    requires i == if j < |init| then j else j + 1
    requires j < |init| || !Disputes(last, init[a].event)
    ensures Says(row, init + [last], a, i)
  {
    var es := init + [last];
    ChargesOfMore(init, last, a, i);
    assert forall k: nat :: Charge(es, a, i, k) <==> Charge(init, a, j, k);
    var top: nat :| LastTouch(init, a, j, top) && row.ledgerSeq == init[top].event.seqNo;
    assert es[top] == init[top];
    assert forall k: nat | k < |init| :: Touch(es, a, i, k) <==> Touch(init, a, j, k);
    assert !Touch(es, a, i, |init|);
    assert LastTouch(es, a, i, top);
  }

  lemma RetiredSays(row: Row, init: seq<Entry>, last: Entry, a: nat)
    requires a < |init| && Says(row, init, a, |init|)
    ensures Says(Retired(row, last.event.seqNo), init + [last], a, |init|)
  {
    var es := init + [last];
    ChargesOfMore(init, last, a, |init|);
    assert forall k: nat :: Charge(es, a, |init|, k) <==> Charge(init, a, |init|, k);
    assert es[|init|] == last && LastTouch(es, a, |init|, |init|);
  }

  lemma DisputeBrings(init: seq<Entry>, last: Entry, a: nat, r: Option<string>)
    requires a < |init| && Disputes(last, init[a].event)
    ensures Brought(init + [last], a, |init| + 1, r) <==> Brought(init, a, |init|, r) || Brings(last, r)
  {
    var es := init + [last];
    ChargesOfMore(init, last, a, |es|);
    assert es[|init|] == last && Charge(es, a, |es|, |init|);
    if Brought(init, a, |init|, r) {
      var k: nat :| Charge(init, a, |init|, k) && Brings(init[k], r);
      assert Charge(es, a, |es|, k) && es[k] == init[k];
    }
  }

  lemma DisputedSays(row: Row, init: seq<Entry>, last: Entry, a: nat)
    requires a < |init| && Says(row, init, a, |init|) && Disputes(last, init[a].event)
    ensures Says(Conflicting(row, last.event), init + [last], a, |init| + 1)
  {
    var es, now := init + [last], Conflicting(row, last.event);
    MergeHolds(row.contradictionRefs, last.event.payload);
    assert es[|init|] == last && Charge(es, a, |es|, |init|) && LastTouch(es, a, |es|, |init|);
    forall r
      ensures r in now.contradictionRefs <==>
                r != None && (r in es[a].event.payload.contradictionRefs || Brought(es, a, |es|, r))
    {
      DisputeBrings(init, last, a, r);
    }
  }

  /** The row after an entry that does not name its fact. */
  function Next(row: Row, e: Entry, retires: bool, disputes: bool): Row {
    if !row.active then row
    else if retires then Retired(row, e.event.seqNo)
    else if disputes then Conflicting(row, e.event)
    else row
  }

  lemma StandingEntryMore(row: Row, init: seq<Entry>, last: Entry, a: nat, retires: bool, disputes: bool)
    requires a < |init| && row.active && Says(row, init, a, |init|) && (disputes <==> Disputes(last, init[a].event))
    ensures Says(Next(row, last, retires, disputes), init + [last], a, if retires then |init| else |init| + 1)
  {
    if retires {
      RetiredSays(row, init, last, a);
    } else if disputes {
      DisputedSays(row, init, last, a);
    } else {
      UntouchedSays(row, init, last, a, |init|, |init| + 1);
    }
  }

  lemma OneEntryMore(row: Row, init: seq<Entry>, last: Entry, a: nat, j: nat, retires: bool, disputes: bool)
    requires a < j <= |init| && Says(row, init, a, j) && (disputes <==> Disputes(last, init[a].event))
    ensures Says(Next(row, last, retires, disputes), init + [last], a, if j < |init| || retires then j else j + 1)
  {
    SaysWhetherActive(row, init, a, j);
    if j < |init| {
      UntouchedSays(row, init, last, a, j, j);
    } else {
      StandingEntryMore(row, init, last, a, retires, disputes);
    }
  }

  lemma SaysWhetherActive(row: Row, es: seq<Entry>, a: nat, i: nat)
    requires a < i <= |es| && Says(row, es, a, i)
    ensures row.active <==> i == |es|
  {}

  /** Every column of a stored edge, from the payloads of the log. */
  lemma {:induction false} ColumnMeaning(es: seq<Entry>, f: FactId, a: nat, i: nat, idText: IdText)
    requires LastNaming(es, f, a) && StandsUntil(es, f, a, i, idText)
    ensures f in Fold(map[], es, idText)
    ensures Says(Fold(map[], es, idText)[f], es, a, i)
    decreases |es|
  {
    var init, last := es[..|es| - 1], es[|es| - 1];
    Snoc(es);
    if a == |es| - 1 {
      NamingWrites(last, f);
      JustNamed(Fold(map[], es, idText)[f], es, a);
    } else {
      var j := if i == |es| then i - 1 else i;
      assert init[a] == es[a];
      ColumnMeaning(init, f, a, j, idText);
      UnnamedStep(Fold(map[], init, idText), f, last, es[a].event, idText);
      OneEntryMore(Fold(map[], init, idText)[f], init, last, a, j, Displaces(last, f, es[a].event, idText),
                   Disputes(last, es[a].event));
    }
  }

  lemma UnnamedStep(t: Table, f: FactId, e: Entry, was: Event, idText: IdText)
    requires f in t && Written(t[f], was) && !Names(e, f)
    requires was.payload.subjectRef != Some("") && GivenPredicate(was) != Some("")
    ensures f in Step(t, e, idText) && Step(t, e, idText)[f] ==
            Next(t[f], e, Displaces(e, f, was, idText), Disputes(e, was))
  {
    NamingActivates(e, f);
    WrittenDecides(e, f, t[f], was, idText);
  }

  lemma JustNamed(row: Row, es: seq<Entry>, a: nat)
    requires a == |es| - 1
    requires Written(row, es[a].event) && row.active && row.supersededBySeq == None
    requires row.ledgerSeq == es[a].event.seqNo && Some(row.state) == GivenState(es[a].event)
    requires row.contradictionRefs == es[a].event.payload.contradictionRefs
    ensures Says(row, es, a, |es|)
  {
    assert LastTouch(es, a, |es|, a);
  }

  lemma {:induction false} LastNamingExists(es: seq<Entry>, f: FactId) returns (a: nat)
    requires exists k: nat | k < |es| :: Names(es[k], f)
    ensures LastNaming(es, f, a)
  {
    if Names(es[|es| - 1], f) {
      a := |es| - 1;
    } else {
      var k: nat :| k < |es| && Names(es[k], f);
      assert es[..|es| - 1][k] == es[k];
      a := LastNamingExists(es[..|es| - 1], f);
    }
  }

  lemma {:induction false} StandsUntilSome(es: seq<Entry>, f: FactId, a: nat, idText: IdText) returns (i: nat)
    requires a < |es|
    ensures StandsUntil(es, f, a, i, idText)
  {
    i := a + 1;
    while i < |es| && !Displaces(es[i], f, es[a].event, idText)
      invariant a < i <= |es| && forall k | a < k < i :: !Displaces(es[k], f, es[a].event, idText)
    {
      i := i + 1;
    }
  }

  lemma {:induction false} NeverNamed(es: seq<Entry>, f: FactId, idText: IdText)
    requires forall k: nat | k < |es| :: !Names(es[k], f)
    ensures f !in Fold(map[], es, idText)
  {
    if es != [] {
      assert forall k: nat | k < |es| - 1 :: es[..|es| - 1][k] == es[k];
      NeverNamed(es[..|es| - 1], f, idText);
      NamingActivates(es[|es| - 1], f);
    }
  }

  /** A row exists iff its fact was ever named, and is active iff nothing has retired it since it was named last. */
  lemma {:induction false} TableMeaning(es: seq<Entry>, f: FactId, idText: IdText)
    ensures f in Fold(map[], es, idText) <==> exists k: nat | k < |es| :: Names(es[k], f)
    ensures f in Fold(map[], es, idText) && Fold(map[], es, idText)[f].active <==>
            exists a: nat :: LastNaming(es, f, a) && StandsUntil(es, f, a, |es|, idText)
  {
    if exists k: nat | k < |es| :: Names(es[k], f) {
      var a := LastNamingExists(es, f);
      var i := StandsUntilSome(es, f, a, idText);
      ColumnMeaning(es, f, a, i, idText);
      forall b: nat | LastNaming(es, f, b) ensures b == a {}
    } else {
      NeverNamed(es, f, idText);
    }
  }

  /**
   * An unlocked correction that names another object retires a standing edge of its subject and predicate exactly
   * when it asks for no other type and its prior ref, unless empty, is the edge's object or its id.
   */
  lemma {:induction false} CorrectionRetiresExactlyWhen(es: seq<Entry>, f: FactId, a: nat, e: Entry, idText: IdText)
    requires LastNaming(es, f, a) && StandsUntil(es, f, a, |es|, idText)
    requires e.event.eventType == CorrectionApplied && Unlocked(e, e.event.payload.pred) && !Names(e, f)
    requires e.event.payload.subjectRef == es[a].event.payload.subjectRef
    requires e.event.payload.pred == GivenPredicate(es[a].event)
    ensures f in Fold(map[], es + [e], idText)
    ensures var p, was := e.event.payload, es[a].event.payload;
            !Fold(map[], es + [e], idText)[f].active <==>
              && (p.relationshipType == None || p.relationshipType == was.relationshipType)
              && (p.priorRef in {None, Some("")} || p.priorRef == was.objectRef || p.priorRef == Some(idText(f)))
  {
    StandsOn(es, f, a, e, idText);
    CorrectionDisplaces(e, f, es[a].event, idText);
  }

  /** A standing edge that an entry does not name stands on unless the entry displaces it. */
  lemma {:induction false} StandsOn(es: seq<Entry>, f: FactId, a: nat, e: Entry, idText: IdText)
    requires LastNaming(es, f, a) && StandsUntil(es, f, a, |es|, idText) && !Names(e, f)
    ensures f in Fold(map[], es + [e], idText)
    ensures !Fold(map[], es + [e], idText)[f].active <==> Displaces(e, f, es[a].event, idText)
  {
    var more, i := es + [e], if Displaces(e, f, es[a].event, idText) then |es| else |es| + 1;
    OneMoreStands(es, f, a, e, idText);
    ColumnMeaning(more, f, a, i, idText);
    SaysWhetherActive(Fold(map[], more, idText)[f], more, a, i);
  }

  lemma OneMoreStands(es: seq<Entry>, f: FactId, a: nat, e: Entry, idText: IdText)
    requires LastNaming(es, f, a) && StandsUntil(es, f, a, |es|, idText) && !Names(e, f)
    ensures LastNaming(es + [e], f, a)
    ensures StandsUntil(es + [e], f, a, if Displaces(e, f, es[a].event, idText) then |es| else |es| + 1, idText)
  {
    var more := es + [e];
    assert more[|es|] == e && forall k: nat | k < |es| :: more[k] == es[k];
  }

  lemma CorrectionDisplaces(e: Entry, f: FactId, was: Event, idText: IdText)
    requires e.event.eventType == CorrectionApplied && Unlocked(e, e.event.payload.pred)
    requires e.event.payload.subjectRef == was.payload.subjectRef && e.event.payload.pred == GivenPredicate(was)
    ensures var p := e.event.payload;
            Displaces(e, f, was, idText) <==>
              && (p.relationshipType == None || p.relationshipType == was.payload.relationshipType)
              && (p.priorRef in {None, Some("")} || p.priorRef == was.payload.objectRef ||
                  p.priorRef == Some(idText(f)))
  {}
}
