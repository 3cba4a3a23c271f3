/** Laws of the edge table: what its rows mean, and why re-delivered events change nothing. */
module EdgeLaws {
  import opened Wrappers
  import opened Sequences
  import opened LedgerEvents
  import opened Edges

  // ---------------------------------------------------------------------------
  // Merging contradiction refs
  // ---------------------------------------------------------------------------

  ghost predicate Clean(refs: Refs) { NoDuplicates(refs) && None !in refs }

  /** `refs` is clean and already holds everything the event would add. */
  ghost predicate Saturated(refs: Refs, p: Payload) {
    && Clean(refs)
    && (forall r | r in p.refs && r.Some? :: r in refs)
    && (p.contradictingRef.Some? ==> p.contradictingRef in refs)
  }

  lemma {:induction false} AbsorbDistinct(refs: Refs, more: Refs)
    requires NoDuplicates(refs + more)
    ensures Absorb(refs, more) == refs + more
    decreases |more|
  {
    if more == [] {
      assert refs + more == refs;
    } else {
      assert (refs + more)[|refs|] == more[0];
      assert forall i | 0 <= i < |refs| :: (refs + more)[i] == refs[i];
      assert more[0] !in refs;
      assert refs + more == (refs + [more[0]]) + more[1..];
      AbsorbDistinct(refs + [more[0]], more[1..]);
    }
  }

  lemma {:induction false} PresentKeeps(refs: Refs)
    requires NoDuplicates(refs)
    ensures Clean(Present(refs))
    ensures forall r :: r in Present(refs) <==> r in refs && r.Some?
    ensures None !in refs ==> Present(refs) == refs
  {
    if refs != [] {
      var init, last := refs[..|refs| - 1], refs[|refs| - 1];
      assert refs == init + [last];
      PresentKeeps(init);
      assert last !in init;
    }
  }

  /** Absorbing what is there already adds at most nulls, which are dropped. */
  lemma {:induction false} AbsorbNothingNew(refs: Refs, more: Refs)
    requires forall r | r in more && r.Some? :: r in refs
    ensures Present(Absorb(refs, more)) == Present(refs)
    decreases |more|
  {
    if more != [] {
      var next := if more[0] in refs then refs else refs + [more[0]];
      if more[0] !in refs { assert next[..|next| - 1] == refs; }
      AbsorbNothingNew(next, more[1..]);
    }
  }

  /** The merged refs are the non-null refs of the row, of the event and its contradicting ref, once each. */
  lemma MergeHolds(existing: Refs, p: Payload)
    ensures Clean(MergedRefs(existing, p))
    ensures forall r :: r in MergedRefs(existing, p) <==>
            r.Some? && (r in existing || r in p.refs || r == p.contradictingRef)
  {
    var a := Absorb([], existing);
    AbsorbAll([], existing);
    AbsorbAll(a, p.refs);
    var b := Absorb(a, p.refs);
    AbsorbAll(b, [p.contradictingRef]);
    PresentKeeps(b);
    PresentKeeps(Absorb(b, [p.contradictingRef]));
  }

  lemma MergeSaturates(existing: Refs, p: Payload)
    ensures Saturated(MergedRefs(existing, p), p)
    ensures forall r | r in existing && r.Some? :: r in MergedRefs(existing, p)
  {
    MergeHolds(existing, p);
  }

  lemma MergeIsIdempotent(refs: Refs, p: Payload)
    requires Saturated(refs, p)
    ensures MergedRefs(refs, p) == refs
  {
    assert [] + refs == refs;
    AbsorbDistinct([], refs);
    AbsorbNothingNew(refs, p.refs);
    AbsorbAll(refs, p.refs);
    var b := Absorb(refs, p.refs);
    if p.contradictingRef.Some? { AbsorbNothingNew(b, [p.contradictingRef]); }
    PresentKeeps(refs);
  }

  // ---------------------------------------------------------------------------
  // One fact at a time
  // ---------------------------------------------------------------------------

  function Lookup(t: Table, f: FactId): Option<Row> { if f in t then Some(t[f]) else None }

  predicate Activates(e: Entry, f: FactId) { Activation(e).Some? && Activation(e).value.0 == f }

  function RowStep(f: FactId, r: Option<Row>, e: Entry, idText: IdText): Option<Row> {
    if Activates(e, f) then Some(Activation(e).value.1)
    else if r.Some? then Some(Updated(f, r.value, e, idText))
    else None
  }

  function RowFold(f: FactId, r: Option<Row>, es: seq<Entry>, idText: IdText): Option<Row> {
    if es == [] then r else RowStep(f, RowFold(f, r, es[..|es| - 1], idText), es[|es| - 1], idText)
  }

  /** The table evolves row by row; no row looks at another. */
  lemma {:induction false} FoldIsRowwise(t: Table, es: seq<Entry>, idText: IdText, f: FactId)
    ensures Lookup(Fold(t, es, idText), f) == RowFold(f, Lookup(t, f), es, idText)
  {
    if es != [] { FoldIsRowwise(t, es[..|es| - 1], idText, f); }
  }

  lemma {:induction false} RowFoldSplits(f: FactId, r: Option<Row>, es: seq<Entry>, fs: seq<Entry>, idText: IdText)
    ensures RowFold(f, r, es + fs, idText) == RowFold(f, RowFold(f, r, es, idText), fs, idText)
    decreases |fs|
  {
    if fs == [] {
      assert es + fs == es;
    } else {
      var init := fs[..|fs| - 1];
      assert (es + fs)[..|es + fs| - 1] == es + init;
      RowFoldSplits(f, r, es, init, idText);
    }
  }

  lemma {:induction false} FoldSplits(t: Table, es: seq<Entry>, fs: seq<Entry>, idText: IdText)
    ensures Fold(t, es + fs, idText) == Fold(Fold(t, es, idText), fs, idText)
    decreases |fs|
  {
    if fs == [] {
      assert es + fs == es;
    } else {
      var init := fs[..|fs| - 1];
      assert (es + fs)[..|es + fs| - 1] == es + init;
      FoldSplits(t, es, init, idText);
    }
  }

  /** The columns that updates never touch, and that every update condition reads. */
  ghost predicate SameIdentity(a: Row, b: Row) {
    && a.subjectRef == b.subjectRef && a.pred == b.pred && a.objectRef == b.objectRef
    && a.scope == b.scope && a.derivation == b.derivation && a.eventType == b.eventType
    && a.supersededByFact == b.supersededByFact && a.authority == b.authority && a.confidence == b.confidence
    && a.supportRefs == b.supportRefs
  }

  lemma IdentityDecides(a: Row, b: Row, e: Entry, f: FactId, idText: IdText)
    requires SameIdentity(a, b)
    ensures Retires(e, f, a, idText) == Retires(e, f, b, idText)
    ensures Contradicts(e, a) == Contradicts(e, b)
  {}

  ghost predicate Quiet(f: FactId, es: seq<Entry>) { forall e | e in es :: !Activates(e, f) }

  ghost predicate NeverRetired(f: FactId, row: Row, es: seq<Entry>, idText: IdText) {
    forall e | e in es :: !Retires(e, f, row, idText)
  }

  ghost predicate Contradicted(row: Row, es: seq<Entry>) { exists e :: e in es && Contradicts(e, row) }

  /** The sequence number of the first event that retires the row. */
  ghost function FirstRetirement(f: FactId, row: Row, es: seq<Entry>, idText: IdText): Option<nat> {
    if es == [] then None
    else
      var before := FirstRetirement(f, row, es[..|es| - 1], idText);
      var last := es[|es| - 1];
      if before.None? && Retires(last, f, row, idText) then Some(last.event.seqNo) else before
  }

  /** Everything that can happen to an active row between two activations. */
  lemma {:induction false} QuietEvolution(f: FactId, row: Row, es: seq<Entry>, idText: IdText)
    requires Quiet(f, es) && row.active && row.supersededBySeq == None
    ensures RowFold(f, Some(row), es, idText).Some?
    ensures var r := RowFold(f, Some(row), es, idText).value;
            && SameIdentity(r, row)
            && (r.active <==> NeverRetired(f, row, es, idText))
            && r.supersededBySeq == FirstRetirement(f, row, es, idText)
            && (r.active <==> r.supersededBySeq == None)
            && (r.active && Contradicted(row, es) ==>
                  && r.state == "CONFLICTING"
                  && forall e | e in es && Contradicts(e, row) :: Saturated(r.contradictionRefs, e.event.payload))
            && (r.active && !Contradicted(row, es) ==> r == row)
  {
    if es != [] {
      var init, last := es[..|es| - 1], es[|es| - 1];
      assert es == init + [last];
      assert forall e :: e in es <==> e in init || e == last;
      QuietEvolution(f, row, init, idText);
      var r := RowFold(f, Some(row), init, idText).value;
      IdentityDecides(r, row, last, f, idText);
      assert !Activates(last, f);
      if r.active && !Retires(last, f, r, idText) && Contradicts(last, r) {
        MergeSaturates(r.contradictionRefs, last.event.payload);
      }
    }
  }

  // ---------------------------------------------------------------------------
  // Re-delivery
  // ---------------------------------------------------------------------------

  lemma {:induction false} InactiveStays(f: FactId, row: Row, es: seq<Entry>, idText: IdText)
    requires Quiet(f, es) && !row.active
    ensures RowFold(f, Some(row), es, idText) == Some(row)
  {
    if es != [] {
      var init := es[..|es| - 1];
      assert es == init + [es[|es| - 1]];
      InactiveStays(f, row, init, idText);
    }
  }

  /** An activation overwrites every column, so nothing before it can be seen. */
  lemma {:induction false} ActivationForgets(f: FactId, r: Option<Row>, s: Option<Row>, es: seq<Entry>, idText: IdText)
    requires !Quiet(f, es)
    ensures RowFold(f, r, es, idText) == RowFold(f, s, es, idText)
  {
    var init, last := es[..|es| - 1], es[|es| - 1];
    assert es == init + [last];
    if !Activates(last, f) { ActivationForgets(f, r, s, init, idText); }
  }

  lemma RowFoldLast(f: FactId, r: Option<Row>, es: seq<Entry>, k: nat, idText: IdText)
    requires 0 < k <= |es|
    ensures RowFold(f, r, es[..k], idText) == RowStep(f, RowFold(f, r, es[..k - 1], idText), es[k - 1], idText)
  {
    assert es[..k][..k - 1] == es[..k - 1];
  }

  lemma ContradictedLast(row: Row, es: seq<Entry>, k: nat)
    requires 0 < k <= |es|
    ensures Contradicted(row, es[..k]) <==> Contradicted(row, es[..k - 1]) || Contradicts(es[k - 1], row)
    ensures Contradicts(es[k - 1], row) ==> Contradicted(row, es)
  {
    assert es[..k] == es[..k - 1] + [es[k - 1]];
    assert es[k - 1] in es;
  }

  /** Second delivery of quiet events to a row that survived the first: only the stamp moves, and moves alike. */
  lemma {:induction false} SecondDelivery(f: FactId, row: Row, es: seq<Entry>, k: nat, end: Row, idText: IdText)
    requires Quiet(f, es) && row.active && row.supersededBySeq == None && k <= |es|
    requires RowFold(f, Some(row), es, idText) == Some(end) && end.active
    ensures RowFold(f, Some(row), es[..k], idText).Some? && RowFold(f, Some(row), es[..k], idText).value.active
    ensures SameIdentity(RowFold(f, Some(row), es[..k], idText).value, row)
    ensures RowFold(f, Some(end), es[..k], idText) ==
              Some(if Contradicted(row, es[..k])
                   then end.(ledgerSeq := RowFold(f, Some(row), es[..k], idText).value.ledgerSeq) else end)
  {
    if k > 0 {
      var e := es[k - 1];
      assert e in es;
      SecondDelivery(f, row, es, k - 1, end, idText);
      var first := RowFold(f, Some(row), es[..k - 1], idText).value;
      var second := RowFold(f, Some(end), es[..k - 1], idText).value;
      QuietEvolution(f, row, es, idText);
      ContradictedLast(row, es, k);
      RowFoldLast(f, Some(row), es, k, idText);
      RowFoldLast(f, Some(end), es, k, idText);
      StepBoth(f, row, first, second, end, e, idText);
    }
  }

  /** A surviving event treats the first and the second delivery alike. */
  lemma StepBoth(f: FactId, row: Row, first: Row, second: Row, end: Row, e: Entry, idText: IdText)
    requires SameIdentity(first, row) && first.active && SameIdentity(end, row) && end.active
    requires second == end || second == end.(ledgerSeq := first.ledgerSeq)
    requires !Retires(e, f, row, idText)
    requires Contradicts(e, row) ==> end.state == "CONFLICTING" && Saturated(end.contradictionRefs, e.event.payload)
    ensures Updated(f, second, e, idText) ==
            if Contradicts(e, row) then end.(ledgerSeq := Updated(f, first, e, idText).ledgerSeq) else second
    ensures !Contradicts(e, row) ==> Updated(f, first, e, idText) == first
    ensures Updated(f, first, e, idText).active && SameIdentity(Updated(f, first, e, idText), row)
  {
    IdentityDecides(first, row, e, f, idText);
    IdentityDecides(second, row, e, f, idText);
    if Contradicts(e, row) { MergeIsIdempotent(end.contradictionRefs, e.event.payload); }
  }

  lemma RowRedelivery(f: FactId, r: Option<Row>, es: seq<Entry>, idText: IdText)
    requires r.Some? ==> (r.value.active <==> r.value.supersededBySeq == None)
    ensures RowFold(f, RowFold(f, r, es, idText), es, idText) == RowFold(f, r, es, idText)
  {
    var end := RowFold(f, r, es, idText);
    if !Quiet(f, es) {
      ActivationForgets(f, r, end, es, idText);
    } else if r.None? {
      AbsentStays(f, es, idText);
    } else if !r.value.active {
      InactiveStays(f, r.value, es, idText);
    } else {
      QuietEvolution(f, r.value, es, idText);
      if end.value.active {
        assert es[..|es|] == es;
        SecondDelivery(f, r.value, es, |es|, end.value, idText);
      } else {
        InactiveStays(f, end.value, es, idText);
      }
    }
  }

  lemma {:induction false} AbsentStays(f: FactId, es: seq<Entry>, idText: IdText)
    requires Quiet(f, es)
    ensures RowFold(f, None, es, idText) == None
  {
    if es != [] {
      assert es == es[..|es| - 1] + [es[|es| - 1]];
      AbsentStays(f, es[..|es| - 1], idText);
    }
  }

  /** `active` is kept in step with `superseded_by_seq`. */
  ghost predicate Consistent(t: Table) {
    forall f | f in t :: t[f].active <==> t[f].supersededBySeq == None
  }

  lemma StepStaysConsistent(t: Table, e: Entry, idText: IdText)
    requires Consistent(t)
    ensures Consistent(Step(t, e, idText))
  {}

  lemma {:induction false} FoldStaysConsistent(t: Table, es: seq<Entry>, idText: IdText)
    requires Consistent(t)
    ensures Consistent(Fold(t, es, idText))
  {
    if es != [] {
      FoldStaysConsistent(t, es[..|es| - 1], idText);
      StepStaysConsistent(Fold(t, es[..|es| - 1], idText), es[|es| - 1], idText);
    }
  }

  lemma SameLookups(t: Table, u: Table)
    requires forall f :: Lookup(t, f) == Lookup(u, f)
    ensures t == u
  {
    forall f: FactId ensures f in t <==> f in u { assert Lookup(t, f) == Lookup(u, f); }
    forall f | f in t ensures t[f] == u[f] { assert Lookup(t, f) == Lookup(u, f); }
  }

  /** Delivering any run of events a second time changes no row. */
  lemma Redelivery(t: Table, es: seq<Entry>, idText: IdText)
    requires Consistent(t)
    ensures Fold(Fold(t, es, idText), es, idText) == Fold(t, es, idText)
  {
    var once := Fold(t, es, idText);
    var twice := Fold(once, es, idText);
    forall f ensures Lookup(twice, f) == Lookup(once, f) {
      FoldIsRowwise(t, es, idText, f);
      FoldIsRowwise(once, es, idText, f);
      RowRedelivery(f, Lookup(t, f), es, idText);
    }
    SameLookups(twice, once);
  }

  /** Over a table built from a whole log, any suffix of that log may be delivered again. */
  lemma SuffixRedelivery(prefix: seq<Entry>, suffix: seq<Entry>, idText: IdText)
    ensures Fold(Fold(map[], prefix + suffix, idText), suffix, idText) == Fold(map[], prefix + suffix, idText)
  {
    FoldSplits(map[], prefix, suffix, idText);
    FoldStaysConsistent(map[], prefix, idText);
    Redelivery(Fold(map[], prefix, idText), suffix, idText);
  }

  // ---------------------------------------------------------------------------
  // What the table means
  // ---------------------------------------------------------------------------

  /** Entry `a` is the last one that activates the fact. */
  ghost predicate LastActivation(es: seq<Entry>, f: FactId, a: nat) {
    && a < |es| && Activates(es[a], f) && Quiet(f, es[a + 1..])
  }

  lemma SinceActivation(es: seq<Entry>, f: FactId, a: nat, idText: IdText)
    requires LastActivation(es, f, a)
    ensures Lookup(Fold(map[], es, idText), f) == RowFold(f, Some(Activation(es[a]).value.1), es[a + 1..], idText)
  {
    var upTo, since := es[..a + 1], es[a + 1..];
    assert es == upTo + since && upTo[..a] == es[..a];
    FoldIsRowwise(map[], es, idText, f);
    RowFoldSplits(f, None, upTo, since, idText);
  }

  /** A stored row is its last activation plus what happened since; rows appear by activation and never go. */
  lemma {:induction false} RowMeaning(es: seq<Entry>, f: FactId, a: nat, idText: IdText)
    requires LastActivation(es, f, a)
    ensures f in Fold(map[], es, idText)
    ensures var row, written := Fold(map[], es, idText)[f], Activation(es[a]).value.1;
            && SameIdentity(row, written)
            && (row.active <==> NeverRetired(f, written, es[a + 1..], idText))
            && row.supersededBySeq == FirstRetirement(f, written, es[a + 1..], idText)
            && (row.active && !Contradicted(written, es[a + 1..]) ==> row == written)
            && (row.active && Contradicted(written, es[a + 1..]) ==> row.state == "CONFLICTING")
  {
    SinceActivation(es, f, a, idText);
    QuietEvolution(f, Activation(es[a]).value.1, es[a + 1..], idText);
  }

  /** The user's own edge is standing right after an unlocked override or correction with an object. */
  lemma UserEdgeStands(es: seq<Entry>, idText: IdText)
    requires es != [] && var e := es[|es| - 1]; IsUserChange(e.event.eventType) && Activation(e).Some?
    ensures var f := Activation(es[|es| - 1]).value.0;
            f in Fold(map[], es, idText) && Fold(map[], es, idText)[f].active
  {}

  /**
   * A lock keeps machine assertions, overrides and corrections out, but not invalidations or contradictions:
   * an event changes the table of a locked subject exactly when it invalidates an active row, or contradicts
   * one that does not already say so.
   */
  lemma LocksGateOnlyActivations(t: Table, e: Entry, idText: IdText)
    requires e.event.payload.subjectRef.Some? && IsLocked(e.locks, e.event.payload.subjectRef.value)
    ensures Activation(e).None?
    ensures Step(t, e, idText) != t <==>
            exists f | f in t && t[f].active ::
              Retires(e, f, t[f], idText) || (Contradicts(e, t[f]) && Conflicting(t[f], e.event) != t[f])
    ensures Step(t, e, idText) != t ==> e.event.eventType.Invalidated? || e.event.eventType.ContradictionRecorded?
  {
    var next := UpdateAll(t, e, idText);
    assert Step(t, e, idText) == next && next.Keys == t.Keys;
    if next != t {
      assert exists f | f in t :: next[f] != t[f];
    }
    forall f | f in t && t[f].active
               && (Retires(e, f, t[f], idText) || (Contradicts(e, t[f]) && Conflicting(t[f], e.event) != t[f]))
      ensures next[f] != t[f]
    {
      assert Retires(e, f, t[f], idText) ==> !next[f].active;
    }
  }

  /** A locked subject's edge: asserted, then locked, then contradicted, it is marked conflicting all the same. */
  lemma LockedEdgeIsContradicted(asserted: Event, disputed: Event, idText: IdText)
    requires asserted.eventType.SemanticAsserted? && disputed.eventType.ContradictionRecorded?
    requires Truthy(asserted.payload.subjectRef) && Truthy(asserted.payload.predicateCode)
    requires asserted.payload.state == Some("KNOWN")
    requires disputed.payload.subjectRef == asserted.payload.subjectRef &&
             disputed.payload.pred == asserted.payload.predicateCode
    requires disputed.payload.relationshipType == None
    ensures var subject := asserted.payload.subjectRef.value;
            var before := Fold(map[], [Entry(map[], asserted)], idText);
            var after := Step(before, Entry(map[subject := true], disputed), idText);
            var f := MachineFactOf(asserted.payload);
            && f in before && before[f].active && before[f].state == "KNOWN"
            && f in after && after[f].active && after[f].state == "CONFLICTING"
  {
    var e := Entry(map[], asserted);
    assert [e][..0] == [] && Fold(map[], [e], idText) == Step(map[], e, idText);
    assert "KNOWN" != "CONFLICTING";
  }
}
