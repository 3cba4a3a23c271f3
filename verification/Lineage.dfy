/** The stage lineage: dependency tables, their transpose, and descendant closures over it. */
module Lineage {
  import opened Wrappers
  import opened Sequences

  /** stage -> its direct dependents. */
  type Dependents = map<string, seq<string>>

  /** One row of the dependency table: a stage and its (upstream stage, evidence class) pairs. */
  datatype Needs = Needs(stage: string, upstream: seq<(string, string)>)

  const STAGE_ORDER: seq<string> := [
    "INGEST", "FORMAT_ANALYSIS", "BASIC_SEGMENTATION", "LOW_LEVEL_EXTRACTION", "STRUCTURAL_ANALYSIS",
    "ENTITY_RESOLUTION", "CROSS_SOURCE_ALIGNMENT", "SEMANTIC_RECONCILIATION", "CURRENT_SEARCH_PROJECTION"]

  const STAGE_DEPENDENCIES: seq<Needs> := [
    Needs("INGEST", []),
    Needs("FORMAT_ANALYSIS", [("INGEST", "source_bytes")]),
    Needs("BASIC_SEGMENTATION", [("FORMAT_ANALYSIS", "format_analysis")]),
    Needs("LOW_LEVEL_EXTRACTION", [("BASIC_SEGMENTATION", "segments")]),
    Needs("STRUCTURAL_ANALYSIS", [("LOW_LEVEL_EXTRACTION", "evidence_records")]),
    Needs("ENTITY_RESOLUTION", [("STRUCTURAL_ANALYSIS", "structural_assertions"),
                                ("LOW_LEVEL_EXTRACTION", "evidence_records")]),
    Needs("CROSS_SOURCE_ALIGNMENT", [("ENTITY_RESOLUTION", "resolved_entities"),
                                     ("STRUCTURAL_ANALYSIS", "structural_assertions")]),
    Needs("SEMANTIC_RECONCILIATION", [("ENTITY_RESOLUTION", "resolved_entities"),
                                      ("CROSS_SOURCE_ALIGNMENT", "alignments")]),
    Needs("CURRENT_SEARCH_PROJECTION", [("SEMANTIC_RECONCILIATION", "reconciled_state")])]

  // ---------------------------------------------------------------------------
  // Reachability and the descendant plan
  // ---------------------------------------------------------------------------

  function Children(l: Dependents, n: string): seq<string> { if n in l then l[n] else [] }

  ghost predicate Chain(l: Dependents, p: seq<string>) {
    forall i | 0 <= i < |p| - 1 :: p[i + 1] in Children(l, p[i])
  }

  /** b is reached from a along at least one edge. */
  ghost predicate Reaches(l: Dependents, a: string, b: string) {
    exists p :: |p| >= 2 && p[0] == a && p[|p| - 1] == b && Chain(l, p)
  }

  lemma ReachesChild(l: Dependents, a: string, b: string)
    requires b in Children(l, a)
    ensures Reaches(l, a, b)
  {
    assert Chain(l, [a, b]);
  }

  lemma ReachesOn(l: Dependents, a: string, b: string, c: string)
    requires Reaches(l, a, b) && c in Children(l, b)
    ensures Reaches(l, a, c)
  {
    var p :| |p| >= 2 && p[0] == a && p[|p| - 1] == b && Chain(l, p);
    var q := p + [c];
    assert Chain(l, q) && q[0] == a && q[|q| - 1] == c;
  }

  /** A set closed under children that holds the children of `a` holds all that `a` reaches. */
  lemma {:induction false} ClosedHoldsReachable(l: Dependents, s: set<string>, p: seq<string>)
    requires |p| >= 2 && Chain(l, p)
    requires forall c | c in Children(l, p[0]) :: c in s
    requires forall n, c | n in s && c in Children(l, n) :: c in s
    ensures p[|p| - 1] in s
    decreases |p|
  {
    assert p[1] in Children(l, p[0]);
    if |p| > 2 {
      var q := p[1..];
      assert Chain(l, q) by {
        forall i | 0 <= i < |q| - 1 ensures q[i + 1] in Children(l, q[i]) { assert p[i + 2] in Children(l, p[i + 1]); }
      }
      ClosedHoldsReachable(l, s, q);
    }
  }

  function Kids(l: Dependents): set<string> { set n, c | n in l && c in l[n] :: c }

  /** Every stage the lineage mentions. */
  function Nodes(l: Dependents): set<string> { l.Keys + Kids(l) }

  datatype StageTarget = StageTarget(stage: string, scope: string, causation: string)

  datatype StageTargets = StageTargets(
    causation: string, scope: string, root: Option<string>, targets: seq<StageTarget>, unaffected: nat)

  function StagesOf(targets: seq<StageTarget>): seq<string> {
    seq(|targets|, i requires 0 <= i < |targets| => targets[i].stage)
  }

  /** `targets` lists, once each, exactly the stages reachable from the root, stamped with the request. */
  ghost predicate IsPlan(r: StageTargets, l: Dependents, root: string) {
    && NoDuplicates(StagesOf(r.targets))
    && (forall n :: n in StagesOf(r.targets) <==> Reaches(l, root, n))
    && (forall t | t in r.targets :: t.scope == r.scope && t.causation == r.causation)
  }

  /** Every child of n is accounted for. */
  ghost predicate Handled(l: Dependents, n: string, seen: set<string>, queue: seq<string>) {
    forall c | c in Children(l, n) :: c in seen || c in queue
  }

  ghost predicate Found(l: Dependents, root: string, n: string) { Reaches(l, root, n) && n in Nodes(l) }

  /** The worklist, as the loop of `PlanDescendants` keeps it. */
  ghost predicate Exploring(l: Dependents, root: string, seen: set<string>, queue: seq<string>) {
    && (forall n | n in seen :: Found(l, root, n))
    && (forall n | n in queue :: Found(l, root, n))
    && Handled(l, root, seen, queue)
    && (forall n | n in seen :: Handled(l, n, seen, queue))
  }

  method PlanDescendants(causation: string, scope: string, stage: Option<string>, lineage: Option<Dependents>)
    returns (r: StageTargets)
    ensures r.causation == causation && r.scope == scope && r.root == stage
    ensures var l := if lineage.Some? then lineage.value else map[];
            match stage
            case None => r.targets == [] && r.unaffected == |l|
            case Some(root) =>
              && IsPlan(r, l, root)
              && r.unaffected == |Nodes(l) - (set n | n in StagesOf(r.targets)) - {root}|
  {
    var l := if lineage.Some? then lineage.value else map[];
    if stage.None? {
      return StageTargets(causation, scope, None, [], |l|);
    }
    var root := stage.value;
    var found := Explore(l, root);
    var targets := Stamped(found, scope, causation);
    var seen := set n | n in found;
    assert Nodes(l) - (seen + {root}) == Nodes(l) - seen - {root};
    r := StageTargets(causation, scope, stage, targets, |Nodes(l) - (seen + {root})|);
  }

  function Stamped(stages: seq<string>, scope: string, causation: string): (targets: seq<StageTarget>)
    ensures StagesOf(targets) == stages
    ensures forall t | t in targets :: t.scope == scope && t.causation == causation
  {
    seq(|stages|, i requires 0 <= i < |stages| => StageTarget(stages[i], scope, causation))
  }

  /** The breadth-first worklist. */
  method Explore(l: Dependents, root: string) returns (found: seq<string>)
    ensures NoDuplicates(found)
    ensures forall n :: n in found <==> Reaches(l, root, n)
  {
    found := [];
    var seen: set<string> := {};
    var queue := Children(l, root);
    StartExploring(l, root);
    while queue != []
      invariant NoDuplicates(found) && seen == (set n | n in found)
      invariant Exploring(l, root, seen, queue)
      decreases Nodes(l) - seen, |queue|
    {
      var node := queue[0];
      if node in seen {
        queue := queue[1..];
      } else {
        var unseen := Unseen(Children(l, node), seen + {node});
        Visited(l, root, seen, queue, unseen);
        found := found + [node];
        seen := seen + {node};
        queue := queue[1..] + unseen;
      }
    }
    FullyExplored(l, root, seen);
  }

  lemma StartExploring(l: Dependents, root: string)
    ensures Exploring(l, root, {}, Children(l, root))
  {
    forall c | c in Children(l, root) ensures Found(l, root, c) { ReachesChild(l, root, c); }
  }

  lemma FullyExplored(l: Dependents, root: string, seen: set<string>)
    requires Exploring(l, root, seen, [])
    ensures forall n :: n in seen <==> Reaches(l, root, n)
  {
    forall n | Reaches(l, root, n) ensures n in seen {
      var p :| |p| >= 2 && p[0] == root && p[|p| - 1] == n && Chain(l, p);
      assert Handled(l, root, seen, []);
      forall m, c | m in seen && c in Children(l, m) ensures c in seen { assert Handled(l, m, seen, []); }
      ClosedHoldsReachable(l, seen, p);
    }
    forall n | n in seen ensures Reaches(l, root, n) { assert Found(l, root, n); }
  }

  /** Whatever was handled stays handled when the head of the queue becomes seen. */
  lemma HandledOn(l: Dependents, n: string, seen: set<string>, queue: seq<string>, more: seq<string>)
    requires queue != [] && Handled(l, n, seen, queue)
    ensures Handled(l, n, seen + {queue[0]}, queue[1..] + more)
  {
    assert queue == [queue[0]] + queue[1..];
  }

  lemma Visited(l: Dependents, root: string, seen: set<string>, queue: seq<string>, unseen: seq<string>)
    requires queue != [] && queue[0] !in seen && Exploring(l, root, seen, queue)
    requires forall c :: c in unseen <==> c in Children(l, queue[0]) && c !in seen + {queue[0]}
    ensures Exploring(l, root, seen + {queue[0]}, queue[1..] + unseen)
    ensures queue[0] in Nodes(l)
  {
    var node, now, rest := queue[0], seen + {queue[0]}, queue[1..] + unseen;
    assert node in queue && Found(l, root, node);
    HandledOn(l, root, seen, queue, unseen);
    forall n | n in now ensures Handled(l, n, now, rest) {
      if n in seen { HandledOn(l, n, seen, queue, unseen); }
    }
    forall n | n in rest ensures Found(l, root, n) {
      if n in unseen { ReachesOn(l, root, node, n); }
    }
  }

  /** The children not seen yet, in order. */
  method Unseen(children: seq<string>, seen: set<string>) returns (out: seq<string>)
    ensures forall c :: c in out <==> c in children && c !in seen
  {
    out := [];
    for i := 0 to |children|
      invariant forall c :: c in out <==> c in children[..i] && c !in seen
    {
      assert children[..i + 1] == children[..i] + [children[i]];
      if children[i] !in seen { out := out + [children[i]]; }
    }
    assert children[..|children|] == children;
  }

  // ---------------------------------------------------------------------------
  // The transpose
  // ---------------------------------------------------------------------------

  predicate DependsOn(needs: Needs, d: string) { exists u | u in needs.upstream :: u.0 == d }

  /** The stages that need `d`, in table order. */
  function Needing(table: seq<Needs>, d: string): seq<string> {
    if table == [] then []
    else
      var before, last := Needing(table[..|table| - 1], d), table[|table| - 1];
      if DependsOn(last, d) then before + [last.stage] else before
  }

  function Transposed(order: seq<string>, table: seq<Needs>): Dependents {
    map d | d in order :: Needing(table, d)
  }

  /** A dict has each stage once. */
  ghost predicate DistinctStages(table: seq<Needs>) {
    forall i, j | 0 <= i < j < |table| :: table[i].stage != table[j].stage
  }

  predicate Known(order: seq<string>, table: seq<Needs>) {
    forall n | n in table :: forall u | u in n.upstream :: u.0 in order
  }

  lemma {:induction false} NeedingIsTranspose(table: seq<Needs>, d: string, s: string)
    ensures s in Needing(table, d) <==> exists n | n in table :: n.stage == s && DependsOn(n, d)
  {
    if table != [] {
      assert table == table[..|table| - 1] + [table[|table| - 1]];
      NeedingIsTranspose(table[..|table| - 1], d, s);
    }
  }

  method BuildDependents(order: seq<string>, table: seq<Needs>) returns (r: Result<Dependents, string>)
    requires DistinctStages(table)
    ensures r.Success? <==> Known(order, table)
    ensures r.Success? ==> r.value == Transposed(order, table)
    ensures r.Failure? ==> r.error !in order && exists n | n in table :: DependsOn(n, r.error)
  {
    var dependents: Dependents := map d | d in order :: [];
    for i := 0 to |table|
      invariant Known(order, table[..i])
      invariant dependents == Transposed(order, table[..i])
    {
      assert table[..i + 1] == table[..i] + [table[i]] && table[i] in table;
      forall d ensures table[i].stage !in Needing(table[..i], d) { FreshStage(table, i, d); }
      var added := AddRow(order, dependents, table[i]);
      if added.Failure? {
        return added;
      }
      OneRowMore(order, table, i, dependents, added.value);
      dependents := added.value;
    }
    assert table[..|table|] == table;
    r := Success(dependents);
  }

  function WithRow(order: seq<string>, base: Dependents, needs: Needs, upstream: seq<(string, string)>): Dependents
    requires base.Keys == set d | d in order
  {
    map d | d in order :: if DependsOn(needs.(upstream := upstream), d) then base[d] + [needs.stage] else base[d]
  }

  /** The inner loop: one stage under each of its upstream stages, once. */
  method AddRow(order: seq<string>, base: Dependents, needs: Needs) returns (r: Result<Dependents, string>)
    requires base.Keys == (set d | d in order)
    requires forall d | d in order :: needs.stage !in base[d]
    ensures r.Success? <==> forall u | u in needs.upstream :: u.0 in order
    ensures r.Success? ==> r.value == WithRow(order, base, needs, needs.upstream)
    ensures r.Failure? ==> r.error !in order && DependsOn(needs, r.error)
  {
    r := ListUnderAll(order, base, needs.stage, needs.upstream);
    NoUpstreamYet(order, base, needs);
    ListedIsRow(order, base, needs, 0);
    assert needs.upstream[0..] == needs.upstream;
  }

  method ListUnderAll(order: seq<string>, base: Dependents, stage: string, upstream: seq<(string, string)>)
    returns (r: Result<Dependents, string>)
    requires base.Keys == (set d | d in order)
    ensures r == ListedUnder(order, base, stage, upstream)
  {
    var dependents := base;
    for j := 0 to |upstream|
      invariant dependents.Keys == base.Keys
      invariant ListedUnder(order, dependents, stage, upstream[j..]) == ListedUnder(order, base, stage, upstream)
    {
      var d := upstream[j].0;
      if d !in order {
        return Failure(d);
      }
      if stage !in dependents[d] {
        dependents := dependents[d := dependents[d] + [stage]];
      }
    }
    r := Success(dependents);
  }

  /** `now` with the stage listed under `d`. */
  function Listed(now: Dependents, stage: string, d: string): Dependents
    requires d in now
  {
    if stage in now[d] then now else now[d := now[d] + [stage]]
  }

  /** The stage listed under each upstream name in turn, up to an unknown one. */
  function ListedUnder(order: seq<string>, now: Dependents, stage: string, upstream: seq<(string, string)>)
    : Result<Dependents, string>
    requires now.Keys == (set d | d in order)
  {
    if upstream == [] then Success(now)
    else if upstream[0].0 !in order then Failure(upstream[0].0)
    else ListedUnder(order, Listed(now, stage, upstream[0].0), stage, upstream[1..])
  }

  /** From the row of the first `j` entries on, listing the stage under the rest makes the whole row, or fails. */
  lemma {:induction false} ListedIsRow(order: seq<string>, base: Dependents, needs: Needs, j: nat)
    requires base.Keys == (set d | d in order) && forall d | d in order :: needs.stage !in base[d]
    requires j <= |needs.upstream| && forall k | 0 <= k < j :: needs.upstream[k].0 in order
    ensures var row := WithRow(order, base, needs, needs.upstream[..j]);
            var r := ListedUnder(order, row, needs.stage, needs.upstream[j..]);
            && (r.Success? <==> forall u | u in needs.upstream :: u.0 in order)
            && (r.Success? ==> r.value == WithRow(order, base, needs, needs.upstream))
            && (r.Failure? ==> r.error !in order && DependsOn(needs, r.error))
    decreases |needs.upstream| - j
  {
    if j == |needs.upstream| {
      assert needs.upstream[..j] == needs.upstream;
    } else if needs.upstream[j].0 !in order {
      assert needs.upstream[j] in needs.upstream;
    } else {
      OneUpstreamMore(order, base, needs, j);
      ListedIsRow(order, base, needs, j + 1);
      ListedFrom(order, WithRow(order, base, needs, needs.upstream[..j]), needs.stage, needs.upstream, j);
    }
  }

  lemma ListedFrom(order: seq<string>, now: Dependents, stage: string, upstream: seq<(string, string)>, j: nat)
    requires now.Keys == (set d | d in order) && j < |upstream| && upstream[j].0 in order
    ensures ListedUnder(order, now, stage, upstream[j..]) ==
            ListedUnder(order, Listed(now, stage, upstream[j].0), stage, upstream[j + 1..])
  {
    assert upstream[j..][1..] == upstream[j + 1..];
  }

  lemma NoUpstreamYet(order: seq<string>, base: Dependents, needs: Needs)
    requires base.Keys == (set d | d in order)
    ensures base == WithRow(order, base, needs, needs.upstream[..0])
  {}

  /** The next upstream stage gains the stage unless an earlier entry already gave it. */
  lemma OneUpstreamMore(order: seq<string>, base: Dependents, needs: Needs, j: nat)
    requires base.Keys == (set d | d in order) && forall d | d in order :: needs.stage !in base[d]
    requires j < |needs.upstream| && needs.upstream[j].0 in order
    ensures var now, d := WithRow(order, base, needs, needs.upstream[..j]), needs.upstream[j].0;
            d in now && WithRow(order, base, needs, needs.upstream[..j + 1]) == Listed(now, needs.stage, d)
  {
    forall d | d in order
      ensures DependsOn(needs.(upstream := needs.upstream[..j + 1]), d) <==>
              DependsOn(needs.(upstream := needs.upstream[..j]), d) || needs.upstream[j].0 == d
    {}
  }

  lemma FreshStage(table: seq<Needs>, i: nat, d: string)
    requires i < |table| && DistinctStages(table)
    ensures table[i].stage !in Needing(table[..i], d)
  {
    NeedingIsTranspose(table[..i], d, table[i].stage);
  }

  lemma OneRowMore(order: seq<string>, table: seq<Needs>, i: nat, base: Dependents, next: Dependents)
    requires i < |table| && base == Transposed(order, table[..i])
    requires next == WithRow(order, base, table[i], table[i].upstream)
    ensures next == Transposed(order, table[..i + 1])
  {
    assert table[..i + 1][..i] == table[..i];
  }

  // ---------------------------------------------------------------------------
  // Order
  // ---------------------------------------------------------------------------

  /** `STAGE_ORDER.index(x)`; the length when x is absent. */
  function IndexOf(order: seq<string>, x: string): (i: nat)
    ensures i <= |order| && (i < |order| <==> x in order) && (i < |order| ==> order[i] == x)
  {
    if order == [] then 0
    else if order[0] == x then 0
    else
      assert order == [order[0]] + order[1..];
      1 + IndexOf(order[1..], x)
  }

  /** No stage depends on one that is not strictly earlier. */
  predicate Topological(order: seq<string>, table: seq<Needs>) {
    forall n | n in table ::
      n.stage in order && forall u | u in n.upstream :: u.0 in order && IndexOf(order, u.0) < IndexOf(order, n.stage)
  }

  /** Over the transpose of a topologically ordered table every descendant comes strictly later. */
  lemma {:induction false} DescendantsComeLater(order: seq<string>, table: seq<Needs>, p: seq<string>)
    requires Topological(order, table) && |p| >= 2 && Chain(Transposed(order, table), p)
    ensures p[0] in order && p[|p| - 1] in order && IndexOf(order, p[0]) < IndexOf(order, p[|p| - 1])
    decreases |p|
  {
    var l := Transposed(order, table);
    assert p[1] in Children(l, p[0]);
    NeedingIsTranspose(table, p[0], p[1]);
    if |p| > 2 {
      var q := p[1..];
      assert Chain(l, q) by {
        forall i | 0 <= i < |q| - 1 ensures q[i + 1] in Children(l, q[i]) { assert p[i + 2] in Children(l, p[i + 1]); }
      }
      DescendantsComeLater(order, table, q);
    }
  }

  lemma TargetsComeLater(order: seq<string>, table: seq<Needs>, a: string, b: string)
    requires Topological(order, table) && Reaches(Transposed(order, table), a, b)
    ensures a in order && b in order && IndexOf(order, a) < IndexOf(order, b)
    ensures !Reaches(Transposed(order, table), b, a)
  {
    var l := Transposed(order, table);
    var p :| |p| >= 2 && p[0] == a && p[|p| - 1] == b && Chain(l, p);
    DescendantsComeLater(order, table, p);
    if Reaches(l, b, a) {
      var q :| |q| >= 2 && q[0] == b && q[|q| - 1] == a && Chain(l, q);
      DescendantsComeLater(order, table, q);
    }
  }

  lemma {:induction false} IndexOfDistinct(order: seq<string>, i: nat)
    requires NoDuplicates(order) && i < |order|
    ensures IndexOf(order, order[i]) == i
  {
    assert order[IndexOf(order, order[i])] == order[i];
  }

  /** Row `i` is stage `i` of the order and names earlier stages only. */
  ghost predicate PointsBack(order: seq<string>, table: seq<Needs>, i: nat)
    requires i < |order| && i < |table|
  {
    && table[i].stage == order[i]
    && forall k | 0 <= k < |table[i].upstream| :: exists j: nat | j < i :: table[i].upstream[k].0 == order[j]
  }

  lemma PointingBackIsTopological(order: seq<string>, table: seq<Needs>)
    requires NoDuplicates(order) && |order| == |table|
    requires forall i: nat | i < |table| :: PointsBack(order, table, i)
    ensures Topological(order, table) && Known(order, table) && DistinctStages(table)
  {
    forall n | n in table
      ensures n.stage in order
      ensures forall u | u in n.upstream :: u.0 in order && IndexOf(order, u.0) < IndexOf(order, n.stage)
    {
      var i: nat :| i < |table| && table[i] == n;
      assert PointsBack(order, table, i);
      IndexOfDistinct(order, i);
      forall u | u in n.upstream ensures u.0 in order && IndexOf(order, u.0) < IndexOf(order, n.stage) {
        var k :| 0 <= k < |n.upstream| && n.upstream[k] == u;
        var j: nat :| j < i && n.upstream[k].0 == order[j];
        IndexOfDistinct(order, j);
      }
    }
    forall i, j | 0 <= i < j < |table| ensures table[i].stage != table[j].stage {
      assert PointsBack(order, table, i) && PointsBack(order, table, j);
    }
  }

  lemma CanonicalRowPointsBack(i: nat)
    requires i < |STAGE_DEPENDENCIES|
    ensures i < |STAGE_ORDER| && PointsBack(STAGE_ORDER, STAGE_DEPENDENCIES, i)
  {
    var up := STAGE_DEPENDENCIES[i].upstream;
    if i == 5 {
      assert up[0].0 == STAGE_ORDER[4] && up[1].0 == STAGE_ORDER[3];
    } else if i == 6 {
      assert up[0].0 == STAGE_ORDER[5] && up[1].0 == STAGE_ORDER[4];
    } else if i == 7 {
      assert up[0].0 == STAGE_ORDER[5] && up[1].0 == STAGE_ORDER[6];
    } else if i > 0 {
      assert |up| == 1 && up[0].0 == STAGE_ORDER[i - 1];
    }
  }

  /** The shipped table depends only backwards, so its transpose exists and its descendants come later. */
  lemma CanonicalTableIsTopological()
    ensures Topological(STAGE_ORDER, STAGE_DEPENDENCIES)
    ensures Known(STAGE_ORDER, STAGE_DEPENDENCIES) && DistinctStages(STAGE_DEPENDENCIES)
  {
    forall i: nat | i < |STAGE_DEPENDENCIES| ensures PointsBack(STAGE_ORDER, STAGE_DEPENDENCIES, i) {
      CanonicalRowPointsBack(i);
    }
    PointingBackIsTopological(STAGE_ORDER, STAGE_DEPENDENCIES);
  }

  lemma OrderIsDistinct()
    ensures NoDuplicates(STAGE_ORDER)
  {
    // The names differ in length.
    assert |STAGE_ORDER[0]| == 6 && |STAGE_ORDER[1]| == 15 && |STAGE_ORDER[2]| == 18 && |STAGE_ORDER[3]| == 20;
    assert |STAGE_ORDER[4]| == 19 && |STAGE_ORDER[5]| == 17 && |STAGE_ORDER[6]| == 22 && |STAGE_ORDER[7]| == 23;
    assert |STAGE_ORDER[8]| == 25;
  }

  lemma NextNeedsThis(i: nat)
    requires i + 1 < |STAGE_ORDER|
    ensures STAGE_ORDER[i + 1] in Children(Transposed(STAGE_ORDER, STAGE_DEPENDENCIES), STAGE_ORDER[i])
  {
    var n := STAGE_DEPENDENCIES[i + 1];
    assert n in STAGE_DEPENDENCIES && n.stage == STAGE_ORDER[i + 1];
    assert n.upstream[if i == 6 then 1 else 0].0 == STAGE_ORDER[i];
    assert n.upstream[if i == 6 then 1 else 0] in n.upstream;
    NeedingIsTranspose(STAGE_DEPENDENCIES, STAGE_ORDER[i], STAGE_ORDER[i + 1]);
  }

  /** Where every stage leads to the next one, all later stages are reached. */
  lemma {:induction false} LaterIsReached(order: seq<string>, l: Dependents, i: nat, j: nat)
    requires i < j < |order| && forall k: nat | k + 1 < |order| :: order[k + 1] in Children(l, order[k])
    ensures Reaches(l, order[i], order[j])
    decreases j
  {
    assert order[j - 1 + 1] in Children(l, order[j - 1]);
    if i == j - 1 {
      ReachesChild(l, order[i], order[j]);
    } else {
      LaterIsReached(order, l, i, j - 1);
      ReachesOn(l, order[i], order[j - 1], order[j]);
    }
  }

  /** In the shipped lineage the descendants of a stage are exactly the stages after it. */
  lemma ShippedDescendantsAreTheLater(a: string, b: string)
    ensures Reaches(Transposed(STAGE_ORDER, STAGE_DEPENDENCIES), a, b) <==>
            a in STAGE_ORDER && b in STAGE_ORDER && IndexOf(STAGE_ORDER, a) < IndexOf(STAGE_ORDER, b)
  {
    var l := Transposed(STAGE_ORDER, STAGE_DEPENDENCIES);
    CanonicalTableIsTopological();
    if Reaches(l, a, b) {
      TargetsComeLater(STAGE_ORDER, STAGE_DEPENDENCIES, a, b);
    } else if a in STAGE_ORDER && b in STAGE_ORDER && IndexOf(STAGE_ORDER, a) < IndexOf(STAGE_ORDER, b) {
      forall k: nat | k + 1 < |STAGE_ORDER| ensures STAGE_ORDER[k + 1] in Children(l, STAGE_ORDER[k]) {
        NextNeedsThis(k);
      }
      LaterIsReached(STAGE_ORDER, l, IndexOf(STAGE_ORDER, a), IndexOf(STAGE_ORDER, b));
    }
  }
}
