/** Accepted cross-source correspondence: union-find over canonical refs, least ref as the root. */
module Correspondence {
  import opened Text

  datatype AlignRow = AlignRow(left: string, right: string, alignmentType: string)

  // ---------------------------------------------------------------------------
  // Accepted edges and the components they span
  // ---------------------------------------------------------------------------

  type Edges = set<(string, string)>

  predicate Accepted(r: AlignRow, canonical: set<string>) {
    && (r.alignmentType == "EQUIVALENT" || r.alignmentType == "CONTINUITY")
    && r.left in canonical && r.right in canonical && r.left != r.right
  }

  function EdgesOf(rows: seq<AlignRow>, canonical: set<string>): Edges {
    set r | r in rows && Accepted(r, canonical) :: (r.left, r.right)
  }

  function Touched(edges: Edges): set<string> {
    (set e | e in edges :: e.0) + (set e | e in edges :: e.1)
  }

  predicate Joined(edges: Edges, a: string, b: string) { (a, b) in edges || (b, a) in edges }

  ghost predicate Walk(edges: Edges, p: seq<string>, a: string, b: string) {
    && |p| > 0 && p[0] == a && p[|p| - 1] == b
    && forall i | 0 <= i < |p| - 1 :: Joined(edges, p[i], p[i + 1])
  }

  /** a and b lie in the same connected component. */
  ghost predicate Linked(edges: Edges, a: string, b: string) {
    exists p :: Walk(edges, p, a, b)
  }

  lemma LinkedReflexive(edges: Edges, a: string)
    ensures Linked(edges, a, a)
  {
    assert Walk(edges, [a], a, a);
  }

  lemma LinkedTransitive(edges: Edges, a: string, b: string, c: string)
    requires Linked(edges, a, b) && Linked(edges, b, c)
    ensures Linked(edges, a, c)
  {
    var p :| Walk(edges, p, a, b);
    var q :| Walk(edges, q, b, c);
    assert Walk(edges, p + q[1..], a, c);
  }

  lemma LinkedSymmetric(edges: Edges, a: string, b: string)
    requires Linked(edges, a, b)
    ensures Linked(edges, b, a)
  {
    var p :| Walk(edges, p, a, b);
    var q := seq(|p|, i requires 0 <= i < |p| => p[|p| - 1 - i]);
    forall i | 0 <= i < |q| - 1 ensures Joined(edges, q[i], q[i + 1]) {
      assert Joined(edges, p[|p| - 2 - i], p[|p| - 2 - i + 1]);
    }
    assert Walk(edges, q, b, a);
  }

  lemma LinkedGrows(small: Edges, large: Edges, a: string, b: string)
    requires Linked(small, a, b) && small <= large
    ensures Linked(large, a, b)
  {
    var p :| Walk(small, p, a, b);
    assert Walk(large, p, a, b);
  }

  lemma LinkedByEdge(edges: Edges, a: string, b: string)
    requires Joined(edges, a, b)
    ensures Linked(edges, a, b)
  {
    assert Walk(edges, [a, b], a, b);
  }

  // ---------------------------------------------------------------------------
  // Parent forests
  // ---------------------------------------------------------------------------

  type Parents = map<string, string>

  function Parent(f: Parents, x: string): string
    requires x in f
  {
    f[x]
  }

  /** Every parent is a node, and every non-root points strictly downwards. */
  ghost predicate Forest(f: Parents) {
    forall x {:trigger Parent(f, x)} | x in f :: Parent(f, x) in f && AtMost(Parent(f, x), x)
  }

  ghost function Root(f: Parents, x: string): string
    requires Forest(f) && x in f
    decreases Rank(f.Keys, x)
  {
    if Parent(f, x) == x then x
    else
      assert Rank(f.Keys, Parent(f, x)) < Rank(f.Keys, x) by { RankDecreases(f.Keys, Parent(f, x), x); }
      Root(f, Parent(f, x))
  }

  lemma {:induction false} RootIsBelow(f: Parents, x: string)
    requires Forest(f) && x in f
    ensures var r := Root(f, x); r in f && Parent(f, r) == r && AtMost(r, x) && (Parent(f, x) != x ==> Less(r, x))
    decreases Rank(f.Keys, x)
  {
    var up := Parent(f, x);
    if up != x {
      RankDecreases(f.Keys, up, x);
      RootIsBelow(f, up);
      if Root(f, x) != up { LessIsTransitive(Root(f, x), up, x); }
    }
  }

  /** Redirecting `a` to a smaller root leaves a forest over the same nodes. */
  lemma RedirectIsForest(f: Parents, a: string, r: string)
    requires Forest(f) && a in f && r in f && Parent(f, r) == r && Less(r, a)
    ensures Forest(f[a := r]) && f[a := r].Keys == f.Keys && Parent(f[a := r], r) == r
    ensures forall y {:trigger Parent(f[a := r], y)} | y in f && y != a :: Parent(f[a := r], y) == Parent(f, y)
  {
    LessIsIrreflexive(a);
    var g := f[a := r];
    forall x {:trigger Parent(g, x)} | x in g ensures Parent(g, x) in g && AtMost(Parent(g, x), x) {
      if x != a { assert Parent(g, x) == Parent(f, x); }
    }
  }

  /** Sending `a` to a smaller root `r` sends what used to end at `a` to `r`, and nothing else. */
  lemma {:induction false} RedirectedRoot(f: Parents, g: Parents, a: string, r: string, x: string)
    requires Forest(f) && Forest(g) && g.Keys == f.Keys && a in f && r in f && x in f
    requires Parent(g, a) == r && Parent(g, r) == r
    requires forall y {:trigger Parent(g, y)} | y in f && y != a :: Parent(g, y) == Parent(f, y)
    requires Parent(f, a) == a || Root(f, a) == r
    ensures Root(g, x) == if Root(f, x) == a then r else Root(f, x)
    decreases Rank(f.Keys, x)
  {
    RootIsBelow(f, x);
    if x == a {
      assert Root(g, r) == r;
      assert Root(g, a) == r;
    } else if Parent(f, x) != x {
      RankDecreases(f.Keys, Parent(f, x), x);
      RedirectedRoot(f, g, a, r, Parent(f, x));
    }
  }

  /** Pointing a node straight at its root changes no root. */
  lemma CompressionKeepsRoots(f: Parents, a: string)
    requires Forest(f) && a in f && Parent(f, a) != a
    ensures var g := f[a := Root(f, a)];
            && Forest(g) && g.Keys == f.Keys
            && forall x {:trigger Root(g, x)} | x in f :: Root(g, x) == Root(f, x)
  {
    var g := f[a := Root(f, a)];
    RootIsBelow(f, a);
    RedirectIsForest(f, a, Root(f, a));
    forall x {:trigger Root(g, x)} | x in f ensures Root(g, x) == Root(f, x) {
      RootIsBelow(f, x);
      RedirectedRoot(f, g, a, Root(f, a), x);
    }
  }

  /** Roots decide linkage: edges join equal roots, and every node is linked to its root. */
  ghost predicate Represents(f: Parents, edges: Edges) {
    && Forest(f)
    && (forall e | e in edges :: e.0 in f && e.1 in f && Root(f, e.0) == Root(f, e.1))
    && (forall x {:trigger Root(f, x)} | x in f :: Linked(edges, x, Root(f, x)))
  }

  lemma {:induction false} WalkKeepsRoot(f: Parents, edges: Edges, p: seq<string>, a: string, b: string)
    requires Represents(f, edges) && a in f && Walk(edges, p, a, b)
    ensures b in f && Root(f, a) == Root(f, b)
    decreases |p|
  {
    if |p| > 1 {
      var q := p[..|p| - 1];
      assert Joined(edges, p[|p| - 2], p[|p| - 1]);
      WalkKeepsRoot(f, edges, q, a, q[|q| - 1]);
    }
  }

  lemma LinkedKeepsRoot(f: Parents, edges: Edges, a: string, b: string)
    requires Represents(f, edges) && a in f && Linked(edges, a, b)
    ensures b in f && Root(f, a) == Root(f, b)
  {
    var p :| Walk(edges, p, a, b);
    WalkKeepsRoot(f, edges, p, a, b);
  }

  /** An edge inside one tree needs no change. */
  lemma {:induction false} AddInnerEdge(f: Parents, edges: Edges, a: string, b: string)
    requires Represents(f, edges) && a in f && b in f && Root(f, a) == Root(f, b)
    ensures Represents(f, edges + {(a, b)})
  {
    var more := edges + {(a, b)};
    forall x {:trigger Root(f, x)} | x in f ensures Linked(more, x, Root(f, x)) {
      LinkedGrows(edges, more, x, Root(f, x));
    }
  }

  /** The roots of the two ends of a new edge are linked by it. */
  lemma BridgeLinksRoots(f: Parents, edges: Edges, more: Edges, a: string, b: string)
    requires Represents(f, edges) && a in f && b in f && edges <= more && Joined(more, a, b)
    ensures Linked(more, Root(f, a), Root(f, b))
  {
    LinkedGrows(edges, more, a, Root(f, a));
    LinkedGrows(edges, more, b, Root(f, b));
    LinkedSymmetric(more, a, Root(f, a));
    LinkedByEdge(more, a, b);
    LinkedTransitive(more, Root(f, a), a, b);
    LinkedTransitive(more, Root(f, a), b, Root(f, b));
  }

  /** An edge between two trees is met by hanging the greater root below the smaller. */
  lemma {:induction false} AddBridge(f: Parents, edges: Edges, a: string, b: string, low: string, high: string)
    requires Represents(f, edges) && a in f && b in f && Less(low, high)
    requires (low == Root(f, a) && high == Root(f, b)) || (low == Root(f, b) && high == Root(f, a))
    ensures Represents(f[high := low], edges + {(a, b)})
  {
    var g, more := f[high := low], edges + {(a, b)};
    RootIsBelow(f, a);
    RootIsBelow(f, b);
    RedirectIsForest(f, high, low);
    BridgeLinksRoots(f, edges, more, a, b);
    BridgeLinksRoots(f, edges, more, b, a);
    forall x {:trigger Root(g, x)} | x in f
      ensures Root(g, x) == if Root(f, x) == high then low else Root(f, x)
      ensures Linked(more, x, Root(g, x))
    {
      RedirectedRoot(f, g, high, low, x);
      LinkedGrows(edges, more, x, Root(f, x));
      if Root(f, x) == high { LinkedTransitive(more, x, high, low); }
    }
  }

  // ---------------------------------------------------------------------------
  // The algorithm
  // ---------------------------------------------------------------------------

  class Partition {
    var parent: Parents

    /** Every node starts as its own root. */
    constructor (nodes: set<string>)
      ensures parent == map x | x in nodes :: x
    {
      parent := map x | x in nodes :: x;
    }

    /** Climbs to the root, then points every node on the way straight at it. */
    method Find(start: string) returns (root: string)
      requires Forest(parent) && start in parent
      modifies this
      ensures Forest(parent) && parent.Keys == old(parent.Keys)
      ensures root == Root(old(parent), start) && root in parent && Parent(parent, root) == root
      ensures forall x {:trigger Root(parent, x)} | x in parent :: Root(parent, x) == Root(old(parent), x)
    {
      root := start;
      while Parent(parent, root) != root
        invariant parent == old(parent)
        invariant root in parent && Root(parent, root) == Root(parent, start)
        decreases Rank(parent.Keys, root)
      {
        RankDecreases(parent.Keys, Parent(parent, root), root);
        RootIsBelow(parent, start);
        root := Parent(parent, root);
      }
      var a := start;
      while Parent(parent, a) != a
        invariant Forest(parent) && parent.Keys == old(parent.Keys)
        invariant a in parent && Root(parent, a) == root
        invariant forall x {:trigger Root(parent, x)} | x in parent :: Root(parent, x) == Root(old(parent), x)
        decreases Rank(parent.Keys, a)
      {
        ghost var before := parent;
        var nxt := Parent(parent, a);
        RankDecreases(parent.Keys, nxt, a);
        CompressionKeepsRoots(before, a);
        parent := parent[a := root];
        a := nxt;
      }
    }

    /** Merges the trees of a new edge's ends, the lesser root on top. */
    method Merge(left: string, right: string, ghost edges: Edges)
      requires left in parent && right in parent && Represents(parent, edges)
      modifies this
      ensures parent.Keys == old(parent.Keys) && Represents(parent, edges + {(left, right)})
    {
      var ra := Find(left);
      RootsDecide(old(parent), parent, edges);
      label second:
      var rb := Find(right);
      RootsDecide(old@second(parent), parent, edges);
      LessIsTotal(ra, rb);
      if ra == rb {
        AddInnerEdge(parent, edges, left, right);
      } else if Less(ra, rb) {
        AddBridge(parent, edges, left, right, ra, rb);
        parent := parent[rb := ra];
      } else {
        AddBridge(parent, edges, left, right, rb, ra);
        parent := parent[ra := rb];
      }
    }

    /** `Find` on a node that an edge touches answers the least member of its component. */
    method FindIn(start: string, ghost edges: Edges) returns (root: string)
      requires Represents(parent, edges) && start in Touched(edges)
      modifies this
      ensures parent.Keys == old(parent.Keys) && Represents(parent, edges)
      ensures IsLeastOf(root, start, edges)
    {
      RootIsLeast(parent, edges, start);
      root := Find(start);
      RootsDecide(old(parent), parent, edges);
    }
  }

  /** Only the roots matter to `Represents`. */
  lemma RootsDecide(f: Parents, g: Parents, edges: Edges)
    requires Represents(f, edges) && Forest(g) && f.Keys == g.Keys
    requires forall x {:trigger Root(g, x)} | x in g :: Root(g, x) == Root(f, x)
    ensures Represents(g, edges)
  {
    forall x {:trigger Root(g, x)} | x in g ensures Linked(edges, x, Root(g, x)) {
      assert Linked(edges, x, Root(f, x));
    }
  }

  /** `out` sends each committed mention that an accepted edge touches to its component's least ref. */
  ghost predicate IsCorrespondence(out: map<string, string>, committed: map<string, string>, edges: Edges) {
    && out.Keys == (set m | m in committed && committed[m] in Touched(edges))
    && forall m | m in out :: IsLeastOf(out[m], committed[m], edges)
  }

  ghost predicate IsLeastOf(least: string, ref: string, edges: Edges) {
    && Linked(edges, ref, least)
    && forall y | Linked(edges, ref, y) :: AtMost(least, y)
  }

  /** Reads the alignment ledger row by row, merging the ends of every accepted row. */
  method Connect(canonical: set<string>, rows: seq<AlignRow>)
    returns (partition: Partition, connected: set<string>)
    ensures fresh(partition) && partition.parent.Keys == canonical
    ensures Represents(partition.parent, EdgesOf(rows, canonical))
    ensures connected == Touched(EdgesOf(rows, canonical))
  {
    partition := new Partition(canonical);
    connected := {};
    StartIsRepresented(partition.parent);
    assert EdgesOf(rows[..0], canonical) == {};
    for k := 0 to |rows|
      invariant fresh(partition) && partition.parent.Keys == canonical
      invariant Represents(partition.parent, EdgesOf(rows[..k], canonical))
      invariant connected == Touched(EdgesOf(rows[..k], canonical))
    {
      ghost var edges := EdgesOf(rows[..k], canonical);
      EdgesGrow(rows, canonical, k);
      if Accepted(rows[k], canonical) {
        var left, right := rows[k].left, rows[k].right;
        partition.Merge(left, right, edges);
        connected := connected + {left, right};
        TouchedGrows(edges, left, right);
      }
    }
    assert rows[..|rows|] == rows;
  }

  method AcceptedCorrespondence(committed: map<string, string>, canonical: set<string>, rows: seq<AlignRow>)
    returns (out: map<string, string>)
    ensures IsCorrespondence(out, committed, EdgesOf(rows, canonical))
  {
    var partition, connected := Connect(canonical, rows);
    ghost var edges := EdgesOf(rows, canonical);
    out := map[];
    var todo := committed.Keys;
    while todo != {}
      invariant todo <= committed.Keys
      invariant partition.parent.Keys == canonical && Represents(partition.parent, edges)
      invariant forall m :: m in out <==> m in committed && m !in todo && committed[m] in connected
      invariant forall m | m in out :: IsLeastOf(out[m], committed[m], edges)
    {
      var m :| m in todo;
      if committed[m] in connected {
        var root := partition.FindIn(committed[m], edges);
        out := out[m := root];
      }
      todo := todo - {m};
    }
  }

  lemma StartIsRepresented(f: Parents)
    requires forall x | x in f :: f[x] == x
    ensures Represents(f, {})
  {
    forall x {:trigger Root(f, x)} | x in f ensures Linked({}, x, Root(f, x)) { LinkedReflexive({}, x); }
  }

  lemma EdgesGrow(rows: seq<AlignRow>, canonical: set<string>, k: nat)
    requires k < |rows|
    ensures EdgesOf(rows[..k + 1], canonical) ==
            if Accepted(rows[k], canonical) then EdgesOf(rows[..k], canonical) + {(rows[k].left, rows[k].right)}
            else EdgesOf(rows[..k], canonical)
  {
    assert rows[..k + 1] == rows[..k] + [rows[k]];
  }

  lemma TouchedGrows(edges: Edges, a: string, b: string)
    ensures Touched(edges + {(a, b)}) == Touched(edges) + {a, b}
  {
    var more := edges + {(a, b)};
    assert (a, b) in more;
    forall x | x in Touched(edges) + {a, b} ensures x in Touched(more) {
      if x != a && x != b {
        if e :| e in edges && e.0 == x { assert e in more; } else { var e :| e in edges && e.1 == x; assert e in more; }
      }
    }
  }

  lemma RootIsLeast(f: Parents, edges: Edges, x: string)
    requires Represents(f, edges) && x in Touched(edges)
    ensures x in f && IsLeastOf(Root(f, x), x, edges)
  {
    forall y | Linked(edges, x, y) ensures AtMost(Root(f, x), y) {
      LinkedKeepsRoot(f, edges, x, y);
      RootIsBelow(f, y);
    }
  }

  lemma SameRowsSameEdges(rows1: seq<AlignRow>, rows2: seq<AlignRow>, canonical: set<string>)
    requires (set r | r in rows1) == (set r | r in rows2)
    ensures EdgesOf(rows1, canonical) == EdgesOf(rows2, canonical)
  {
    var s1, s2 := set r | r in rows1, set r | r in rows2;
    forall r: AlignRow ensures r in rows1 <==> r in rows2 {
      assert r in rows1 <==> r in s1;
      assert r in rows2 <==> r in s2;
    }
  }

  /** The row order, repeated rows and the choices of the algorithm leave no trace in the result. */
  lemma RowOrderIsIrrelevant(committed: map<string, string>, canonical: set<string>,
                             rows1: seq<AlignRow>, rows2: seq<AlignRow>,
                             out1: map<string, string>, out2: map<string, string>)
    requires (set r | r in rows1) == (set r | r in rows2)
    requires IsCorrespondence(out1, committed, EdgesOf(rows1, canonical))
    requires IsCorrespondence(out2, committed, EdgesOf(rows2, canonical))
    ensures out1 == out2
  {
    var edges := EdgesOf(rows1, canonical);
    SameRowsSameEdges(rows1, rows2, canonical);
    assert out1.Keys == out2.Keys;
    forall m | m in out1 ensures out1[m] == out2[m] {
      assert IsLeastOf(out1[m], committed[m], edges) && IsLeastOf(out2[m], committed[m], edges);
      LessIsTotal(out1[m], out2[m]);
    }
  }

  // ---------------------------------------------------------------------------
  // In terms of the alignment rows
  // ---------------------------------------------------------------------------

  /** The row states that two different canonical refs are one: equivalent, or continued. */
  predicate Unites(r: AlignRow, canonical: set<string>, a: string, b: string) {
    && r.alignmentType in {"EQUIVALENT", "CONTINUITY"} && {a, b} <= canonical && a != b
    && ((r.left == a && r.right == b) || (r.left == b && r.right == a))
  }

  ghost predicate United(rows: seq<AlignRow>, canonical: set<string>, a: string, b: string) {
    exists r | r in rows :: Unites(r, canonical, a, b)
  }

  ghost predicate Chain(rows: seq<AlignRow>, canonical: set<string>, p: seq<string>, a: string, b: string) {
    && |p| > 0 && p[0] == a && p[|p| - 1] == b
    && forall i | 0 <= i < |p| - 1 :: United(rows, canonical, p[i], p[i + 1])
  }

  /** A chain of rows leads from one ref to the other. */
  ghost predicate SameThing(rows: seq<AlignRow>, canonical: set<string>, a: string, b: string) {
    exists p :: Chain(rows, canonical, p, a, b)
  }

  lemma JoinedIsUnited(rows: seq<AlignRow>, canonical: set<string>, a: string, b: string)
    ensures Joined(EdgesOf(rows, canonical), a, b) <==> United(rows, canonical, a, b)
  {
    var edges := EdgesOf(rows, canonical);
    if r :| r in rows && Unites(r, canonical, a, b) { assert Accepted(r, canonical) && (r.left, r.right) in edges; }
  }

  lemma WalkIsChain(rows: seq<AlignRow>, canonical: set<string>, p: seq<string>, a: string, b: string)
    ensures Walk(EdgesOf(rows, canonical), p, a, b) <==> Chain(rows, canonical, p, a, b)
  {
    var edges := EdgesOf(rows, canonical);
    forall x, y ensures Joined(edges, x, y) <==> United(rows, canonical, x, y) {
      JoinedIsUnited(rows, canonical, x, y);
    }
  }

  lemma LinkedIsSameThing(rows: seq<AlignRow>, canonical: set<string>, a: string, b: string)
    ensures Linked(EdgesOf(rows, canonical), a, b) <==> SameThing(rows, canonical, a, b)
  {
    forall p ensures Walk(EdgesOf(rows, canonical), p, a, b) <==> Chain(rows, canonical, p, a, b) {
      WalkIsChain(rows, canonical, p, a, b);
    }
  }

  lemma TouchedIsUnited(rows: seq<AlignRow>, canonical: set<string>, a: string)
    ensures a in Touched(EdgesOf(rows, canonical)) <==> exists b :: United(rows, canonical, a, b)
  {
    var edges := EdgesOf(rows, canonical);
    if a in Touched(edges) {
      var e :| e in edges && (e.0 == a || e.1 == a);
      var b := if e.0 == a then e.1 else e.0;
      JoinedIsUnited(rows, canonical, a, b);
    }
    if b :| United(rows, canonical, a, b) {
      JoinedIsUnited(rows, canonical, a, b);
    }
  }

  /**
   * A committed mention is mapped exactly when some row unites its ref with another, and then to the least ref, in
   * code-point order, that a chain of rows leads to.
   */
  lemma CorrespondenceOfRows(out: map<string, string>, committed: map<string, string>, canonical: set<string>,
                             rows: seq<AlignRow>, m: string)
    requires IsCorrespondence(out, committed, EdgesOf(rows, canonical))
    ensures m in out <==> m in committed && exists b :: United(rows, canonical, committed[m], b)
    ensures m in out ==>
              && SameThing(rows, canonical, committed[m], out[m])
              && forall y | SameThing(rows, canonical, committed[m], y) :: y == out[m] || Less(out[m], y)
  {
    if m in committed { TouchedIsUnited(rows, canonical, committed[m]); }
    if m in out {
      LinkedIsSameThing(rows, canonical, committed[m], out[m]);
      forall y | SameThing(rows, canonical, committed[m], y) ensures y == out[m] || Less(out[m], y) {
        LinkedIsSameThing(rows, canonical, committed[m], y);
      }
    }
  }
}
