/** Stage manifests and the canonical material their idempotency keys digest. */
module Manifests {
  import opened Wrappers
  import opened Text
  import opened Lineage

  datatype StageManifest = StageManifest(
    jobId: string, stageName: string, sourceId: Option<string>, segmentId: Option<string>,
    dagUniverse: string, evidenceRefs: seq<string>, inputManifest: map<string, string>,
    schemaVersion: int, toolVersions: map<string, string>, configDigest: Option<string>)

  /** The serialized form; absent keys are `None`. */
  datatype ManifestDict = ManifestDict(
    jobId: string, stageName: string, sourceId: Option<string>, segmentId: Option<string>,
    dagUniverse: Option<string>, evidenceRefs: Option<seq<string>>, inputManifest: Option<map<string, string>>,
    schemaVersion: Option<int>, toolVersions: Option<map<string, string>>, configDigest: Option<string>)

  const BASE_UNIVERSE := "v1-dag:base"

  function OrEmpty(s: Option<string>): string { if s.Some? then s.value else "" }

  /** The constructor: an unknown stage is refused, absent or empty fields get their defaults. */
  function Constructed(d: ManifestDict): Result<StageManifest, string> {
    if d.stageName !in STAGE_ORDER then Failure(d.stageName)
    else Success(StageManifest(
      d.jobId, d.stageName, d.sourceId, d.segmentId,
      if d.dagUniverse.Some? && d.dagUniverse.value != "" then d.dagUniverse.value else BASE_UNIVERSE,
      if d.evidenceRefs.Some? then d.evidenceRefs.value else [],
      if d.inputManifest.Some? then d.inputManifest.value else map[],
      if d.schemaVersion.Some? then d.schemaVersion.value else 1,
      if d.toolVersions.Some? then d.toolVersions.value else map[],
      d.configDigest))
  }

  function ToDict(m: StageManifest): ManifestDict {
    ManifestDict(m.jobId, m.stageName, m.sourceId, m.segmentId, Some(m.dagUniverse), Some(Sort(m.evidenceRefs)),
                 Some(m.inputManifest), Some(m.schemaVersion), Some(m.toolVersions), m.configDigest)
  }

  function FromDict(d: ManifestDict): Result<StageManifest, string> { Constructed(d) }

  /** The manifests a constructor can build. */
  predicate WellFormed(m: StageManifest) { m.stageName in STAGE_ORDER && m.dagUniverse != "" }

  /** A manifest can be made for the pipeline's stages only; what is absent or empty gets its default. */
  lemma ConstructedExactlyWhen(d: ManifestDict)
    ensures Constructed(d).Success? <==> d.stageName in STAGE_ORDER
    ensures Constructed(d).Success? ==>
              var m := Constructed(d).value;
              && m.jobId == d.jobId && m.stageName == d.stageName && m.sourceId == d.sourceId
              && m.segmentId == d.segmentId && m.configDigest == d.configDigest
              && Some(m.dagUniverse) ==
                 (if d.dagUniverse in {None, Some("")} then Some("v1-dag:base") else d.dagUniverse)
              && Some(m.evidenceRefs) == (if d.evidenceRefs == None then Some([]) else d.evidenceRefs)
              && Some(m.inputManifest) == (if d.inputManifest == None then Some(map[]) else d.inputManifest)
              && Some(m.schemaVersion) == (if d.schemaVersion == None then Some(1) else d.schemaVersion)
              && Some(m.toolVersions) == (if d.toolVersions == None then Some(map[]) else d.toolVersions)
  {}

  // ---------------------------------------------------------------------------
  // Material
  // ---------------------------------------------------------------------------

  /** ASCII unit separator. */
  const SEP: char := '\U{1F}'

  /** The stable serializers the material is built with, and readers that undo them. */
  datatype Encoding = Encoding(
    list: seq<string> -> string, dict: map<string, string> -> string, number: int -> string,
    readList: string -> seq<string>, readDict: string -> map<string, string>, readNumber: string -> int)

  /** What is serialized can be read back, and control characters come out escaped. */
  ghost predicate Stable(enc: Encoding) {
    && (forall a {:trigger enc.list(a)} :: enc.readList(enc.list(a)) == a)
    && (forall a {:trigger enc.dict(a)} :: enc.readDict(enc.dict(a)) == a)
    && (forall a {:trigger enc.number(a)} :: enc.readNumber(enc.number(a)) == a)
    && (forall a :: SEP !in enc.list(a)) && (forall a :: SEP !in enc.dict(a)) && (forall a :: SEP !in enc.number(a))
  }

  function Parts(enc: Encoding, m: StageManifest): seq<string> {
    ["umd/stage-manifest",
     "v=" + m.dagUniverse,
     "stage=" + m.stageName,
     "source=" + OrEmpty(m.sourceId),
     "segment=" + OrEmpty(m.segmentId),
     "evidence=" + enc.list(Sort(m.evidenceRefs)),
     "input=" + enc.dict(m.inputManifest),
     "schema=" + enc.number(m.schemaVersion),
     "tools=" + enc.dict(m.toolVersions),
     "config=" + OrEmpty(m.configDigest)]
  }

  function Joined(parts: seq<string>): string {
    if parts == [] then ""
    else if |parts| == 1 then parts[0]
    else parts[0] + [SEP] + Joined(parts[1..])
  }

  function Material(enc: Encoding, m: StageManifest): string { Joined(Parts(enc, m)) }

  /** No free-text field contains the separator. */
  predicate Plain(m: StageManifest) {
    && SEP !in m.dagUniverse && SEP !in m.stageName && SEP !in OrEmpty(m.sourceId)
    && SEP !in OrEmpty(m.segmentId) && SEP !in OrEmpty(m.configDigest)
  }

  /** An absent text and an empty one are the same. */
  predicate SameText(a: Option<string>, b: Option<string>) {
    a == b || (a in {None, Some("")} && b in {None, Some("")})
  }

  /** The inputs that give a stage run its meaning: the job is not one of them, nor the order of the evidence. */
  ghost predicate SameInputs(a: StageManifest, b: StageManifest) {
    && a.dagUniverse == b.dagUniverse && a.stageName == b.stageName
    && SameText(a.sourceId, b.sourceId) && SameText(a.segmentId, b.segmentId)
    && multiset(a.evidenceRefs) == multiset(b.evidenceRefs)
    && a.inputManifest == b.inputManifest && a.schemaVersion == b.schemaVersion
    && a.toolVersions == b.toolVersions && SameText(a.configDigest, b.configDigest)
  }

  lemma StartsWithItself(a: string, rest: string)
    ensures forall i | 0 <= i < |a| :: (a + rest)[i] == a[i] && (a + rest)[i] in a
  {}

  /** A separator can be found again: the text before its first occurrence is determined. */
  lemma {:induction false} SplitIsUnique(a: string, x: string, b: string, y: string)
    requires SEP !in a && SEP !in b && a + [SEP] + x == b + [SEP] + y
    ensures a == b && x == y
  {
    var s, t := a + [SEP] + x, b + [SEP] + y;
    assert s[|a|] == SEP && t[|b|] == SEP;
    StartsWithItself(a, [SEP] + x);
    StartsWithItself(b, [SEP] + y);
    assert s == a + ([SEP] + x) && t == b + ([SEP] + y);
    assert |a| == |b|;
    assert a == s[..|a|] && b == t[..|b|];
    assert x == s[|a| + 1..] && y == t[|b| + 1..];
  }

  lemma {:induction false} JoinIsInjective(p: seq<string>, q: seq<string>)
    requires |p| == |q| && Joined(p) == Joined(q)
    requires forall i | 0 <= i < |p| :: SEP !in p[i] && SEP !in q[i]
    ensures p == q
  {
    if |p| == 1 {
      assert p == [p[0]] && q == [q[0]];
    } else if |p| > 1 {
      SplitIsUnique(p[0], Joined(p[1..]), q[0], Joined(q[1..]));
      JoinIsInjective(p[1..], q[1..]);
      assert p == [p[0]] + p[1..] && q == [q[0]] + q[1..];
    }
  }

  lemma PrefixIsInjective(prefix: string, a: string, b: string)
    ensures prefix + a == prefix + b <==> a == b
  {
    assert (prefix + a)[|prefix|..] == a && (prefix + b)[|prefix|..] == b;
  }

  lemma PartsAreSeparable(enc: Encoding, m: StageManifest)
    requires Stable(enc) && Plain(m)
    ensures forall i | 0 <= i < |Parts(enc, m)| :: SEP !in Parts(enc, m)[i]
  {
    var p := Parts(enc, m);
    assert SEP !in enc.list(Sort(m.evidenceRefs)) && SEP !in enc.dict(m.inputManifest);
    assert SEP !in enc.number(m.schemaVersion) && SEP !in enc.dict(m.toolVersions);
    assert |p| == 10;
  }

  lemma PartsDecideInputs(enc: Encoding, a: StageManifest, b: StageManifest)
    requires Stable(enc)
    ensures Parts(enc, a) == Parts(enc, b) <==> SameInputs(a, b)
  {
    var p, q := Parts(enc, a), Parts(enc, b);
    PrefixIsInjective("v=", a.dagUniverse, b.dagUniverse);
    PrefixIsInjective("stage=", a.stageName, b.stageName);
    PrefixIsInjective("source=", OrEmpty(a.sourceId), OrEmpty(b.sourceId));
    PrefixIsInjective("segment=", OrEmpty(a.segmentId), OrEmpty(b.segmentId));
    PrefixIsInjective("evidence=", enc.list(Sort(a.evidenceRefs)), enc.list(Sort(b.evidenceRefs)));
    PrefixIsInjective("input=", enc.dict(a.inputManifest), enc.dict(b.inputManifest));
    PrefixIsInjective("schema=", enc.number(a.schemaVersion), enc.number(b.schemaVersion));
    PrefixIsInjective("tools=", enc.dict(a.toolVersions), enc.dict(b.toolVersions));
    PrefixIsInjective("config=", OrEmpty(a.configDigest), OrEmpty(b.configDigest));
    SortForgetsOrder(a.evidenceRefs, b.evidenceRefs);
    if p == q {
      assert p[1] == q[1] && p[2] == q[2] && p[3] == q[3] && p[4] == q[4] && p[5] == q[5];
      assert p[6] == q[6] && p[7] == q[7] && p[8] == q[8] && p[9] == q[9];
    }
  }

  /** Two manifests share their key material exactly when they share their inputs. */
  lemma MaterialDecidesInputs(enc: Encoding, a: StageManifest, b: StageManifest)
    requires Stable(enc) && Plain(a) && Plain(b)
    ensures Material(enc, a) == Material(enc, b) <==> SameInputs(a, b)
  {
    PartsDecideInputs(enc, a, b);
    PartsAreSeparable(enc, a);
    PartsAreSeparable(enc, b);
    if Material(enc, a) == Material(enc, b) { JoinIsInjective(Parts(enc, a), Parts(enc, b)); }
  }

  /** Crossing a process boundary sorts the evidence, keeps everything else, and keeps the key. */
  lemma SerializationKeepsMaterial(enc: Encoding, m: StageManifest)
    requires WellFormed(m)
    ensures FromDict(ToDict(m)) == Success(m.(evidenceRefs := Sort(m.evidenceRefs)))
    ensures Material(enc, m.(evidenceRefs := Sort(m.evidenceRefs))) == Material(enc, m)
    ensures ToDict(m.(evidenceRefs := Sort(m.evidenceRefs))) == ToDict(m)
  {
    SortSorts(m.evidenceRefs);
    SortForgetsOrder(Sort(m.evidenceRefs), m.evidenceRefs);
  }
}
