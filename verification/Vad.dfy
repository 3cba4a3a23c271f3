/** Energy-based voice activity detection: from frame energies to speech segments. Times and energies are reals. */
module Vad {
  import opened Wrappers
  import opened Sequences

  const SILENCE_MARGIN: real := 2.5
  const MIN_SPEECH_S: real := 0.05
  const HANGOVER_S: real := 0.04
  const GAP: real := 0.000001

  datatype SpeechSegment = SpeechSegment(startS: real, endS: real, meanEnergy: real, peakEnergy: real)

  datatype VadResult = VadResult(segments: seq<SpeechSegment>, totalSpeechS: real, noSpeechRatio: real)

  function Max(a: real, b: real): real { if a >= b then a else b }

  // ---------------------------------------------------------------------------
  // Threshold
  // ---------------------------------------------------------------------------

  predicate NoGreater(x: real, y: real) { x <= y }

  function SortedReals(s: seq<real>): seq<real> { SortedBy(NoGreater, s) }

  /** The noise floor, a low percentile, times a margin. */
  function AdaptiveThreshold(rms: seq<real>): real {
    if rms == [] then 0.0
    else
      var k := (|rms| as real * 0.1).Floor;
      Max(SortedReals(rms)[if k < |rms| then k else |rms| - 1] * SILENCE_MARGIN, 0.0001)
  }

  // ---------------------------------------------------------------------------
  // The mask
  // ---------------------------------------------------------------------------

  /** Frame `i` is speech: some frame among the last `hangover` and itself reaches the threshold. */
  ghost predicate Heard(rms: seq<real>, threshold: real, hangover: nat, i: nat) {
    exists j: nat | j <= i && j < |rms| :: i - j <= hangover && rms[j] >= threshold
  }

  method SpeechMask(rms: seq<real>, threshold: real, hangover: nat) returns (mask: seq<bool>)
    ensures |mask| == |rms|
    ensures forall i: nat | i < |rms| :: mask[i] <==> Heard(rms, threshold, hangover, i)
  {
    mask := [];
    var active, lastSpeech := false, -1;
    for i := 0 to |rms|
      invariant |mask| == i
      invariant -1 <= lastSpeech < i && (lastSpeech >= 0 ==> rms[lastSpeech] >= threshold)
      invariant forall j | lastSpeech < j < i :: rms[j] < threshold
      invariant active <==> lastSpeech >= 0 && i - 1 - lastSpeech <= hangover
      invariant forall k: nat | k < i :: mask[k] <==> Heard(rms, threshold, hangover, k)
    {
      if rms[i] >= threshold {
        lastSpeech := i;
        active := true;
      } else if active && i - lastSpeech <= hangover {
        active := true;
      } else {
        active := false;
      }
      if active { assert rms[lastSpeech] >= threshold; }
      mask := mask + [active];
    }
  }

  // ---------------------------------------------------------------------------
  // Segments
  // ---------------------------------------------------------------------------

  /** Frames `a` to `b`, end excluded. */
  datatype Span = Span(a: nat, b: nat)

  /** A maximal run of speech frames. */
  ghost predicate MaximalRun(mask: seq<bool>, s: Span) {
    && s.a < s.b <= |mask|
    && (forall i | s.a <= i < s.b :: mask[i])
    && (s.a > 0 ==> !mask[s.a - 1]) && (s.b < |mask| ==> !mask[s.b])
  }

  predicate LongEnough(s: Span, frameS: real) { (s.b - s.a) as real * frameS >= MIN_SPEECH_S }

  function Sum(s: seq<real>): real { if s == [] then 0.0 else Sum(s[..|s| - 1]) + s[|s| - 1] }

  function Peak(s: seq<real>): (r: real)
    requires s != []
    ensures r in s && forall x | x in s :: x <= r
  {
    var last := s[|s| - 1];
    assert s == s[..|s| - 1] + [last];
    if |s| == 1 then last else Max(Peak(s[..|s| - 1]), last)
  }

  function TimeOf(frame: nat, frameS: real): real { frame as real * frameS }

  function SegmentFrom(rms: seq<real>, s: Span, frameS: real): SpeechSegment {
    var window := if s.a < s.b <= |rms| then rms[s.a..s.b] else [0.0];
    SpeechSegment(TimeOf(s.a, frameS), TimeOf(s.b, frameS), Sum(window) / |window| as real, Peak(window))
  }

  function SegmentsFrom(rms: seq<real>, spans: seq<Span>, frameS: real): seq<SpeechSegment> {
    seq(|spans|, i requires 0 <= i < |spans| => SegmentFrom(rms, spans[i], frameS))
  }

  /** The spans are exactly the long maximal runs of the mask, in order. */
  ghost predicate LongRuns(mask: seq<bool>, frameS: real, spans: seq<Span>) {
    && (forall s :: s in spans <==> MaximalRun(mask, s) && LongEnough(s, frameS))
    && forall i, j | 0 <= i < j < |spans| :: spans[i].b < spans[j].a
  }

  /** The long runs ending before frame `i`. */
  ghost predicate LongRunsBefore(mask: seq<bool>, frameS: real, spans: seq<Span>, i: nat) {
    && (forall s :: s in spans <==> MaximalRun(mask, s) && s.b < i && LongEnough(s, frameS))
    && forall j, k | 0 <= j < k < |spans| :: spans[j].b < spans[k].a
  }

  /** Before frame `i` a run is open since `start`, or none is and `start` is negative. */
  ghost predicate OpenSince(mask: seq<bool>, start: int, i: nat)
    requires i <= |mask|
  {
    && start < i
    && if start < 0 then i == 0 || !mask[i - 1]
       else (start > 0 ==> !mask[start - 1]) && forall j | start <= j < i :: mask[j]
  }

  /** Passing a frame that ends no run. */
  lemma NoRunCloses(mask: seq<bool>, frameS: real, spans: seq<Span>, i: nat)
    requires i < |mask| && (mask[i] || i == 0 || !mask[i - 1]) && LongRunsBefore(mask, frameS, spans, i)
    ensures LongRunsBefore(mask, frameS, spans, i + 1)
  {
    forall r | MaximalRun(mask, r) && r.b < i + 1 ensures r.b < i {
      assert mask[r.b - 1];
    }
  }

  /** The segments are those of exactly the long maximal runs, in order. */
  ghost predicate Segmentation(rms: seq<real>, mask: seq<bool>, frameS: real, segments: seq<SpeechSegment>) {
    exists spans :: LongRuns(mask, frameS, spans) && segments == SegmentsFrom(rms, spans, frameS)
  }

  method Segments(rms: seq<real>, mask: seq<bool>, frameS: real) returns (segments: seq<SpeechSegment>)
    requires |mask| == |rms|
    ensures Segmentation(rms, mask, frameS, segments)
  {
    segments := [];
    ghost var spans: seq<Span> := [];
    // The first frame of the open run; -1 outside a run.
    var start := -1;
    for i := 0 to |mask|
      invariant OpenSince(mask, start, i) && LongRunsBefore(mask, frameS, spans, i)
      invariant segments == SegmentsFrom(rms, spans, frameS)
    {
      if mask[i] && start < 0 {
        NoRunCloses(mask, frameS, spans, i);
        start := i;
      } else if !mask[i] && start >= 0 {
        segments, spans := CloseRun(rms, mask, frameS, Span(start, i), segments, spans);
        start := -1;
      } else {
        NoRunCloses(mask, frameS, spans, i);
      }
    }
    if start >= 0 {
      segments, spans := CloseRun(rms, mask, frameS, Span(start, |mask|), segments, spans);
    } else {
    }
  }

  /** A run that has ended becomes a segment if it is long enough. */
  method CloseRun(rms: seq<real>, ghost mask: seq<bool>, frameS: real, span: Span, before: seq<SpeechSegment>,
                  ghost spansBefore: seq<Span>)
    returns (segments: seq<SpeechSegment>, ghost spans: seq<Span>)
    requires MaximalRun(mask, span) && LongRunsBefore(mask, frameS, spansBefore, span.b)
    requires before == SegmentsFrom(rms, spansBefore, frameS)
    ensures LongRunsBefore(mask, frameS, spans, span.b + 1) && segments == SegmentsFrom(rms, spans, frameS)
  {
    if LongEnough(span, frameS) {
      segments, spans := before + [SegmentFrom(rms, span, frameS)], spansBefore + [span];
    } else {
      segments, spans := before, spansBefore;
    }
  }

  // ---------------------------------------------------------------------------
  // Merging
  // ---------------------------------------------------------------------------

  /** Order by start, then end. */
  predicate Before(x: SpeechSegment, y: SpeechSegment) {
    x.startS < y.startS || (x.startS == y.startS && x.endS <= y.endS)
  }

  function SortedSegments(s: seq<SpeechSegment>): seq<SpeechSegment> { SortedBy(Before, s) }

  /** The next segment widens the last one, or follows it. */
  function Joined(out: seq<SpeechSegment>, seg: SpeechSegment): seq<SpeechSegment> {
    if out == [] then [seg]
    else
      var prev := out[|out| - 1];
      if seg.startS <= prev.endS + GAP then
        out[..|out| - 1] + [SpeechSegment(prev.startS, Max(prev.endS, seg.endS),
                                          (prev.meanEnergy + seg.meanEnergy) / 2.0,
                                          Max(prev.peakEnergy, seg.peakEnergy))]
      else out + [seg]
  }

  function Merged(s: seq<SpeechSegment>): seq<SpeechSegment> {
    if s == [] then [] else Joined(Merged(s[..|s| - 1]), s[|s| - 1])
  }

  class SegmentList {
    var items: seq<SpeechSegment>

    constructor (items: seq<SpeechSegment>)
      ensures this.items == items
    {
      this.items := items;
    }

    method MergeOverlaps()
      modifies this
      ensures items == Merged(SortedSegments(old(items)))
    {
      items := SortedSegments(items);
      items := MergeSorted(items);
    }
  }

  method MergeSorted(segments: seq<SpeechSegment>) returns (merged: seq<SpeechSegment>)
    ensures merged == Merged(segments)
  {
    if segments == [] { return []; }
    merged := [segments[0]];
    var i := 1;
    MergedOneMore(segments, 0);
    while i < |segments|
      invariant 1 <= i <= |segments| && merged != [] && merged == Merged(segments[..i])
    {
      MergedOneMore(segments, i);
      merged := MergeNext(merged, segments[i]);
      i := i + 1;
    }
    assert segments[..i] == segments;
  }

  /** One segment more: widen the last one, or follow it. */
  method MergeNext(out: seq<SpeechSegment>, seg: SpeechSegment) returns (now: seq<SpeechSegment>)
    requires out != []
    ensures now == Joined(out, seg)
  {
    var prev := out[|out| - 1];
    if seg.startS <= prev.endS + GAP {
      prev := prev.(endS := Max(prev.endS, seg.endS));
      prev := prev.(peakEnergy := Max(prev.peakEnergy, seg.peakEnergy));
      prev := prev.(meanEnergy := (prev.meanEnergy + seg.meanEnergy) / 2.0);
      now := out[..|out| - 1] + [prev];
    } else {
      now := out + [seg];
    }
  }

  lemma MergedOneMore(s: seq<SpeechSegment>, i: nat)
    requires i < |s|
    ensures Merged(s[..i + 1]) == Joined(Merged(s[..i]), s[i])
  {
    assert s[..i + 1][..i] == s[..i];
  }

  /** More than the gap apart, pairwise. */
  ghost predicate Separated(s: seq<SpeechSegment>) {
    forall i, j | 0 <= i < j < |s| :: s[i].endS + GAP < s[j].startS && s[i].startS <= s[j].startS
  }

  /** Every instant of `x`, and its peak, is inside `y`. */
  predicate Inside(x: SpeechSegment, y: SpeechSegment) {
    y.startS <= x.startS && x.endS <= y.endS && x.peakEnergy <= y.peakEnergy
  }

  ghost predicate Holds(out: seq<SpeechSegment>, x: SpeechSegment) { exists y | y in out :: Inside(x, y) }

  /** The instant lies in a segment or at most the gap before one. */
  ghost predicate Near(s: seq<SpeechSegment>, t: real) { exists x | x in s :: x.startS - GAP <= t <= x.endS }

  /** The segment covers no instant away from `s`, and its peak is one of `s`. */
  ghost predicate Made(s: seq<SpeechSegment>, y: SpeechSegment) {
    && (forall t: real | y.startS <= t <= y.endS :: Near(s, t))
    && (exists x | x in s :: x.peakEnergy == y.peakEnergy)
    && (exists x | x in s :: x.startS == y.startS)
  }

  lemma JoinKeepsHeld(out: seq<SpeechSegment>, seg: SpeechSegment, x: SpeechSegment)
    requires out != [] ==> out[|out| - 1].startS <= seg.startS
    requires x == seg || Holds(out, x)
    ensures Holds(Joined(out, seg), x)
  {
    var now := Joined(out, seg);
    var last := now[|now| - 1];
    assert last in now;
    if out != [] { assert out == out[..|out| - 1] + [out[|out| - 1]]; }
    if x == seg {
      assert Inside(x, last);
    } else {
      var y :| y in out && Inside(x, y);
      if y !in now { assert y == out[|out| - 1] && Inside(x, last); }
    }
  }

  lemma JoinIsMade(s: seq<SpeechSegment>, out: seq<SpeechSegment>, seg: SpeechSegment)
    requires forall y | y in out :: Made(s, y)
    ensures forall y | y in Joined(out, seg) :: Made(s + [seg], y)
  {
    var now, more := Joined(out, seg), s + [seg];
    assert seg in more && forall x | x in s :: x in more;
    forall y | y in now ensures Made(more, y) {
      if y in out {
        MadeOfMore(s, seg, y);
      } else {
        if out != [] { assert out[|out| - 1] in out && Made(s, out[|out| - 1]); }
        forall t: real | y.startS <= t <= y.endS ensures Near(more, t) {
          if y != seg && t <= out[|out| - 1].endS { assert Near(s, t); }
        }
      }
    }
  }

  lemma MadeOfMore(s: seq<SpeechSegment>, seg: SpeechSegment, y: SpeechSegment)
    requires Made(s, y)
    ensures Made(s + [seg], y)
  {
    assert forall x | x in s :: x in s + [seg];
    forall t: real | y.startS <= t <= y.endS ensures Near(s + [seg], t) { assert Near(s, t); }
  }

  /** Merging in time order leaves segments apart. */
  lemma {:induction false} MergedIsSeparated(s: seq<SpeechSegment>)
    requires InOrder(Before, s)
    ensures Separated(Merged(s))
    ensures s != [] ==> Merged(s) != [] && Merged(s)[|Merged(s)| - 1].startS <= s[|s| - 1].startS
  {
    if s != [] {
      var init := s[..|s| - 1];
      MergedIsSeparated(init);
      assert init != [] ==> Before(init[|init| - 1], s[|s| - 1]);
      JoinIsSeparated(Merged(init), s[|s| - 1]);
    }
  }

  lemma JoinIsSeparated(out: seq<SpeechSegment>, seg: SpeechSegment)
    requires Separated(out) && (out != [] ==> out[|out| - 1].startS <= seg.startS)
    ensures Separated(Joined(out, seg))
    ensures Joined(out, seg) != [] && Joined(out, seg)[|Joined(out, seg)| - 1].startS <= seg.startS
  {
    var now := Joined(out, seg);
    forall i, j | 0 <= i < j < |now| ensures now[i].endS + GAP < now[j].startS && now[i].startS <= now[j].startS {
      assert now[i] == out[i];
      if j < |out| { assert now[j].startS == out[j].startS; }
    }
  }

  /** Nothing is lost. */
  lemma {:induction false} MergedHolds(s: seq<SpeechSegment>, x: SpeechSegment)
    requires InOrder(Before, s) && x in s
    ensures Holds(Merged(s), x)
  {
    Snoc(s);
    LastMergedStartsFirst(s);
    if x in s[..|s| - 1] { MergedHolds(s[..|s| - 1], x); }
    JoinKeepsHeld(Merged(s[..|s| - 1]), s[|s| - 1], x);
  }

  lemma LastMergedStartsFirst(s: seq<SpeechSegment>)
    requires InOrder(Before, s) && s != []
    ensures var out := Merged(s[..|s| - 1]); out != [] ==> out[|out| - 1].startS <= s[|s| - 1].startS
  {
    var init := s[..|s| - 1];
    MergedIsSeparated(init);
    assert init != [] ==> Before(init[|init| - 1], s[|s| - 1]);
  }

  /** Nothing is invented. */
  lemma {:induction false} MergedIsMade(s: seq<SpeechSegment>)
    ensures forall y | y in Merged(s) :: Made(s, y)
  {
    if s != [] {
      Snoc(s);
      MergedIsMade(s[..|s| - 1]);
      JoinIsMade(s[..|s| - 1], Merged(s[..|s| - 1]), s[|s| - 1]);
    }
  }

  /** Apart and in order; holding every input segment; covering nothing but the input and the gaps before it. */
  ghost predicate CleanedUp(segments: seq<SpeechSegment>, out: seq<SpeechSegment>) {
    && Separated(out)
    && (forall x | x in segments :: Holds(out, x))
    && (forall y | y in out :: Made(segments, y))
  }

  lemma MergedIsClean(s: seq<SpeechSegment>)
    requires InOrder(Before, s)
    ensures CleanedUp(s, Merged(s))
  {
    MergedIsSeparated(s);
    forall x | x in s ensures Holds(Merged(s), x) { MergedHolds(s, x); }
    MergedIsMade(s);
  }

  /** Sorting orders by start, and by end among equal starts. */
  lemma SortsByTimes(s: seq<SpeechSegment>, i: nat, j: nat)
    requires i < j < |s|
    ensures var x, y := SortedSegments(s)[i], SortedSegments(s)[j];
            x.startS < y.startS || (x.startS == y.startS && x.endS <= y.endS)
    ensures multiset(SortedSegments(s)) == multiset(s)
  {
    Sorts(Before, s);
  }

  lemma CleanForSame(s: seq<SpeechSegment>, r: seq<SpeechSegment>, out: seq<SpeechSegment>)
    requires CleanedUp(s, out) && forall x :: x in s <==> x in r
    ensures CleanedUp(r, out)
  {
    forall y | y in out ensures Made(r, y) { MadeFromSame(s, r, y); }
  }

  /** Merging cleans up any list. */
  lemma MergingCleansUp(segments: seq<SpeechSegment>)
    ensures CleanedUp(segments, Merged(SortedSegments(segments)))
  {
    var s := SortedSegments(segments);
    Sorts(Before, segments);
    MergedIsClean(s);
    CleanForSame(s, segments, Merged(s));
  }

  lemma MadeFromSame(s: seq<SpeechSegment>, r: seq<SpeechSegment>, y: SpeechSegment)
    requires Made(s, y) && forall x :: x in s <==> x in r
    ensures Made(r, y)
  {
    forall t: real | y.startS <= t <= y.endS ensures Near(r, t) {
      assert Near(s, t);
      var x :| x in s && x.startS - GAP <= t <= x.endS;
      assert x in r;
    }
  }

  lemma {:induction false} MergedIsIdentity(s: seq<SpeechSegment>)
    requires InOrder(Before, s)
    ensures |Merged(s)| <= |s|
    ensures Merged(s) == s <==> Separated(s)
  {
    MergedIsSeparated(s);
    if s != [] {
      Snoc(s);
      MergedIsIdentity(s[..|s| - 1]);
    }
  }

  /** Merging changes a sorted list exactly when some neighbours are within the gap. */
  lemma MergingIsIdentityExactlyWhen(s: seq<SpeechSegment>)
    requires InOrder(Before, s)
    ensures Merged(SortedSegments(s)) == s <==> Separated(s)
  {
    AlreadySorted(Before, s);
    MergedIsIdentity(s);
  }

  // ---------------------------------------------------------------------------
  // Detection
  // ---------------------------------------------------------------------------

  /** A negative frame length makes no run long enough. */
  lemma SpansAreInOrder(mask: seq<bool>, rms: seq<real>, spans: seq<Span>, frameS: real)
    requires LongRuns(mask, frameS, spans)
    ensures InOrder(Before, SegmentsFrom(rms, spans, frameS))
    ensures frameS > GAP ==> Separated(SegmentsFrom(rms, spans, frameS))
  {
    var segments := SegmentsFrom(rms, spans, frameS);
    forall i, j | 0 <= i < j < |segments|
      ensures segments[i].startS < segments[j].startS
      ensures frameS > GAP ==> segments[i].endS + GAP < segments[j].startS
    {
      assert spans[i] in spans && MaximalRun(mask, spans[i]) && LongEnough(spans[i], frameS);
      LongMeansPositive(spans[i], frameS);
      FramesApart(spans[i].b, spans[j].a, frameS);
      FramesApart(spans[i].a, spans[j].a, frameS);
    }
  }

  lemma LongMeansPositive(s: Span, frameS: real)
    requires s.a < s.b && LongEnough(s, frameS)
    ensures frameS > 0.0
  {
    var frames := (s.b - s.a) as real;
    assert frames > 0.0;
    assert frameS <= 0.0 ==> frames * frameS <= 0.0;
  }

  lemma FramesApart(m: nat, n: nat, frameS: real)
    requires m < n && frameS > 0.0
    ensures TimeOf(m, frameS) + frameS <= TimeOf(n, frameS)
  {
    var d := n as real - m as real;
    assert d >= 1.0;
    assert d * frameS >= frameS;
    assert d * frameS == n as real * frameS - m as real * frameS;
  }

  /** The nearest integer, the even one of two. */
  function RoundHalfEven(x: real): (n: int)
    ensures -0.5 <= x - n as real <= 0.5
    ensures x - n as real == 0.5 || n as real - x == 0.5 ==> n % 2 == 0
  {
    var low := x.Floor;
    var rest := x - low as real;
    if rest < 0.5 || (rest == 0.5 && low % 2 == 0) then low else low + 1
  }

  function HangoverFrames(frameS: real): (frames: nat)
    requires frameS != 0.0
    ensures frames >= 1 && frames as real >= 0.04 / frameS - 0.5
    ensures frames == 1 || frames as real <= 0.04 / frameS + 0.5
  {
    var h := RoundHalfEven(HANGOVER_S / frameS);
    if h >= 1 then h else 1
  }

  function Duration(s: SpeechSegment): real { Max(0.0, s.endS - s.startS) }

  function TotalDuration(s: seq<SpeechSegment>): real {
    if s == [] then 0.0 else TotalDuration(s[..|s| - 1]) + Duration(s[|s| - 1])
  }

  function NoSpeechRatio(durationS: real, total: real): real {
    if durationS > 0.0 then Max(0.0, durationS - total) / durationS else 1.0
  }

  datatype VadError = DivisionByZero

  /**
   * The segments are the long maximal runs of heard frames, merged; merging changes nothing exactly when they are
   * more than the gap apart, as they are for every frame longer than the gap.
   */
  method DetectSpeech(rms: seq<real>, durationS: real, frameS: real)
    returns (r: Result<VadResult, VadError>, ghost mask: seq<bool>, ghost spans: seq<Span>)
    ensures rms == [] ==> r == Success(VadResult([], 0.0, 0.0))
    ensures rms != [] ==> (r.Failure? <==> frameS == 0.0)
    ensures rms != [] && frameS != 0.0 ==>
              && |mask| == |rms| && LongRuns(mask, frameS, spans)
              && (forall i: nat | i < |rms| ::
                    mask[i] <==> Heard(rms, AdaptiveThreshold(rms), HangoverFrames(frameS), i))
              && var found := SegmentsFrom(rms, spans, frameS);
                 && r.value.segments == Merged(SortedSegments(found))
                 && (r.value.segments == found <==> Separated(found))
                 && (frameS > GAP ==> r.value.segments == found)
                 && r.value.totalSpeechS == TotalDuration(r.value.segments)
                 && r.value.noSpeechRatio == NoSpeechRatio(durationS, r.value.totalSpeechS)
                 && FindsLoudRuns(rms, frameS, r.value.segments)
                 && (forall x | x in r.value.segments :: x.endS - x.startS >= 0.05)
  {
    mask, spans := [], [];
    if rms == [] { return Success(VadResult([], 0.0, 0.0)), mask, spans; }
    if frameS == 0.0 { return Failure(DivisionByZero), mask, spans; }
    var on := SpeechMask(rms, AdaptiveThreshold(rms), HangoverFrames(frameS));
    mask := on;
    var found := Segments(rms, on, frameS);
    spans :| LongRuns(mask, frameS, spans) && found == SegmentsFrom(rms, spans, frameS);
    var list := new SegmentList(found);
    list.MergeOverlaps();
    SpansAreInOrder(mask, rms, spans, frameS);
    MergingIsIdentityExactlyWhen(found);
    QuietFramesBoundTheThreshold(rms);
    LoudRunsAreFound(rms, AdaptiveThreshold(rms), mask, HangoverFrames(frameS), frameS, spans);
    SegmentsLast(mask, rms, spans, frameS);
    var total := TotalDuration(list.items);
    r := Success(VadResult(list.items, total, NoSpeechRatio(durationS, total)));
  }

  // ---------------------------------------------------------------------------
  // The noise floor and what is louder
  // ---------------------------------------------------------------------------

  /** How many frames satisfy the predicate. */
  function Count(s: seq<real>, p: real -> bool): nat {
    if s == [] then 0 else Count(s[..|s| - 1], p) + if p(s[|s| - 1]) then 1 else 0
  }

  function Below(y: real): real -> bool { x => x < y }

  function UpTo(y: real): real -> bool { x => x <= y }

  lemma {:induction false} CountOfInserted(s: seq<real>, x: real, p: real -> bool)
    ensures Count(Inserted(NoGreater, s, x), p) == Count(s, p) + if p(x) then 1 else 0
  {
    if s == [] || NoGreater(s[|s| - 1], x) {
      assert (s + [x])[..|s|] == s;
    } else {
      var init, last := s[..|s| - 1], s[|s| - 1];
      CountOfInserted(init, x, p);
      assert (Inserted(NoGreater, init, x) + [last])[..|s|] == Inserted(NoGreater, init, x);
    }
  }

  lemma {:induction false} CountOfSorted(s: seq<real>, p: real -> bool)
    ensures Count(SortedReals(s), p) == Count(s, p)
  {
    if s != [] {
      CountOfSorted(s[..|s| - 1], p);
      CountOfInserted(SortedReals(s[..|s| - 1]), s[|s| - 1], p);
    }
  }

  /** In a sorted list at most `k` members are below the one at `k`, and more than `k` are not above it. */
  lemma {:induction false} CountBelow(s: seq<real>, k: nat)
    requires k < |s| && InOrder(NoGreater, s)
    ensures Count(s, Below(s[k])) <= k < Count(s, UpTo(s[k]))
    decreases |s|
  {
    var init, last, y := s[..|s| - 1], s[|s| - 1], s[k];
    if k < |init| {
      assert init[k] == y && NoGreater(y, last);
      CountBelow(init, k);
    } else {
      CountAll(init, UpTo(y));
      CountAtMost(init, Below(y));
    }
  }

  lemma {:induction false} CountAtMost(s: seq<real>, p: real -> bool)
    ensures Count(s, p) <= |s|
  {
    if s != [] { CountAtMost(s[..|s| - 1], p); }
  }

  lemma {:induction false} CountAll(s: seq<real>, p: real -> bool)
    requires forall i | 0 <= i < |s| :: p(s[i])
    ensures Count(s, p) == |s|
  {
    if s != [] { CountAll(s[..|s| - 1], p); }
  }

  lemma {:induction false} CountGrows(s: seq<real>, p: real -> bool, q: real -> bool)
    requires forall x | p(x) :: q(x)
    ensures Count(s, p) <= Count(s, q)
  {
    if s != [] { CountGrows(s[..|s| - 1], p, q); }
  }

  /**
   * The threshold comes from the low-percentile frame: at most a tenth of the frames are quieter, and more than a
   * tenth are not louder.
   */
  lemma FloorIsTheLowPercentile(rms: seq<real>) returns (floor: real)
    requires rms != []
    ensures floor in rms
    ensures AdaptiveThreshold(rms) == if 2.5 * floor >= 0.0001 then 2.5 * floor else 0.0001
    ensures 10 * Count(rms, Below(floor)) <= |rms| < 10 * Count(rms, UpTo(floor))
  {
    var sorted, k := SortedReals(rms), (|rms| as real * 0.1).Floor;
    Sorts(NoGreater, rms);
    floor := sorted[k];
    assert floor in sorted;
    CountBelow(sorted, k);
    CountOfSorted(rms, Below(floor));
    CountOfSorted(rms, UpTo(floor));
  }

  /** The threshold is at most what any level sets that more than a tenth of the frames stay within. */
  ghost predicate BoundedBy(rms: seq<real>, threshold: real) {
    forall q | OftenUpTo(rms, q) :: threshold <= Max(2.5 * q, 0.0001)
  }

  /** When more than a tenth of the frames are at most `q`, the threshold is at most what `q` would set. */
  lemma QuietFramesBoundTheThreshold(rms: seq<real>)
    ensures BoundedBy(rms, AdaptiveThreshold(rms))
  {
    forall q | OftenUpTo(rms, q) ensures AdaptiveThreshold(rms) <= Max(2.5 * q, 0.0001) {
      var floor := FloorIsTheLowPercentile(rms);
      if q < floor { CountGrows(rms, UpTo(q), Below(floor)); }
    }
  }

  /** More than a tenth of the frames are at most `q`. */
  predicate OftenUpTo(rms: seq<real>, q: real) { 10 * Count(rms, UpTo(q)) > |rms| }

  /** A run of frames that are all well above `q`, and that lasts as long as speech must. */
  predicate LoudRun(rms: seq<real>, q: real, s: Span, frameS: real) {
    && s.a < s.b <= |rms| && (forall i | s.a <= i < s.b :: rms[i] >= 2.5 * q && rms[i] >= 0.0001)
    && (s.b - s.a) as real * frameS >= 0.05
  }

  /** The maximal run of the mask around a run. */
  lemma RunsExtend(mask: seq<bool>, s: Span) returns (whole: Span)
    requires s.a < s.b <= |mask| && forall i | s.a <= i < s.b :: mask[i]
    ensures MaximalRun(mask, whole) && whole.a <= s.a && s.b <= whole.b
  {
    var a: nat, b: nat := s.a, s.b;
    while a > 0 && mask[a - 1]
      invariant a <= s.a && forall i | a <= i < s.b :: mask[i]
    {
      a := a - 1;
    }
    while b < |mask| && mask[b]
      invariant s.b <= b <= |mask| && forall i | a <= i < b :: mask[i]
    {
      b := b + 1;
    }
    whole := Span(a, b);
  }

  /** Some segment covers the whole run. */
  ghost predicate Covered(segments: seq<SpeechSegment>, s: Span, frameS: real) {
    CoversTime(segments, TimeOf(s.a, frameS), TimeOf(s.b, frameS))
  }

  ghost predicate CoversTime(segments: seq<SpeechSegment>, start: real, end: real) {
    exists x | x in segments :: x.startS <= start && end <= x.endS
  }

  /** Whatever is well above the level of more than a tenth of the frames, and lasts, is found. */
  ghost predicate FindsLoudRuns(rms: seq<real>, frameS: real, segments: seq<SpeechSegment>) {
    forall q, s | OftenUpTo(rms, q) && LoudRun(rms, q, s, frameS) :: Covered(segments, s, frameS)
  }

  lemma LoudRunsAreFound(rms: seq<real>, threshold: real, mask: seq<bool>, hangover: nat, frameS: real,
                         spans: seq<Span>)
    requires |mask| == |rms| && LongRuns(mask, frameS, spans) && BoundedBy(rms, threshold)
    requires forall i: nat | i < |rms| :: mask[i] <==> Heard(rms, threshold, hangover, i)
    ensures FindsLoudRuns(rms, frameS, Merged(SortedSegments(SegmentsFrom(rms, spans, frameS))))
  {
    var out := Merged(SortedSegments(SegmentsFrom(rms, spans, frameS)));
    forall q, s | OftenUpTo(rms, q) && LoudRun(rms, q, s, frameS) ensures Covered(out, s, frameS) {
      LoudFramesAreHeard(rms, threshold, mask, hangover, q, s);
      HeardRunIsFound(rms, mask, frameS, spans, s, out);
    }
  }

  lemma HeardRunIsFound(rms: seq<real>, mask: seq<bool>, frameS: real, spans: seq<Span>, s: Span,
                        out: seq<SpeechSegment>)
    requires LongRuns(mask, frameS, spans) && out == Merged(SortedSegments(SegmentsFrom(rms, spans, frameS)))
    requires s.a < s.b <= |mask| && LongEnough(s, frameS) && forall i | s.a <= i < s.b :: mask[i]
    ensures CoversTime(out, TimeOf(s.a, frameS), TimeOf(s.b, frameS))
  {
    var whole := RunsExtend(mask, s);
    LongerIsLong(s, whole, frameS);
    SpanIsCovered(rms, spans, frameS, whole, SegmentsFrom(rms, spans, frameS));
    CoversLess(out, TimeOf(whole.a, frameS), TimeOf(whole.b, frameS), TimeOf(s.a, frameS), TimeOf(s.b, frameS));
  }

  lemma CoversLess(out: seq<SpeechSegment>, a: real, b: real, start: real, end: real)
    requires CoversTime(out, a, b) && a <= start && end <= b
    ensures CoversTime(out, start, end)
  {}

  lemma LoudFramesAreHeard(rms: seq<real>, threshold: real, mask: seq<bool>, hangover: nat, q: real, s: Span)
    requires |mask| == |rms| && s.b <= |rms| && OftenUpTo(rms, q) && BoundedBy(rms, threshold)
    requires forall i: nat | i < |rms| :: mask[i] <==> Heard(rms, threshold, hangover, i)
    requires forall i | s.a <= i < s.b :: rms[i] >= 2.5 * q && rms[i] >= 0.0001
    ensures forall i | s.a <= i < s.b :: mask[i]
  {
    forall i | s.a <= i < s.b ensures mask[i] { assert rms[i] >= threshold; }
  }

  lemma SpanIsCovered(rms: seq<real>, spans: seq<Span>, frameS: real, s: Span, found: seq<SpeechSegment>)
    requires s in spans && found == SegmentsFrom(rms, spans, frameS)
    ensures CoversTime(Merged(SortedSegments(found)), TimeOf(s.a, frameS), TimeOf(s.b, frameS))
  {
    var k :| 0 <= k < |spans| && spans[k] == s;
    assert found[k] == SegmentFrom(rms, s, frameS);
    IsCovered(found, k, TimeOf(s.a, frameS), TimeOf(s.b, frameS));
  }

  lemma IsCovered(found: seq<SpeechSegment>, k: nat, start: real, end: real)
    requires k < |found| && found[k].startS == start && found[k].endS == end
    ensures CoversTime(Merged(SortedSegments(found)), start, end)
  {
    SortedThenMergedHolds(found, found[k]);
    var x :| x in Merged(SortedSegments(found)) && Inside(found[k], x);
  }

  lemma SortedThenMergedHolds(segments: seq<SpeechSegment>, x: SpeechSegment)
    requires x in segments
    ensures Holds(Merged(SortedSegments(segments)), x)
  {
    Sorts(Before, segments);
    MergedHolds(SortedSegments(segments), x);
  }

  lemma LongerIsLong(s: Span, whole: Span, frameS: real)
    requires whole.a <= s.a < s.b <= whole.b && LongEnough(s, frameS)
    ensures LongEnough(whole, frameS) && TimeOf(whole.a, frameS) <= TimeOf(s.a, frameS)
    ensures TimeOf(s.b, frameS) <= TimeOf(whole.b, frameS)
  {
    LongMeansPositive(s, frameS);
    if whole.a < s.a { FramesApart(whole.a, s.a, frameS); }
    if s.b < whole.b { FramesApart(s.b, whole.b, frameS); }
    assert (whole.b - whole.a) as real * frameS == TimeOf(whole.b, frameS) - TimeOf(whole.a, frameS);
    assert (s.b - s.a) as real * frameS == TimeOf(s.b, frameS) - TimeOf(s.a, frameS);
  }

  // ---------------------------------------------------------------------------
  // What a segment measures
  // ---------------------------------------------------------------------------

  /** The sum is the one additive function that keeps single values. */
  lemma {:induction false} SumAdds(s: seq<real>, t: seq<real>)
    ensures Sum(s + t) == Sum(s) + Sum(t)
    ensures forall x :: Sum([x]) == x
    decreases |t|
  {
    forall x ensures Sum([x]) == x { assert [x][..0] == []; }
    if t == [] {
      assert s + t == s;
    } else {
      assert (s + t)[..|s + t| - 1] == s + t[..|t| - 1];
      SumAdds(s, t[..|t| - 1]);
    }
  }

  /** A segment lasts from the start of its first frame to the end of its last. */
  lemma SegmentLasts(rms: seq<real>, s: Span, frameS: real)
    ensures SegmentFrom(rms, s, frameS).startS == s.a as real * frameS
    ensures SegmentFrom(rms, s, frameS).endS == s.b as real * frameS
  {}

  /** It has the mean and the peak of its frames. */
  lemma SegmentMeasures(rms: seq<real>, s: Span, frameS: real)
    requires s.a < s.b <= |rms|
    ensures var x := SegmentFrom(rms, s, frameS);
            IsMean(x.meanEnergy, rms[s.a..s.b]) && IsPeak(x.peakEnergy, rms[s.a..s.b])
  {
    MeanTimesLength(Sum(rms[s.a..s.b]), |rms[s.a..s.b]| as real);
  }

  ghost predicate IsPeak(peak: real, s: seq<real>) { peak in s && forall x | x in s :: x <= peak }

  ghost predicate IsMean(mean: real, s: seq<real>) { mean * |s| as real == Sum(s) }

  lemma MeanTimesLength(sum: real, n: real)
    requires n > 0.0
    ensures sum / n * n == sum
  {}

  /** Nothing shorter than the least duration of speech is reported. */
  lemma {:induction false} MergedLasts(s: seq<SpeechSegment>)
    requires forall x | x in s :: x.endS - x.startS >= 0.05
    ensures forall y | y in Merged(s) :: y.endS - y.startS >= 0.05
  {
    if s != [] {
      Snoc(s);
      MergedLasts(s[..|s| - 1]);
      var out := Merged(s[..|s| - 1]);
      if out != [] { assert out[|out| - 1] in out; }
    }
  }

  lemma SegmentsLast(mask: seq<bool>, rms: seq<real>, spans: seq<Span>, frameS: real)
    requires LongRuns(mask, frameS, spans)
    ensures forall y | y in Merged(SortedSegments(SegmentsFrom(rms, spans, frameS))) :: y.endS - y.startS >= 0.05
  {
    var found := SegmentsFrom(rms, spans, frameS);
    forall k | 0 <= k < |found| ensures found[k].endS - found[k].startS >= 0.05 {
      assert spans[k] in spans && LongEnough(spans[k], frameS);
      DurationOf(spans[k], frameS);
    }
    Sorts(Before, found);
    MergedLasts(SortedSegments(found));
  }

  lemma DurationOf(s: Span, frameS: real)
    requires s.a < s.b && LongEnough(s, frameS)
    ensures TimeOf(s.b, frameS) - TimeOf(s.a, frameS) >= 0.05
  {
    assert (s.b - s.a) as real * frameS == TimeOf(s.b, frameS) - TimeOf(s.a, frameS);
  }

  /** Speech adds up, segment by segment; what is left of the signal, but never less than nothing, is silence. */
  lemma SilenceIsTheRest(s: seq<SpeechSegment>, x: SpeechSegment, durationS: real)
    ensures TotalDuration([]) == 0.0
    ensures TotalDuration(s + [x]) == TotalDuration(s) + if x.startS <= x.endS then x.endS - x.startS else 0.0
    ensures var total := TotalDuration(s);
            if durationS <= 0.0 then NoSpeechRatio(durationS, total) == 1.0
            else NoSpeechRatio(durationS, total) * durationS == if total <= durationS then durationS - total else 0.0
  {
    assert (s + [x])[..|s|] == s;
  }

  /** Two segments in order become one exactly when they are at most a microsecond apart. */
  lemma MergesWithinAMicrosecond(x: SpeechSegment, y: SpeechSegment)
    requires Before(x, y)
    ensures var out := Merged([x, y]);
            if y.startS <= x.endS + 0.000001 then
              |out| == 1 && out[0].startS == x.startS && out[0].endS == Max(x.endS, y.endS)
            else out == [x, y]
  {
    assert [x, y][..1] == [x] && [x][..0] == [];
    assert Merged([x]) == [x];
  }

  lemma RunsAreHeard(mask: seq<bool>)
    ensures forall s | MaximalRun(mask, s) :: exists i: nat | i < |mask| :: mask[i]
  {
    forall s | MaximalRun(mask, s) ensures exists i: nat | i < |mask| :: mask[i] { assert mask[s.a]; }
  }

  /** Silence, and any signal whose energies stay within the margin of each other, has no speech. */
  lemma FlatSignalHasNoSpeech(rms: seq<real>, mask: seq<bool>, hangover: nat, frameS: real, spans: seq<Span>)
    requires forall x, y | x in rms && y in rms :: x < y * SILENCE_MARGIN || x < 0.0001
    requires |mask| == |rms|
    requires forall i: nat | i < |rms| :: mask[i] <==> Heard(rms, AdaptiveThreshold(rms), hangover, i)
    requires LongRuns(mask, frameS, spans)
    ensures spans == []
  {
    forall x | x in rms ensures x < AdaptiveThreshold(rms) { var floor := FloorIsTheLowPercentile(rms); }
    forall i: nat | i < |rms| ensures !mask[i] {
      assert forall j: nat | j < |rms| :: rms[j] in rms;
    }
    RunsAreHeard(mask);
    HasItsHead(spans);
  }
}
