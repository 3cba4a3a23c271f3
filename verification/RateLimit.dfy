/** The per-key token bucket, and how many requests it lets through. Time and tokens are reals. */
module RateLimit {
  import opened Wrappers

  datatype Settings = Settings(enabled: bool, requestsPerWindow: int, windowSeconds: real, burst: int)

  datatype Bucket = Bucket(tokens: real, lastRefill: real)

  /** `DividedByZero`: no token, and a rate of zero to compute the wait from. */
  datatype Outcome = Allowed | Refused(retryAfter: real) | DividedByZero

  /** What the settings come to. */
  datatype Limits = Limits(capacity: real, rate: real, window: real)

  function LimitsOf(s: Settings): Limits {
    Limits((s.requestsPerWindow + s.burst) as real,
           s.requestsPerWindow as real / (if s.windowSeconds >= 0.001 then s.windowSeconds else 0.001),
           s.windowSeconds)
  }

  function Earned(seconds: real, rate: real): real { seconds * rate }

  /** The tokens a bucket holds at `now` if it is only ever refilled. */
  function Level(l: Limits, b: Bucket, now: real): real {
    var tokens := b.tokens + Earned(now - b.lastRefill, l.rate);
    if l.capacity <= tokens then l.capacity else tokens
  }

  /** What a request finds; a new or long idle bucket is full. */
  function Refilled(l: Limits, b: Option<Bucket>, now: real): real {
    if b.None? || now - b.value.lastRefill > l.window * 2.0 then l.capacity else Level(l, b.value, now)
  }

  function Taken(l: Limits, b: Option<Bucket>, now: real): (Bucket, Outcome) {
    var tokens := Refilled(l, b, now);
    if tokens >= 1.0 then (Bucket(tokens - 1.0, now), Allowed)
    else if l.rate == 0.0 then (Bucket(tokens, now), DividedByZero)
    else
      var wait := (1.0 - tokens) / l.rate;
      (Bucket(tokens, now), Refused(if wait >= 0.1 then wait else 0.1))
  }

  type Buckets = map<string, Bucket>

  function BucketOf(buckets: Buckets, id: string): Option<Bucket> { if id in buckets then Some(buckets[id]) else None }

  class TokenBucketRateLimiter {
    const settings: Settings
    var buckets: Buckets

    constructor (settings: Settings)
      ensures this.settings == settings && buckets == map[]
    {
      this.settings, buckets := settings, map[];
    }

    /** `now` is the monotonic clock. */
    method Allow(id: string, now: real) returns (r: Outcome)
      modifies this
      ensures !settings.enabled ==> r == Allowed && buckets == old(buckets)
      ensures settings.enabled ==>
                && r == Taken(LimitsOf(settings), BucketOf(old(buckets), id), now).1
                && buckets == old(buckets)[id := Taken(LimitsOf(settings), BucketOf(old(buckets), id), now).0]
    {
      if !settings.enabled { return Allowed; }
      var limits := LimitsOf(settings);
      if id !in buckets || now - buckets[id].lastRefill > limits.window * 2.0 {
        buckets := buckets[id := Bucket(limits.capacity, now)];
      }
      var b := Bucket(Level(limits, buckets[id], now), now);
      buckets := buckets[id := b];
      if b.tokens < 1.0 {
        if limits.rate == 0.0 { return DividedByZero; }
        var wait := (1.0 - b.tokens) / limits.rate;
        return Refused(if wait >= 0.1 then wait else 0.1);
      }
      buckets := buckets[id := b.(tokens := b.tokens - 1.0)];
      r := Allowed;
    }
  }

  // ---------------------------------------------------------------------------
  // Whole runs
  // ---------------------------------------------------------------------------

  datatype Call = Call(id: string, now: real)

  predicate Ordered(calls: seq<Call>) {
    forall i, j | 0 <= i < j < |calls| :: calls[i].now <= calls[j].now
  }

  /** How one request changes a bucket and ends. */
  type Meter = (Option<Bucket>, real) -> (Bucket, Outcome)

  function MeterOf(l: Limits): Meter { (b, now) => Taken(l, b, now) }

  function After(m: Meter, start: Buckets, calls: seq<Call>): Buckets {
    if calls == [] then start
    else
      var c, before := calls[|calls| - 1], After(m, start, calls[..|calls| - 1]);
      before[c.id := m(BucketOf(before, c.id), c.now).0]
  }

  /** How many calls of the run let key `id` through. */
  function Admitted(m: Meter, start: Buckets, calls: seq<Call>, id: string): nat {
    if calls == [] then 0
    else
      var c, init := calls[|calls| - 1], calls[..|calls| - 1];
      var admitted := c.id == id && m(BucketOf(After(m, start, init), id), c.now).1.Allowed?;
      Admitted(m, start, init, id) + if admitted then 1 else 0
  }

  // ---------------------------------------------------------------------------
  // Potentials
  // ---------------------------------------------------------------------------

  type Potential = (Option<Bucket>, real) -> real
  type Soundness = (Option<Bucket>, real) -> bool

  /** A sound bucket stays sound, its potential never rises with time, and every admission costs one. */
  ghost predicate Pays(m: Meter, v: Potential, sound: Soundness) {
    && (forall b, t, now | t <= now && sound(b, t) :: sound(b, now) && v(b, now) <= v(b, t))
    && (forall b, now | sound(b, now) ::
          && sound(Some(m(b, now).0), now)
          && v(Some(m(b, now).0), now) + (if m(b, now).1.Allowed? then 1.0 else 0.0) <= v(b, now))
  }

  /** What the potential falls by pays for every admission of a run. */
  lemma {:induction false} PotentialPays(m: Meter, v: Potential, sound: Soundness, start: Buckets, calls: seq<Call>,
                                         id: string,
                                         since: real, now: real)
    requires Pays(m, v, sound) && sound(BucketOf(start, id), since) && Ordered(calls) && since <= now
    requires calls != [] ==> since <= calls[0].now && calls[|calls| - 1].now <= now
    ensures sound(BucketOf(After(m, start, calls), id), now)
    ensures Admitted(m, start, calls, id) as real + v(BucketOf(After(m, start, calls), id), now) <=
            v(BucketOf(start, id), since)
    decreases |calls|
  {
    if calls != [] {
      var init, c := calls[..|calls| - 1], calls[|calls| - 1];
      PotentialPays(m, v, sound, start, init, id, since, c.now);
      var before, after := BucketOf(After(m, start, init), id), BucketOf(After(m, start, calls), id);
      assert sound(before, c.now);
      assert c.id != id ==> after == before;
      assert sound(after, c.now) && v(after, now) <= v(after, c.now);
    }
  }

  // ---------------------------------------------------------------------------
  // The admission bound
  // ---------------------------------------------------------------------------

  /** Neither overdrawn, nor overfull, nor touched after `now`. */
  predicate Sound(l: Limits, b: Option<Bucket>, now: real) {
    b.None? || (0.0 <= b.value.tokens <= l.capacity && b.value.lastRefill <= now)
  }

  function Worth(l: Limits, b: Option<Bucket>, now: real): real {
    if b.Some? then Level(l, b.value, now) else l.capacity
  }

  /** An idle bucket refills by itself before it is reset. */
  predicate ResetAddsNothing(l: Limits) { l.capacity <= Earned(l.window * 2.0, l.rate) }

  /** With a window of at least a millisecond that is just a burst no larger than the window's requests. */
  lemma ResetAddsNothingExactlyWhen(s: Settings)
    requires s.windowSeconds >= 0.001
    ensures ResetAddsNothing(LimitsOf(s)) <==> s.burst <= s.requestsPerWindow
  {
    var w, n := s.windowSeconds, s.requestsPerWindow as real;
    assert w * (n / w) == n;
    assert w * 2.0 * (n / w) == 2.0 * (w * (n / w));
  }

  lemma EarnedGrows(a: real, b: real, r: real)
    requires a <= b && r >= 0.0
    ensures Earned(a, r) <= Earned(b, r)
  {}

  lemma EarnedAdds(a: real, b: real, r: real)
    ensures Earned(a + b, r) == Earned(a, r) + Earned(b, r) && Earned(0.0, r) == 0.0
  {}

  /** Time passing refills at most at the rate. */
  lemma WorthGrowsAtTheRate(l: Limits, b: Option<Bucket>, t: real, now: real)
    requires l.rate >= 0.0 && t <= now
    ensures Worth(l, b, now) - Earned(now, l.rate) <= Worth(l, b, t) - Earned(t, l.rate)
  {
    EarnedGrows(t, now, l.rate);
    if b.Some? {
      EarnedAdds(t - b.value.lastRefill, now - t, l.rate);
      EarnedAdds(t, now - t, l.rate);
    }
  }

  lemma WorthIsNatural(l: Limits, b: Option<Bucket>, now: real)
    requires l.rate >= 0.0 && l.capacity >= 0.0 && Sound(l, b, now)
    ensures 0.0 <= Worth(l, b, now) <= l.capacity
  {
    EarnedAdds(0.0, 0.0, l.rate);
    if b.Some? { EarnedGrows(0.0, now - b.value.lastRefill, l.rate); }
  }

  /** Where the reset adds nothing, a request finds exactly what the bucket is worth, and spends from it. */
  lemma RequestSpends(l: Limits, b: Option<Bucket>, now: real)
    requires l.rate >= 0.0 && l.capacity >= 0.0 && ResetAddsNothing(l) && Sound(l, b, now)
    ensures var (next, r) := Taken(l, b, now);
            Sound(l, Some(next), now) && Worth(l, Some(next), now) + (if r.Allowed? then 1.0 else 0.0) <=
                Worth(l, b, now)
  {
    WorthIsNatural(l, b, now);
    if b.Some? && now - b.value.lastRefill > l.window * 2.0 {
      IdleIsFull(l, b.value, now);
    }
    assert Refilled(l, b, now) == Worth(l, b, now);
    UntouchedLevel(l, Taken(l, b, now).0, now);
  }

  lemma UntouchedLevel(l: Limits, b: Bucket, now: real)
    requires b.lastRefill == now && b.tokens <= l.capacity
    ensures Level(l, b, now) == b.tokens
  {
    EarnedAdds(0.0, 0.0, l.rate);
  }

  lemma IdleIsFull(l: Limits, b: Bucket, now: real)
    requires l.rate >= 0.0 && ResetAddsNothing(l) && b.tokens >= 0.0 && now - b.lastRefill > l.window * 2.0
    ensures Level(l, b, now) == l.capacity
  {
    EarnedGrows(l.window * 2.0, now - b.lastRefill, l.rate);
  }

  /** What a bucket is worth, less all that time has earned it. */
  function PotentialOf(l: Limits): Potential { (b, now) => Worth(l, b, now) - Earned(now, l.rate) }

  function SoundnessOf(l: Limits): Soundness { (b, now) => Sound(l, b, now) }

  lemma WorthPays(l: Limits)
    requires l.rate >= 0.0 && l.capacity >= 0.0 && ResetAddsNothing(l)
    ensures Pays(MeterOf(l), PotentialOf(l), SoundnessOf(l))
  {
    var v, sound := PotentialOf(l), SoundnessOf(l);
    forall b, t, now | t <= now && sound(b, t) ensures sound(b, now) && v(b, now) <= v(b, t) {
      WorthGrowsAtTheRate(l, b, t, now);
    }
    forall b, now | sound(b, now)
      ensures sound(Some(MeterOf(l)(b, now).0), now)
      ensures v(Some(MeterOf(l)(b, now).0), now) + (if MeterOf(l)(b, now).1.Allowed? then 1.0 else 0.0) <= v(b, now)
    {
      RequestSpends(l, b, now);
    }
  }

  /** A key gets through at most the capacity and the refill, in any interval of any run of the limiter. */
  lemma AdmissionBound(l: Limits, calls: seq<Call>, i: nat, j: nat, id: string)
    requires l.rate >= 0.0 && l.capacity >= 0.0 && ResetAddsNothing(l)
    requires Ordered(calls) && i < j <= |calls|
    ensures Admitted(MeterOf(l), After(MeterOf(l), map[], calls[..i]), calls[i..j], id) as real
            <= l.capacity + Earned(calls[j - 1].now - calls[i].now, l.rate)
  {
    var since, now := calls[i].now, calls[j - 1].now;
    WorthPays(l);
    var before, after := IntervalPays(MeterOf(l), PotentialOf(l), SoundnessOf(l), calls, i, j, id);
    WorthIsNatural(l, before, since);
    WorthIsNatural(l, after, now);
    EarnedAdds(since, now - since, l.rate);
  }

  /** Between two calls of a run from empty buckets, admissions are paid for by the fall of the potential. */
  lemma IntervalPays(m: Meter, v: Potential, sound: Soundness, calls: seq<Call>, i: nat, j: nat, id: string)
    returns (before: Option<Bucket>, after: Option<Bucket>)
    requires Pays(m, v, sound) && (forall t :: sound(None, t)) && Ordered(calls) && i < j <= |calls|
    ensures sound(before, calls[i].now) && sound(after, calls[j - 1].now)
    ensures Admitted(m, After(m, map[], calls[..i]), calls[i..j], id) as real
            <= v(before, calls[i].now) - v(after, calls[j - 1].now)
  {
    var since, now, part, start := calls[i].now, calls[j - 1].now, calls[i..j], After(m, map[], calls[..i]);
    OrderedParts(calls, i, j);
    SoundBefore(m, v, sound, calls, i, id);
    PotentialPays(m, v, sound, start, part, id, since, now);
    before, after := BucketOf(start, id), BucketOf(After(m, start, part), id);
  }

  lemma SoundBefore(m: Meter, v: Potential, sound: Soundness, calls: seq<Call>, i: nat, id: string)
    requires Pays(m, v, sound) && (forall t :: sound(None, t)) && Ordered(calls) && i < |calls|
    ensures sound(BucketOf(After(m, map[], calls[..i]), id), calls[i].now)
  {
    OrderedParts(calls, i, i + 1);
    PotentialPays(m, v, sound, map[], calls[..i], id, if i > 0 then calls[0].now else calls[i].now, calls[i].now);
  }

  lemma OrderedParts(calls: seq<Call>, i: nat, j: nat)
    requires Ordered(calls) && i < j <= |calls|
    ensures Ordered(calls[..i]) && Ordered(calls[i..j]) && calls[i].now <= calls[j - 1].now
    ensures calls[i..j][0] == calls[i] && calls[i..j][j - i - 1] == calls[j - 1]
    ensures i > 0 ==> calls[0].now <= calls[i - 1].now <= calls[i].now
    ensures i > 0 ==> calls[..i][0] == calls[0] && calls[..i][i - 1] == calls[i - 1]
  {}

  lemma {:induction false} NothingBelowOneToken(l: Limits, start: Buckets, calls: seq<Call>, id: string)
    requires l.capacity < 1.0
    ensures Admitted(MeterOf(l), start, calls, id) == 0
  {
    if calls != [] { NothingBelowOneToken(l, start, calls[..|calls| - 1], id); }
  }

  // ---------------------------------------------------------------------------
  // When the bound fails
  // ---------------------------------------------------------------------------

  function Repeated(c: Call, n: nat): (calls: seq<Call>)
    ensures |calls| == n && forall i | 0 <= i < n :: calls[i] == c
  {
    seq(n, _ => c)
  }

  /** Enough tokens for simultaneous requests: each admission costs at most one. */
  ghost predicate Drains(m: Meter, level: Option<Bucket> -> real, now: real) {
    forall b | level(b) >= 1.0 ::
      && m(b, now).1.Allowed? && m(b, now).0.lastRefill == now
      && level(Some(m(b, now).0)) >= level(b) - 1.0
  }

  lemma {:induction false} Drained(m: Meter, level: Option<Bucket> -> real, start: Buckets, c: Call, n: nat)
    requires Drains(m, level, c.now) && level(BucketOf(start, c.id)) >= n as real
    ensures Admitted(m, start, Repeated(c, n), c.id) == n
    ensures var b := BucketOf(After(m, start, Repeated(c, n)), c.id);
            level(b) >= level(BucketOf(start, c.id)) - n as real && (n > 0 ==> b.Some? && b.value.lastRefill == c.now)
  {
    if n > 0 {
      Drained(m, level, start, c, n - 1);
      assert Repeated(c, n)[..n - 1] == Repeated(c, n - 1);
    }
  }

  lemma RequestsAtOnce(l: Limits, b: Option<Bucket>, now: real)
    requires Refilled(l, b, now) >= 1.0
    ensures var (next, r) := Taken(l, b, now);
            r.Allowed? && next.lastRefill == now && Refilled(l, Some(next), now) >= Refilled(l, b, now) - 1.0
  {
    EarnedAdds(0.0, 0.0, l.rate);
  }

  function LevelAt(l: Limits, now: real): Option<Bucket> -> real { b => Refilled(l, b, now) }

  lemma LimiterDrains(l: Limits, now: real)
    ensures Drains(MeterOf(l), LevelAt(l, now), now)
  {
    var level := LevelAt(l, now);
    forall b | level(b) >= 1.0
      ensures MeterOf(l)(b, now).1.Allowed? && MeterOf(l)(b, now).0.lastRefill == now
      ensures level(Some(MeterOf(l)(b, now).0)) >= level(b) - 1.0
    {
      RequestsAtOnce(l, b, now);
    }
  }

  lemma {:induction false} RunsCompose(m: Meter, start: Buckets, first: seq<Call>, second: seq<Call>, id: string)
    ensures After(m, start, first + second) == After(m, After(m, start, first), second)
    ensures Admitted(m, start, first + second, id) ==
            Admitted(m, start, first, id) + Admitted(m, After(m, start, first), second, id)
    decreases |second|
  {
    if second == [] {
      assert first + second == first;
    } else {
      var init := second[..|second| - 1];
      assert (first + second)[..|first + second| - 1] == first + init;
      RunsCompose(m, start, first, init, id);
    }
  }

  /** Draining a bucket, idling just past twice the window and draining again. */
  function TwoBursts(id: string, gap: real, n: nat): seq<Call> {
    Repeated(Call(id, 0.0), n) + Repeated(Call(id, gap), n)
  }

  lemma TwoBurstsBreakTheBound(l: Limits, id: string, gap: real, n: nat)
    requires n > 0 && l.capacity == n as real && gap >= 0.0 && gap > l.window * 2.0 && Earned(gap, l.rate) < l.capacity
    ensures Ordered(TwoBursts(id, gap, n)) && |TwoBursts(id, gap, n)| == 2 * n
    ensures Admitted(MeterOf(l), map[], TwoBursts(id, gap, n), id) as real > l.capacity + Earned(gap, l.rate)
  {
    var m := MeterOf(l);
    var first, second := Repeated(Call(id, 0.0), n), Repeated(Call(id, gap), n);
    LimiterDrains(l, 0.0);
    LimiterDrains(l, gap);
    Drained(m, LevelAt(l, 0.0), map[], Call(id, 0.0), n);
    Drained(m, LevelAt(l, gap), After(m, map[], first), Call(id, gap), n);
    RunsCompose(m, map[], first, second, id);
  }

  /** The bound, for a whole run of one limiter. */
  ghost predicate Bounded(l: Limits, calls: seq<Call>, id: string) {
    calls != [] && Ordered(calls) ==>
      Admitted(MeterOf(l), map[], calls, id) as real <=
          l.capacity + Earned(calls[|calls| - 1].now - calls[0].now, l.rate)
  }

  lemma AGapExists(window: real, rate: real, capacity: real) returns (gap: real)
    requires rate >= 0.0 && capacity > 0.0 && capacity > Earned(window * 2.0, rate)
    ensures gap >= 0.0 && gap > window * 2.0 && Earned(gap, rate) < capacity
  {
    var least := if window >= 0.0 then window * 2.0 else 0.0;
    var slack := capacity - least * rate;
    var step := slack / (2.0 * (rate + 1.0));
    gap := least + step;
    assert step * (2.0 * (rate + 1.0)) == slack;
    assert step > 0.0;
    assert step * (2.0 * (rate + 1.0)) == 2.0 * (step * rate) + 2.0 * step;
    assert gap * rate == least * rate + step * rate;
  }

  /** The bound holds for every run exactly when the reset of an idle bucket adds nothing. */
  lemma BoundHoldsExactlyWhen(s: Settings)
    requires s.requestsPerWindow >= 0 && s.requestsPerWindow + s.burst > 0
    ensures (forall calls, id :: Bounded(LimitsOf(s), calls, id)) <==> ResetAddsNothing(LimitsOf(s))
  {
    var l := LimitsOf(s);
    if ResetAddsNothing(l) {
      forall calls, id ensures Bounded(l, calls, id) {
        if calls != [] && Ordered(calls) {
          AdmissionBound(l, calls, 0, |calls|, id);
          assert calls[0..|calls|] == calls;
        }
      }
    } else {
      var gap := AGapExists(l.window, l.rate, l.capacity);
      var n := s.requestsPerWindow + s.burst;
      TwoBurstsBreakTheBound(l, "key", gap, n);
      assert !Bounded(l, TwoBursts("key", gap, n), "key");
    }
  }

  // ---------------------------------------------------------------------------
  // Retry-After and isolation
  // ---------------------------------------------------------------------------

  /** A refused caller who is alone on its key gets through from `retry_after` on, unless the capacity is below one. */
  lemma RetryAfterSuffices(l: Limits, b: Option<Bucket>, now: real, later: real)
    requires l.rate > 0.0
    requires var (_, r) := Taken(l, b, now); r.Refused? && now + r.retryAfter <= later
    ensures Taken(l, Some(Taken(l, b, now).0), later).1.Allowed? <==> l.capacity >= 1.0
  {
    var tokens := Refilled(l, b, now);
    var wait := (1.0 - tokens) / l.rate;
    assert Earned(wait, l.rate) == 1.0 - tokens;
    EarnedGrows(wait, later - now, l.rate);
  }

  /** Before its wait is over (the advice is never less than a tenth of a second) a caller is refused again. */
  lemma RetryAfterIsNeeded(l: Limits, b: Option<Bucket>, now: real, later: real)
    requires l.rate > 0.0 && now <= later && later - now <= l.window * 2.0
    requires var (_, r) := Taken(l, b, now); r.Refused? && (r.retryAfter > 0.1) && later < now + r.retryAfter
    ensures Taken(l, Some(Taken(l, b, now).0), later).1.Refused?
  {
    var tokens := Refilled(l, b, now);
    var wait := (1.0 - tokens) / l.rate;
    assert Earned(wait, l.rate) == 1.0 - tokens;
    EarnedAdds(later - now, wait - (later - now), l.rate);
    assert Earned(wait - (later - now), l.rate) > 0.0;
  }

  function Only(calls: seq<Call>, id: string): (r: seq<Call>)
    ensures forall c | c in r :: c.id == id
  {
    if calls == [] then []
    else
      var c, init := calls[|calls| - 1], Only(calls[..|calls| - 1], id);
      if c.id == id then init + [c] else init
  }

  /** Keys do not share tokens: a key fares as if it were alone. */
  lemma {:induction false} KeysAreIndependent(m: Meter, start: Buckets, calls: seq<Call>, id: string)
    ensures BucketOf(After(m, start, calls), id) == BucketOf(After(m, start, Only(calls, id)), id)
    ensures Admitted(m, start, calls, id) == Admitted(m, start, Only(calls, id), id)
  {
    if calls != [] {
      var init, c := calls[..|calls| - 1], calls[|calls| - 1];
      KeysAreIndependent(m, start, init, id);
      assert calls == init + [c];
      if c.id == id {
        OneCallMore(m, start, init, c);
        OneCallMore(m, start, Only(init, id), c);
      } else {
      }
    }
  }

  lemma OneCallMore(m: Meter, start: Buckets, init: seq<Call>, c: Call)
    ensures var before := BucketOf(After(m, start, init), c.id);
            && BucketOf(After(m, start, init + [c]), c.id) == Some(m(before, c.now).0)
            && Admitted(m, start, init + [c], c.id) ==
               Admitted(m, start, init, c.id) + if m(before, c.now).1.Allowed? then 1 else 0
  {
    assert (init + [c])[..|init|] == init;
  }
}
