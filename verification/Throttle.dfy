/**
 The auto-throttle middleware (src/middleware/auto_throttle.rs): a feedback controller for the delay
 between requests of a bucket, and the gate that enforces it.  Floating-point configuration values are
 reals, and every clock reading is an input.
 */
module Throttle {
  import opened Prelude

  const TWO_64: nat := 0x1_0000_0000_0000_0000
  const TWO_63: nat := 0x8000_0000_0000_0000

  function Clamp(x: nat, lo: nat, hi: nat): nat
    requires lo <= hi
  {
    if x < lo then lo else if x > hi then hi else x
  }

  // `f64::round` of a non-negative value, and the saturating cast to u64 behind it.
  function Round(x: real): nat
    requires x >= 0.0
  {
    (x + 0.5).Floor
  }

  function RoundToU64(x: real): nat
    requires x >= 0.0
  {
    Min(Round(x), U64_MAX)
  }

  /**
   The settings in force for one request.  The middleware's own settings also keep the start interval between
   the other two (`InOrder`); a request that overrides them may leave it outside.
   */
  datatype Config = Config(target: real, start: nat, min: nat, max: nat, ratio: real) {
    predicate Valid() {
      target > 0.0 && ratio > 0.0 && min <= max <= U64_MAX && start <= U64_MAX
    }

    predicate InOrder() {
      Valid() && min <= start <= max
    }
  }

  type ValidConfig = cfg: Config | cfg.Valid() witness Config(1.0, 0, 0, 0, 1.0)

  // The options of the middleware, or those a request overrides them with.
  datatype Options = Options(
    target: Option<real>,
    start: Option<real>,
    min: Option<real>,
    max: Option<real>,
    ratio: Option<real>)

  datatype Override = Unset | Skip | Custom(options: Options)

  function Interval(option: Option<real>, otherwise: nat): nat {
    if option.None? then otherwise else if option.value < 0.0 then 0 else RoundToU64(option.value)
  }

  function Positive(option: Option<real>, otherwise: real): real {
    if option.Some? && option.value > 0.0 then option.value else otherwise
  }

  // Construction restores min <= start <= max.
  function NewConfig(options: Options): (cfg: Config)
    ensures cfg.InOrder()
  {
    var min := Interval(options.min, 0);
    var max := Max(Interval(options.max, 60_000), min);
    var start := Clamp(Interval(options.start, 0), min, max);
    Config(Positive(options.target, 1.0), start, min, max, Positive(options.ratio, 2.0))
  }

  // Each option a request gives replaces the middleware's; only the maximum is then raised to the minimum.
  function Effective(base: ValidConfig, over: Override): (cfg: ValidConfig)
    ensures !over.Custom? ==> cfg == base
  {
    if !over.Custom? then base
    else
      var o := over.options;
      var min := Interval(o.min, base.min);
      Config(Positive(o.target, base.target), Interval(o.start, base.start), min, Max(Interval(o.max, base.max), min),
             Positive(o.ratio, base.ratio))
  }

  // A response with status 429 or from 500 on counts as a failure.
  function OutcomeOf(status: nat): Outcome {
    if status == 429 || status >= 500 then Failure else Success
  }

  datatype Bucket = Bucket(delay: nat, nextAllowedAt: nat)

  datatype Outcome = Success | Failure

  function CurrentDelay(bucket: Bucket, start: nat): nat {
    if bucket.delay == 0 then start else bucket.delay
  }

  function ClampedTarget(cfg: Config, latency: nat): nat
    requires cfg.Valid()
  {
    Clamp(RoundToU64(latency as real / cfg.target), cfg.min, cfg.max)
  }

  // The sum is taken in u64.
  function Average(current: nat, target: nat): nat {
    (current + target) % TWO_64 / 2
  }

  function SuccessDelay(cfg: Config, current: nat, latency: nat): nat
    requires cfg.Valid()
  {
    var target := ClampedTarget(cfg, latency);
    if current == 0 then target else Clamp(Average(current, target), cfg.min, cfg.max)
  }

  function Baseline(cfg: Config, current: nat): nat {
    Max(Max(current, cfg.min), 1)
  }

  function Grown(cfg: Config, grown: real): nat
    requires cfg.Valid() && grown >= 0.0
  {
    Clamp(Max(RoundToU64(grown), 1), cfg.min, cfg.max)
  }

  function Scaled(base: nat, ratio: real): (x: real)
    requires ratio > 0.0
    ensures x >= 0.0
  {
    base as real * ratio
  }

  function ErrorDelay(cfg: Config, current: nat): nat
    requires cfg.Valid()
  {
    Grown(cfg, Scaled(Baseline(cfg, current), cfg.ratio))
  }

  function SetDelay(cfg: Config, bucket: Bucket, delay: nat, now: nat): Bucket
    requires cfg.Valid()
  {
    var d := Clamp(delay, cfg.min, cfg.max);
    Bucket(d, Max(bucket.nextAllowedAt, SatAdd(now, d)))
  }

  function NewBucket(cfg: Config): Bucket {
    Bucket(cfg.start, 0)
  }

  function Lookup(cfg: Config, states: map<string, Bucket>, key: string): Bucket {
    if key in states then states[key] else NewBucket(cfg)
  }

  // The gate: admit and book the next slot, or name the waiting time.
  datatype Gate = Continue | Delay(millis: nat)

  function Enter(cfg: Config, bucket: Bucket, now: nat): (Gate, Bucket) {
    if bucket.nextAllowedAt > now then (Delay(Max(bucket.nextAllowedAt - now, 1)), bucket)
    else (Continue, bucket.(nextAllowedAt := SatAdd(now, CurrentDelay(bucket, cfg.start))))
  }

  function Finish(cfg: Config, bucket: Bucket, startedAt: nat, now: nat, outcome: Outcome): Bucket
    requires cfg.Valid()
  {
    var current := CurrentDelay(bucket, cfg.start);
    var next := if outcome == Success then SuccessDelay(cfg, current, SatSub(now, startedAt))
        else ErrorDelay(cfg, current);
    SetDelay(cfg, bucket, next, now)
  }

  // ---------- The middleware object ----------

  class AutoThrottle {
    const enabled: bool
    const base: ValidConfig
    var states: map<string, Bucket>

    // The middleware is dormant unless it was given options.
    constructor (options: Option<Options>)
      ensures enabled == options.Some? && states == map[] && base.InOrder()
      ensures base == NewConfig(if options.Some? then options.value else Options(None, None, None, None, None))
    {
      enabled := options.Some?;
      base := NewConfig(if options.Some? then options.value else Options(None, None, None, None, None));
      states := map[];
    }

    // Options of its own wake the middleware for a request.
    predicate Applies(over: Override) {
      over.Custom? || enabled
    }

    method BeforeDownload(over: Override, key: Result<string, string>, now: nat)
      returns (gate: Result<Gate, string>, startedAt: Option<nat>)
      modifies this
      ensures over.Skip? || !Applies(over) ==> gate == Ok(Continue) && startedAt.None? && states == old(states)
      ensures !over.Skip? && Applies(over) && key.Err? ==>
              gate == Err(key.error) && startedAt.None? && states == old(states)
      ensures !over.Skip? && Applies(over) && key.Ok? ==>
                var cfg := Effective(base, over);
                var (g, b) := Enter(cfg, Lookup(cfg, old(states), key.value), now);
                && gate == Ok(g) && states == old(states)[key.value := b]
                && startedAt == if g.Continue? then Some(now) else None
    {
      if over.Skip? || !Applies(over) {
        return Ok(Continue), None;
      }
      if key.Err? {
        return Err(key.error), None;
      }
      var cfg, bucketKey := Effective(base, over), key.value;
      if bucketKey !in states {
        states := states[bucketKey := NewBucket(cfg)];
      }
      var bucket := states[bucketKey];
      var current := CurrentDelay(bucket, cfg.start);
      if bucket.nextAllowedAt > now {
        return Ok(Delay(Max(SatSub(bucket.nextAllowedAt, now), 1))), None;
      }
      states := states[bucketKey := bucket.(nextAllowedAt := SatAdd(now, current))];
      return Ok(Continue), Some(now);
    }

    method FinishRequest(over: Override, key: Result<string, string>, startedAt: Option<nat>, now: nat,
        outcome: Outcome)
      returns (r: Result<(), string>)
      modifies this
      ensures !Applies(over) || startedAt.None? ==> r == Ok(()) && states == old(states)
      ensures Applies(over) && startedAt.Some? && key.Err? ==> r == Err(key.error) && states == old(states)
      ensures Applies(over) && startedAt.Some? && key.Ok? ==>
                var cfg := Effective(base, over);
                var before := Lookup(cfg, old(states), key.value);
                && r == Ok(())
                && states == old(states)[key.value := Finish(cfg, before, startedAt.value, now, outcome)]
    {
      if !Applies(over) || startedAt.None? {
        return Ok(());
      }
      var latency := SatSub(now, startedAt.value);
      if key.Err? {
        return Err(key.error);
      }
      var cfg, bucketKey := Effective(base, over), key.value;
      if bucketKey !in states {
        states := states[bucketKey := NewBucket(cfg)];
      }
      var bucket := states[bucketKey];
      var current := CurrentDelay(bucket, cfg.start);
      var next;
      match outcome {
        case Success => next := SuccessDelay(cfg, current, latency);
        case Failure => next := ErrorDelay(cfg, current);
      }
      states := states[bucketKey := SetDelay(cfg, bucket, next, now)];
      return Ok(());
    }

    method AfterDownload(over: Override, key: Result<string, string>, startedAt: Option<nat>, now: nat, status: nat)
      returns (r: Result<(), string>)
      modifies this
      ensures Applies(over) && startedAt.Some? && key.Ok? ==>
                var cfg := Effective(base, over);
                var before := Lookup(cfg, old(states), key.value);
                var outcome := if status == 429 || status >= 500 then Failure else Success;
                && r == Ok(())
                && states == old(states)[key.value := Finish(cfg, before, startedAt.value, now, outcome)]
      ensures !(Applies(over) && startedAt.Some? && key.Ok?) ==> states == old(states)
    {
      r := FinishRequest(over, key, startedAt, now, OutcomeOf(status));
    }
  }

  // ---------- Convergence under repeated successes ----------

  function Pow(b: nat, n: nat): nat {
    if n == 0 then 1 else b * Pow(b, n - 1)
  }

  lemma {:induction false} PowPositive(b: nat, n: nat)
    requires b > 0
    ensures Pow(b, n) > 0
  {
    if n > 0 {
      PowPositive(b, n - 1);
    }
  }

  // A finished download: when it was admitted and when it finished.
  datatype Download = Download(startedAt: nat, now: nat)

  // The bucket after a run of downloads that all end the same way.  Admissions in between leave the
  // delay alone.
  function AfterAll(cfg: Config, bucket: Bucket, downloads: seq<Download>, outcome: Outcome): Bucket
    requires cfg.Valid()
  {
    if downloads == [] then bucket
    else
      var last := downloads[|downloads| - 1];
      Finish(cfg, AfterAll(cfg, bucket, downloads[..|downloads| - 1], outcome), last.startedAt, last.now, outcome)
  }

  function DelayAfter(cfg: Config, bucket: Bucket, downloads: seq<Download>, outcome: Outcome): nat
    requires cfg.Valid()
  {
    CurrentDelay(AfterAll(cfg, bucket, downloads, outcome), cfg.start)
  }

  // The interval between the bounds nearest to the latency shared among the target number of downloads; half a
  // millisecond is rounded up.
  predicate IsShare(cfg: Config, latency: nat, d: nat) {
    && cfg.min <= d <= cfg.max
    && (d > cfg.min ==> (d as real - 0.5) * cfg.target <= latency as real)
    && (d < cfg.max ==> latency as real < (d as real + 0.5) * cfg.target)
  }

  lemma Quotient(x: real, y: real, z: real)
    requires y > 0.0
    ensures z <= x / y <==> z * y <= x
  {
    var q := x / y;
    assert q * y == x;
    assert z <= q ==> (q - z) * y >= 0.0;
    assert z > q ==> (z - q) * y > 0.0;
  }

  lemma TargetIsShare(cfg: Config, latency: nat, d: nat)
    requires cfg.Valid()
    ensures ClampedTarget(cfg, latency) == d <==> IsShare(cfg, latency, d)
  {
    var q := latency as real / cfg.target;
    Quotient(latency as real, cfg.target, 0.0);
    Quotient(latency as real, cfg.target, d as real - 0.5);
    Quotient(latency as real, cfg.target, d as real + 0.5);
  }

  // With no delay so far a success sets the share of its latency, and nothing else is one.
  lemma FirstDelayIsShare(cfg: Config, latency: nat, d: nat)
    requires cfg.Valid()
    ensures SuccessDelay(cfg, 0, latency) == d <==> IsShare(cfg, latency, d)
  {
    TargetIsShare(cfg, latency, d);
  }

  // T is the share of every download's latency.
  ghost predicate Targets(cfg: Config, downloads: seq<Download>, T: nat) {
    forall k :: 0 <= k < |downloads| ==> IsShare(cfg, SatSub(downloads[k].now, downloads[k].startedAt), T)
  }

  // One success halves the distance to the target; the sum cannot overflow.
  lemma SuccessStep(cfg: Config, current: nat, latency: nat, T: nat)
    requires cfg.Valid() && cfg.max < TWO_63 && 1 <= current && cfg.min <= current <= cfg.max
    requires T >= 1 && IsShare(cfg, latency, T)
    ensures var next := SuccessDelay(cfg, current, latency);
            && current + T < TWO_64 && 1 <= next && cfg.min <= next <= cfg.max
            && next == if current >= T then T + (current - T) / 2 else T - (T - current + 1) / 2
  {
    TargetIsShare(cfg, latency, T);
    AverageIs(current, T);
    if current >= T {
      assert (current + T) / 2 == T + (current - T) / 2;
    } else {
      assert (current + T) / 2 == T - (T - current + 1) / 2;
    }
  }

  lemma AverageIs(a: nat, b: nat)
    requires a < TWO_63 && b < TWO_63
    ensures Average(a, b) == (a + b) / 2
  {
  }

  lemma Scale(a: nat, b: nat, p: nat)
    requires a <= b
    ensures a * p <= b * p
  {
  }

  // `d` is the target plus x / p rounded down, or the target minus x / p rounded up.
  ghost predicate Approaches(above: bool, T: nat, d: nat, x: nat, p: nat) {
    if above then d >= T && (d - T) * p <= x < (d - T + 1) * p
    else d < T && (T - d - 1) * p < x <= (T - d) * p
  }

  lemma HalvingDown(x: nat, y: nat, p: nat, q: nat)
    requires y * p <= x < (y + 1) * p && q == 2 * p
    ensures (y / 2) * q <= x < (y / 2 + 1) * q
  {
    Scale(2 * (y / 2), y, p);
    Scale(y + 1, 2 * (y / 2 + 1), p);
    assert (y / 2) * (2 * p) == (2 * (y / 2)) * p;
    assert (y / 2 + 1) * (2 * p) == (2 * (y / 2 + 1)) * p;
  }

  lemma HalvingUp(x: nat, y: nat, p: nat, q: nat)
    requires y >= 1 && (y - 1) * p < x <= y * p && q == 2 * p
    ensures ((y + 1) / 2 - 1) * q < x <= ((y + 1) / 2) * q
  {
    var z := (y + 1) / 2;
    Scale(2 * (z - 1), y - 1, p);
    Scale(y, 2 * z, p);
    assert (z - 1) * (2 * p) == (2 * (z - 1)) * p;
    assert z * (2 * p) == (2 * z) * p;
  }

  lemma ApproachStep(above: bool, T: nat, before: nat, next: nat, x: nat, p: nat, q: nat)
    requires Approaches(above, T, before, x, p) && q == 2 * p
    requires next == if before >= T then T + (before - T) / 2 else T - (T - before + 1) / 2
    ensures Approaches(above, T, next, x, q)
  {
    if above {
      HalvingDown(x, before - T, p, q);
    } else {
      HalvingUp(x, T - before, p, q);
    }
  }

  function Distance(a: nat, b: nat): nat {
    if a >= b then a - b else b - a
  }

  // The distance to the target after n successes is the first distance over 2^n, rounded down when the
  // target is approached from above and up when it is approached from below.
  lemma {:induction false} SuccessesHalveTheDistance(cfg: Config, bucket: Bucket, downloads: seq<Download>, T: nat)
    requires cfg.Valid() && cfg.max < TWO_63 && T >= 1 && Targets(cfg, downloads, T)
    requires var current := CurrentDelay(bucket, cfg.start); 1 <= current && cfg.min <= current <= cfg.max
    requires cfg.min <= T <= cfg.max
    ensures var current, d := CurrentDelay(bucket, cfg.start), DelayAfter(cfg, bucket, downloads, Success);
            && 1 <= d && cfg.min <= d <= cfg.max && d + T < TWO_64
            && Approaches(current >= T, T, d, Distance(current, T), Pow(2, |downloads|))
  {
    if downloads != [] {
      var front, last := downloads[..|downloads| - 1], downloads[|downloads| - 1];
      assert forall k :: 0 <= k < |front| ==> front[k] == downloads[k];
      SuccessesHalveTheDistance(cfg, bucket, front, T);
      var current, before := CurrentDelay(bucket, cfg.start), DelayAfter(cfg, bucket, front, Success);
      SuccessStep(cfg, before, SatSub(last.now, last.startedAt), T);
      ApproachStep(current >= T, T, before, DelayAfter(cfg, bucket, downloads, Success), Distance(current, T),
                   Pow(2, |front|), Pow(2, |downloads|));
    }
  }

  // Successes whose latencies all have the share T: once 2^n exceeds the distance T is reached from above; from
  // below the delay settles one millisecond short of it.  A current delay of zero jumps to T at once.
  lemma SuccessesConverge(cfg: Config, bucket: Bucket, downloads: seq<Download>, T: nat)
    requires cfg.Valid() && cfg.max < TWO_63 && T >= 1 && cfg.min <= T <= cfg.max
    requires Targets(cfg, downloads, T) && downloads != []
    requires cfg.min <= CurrentDelay(bucket, cfg.start) <= cfg.max
    ensures var current, d, p := CurrentDelay(bucket, cfg.start), DelayAfter(cfg, bucket, downloads, Success),
            Pow(2, |downloads|);
            && (current == 0 ==> d == T)
            && (current >= T && current - T < p ==> d == T)
            && (0 < current < T && T - current <= p ==> d == T - 1)
  {
    var current, d, p := CurrentDelay(bucket, cfg.start), DelayAfter(cfg, bucket, downloads, Success),
        Pow(2, |downloads|);
    if current == 0 {
      SuccessesFromZero(cfg, bucket, downloads, T);
    } else {
      SuccessesHalveTheDistance(cfg, bucket, downloads, T);
      if current >= T {
        if d > T {
          Scale(1, d - T, p);
        }
      } else if T - d > 1 {
        Scale(1, T - d - 1, p);
      }
    }
  }

  lemma {:induction false} SuccessesFromZero(cfg: Config, bucket: Bucket, downloads: seq<Download>, T: nat)
    requires cfg.Valid() && cfg.max < TWO_63 && T >= 1 && Targets(cfg, downloads, T) && downloads != []
    requires CurrentDelay(bucket, cfg.start) == 0
    ensures AfterAll(cfg, bucket, downloads, Success).delay == T
  {
    var front, last := downloads[..|downloads| - 1], downloads[|downloads| - 1];
    var before, latency := AfterAll(cfg, bucket, front, Success), SatSub(last.now, last.startedAt);
    assert forall k :: 0 <= k < |front| ==> front[k] == downloads[k];
    FirstDelayIsShare(cfg, latency, T);
    assert AfterAll(cfg, bucket, downloads, Success) == Finish(cfg, before, last.startedAt, last.now, Success);
    if front == [] {
      assert before == bucket && SuccessDelay(cfg, 0, latency) == T;
    } else {
      SuccessesFromZero(cfg, bucket, front, T);
      assert CurrentDelay(before, cfg.start) == T;
      SuccessStep(cfg, T, latency, T);
    }
  }

  // A zero target is different: the stored zero is read back as the start interval.  It is a resting point
  // exactly when the start interval is at most one, or the maximum holds every delay at zero.
  lemma ZeroTargetRestsOnlyWithoutStart(cfg: Config, latency: nat)
    requires cfg.Valid() && IsShare(cfg, latency, 0)
    ensures SuccessDelay(cfg, CurrentDelay(Bucket(0, 0), cfg.start), latency) == 0 <==> cfg.start <= 1 || cfg.max == 0
  {
    TargetIsShare(cfg, latency, 0);
  }

  // ---------- Which settings are in force ----------

  // A request's own options win one by one: a setting it gives does not depend on the middleware's, and one it does
  // not give is the middleware's; only a maximum below the minimum gives way to it.
  lemma RequestOptionsWin(a: ValidConfig, b: ValidConfig, o: Options)
    ensures var x, y := Effective(a, Custom(o)), Effective(b, Custom(o));
            && (if o.start.Some? then x.start == y.start else x.start == a.start)
            && (if o.min.Some? then x.min == y.min else x.min == a.min)
            && (if o.max.Some? && o.min.Some? then x.max == y.max
                else o.max.None? ==> x.max == if a.max < x.min then x.min else a.max)
            && (if o.target.Some? && o.target.value > 0.0 then x.target == o.target.value else x.target == a.target)
            && (if o.ratio.Some? && o.ratio.value > 0.0 then x.ratio == o.ratio.value else x.ratio == a.ratio)
  {
  }

  function Whole(n: nat): Option<real> {
    Some(n as real)
  }

  // Options that are in order and whole milliseconds are taken as they are, by the middleware and by a request;
  // without options the delay lies between nothing and a minute and errors double it.
  lemma OrderedOptionsAreKept(base: ValidConfig, target: real, start: nat, min: nat, max: nat, ratio: real)
    requires target > 0.0 && ratio > 0.0 && min <= start <= max <= U64_MAX
    ensures var options := Options(Some(target), Whole(start), Whole(min), Whole(max), Some(ratio));
            && NewConfig(options) == Config(target, start, min, max, ratio)
            && Effective(base, Custom(options)) == Config(target, start, min, max, ratio)
    ensures NewConfig(Options(None, None, None, None, None)) == Config(1.0, 0, 0, 60_000, 2.0)
  {
    WholeRounds(start);
    WholeRounds(min);
    WholeRounds(max);
  }

  lemma WholeRounds(n: nat)
    ensures Round(n as real) == n
  {
  }

  // ---------- Growth under repeated errors ----------

  lemma ScaledByWhole(base: nat, r: nat, product: nat)
    requires r >= 1 && product == r * base
    ensures Scaled(base, r as real) == product as real
  {
  }

  lemma ErrorStep(cfg: Config, current: nat, r: nat, product: nat)
    requires cfg.Valid() && r >= 1 && cfg.ratio == r as real && 1 <= cfg.max
    requires product == r * Baseline(cfg, current)
    ensures 1 <= product && ErrorDelay(cfg, current) == Min(cfg.max, product)
  {
    var base := Baseline(cfg, current);
    ScaledByWhole(base, r, product);
    Scale(1, r, base);
  }

  // A value capped before it is multiplied and capped again might as well be capped once.
  lemma CapOnce(r: nat, p: nat, base: nat, cap: nat, before: nat)
    requires r >= 1 && before == Min(cap, p * base)
    ensures Min(cap, r * before) == Min(cap, (r * p) * base)
  {
    var x := p * base;
    assert (r * p) * base == r * x;
    if x > cap {
      Scale(1, r, cap);
      Scale(1, r, x);
    }
  }

  // One more error on top of a delay that is already a capped product.
  lemma ErrorOnProduct(cfg: Config, before: nat, r: nat, p: nat, base: nat)
    requires cfg.Valid() && r >= 1 && cfg.ratio == r as real && 1 <= cfg.max
    requires p >= 1 && base >= 1 && base >= cfg.min && before == Min(cfg.max, p * base)
    ensures 1 <= ErrorDelay(cfg, before) == Min(cfg.max, (r * p) * base)
  {
    Scale(1, p, base);
    ErrorStep(cfg, before, r, r * before);
    CapOnce(r, p, base, cfg.max, before);
  }

  lemma OneErrorGrows(cfg: Config, bucket: Bucket, download: Download, r: nat)
    requires cfg.Valid() && r >= 1 && cfg.ratio == r as real && 1 <= cfg.max
    ensures var base := Baseline(cfg, CurrentDelay(bucket, cfg.start));
            1 <= Finish(cfg, bucket, download.startedAt, download.now, Failure).delay == Min(cfg.max, r * base)
  {
    var current := CurrentDelay(bucket, cfg.start);
    ErrorStep(cfg, current, r, r * Baseline(cfg, current));
  }

  lemma NextErrorGrows(cfg: Config, bucket: Bucket, download: Download, r: nat, p: nat, base: nat)
    requires cfg.Valid() && r >= 1 && cfg.ratio == r as real && 1 <= cfg.max
    requires p >= 1 && base >= 1 && base >= cfg.min && bucket.delay == Min(cfg.max, p * base)
    ensures Finish(cfg, bucket, download.startedAt, download.now, Failure).delay == Min(cfg.max, (r * p) * base)
  {
    Scale(1, p, base);
    assert CurrentDelay(bucket, cfg.start) == bucket.delay;
    ErrorOnProduct(cfg, bucket.delay, r, p, base);
  }

  // With an integer ratio, k >= 1 errors in a row multiply the delay by its k-th power, up to the maximum.
  lemma {:induction false} ErrorsGrowExponentially(cfg: Config, bucket: Bucket, downloads: seq<Download>, r: nat)
    requires cfg.Valid() && r >= 1 && cfg.ratio == r as real && downloads != []
    ensures AfterAll(cfg, bucket, downloads, Failure).delay
         == Min(cfg.max, Pow(r, |downloads|) * Baseline(cfg, CurrentDelay(bucket, cfg.start)))
  {
    var front, last := downloads[..|downloads| - 1], downloads[|downloads| - 1];
    var base, before := Baseline(cfg, CurrentDelay(bucket, cfg.start)), AfterAll(cfg, bucket, front, Failure);
    assert AfterAll(cfg, bucket, downloads, Failure) == Finish(cfg, before, last.startedAt, last.now, Failure);
    if cfg.max == 0 {
    } else if front == [] {
      assert Pow(r, 1) == r * Pow(r, 0) == r;
      OneErrorGrows(cfg, bucket, last, r);
    } else {
      ErrorsGrowExponentially(cfg, bucket, front, r);
      PowPositive(r, |front|);
      NextErrorGrows(cfg, before, last, r, Pow(r, |front|), base);
      assert Pow(r, |downloads|) == r * Pow(r, |front|);
    }
  }

  lemma ScaledAtLeast(base: nat, ratio: real)
    requires ratio >= 1.0
    ensures Scaled(base, ratio) >= base as real
  {
    assert base as real * (ratio - 1.0) >= 0.0;
  }

  // With any ratio of at least one, an error never lowers the delay.
  lemma ErrorsNeverSpeedUp(cfg: Config, current: nat)
    requires cfg.Valid() && cfg.ratio >= 1.0 && current <= cfg.max
    ensures ErrorDelay(cfg, current) >= current
  {
    var base := Baseline(cfg, current);
    ScaledAtLeast(base, cfg.ratio);
  }

  // ---------- Spacing in every interleaving ----------

  // The clock is read before the lock is taken, so reading and committing are separate steps.  Each request
  // comes with the settings in force for it.
  datatype Action =
    | ReadEnter(ctx: nat, cfg: ValidConfig, key: string, now: nat)
    | CommitEnter(ctx: nat)
    | ReadFinish(ctx: nat, now: nat, outcome: Outcome)
    | CommitFinish(ctx: nat)

  // A download context: its settings, the reading it holds for its next commit, and the time it was admitted.
  datatype Context = Context(
    cfg: ValidConfig,
    key: string,
    entering: Option<nat>,
    startedAt: Option<nat>,
    finishing: Option<(nat, Outcome)>)

  // What the gate did for a bucket: admitted a request read at `time`, or set a delay at `time`.
  datatype Entry = Admitted(key: string, time: nat, delay: nat) | Settled(key: string, time: nat, delay: nat)

  datatype System = System(states: map<string, Bucket>, contexts: map<nat, Context>, log: seq<Entry>)

  function Act(sys: System, action: Action): System {
    match action
    case ReadEnter(ctx, cfg, key, now) =>
      sys.(contexts := sys.contexts[ctx := Context(cfg, key, Some(now), None, None)])
    case CommitEnter(ctx) =>
      if ctx !in sys.contexts || sys.contexts[ctx].entering.None? then sys
      else
        var c := sys.contexts[ctx];
        var before := Lookup(c.cfg, sys.states, c.key);
        var (gate, after) := Enter(c.cfg, before, c.entering.value);
        System(sys.states[c.key := after],
               sys.contexts[ctx := c.(entering := None, startedAt := if gate.Continue? then c.entering else None)],
               if gate.Delay? then sys.log
               else sys.log + [Admitted(c.key, c.entering.value, CurrentDelay(before, c.cfg.start))])
    case ReadFinish(ctx, now, outcome) =>
      if ctx !in sys.contexts then sys
      else sys.(contexts := sys.contexts[ctx := sys.contexts[ctx].(finishing := Some((now, outcome)))])
    case CommitFinish(ctx) =>
      if ctx !in sys.contexts || sys.contexts[ctx].finishing.None? || sys.contexts[ctx].startedAt.None? then sys
      else
        var c := sys.contexts[ctx];
        var (now, outcome) := c.finishing.value;
        var after := Finish(c.cfg, Lookup(c.cfg, sys.states, c.key), c.startedAt.value, now, outcome);
        System(sys.states[c.key := after], sys.contexts[ctx := c.(finishing := None)],
               sys.log + [Settled(c.key, now, after.delay)])
  }

  function Exec(actions: seq<Action>): System {
    if actions == [] then System(map[], map[], [])
    else Act(Exec(actions[..|actions| - 1]), actions[|actions| - 1])
  }

  ghost predicate ClocksFit(actions: seq<Action>) {
    forall k :: 0 <= k < |actions| && (actions[k].ReadEnter? || actions[k].ReadFinish?) ==> actions[k].now <= U64_MAX
  }

  // Settings between two bounds.
  predicate Between(cfg: Config, lo: nat, hi: nat) {
    lo <= cfg.min && cfg.max <= hi && lo <= cfg.start <= hi
  }

  ghost predicate AllBetween(actions: seq<Action>, lo: nat, hi: nat) {
    forall k :: 0 <= k < |actions| && actions[k].ReadEnter? ==> Between(actions[k].cfg, lo, hi)
  }

  // Every booking is reflected in the next admission time of its bucket, and every admission respected
  // all earlier bookings.
  ghost predicate Spaced(log: seq<Entry>) {
    forall i, j :: 0 <= i < j < |log| && log[i].key == log[j].key && log[j].Admitted? ==>
      SatAdd(log[i].time, log[i].delay) <= log[j].time
  }

  ghost predicate Booked(states: map<string, Bucket>, log: seq<Entry>) {
    forall i :: 0 <= i < |log| ==>
      log[i].key in states && SatAdd(log[i].time, log[i].delay) <= states[log[i].key].nextAllowedAt
  }

  ghost predicate ReadingsFit(sys: System) {
    forall ctx :: ctx in sys.contexts ==>
      && (sys.contexts[ctx].entering.Some? ==> sys.contexts[ctx].entering.value <= U64_MAX)
      && (sys.contexts[ctx].finishing.Some? ==> sys.contexts[ctx].finishing.value.0 <= U64_MAX)
  }

  ghost predicate Good(sys: System) {
    Spaced(sys.log) && Booked(sys.states, sys.log) && ReadingsFit(sys)
  }

  // No step ever moves the next admission time of a bucket backwards.
  lemma NextAllowedNeverDecreases(sys: System, action: Action, key: string)
    requires ReadingsFit(sys) && key in sys.states
    ensures key in Act(sys, action).states
    ensures sys.states[key].nextAllowedAt <= Act(sys, action).states[key].nextAllowedAt
  {
  }

  lemma ActKeepsGood(sys: System, action: Action)
    requires Good(sys)
    requires action.ReadEnter? || action.ReadFinish? ==> action.now <= U64_MAX
    ensures Good(Act(sys, action))
  {
    var next := Act(sys, action);
    forall i | 0 <= i < |sys.log|
      ensures sys.log[i].key in next.states
      ensures SatAdd(sys.log[i].time, sys.log[i].delay) <= next.states[sys.log[i].key].nextAllowedAt
    {
      NextAllowedNeverDecreases(sys, action, sys.log[i].key);
    }
  }

  lemma {:induction false} RunsAreGood(actions: seq<Action>)
    requires ClocksFit(actions)
    ensures Good(Exec(actions))
  {
    if actions != [] {
      var front, last := actions[..|actions| - 1], actions[|actions| - 1];
      assert forall k :: 0 <= k < |front| ==> front[k] == actions[k];
      RunsAreGood(front);
      ActKeepsGood(Exec(front), last);
    }
  }

  // In every interleaving, whatever settings the requests bring, an admission read at t2 after an admission read
  // at t1 with delay d, or after a finish at t1 that set delay d, has t2 >= t1 + d (below u64 saturation).
  lemma AdmissionsAreSpaced(actions: seq<Action>, i: nat, j: nat)
    requires ClocksFit(actions) && i < j < |Exec(actions).log|
    requires var log := Exec(actions).log; log[i].key == log[j].key && log[j].Admitted?
    ensures var log := Exec(actions).log; log[j].time >= Min(log[i].time + log[i].delay, U64_MAX)
  {
    RunsAreGood(actions);
  }

  // A bucket's next admission time is that of one of its bookings.
  ghost predicate FromBookings(sys: System) {
    forall key :: key in sys.states && sys.states[key].nextAllowedAt > 0 ==>
      exists i :: 0 <= i < |sys.log| && BooksUntil(sys.log[i], key, sys.states[key].nextAllowedAt)
  }

  predicate BooksUntil(entry: Entry, key: string, time: nat) {
    entry.key == key && SatAdd(entry.time, entry.delay) == time
  }

  lemma ActKeepsFromBookings(sys: System, action: Action)
    requires FromBookings(sys) && ReadingsFit(sys)
    ensures FromBookings(Act(sys, action))
  {
    var next := Act(sys, action);
    forall key | key in next.states && next.states[key].nextAllowedAt > 0
      ensures exists i :: 0 <= i < |next.log| && BooksUntil(next.log[i], key, next.states[key].nextAllowedAt)
    {
      if key in sys.states && next.states[key].nextAllowedAt == sys.states[key].nextAllowedAt {
        var i :| 0 <= i < |sys.log| && BooksUntil(sys.log[i], key, sys.states[key].nextAllowedAt);
        assert BooksUntil(next.log[i], key, next.states[key].nextAllowedAt);
      } else {
        assert BooksUntil(next.log[|next.log| - 1], key, next.states[key].nextAllowedAt);
      }
    }
  }

  lemma {:induction false} RunsAreFromBookings(actions: seq<Action>)
    requires ClocksFit(actions)
    ensures FromBookings(Exec(actions))
  {
    if actions != [] {
      var front, last := actions[..|actions| - 1], actions[|actions| - 1];
      assert forall k :: 0 <= k < |front| ==> front[k] == actions[k];
      RunsAreFromBookings(front);
      RunsAreGood(front);
      ActKeepsFromBookings(Exec(front), last);
    }
  }

  // After any interleaving a request is admitted if and only if its reading lies behind every booking of its
  // bucket: an admission or finish at t with delay d, up to t + d.
  lemma AdmittedExactlyWhenSpaced(actions: seq<Action>, cfg: ValidConfig, key: string, now: nat)
    requires ClocksFit(actions)
    ensures var sys := Exec(actions);
            Enter(cfg, Lookup(cfg, sys.states, key), now).0.Continue?
            <==> forall i :: 0 <= i < |sys.log| && sys.log[i].key == key ==>
                   SatAdd(sys.log[i].time, sys.log[i].delay) <= now
  {
    RunsAreGood(actions);
    RunsAreFromBookings(actions);
    var sys := Exec(actions);
    if key in sys.states && sys.states[key].nextAllowedAt > 0 {
      var i :| 0 <= i < |sys.log| && BooksUntil(sys.log[i], key, sys.states[key].nextAllowedAt);
    }
  }

  // The wait a refused request is told is exact: while nothing is booked it is refused until then, and admitted then.
  lemma RefusedWaitIsExact(cfg: ValidConfig, bucket: Bucket, now: nat, later: nat)
    requires Enter(cfg, bucket, now).0.Delay? && now <= later
    ensures var (gate, after) := Enter(cfg, bucket, now);
            after == bucket && (Enter(cfg, bucket, later).0.Continue? <==> now + gate.millis <= later)
  {
  }

  ghost predicate DelaysBetween(sys: System, lo: nat, hi: nat) {
    && (forall key :: key in sys.states ==> lo <= sys.states[key].delay <= hi)
    && (forall ctx :: ctx in sys.contexts ==> Between(sys.contexts[ctx].cfg, lo, hi))
  }

  lemma ActKeepsDelaysBetween(sys: System, action: Action, lo: nat, hi: nat)
    requires DelaysBetween(sys, lo, hi) && (action.ReadEnter? ==> Between(action.cfg, lo, hi))
    ensures DelaysBetween(Act(sys, action), lo, hi)
  {
  }

  // Stored delays stay between any bounds that the settings of all requests respect.
  lemma {:induction false} StoredDelaysStayInRange(actions: seq<Action>, lo: nat, hi: nat)
    requires AllBetween(actions, lo, hi)
    ensures DelaysBetween(Exec(actions), lo, hi)
  {
    if actions != [] {
      var front, last := actions[..|actions| - 1], actions[|actions| - 1];
      assert forall k :: 0 <= k < |front| ==> front[k] == actions[k];
      StoredDelaysStayInRange(front, lo, hi);
      ActKeepsDelaysBetween(Exec(front), last, lo, hi);
    }
  }
}
