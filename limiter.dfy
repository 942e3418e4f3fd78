/**
 * The rate limiter as the service holds it: a `TokenBucket` object updated in place,
 * and a `RateLimiter` whose maps own their buckets by value, as Rust's `HashMap`s do.
 * Each method is proved to act as the corresponding value-level function of `RateLimit`.
 */
module Limiter {
  import opened Wrappers
  import opened Bytes
  import opened WebmentionConfig
  import RL = RateLimit

  class TokenBucket {
    var tokens: real
    var maxTokens: real
    var refillRate: real
    var lastRefill: real
    var requestTimes: seq<real>

    /** The bucket's fields as a value. */
    function State(): RL.Bucket
      reads this
    {
      RL.Bucket(tokens, maxTokens, refillRate, lastRefill, requestTimes)
    }

    /** `TokenBucket::new`, created at the instant `now`. */
    constructor(maxRatePerMinute: u32, now: real)
      ensures State() == RL.NewBucket(maxRatePerMinute, now)
    {
      tokens := maxRatePerMinute as real;
      maxTokens := maxRatePerMinute as real;
      refillRate := maxRatePerMinute as real / 60.0;
      lastRefill := now;
      requestTimes := [];
    }

    /** A bucket taken out of a map to be updated through its methods. */
    constructor FromState(b: RL.Bucket)
      ensures State() == b
    {
      tokens, maxTokens, refillRate, lastRefill, requestTimes :=
        b.tokens, b.maxTokens, b.refillRate, b.lastRefill, b.requestTimes;
    }

    /** `refill`. */
    method Refill(now: real)
      modifies this`tokens, this`lastRefill
      ensures State() == RL.Refill(old(State()), now)
    {
      var elapsed := RL.Elapsed(now, lastRefill);
      tokens := RL.MinReal(tokens + elapsed * refillRate, maxTokens);
      lastRefill := now;
    }

    /** `try_consume`. */
    method TryConsume(now: real) returns (ok: bool)
      modifies this`tokens, this`lastRefill, this`requestTimes
      ensures (ok, State()) == RL.TryConsume(old(State()), now)
    {
      Refill(now);
      if tokens >= 1.0 {
        tokens := tokens - 1.0;
        requestTimes := requestTimes + [now];
        ok := true;
      } else {
        ok := false;
      }
    }

    /** `remaining`. */
    function Remaining(): u32
      reads this
    {
      RL.RemainingOf(State())
    }

    /** `time_until_available`; a zero refill rate with no token left has no finite answer. */
    function TimeUntilAvailable(): real
      reads this
      requires tokens >= 1.0 || refillRate > 0.0
    {
      RL.TimeUntilAvailable(State())
    }

    /** `detect_burst`: `retain` the young timestamps, then compare with the threshold. */
    method DetectBurst(thresholdMultiplier: real, now: real) returns (burst: bool)
      modifies this`requestTimes
      ensures (burst, State()) == RL.DetectBurst(old(State()), thresholdMultiplier, now)
    {
      requestTimes := RL.Recent(requestTimes, now);
      var threshold := RL.BurstThreshold(maxTokens, thresholdMultiplier);
      burst := |requestTimes| > threshold;
    }
  }

  class RateLimiter {
    const config: RateLimitConfig
    /** `normalize_source_url`, which rests on the `url` crate. */
    const normalize: string -> string
    var ipBuckets: map<RL.IpAddr, RL.Bucket>
    var sourceBuckets: map<string, RL.Bucket>
    var cooldowns: map<RL.IpAddr, real>

    /** The three maps as one value. */
    function State(): RL.LimiterState
      reads this
    {
      RL.LimiterState(ipBuckets, sourceBuckets, cooldowns)
    }

    ghost predicate Valid()
      reads this
    {
      RL.StateValid(config, State())
    }

    /** `RateLimiter::new`; the rates must be positive, as a zero rate panics on the first refusal. */
    constructor(config: RateLimitConfig, normalize: string -> string)
      requires config.maxRateRpm > 0 && config.maxRatePerSource > 0
      ensures Valid() && State() == RL.EmptyState
      ensures this.config == config && this.normalize == normalize
    {
      this.config := config;
      this.normalize := normalize;
      ipBuckets := map[];
      sourceBuckets := map[];
      cooldowns := map[];
    }

    /** `check_ip`. */
    method CheckIp(ip: RL.IpAddr, now: real) returns (r: RL.RateLimitResult)
      requires Valid()
      modifies this
      ensures Valid()
      ensures (r, State()) == RL.CheckIp(config, old(State()), ip, now)
    {
      if ip in cooldowns && now < cooldowns[ip] {
        return RL.Limited(RL.BurstCooldown, cooldowns[ip] - now);
      }
      var bucket := new TokenBucket.FromState(
        if ip in ipBuckets then ipBuckets[ip] else RL.NewBucket(config.maxRateRpm, now));
      var burst := bucket.DetectBurst(config.burstThresholdMultiplier, now);
      if burst {
        var cooldown := config.CooldownDuration();
        cooldowns := cooldowns[ip := now + cooldown];
        r := RL.Limited(RL.BurstCooldown, cooldown);
      } else {
        var ok := bucket.TryConsume(now);
        if ok {
          r := RL.Allowed(bucket.Remaining(), config.WindowDuration());
        } else {
          assert bucket.refillRate > 0.0;
          r := RL.Limited(RL.IpRateExceeded, bucket.TimeUntilAvailable());
        }
      }
      ipBuckets := ipBuckets[ip := bucket.State()];
    }

    /** `check_source`. */
    method CheckSource(sourceUrl: string, now: real) returns (r: RL.RateLimitResult)
      requires Valid()
      modifies this
      ensures Valid()
      ensures (r, State()) == RL.CheckSource(config, normalize, old(State()), sourceUrl, now)
    {
      var key := normalize(sourceUrl);
      var bucket := new TokenBucket.FromState(
        if key in sourceBuckets then sourceBuckets[key] else RL.NewBucket(config.maxRatePerSource, now));
      var ok := bucket.TryConsume(now);
      if ok {
        r := RL.Allowed(bucket.Remaining(), config.WindowDuration());
      } else {
        assert bucket.refillRate > 0.0;
        r := RL.Limited(RL.SourceRateExceeded, bucket.TimeUntilAvailable());
      }
      sourceBuckets := sourceBuckets[key := bucket.State()];
    }

    /** `check`: the IP first, then the source if one is given. */
    method Check(ip: RL.IpAddr, sourceUrl: Option<string>, now: real) returns (r: RL.RateLimitResult)
      requires Valid()
      modifies this
      ensures Valid()
      ensures (r, State()) == RL.Check(config, normalize, old(State()), ip, sourceUrl, now)
    {
      var ipResult := CheckIp(ip, now);
      if ipResult.Limited? {
        return ipResult;
      }
      if sourceUrl.Some? {
        var sourceResult := CheckSource(sourceUrl.value, now);
        if sourceResult.Limited? {
          return sourceResult;
        }
      }
      r := ipResult;
    }

    /** `cleanup`: `retain` on the three maps. */
    method Cleanup(now: real)
      requires Valid()
      modifies this
      ensures Valid()
      ensures State() == RL.Cleanup(old(State()), now)
    {
      ghost var st := State();
      ipBuckets := map ip | ip in ipBuckets && RL.Elapsed(now, ipBuckets[ip].lastRefill) < RL.STALE_THRESHOLD
        :: ipBuckets[ip];
      sourceBuckets := map s | s in sourceBuckets && RL.Elapsed(now, sourceBuckets[s].lastRefill) < RL.STALE_THRESHOLD
        :: sourceBuckets[s];
      cooldowns := map ip | ip in cooldowns && now < cooldowns[ip] :: cooldowns[ip];
      RL.CleanupCorrect(config, st, now);
    }
  }
}
