/**
 * The token-bucket rate limiter of the Webmention service, as values: a bucket per
 * client IP and per normalised source URL, a cooldown per IP after a burst, and the
 * periodic clean-up. Time is an explicit `now` in exact `real` seconds, and tokens
 * are exact `real`s.
 */
module RateLimit {
  import opened Wrappers
  import opened Bytes
  import opened WebmentionConfig

  /** A client address; the generators only produce IPv4 addresses. */
  datatype IpAddr = V4(a: byte, b: byte, c: byte, d: byte) | V6(segments: seq<u16>)

  /** Timestamps younger than this count towards a burst. */
  const BURST_WINDOW: real := 10.0

  /** Buckets not refilled for this long are dropped by `cleanup`. */
  const STALE_THRESHOLD: real := 300.0

  /** `Instant::duration_since`, which saturates at zero for a later `since`. */
  function Elapsed(now: real, since: real): real
  {
    if now > since then now - since else 0.0
  }

  function MinReal(a: real, b: real): real
  {
    if a <= b then a else b
  }

  function MaxReal(a: real, b: real): real
  {
    if a >= b then a else b
  }

  /** A floating-point to integer `as` cast: truncation, saturating at both ends. */
  function SaturatingToU32(x: real): (n: u32)
    ensures 0.0 <= x < U32_MAX as real ==> n as real <= x < n as real + 1.0
  {
    if x < 0.0 then 0 else if x.Floor > U32_MAX then U32_MAX else x.Floor
  }

  /** The state of one `TokenBucket`. */
  datatype Bucket = Bucket(tokens: real, maxTokens: real, refillRate: real, lastRefill: real, requestTimes: seq<real>)
  {
    /** Tokens stay between zero and the capacity; the bucket refills in one minute. */
    predicate Valid()
    {
      0.0 <= tokens <= maxTokens && refillRate * 60.0 == maxTokens
    }
  }

  /** `TokenBucket::new`: a full bucket whose capacity is the per-minute rate. */
  function NewBucket(maxRatePerMinute: u32, now: real): (b: Bucket)
    ensures b.Valid() && b.tokens == b.maxTokens == maxRatePerMinute as real
    ensures b.lastRefill == now && b.requestTimes == []
  {
    Bucket(maxRatePerMinute as real, maxRatePerMinute as real, maxRatePerMinute as real / 60.0, now, [])
  }

  /** `refill`: add the tokens earned since the last refill, up to the capacity. */
  function Refill(b: Bucket, now: real): (r: Bucket)
    ensures r == b.(tokens := r.tokens, lastRefill := now)
    ensures r.tokens <= b.maxTokens && r.tokens <= b.tokens + Elapsed(now, b.lastRefill) * b.refillRate
    ensures r.tokens == b.maxTokens || r.tokens == b.tokens + Elapsed(now, b.lastRefill) * b.refillRate
    ensures b.Valid() ==> r.Valid() && b.tokens <= r.tokens
    ensures b.Valid() && now <= b.lastRefill ==> r.tokens == b.tokens
  {
    b.(tokens := MinReal(b.tokens + Elapsed(now, b.lastRefill) * b.refillRate, b.maxTokens), lastRefill := now)
  }

  /**
   * `try_consume`: refill, then take one token and log the request if one is
   * available. A refused request leaves only the refill behind.
   */
  function TryConsume(b: Bucket, now: real): (r: (bool, Bucket))
    ensures r.0 <==> Refill(b, now).tokens >= 1.0
    ensures r.0 ==> r.1 == Refill(b, now).(tokens := Refill(b, now).tokens - 1.0, requestTimes := b.requestTimes + [now])
    ensures !r.0 ==> r.1 == Refill(b, now)
    ensures b.Valid() ==> r.1.Valid()
  {
    var refilled := Refill(b, now);
    if refilled.tokens >= 1.0 then
      (true, refilled.(tokens := refilled.tokens - 1.0, requestTimes := refilled.requestTimes + [now]))
    else
      (false, refilled)
  }

  /** `remaining`: the whole tokens left. */
  function RemainingOf(b: Bucket): (n: u32)
    ensures b.Valid() && b.maxTokens <= U32_MAX as real ==> n as real <= b.tokens < n as real + 1.0
  {
    SaturatingToU32(b.tokens)
  }

  /** `time_until_available`: the wait until a whole token has been refilled. */
  function TimeUntilAvailable(b: Bucket): (d: real)
    requires b.tokens >= 1.0 || b.refillRate > 0.0
    ensures b.tokens >= 1.0 ==> d == 0.0
    ensures b.tokens < 1.0 ==> d > 0.0 && b.tokens + d * b.refillRate == 1.0
  {
    if b.tokens >= 1.0 then 0.0 else (1.0 - b.tokens) / b.refillRate
  }

  /** Waiting the advertised time refills the bucket to a whole token. */
  lemma RefillAfterWait(b: Bucket)
    requires b.Valid() && b.tokens < 1.0 && b.refillRate > 0.0 && b.maxTokens >= 1.0
    ensures Refill(b, b.lastRefill + TimeUntilAvailable(b)).tokens == 1.0
  {
    var d := TimeUntilAvailable(b);
    assert Elapsed(b.lastRefill + d, b.lastRefill) == d;
  }

  /** The request timestamps that `retain` keeps: those younger than the burst window. */
  function Recent(times: seq<real>, now: real): (kept: seq<real>)
    ensures |kept| <= |times|
  {
    if times == [] then []
    else (if Elapsed(now, times[0]) < BURST_WINDOW then [times[0]] else []) + Recent(times[1..], now)
  }

  /** `Recent` keeps exactly the young timestamps. */
  lemma {:induction false} RecentCorrect(times: seq<real>, now: real)
    ensures forall t :: t in Recent(times, now) <==> t in times && Elapsed(now, t) < BURST_WINDOW
  {
    if times != [] {
      RecentCorrect(times[1..], now);
      assert times == [times[0]] + times[1..];
    }
  }

  /** When every timestamp is young, nothing is dropped. */
  lemma {:induction false} RecentAllYoung(times: seq<real>, now: real)
    requires forall i :: 0 <= i < |times| ==> Elapsed(now, times[i]) < BURST_WINDOW
    ensures Recent(times, now) == times
  {
    if times != [] {
      RecentAllYoung(times[1..], now);
      assert times == [times[0]] + times[1..];
    }
  }

  /**
   * The burst threshold: the expected count in ten seconds (a sixth of the capacity,
   * at least one) times the multiplier, at least three, truncated.
   */
  function BurstThreshold(maxTokens: real, multiplier: real): (t: nat)
    ensures t >= 3
  {
    MaxReal(MaxReal(maxTokens / 6.0, 1.0) * multiplier, 3.0).Floor
  }

  /** With the default 60 rpm and multiplier 3, a burst is more than 30 requests in ten seconds. */
  lemma DefaultBurstThreshold()
    ensures BurstThreshold(60.0, 3.0) == 30
  {
    assert MaxReal(60.0 / 6.0, 1.0) == 10.0;
  }

  /** `detect_burst`: drop old timestamps, then compare the count with the threshold. */
  function DetectBurst(b: Bucket, multiplier: real, now: real): (r: (bool, Bucket))
    ensures r.1 == b.(requestTimes := Recent(b.requestTimes, now))
    ensures r.0 <==> |Recent(b.requestTimes, now)| > BurstThreshold(b.maxTokens, multiplier)
    ensures b.Valid() ==> r.1.Valid()
  {
    var kept := Recent(b.requestTimes, now);
    (|kept| > BurstThreshold(b.maxTokens, multiplier), b.(requestTimes := kept))
  }

  datatype RateLimitReason = IpRateExceeded | SourceRateExceeded | BurstCooldown

  datatype RateLimitResult =
    | Allowed(remaining: u32, resetIn: real)
    | Limited(reason: RateLimitReason, retryAfter: real)

  /** The limiter's three maps; a cooldown maps an IP to the instant it ends. */
  datatype LimiterState = LimiterState(
    ipBuckets: map<IpAddr, Bucket>,
    sourceBuckets: map<string, Bucket>,
    cooldowns: map<IpAddr, real>
  )

  const EmptyState := LimiterState(map[], map[], map[])

  /**
   * Every bucket is valid, and its capacity is the configured rate of its map, which
   * must be positive: a zero rate makes the retry time infinite and the service panic.
   */
  ghost predicate StateValid(cfg: RateLimitConfig, st: LimiterState)
  {
    && cfg.maxRateRpm > 0 && cfg.maxRatePerSource > 0
    && (forall ip :: ip in st.ipBuckets ==>
          st.ipBuckets[ip].Valid() && st.ipBuckets[ip].maxTokens == cfg.maxRateRpm as real)
    && (forall s :: s in st.sourceBuckets ==>
          st.sourceBuckets[s].Valid() && st.sourceBuckets[s].maxTokens == cfg.maxRatePerSource as real)
  }

  /** An IP is cooling down while `now` is before the recorded end. */
  predicate CoolingDown(st: LimiterState, ip: IpAddr, now: real)
  {
    ip in st.cooldowns && now < st.cooldowns[ip]
  }

  /** The IP's bucket, or the fresh one `entry().or_insert_with` would create. */
  function IpBucket(cfg: RateLimitConfig, st: LimiterState, ip: IpAddr, now: real): Bucket
  {
    if ip in st.ipBuckets then st.ipBuckets[ip] else NewBucket(cfg.maxRateRpm, now)
  }

  /** The source's bucket, or a fresh one. */
  function SourceBucket(cfg: RateLimitConfig, st: LimiterState, key: string, now: real): Bucket
  {
    if key in st.sourceBuckets then st.sourceBuckets[key] else NewBucket(cfg.maxRatePerSource, now)
  }

  /**
   * `check_ip`: an active cooldown refuses first, without touching the buckets; then a
   * detected burst starts a cooldown and refuses without spending a token; otherwise
   * the bucket decides.
   */
  function CheckIp(cfg: RateLimitConfig, st: LimiterState, ip: IpAddr, now: real): (r: (RateLimitResult, LimiterState))
    requires StateValid(cfg, st)
    ensures StateValid(cfg, r.1)
    ensures r.1.sourceBuckets == st.sourceBuckets
    ensures r.0.Limited? ==> r.0.reason != SourceRateExceeded
  {
    if CoolingDown(st, ip, now) then
      (Limited(BurstCooldown, st.cooldowns[ip] - now), st)
    else
      var (burst, b1) := DetectBurst(IpBucket(cfg, st, ip, now), cfg.burstThresholdMultiplier, now);
      if burst then
        var cooldown := cfg.CooldownDuration();
        (Limited(BurstCooldown, cooldown),
         st.(ipBuckets := st.ipBuckets[ip := b1], cooldowns := st.cooldowns[ip := now + cooldown]))
      else
        var (ok, b2) := TryConsume(b1, now);
        var st' := st.(ipBuckets := st.ipBuckets[ip := b2]);
        if ok then (Allowed(RemainingOf(b2), cfg.WindowDuration()), st')
        else (Limited(IpRateExceeded, TimeUntilAvailable(b2)), st')
  }

  /** `check_source`: the bucket of the normalised URL decides; no burst detection. */
  function CheckSource(cfg: RateLimitConfig, normalize: string -> string, st: LimiterState, sourceUrl: string, now: real)
    : (r: (RateLimitResult, LimiterState))
    requires StateValid(cfg, st)
    ensures StateValid(cfg, r.1)
    ensures r.1.ipBuckets == st.ipBuckets && r.1.cooldowns == st.cooldowns
    ensures r.0.Limited? ==> r.0.reason == SourceRateExceeded
  {
    var key := normalize(sourceUrl);
    var (ok, b) := TryConsume(SourceBucket(cfg, st, key, now), now);
    var st' := st.(sourceBuckets := st.sourceBuckets[key := b]);
    if ok then (Allowed(RemainingOf(b), cfg.WindowDuration()), st')
    else (Limited(SourceRateExceeded, TimeUntilAvailable(b)), st')
  }

  /** `check`: the IP first; the source only when the IP passes and a source is given. */
  function Check(cfg: RateLimitConfig, normalize: string -> string, st: LimiterState, ip: IpAddr,
                 sourceUrl: Option<string>, now: real): (r: (RateLimitResult, LimiterState))
    requires StateValid(cfg, st)
    ensures StateValid(cfg, r.1)
  {
    var (ipResult, st1) := CheckIp(cfg, st, ip, now);
    if ipResult.Limited? then (ipResult, st1)
    else if sourceUrl.None? then (ipResult, st1)
    else
      var (sourceResult, st2) := CheckSource(cfg, normalize, st1, sourceUrl.value, now);
      if sourceResult.Limited? then (sourceResult, st2) else (ipResult, st2)
  }

  /** `cleanup`: drop buckets idle for five minutes and cooldowns that have ended. */
  function Cleanup(st: LimiterState, now: real): LimiterState
  {
    LimiterState(
      map ip | ip in st.ipBuckets && Elapsed(now, st.ipBuckets[ip].lastRefill) < STALE_THRESHOLD :: st.ipBuckets[ip],
      map s | s in st.sourceBuckets && Elapsed(now, st.sourceBuckets[s].lastRefill) < STALE_THRESHOLD
        :: st.sourceBuckets[s],
      map ip | ip in st.cooldowns && now < st.cooldowns[ip] :: st.cooldowns[ip])
  }

  /** `check_ip` during a cooldown refuses with the time left and changes nothing. */
  lemma CheckIpCooldown(cfg: RateLimitConfig, st: LimiterState, ip: IpAddr, now: real)
    requires StateValid(cfg, st) && CoolingDown(st, ip, now)
    ensures CheckIp(cfg, st, ip, now) == (Limited(BurstCooldown, st.cooldowns[ip] - now), st)
    ensures st.cooldowns[ip] - now > 0.0
  {
  }

  /** A detected burst starts a cooldown of the configured length and spends no token. */
  lemma CheckIpBurst(cfg: RateLimitConfig, st: LimiterState, ip: IpAddr, now: real)
    requires StateValid(cfg, st) && !CoolingDown(st, ip, now)
    requires DetectBurst(IpBucket(cfg, st, ip, now), cfg.burstThresholdMultiplier, now).0
    ensures var r := CheckIp(cfg, st, ip, now);
      r.0 == Limited(BurstCooldown, cfg.CooldownDuration()) &&
      r.1.cooldowns == st.cooldowns[ip := now + cfg.CooldownDuration()] &&
      ip in r.1.ipBuckets && r.1.ipBuckets[ip].tokens == IpBucket(cfg, st, ip, now).tokens
  {
  }

  /**
   * Without cooldown or burst the bucket decides: the request is allowed exactly when
   * a whole token is available after the refill, and then reports the whole tokens left.
   */
  lemma CheckIpBucket(cfg: RateLimitConfig, st: LimiterState, ip: IpAddr, now: real)
    requires StateValid(cfg, st) && !CoolingDown(st, ip, now)
    requires !DetectBurst(IpBucket(cfg, st, ip, now), cfg.burstThresholdMultiplier, now).0
    ensures var r := CheckIp(cfg, st, ip, now);
      r.1.cooldowns == st.cooldowns && ip in r.1.ipBuckets &&
      (r.0.Allowed? <==> Refill(IpBucket(cfg, st, ip, now), now).tokens >= 1.0)
    ensures var r := CheckIp(cfg, st, ip, now);
      r.0.Allowed? ==> r.0.remaining as real <= r.1.ipBuckets[ip].tokens < r.0.remaining as real + 1.0
  {
    var b := IpBucket(cfg, st, ip, now);
    var b1 := DetectBurst(b, cfg.burstThresholdMultiplier, now).1;
    var (ok, b2) := TryConsume(b1, now);
    assert b.Valid() && b.maxTokens == cfg.maxRateRpm as real;
    assert b2.Valid() && b2.maxTokens == cfg.maxRateRpm as real && b2.refillRate > 0.0;
    assert Refill(b1, now).tokens == Refill(b, now).tokens;
    var st' := st.(ipBuckets := st.ipBuckets[ip := b2]);
    var result := if ok then Allowed(RemainingOf(b2), cfg.WindowDuration())
                  else Limited(IpRateExceeded, TimeUntilAvailable(b2));
    assert CheckIp(cfg, st, ip, now) == (result, st');
    assert st'.ipBuckets[ip] == b2;
  }

  /**
   * A request refused by the IP's bucket reports `IpRateExceeded` and a positive wait
   * after which refilling yields exactly the next token.
   */
  lemma CheckIpRefused(cfg: RateLimitConfig, st: LimiterState, ip: IpAddr, now: real)
    requires StateValid(cfg, st) && !CoolingDown(st, ip, now)
    requires !DetectBurst(IpBucket(cfg, st, ip, now), cfg.burstThresholdMultiplier, now).0
    ensures var r := CheckIp(cfg, st, ip, now);
      r.0.Limited? ==>
        ip in r.1.ipBuckets && r.0.reason == IpRateExceeded && r.0.retryAfter > 0.0 &&
        Refill(r.1.ipBuckets[ip], now + r.0.retryAfter).tokens == 1.0
  {
    var b := IpBucket(cfg, st, ip, now);
    var b1 := DetectBurst(b, cfg.burstThresholdMultiplier, now).1;
    var (ok, b2) := TryConsume(b1, now);
    var r := CheckIp(cfg, st, ip, now);
    if ok {
      assert r.0.Allowed?;
    } else {
      assert b2.Valid() && b2.maxTokens == cfg.maxRateRpm as real && b2.lastRefill == now;
      var d := TimeUntilAvailable(b2);
      RefillAfterWait(b2);
      assert r == (Limited(IpRateExceeded, d), st.(ipBuckets := st.ipBuckets[ip := b2]));
    }
  }

  /** `check_ip` touches only the given IP's bucket and cooldown. */
  lemma CheckIpFrame(cfg: RateLimitConfig, st: LimiterState, ip: IpAddr, other: IpAddr, now: real)
    requires StateValid(cfg, st) && other != ip
    ensures var r := CheckIp(cfg, st, ip, now).1;
      (other in r.ipBuckets <==> other in st.ipBuckets) &&
      (other in st.ipBuckets ==> r.ipBuckets[other] == st.ipBuckets[other]) &&
      (other in r.cooldowns <==> other in st.cooldowns) &&
      (other in st.cooldowns ==> r.cooldowns[other] == st.cooldowns[other])
  {
  }

  /** After a burst, the IP is refused for the whole cooldown, with the remaining time. */
  lemma CooldownHolds(cfg: RateLimitConfig, st: LimiterState, ip: IpAddr, now: real, later: real)
    requires StateValid(cfg, st) && !CoolingDown(st, ip, now)
    requires DetectBurst(IpBucket(cfg, st, ip, now), cfg.burstThresholdMultiplier, now).0
    requires now <= later < now + cfg.CooldownDuration()
    ensures var st1 := CheckIp(cfg, st, ip, now).1;
      CheckIp(cfg, st1, ip, later) == (Limited(BurstCooldown, now + cfg.CooldownDuration() - later), st1)
  {
  }

  /**
   * A bucket of capacity `n` whose `used` tokens were all spent at the instant `now`;
   * its request log holds `used` copies of `now`.
   */
  predicate SpentAt(b: Bucket, n: nat, used: nat, now: real)
  {
    && used <= n && b.Valid() && b.maxTokens == n as real && b.tokens == (n - used) as real
    && b.lastRefill == now && |b.requestTimes| == used
    && forall i :: 0 <= i < |b.requestTimes| ==> b.requestTimes[i] == now
  }

  /** At a single instant, a bucket grants while tokens are left and refuses after. */
  lemma SpentAtConsume(b: Bucket, n: nat, used: nat, now: real)
    requires SpentAt(b, n, used, now)
    ensures TryConsume(b, now).0 <==> used < n
    ensures used < n ==> SpentAt(TryConsume(b, now).1, n, used + 1, now)
  {
    assert Refill(b, now).tokens == b.tokens;
    if used < n {
      var b1 := TryConsume(b, now).1;
      assert b1.requestTimes == b.requestTimes + [now];
    }
  }

  /** The young log is kept whole, so a capacity no larger than the threshold never bursts. */
  lemma SpentAtNoBurst(b: Bucket, n: nat, used: nat, now: real, multiplier: real)
    requires SpentAt(b, n, used, now) && BurstThreshold(n as real, multiplier) >= n
    ensures DetectBurst(b, multiplier, now) == (false, b)
  {
    RecentAllYoung(b.requestTimes, now);
    assert b.(requestTimes := b.requestTimes) == b;
  }

  /** Every answer but the last grants; the last refuses for `reason`. */
  predicate GrantedThenRefused(rs: seq<RateLimitResult>, reason: RateLimitReason)
  {
    && |rs| > 0
    && (forall i :: 0 <= i < |rs| - 1 ==> rs[i].Allowed?)
    && rs[|rs| - 1].Limited? && rs[|rs| - 1].reason == reason
  }

  lemma GrantedThenRefusedCons(first: RateLimitResult, rest: seq<RateLimitResult>, reason: RateLimitReason)
    requires first.Allowed? && GrantedThenRefused(rest, reason)
    ensures GrantedThenRefused([first] + rest, reason)
  {
    var rs := [first] + rest;
    forall i | 0 <= i < |rs| - 1
      ensures rs[i].Allowed?
    {
      if i > 0 {
        assert rs[i] == rest[i - 1];
      }
    }
  }

  /** `n` calls of `check_ip` from one IP at one instant. */
  function CheckIpRepeated(cfg: RateLimitConfig, st: LimiterState, ip: IpAddr, now: real, n: nat)
    : (r: (seq<RateLimitResult>, LimiterState))
    requires StateValid(cfg, st)
    ensures |r.0| == n && StateValid(cfg, r.1)
    decreases n
  {
    if n == 0 then ([], st)
    else
      var (first, st1) := CheckIp(cfg, st, ip, now);
      var (rest, st2) := CheckIpRepeated(cfg, st1, ip, now, n - 1);
      ([first] + rest, st2)
  }

  /** One `check_ip` on a bucket spent at `now`: granted while tokens are left, and the log grows by one. */
  lemma CheckIpSpentStep(cfg: RateLimitConfig, st: LimiterState, ip: IpAddr, now: real, used: nat)
    requires StateValid(cfg, st) && !CoolingDown(st, ip, now)
    requires BurstThreshold(cfg.maxRateRpm as real, cfg.burstThresholdMultiplier) >= cfg.maxRateRpm
    requires SpentAt(IpBucket(cfg, st, ip, now), cfg.maxRateRpm, used, now)
    ensures var r := CheckIp(cfg, st, ip, now);
      (r.0.Allowed? <==> used < cfg.maxRateRpm) &&
      (r.0.Limited? ==> r.0.reason == IpRateExceeded) &&
      (used < cfg.maxRateRpm ==>
         !CoolingDown(r.1, ip, now) && SpentAt(IpBucket(cfg, r.1, ip, now), cfg.maxRateRpm, used + 1, now))
  {
    var b := IpBucket(cfg, st, ip, now);
    SpentAtNoBurst(b, cfg.maxRateRpm, used, now, cfg.burstThresholdMultiplier);
    SpentAtConsume(b, cfg.maxRateRpm, used, now);
  }

  lemma {:induction false} CheckIpRepeatedFrom(cfg: RateLimitConfig, st: LimiterState, ip: IpAddr, now: real, used: nat, k: nat)
    requires StateValid(cfg, st) && !CoolingDown(st, ip, now)
    requires BurstThreshold(cfg.maxRateRpm as real, cfg.burstThresholdMultiplier) >= cfg.maxRateRpm
    requires SpentAt(IpBucket(cfg, st, ip, now), cfg.maxRateRpm, used, now)
    requires used + k == cfg.maxRateRpm + 1
    ensures GrantedThenRefused(CheckIpRepeated(cfg, st, ip, now, k).0, IpRateExceeded)
    decreases k
  {
    CheckIpSpentStep(cfg, st, ip, now, used);
    var (first, st1) := CheckIp(cfg, st, ip, now);
    if used < cfg.maxRateRpm {
      CheckIpRepeatedFrom(cfg, st1, ip, now, used + 1, k - 1);
      var rest := CheckIpRepeated(cfg, st1, ip, now, k - 1).0;
      assert CheckIpRepeated(cfg, st, ip, now, k).0 == [first] + rest;
      GrantedThenRefusedCons(first, rest, IpRateExceeded);
    } else {
      assert CheckIpRepeated(cfg, st, ip, now, k).0 == [first];
    }
  }

  /**
   * With no time passing and bursts out of reach, a fresh limiter grants exactly
   * `max_rate_rpm` requests from one IP and refuses the next with `IpRateExceeded`.
   */
  lemma IpCapacityExact(cfg: RateLimitConfig, ip: IpAddr, now: real)
    requires cfg.maxRateRpm > 0 && cfg.maxRatePerSource > 0
    requires BurstThreshold(cfg.maxRateRpm as real, cfg.burstThresholdMultiplier) >= cfg.maxRateRpm
    ensures StateValid(cfg, EmptyState)
    ensures var n := cfg.maxRateRpm as nat; var rs := CheckIpRepeated(cfg, EmptyState, ip, now, n + 1).0;
      (forall i :: 0 <= i < n ==> rs[i].Allowed?) && rs[n].Limited? && rs[n].reason == IpRateExceeded
  {
    CheckIpRepeatedFrom(cfg, EmptyState, ip, now, 0, cfg.maxRateRpm + 1);
  }

  /** `n` calls of `check_source` for one URL at one instant. */
  function CheckSourceRepeated(cfg: RateLimitConfig, normalize: string -> string, st: LimiterState,
                               sourceUrl: string, now: real, n: nat): (r: (seq<RateLimitResult>, LimiterState))
    requires StateValid(cfg, st)
    ensures |r.0| == n && StateValid(cfg, r.1)
    decreases n
  {
    if n == 0 then ([], st)
    else
      var (first, st1) := CheckSource(cfg, normalize, st, sourceUrl, now);
      var (rest, st2) := CheckSourceRepeated(cfg, normalize, st1, sourceUrl, now, n - 1);
      ([first] + rest, st2)
  }

  /** One `check_source` on a bucket spent at `now`: granted while tokens are left. */
  lemma CheckSourceSpentStep(cfg: RateLimitConfig, normalize: string -> string, st: LimiterState,
                             sourceUrl: string, now: real, used: nat)
    requires StateValid(cfg, st)
    requires SpentAt(SourceBucket(cfg, st, normalize(sourceUrl), now), cfg.maxRatePerSource, used, now)
    ensures var r := CheckSource(cfg, normalize, st, sourceUrl, now);
      (r.0.Allowed? <==> used < cfg.maxRatePerSource) &&
      (used < cfg.maxRatePerSource ==>
         SpentAt(SourceBucket(cfg, r.1, normalize(sourceUrl), now), cfg.maxRatePerSource, used + 1, now))
  {
    SpentAtConsume(SourceBucket(cfg, st, normalize(sourceUrl), now), cfg.maxRatePerSource, used, now);
  }

  lemma {:induction false} CheckSourceRepeatedFrom(cfg: RateLimitConfig, normalize: string -> string, st: LimiterState,
                                                   sourceUrl: string, now: real, used: nat, k: nat)
    requires StateValid(cfg, st)
    requires SpentAt(SourceBucket(cfg, st, normalize(sourceUrl), now), cfg.maxRatePerSource, used, now)
    requires used + k == cfg.maxRatePerSource + 1
    ensures GrantedThenRefused(CheckSourceRepeated(cfg, normalize, st, sourceUrl, now, k).0, SourceRateExceeded)
    decreases k
  {
    CheckSourceSpentStep(cfg, normalize, st, sourceUrl, now, used);
    var (first, st1) := CheckSource(cfg, normalize, st, sourceUrl, now);
    if used < cfg.maxRatePerSource {
      CheckSourceRepeatedFrom(cfg, normalize, st1, sourceUrl, now, used + 1, k - 1);
      var rest := CheckSourceRepeated(cfg, normalize, st1, sourceUrl, now, k - 1).0;
      assert CheckSourceRepeated(cfg, normalize, st, sourceUrl, now, k).0 == [first] + rest;
      GrantedThenRefusedCons(first, rest, SourceRateExceeded);
    } else {
      assert CheckSourceRepeated(cfg, normalize, st, sourceUrl, now, k).0 == [first];
    }
  }

  /**
   * With no time passing, a fresh limiter grants exactly `max_rate_per_source`
   * requests for one source and refuses the next with `SourceRateExceeded`.
   */
  lemma SourceCapacityExact(cfg: RateLimitConfig, normalize: string -> string, sourceUrl: string, now: real)
    requires cfg.maxRateRpm > 0 && cfg.maxRatePerSource > 0
    ensures StateValid(cfg, EmptyState)
    ensures var n := cfg.maxRatePerSource as nat;
      var rs := CheckSourceRepeated(cfg, normalize, EmptyState, sourceUrl, now, n + 1).0;
      (forall i :: 0 <= i < n ==> rs[i].Allowed?) && rs[n].Limited? && rs[n].reason == SourceRateExceeded
  {
    CheckSourceRepeatedFrom(cfg, normalize, EmptyState, sourceUrl, now, 0, cfg.maxRatePerSource + 1);
  }

  /** Source buckets are independent: a check changes only the bucket of its normalised URL. */
  lemma CheckSourceFrame(cfg: RateLimitConfig, normalize: string -> string, st: LimiterState,
                         sourceUrl: string, key: string, now: real)
    requires StateValid(cfg, st) && key != normalize(sourceUrl)
    ensures var r := CheckSource(cfg, normalize, st, sourceUrl, now).1;
      (key in r.sourceBuckets <==> key in st.sourceBuckets) &&
      (key in st.sourceBuckets ==> r.sourceBuckets[key] == st.sourceBuckets[key])
  {
  }

  /**
   * `check`: a refused IP is returned without consulting the source; otherwise a
   * refused source wins, and else the IP's result is returned.
   */
  lemma CheckOrder(cfg: RateLimitConfig, normalize: string -> string, st: LimiterState, ip: IpAddr,
                   sourceUrl: Option<string>, now: real)
    requires StateValid(cfg, st)
    ensures var ipCheck := CheckIp(cfg, st, ip, now); var r := Check(cfg, normalize, st, ip, sourceUrl, now);
      (ipCheck.0.Limited? ==> r == ipCheck && r.1.sourceBuckets == st.sourceBuckets) &&
      (sourceUrl.None? ==> r == ipCheck)
    ensures var ipCheck := CheckIp(cfg, st, ip, now); var r := Check(cfg, normalize, st, ip, sourceUrl, now);
      ipCheck.0.Allowed? && sourceUrl.Some? ==>
        var sourceCheck := CheckSource(cfg, normalize, ipCheck.1, sourceUrl.value, now);
        r.1 == sourceCheck.1 && r.0 == (if sourceCheck.0.Limited? then sourceCheck.0 else ipCheck.0)
    ensures var r := Check(cfg, normalize, st, ip, sourceUrl, now);
      r.0.Limited? && r.0.reason == SourceRateExceeded ==> CheckIp(cfg, st, ip, now).0.Allowed?
  {
  }

  /**
   * `cleanup` keeps exactly the buckets refilled within five minutes and the cooldowns
   * still running, unchanged, and keeps the state valid.
   */
  lemma CleanupCorrect(cfg: RateLimitConfig, st: LimiterState, now: real)
    ensures var c := Cleanup(st, now);
      (forall ip :: ip in c.ipBuckets <==>
         ip in st.ipBuckets && Elapsed(now, st.ipBuckets[ip].lastRefill) < STALE_THRESHOLD) &&
      (forall ip :: ip in c.ipBuckets ==> c.ipBuckets[ip] == st.ipBuckets[ip]) &&
      (forall s :: s in c.sourceBuckets <==>
         s in st.sourceBuckets && Elapsed(now, st.sourceBuckets[s].lastRefill) < STALE_THRESHOLD) &&
      (forall s :: s in c.sourceBuckets ==> c.sourceBuckets[s] == st.sourceBuckets[s]) &&
      (forall ip :: ip in c.cooldowns <==> ip in st.cooldowns && now < st.cooldowns[ip]) &&
      (forall ip :: ip in c.cooldowns ==> c.cooldowns[ip] == st.cooldowns[ip])
    ensures StateValid(cfg, st) ==> StateValid(cfg, Cleanup(st, now))
    ensures forall ip :: CoolingDown(Cleanup(st, now), ip, now) <==> CoolingDown(st, ip, now)
  {
  }
}
