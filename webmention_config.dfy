/**
 * Configuration of the Webmention rate limiter and its defaults. Durations are exact
 * `real` seconds; the burst multiplier, an `f32` in the service, is a `real`.
 */
module WebmentionConfig {
  import opened Bytes

  datatype RateLimitConfig = RateLimitConfig(
    maxRateRpm: u32,
    maxRatePerSource: u32,
    cooldownOnBurstMs: u64,
    burstThresholdMultiplier: real,
    windowSecs: u64
  )
  {
    /** `cooldown_duration`: the cooldown in seconds, from milliseconds. */
    function CooldownDuration(): (d: real)
      ensures d >= 0.0 && d * 1000.0 == cooldownOnBurstMs as real
    {
      cooldownOnBurstMs as real / 1000.0
    }

    /** `window_duration`: the rate window in seconds. */
    function WindowDuration(): (d: real)
      ensures d >= 0.0 && d == d.Floor as real && d.Floor == windowSecs
    {
      windowSecs as real
    }
  }

  datatype ValidationConfig = ValidationConfig(
    requireContentType: seq<string>,
    requireSourceTarget: bool,
    blockSelfPing: bool
  )

  datatype MetricsConfig = MetricsConfig(enabled: bool, path: string)

  datatype Config = Config(
    bindAddr: string,
    rateLimit: RateLimitConfig,
    validation: ValidationConfig,
    metrics: MetricsConfig
  )

  const FORM_URLENCODED: string := "application/x-www-form-urlencoded"

  /** `RateLimitConfig::default()`. */
  function DefaultRateLimitConfig(): RateLimitConfig
  {
    RateLimitConfig(60, 10, 30000, 3.0, 60)
  }

  /** `ValidationConfig::default()`. */
  function DefaultValidationConfig(): ValidationConfig
  {
    ValidationConfig([FORM_URLENCODED], true, true)
  }

  /** `MetricsConfig::default()`. */
  function DefaultMetricsConfig(): MetricsConfig
  {
    MetricsConfig(true, "/metrics")
  }

  /** `Config::default()`. */
  function DefaultConfig(): Config
  {
    Config("0.0.0.0:8080", DefaultRateLimitConfig(), DefaultValidationConfig(), DefaultMetricsConfig())
  }

  /**
   * The default policy: 60 requests a minute per IP, 10 per source, a 30-second
   * cooldown after a burst, and a one-minute reporting window.
   */
  lemma DefaultRateLimits()
    ensures DefaultConfig().rateLimit == DefaultRateLimitConfig()
    ensures DefaultRateLimitConfig().maxRateRpm == 60 && DefaultRateLimitConfig().maxRatePerSource == 10
    ensures DefaultRateLimitConfig().CooldownDuration() == 30.0
    ensures DefaultRateLimitConfig().WindowDuration() == 60.0
    ensures DefaultRateLimitConfig().burstThresholdMultiplier == 3.0
  {
  }

  /** The default validation accepts only form-encoded bodies and enforces both checks. */
  lemma DefaultValidation()
    ensures DefaultConfig().validation == DefaultValidationConfig()
    ensures DefaultValidationConfig().requireContentType == ["application/x-www-form-urlencoded"]
    ensures DefaultValidationConfig().requireSourceTarget && DefaultValidationConfig().blockSelfPing
  {
  }

  /** The default service listens on every interface at port 8080 and serves metrics at `/metrics`. */
  lemma DefaultServiceSettings()
    ensures DefaultConfig().bindAddr == "0.0.0.0:8080"
    ensures DefaultConfig().metrics == MetricsConfig(true, "/metrics")
  {
  }
}
