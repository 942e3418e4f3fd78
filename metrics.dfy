/**
 * The attack-simulation harness's metrics collector: request counts by outcome, by client
 * address and by source URL, latency samples, and the summary report built from them.
 * The clock is a parameter (`now`, seconds as a real) and the floating-point ratios are
 * exact reals.
 */
module Metrics {
  import opened Wrappers
  import opened Bytes
  import RL = RateLimit

  /** The eight outcomes a simulated request can have. */
  datatype Outcome =
    | Allowed
    | RateLimitedIp
    | RateLimitedSource
    | BurstBlocked
    | InvalidContentType
    | MissingParams
    | InvalidUrl
    | SelfPingBlocked

  /** Every outcome, each once. */
  const ALL_OUTCOMES: seq<Outcome> :=
    [Allowed, RateLimitedIp, RateLimitedSource, BurstBlocked,
     InvalidContentType, MissingParams, InvalidUrl, SelfPingBlocked]

  lemma AllOutcomesListed(o: Outcome)
    ensures o in ALL_OUTCOMES
  {
  }

  predicate Distinct<T(==)>(s: seq<T>)
  {
    forall i, j :: 0 <= i < j < |s| ==> s[i] != s[j]
  }

  // ----- Counters -----

  /** `map.get(&k).copied().unwrap_or(0)`. */
  function CountIn<K>(m: map<K, nat>, k: K): nat
  {
    if k in m then m[k] else 0
  }

  /** `*map.entry(k).or_insert(0) += 1`. */
  function Bump<K(!new)>(m: map<K, nat>, k: K): (m': map<K, nat>)
    ensures m'.Keys == m.Keys + {k}
    ensures CountIn(m', k) == CountIn(m, k) + 1
    ensures forall j :: j != k ==> CountIn(m', j) == CountIn(m, j)
  {
    m[k := CountIn(m, k) + 1]
  }

  /** Sum of the counts of the listed outcomes. */
  function SumOver(os: seq<Outcome>, m: map<Outcome, nat>): nat
  {
    if os == [] then 0 else CountIn(m, os[0]) + SumOver(os[1..], m)
  }

  /**
   * `outcomes.values().sum()`: every key of an outcome map is one of the eight variants,
   * so the sum of its values is the sum over all eight.
   */
  function Total(m: map<Outcome, nat>): nat
  {
    SumOver(ALL_OUTCOMES, m)
  }

  /** Counting one more `o` adds one to the sum over a list in which `o` occurs at most once. */
  lemma {:induction false} SumOverBump(os: seq<Outcome>, m: map<Outcome, nat>, o: Outcome)
    requires Distinct(os)
    ensures SumOver(os, Bump(m, o)) == SumOver(os, m) + (if o in os then 1 else 0)
  {
    if os != [] {
      assert Distinct(os[1..]) by {
        forall i, j | 0 <= i < j < |os[1..]| ensures os[1..][i] != os[1..][j] {
          assert os[1..][i] == os[i + 1] && os[1..][j] == os[j + 1];
        }
      }
      SumOverBump(os[1..], m, o);
      if os[0] == o {
        assert o !in os[1..] by {
          forall k | 0 <= k < |os[1..]| ensures os[1..][k] != o {
            assert os[1..][k] == os[k + 1];
          }
        }
      }
    }
  }

  /** The total goes up by exactly one per recorded request. */
  lemma TotalBump(m: map<Outcome, nat>, o: Outcome)
    ensures Total(Bump(m, o)) == Total(m) + 1
  {
    AllOutcomesListed(o);
    SumOverBump(ALL_OUTCOMES, m, o);
  }

  /** The total, variant by variant. */
  lemma TotalOfEight(m: map<Outcome, nat>)
    ensures Total(m) ==
      CountIn(m, Allowed) + CountIn(m, RateLimitedIp) + CountIn(m, RateLimitedSource) +
      CountIn(m, BurstBlocked) + CountIn(m, InvalidContentType) + CountIn(m, MissingParams) +
      CountIn(m, InvalidUrl) + CountIn(m, SelfPingBlocked)
  {
    var os := ALL_OUTCOMES;
    assert SumOver(os[8..], m) == 0;
    assert SumOver(os[7..], m) == CountIn(m, SelfPingBlocked);
    assert SumOver(os[6..], m) == CountIn(m, InvalidUrl) + SumOver(os[7..], m);
    assert SumOver(os[5..], m) == CountIn(m, MissingParams) + SumOver(os[6..], m);
    assert SumOver(os[4..], m) == CountIn(m, InvalidContentType) + SumOver(os[5..], m);
    assert SumOver(os[3..], m) == CountIn(m, BurstBlocked) + SumOver(os[4..], m);
    assert SumOver(os[2..], m) == CountIn(m, RateLimitedSource) + SumOver(os[3..], m);
    assert SumOver(os[1..], m) == CountIn(m, RateLimitedIp) + SumOver(os[2..], m);
    assert os[0..] == os;
  }

  /** One outcome's count never exceeds the total. */
  lemma {:induction false} CountAtMostSum(os: seq<Outcome>, m: map<Outcome, nat>, o: Outcome)
    requires o in os
    ensures CountIn(m, o) <= SumOver(os, m)
  {
    if os[0] != o {
      CountAtMostSum(os[1..], m, o);
    }
  }

  lemma CountAtMostTotal(m: map<Outcome, nat>, o: Outcome)
    ensures CountIn(m, o) <= Total(m)
  {
    AllOutcomesListed(o);
    CountAtMostSum(ALL_OUTCOMES, m, o);
  }

  /** Adding one key to a map adds at most one to its size. */
  lemma KeysGrowByAtMostOne<K(!new)>(m: map<K, nat>, k: K)
    ensures |Bump(m, k).Keys| <= |m.Keys| + 1
  {
    if k in m {
      assert Bump(m, k).Keys == m.Keys;
    } else {
      assert Bump(m, k).Keys == m.Keys + {k};
    }
  }

  // ----- Sorting -----

  predicate Sorted(s: seq<nat>)
  {
    forall i, j :: 0 <= i < j < |s| ==> s[i] <= s[j]
  }

  /** Every element of `s` is at least `lo`. */
  predicate AllAtLeast(lo: nat, s: seq<nat>)
  {
    forall k :: 0 <= k < |s| ==> lo <= s[k]
  }

  /** A lower bound carries over to a sequence with the same elements plus one more that meets it. */
  lemma AllAtLeastPlusOne(lo: nat, s: seq<nat>, x: nat, r: seq<nat>)
    requires AllAtLeast(lo, s) && lo <= x
    requires multiset(r) == multiset(s) + multiset{x}
    ensures AllAtLeast(lo, r)
  {
    forall k | 0 <= k < |r| ensures lo <= r[k] {
      assert r[k] in multiset(r);
      if r[k] != x {
        assert r[k] in multiset(s);
      }
    }
  }

  /** A sorted sequence is its head, at most every later element, followed by a sorted tail. */
  lemma SortedCons(h: nat, t: seq<nat>)
    ensures Sorted([h] + t) <==> AllAtLeast(h, t) && Sorted(t)
  {
    var s := [h] + t;
    if AllAtLeast(h, t) && Sorted(t) {
      forall i, j | 0 <= i < j < |s| ensures s[i] <= s[j] {
        assert s[j] == t[j - 1];
        if i > 0 {
          assert s[i] == t[i - 1];
        }
      }
    }
    if Sorted(s) {
      forall i, j | 0 <= i < j < |t| ensures t[i] <= t[j] {
        assert s[i + 1] == t[i] && s[j + 1] == t[j];
      }
      forall k | 0 <= k < |t| ensures h <= t[k] {
        assert s[0] == h && s[k + 1] == t[k];
      }
    }
  }

  /** `x` placed into the sorted `s` before the first larger element. */
  function Insert(x: nat, s: seq<nat>): (r: seq<nat>)
    requires Sorted(s)
    ensures Sorted(r) && multiset(r) == multiset(s) + multiset{x}
  {
    if s == [] || x <= s[0] then
      assert AllAtLeast(x, s) by {
        forall k | 0 <= k < |s| ensures x <= s[k] {
          assert s[0] <= s[k];
        }
      }
      SortedCons(x, s);
      [x] + s
    else
      assert s == [s[0]] + s[1..];
      SortedCons(s[0], s[1..]);
      var rest := Insert(x, s[1..]);
      AllAtLeastPlusOne(s[0], s[1..], x, rest);
      SortedCons(s[0], rest);
      [s[0]] + rest
  }

  /** `sort_unstable` on a clone: a sorted permutation. */
  function SortSeq(s: seq<nat>): (r: seq<nat>)
    ensures Sorted(r) && multiset(r) == multiset(s)
  {
    if s == [] then []
    else
      assert s == [s[0]] + s[1..];
      Insert(s[0], SortSeq(s[1..]))
  }

  /** The head of a sorted sequence is its least element. */
  lemma HeadIsLeast(s: seq<nat>, x: nat)
    requires Sorted(s) && x in multiset(s)
    ensures s[0] <= x
  {
    var i :| 0 <= i < |s| && s[i] == x;
    assert s[0] <= s[i];
  }

  /** Removing the equal heads of two sequences with the same elements leaves tails with the same elements. */
  lemma TailsSameElements(a: seq<nat>, b: seq<nat>)
    requires a != [] && b != [] && a[0] == b[0] && multiset(a) == multiset(b)
    ensures multiset(a[1..]) == multiset(b[1..])
  {
    assert a == [a[0]] + a[1..] && b == [b[0]] + b[1..];
    assert multiset(a) == multiset{a[0]} + multiset(a[1..]);
    assert multiset(b) == multiset{b[0]} + multiset(b[1..]);
    assert multiset(a[1..]) == multiset(a) - multiset{a[0]};
    assert multiset(b[1..]) == multiset(b) - multiset{b[0]};
  }

  /** A sorted permutation is unique, so the sort used does not matter. */
  lemma {:induction false} SortedPermutationUnique(a: seq<nat>, b: seq<nat>)
    requires Sorted(a) && Sorted(b) && multiset(a) == multiset(b)
    ensures a == b
    decreases |a|
  {
    assert |a| == |multiset(a)| == |b|;
    if a != [] {
      assert a[0] in multiset(a) && b[0] in multiset(b);
      HeadIsLeast(a, b[0]);
      HeadIsLeast(b, a[0]);
      TailsSameElements(a, b);
      SortedCons(a[0], a[1..]);
      SortedCons(b[0], b[1..]);
      assert a == [a[0]] + a[1..] && b == [b[0]] + b[1..];
      SortedPermutationUnique(a[1..], b[1..]);
    }
  }

  /** Rust's `idx.min(len - 1)` for the p99 index, with the fraction 0.99 taken exactly. */
  function P99Index(len: nat): (idx: nat)
    requires len > 0
    ensures idx < len && idx <= len * 99 / 100
    ensures len >= 100 ==> idx == len * 99 / 100
  {
    var raw := len * 99 / 100;
    if raw < len - 1 then raw else len - 1
  }

  /** `as_micros() as u64`: the microsecond count truncated to 64 bits. */
  function ToU64(micros: nat): u64
  {
    micros % (U64_MAX + 1)
  }

  // ----- Report -----

  /** `MetricsReport`; the two ratio fields are exact reals. */
  datatype MetricsReport = MetricsReport(
    totalRequests: nat,
    allowed: nat,
    rateLimitedIp: nat,
    rateLimitedSource: nat,
    burstBlocked: nat,
    validationFailed: nat,
    durationMs: nat,
    requestsPerSecond: real,
    blockRate: real,
    medianLatencyUs: nat,
    p99LatencyUs: nat,
    uniqueIps: nat,
    uniqueSources: nat)

  /** `AttackMetrics`. */
  class AttackMetrics {
    var startTime: Option<real>
    var endTime: Option<real>
    var outcomes: map<Outcome, nat>
    var requestsPerIp: map<string, nat>
    var requestsPerSource: map<string, nat>
    var latencies: seq<nat>

    /**
     * What `record` keeps: one latency sample per request, counted once by outcome, and no
     * more client addresses or sources than requests.
     */
    ghost predicate Valid()
      reads this`outcomes, this`requestsPerIp, this`requestsPerSource, this`latencies
    {
      && Total(outcomes) == |latencies|
      && |requestsPerIp.Keys| <= |latencies|
      && |requestsPerSource.Keys| <= |latencies|
      && (forall k :: 0 <= k < |latencies| ==> latencies[k] <= U64_MAX)
    }

    /** `AttackMetrics::new()`: nothing recorded, no times set. */
    constructor()
      ensures Valid()
      ensures startTime == None && endTime == None
      ensures outcomes == map[] && requestsPerIp == map[] && requestsPerSource == map[] && latencies == []
    {
      startTime := None;
      endTime := None;
      outcomes := map[];
      requestsPerIp := map[];
      requestsPerSource := map[];
      latencies := [];
    }

    /** `start`: the start time is set to `now`. */
    method Start(now: real)
      modifies this`startTime
      ensures startTime == Some(now)
    {
      startTime := Some(now);
    }

    /** `finish`: the end time is set to `now`. */
    method Finish(now: real)
      modifies this`endTime
      ensures endTime == Some(now)
    {
      endTime := Some(now);
    }

    /**
     * `record`: one more request with this outcome, from this address, from this source
     * if one is given, and one more latency sample.
     */
    method Record(outcome: Outcome, ip: string, source: Option<string>, latencyMicros: nat)
      requires Valid()
      modifies this`outcomes, this`requestsPerIp, this`requestsPerSource, this`latencies
      ensures Valid()
      ensures outcomes == Bump(old(outcomes), outcome)
      ensures requestsPerIp == Bump(old(requestsPerIp), ip)
      ensures requestsPerSource == if source.Some? then Bump(old(requestsPerSource), source.value)
                                   else old(requestsPerSource)
      ensures latencies == old(latencies) + [ToU64(latencyMicros)]
      ensures TotalRequests() == old(TotalRequests()) + 1
    {
      TotalBump(outcomes, outcome);
      KeysGrowByAtMostOne(requestsPerIp, ip);
      outcomes := Bump(outcomes, outcome);
      requestsPerIp := Bump(requestsPerIp, ip);
      if source.Some? {
        KeysGrowByAtMostOne(requestsPerSource, source.value);
        requestsPerSource := Bump(requestsPerSource, source.value);
      }
      latencies := latencies + [ToU64(latencyMicros)];
    }

    /** `total_requests`: the number of requests recorded. */
    function TotalRequests(): (n: nat)
      reads this`outcomes, this`requestsPerIp, this`requestsPerSource, this`latencies
      ensures Valid() ==> n == |latencies|
    {
      Total(outcomes)
    }

    /** `count`: zero for an outcome never recorded, and never more than the total. */
    function Count(o: Outcome): (n: nat)
      reads this`outcomes
      ensures o !in outcomes ==> n == 0
      ensures n <= TotalRequests()
    {
      CountAtMostTotal(outcomes, o);
      CountIn(outcomes, o)
    }

    /** `duration`: end minus start, or until `now` while unfinished; zero before the start. */
    function Duration(now: real): (d: real)
      reads this`startTime, this`endTime
      ensures d >= 0.0
      ensures startTime.None? ==> d == 0.0
    {
      match (startTime, endTime)
      case (Some(s), Some(e)) => RL.Elapsed(e, s)
      case (Some(s), None) => RL.Elapsed(now, s)
      case _ => 0.0
    }

    /** `requests_per_second`: zero for a zero duration. */
    function RequestsPerSecond(now: real): (r: real)
      reads this`startTime, this`endTime, this`outcomes, this`requestsPerIp, this`requestsPerSource, this`latencies
      ensures r >= 0.0
      ensures Duration(now) == 0.0 ==> r == 0.0
    {
      var secs := Duration(now);
      if secs > 0.0 then (TotalRequests() as real) / secs else 0.0
    }

    /** `block_rate`: the share of requests not allowed, zero when nothing was recorded. */
    function BlockRate(): (r: real)
      reads this`outcomes, this`requestsPerIp, this`requestsPerSource, this`latencies
      ensures 0.0 <= r <= 1.0
      ensures TotalRequests() == 0 ==> r == 0.0
      ensures TotalRequests() > 0 && Count(Allowed) == 0 ==> r == 1.0
    {
      var total := TotalRequests();
      if total == 0 then 0.0
      else
        var allowed := Count(Allowed);
        ((total - allowed) as real) / (total as real)
    }

    /** `median_latency_us`: the middle element of the sorted samples, zero when there are none. */
    function MedianLatencyUs(): (m: nat)
      reads this`latencies
      ensures latencies == [] ==> m == 0
      ensures latencies != [] ==> m in latencies
      ensures forall t: seq<nat> :: Sorted(t) && multiset(t) == multiset(latencies) && t != [] ==> m == t[|t| / 2]
    {
      if latencies == [] then 0
      else
        var sorted := SortSeq(latencies);
        assert sorted[|sorted| / 2] in multiset(latencies);
        assert forall t: seq<nat> :: Sorted(t) && multiset(t) == multiset(latencies) ==> t == sorted by {
          forall t: seq<nat> | Sorted(t) && multiset(t) == multiset(latencies) ensures t == sorted {
            SortedPermutationUnique(t, sorted);
          }
        }
        sorted[|sorted| / 2]
    }

    /** `p99_latency_us`: the sorted sample at the p99 index, zero when there are none. */
    function P99LatencyUs(): (m: nat)
      reads this`latencies
      ensures latencies == [] ==> m == 0
      ensures latencies != [] ==> m in latencies
      ensures forall t: seq<nat> :: Sorted(t) && multiset(t) == multiset(latencies) && t != [] ==> m == t[P99Index(|t|)]
    {
      if latencies == [] then 0
      else
        var sorted := SortSeq(latencies);
        assert sorted[P99Index(|sorted|)] in multiset(latencies);
        assert forall t: seq<nat> :: Sorted(t) && multiset(t) == multiset(latencies) ==> t == sorted by {
          forall t: seq<nat> | Sorted(t) && multiset(t) == multiset(latencies) ensures t == sorted {
            SortedPermutationUnique(t, sorted);
          }
        }
        sorted[P99Index(|sorted|)]
    }

    /** `unique_ips`. */
    function UniqueIps(): (n: nat)
      reads this`outcomes, this`requestsPerIp, this`requestsPerSource, this`latencies
      ensures Valid() ==> n <= TotalRequests()
    {
      |requestsPerIp.Keys|
    }

    /** `unique_sources`. */
    function UniqueSources(): (n: nat)
      reads this`outcomes, this`requestsPerIp, this`requestsPerSource, this`latencies
      ensures Valid() ==> n <= TotalRequests()
    {
      |requestsPerSource.Keys|
    }

    /** `report`, with the duration in whole milliseconds. */
    function Report(now: real): (r: MetricsReport)
      reads this
      ensures r.allowed + r.rateLimitedIp + r.rateLimitedSource + r.burstBlocked + r.validationFailed
              == r.totalRequests
      ensures r.totalRequests == TotalRequests() && r.blockRate == BlockRate()
    {
      TotalOfEight(outcomes);
      MetricsReport(
        TotalRequests(),
        Count(Allowed),
        Count(RateLimitedIp),
        Count(RateLimitedSource),
        Count(BurstBlocked),
        Count(InvalidContentType) + Count(MissingParams) + Count(InvalidUrl) + Count(SelfPingBlocked),
        (Duration(now) * 1000.0).Floor,
        RequestsPerSecond(now),
        BlockRate(),
        MedianLatencyUs(),
        P99LatencyUs(),
        UniqueIps(),
        UniqueSources())
    }
  }

  /**
   * The collection scenario of the harness's own unit test: three requests from one
   * address with three sources, two allowed and one refused by the address limit.
   */
  method CollectionScenario() returns (total: nat, allowed: nat, limitedIp: nat, ips: nat, sources: nat)
    ensures total == 3 && allowed == 2 && limitedIp == 1 && ips == 1 && sources == 3
  {
    var m := new AttackMetrics();
    m.Start(0.0);
    m.Record(Allowed, "10.0.0.1", Some("https://a.com"), 100);
    m.Record(Allowed, "10.0.0.1", Some("https://b.com"), 150);
    m.Record(RateLimitedIp, "10.0.0.1", Some("https://c.com"), 50);
    m.Finish(1.0);
    total := m.TotalRequests();
    allowed := m.Count(Allowed);
    limitedIp := m.Count(RateLimitedIp);
    ips := m.UniqueIps();
    sources := m.UniqueSources();
  }
}
