/**
 * The attack-simulation harness's data generators: pools of client addresses, source and
 * target URLs, self-ping pairs, Content-Type variants, and the harness's own oracle for
 * which Content-Type values the validator should accept.
 */
module Generators {
  import opened Wrappers
  import opened Bytes
  import opened Decimal
  import opened Text
  import opened WebmentionConfig
  import opened Validator
  import RL = RateLimit

  // ----- Addresses -----

  /** The `i`-th generated address: `10.((i>>16)&0xFF).((i>>8)&0xFF).(i&0xFF)`. */
  function IpOf(i: nat): RL.IpAddr
  {
    RL.V4(10, (i / 0x1_0000) % 256, (i / 256) % 256, i % 256)
  }

  /** The position an address of the 10.0.0.0/8 pool was generated at. */
  function PoolIndex(ip: RL.IpAddr): nat
  {
    if ip.V4? then ip.b * 0x1_0000 + ip.c * 256 + ip.d else 0
  }

  /** `generate_ips(count)`. */
  function GenerateIps(count: nat): (ips: seq<RL.IpAddr>)
    ensures |ips| == count
    ensures forall i :: 0 <= i < count ==> ips[i].V4? && ips[i].a == 10
  {
    seq(count, i requires 0 <= i < count => IpOf(i))
  }

  /** Within the 2^24 addresses of the pool, the index can be read back from the address. */
  lemma PoolIndexOfIp(i: nat)
    requires i < 0x100_0000
    ensures PoolIndex(IpOf(i)) == i
  {
    var q := i / 256;
    assert i == q * 256 + i % 256;
    assert q == (q / 256) * 256 + q % 256;
    assert q / 256 == i / 0x1_0000;
    assert (i / 0x1_0000) % 256 == i / 0x1_0000;
  }

  /** No two generated addresses coincide while at most 2^24 are asked for. */
  lemma GeneratedIpsDistinct(count: nat, i: nat, j: nat)
    requires count <= 0x100_0000
    requires i < count && j < count && i != j
    ensures GenerateIps(count)[i] != GenerateIps(count)[j]
  {
    PoolIndexOfIp(i);
    PoolIndexOfIp(j);
  }

  /** Past 2^24 the pool wraps: index 2^24 repeats index 0. */
  lemma GeneratedIpsWrap(count: nat)
    requires count > 0x100_0000
    ensures GenerateIps(count)[0x100_0000] == GenerateIps(count)[0]
  {
  }

  // ----- URLs -----

  /** A digit string followed by a text that starts with a non-digit splits in just one way. */
  lemma DigitsThenRest(a: string, q: string, a': string, q': string)
    requires AllDigits(a) && AllDigits(a')
    requires q != [] && !IsDigit(q[0]) && q' != [] && !IsDigit(q'[0])
    requires a + q == a' + q'
    ensures a == a' && q == q'
  {
    var k := if |a| < |a'| then |a| else |a'|;
    assert IsDigit((a + q)[k]) <==> k < |a|;
    assert IsDigit((a' + q')[k]) <==> k < |a'|;
    assert a == (a + q)[..|a|];
    assert a' == (a' + q')[..|a|];
  }

  /** The `i`-th source URL: `https://source-{i/10}.example.com/post/{i%10}`. */
  function SourceUrl(i: nat): (u: string)
    ensures |u| >= 8 && u[..8] == "https://"
  {
    "https://source-" + NatToString(i / 10) + ".example.com/post/" + NatToString(i % 10)
  }

  /** `generate_sources(count)`. */
  function GenerateSources(count: nat): (urls: seq<string>)
    ensures |urls| == count
    ensures forall i :: 0 <= i < count ==> urls[i] == SourceUrl(i)
    ensures forall i :: 0 <= i < count ==> |urls[i]| >= 8 && urls[i][..8] == "https://"
  {
    seq(count, i requires 0 <= i < count => SourceUrl(i))
  }

  /** Different indices give different source URLs. */
  lemma SourceUrlInjective(i: nat, j: nat)
    requires SourceUrl(i) == SourceUrl(j)
    ensures i == j
  {
    var p := "https://source-";
    var mid := ".example.com/post/";
    var a, b := NatToString(i / 10), NatToString(i % 10);
    var a', b' := NatToString(j / 10), NatToString(j % 10);
    assert p + a + mid + b == p + (a + (mid + b));
    assert p + a' + mid + b' == p + (a' + (mid + b'));
    assert a + (mid + b) == (p + (a + (mid + b)))[|p|..];
    assert a' + (mid + b') == (p + (a' + (mid + b')))[|p|..];
    DigitsThenRest(a, mid + b, a', mid + b');
    assert b == (mid + b)[|mid|..] && b' == (mid + b')[|mid|..];
    NatToStringInjective(i / 10, j / 10);
    NatToStringInjective(i % 10, j % 10);
  }

  /** The generated source URLs are pairwise distinct. */
  lemma GeneratedSourcesDistinct(count: nat, i: nat, j: nat)
    requires i < count && j < count && i != j
    ensures GenerateSources(count)[i] != GenerateSources(count)[j]
  {
    if SourceUrl(i) == SourceUrl(j) {
      SourceUrlInjective(i, j);
    }
  }

  /** The `i`-th target URL on `domain`: `https://{domain}/article/{i}`. */
  function TargetUrl(domain: string, i: nat): (u: string)
    ensures |u| >= 8 && u[..8] == "https://"
  {
    "https://" + domain + "/article/" + NatToString(i)
  }

  /** `generate_targets(count, domain)`. */
  function GenerateTargets(count: nat, domain: string): (urls: seq<string>)
    ensures |urls| == count
    ensures forall i :: 0 <= i < count ==> urls[i] == TargetUrl(domain, i)
    ensures forall i :: 0 <= i < count ==> |urls[i]| >= 8 && urls[i][..8] == "https://"
  {
    seq(count, i requires 0 <= i < count => TargetUrl(domain, i))
  }

  /** Different indices give different target URLs on the same domain. */
  lemma TargetUrlInjective(domain: string, i: nat, j: nat)
    requires TargetUrl(domain, i) == TargetUrl(domain, j)
    ensures i == j
  {
    var p := "https://" + domain + "/article/";
    assert TargetUrl(domain, i) == p + NatToString(i);
    assert TargetUrl(domain, j) == p + NatToString(j);
    assert NatToString(i) == (p + NatToString(i))[|p|..];
    assert NatToString(j) == (p + NatToString(j))[|p|..];
    NatToStringInjective(i, j);
  }

  /** The generated target URLs on one domain are pairwise distinct. */
  lemma GeneratedTargetsDistinct(count: nat, domain: string, i: nat, j: nat)
    requires i < count && j < count && i != j
    ensures GenerateTargets(count, domain)[i] != GenerateTargets(count, domain)[j]
  {
    if TargetUrl(domain, i) == TargetUrl(domain, j) {
      TargetUrlInjective(domain, i, j);
    }
  }

  // ----- Self-ping pairs -----

  /** The site of the `i`-th self-ping pair: `site-{i}.example.com`. */
  function SiteDomain(i: nat): string
  {
    "site-" + NatToString(i) + ".example.com"
  }

  /** The `i`-th pair: a blog post and an article on two subdomains of one site. */
  function SelfPingPair(i: nat): (pair: (string, string))
  {
    ("https://blog." + SiteDomain(i) + "/post/" + NatToString(i),
     "https://www." + SiteDomain(i) + "/article/" + NatToString(i))
  }

  /** `generate_self_ping_pairs(count)`. */
  function GenerateSelfPingPairs(count: nat): (pairs: seq<(string, string)>)
    ensures |pairs| == count
    ensures forall i :: 0 <= i < count ==> pairs[i] == SelfPingPair(i)
  {
    seq(count, i requires 0 <= i < count => SelfPingPair(i))
  }

  /** A character that may appear in an IPv4 or IPv6 address literal. */
  predicate IpChar(c: char)
  {
    ('0' <= c <= '9') || ('a' <= c <= 'f') || ('A' <= c <= 'F') || c == '.' || c == ':'
  }

  /** `s` is not taken for an address unless it is written with address characters only. */
  ghost predicate IpSyntaxAt(isIpAddr: string -> bool, s: string)
  {
    isIpAddr(s) ==> forall k :: 0 <= k < |s| ==> IpChar(s[k])
  }

  /**
   * What the harness relies on of `IpAddr` parsing: an address literal is written with
   * decimal or hexadecimal digits, dots and colons only.
   */
  ghost predicate IpSyntax(isIpAddr: string -> bool)
  {
    forall s :: IpSyntaxAt(isIpAddr, s)
  }

  /** A string without upper-case ASCII letters is its own lower-case form. */
  lemma LowerOfLower(s: string)
    requires forall k :: 0 <= k < |s| ==> !('A' <= s[k] <= 'Z')
    ensures Lower(s) == s
  {
  }

  /** The site label `site-{i}` has no dot and no upper-case letter. */
  lemma SiteLabel(i: nat)
    ensures '.' !in "site-" + NatToString(i)
    ensures forall k :: 0 <= k < |"site-" + NatToString(i)| ==> !('A' <= ("site-" + NatToString(i))[k] <= 'Z')
  {
    var l := "site-" + NatToString(i);
    forall k | 0 <= k < |l| ensures l[k] != '.' && !('A' <= l[k] <= 'Z') {
      if k >= 5 {
        assert l[k] == NatToString(i)[k - 5];
      }
    }
  }

  /** The site of a pair is written in lower case. */
  lemma SiteDomainLower(i: nat)
    ensures Lower(SiteDomain(i)) == SiteDomain(i)
  {
    var l := "site-" + NatToString(i);
    var d := SiteDomain(i);
    SiteLabel(i);
    forall k | 0 <= k < |d| ensures !('A' <= d[k] <= 'Z') {
      if k < |l| {
        assert d[k] == l[k];
      }
    }
    LowerOfLower(d);
  }

  /** A host whose second character is a letter beyond `f` is not an address literal. */
  lemma NotIpLiteral(isIpAddr: string -> bool, s: string)
    requires IpSyntax(isIpAddr)
    requires |s| >= 2 && 'g' <= s[1] <= 'z'
    ensures !isIpAddr(s)
  {
    assert IpSyntaxAt(isIpAddr, s);
  }

  /**
   * Under a lower-case three-label host `x.y.z` whose last two labels are not a listed
   * suffix, every subdomain has the registrable domain `y.z`.
   */
  lemma SubdomainsOfThreeLabels(isIpAddr: string -> bool, sub: string, x: string, y: string, z: string)
    requires '.' !in sub && '.' !in x && '.' !in y && '.' !in z
    requires Lower(x + "." + y + "." + z) == x + "." + y + "." + z
    requires !IsTwoPartTld(y + "." + z)
    requires !isIpAddr(Lower(sub + "." + (x + "." + y + "." + z))) && !isIpAddr(x + "." + y + "." + z)
    ensures RegistrableDomain(isIpAddr, x + "." + y + "." + z) == y + "." + z
    ensures RegistrableDomain(isIpAddr, sub + "." + (x + "." + y + "." + z)) == y + "." + z
  {
    SplitThreeLabels(x, y, z);
    LabelDomainThreeLabels(x, y, z);
    SubdomainKeepsRegistrableDomain(isIpAddr, sub, x + "." + y + "." + z);
  }

  /** A subdomain of a pair's site whose second letter is past `f` has registrable domain `example.com`. */
  lemma SubdomainOfSite(isIpAddr: string -> bool, sub: string, i: nat)
    requires !isIpAddr(SiteDomain(i)) && !isIpAddr(Lower(sub + "." + SiteDomain(i)))
    requires '.' !in sub
    ensures RegistrableDomain(isIpAddr, SiteDomain(i)) == "example.com"
    ensures RegistrableDomain(isIpAddr, sub + "." + SiteDomain(i)) == "example.com"
  {
    var l := "site-" + NatToString(i);
    var d := SiteDomain(i);
    SiteLabel(i);
    SiteDomainLower(i);
    assert d == l + "." + "example" + "." + "com";
    SubdomainsOfThreeLabels(isIpAddr, sub, l, "example", "com");
  }

  /** The source and target hosts of a self-ping pair share the registrable domain `example.com`. */
  lemma SelfPingPairSharesDomain(isIpAddr: string -> bool, i: nat)
    requires IpSyntax(isIpAddr)
    ensures RegistrableDomain(isIpAddr, "blog." + SiteDomain(i)) == "example.com"
    ensures RegistrableDomain(isIpAddr, "www." + SiteDomain(i)) == "example.com"
  {
    var d := SiteDomain(i);
    assert "blog." + d == "blog" + "." + d;
    assert "www." + d == "www" + "." + d;
    assert d[1] == 'i';
    NotIpLiteral(isIpAddr, d);
    NotIpLiteral(isIpAddr, Lower("blog" + "." + d));
    NotIpLiteral(isIpAddr, Lower("www" + "." + d));
    SubdomainOfSite(isIpAddr, "blog", i);
    SubdomainOfSite(isIpAddr, "www", i);
  }

  /** A parameter that starts with a visible character is present. */
  lemma PresentWhenVisibleStart(s: string)
    requires s != [] && !IsWhitespace(s[0])
    ensures Present(Some(s))
  {
    TrimEmptyIffBlank(s);
  }

  /**
   * The default validator refuses every generated self-ping pair, naming `example.com`,
   * given a URL parser that reads the scheme and host of these URLs as written.
   */
  lemma SelfPingPairBlocked(p: Parsers, i: nat)
    requires IpSyntax(p.isIpAddr)
    requires p.url(SelfPingPair(i).0) == Some(Url("https", Some("blog." + SiteDomain(i))))
    requires p.url(SelfPingPair(i).1) == Some(Url("https", Some("www." + SiteDomain(i))))
    ensures ValidateSourceTarget(DefaultValidationConfig(), p, Some(SelfPingPair(i).0), Some(SelfPingPair(i).1))
      == Invalid(SelfPingBlocked("example.com"))
  {
    var (src, tgt) := SelfPingPair(i);
    assert src[0] == 'h' && tgt[0] == 'h';
    PresentWhenVisibleStart(src);
    PresentWhenVisibleStart(tgt);
    SelfPingPairSharesDomain(p.isIpAddr, i);
  }

  // ----- Content-Type -----

  /** `generate_content_types()`. */
  const CONTENT_TYPES: seq<Option<string>> := [
    Some(FORM_URLENCODED),
    Some("application/x-www-form-urlencoded; charset=utf-8"),
    Some("application/json"),
    Some("text/plain"),
    Some("multipart/form-data"),
    Some("text/html"),
    Some("application/xml"),
    Some("APPLICATION/X-WWW-FORM-URLENCODED"),
    Some("application/x-www-form-urlencoded; boundary=---"),
    None,
    Some(""),
    Some("   ")
  ]

  /** `is_valid_content_type`: the harness's oracle for the default validator. */
  function IsValidContentType(ct: Option<string>): (b: bool)
    ensures b ==> ct.Some?
  {
    match ct
    case None => false
    case Some(s) => Lower(Trim(Split(s, ';')[0])) == FORM_URLENCODED
  }

  /** The oracle agrees with `validate_content_type` under the default configuration. */
  lemma OracleAgreesWithValidator(ct: Option<string>)
    ensures IsValidContentType(ct) == ValidateContentType(DefaultValidationConfig(), ct).Valid?
  {
    DefaultContentType(ct);
  }

  /** With acceptable parameters, the whole request passes exactly when the oracle says so. */
  lemma OracleAgreesWithValidate(p: Parsers, ct: Option<string>, source: Option<string>, target: Option<string>)
    requires ValidateSourceTarget(DefaultValidationConfig(), p, source, target).Valid?
    ensures IsValidContentType(ct) == Validate(DefaultValidationConfig(), p, ct, source, target).Valid?
  {
    OracleAgreesWithValidator(ct);
  }

  /** `None` and blank values are rejected. */
  lemma OracleRejectsMissing(ct: Option<string>)
    requires ct.None? || forall k :: 0 <= k < |ct.value| ==> IsWhitespace(ct.value[k])
    ensures !IsValidContentType(ct)
  {
    if ct.Some? {
      var first := Split(ct.value, ';')[0];
      SplitPartsFree(ct.value, ';');
      JoinSplit(ct.value, ';');
      var parts := Split(ct.value, ';');
      if |parts| > 1 {
        JoinAt(parts, 1, ';');
      }
      assert first == ct.value[..|first|];
      TrimEmptyIffBlank(first);
    }
  }

  // ----- Malformed URLs -----

  /** `generate_malformed_urls()`. */
  const MALFORMED_URLS: seq<string> := [
    "",
    "   ",
    "not-a-url",
    "ftp://wrong-scheme.com/",
    "://missing-scheme.com/",
    "https://",
    "javascript:alert(1)",
    "data:text/html,<script>",
    "file:///etc/passwd"
  ]

  /** The text starts with a web scheme and its ':'. */
  predicate HasWebPrefix(s: string)
  {
    (|s| >= 5 && s[..5] == "http:") || (|s| >= 6 && s[..6] == "https:")
  }

  /** At `s`, the URL parser yields a web URL only for text that starts with a web scheme. */
  ghost predicate WebSchemeAt(p: Parsers, s: string)
  {
    p.url(s).Some? && IsWebUrl(p.url(s).value) ==> HasWebPrefix(s)
  }

  /**
   * Every malformed URL is refused as a source: the blank ones as missing, the rest as
   * invalid, given a parser that yields no web URL for the six unpadded, lower-case
   * texts that do not start with "http:" or "https:", and refuses "https://" for its
   * empty host.
   */
  lemma MalformedSourceRejected(p: Parsers, k: nat, target: Option<string>)
    requires forall j :: 2 <= j < |MALFORMED_URLS| && j != 5 ==> WebSchemeAt(p, MALFORMED_URLS[j])
    requires p.url("https://").None?
    requires k < |MALFORMED_URLS|
    ensures ValidateSourceTarget(DefaultValidationConfig(), p, Some(MALFORMED_URLS[k]), target).Invalid?
  {
    var s := MALFORMED_URLS[k];
    if k <= 1 {
      assert forall i :: 0 <= i < |s| ==> s[i] == ' ';
      TrimEmptyIffBlank(s);
    } else if k != 5 {
      assert s[0] != 'h';
      NoWebPrefixWithoutH(s);
    }
    UnusableSourceRejected(DefaultValidationConfig(), p, s, target);
  }

  /** Text that does not start with 'h' has no web scheme. */
  lemma NoWebPrefixWithoutH(s: string)
    requires s != [] && s[0] != 'h'
    ensures !HasWebPrefix(s)
  {
    if |s| >= 5 {
      assert s[..5][0] == s[0] && "http:"[0] == 'h';
    }
    if |s| >= 6 {
      assert s[..6][0] == s[0] && "https:"[0] == 'h';
    }
  }

  /** A blank source, or one that does not parse as a web URL, is refused. */
  lemma UnusableSourceRejected(cfg: ValidationConfig, p: Parsers, s: string, target: Option<string>)
    requires cfg.requireSourceTarget
    requires Trim(s) == [] || !(p.url(s).Some? && IsWebUrl(p.url(s).value))
    ensures ValidateSourceTarget(cfg, p, Some(s), target).Invalid?
  {
  }
}
