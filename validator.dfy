/**
 * Ingress validation of Webmention requests: the Content-Type header, the presence and
 * form of the `source` and `target` parameters, and self-ping blocking by a
 * registrable-domain heuristic. URL and IP-address parsing belong to foreign crates
 * and are parameters.
 */
module Validator {
  import opened Wrappers
  import opened Text
  import opened WebmentionConfig

  /** What the validator reads from a parsed URL. */
  datatype Url = Url(scheme: string, host: Option<string>)

  /** `Url::parse` and `str::parse::<IpAddr>().is_ok()`. */
  datatype Parsers = Parsers(url: string -> Option<Url>, isIpAddr: string -> bool)

  datatype ValidationError =
    | InvalidContentType(expected: seq<string>, actual: Option<string>)
    | MissingParameter(param: string)
    | InvalidUrl(param: string, url: string)
    | SelfPingBlocked(domain: string)

  datatype ValidationResult = Valid | Invalid(error: ValidationError)
  {
    predicate IsValid() { Valid? }

    function Error(): (e: Option<ValidationError>)
      ensures e.None? <==> Valid?
    {
      if Valid? then None else Some(error)
    }
  }

  // ----- Content-Type -----

  /** The media type of a header value: before the first `;`, trimmed and lower-cased. */
  function MediaType(s: string): (m: string)
    ensures ';' !in m
    ensures Lower(m) == m
  {
    var first := Split(s, ';')[0];
    SplitPartsFree(s, ';');
    assert ';' !in Trim(first);
    LowerKeeps(Trim(first), ';');
    LowerIdempotent(Trim(first));
    Lower(Trim(first))
  }

  /** Parameters after the first `;` do not change the media type. */
  lemma MediaTypeIgnoresParameters(t: string, params: string)
    requires ';' !in t
    ensures MediaType(t + [';'] + params) == MediaType(t)
  {
    SplitConcat(t, params, ';');
    SplitNoSep(t, ';');
  }

  /** White space around the media type is dropped and its letters lower-cased. */
  lemma MediaTypeOfPadded(ws1: string, t: string, ws2: string)
    requires forall i :: 0 <= i < |ws1| ==> IsWhitespace(ws1[i])
    requires forall i :: 0 <= i < |ws2| ==> IsWhitespace(ws2[i])
    requires t != [] && !IsWhitespace(t[0]) && !IsWhitespace(t[|t| - 1]) && ';' !in t
    ensures MediaType(ws1 + t + ws2) == Lower(t)
  {
    var s := ws1 + t + ws2;
    assert ';' !in s by {
      forall i | 0 <= i < |s| ensures s[i] != ';' {
        if i < |ws1| {
          assert IsWhitespace(ws1[i]);
        } else if i < |ws1| + |t| {
          assert s[i] == t[i - |ws1|];
        } else {
          assert IsWhitespace(ws2[i - |ws1| - |t|]);
        }
      }
    }
    SplitNoSep(s, ';');
    TrimPadded(ws1, t, ws2);
  }

  /** Some configured type, lower-cased, equals `m`. */
  predicate Accepts(cfg: ValidationConfig, m: string)
  {
    exists i :: 0 <= i < |cfg.requireContentType| && Lower(cfg.requireContentType[i]) == m
  }

  /** Each configured type lower-cased, as `expected_lower`. */
  function LowerAll(types: seq<string>): (r: seq<string>)
    ensures |r| == |types| && forall i :: 0 <= i < |types| ==> r[i] == Lower(types[i])
  {
    seq(|types|, i requires 0 <= i < |types| => Lower(types[i]))
  }

  /** Membership in the lower-cased list is acceptance. */
  lemma InLowerAll(cfg: ValidationConfig, m: string)
    ensures m in LowerAll(cfg.requireContentType) <==> Accepts(cfg, m)
  {
    var types := cfg.requireContentType;
    var expectedLower := LowerAll(types);
    if m in expectedLower {
      var i :| 0 <= i < |expectedLower| && expectedLower[i] == m;
      assert Lower(types[i]) == m;
    }
    if Accepts(cfg, m) {
      var i :| 0 <= i < |types| && Lower(types[i]) == m;
      assert expectedLower[i] == m;
    }
  }

  /** `validate_content_type`. */
  function ValidateContentType(cfg: ValidationConfig, contentType: Option<string>): (r: ValidationResult)
    ensures r.Valid? <==> contentType.Some? && Accepts(cfg, MediaType(contentType.value))
    ensures r.Invalid? ==>
      r.error == InvalidContentType(cfg.requireContentType,
                                    if contentType.Some? then Some(MediaType(contentType.value)) else None)
  {
    var ct := if contentType.Some? then Some(MediaType(contentType.value)) else None;
    if ct.Some? && (InLowerAll(cfg, ct.value); ct.value in LowerAll(cfg.requireContentType)) then
      Valid
    else
      Invalid(InvalidContentType(cfg.requireContentType, ct))
  }

  /** Under the default configuration only the form encoding is accepted, in any letter case. */
  lemma DefaultContentType(contentType: Option<string>)
    ensures ValidateContentType(DefaultValidationConfig(), contentType).Valid? <==>
      contentType.Some? && MediaType(contentType.value) == FORM_URLENCODED
  {
    var cfg := DefaultValidationConfig();
    assert Lower(FORM_URLENCODED) == FORM_URLENCODED by {
      assert forall i :: 0 <= i < |FORM_URLENCODED| ==> !('A' <= FORM_URLENCODED[i] <= 'Z');
    }
    assert cfg.requireContentType[0] == FORM_URLENCODED;
    if contentType.Some? && Accepts(cfg, MediaType(contentType.value)) {
      var i :| 0 <= i < |cfg.requireContentType| && Lower(cfg.requireContentType[i]) == MediaType(contentType.value);
      assert i == 0;
    }
  }

  // ----- Source and target -----

  /** A parameter that is given and not blank. */
  predicate Present(p: Option<string>)
  {
    p.Some? && Trim(p.value) != []
  }

  /** A parsed URL with scheme `http` or `https` and a host. */
  predicate IsWebUrl(u: Url)
  {
    (u.scheme == "http" || u.scheme == "https") && u.host.Some?
  }

  /** `extract_registrable_domain(host)` of a parsed web URL. */
  function SiteOf(p: Parsers, u: Url): string
    requires u.host.Some?
  {
    RegistrableDomain(p.isIpAddr, u.host.value)
  }

  /** `validate_source_target`: each check in turn, the first failure reported. */
  function ValidateSourceTarget(cfg: ValidationConfig, p: Parsers, source: Option<string>, target: Option<string>)
    : (r: ValidationResult)
    ensures !cfg.requireSourceTarget ==> r == Valid
    ensures r.Valid? && cfg.requireSourceTarget ==>
      && Present(source) && Present(target)
      && p.url(source.value).Some? && IsWebUrl(p.url(source.value).value)
      && p.url(target.value).Some? && IsWebUrl(p.url(target.value).value)
  {
    if !cfg.requireSourceTarget then Valid
    else if !Present(source) then Invalid(MissingParameter("source"))
    else if !Present(target) then Invalid(MissingParameter("target"))
    else
      var s, t := source.value, target.value;
      match (p.url(s), p.url(t))
      case (None, _) => Invalid(InvalidUrl("source", s))
      case (Some(_), None) => Invalid(InvalidUrl("target", t))
      case (Some(su), Some(tu)) =>
        if !IsWebUrl(su) then Invalid(InvalidUrl("source", s))
        else if !IsWebUrl(tu) then Invalid(InvalidUrl("target", t))
        else if cfg.blockSelfPing && SiteOf(p, su) == SiteOf(p, tu) then
          Invalid(SelfPingBlocked(SiteOf(p, su)))
        else Valid
  }

  /**
   * The outcome of `validate_source_target`, case by case, in the order the checks run:
   * missing source, missing target, source unparsable, target unparsable, source not a
   * web URL, target not a web URL, self-ping. A URL error names the raw parameter value.
   */
  lemma ValidateSourceTargetCases(cfg: ValidationConfig, p: Parsers, source: Option<string>, target: Option<string>)
    requires cfg.requireSourceTarget
    ensures var r := ValidateSourceTarget(cfg, p, source, target);
      (r == Invalid(MissingParameter("source")) <==> !Present(source)) &&
      (r == Invalid(MissingParameter("target")) <==> Present(source) && !Present(target))
    ensures var r := ValidateSourceTarget(cfg, p, source, target);
      Present(source) && Present(target) ==>
        var su, tu := p.url(source.value), p.url(target.value);
        && (r == Invalid(InvalidUrl("source", source.value)) <==>
              su.None? || (tu.Some? && !IsWebUrl(su.value)))
        && (r == Invalid(InvalidUrl("target", target.value)) <==>
              su.Some? && (tu.None? || (IsWebUrl(su.value) && !IsWebUrl(tu.value))))
        && (r.Invalid? && r.error.SelfPingBlocked? <==>
              su.Some? && tu.Some? && IsWebUrl(su.value) && IsWebUrl(tu.value) &&
              cfg.blockSelfPing && SiteOf(p, su.value) == SiteOf(p, tu.value))
        && (r.Invalid? && r.error.SelfPingBlocked? ==> r.error.domain == SiteOf(p, su.value))
  {
  }

  /** With self-ping blocking on, a valid pair never shares a registrable domain. */
  lemma ValidPairIsCrossSite(cfg: ValidationConfig, p: Parsers, source: Option<string>, target: Option<string>)
    requires cfg.requireSourceTarget && cfg.blockSelfPing
    requires ValidateSourceTarget(cfg, p, source, target).Valid?
    ensures Present(source) && Present(target)
    ensures p.url(source.value).Some? && p.url(target.value).Some?
    ensures IsWebUrl(p.url(source.value).value) && IsWebUrl(p.url(target.value).value)
    ensures SiteOf(p, p.url(source.value).value) != SiteOf(p, p.url(target.value).value)
  {
  }

  /** `validate`: the Content-Type first; the parameters only when it passes. */
  function Validate(cfg: ValidationConfig, p: Parsers, contentType: Option<string>,
                    source: Option<string>, target: Option<string>): (r: ValidationResult)
    ensures r.Valid? <==>
      ValidateContentType(cfg, contentType).Valid? && ValidateSourceTarget(cfg, p, source, target).Valid?
    ensures !ValidateContentType(cfg, contentType).Valid? ==> r.Invalid? && r.error.InvalidContentType?
    ensures ValidateContentType(cfg, contentType).Valid? ==> r == ValidateSourceTarget(cfg, p, source, target)
  {
    var ctResult := ValidateContentType(cfg, contentType);
    if !ctResult.IsValid() then ctResult
    else ValidateSourceTarget(cfg, p, source, target)
  }

  // ----- Registrable domain -----

  /** `TWO_PART_TLDS`. */
  const TWO_PART_TLDS: seq<string> :=
    ["co.uk", "org.uk", "me.uk", "co.nz", "co.jp", "co.kr",
     "com.au", "net.au", "org.au", "com.br", "co.za"]

  /** `is_two_part_tld`. */
  predicate IsTwoPartTld(suffix: string)
  {
    suffix in TWO_PART_TLDS
  }

  /** `d` is `h` or the part of `h` after one of its dots: a whole number of trailing labels. */
  predicate LabelSuffix(d: string, h: string)
  {
    |d| <= |h| && h[|h| - |d|..] == d && (|d| == |h| || h[|h| - |d| - 1] == '.')
  }

  /** Labels `i..` of `h`, joined: a label suffix of `h`. */
  lemma JoinedTailIsLabelSuffix(h: string, i: nat)
    requires 1 <= i < |Split(h, '.')|
    ensures LabelSuffix(Join(Split(h, '.')[i..], '.'), h)
  {
    var parts := Split(h, '.');
    JoinSplit(h, '.');
    JoinAt(parts, i, '.');
  }

  /**
   * `extract_registrable_domain`: the lower-cased host if it is an IP address, else
   * `LabelDomain` of it.
   */
  function RegistrableDomain(isIpAddr: string -> bool, host: string): (d: string)
    ensures isIpAddr(Lower(host)) ==> d == Lower(host)
  {
    var h := Lower(host);
    if isIpAddr(h) then h else LabelDomain(h)
  }

  /**
   * The label heuristic of `extract_registrable_domain`: a host of at most two labels is
   * kept; else its last two labels, or its last three when the last two form a listed
   * two-part suffix.
   */
  function LabelDomain(h: string): (d: string)
    ensures |Split(h, '.')| <= 2 ==> d == h
  {
    LabelsDomain(h, Split(h, '.'))
  }

  /** `LabelDomain` once the host `h` has been split into `parts`. */
  function LabelsDomain(h: string, parts: seq<string>): (d: string)
    requires |parts| >= 1
    ensures |parts| <= 2 ==> d == h
  {
    var n := |parts|;
    if n <= 2 then h
    else
      var lastTwo := parts[n - 2] + "." + parts[n - 1];
      if IsTwoPartTld(lastTwo) && n > 2 then parts[n - 3] + "." + lastTwo
      else lastTwo
  }

  /** The label heuristic keeps a whole number of trailing labels. */
  lemma LabelDomainIsLabelSuffix(h: string)
    ensures LabelSuffix(LabelDomain(h), h)
  {
    var parts := Split(h, '.');
    var n := |parts|;
    if n > 2 {
      var lastTwo := parts[n - 2] + "." + parts[n - 1];
      assert lastTwo == Join(parts[n - 2..], '.') by {
        assert parts[n - 2..][1..] == [parts[n - 1]];
      }
      if IsTwoPartTld(lastTwo) {
        assert parts[n - 3] + "." + lastTwo == Join(parts[n - 3..], '.') by {
          assert parts[n - 3..][1..] == parts[n - 2..];
        }
        if n == 3 {
          JoinSplit(h, '.');
          assert parts[n - 3..] == parts;
        } else {
          JoinedTailIsLabelSuffix(h, n - 3);
        }
      } else {
        JoinedTailIsLabelSuffix(h, n - 2);
      }
    }
  }

  /** A three-label host keeps all three labels exactly when its last two form a listed suffix. */
  lemma LabelDomainThreeLabels(x: string, y: string, z: string)
    requires '.' !in x && '.' !in y && '.' !in z
    ensures LabelDomain(x + "." + y + "." + z) ==
      if IsTwoPartTld(y + "." + z) then x + "." + y + "." + z else y + "." + z
  {
    SplitThreeLabels(x, y, z);
  }

  /** Three dot-free labels joined by dots split back into those labels. */
  lemma SplitThreeLabels(x: string, y: string, z: string)
    requires '.' !in x && '.' !in y && '.' !in z
    ensures Split(x + "." + y + "." + z, '.') == [x, y, z]
  {
    var yz := y + "." + z;
    assert x + "." + y + "." + z == x + ['.'] + yz;
    assert yz == y + ['.'] + z;
    SplitConcat(y, z, '.');
    SplitNoSep(y, '.');
    SplitNoSep(z, '.');
    SplitConcat(x, yz, '.');
    SplitNoSep(x, '.');
  }

  /** The registrable domain is the whole lower-cased host or a whole number of its trailing labels. */
  lemma RegistrableDomainIsLabelSuffix(isIpAddr: string -> bool, host: string)
    ensures LabelSuffix(RegistrableDomain(isIpAddr, host), Lower(host))
  {
    if !isIpAddr(Lower(host)) {
      LabelDomainIsLabelSuffix(Lower(host));
    }
  }

  /** One more leading part leaves the answer alone unless the host is two parts forming a listed suffix. */
  lemma LabelsDomainCons(l: string, h: string, parts: seq<string>)
    requires |parts| >= 2
    requires |parts| == 2 ==> h == parts[0] + "." + parts[1] && !IsTwoPartTld(h)
    ensures LabelsDomain(l + "." + h, [l] + parts) == LabelsDomain(h, parts)
  {
    var parts' := [l] + parts;
    var n := |parts|;
    assert parts'[n - 1] == parts[n - 2] && parts'[n] == parts[n - 1];
    if n == 2 {
      assert parts'[n - 1] + "." + parts'[n] == h;
    } else {
      assert parts'[n - 2] == parts[n - 3];
      SameLastThree(l + "." + h, parts', h, parts);
    }
  }

  /** Beyond two parts only the last three parts matter. */
  lemma SameLastThree(h: string, p: seq<string>, h': string, q: seq<string>)
    requires |p| >= 3 && |q| >= 3
    requires p[|p| - 1] == q[|q| - 1] && p[|p| - 2] == q[|q| - 2] && p[|p| - 3] == q[|q| - 3]
    ensures LabelsDomain(h, p) == LabelsDomain(h', q)
  {
  }

  /** One more leading label leaves the label heuristic's answer alone, unless `h` is itself a bare two-part suffix. */
  lemma LabelDomainOfSubdomain(l: string, h: string)
    requires '.' !in l
    requires |Split(h, '.')| >= 2
    requires |Split(h, '.')| == 2 ==> !IsTwoPartTld(h)
    ensures LabelDomain(l + "." + h) == LabelDomain(h)
  {
    assert l + "." + h == l + ['.'] + h;
    SplitConcat(l, h, '.');
    SplitNoSep(l, '.');
    var parts := Split(h, '.');
    if |parts| == 2 {
      JoinSplit(h, '.');
      assert parts[1..] == [parts[1]];
    }
    LabelsDomainCons(l, h, parts);
  }

  /**
   * A further subdomain label leaves the registrable domain alone, unless the host
   * itself is a bare two-part suffix such as `co.uk`.
   */
  lemma SubdomainKeepsRegistrableDomain(isIpAddr: string -> bool, sub: string, host: string)
    requires '.' !in sub
    requires !isIpAddr(Lower(sub + "." + host)) && !isIpAddr(Lower(host))
    requires |Split(Lower(host), '.')| >= 2
    requires |Split(Lower(host), '.')| == 2 ==> !IsTwoPartTld(Lower(host))
    ensures RegistrableDomain(isIpAddr, sub + "." + host) == RegistrableDomain(isIpAddr, host)
  {
    LowerConcat(sub, "." + host);
    LowerConcat(".", host);
    assert Lower(sub + "." + host) == Lower(sub) + "." + Lower(host) by {
      assert sub + "." + host == sub + ("." + host);
    }
    LowerKeeps(sub, '.');
    LabelDomainOfSubdomain(Lower(sub), Lower(host));
  }
}
