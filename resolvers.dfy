/**
 * The record logic of the GraphQL resolvers: input validation, the record built by create
 * and update, and reverse-DNS names. Authentication, consent, the database and the clock
 * are outside the model; `now` and fresh identifiers are parameters.
 */
module Resolvers {
  import opened Wrappers
  import opened Bytes
  import opened Decimal
  import opened Text
  import opened DnsModels

  /** `DNSRecordInput`: what a client sends to create or update a record. */
  datatype DNSRecordInput = DNSRecordInput(
    name: string,
    recordType: DNSRecordType,
    ttl: i32,
    value: string,
    dnssec: Option<bool>)

  datatype RecordError = EmptyName | NegativeTtl | InvalidIpv4 | InvalidIpv6 | EmptyValue

  /** `part.parse::<u8>().is_ok()`. */
  predicate IsOctet(part: string)
  {
    ParseUnsigned(part, 255).Ok?
  }

  /** An octet is a non-empty digit string, after at most one '+', of value at most 255. */
  lemma IsOctetCorrect(part: string)
    ensures IsOctet(part) <==> |Body(part)| > 0 && AllDigits(Body(part)) && Value(Body(part)) <= 255
  {
    ParseUnsignedCorrect(part, 255);
  }

  /** The per-type value check. */
  predicate ValueFits(t: DNSRecordType, value: string)
  {
    match t
    case A => forall k :: 0 <= k < |Split(value, '.')| ==> IsOctet(Split(value, '.')[k])
    case AAAA => ':' in value
    case _ => value != []
  }

  /** The error for a value that does not fit its type. */
  function ValueError(t: DNSRecordType): RecordError
  {
    match t
    case A => InvalidIpv4
    case AAAA => InvalidIpv6
    case _ => EmptyValue
  }

  /** `validate_dns_record`: the name, then the TTL, then the value. */
  function ValidateRecord(input: DNSRecordInput): (r: Result<(), RecordError>)
    ensures input.name == [] ==> r == Err(EmptyName)
    ensures input.name != [] && input.ttl < 0 ==> r == Err(NegativeTtl)
    ensures r.Ok? <==> input.name != [] && input.ttl >= 0 && ValueFits(input.recordType, input.value)
    ensures input.name != [] && input.ttl >= 0 && !ValueFits(input.recordType, input.value) ==>
      r == Err(ValueError(input.recordType))
  {
    if input.name == [] then Err(EmptyName)
    else if input.ttl < 0 then Err(NegativeTtl)
    else if !ValueFits(input.recordType, input.value) then Err(ValueError(input.recordType))
    else Ok(())
  }

  /** Four octets rendered in decimal and joined by '.'. */
  function DottedQuad(a: byte, b: byte, c: byte, d: byte): string
  {
    Join([NatToString(a), NatToString(b), NatToString(c), NatToString(d)], '.')
  }

  /** Every dotted-quad address is a valid A record value. */
  lemma DottedQuadAccepted(name: string, ttl: i32, a: byte, b: byte, c: byte, d: byte, dnssec: Option<bool>)
    requires name != [] && ttl >= 0
    ensures ValidateRecord(DNSRecordInput(name, A, ttl, DottedQuad(a, b, c, d), dnssec)).Ok?
  {
    var parts := [NatToString(a), NatToString(b), NatToString(c), NatToString(d)];
    forall k | 0 <= k < 4 ensures '.' !in parts[k] && IsOctet(parts[k]) {
      var n: byte := if k == 0 then a else if k == 1 then b else if k == 2 then c else d;
      assert parts[k] == NatToString(n);
      assert AllDigits(parts[k]);
      ParseNatToString(n, 255);
    }
    SplitJoin(parts, '.');
  }

  /** The number of components is not checked: a single octet is a valid A record value. */
  lemma SingleOctetAccepted(name: string, ttl: i32, n: byte, dnssec: Option<bool>)
    requires name != [] && ttl >= 0
    ensures ValidateRecord(DNSRecordInput(name, A, ttl, NatToString(n), dnssec)).Ok?
  {
    assert AllDigits(NatToString(n));
    SplitNoSep(NatToString(n), '.');
    ParseNatToString(n, 255);
  }

  /** A component above 255 makes an A record value invalid. */
  lemma LargeOctetRejected(name: string, ttl: i32, n: nat, dnssec: Option<bool>)
    requires name != [] && ttl >= 0 && n > 255
    ensures ValidateRecord(DNSRecordInput(name, A, ttl, NatToString(n), dnssec)) == Err(InvalidIpv4)
  {
    var s := NatToString(n);
    assert AllDigits(s);
    SplitNoSep(s, '.');
    ValueOfNatToString(n);
    assert Body(s) == s by {
      assert IsDigit(s[0]);
    }
    IsOctetCorrect(s);
    assert !IsOctet(Split(s, '.')[0]);
  }

  /** An empty A record value is invalid: its one component is empty. */
  lemma EmptyIpv4Rejected(name: string, ttl: i32, dnssec: Option<bool>)
    requires name != [] && ttl >= 0
    ensures ValidateRecord(DNSRecordInput(name, A, ttl, "", dnssec)) == Err(InvalidIpv4)
  {
    assert Split("", '.')[0] == "";
  }

  // ----- Create and update -----

  /** `create_dns_record` after authentication and consent: validate, build, apply `dnssec` if given. */
  function CreateRecord(input: DNSRecordInput, now: int, id: string): (r: Result<DNSRecord, RecordError>)
    ensures r.Ok? <==> ValidateRecord(input).Ok?
    ensures r.Err? ==> r == Err(ValidateRecord(input).error)
    ensures r.Ok? ==>
      && r.value.id == id && r.value.name == input.name && r.value.recordType == input.recordType
      && r.value.ttl == input.ttl && r.value.value == input.value
      && r.value.dnssec == (input.dnssec.Some? && input.dnssec.value)
      && r.value.rrsig.None? && r.value.blockchainTxHash.None?
      && r.value.createdAt == r.value.updatedAt == now
  {
    match ValidateRecord(input)
    case Err(e) => Err(e)
    case Ok(_) =>
      var record := NewRecord(input.name, input.recordType, input.ttl, input.value, now, id);
      if input.dnssec.Some? then Ok(record.(dnssec := input.dnssec.value)) else Ok(record)
  }

  /** `update_dns_record` on the stored record `existing`: validate, then overwrite the input's fields. */
  function UpdateRecord(existing: DNSRecord, input: DNSRecordInput, now: int): (r: Result<DNSRecord, RecordError>)
    ensures r.Ok? <==> ValidateRecord(input).Ok?
    ensures r.Err? ==> r == Err(ValidateRecord(input).error)
    ensures r.Ok? ==>
      && r.value.id == existing.id && r.value.createdAt == existing.createdAt
      && r.value.rrsig == existing.rrsig && r.value.blockchainTxHash == existing.blockchainTxHash
      && r.value.name == input.name && r.value.recordType == input.recordType
      && r.value.ttl == input.ttl && r.value.value == input.value
      && r.value.dnssec == (if input.dnssec.Some? then input.dnssec.value else existing.dnssec)
      && r.value.updatedAt == now
  {
    match ValidateRecord(input)
    case Err(e) => Err(e)
    case Ok(_) =>
      var record := existing.(name := input.name, recordType := input.recordType, ttl := input.ttl,
                              value := input.value, updatedAt := now);
      if input.dnssec.Some? then Ok(record.(dnssec := input.dnssec.value)) else Ok(record)
  }

  /** Updating a record to an input gives it the hash a record freshly created from that input has. */
  lemma UpdateHashMatchesCreate(digest: string -> string, existing: DNSRecord, input: DNSRecordInput,
                                now: int, later: int, id: string)
    requires ValidateRecord(input).Ok?
    ensures ContentHash(digest, UpdateRecord(existing, input, later).value) ==
            ContentHash(digest, CreateRecord(input, now, id).value)
  {
    ContentHashIgnoresMetadata(digest, UpdateRecord(existing, input, later).value, CreateRecord(input, now, id).value);
  }

  // ----- Reverse names -----

  function Reversed<T>(s: seq<T>): (r: seq<T>)
    ensures |r| == |s| && forall i :: 0 <= i < |s| ==> r[i] == s[|s| - 1 - i]
  {
    if s == [] then [] else Reversed(s[1..]) + [s[0]]
  }

  lemma ReversedTwice<T>(s: seq<T>)
    ensures Reversed(Reversed(s)) == s
  {
  }

  lemma JoinFour(p: seq<string>, sep: char)
    requires |p| == 4
    ensures Join(p, sep) == p[0] + [sep] + p[1] + [sep] + p[2] + [sep] + p[3]
  {
    assert p[1..][1..] == p[2..] && p[2..][1..] == p[3..];
    assert Join(p[3..], sep) == p[3];
    assert Join(p[2..], sep) == p[2] + [sep] + p[3];
    assert Join(p[1..], sep) == p[1] + [sep] + (p[2] + [sep] + p[3]);
  }

  datatype ReverseError = InvalidIpv4Address

  /**
   * `ip_to_reverse_name`: with a ':' every ':' becomes '.' under "ip6.arpa"; otherwise
   * exactly four dot-separated parts, reversed, under "in-addr.arpa".
   */
  function ReverseName(ip: string): (r: Result<string, ReverseError>)
    ensures ':' in ip ==> r.Ok? && |r.value| == |ip| + 9 && ':' !in r.value
    ensures ':' in ip ==> r.value[..|ip|] == ReplaceChar(ip, ':', '.') && r.value[|ip|..] == ".ip6.arpa"
    ensures ':' !in ip ==> (r.Ok? <==> |Split(ip, '.')| == 4)
    ensures ':' !in ip && r.Ok? ==> r.value == Join(Reversed(Split(ip, '.')), '.') + ".in-addr.arpa"
  {
    if ':' in ip then
      var v6 := ReplaceChar(ip, ':', '.');
      assert ':' !in v6 by {
        forall i | 0 <= i < |v6| ensures v6[i] != ':' { }
      }
      Ok(v6 + ".ip6.arpa")
    else
      var parts := Split(ip, '.');
      if |parts| != 4 then Err(InvalidIpv4Address)
      else
        JoinFour(Reversed(parts), '.');
        Ok(parts[3] + "." + parts[2] + "." + parts[1] + "." + parts[0] + ".in-addr.arpa")
  }

  /** The dotted address with its parts in reverse order. */
  function ReversedAddress(ip: string): string
  {
    Join(Reversed(Split(ip, '.')), '.')
  }

  /**
   * Reversal of the four parts is an involution: the reverse name of the reversed address
   * is the original address under "in-addr.arpa".
   */
  lemma ReverseNameInvolution(ip: string)
    requires ':' !in ip && |Split(ip, '.')| == 4
    ensures ReverseName(ip) == Ok(ReversedAddress(ip) + ".in-addr.arpa")
    ensures ReverseName(ReversedAddress(ip)) == Ok(ip + ".in-addr.arpa")
  {
    var parts := Split(ip, '.');
    var rev := Reversed(parts);
    ReversedPartsClean(ip);
    SplitJoin(rev, '.');
    JoinHasNo(rev, '.', ':');
    ReversedTwice(parts);
    JoinSplit(ip, '.');
  }

  /** The reversed parts of a colon-free address hold neither '.' nor ':'. */
  lemma ReversedPartsClean(ip: string)
    requires ':' !in ip
    ensures forall k :: 0 <= k < |Reversed(Split(ip, '.'))| ==>
      '.' !in Reversed(Split(ip, '.'))[k] && ':' !in Reversed(Split(ip, '.'))[k]
  {
    var parts := Split(ip, '.');
    SplitPartsFree(ip, '.');
    SplitPartsHaveNo(ip, '.', ':');
    forall k | 0 <= k < |parts| ensures '.' !in Reversed(parts)[k] && ':' !in Reversed(parts)[k] {
      assert Reversed(parts)[k] == parts[|parts| - 1 - k];
    }
  }
}
