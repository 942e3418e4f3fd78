/**
 * DNS records of the GraphQL DNS API: the record types with their wire type codes, record
 * construction, and the text that the provenance content hash is computed over. The
 * BLAKE3-and-hex digest is a parameter; the clock and the identifier generator are too.
 */
module DnsModels {
  import opened Wrappers
  import opened Bytes
  import opened Decimal

  /** The record types, in declaration order. */
  datatype DNSRecordType = A | AAAA | CNAME | MX | TXT | SRV | CAA | TLSA | NS | SOA | PTR

  const ALL_RECORD_TYPES: seq<DNSRecordType> := [A, AAAA, CNAME, MX, TXT, SRV, CAA, TLSA, NS, SOA, PTR]

  /** `to_type_code`: the type's code on the wire. */
  function TypeCode(t: DNSRecordType): (code: u16)
    ensures code > 0
  {
    match t
    case A => 1
    case NS => 2
    case CNAME => 5
    case SOA => 6
    case PTR => 12
    case MX => 15
    case TXT => 16
    case AAAA => 28
    case SRV => 33
    case CAA => 257
    case TLSA => 52
  }

  /** The type carrying a wire code, if any: the reference inverse of `TypeCode`. */
  function FromTypeCode(code: u16): (t: Option<DNSRecordType>)
    ensures t.Some? ==> TypeCode(t.value) == code
  {
    if code == 1 then Some(A)
    else if code == 2 then Some(NS)
    else if code == 5 then Some(CNAME)
    else if code == 6 then Some(SOA)
    else if code == 12 then Some(PTR)
    else if code == 15 then Some(MX)
    else if code == 16 then Some(TXT)
    else if code == 28 then Some(AAAA)
    else if code == 33 then Some(SRV)
    else if code == 52 then Some(TLSA)
    else if code == 257 then Some(CAA)
    else None
  }

  /** Every type's code leads back to the type. */
  lemma FromTypeCodeOfTypeCode(t: DNSRecordType)
    ensures FromTypeCode(TypeCode(t)) == Some(t)
  {
  }

  /** No two types share a wire code. */
  lemma TypeCodeInjective(s: DNSRecordType, t: DNSRecordType)
    requires TypeCode(s) == TypeCode(t)
    ensures s == t
  {
    FromTypeCodeOfTypeCode(s);
    FromTypeCodeOfTypeCode(t);
  }

  /** The value of `record_type as u16`: the declaration index, not the wire code. */
  function Discriminant(t: DNSRecordType): (d: nat)
    ensures d < |ALL_RECORD_TYPES| && ALL_RECORD_TYPES[d] == t
  {
    match t
    case A => 0
    case AAAA => 1
    case CNAME => 2
    case MX => 3
    case TXT => 4
    case SRV => 5
    case CAA => 6
    case TLSA => 7
    case NS => 8
    case SOA => 9
    case PTR => 10
  }

  /** The discriminant differs from the wire code for every type. */
  lemma DiscriminantIsNotTypeCode(t: DNSRecordType)
    ensures Discriminant(t) != TypeCode(t)
  {
  }

  /** A record with its provenance fields; timestamps are clock readings. */
  datatype DNSRecord = DNSRecord(
    id: string,
    name: string,
    recordType: DNSRecordType,
    ttl: i32,
    value: string,
    dnssec: bool,
    rrsig: Option<string>,
    blockchainTxHash: Option<string>,
    createdAt: int,
    updatedAt: int)

  /** `DNSRecord::new` with the clock reading `now` and the fresh identifier `id`. */
  function NewRecord(name: string, recordType: DNSRecordType, ttl: i32, value: string, now: int, id: string)
    : (r: DNSRecord)
    ensures r.id == id && r.name == name && r.recordType == recordType && r.ttl == ttl && r.value == value
    ensures !r.dnssec && r.rrsig.None? && r.blockchainTxHash.None?
    ensures r.createdAt == r.updatedAt == now
  {
    DNSRecord(id, name, recordType, ttl, value, false, None, None, now, now)
  }

  /** The text `content_hash` digests: name, discriminant, TTL and value, separated by ':'. */
  function HashPreimage(r: DNSRecord): string
  {
    r.name + ":" + NatToString(Discriminant(r.recordType)) + ":" + IntToString(r.ttl) + ":" + r.value
  }

  /** `content_hash`, for the digest function `digest` (BLAKE3 rendered as hex). */
  function ContentHash(digest: string -> string, r: DNSRecord): string
  {
    digest(HashPreimage(r))
  }

  /** Two records that agree on name, type, TTL and value have the same hash, whatever else differs. */
  lemma ContentHashIgnoresMetadata(digest: string -> string, r: DNSRecord, s: DNSRecord)
    requires r.name == s.name && r.recordType == s.recordType && r.ttl == s.ttl && r.value == s.value
    ensures ContentHash(digest, r) == ContentHash(digest, s)
  {
  }

  /** With name, type and TTL fixed, the preimage determines the value. */
  lemma PreimageDeterminesValue(r: DNSRecord, s: DNSRecord)
    requires r.name == s.name && r.recordType == s.recordType && r.ttl == s.ttl
    requires r.value != s.value
    ensures HashPreimage(r) != HashPreimage(s)
  {
    var prefix := r.name + ":" + NatToString(Discriminant(r.recordType)) + ":" + IntToString(r.ttl) + ":";
    assert HashPreimage(r) == prefix + r.value;
    assert HashPreimage(s) == prefix + s.value;
    assert (prefix + r.value)[|prefix|..] == r.value;
    assert (prefix + s.value)[|prefix|..] == s.value;
  }

  /** The text before the first ':' (all of it when there is none). */
  function BeforeColon(s: string): string
  {
    if s == [] || s[0] == ':' then [] else [s[0]] + BeforeColon(s[1..])
  }

  /** The text after the first ':' (nothing when there is none). */
  function AfterColon(s: string): string
  {
    if s == [] then [] else if s[0] == ':' then s[1..] else AfterColon(s[1..])
  }

  lemma {:induction false} ColonSplit(a: string, b: string)
    requires ':' !in a
    ensures BeforeColon(a + ":" + b) == a && AfterColon(a + ":" + b) == b
  {
    var x := a + ":" + b;
    if a == [] {
      assert x[0] == ':' && x[1..] == b;
    } else {
      assert x[0] == a[0] && x[1..] == a[1..] + ":" + b;
      ColonSplit(a[1..], b);
      assert a == [a[0]] + a[1..];
    }
  }

  /** Splitting a string at its first ':' recovers a colon-free head and the rest. */
  lemma UnglueAtColon(a: string, b: string, c: string, d: string)
    requires ':' !in a && ':' !in c
    requires a + ":" + b == c + ":" + d
    ensures a == c && b == d
  {
    ColonSplit(a, b);
    ColonSplit(c, d);
  }

  lemma NoColonInInt(i: int)
    ensures ':' !in IntToString(i)
  {
    var n := NatToString(if i < 0 then -i else i);
    assert AllDigits(n);
    if i < 0 {
      assert IntToString(i) == "-" + n;
    }
  }

  /** A preimage read as its first field, then the rest. */
  lemma Regroup(a: string, b: string, c: string, d: string)
    ensures a + ":" + b + ":" + c + ":" + d == a + ":" + (b + ":" + (c + ":" + d))
  {
  }

  /**
   * For names without ':', the preimage determines name, type, TTL and value, so only
   * records equal in those four fields share a preimage.
   */
  lemma PreimageInjective(r: DNSRecord, s: DNSRecord)
    requires ':' !in r.name && ':' !in s.name
    requires HashPreimage(r) == HashPreimage(s)
    ensures r.name == s.name && r.recordType == s.recordType && r.ttl == s.ttl && r.value == s.value
  {
    var dr, ds := NatToString(Discriminant(r.recordType)), NatToString(Discriminant(s.recordType));
    var tr, ts := IntToString(r.ttl), IntToString(s.ttl);
    assert ':' !in dr && ':' !in ds by {
      assert AllDigits(dr) && AllDigits(ds);
    }
    NoColonInInt(r.ttl);
    NoColonInInt(s.ttl);
    Regroup(r.name, dr, tr, r.value);
    Regroup(s.name, ds, ts, s.value);
    UnglueAtColon(r.name, dr + ":" + (tr + ":" + r.value), s.name, ds + ":" + (ts + ":" + s.value));
    UnglueAtColon(dr, tr + ":" + r.value, ds, ts + ":" + s.value);
    UnglueAtColon(tr, r.value, ts, s.value);
    NatToStringInjective(Discriminant(r.recordType), Discriminant(s.recordType));
    IntToStringInjective(r.ttl, s.ttl);
  }

  /**
   * A ':' in the name lets two different records share a preimage, hence a hash: the name
   * `n:d:t` with value `v` and the name `n` with value `d:t:v`.
   */
  lemma ColonInNameCollides(digest: string -> string, n: string, t: DNSRecordType, ttl: i32, v: string,
                            now: int)
    ensures var d := NatToString(Discriminant(t)) + ":" + IntToString(ttl);
            var r := NewRecord(n + ":" + d, t, ttl, v, now, "1");
            var s := NewRecord(n, t, ttl, d + ":" + v, now, "2");
            r.name != s.name && ContentHash(digest, r) == ContentHash(digest, s)
  {
    var disc, t' := NatToString(Discriminant(t)), IntToString(ttl);
    var d := disc + ":" + t';
    var r := NewRecord(n + ":" + d, t, ttl, v, now, "1");
    var s := NewRecord(n, t, ttl, d + ":" + v, now, "2");
    assert HashPreimage(r) == n + ":" + disc + ":" + t' + ":" + disc + ":" + t' + ":" + v;
    assert HashPreimage(s) == n + ":" + disc + ":" + t' + ":" + disc + ":" + t' + ":" + v;
    assert |r.name| > |s.name|;
  }
}
