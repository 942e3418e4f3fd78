# indieweb2-bastion core, modelled in Dafny

This project models the logic at the heart of the bastion's three Rust components and
proves properties of it.

- **oDNS common layer and resolver CLI.** DNS-over-TLS length framing (section 3.3 of
  RFC 7858) over a byte stream. The post-quantum query wire blob: a Kyber-1024 ciphertext, then
  a 24-byte nonce, then an XChaCha20-Poly1305 ciphertext. The hybrid Ed448 + Dilithium5
  signatures with their fixed-length encodings. The resolver's `--rotate` duration parser.
- **Webmention ingress service.** The token-bucket rate limiter with burst cooldowns and
  clean-up. The request validator (Content-Type, source/target checks, self-ping blocking by
  registrable domain). The configuration defaults. The attack harness's metrics collector
  and data generators.
- **GraphQL DNS API.** The `PolicyEnforcer` proposal state machine (privileges, proposals,
  approvals, timelocks, execution). DNS record validation. Record creation and update.
  Reverse-DNS names. Record type codes (section 3.2.2 of RFC 1035). The content-hash preimage.

One Dafny module per source file:

| module | file |
|---|---|
| Framing | framing.dfy |
| KemCrypto | kem_crypto.dfy |
| HybridSignatures | signatures.dfy |
| ResolverCli | resolver_cli.dfy |
| RateLimit | rate_limit.dfy (value-level specification) |
| Limiter | limiter.dfy (the objects) |
| Validator | validator.dfy |
| WebmentionConfig | webmention_config.dfy |
| Metrics | metrics.dfy |
| Generators | generators.dfy |
| PolicyEnforcement | policy.dfy |
| Resolvers | resolvers.dfy |
| DnsModels | models.dfy |

Shared modules:

- **Wrappers:** `Option` and `Result`.
- **Bytes:** machine integer types and big-endian `u16`.
- **Decimal:** decimal rendering, and Rust's `str::parse` for unsigned integers, with its optional `+` and its error kinds.
- **Text:** trimming of Unicode white space as `str::trim` does, ASCII lowercasing, splitting and joining.

The code that changes state in place is modelled as classes with `modifies` clauses:

- the framing stream, `ByteStream`;
- the token bucket and rate limiter, `TokenBucket` and `RateLimiter`;
- the metrics collector, `AttackMetrics`;
- the policy enforcer, `PolicyEnforcer`.

Each method is proved to act as a value-level function on the old state, and the properties
are proved about those functions. Pure code is modelled as functions with lemmas.

The cryptographic primitives, URL parsing and IP-address parsing are not implemented in
Dafny. They are function-valued parameters:

- Kyber, HKDF-SHA3-512, XChaCha20-Poly1305, Ed448 and Dilithium5;
- `Url::parse`, `IpAddr` parsing and `normalize_source_url`;
- the BLAKE3 digest.

The facts the code relies on are explicit predicates that lemmas require, such as
`KemCrypto.Lawful`, `HybridSignatures.Lawful` and `Generators.IpSyntax`. Where a lemma needs
more of a parser than that, it states the parser's answer only for the inputs at hand
(`Generators.MalformedSourceRejected`, `Generators.SelfPingPairBlocked`). The security
hypotheses are shown to be consistent by toy instances: `KemCrypto.ToyPrimitivesLawfulAndIdeal`,
`KemCrypto.WrongKeyRejectedSatisfiable` and `HybridSignatures.ToySchemesMeetHypotheses`.
Clocks, random coins, nonces and UUIDs are parameters.

Behaviour of the code that the proofs bring out:

- `write_framed` accepts an empty payload. It writes it as `[0, 0]`, which `read_framed`
  refuses (`Framing.EmptyPayloadAsymmetry`).
- The content-hash preimage `name:disc:ttl:value` has no escaping. A ':' in a record name lets
  two different records share a preimage, and so share a hash
  (`DnsModels.ColonInNameCollides`). For names without ':' the preimage determines the
  hashed fields (`DnsModels.PreimageInjective`).
- The hash uses the variant's declaration index (`as u16`), not its wire type code
  (`DnsModels.DiscriminantIsNotTypeCode`).
- `validate_dns_record` does not count the components of an A record. A single octet is accepted
  (`Resolvers.SingleOctetAccepted`).
- `parse_duration` strips only one suffix, so `5ms` is refused
  (`ResolverCli.MillisecondsRejected`).
- The IP-address pool of the generators wraps after 2^24 addresses
  (`Generators.GeneratedIpsWrap`).

## Model

| member | source | states |
|---|---|---|
| Framing.ByteStream.constructor | odns-rs/common/src/protocol.rs:16-52 | a stream delivering the given bytes, nothing read, nothing written |
| Framing.ByteStream.ReadExact | odns-rs/common/src/protocol.rs:18 | fills the whole buffer with the next bytes and advances the cursor by its length, or fails with UnexpectedEof when the stream ends early, having consumed the rest |
| Framing.ByteStream.ReadFramed | odns-rs/common/src/protocol.rs:16-31 | returns and consumes exactly what ReadFrame of the remaining bytes specifies: a big-endian u16 length, InvalidData for length 0, UnexpectedEof for a short stream, else the next len bytes |
| Framing.ReadFrameConsumesOneFrame | odns-rs/common/src/protocol.rs:16-31 | a successful read returns 1..65535 bytes and consumed exactly one frame of them, 2+len bytes, leaving the rest of the stream |
| Framing.ReadFrameConsumedBound | odns-rs/common/src/protocol.rs:17-30 | a read never consumes more than is available; a failed read consumed all input, or just the 2 header bytes for InvalidData |
| Framing.ZeroLengthRejected | odns-rs/common/src/protocol.rs:21-26 | a zero length header gives InvalidData after reading only the header, whatever follows |
| Framing.ByteStream.WriteAll | odns-rs/common/src/protocol.rs:47-48 | appends exactly the given bytes to the output |
| Framing.ByteStream.WriteFramed | odns-rs/common/src/protocol.rs:36-52 | more than MAX_PAYLOAD = 65535 bytes gives InvalidInput and writes nothing; otherwise appends [len>>8, len&0xFF] ++ payload |
| Framing.FrameRoundTrip | odns-rs/common/src/protocol.rs:58-67 | reading a written frame of 1..65535 bytes returns the payload and consumes 2+len bytes, leaving what follows |
| Framing.FramedRoundTrip | odns-rs/common/src/protocol.rs:58-67 | a payload written to one stream and read from a stream carrying those bytes comes back unchanged |
| Framing.EmptyPayloadAsymmetry | odns-rs/common/src/protocol.rs:21-26 | the empty payload is written as [0,0], and reading that is InvalidData |
| KemCrypto.PublicKeyFromBytes | odns-rs/common/src/crypto.rs:138-142 | accepted exactly at 1568 bytes, else InvalidPublicKey with expected and actual lengths |
| KemCrypto.SecretKeyFromBytes | odns-rs/common/src/crypto.rs:144-147 | accepted exactly at 3168 bytes, else InvalidSecretKey with expected and actual lengths |
| KemCrypto.DeriveSymmetricKeyTotal | odns-rs/common/src/crypto.rs:150-156 | HKDF with no salt and the fixed info string never fails for a 32-byte output and yields 32 bytes |
| KemCrypto.SplitWireRegions | odns-rs/common/src/crypto.rs:115-117 | a blob of at least 1608 bytes splits into 1568, 24 and at least 16 bytes that concatenate back to the blob |
| KemCrypto.WireLayoutRoundTrip | odns-rs/common/src/crypto.rs:94-97 | an assembled blob is 1568+24+aead bytes, at least OVERHEAD, and splitting it recovers the three regions |
| KemCrypto.EncryptQuery | odns-rs/common/src/crypto.rs:77-100 | the wire Vec built region by region is kem_ct ++ nonce ++ aead_ct, with key-derivation and sealing errors passed on |
| KemCrypto.TruncatedRejected | odns-rs/common/src/crypto.rs:107-112 | OVERHEAD is 1608, and every shorter blob gives MessageTooShort{min 1608, got len}, whatever its bytes |
| KemCrypto.EncryptedLength | odns-rs/common/src/crypto.rs:94-97 | a sealed query is exactly its length plus 1608 bytes |
| KemCrypto.EncryptDecryptRoundTrip | odns-rs/common/src/crypto.rs:162-172 | the secret key paired with the public key decrypts a sealed query to the query |
| KemCrypto.OnlyDecryptionFailed | odns-rs/common/src/crypto.rs:128-132 | for a blob of at least OVERHEAD bytes, the only possible error is DecryptionFailed |
| KemCrypto.WrongKeyRejected | odns-rs/common/src/crypto.rs:175-182 | under lawful and idealised primitives, which can hold together, an unpaired secret key gives DecryptionFailed |
| HybridSignatures.HybridVerifyBoth | odns-rs/common/src/signatures.rs:109-125 | hybrid verification succeeds iff both the Ed448 and the Dilithium5 signatures verify |
| HybridSignatures.HybridVerifyOrder | odns-rs/common/src/signatures.rs:115-122 | an Ed448 failure gives Ed448VerifyFailed whatever the Dilithium5 parts are; Ed448 success with Dilithium5 failure gives Dilithium5VerifyFailed |
| HybridSignatures.SignVerifyRoundTrip | odns-rs/common/src/signatures.rs:208-218 | a generated keypair's public key decodes, and its hybrid signature of a message verifies under it |
| HybridSignatures.HybridRejectsForgery | odns-rs/common/src/signatures.rs:219-239 | a signature fails for another message when either scheme separates the two messages, and for a keypair sharing neither sub-key when either scheme binds keys |
| HybridSignatures.DecodePublicKeyErrors | odns-rs/common/src/signatures.rs:138-155 | HYBRID_PK_LEN is 2649; a wrong length is InvalidPublicKey{2649, len}; an Ed448 error comes before a Dilithium one; success splits at 57 |
| HybridSignatures.PublicKeyRoundTrip | odns-rs/common/src/signatures.rs:241-252 | a well-formed public key encodes to 2649 bytes that decode back to it |
| HybridSignatures.DecodeSignatureErrors | odns-rs/common/src/signatures.rs:169-189 | HYBRID_SIG_LEN is 4741; a wrong length is InvalidSignature{4741, len}; an Ed448 error comes first; success splits at 114 |
| HybridSignatures.SignatureRoundTrip | odns-rs/common/src/signatures.rs:254-266 | a well-formed signature encodes to 4741 bytes that decode back to it |
| HybridSignatures.ReDecodedSignatureVerifies | odns-rs/common/src/signatures.rs:254-266 | a signature encoded and decoded again still verifies under the generating keypair |
| HybridSignatures.PublicKeyToBytes | odns-rs/common/src/signatures.rs:129-135 | the Vec filled by extend_from_slice is the Ed448 key followed by the Dilithium5 key |
| HybridSignatures.SignatureToBytes | odns-rs/common/src/signatures.rs:160-166 | the Vec is the Ed448 signature followed by the Dilithium5 signature |
| HybridSignatures.CopyFromSlice | odns-rs/common/src/signatures.rs:146-147 | copy_from_slice makes the fixed array equal to the slice |
| HybridSignatures.PublicKeyFromBytes | odns-rs/common/src/signatures.rs:138-155 | the array-copying decoder agrees with the public-key decoding specification |
| HybridSignatures.SignatureFromBytes | odns-rs/common/src/signatures.rs:169-189 | the array-copying decoder agrees with the signature decoding specification |
| ResolverCli.ParseDurationByUnit | odns-rs/resolver/src/main.rs:61-76 | the suffix chain picks the unit the trimmed text ends in (h, then m, then s, else none) and parses the rest |
| ResolverCli.ParseDurationCorrect | odns-rs/resolver/src/main.rs:61-76 | accepted iff the number part is a valid u64, the value being N*3600, N*60 or N; a rejection names the branch's unit word and the parse error; blank input is an empty duration |
| ResolverCli.ParseDurationRoundTrip | odns-rs/resolver/src/main.rs:62-74 | a printed count with an optional h/m/s unit, padded with white space, parses back to its length in seconds |
| ResolverCli.DefaultRotateIsOneDay | odns-rs/resolver/src/main.rs:51 | the default "24h" parses to 86400 seconds |
| ResolverCli.MillisecondsRejected | odns-rs/resolver/src/main.rs:63-71 | "5ms" is refused as invalid seconds, because only one suffix is stripped |
| ResolverCli.BareUnitRejected | odns-rs/resolver/src/main.rs:63-65 | "h" is refused as invalid hours for an empty number |
| WebmentionConfig.RateLimitConfig.CooldownDuration | services/webmention-rate-limiter/src/config.rs:164-167 | the cooldown in seconds is the configured milliseconds divided by 1000 |
| WebmentionConfig.RateLimitConfig.WindowDuration | services/webmention-rate-limiter/src/config.rs:169-172 | the window is a whole number of seconds, exactly window_secs |
| WebmentionConfig.DefaultRateLimits | services/webmention-rate-limiter/src/config.rs:89-107 | defaults: 60 rpm per IP, 10 per source, 30 s cooldown, multiplier 3.0, 60 s window |
| WebmentionConfig.DefaultValidation | services/webmention-rate-limiter/src/config.rs:109-115 | defaults: only application/x-www-form-urlencoded, both checks on |
| WebmentionConfig.DefaultServiceSettings | services/webmention-rate-limiter/src/config.rs:117-130 | default bind address 0.0.0.0:8080 and metrics enabled at /metrics |
| RateLimit.SaturatingToU32 | services/webmention-rate-limiter/src/limiter.rs:110-112 | the float-to-u32 cast is truncation: the whole part within the u32 range |
| RateLimit.NewBucket | services/webmention-rate-limiter/src/limiter.rs:76-87 | a new bucket is full, with capacity equal to the per-minute rate, refill rate rpm/60, and no timestamps |
| RateLimit.Refill | services/webmention-rate-limiter/src/limiter.rs:90-95 | adds elapsed x rate capped at the capacity, touches only tokens and last_refill, keeps 0 <= tokens <= max and never loses tokens |
| RateLimit.TryConsume | services/webmention-rate-limiter/src/limiter.rs:98-107 | succeeds iff at least one token after refill; success takes exactly one token and logs one timestamp; failure leaves only the refill |
| RateLimit.RemainingOf | services/webmention-rate-limiter/src/limiter.rs:110-112 | the whole number of tokens left |
| RateLimit.TimeUntilAvailable | services/webmention-rate-limiter/src/limiter.rs:115-122 | zero with a token available, else the positive wait after which refilling reaches exactly one token |
| RateLimit.RefillAfterWait | services/webmention-rate-limiter/src/limiter.rs:115-122 | refilling after the advertised wait yields exactly one token |
| RateLimit.RecentCorrect | services/webmention-rate-limiter/src/limiter.rs:127-129 | the retained timestamps are exactly those younger than 10 s |
| RateLimit.RecentAllYoung | services/webmention-rate-limiter/src/limiter.rs:127-129 | when all timestamps are young, retain keeps them all |
| RateLimit.BurstThreshold | services/webmention-rate-limiter/src/limiter.rs:131-137 | the threshold max(3, floor(max(rpm/6, 1) x multiplier)) is at least 3 |
| RateLimit.DefaultBurstThreshold | services/webmention-rate-limiter/src/limiter.rs:131-137 | with 60 rpm and multiplier 3 the threshold is 30 |
| RateLimit.DetectBurst | services/webmention-rate-limiter/src/limiter.rs:125-139 | drops old timestamps only, and reports a burst iff the young count exceeds the threshold |
| RateLimit.CheckIp | services/webmention-rate-limiter/src/limiter.rs:173-229 | keeps the state valid, leaves the source buckets alone and never answers SourceRateExceeded |
| RateLimit.CheckIpCooldown | services/webmention-rate-limiter/src/limiter.rs:176-184 | during a cooldown the answer is BurstCooldown with the time left, and nothing changes |
| RateLimit.CheckIpBurst | services/webmention-rate-limiter/src/limiter.rs:190-207 | a detected burst records a cooldown until now + cooldown, answers BurstCooldown and spends no token |
| RateLimit.CheckIpBucket | services/webmention-rate-limiter/src/limiter.rs:209-228 | without cooldown or burst, allowed iff a whole token is available after refill; the cooldowns are unchanged and the reported remaining is the whole tokens left |
| RateLimit.CheckIpRefused | services/webmention-rate-limiter/src/limiter.rs:115-122 | a bucket refusal is IpRateExceeded with a positive retry time after which refilling yields one token |
| RateLimit.CheckIpFrame | services/webmention-rate-limiter/src/limiter.rs:173-229 | another IP's bucket and cooldown are unchanged by check_ip |
| RateLimit.CooldownHolds | services/webmention-rate-limiter/src/limiter.rs:176-207 | after a burst every check before the cooldown ends is refused with the remaining time |
| RateLimit.SpentAtConsume | services/webmention-rate-limiter/src/limiter.rs:98-107 | at a single instant a bucket grants while tokens remain and refuses once they are spent |
| RateLimit.SpentAtNoBurst | services/webmention-rate-limiter/src/limiter.rs:125-139 | a capacity no larger than the burst threshold never triggers a burst at one instant |
| RateLimit.GrantedThenRefusedCons | services/webmention-rate-limiter/src/limiter.rs:325-352 | a granted answer before a granted-then-refused run is such a run |
| RateLimit.CheckIpRepeated | services/webmention-rate-limiter/src/limiter.rs:325-352 | n repeated checks give n answers and a valid state |
| RateLimit.CheckIpSpentStep | services/webmention-rate-limiter/src/limiter.rs:173-229 | one check on a bucket spent at now grants while tokens remain and logs one more timestamp |
| RateLimit.CheckIpRepeatedFrom | services/webmention-rate-limiter/src/limiter.rs:325-352 | from a bucket with used tokens spent at now, the next max_rate_rpm+1-used checks grant and then refuse the last with IpRateExceeded |
| RateLimit.IpCapacityExact | services/webmention-rate-limiter/src/limiter.rs:325-352 | with a burst threshold at least the capacity, a fresh limiter grants exactly max_rate_rpm requests from one IP at one instant and refuses the next with IpRateExceeded |
| RateLimit.CheckSource | services/webmention-rate-limiter/src/limiter.rs:232-254 | keeps the state valid, leaves IP buckets and cooldowns alone, and a refusal is SourceRateExceeded |
| RateLimit.CheckSourceRepeated | services/webmention-rate-limiter/src/limiter.rs:353-377 | n repeated source checks give n answers and a valid state |
| RateLimit.CheckSourceSpentStep | services/webmention-rate-limiter/src/limiter.rs:232-254 | one source check on a spent bucket grants while tokens remain |
| RateLimit.CheckSourceRepeatedFrom | services/webmention-rate-limiter/src/limiter.rs:353-377 | the same for a source bucket, refusing the last with SourceRateExceeded |
| RateLimit.SourceCapacityExact | services/webmention-rate-limiter/src/limiter.rs:353-377 | a fresh limiter grants exactly max_rate_per_source requests for one source and refuses the next with SourceRateExceeded |
| RateLimit.CheckSourceFrame | services/webmention-rate-limiter/tests/integration_test.rs:83-106 | source buckets are independent: a check changes only its own normalised URL's bucket |
| RateLimit.Check | services/webmention-rate-limiter/src/limiter.rs:257-273 | check keeps the limiter state valid |
| RateLimit.CheckOrder | services/webmention-rate-limiter/src/limiter.rs:257-273 | a limited IP is returned without touching the source buckets; otherwise a limited source wins, else the IP's result |
| RateLimit.CleanupCorrect | services/webmention-rate-limiter/src/limiter.rs:276-301 | exactly the buckets refilled within 300 s and the cooldowns still running are kept, unchanged, and the state stays valid |
| Limiter.TokenBucket.constructor | services/webmention-rate-limiter/src/limiter.rs:76-87 | the new object's state is NewBucket |
| Limiter.TokenBucket.FromState | services/webmention-rate-limiter/src/limiter.rs:178-186 | an object holding the bucket from the map |
| Limiter.TokenBucket.Refill | services/webmention-rate-limiter/src/limiter.rs:90-95 | the fields become Refill of the old state |
| Limiter.TokenBucket.TryConsume | services/webmention-rate-limiter/src/limiter.rs:98-107 | result and fields are TryConsume of the old state |
| Limiter.TokenBucket.DetectBurst | services/webmention-rate-limiter/src/limiter.rs:125-139 | result and fields are DetectBurst of the old state |
| Limiter.RateLimiter.constructor | services/webmention-rate-limiter/src/limiter.rs:163-170 | three empty maps |
| Limiter.RateLimiter.CheckIp | services/webmention-rate-limiter/src/limiter.rs:173-229 | result and maps are CheckIp of the old maps, validity kept |
| Limiter.RateLimiter.CheckSource | services/webmention-rate-limiter/src/limiter.rs:232-254 | result and maps are CheckSource of the old maps |
| Limiter.RateLimiter.Check | services/webmention-rate-limiter/src/limiter.rs:257-273 | result and maps are Check of the old maps |
| Limiter.RateLimiter.Cleanup | services/webmention-rate-limiter/src/limiter.rs:276-301 | the maps are Cleanup of the old maps |
| Validator.ValidationResult.Error | services/webmention-rate-limiter/src/validator.rs:50-55 | no error for Valid, the error for Invalid |
| Validator.MediaType | services/webmention-rate-limiter/src/validator.rs:70-86 | the normalised media type contains no ';' and is already lower case |
| Validator.MediaTypeIgnoresParameters | services/webmention-rate-limiter/src/validator.rs:70-86 | parameters after the first ';' do not change the media type |
| Validator.MediaTypeOfPadded | services/webmention-rate-limiter/src/validator.rs:260-271 | white space around the media type is dropped and its letters lower-cased |
| Validator.LowerAll | services/webmention-rate-limiter/src/validator.rs:80-84 | the configured types lower-cased, one for one |
| Validator.InLowerAll | services/webmention-rate-limiter/src/validator.rs:80-86 | membership in the lower-cased list is equality with some lower-cased configured type |
| Validator.ValidateContentType | services/webmention-rate-limiter/src/validator.rs:70-96 | Valid iff a header is given whose media type equals some lower-cased configured type; else InvalidContentType with the configured list and the normalised value or None |
| Validator.DefaultContentType | services/webmention-rate-limiter/src/validator.rs:260-279 | under the default configuration a header is accepted iff its normalised media type is application/x-www-form-urlencoded |
| Validator.ValidateSourceTarget | services/webmention-rate-limiter/src/validator.rs:99-189 | Valid whenever the check is off; otherwise Valid implies both present, both parse, both http(s) with a host |
| Validator.ValidateSourceTargetCases | services/webmention-rate-limiter/src/validator.rs:108-185 | each error iff its check is the first to fail, in order: source missing, target missing, source/target unparsable, source/target not web URLs, equal registrable domains when blocking self-pings |
| Validator.ValidPairIsCrossSite | services/webmention-rate-limiter/src/validator.rs:166-185 | with self-ping blocking on, a valid pair has different registrable domains |
| Validator.Validate | services/webmention-rate-limiter/src/validator.rs:192-206 | a Content-Type failure is returned without looking at the parameters; otherwise the source/target result |
| Validator.JoinedTailIsLabelSuffix | services/webmention-rate-limiter/src/validator.rs:221-239 | the labels from i on, joined, are a label suffix of the host |
| Validator.RegistrableDomain | services/webmention-rate-limiter/src/validator.rs:212-221 | an IP literal is returned lower-cased and unchanged |
| Validator.LabelDomain | services/webmention-rate-limiter/src/validator.rs:222-241 | a host of at most two labels is kept whole |
| Validator.LabelsDomain | services/webmention-rate-limiter/src/validator.rs:222-241 | the same on the host's split labels: at most two labels keep the host |
| Validator.LabelDomainIsLabelSuffix | services/webmention-rate-limiter/src/validator.rs:222-241 | the heuristic keeps a whole number of trailing labels |
| Validator.LabelDomainThreeLabels | services/webmention-rate-limiter/src/validator.rs:244-250 | a three-label host x.y.z gives x.y.z when y.z is a listed two-part suffix, else y.z |
| Validator.SplitThreeLabels | services/webmention-rate-limiter/src/validator.rs:221 | three dot-free labels joined by dots split back into them |
| Validator.RegistrableDomainIsLabelSuffix | services/webmention-rate-limiter/src/validator.rs:212-241 | the result is the lower-cased host or a whole number of its trailing labels |
| Validator.LabelsDomainCons | services/webmention-rate-limiter/src/validator.rs:222-241 | one more leading label changes nothing unless the host is two labels forming a listed suffix |
| Validator.LabelDomainOfSubdomain | services/webmention-rate-limiter/src/validator.rs:222-241 | the heuristic on a subdomain gives the parent's answer unless the parent is a bare two-part suffix |
| Validator.SubdomainKeepsRegistrableDomain | services/webmention-rate-limiter/src/validator.rs:323-330 | a further subdomain label keeps the registrable domain, except under a bare two-part suffix |
| Metrics.AllOutcomesListed | services/webmention-rate-limiter/tests/harness/metrics.rs:28-37 | every outcome is one of the eight variants |
| Metrics.Bump | services/webmention-rate-limiter/tests/harness/metrics.rs:57-61 | the entry goes up by one from zero or its old count and no other key changes |
| Metrics.TotalBump | services/webmention-rate-limiter/tests/harness/metrics.rs:56-68 | recording one outcome adds exactly one to the total |
| Metrics.TotalOfEight | services/webmention-rate-limiter/tests/harness/metrics.rs:136-155 | the total is the sum of the eight per-variant counts |
| Metrics.CountAtMostTotal | services/webmention-rate-limiter/tests/harness/metrics.rs:66-73 | one outcome's count never exceeds the total |
| Metrics.KeysGrowByAtMostOne | services/webmention-rate-limiter/tests/harness/metrics.rs:58-61 | counting a key adds at most one distinct key |
| Metrics.Insert | services/webmention-rate-limiter/tests/harness/metrics.rs:105-123 | inserting into a sorted sequence keeps it sorted and adds exactly that element |
| Metrics.SortSeq | services/webmention-rate-limiter/tests/harness/metrics.rs:105-123 | the sorted clone is sorted and a permutation of the samples |
| Metrics.SortedPermutationUnique | services/webmention-rate-limiter/tests/harness/metrics.rs:105-123 | two sorted permutations of the same samples are equal, so the sort used does not matter |
| Metrics.P99Index | services/webmention-rate-limiter/tests/harness/metrics.rs:115-123 | the index is below len and at most floor(len x 99/100), and equals that for len >= 100 |
| Metrics.AttackMetrics.constructor | services/webmention-rate-limiter/tests/harness/metrics.rs:41-43 | nothing recorded and no times set |
| Metrics.AttackMetrics.Start | services/webmention-rate-limiter/tests/harness/metrics.rs:46-48 | the start time is now |
| Metrics.AttackMetrics.Finish | services/webmention-rate-limiter/tests/harness/metrics.rs:51-53 | the end time is now |
| Metrics.AttackMetrics.Record | services/webmention-rate-limiter/tests/harness/metrics.rs:56-63 | one more for the outcome and the IP, one more for the source only when given, one more latency sample; the total rises by one |
| Metrics.AttackMetrics.TotalRequests | services/webmention-rate-limiter/tests/harness/metrics.rs:66-68 | the sum of the outcome counts equals the number of latency samples |
| Metrics.AttackMetrics.Count | services/webmention-rate-limiter/tests/harness/metrics.rs:71-73 | zero for an outcome never recorded, never above the total |
| Metrics.AttackMetrics.Duration | services/webmention-rate-limiter/tests/harness/metrics.rs:76-82 | non-negative, zero before the start |
| Metrics.AttackMetrics.RequestsPerSecond | services/webmention-rate-limiter/tests/harness/metrics.rs:85-92 | non-negative, zero for a zero duration |
| Metrics.AttackMetrics.BlockRate | services/webmention-rate-limiter/tests/harness/metrics.rs:95-102 | between 0 and 1, zero when nothing was recorded, one when nothing was allowed |
| Metrics.AttackMetrics.MedianLatencyUs | services/webmention-rate-limiter/tests/harness/metrics.rs:105-112 | zero when empty, else a recorded sample that is element len/2 of every sorted permutation of the samples |
| Metrics.AttackMetrics.P99LatencyUs | services/webmention-rate-limiter/tests/harness/metrics.rs:115-123 | zero when empty, else a recorded sample at the p99 index of every sorted permutation |
| Metrics.AttackMetrics.UniqueIps | services/webmention-rate-limiter/tests/harness/metrics.rs:126-128 | the distinct addresses, never more than the requests |
| Metrics.AttackMetrics.UniqueSources | services/webmention-rate-limiter/tests/harness/metrics.rs:131-133 | the distinct sources, never more than the requests |
| Metrics.AttackMetrics.Report | services/webmention-rate-limiter/tests/harness/metrics.rs:136-155 | allowed + ip-limited + source-limited + burst-blocked + validation-failed equals the total, and the block rate is block_rate |
| Metrics.CollectionScenario | services/webmention-rate-limiter/tests/harness/metrics.rs:208-224 | three records from one IP with three sources give total 3, 2 allowed, 1 IP-limited, 1 IP, 3 sources |
| Generators.GenerateIps | services/webmention-rate-limiter/tests/harness/generators.rs:9-19 | count addresses, all IPv4 in 10.0.0.0/8 |
| Generators.PoolIndexOfIp | services/webmention-rate-limiter/tests/harness/generators.rs:11-17 | within 2^24 the index is recovered from the three low octets |
| Generators.GeneratedIpsDistinct | services/webmention-rate-limiter/tests/harness/generators.rs:104-111 | the addresses are pairwise distinct for count <= 2^24 |
| Generators.GeneratedIpsWrap | services/webmention-rate-limiter/tests/harness/generators.rs:11-17 | past 2^24 the pool repeats: index 2^24 equals index 0 |
| Generators.SourceUrl | services/webmention-rate-limiter/tests/harness/generators.rs:22-26 | an https URL |
| Generators.GenerateSources | services/webmention-rate-limiter/tests/harness/generators.rs:22-26 | count source URLs, element i being the i-th source URL, all https |
| Generators.SourceUrlInjective | services/webmention-rate-limiter/tests/harness/generators.rs:113-118 | different indices give different source URLs |
| Generators.GeneratedSourcesDistinct | services/webmention-rate-limiter/tests/harness/generators.rs:22-26 | the generated source URLs are pairwise distinct |
| Generators.TargetUrl | services/webmention-rate-limiter/tests/harness/generators.rs:29-33 | an https URL |
| Generators.GenerateTargets | services/webmention-rate-limiter/tests/harness/generators.rs:29-33 | count target URLs, element i being the i-th target URL on the domain, all https |
| Generators.TargetUrlInjective | services/webmention-rate-limiter/tests/harness/generators.rs:29-33 | different indices give different target URLs |
| Generators.GeneratedTargetsDistinct | services/webmention-rate-limiter/tests/harness/generators.rs:29-33 | the generated target URLs on one domain are pairwise distinct |
| Generators.GenerateSelfPingPairs | services/webmention-rate-limiter/tests/harness/generators.rs:36-46 | count pairs, the i-th being https://blog.site-{i}.example.com/post and https://www.site-{i}.example.com/article |
| Generators.SelfPingPairSharesDomain | services/webmention-rate-limiter/tests/harness/generators.rs:36-46 | both hosts of a pair have registrable domain example.com |
| Generators.SelfPingPairBlocked | services/webmention-rate-limiter/tests/harness/generators.rs:36-46 | the default validator refuses every pair with SelfPingBlocked(example.com) |
| Generators.IsValidContentType | services/webmention-rate-limiter/tests/harness/generators.rs:69-77 | true only for a given header; with OracleAgreesWithValidator and Validator.DefaultContentType, true iff the normalised media type is the form encoding |
| Generators.OracleAgreesWithValidator | services/webmention-rate-limiter/tests/security_test.rs:293-310 | the oracle equals validate_content_type under the default configuration |
| Generators.OracleAgreesWithValidate | services/webmention-rate-limiter/src/validator.rs:192-206 | with acceptable source and target, the whole `validate` call passes iff the content-type oracle of the test harness says so |
| Generators.OracleRejectsMissing | services/webmention-rate-limiter/tests/harness/generators.rs:69-77 | None and blank values are refused |
| Generators.MalformedSourceRejected | services/webmention-rate-limiter/tests/harness/generators.rs:86-98 | each of the nine malformed URLs is refused as a source by the default validator, given only that the parser yields no web URL for the six texts without a web scheme and none for "https://" |
| Generators.UnusableSourceRejected | services/webmention-rate-limiter/src/validator.rs:108-185 | when source and target are required, a blank source or one that does not parse as a web URL is refused, whatever the target |
| PolicyEnforcement.FindMutation | graphql-dns-api/src/policy.rs:220-223 | None iff no mutation policy has the name; else the first one that has it |
| PolicyEnforcement.CheckRateLimit | graphql-dns-api/src/policy.rs:351-353 | allowed iff the window count is at most max_rate_rpm |
| PolicyEnforcement.InitialStatus | graphql-dns-api/src/policy.rs:254-260 | TimelockActive iff a timelock; Approved iff none and at most one approval; Pending otherwise |
| PolicyEnforcement.Propose | graphql-dns-api/src/policy.rs:226-266 | LacksPrivilege first, then UnknownMutation, leaving the map unchanged; on success inserts under the id a proposal with approvals [proposer], required approvals, timelock now+3600*hours and the initial status |
| PolicyEnforcement.StatusAfterApproval | graphql-dns-api/src/policy.rs:290-294 | only Pending changes, to Approved iff approvals >= required |
| PolicyEnforcement.Approve | graphql-dns-api/src/policy.rs:269-297 | ProposalNotFound, LacksPrivilege, AlreadyApproved in that order, map unchanged; success iff none applies, appends the approver once and applies the status rule, nothing else changed |
| PolicyEnforcement.CanExecute | graphql-dns-api/src/policy.rs:300-325 | error iff the id is unknown; otherwise true iff Approved or TimelockActive, enough approvals and now >= timelock_until |
| PolicyEnforcement.Execute | graphql-dns-api/src/policy.rs:328-338 | succeeds iff can_execute is true, only setting the status to Executed; otherwise the map is unchanged, with NotExecutable or ProposalNotFound |
| PolicyEnforcement.ProposeKeepsWellFormed | graphql-dns-api/src/policy.rs:240-264 | proposals stay filed under their id, led by their proposer, without repeated approvers |
| PolicyEnforcement.AppendKeepsDistinct | graphql-dns-api/src/policy.rs:282-287 | appending an approver not yet listed keeps the list free of repeats |
| PolicyEnforcement.ApproveKeepsWellFormed | graphql-dns-api/src/policy.rs:274-297 | approval keeps every approvals list free of duplicates |
| PolicyEnforcement.ExecuteKeepsWellFormed | graphql-dns-api/src/policy.rs:328-338 | execution keeps the proposals well formed |
| PolicyEnforcement.NoSecondExecution | graphql-dns-api/src/policy.rs:300-338 | an executed proposal can never be executed again |
| PolicyEnforcement.TimelockHolds | graphql-dns-api/src/policy.rs:240-264 | a fresh proposal cannot be executed before its timelock ends |
| PolicyEnforcement.ImmediateWhenUnguarded | graphql-dns-api/src/policy.rs:254-260 | with no timelock and at most one approval required, a fresh proposal is executable at once |
| PolicyEnforcement.SecondApprovalApproves | graphql-dns-api/src/policy.rs:290-294 | a pending proposal needing two approvals is approved by a second privileged approver |
| PolicyEnforcement.PolicyEnforcer.constructor | graphql-dns-api/src/policy.rs:170-173 | the given policy and no proposals |
| PolicyEnforcement.PolicyEnforcer.HasPrivilege | graphql-dns-api/src/policy.rs:209-217 | the loop with early return answers true iff some role lists the identity among its members and the privilege among its privileges |
| PolicyEnforcement.PolicyEnforcer.ProposeMutation | graphql-dns-api/src/policy.rs:226-266 | result and map are Propose of the old map |
| PolicyEnforcement.PolicyEnforcer.ApproveProposal | graphql-dns-api/src/policy.rs:269-297 | result and map are Approve of the old map |
| PolicyEnforcement.PolicyEnforcer.CanExecuteProposal | graphql-dns-api/src/policy.rs:300-325 | the answer is CanExecute of the map |
| PolicyEnforcement.PolicyEnforcer.ExecuteProposal | graphql-dns-api/src/policy.rs:328-338 | result and map are Execute of the old map |
| PolicyEnforcement.PrivilegeScenario | graphql-dns-api/src/policy.rs:380-409 | the maintainer alice holds mutate_dns and bob does not |
| Resolvers.IsOctetCorrect | graphql-dns-api/src/resolvers.rs:378 | an octet is a non-empty digit string, after at most one '+', of value at most 255 |
| Resolvers.ValidateRecord | graphql-dns-api/src/resolvers.rs:363-397 | EmptyName first, then NegativeTtl (0 accepted); Ok iff the value fits its type (A: every part a u8; AAAA: has ':'; others non-empty), else the type's value error |
| Resolvers.DottedQuadAccepted | graphql-dns-api/src/resolvers.rs:376-381 | every dotted quad of four bytes is a valid A value |
| Resolvers.SingleOctetAccepted | graphql-dns-api/src/resolvers.rs:376-381 | a single octet is accepted as an A value, since parts are not counted |
| Resolvers.LargeOctetRejected | graphql-dns-api/src/resolvers.rs:376-381 | a component above 255 gives InvalidIpv4 |
| Resolvers.EmptyIpv4Rejected | graphql-dns-api/src/resolvers.rs:376-381 | an empty A value gives InvalidIpv4 |
| Resolvers.CreateRecord | graphql-dns-api/src/resolvers.rs:153-188 | fails exactly with the validation error; else copies name, type, TTL and value, dnssec is the input's or false, no rrsig or hash, both timestamps now |
| Resolvers.UpdateRecord | graphql-dns-api/src/resolvers.rs:191-218 | fails exactly with the validation error; else copies the input fields, overwrites dnssec only when given, keeps id, creation time, rrsig and hash, and sets updated_at |
| Resolvers.UpdateHashMatchesCreate | graphql-dns-api/src/resolvers.rs:175-214 | an updated record hashes as a record freshly created from the same input |
| Resolvers.Reversed | graphql-dns-api/src/resolvers.rs:407-413 | same length, element i is element len-1-i |
| Resolvers.ReversedTwice | graphql-dns-api/src/resolvers.rs:407-413 | reversal is an involution |
| Resolvers.JoinFour | graphql-dns-api/src/resolvers.rs:407-413 | joining four parts is p0.p1.p2.p3 |
| Resolvers.ReverseName | graphql-dns-api/src/resolvers.rs:400-413 | with ':', every ':' becomes '.' under .ip6.arpa; without, Ok iff exactly four dot parts, reversed under .in-addr.arpa |
| Resolvers.ReverseNameInvolution | graphql-dns-api/src/resolvers.rs:405-412 | the reverse name of the reversed address is the original address under .in-addr.arpa |
| DnsModels.TypeCode | graphql-dns-api/src/models.rs:38-52 | every wire code is positive |
| DnsModels.FromTypeCode | graphql-dns-api/src/models.rs:38-52 | a found type has the given code |
| DnsModels.FromTypeCodeOfTypeCode | graphql-dns-api/src/models.rs:38-52 | each type's code leads back to the type |
| DnsModels.TypeCodeInjective | graphql-dns-api/src/models.rs:38-52 | no two types share a wire code |
| DnsModels.Discriminant | graphql-dns-api/src/models.rs:11-34 | the declaration index: the type's position in the declaration order |
| DnsModels.DiscriminantIsNotTypeCode | graphql-dns-api/src/models.rs:100-107 | the hashed discriminant differs from the wire code for every type |
| DnsModels.NewRecord | graphql-dns-api/src/models.rs:83-97 | copies name, type, TTL and value; dnssec false; no rrsig or hash; created_at = updated_at = now |
| DnsModels.ContentHashIgnoresMetadata | graphql-dns-api/tests/integration_test.rs:102-119 | records equal in name, type, TTL and value hash alike whatever their id or timestamps |
| DnsModels.PreimageDeterminesValue | graphql-dns-api/tests/integration_test.rs:121-129 | with name, type and TTL fixed, different values give different preimages |
| DnsModels.PreimageInjective | graphql-dns-api/src/models.rs:100-107 | for names without ':', equal preimages mean equal name, type, TTL and value |
| DnsModels.ColonInNameCollides | graphql-dns-api/src/models.rs:100-107 | a ':' in a name lets two records with different names share a preimage and hence a hash |

## Left out

- Framing.ByteStream: the in-memory stream cannot fail. Transport errors from `read_exact` other than end of stream, errors from `write_all`, and `flush` with its errors are not modelled; the source passes them on with `?`.
- Network, TLS and async plumbing are not modelled: the proxy and resolver connection handlers, the HTTP handlers and the servers. The Tokio mutexes around the limiter's maps are left out too, so each limiter call is one atomic step.
- The legacy Go proxy and resolver are not part of this model.
- Key rotation (`key_rotation_loop`, the `RwLock` key cell), key generation on disk and `load_secret_key` are not modelled.
- The cryptographic primitives are left uninterpreted: Kyber-1024, HKDF-SHA3-512, XChaCha20-Poly1305, Ed448, Dilithium5 and BLAKE3. Their behaviour is stated only as the hypotheses `KemCrypto.Lawful`, `KemCrypto.Ideal`, `HybridSignatures.Lawful`, `HybridSignatures.Ed448KeyBound`, `Dil5KeyBound`, `Ed448SeparatesMessages` and `Dil5SeparatesMessages`. Toy instances show that each group of hypotheses can hold together. Randomness (key-generation coins, nonces) is a parameter.
- KemCrypto.WrongKeyRejected: the security of Kyber, HKDF and XChaCha20-Poly1305 is computational. `KemCrypto.Ideal` states it as exact separation: a mismatched secret key yields another shared secret, HKDF maps different 32-byte secrets to different keys, and a ciphertext never opens under another key. Real primitives meet these only with overwhelming probability.
- HybridSignatures.HybridRejectsForgery: message unforgeability is computational, and fixed-length signatures cannot separate every pair of messages. It is therefore assumed for the message pair at hand (`Ed448SeparatesMessages`, `Dil5SeparatesMessages`). Key binding is assumed for all keys (`Ed448KeyBound`, `Dil5KeyBound`).
- KemCrypto.EncryptQuery: the 24 random nonce bytes are an argument instead of an array filled in place. `derive_symmetric_key` fills its `okm` array through the HKDF library, so it is modelled as a function on values.
- KemCrypto.PublicKeyFromBytes: the library's length error is reported as its two lengths rather than its message text.
- The Display and formatting texts of errors and reports are not modelled (`MetricsReport` display, `RateLimitResult` display). `ResolverCli` keeps the message of `parse_duration` as its unit word and the integer error kind.
- ResolverCli.ParseDurationCorrect: durations are unbounded naturals. The u64 overflow of `h * 3600` and `m * 60` is not modelled: it panics in debug builds and wraps in release builds.
- Floating point is modelled as exact reals: tokens, refill rate, the burst multiplier, `block_rate`, `requests_per_second` and durations. `Instant` readings are real seconds passed in as `now`, and `duration_since` saturates at zero.
- Metrics.P99Index: the index is computed from the exact fraction 0.99, not through `f64`.
- Limiter.RateLimiter.constructor: requires positive rates. With a zero rate the first refusal divides by a zero refill rate, and `Duration::from_secs_f64` then panics.
- `normalize_source_url`, `Url::parse` and `IpAddr` parsing are parameters. `Generators.SelfPingPairBlocked` and `Generators.MalformedSourceRejected` state what they assume of them.
- Lowercasing is the ASCII form: Rust's `to_lowercase` also maps non-ASCII letters, which the model leaves unchanged. Trimming is `str::trim` itself, over Unicode White_Space.
- Clocks and identifiers are parameters: `Utc::now`, `SystemTime`, `Instant::now` and the UUIDs of records and proposals.
- Only what the policy code reads is modelled: `from_nickel_file` (a subprocess), Nickel loading, capabilities, routes and consent bindings are not. The mutation payload is kept as an opaque string instead of JSON, and the GraphQL/JSON scalar conversion is left out.
- `get_proposals` and `get_proposal` are plain reads of the `proposals` map and have no members of their own. The ordering of `get_proposals` (HashMap order) is unspecified.
- The `Rejected` proposal status is declared but never produced by the source, so no operation reaches it.
- PolicyEnforcement.Propose: `timelock_until` is an unbounded natural. The u64 overflow of `now + hours * 3600` is not modelled.
- The DNS API's database, authentication, consent client and blockchain anchoring are not modelled. Resolvers.CreateRecord and Resolvers.UpdateRecord model only what happens to the record after authentication and consent succeed, and before it is stored.
- `dnssec.rs` and `sphincs_fallback.rs` are not part of this model: their signing and verification are library calls or constant placeholders.
- The attack scenarios of the harness (`attacks.rs`) and the random choices of the security tests are not modelled.
- Limiter.RateLimiter: the maps hold buckets by value, as Rust's `HashMap` owns its `TokenBucket`s. Each check loads the bucket into a `TokenBucket` object and writes its state back.
