# dsddns updater core in Dafny

This project models the `updater` package of dsddns, a dynamic DNS client.
Each configured record (an *updater*) periodically looks up the host's
web-facing address for its record type (A or AAAA) and network interface.
It turns that address into a record value by clearing the low `ip_mask_bits`
bits and adding an offset, which may be EUI-64 SLAAC bits derived from a MAC.
It submits the value to a DNS provider when the value changed and no cooldown
is running; a failed submission starts a cooldown of the length the provider
asks for.

The lookup is shared by all updaters of one configuration. It caches one
address per (record type, interface name) key and rediscovers behind a
staleness gate. Rediscovery asks three public "what is my IP" services in
shuffled order, through every qualifying source address of the interface
(or the default route when there is none). The first answer without an error
wins.

The No-IP provider's reply table is modelled as well: it maps a response
body to a retry delay and an error.

Files and modules:

- `net.dfy` (`Net`): bytes, addresses as raw byte sequences, record types,
  time in nanoseconds, HTTP and provider replies, and `net.IP.Equal` (`IPEqual`).
- `address_math.dfy` (`AddressMath`): `SlaacBits`, `MaskIP` (with Go's
  `net.CIDRMask` and `IP.Mask`), and `AddIP` as an array loop.
  - `AddIP` is proved equal to `Sum`, a digit-wise specification, whose
    numeric value is the operands' sum modulo 256^width.
- `iplookup.dfy` (`Lookup`): source-address filtering, dial contexts, the
  `retrieve` success contract, the shuffle, and the nested search loops.
  - The `IPLookup` class holds the `cache` and `retrieved` maps.
  - `WebFacingIP` is proved against the function `Resolve`.
- `reconciler.dfy` (`Reconciler`): record-type names and configuration
  validation, the per-record state machine `Reconcile`, and the classes
  `Updater` and `Updaters`.
  - The class methods are proved against `Tick`, `Show`, `Run` and `Preview`.
- `noip.dfy` (`NoIP`): `noIPError`, `Submit`'s status mapping,
  `SupportsRecord`, and the endpoint override. Lemmas connect the table to
  the reconciler's cooldown.

The outside world is a parameter:

- `Network` holds `InterfaceByName`/`Addrs`, each HTTP exchange as a
  function of (URL, dial), `strings.TrimSpace`, `net.ParseIP` and
  `IsGlobalUnicast`.
- The draws of `rand.Shuffle` are a function from step to draw.
- A provider's `Submit` is a function from (record type, address) to
  (retry delay, error).
- `time.Now()` is the pair `now`, read before the comparison, and `later`,
  read when the cooldown is set.

Behaviour the code has and the model keeps:

- Nothing writes `retrieved`, so the freshness gate is open after the first
  ten minutes of Go's zero time (`NeverRetrievedAlwaysStale`).
- An unparsable body from a service is a success that caches nil
  (`RetrieveUnparsable`).
- A record type other than A or AAAA asks no service and yields nil with no
  error.
- A successful submission does not clear the cooldown (`ReconcileAfterSubmit`).
- Addresses are compared with `net.IP.Equal`, so 1.2.3.4 equals ::ffff:1.2.3.4
  (`IPEqualExamples`, `ReconcileComparesAddresses`).
- `net.ParseIP` returns nil or 16 bytes, so a looked-up IPv4 address and an
  IPv4 `ip_offset` are both in their ::ffff: form (`ParsedIP`,
  `DiscoverParsed`, `OffsetOf`). The record value is computed on those forms
  exactly as the code computes it; "## Findings" shows what that does to an
  A record with an IPv4 offset.
- No-IP's `"911"` case is empty and does not fall through: a zero delay and
  an empty error (`NoIPError911`, `NoIP911RetriesNextTime`).

## Model

| member | source | states |
|---|---|---|
| Net.IPEqual | updater/updater.go:112 | net.IP.Equal: addresses of one length are equal when their bytes are; a 4-byte and a 16-byte address are equal exactly when the 16-byte one is ::ffff: followed by the four bytes; any other pair is unequal. |
| Net.IPEqualIsEquivalence | updater/updater.go:112 | The address equality used to decide whether to submit is reflexive, symmetric and transitive across the 4-byte and 16-byte forms of IPv4 addresses. |
| Net.IPEqualExamples | updater/updater.go:112 | 1.2.3.4 equals ::ffff:1.2.3.4 but not ::1.2.3.4, and nil equals only nil. |
| Net.ToLower | updater/updater.go:60 | Lower-casing of the service and type settings keeps the length. |
| AddressMath.FlipUniversalLocalBits | updater/updater.go:144 | `mac[0] ^ 2` flips exactly bit 1 (the universal/local bit) and is its own inverse. |
| AddressMath.SlaacBits | updater/updater.go:140-147 | The result is 16 bytes: bytes 0-7 are zero, bytes 11-12 are ff fe, bytes 9-10 are MAC bytes 1-2, and bytes 13-15 are MAC bytes 3-5. |
| AddressMath.MacOfInterfaceId | updater/updater.go:144-145 | Reading a MAC back out of an interface identifier gives six bytes. |
| AddressMath.SlaacBitsRoundTrip | updater/updater.go:140-147 | The MAC can be recovered from SlaacBits, byte 8 included, so the derivation loses nothing. |
| AddressMath.SlaacBitsExample | updater/updater_test.go:10-19 | 11:22:33:44:55:66 gives ::1322:33ff:fe44:5566. |
| AddressMath.And | updater/updater.go:152 | The byte-wise AND of IP.Mask is no larger than either operand. |
| AddressMath.AndBit | updater/updater.go:152 | A bit of `x & y` is set exactly when it is set in both. |
| AddressMath.LeadingOnesBits | updater/updater.go:152 | A mask byte with k leading ones has bit b set exactly when b >= 8 - k. |
| AddressMath.CIDRMask | updater/updater.go:152 | net.CIDRMask is non-nil exactly when bits is 32 or 128 and 0 <= ones <= bits; a non-nil mask has bits/8 bytes. |
| AddressMath.MaskIP | updater/updater.go:151-153 | For a 4- or 16-byte address and 0 <= n <= 8·len the length is kept; outside that range the result is nil. |
| AddressMath.ApplyMask | updater/updater.go:152 | IP.Mask keeps the length when address and mask are equally long; a ::ffff: address under a 4-byte mask, or a 4-byte address under a 16-byte mask whose first 12 bytes are ff, gives 4 bytes; any other length mismatch gives nil. |
| AddressMath.ApplyMaskSameLength | updater/updater.go:152 | With a mask of the address's own length, IP.Mask is the byte-wise AND. |
| AddressMath.MaskIPByte | updater/updater.go:151-153 | Byte i of the result is byte i of the address ANDed with the mask byte for its position. |
| AddressMath.MaskIPBits | updater/updater.go:151-153 | MaskIP clears exactly the n low bits and keeps every other bit. |
| AddressMath.AndAllOnes | updater/updater.go:152 | ANDing with 0xff leaves a byte unchanged. |
| AddressMath.MaskIPZero | updater/updater.go:151-153 | Mask 0 returns the address unchanged. |
| AddressMath.MaskIPFull | updater/updater.go:151-153 | Masking all 8·len bits gives all zero bytes. |
| AddressMath.MaskIPFour | updater/updater.go:151-153 | For an IPv4 address, each of the four result bytes is the input byte ANDed with that byte's mask. |
| AddressMath.MaskIPLastByte | updater/updater.go:151-153 | For n <= 8 only the last byte of an IPv4 address is changed. |
| AddressMath.MaskIPSixteenLastByte | updater/updater.go:151-153 | For a 16-byte address and n <= 8 only the last byte is masked; the ::ffff: prefix of a mapped IPv4 address is kept. |
| AddressMath.MaskIPThirdByte | updater/updater.go:151-153 | For 8 <= n <= 16 the last byte is zeroed and the third is masked. |
| AddressMath.MaskIPExampleByte | updater/updater_test.go:28-32 | 192.168.12.34 with 8 mask bits gives 192.168.12.0. |
| AddressMath.MaskIPExampleNibble | updater/updater_test.go:34-38 | 192.168.86.34 with 12 mask bits gives 192.168.80.0. |
| AddressMath.MaskIPExampleZero | updater/updater_test.go:22-26 | 192.168.12.34 with 0 mask bits is unchanged. |
| AddressMath.FromRight | updater/updater.go:173-179 | fromRight: the byte `place` positions from the right, 0 beyond the left end. |
| AddressMath.FromRightZeroExtends | updater/updater.go:173-179 | Zero bytes added on the left do not change any byte read from the right, so the shorter operand is zero-extended. |
| AddressMath.Carry | updater/updater.go:164-167 | The carry into each place is 0 or 1. |
| AddressMath.Sum | updater/updater.go:157-163 | The result is as wide as the wider operand. |
| AddressMath.SumFromRight | updater/updater.go:165-168 | Byte p from the right of the sum is the digit of place p. |
| AddressMath.SumDigits | updater/updater.go:165-169 | The low p bytes of the sum, plus the carry out of them times 256^p, equal the sum of the operands' low p bytes. |
| AddressMath.SumValue | updater/updater.go:156-171 | The sum's big-endian value is the operands' value sum modulo 256^width: the final carry is dropped. |
| AddressMath.SumCommutes | updater/updater.go:156-171 | Addition does not depend on the order of the operands. |
| AddressMath.SumZeroExtends | updater/updater.go:173-179 | Zero bytes added on the left of the shorter operand, up to the wider width, change nothing. |
| AddressMath.SumEmpty | updater/updater.go:156-171 | Adding nil in either position returns the other operand. |
| AddressMath.SumFour | updater/updater.go:165-169 | Two IPv4 operands give the four digits in big-endian order. |
| AddressMath.SumExamplePlain | updater/updater_test.go:48-52 | 1.2.3.4 + 5.6.7.8 = 6.8.10.12. |
| AddressMath.SumExampleCarry | updater/updater_test.go:54-58 | 0.255.156.1 + 0.1.100.2 = 1.1.0.3. |
| AddressMath.SumExampleOffset | updater/updater.go:156-171 | In their 4-byte forms, 203.0.113.0 + 0.0.0.5 = 203.0.113.5. |
| AddressMath.SumExampleMapped | updater/updater.go:156-171 | In their 16-byte ::ffff: forms, 203.0.113.0 + 0.0.0.5 = ::1:fffe:cb00:7105: the two ffff prefixes carry. |
| AddressMath.MappedCarries | updater/updater.go:164-167 | For those operands the carry is 1 into places 5 and 6 and 0 into every other place. |
| AddressMath.ValueInjective | updater/updater.go:156-171 | Two addresses of one width with the same big-endian value are the same bytes. |
| AddressMath.SumAssociates | updater/updater.go:156-171 | For operands of one width, (a + b) + c and a + (b + c) give the same bytes. |
| AddressMath.AddIPStep | updater/updater.go:166-168 | One iteration of the loop writes the digit of its place and carries the next place's carry. |
| AddressMath.AddIP | updater/updater.go:156-171 | The array filled right to left is exactly Sum(a, b), as wide as the wider operand. |
| AddressMath.CarrySlaac | updater/updater.go:111 | Adding the SLAAC bits to a /64-masked address never carries. |
| AddressMath.MaskIPSixtyFour | updater/updater.go:96 | A 16-byte address masked with 64 bits keeps its first eight bytes and zeroes the rest. |
| AddressMath.SumDisjointHalves | updater/updater.go:156-171 | Adding two 16-byte values whose nonzero bytes do not overlap concatenates their halves. |
| AddressMath.SlaacTarget | updater/updater.go:111 | With SLAAC, the record value is the address's /64 prefix followed by the EUI-64 interface identifier. |
| Lookup.SourceFilterMembers | updater/iplookup.go:105-121 | An address is kept exactly when some entry is a *net.IPNet carrying it, of the record type's length and global unicast; the result is no longer than the input. |
| Lookup.SourceAddressesEmpty | updater/iplookup.go:101-116 | A failed Addrs() or a record type other than A or AAAA gives no source address. |
| Lookup.SourceAddresses | updater/iplookup.go:99-123 | The appending loop returns the filter's result, every element of the record type's family and global unicast. |
| Lookup.Dials | updater/iplookup.go:67-76 | No source address gives one default-route dial; otherwise there is one dial per address, in order. |
| Lookup.DialContexts | updater/iplookup.go:67-76 | The appending loop builds exactly those dials. |
| Lookup.Retrieve | updater/iplookup.go:198-224 | An attempt succeeds exactly when the exchange returns status 200; a success carries ParseIP of the trimmed body. |
| Lookup.RetrieveUnparsable | updater/iplookup.go:222-223 | An unparsable 200 body is a success carrying nil, not an error. |
| Lookup.Attempt | updater/iplookup.go:82-87 | A asks the service's IPv4 URL, AAAA its IPv6 URL, and any other type yields nil with no error. |
| Lookup.SearchDialsFirst | updater/iplookup.go:77-93 | One service gives no answer exactly when every dial fails; an answer is that of the first dial that did not fail. |
| Lookup.SearchServicesNone | updater/iplookup.go:66-94 | The search gives no answer exactly when every (service, dial) attempt fails. |
| Lookup.SearchServicesFirst | updater/iplookup.go:66-94 | An answer comes from an attempt before which every attempt, in service-major order, failed. |
| Lookup.FirstSuccessExtends | updater/iplookup.go:66-94 | A first success among some services is still the first success when more services follow them. |
| Lookup.SearchDialsPrefix | updater/iplookup.go:91-92 | A success found among the first dials is the answer for all of them (the early return). |
| Lookup.SearchServicesPrefix | updater/iplookup.go:91-92 | A success found among the first services is the answer for all of them (the early return). |
| Lookup.Swap | updater/iplookup.go:62 | Swapping exchanges positions i and j and keeps every other position. |
| Lookup.SwapPermutes | updater/iplookup.go:62 | A swap is a permutation. |
| Lookup.ShuffleFrom | updater/iplookup.go:61-63 | The Fisher-Yates steps from i down keep the length. |
| Lookup.Shuffled | updater/iplookup.go:59-63 | The shuffled copy has the length of the list. |
| Lookup.ShuffleFromPermutes | updater/iplookup.go:61-63 | The Fisher-Yates steps from i down permute the list. |
| Lookup.ShuffledPermutes | updater/iplookup.go:59-63 | The shuffled copy is a permutation of the list, for every sequence of draws. |
| Lookup.ShuffledServices | updater/iplookup.go:16-19 | Every draw visits each of the three services exactly once. |
| Lookup.ShuffleCanKeepOrder | updater/iplookup.go:61-63 | Draws that always pick the current position keep the original order. |
| Lookup.ShuffleServices | updater/iplookup.go:59-63 | The in-place array shuffle of the copied list computes Shuffled. |
| Lookup.TryDials | updater/iplookup.go:77-93 | The inner loop, with its early return, computes SearchDials. |
| Lookup.FirstSuccess | updater/iplookup.go:66-94 | The nested loops compute SearchServices over the shuffled services and the dials. |
| Lookup.CachedIP | updater/iplookup.go:96 | The cache read `l.cache[key]`: a missing key gives nil. |
| Lookup.SourcesFor | updater/iplookup.go:44-56 | The source addresses: none when the interface is unknown or has no qualifying address, else sourceAddresses of it. |
| Lookup.Discover | updater/iplookup.go:44-94 | Shuffle the services, then try each through every dial context of the source addresses; the first success wins. |
| Lookup.DiscoverParsed | updater/iplookup.go:222-223 | A discovered address is nil or 16 bytes, never a 4-byte IPv4 address. |
| Lookup.Rediscover | updater/iplookup.go:58-96 | Past the gate, the returned address is the one the cache then holds for the key, and the cache is unchanged or changed only at the key. |
| Lookup.Resolve | updater/iplookup.go:40-97 | The address returned is the one the resulting cache holds for the call's key. |
| Lookup.ResolveFresh | updater/iplookup.go:42-43 | Within ten minutes of the recorded retrieval time the cache is untouched and its entry is returned. |
| Lookup.ResolveFallback | updater/iplookup.go:88-96 | When every attempt fails, the cache is untouched and its previous entry (possibly nil) is returned. |
| Lookup.ResolveDiscovers | updater/iplookup.go:58-92 | When the entry is stale and some attempt succeeds, the first success is stored under the key and returned. |
| Lookup.ResolveKeepsOtherKeys | updater/iplookup.go:91 | No cache entry other than the call's own key is added, removed or changed. |
| Lookup.ResolveReadsOwnKey | updater/iplookup.go:41-43 | Caches and retrieval maps that agree on the key give the same address. |
| Lookup.NeverRetrievedAlwaysStale | updater/iplookup.go:42-43 | With nothing in `retrieved`, every instant past the first ten minutes rediscovers. |
| Lookup.ResolveUnrecorded | updater/iplookup.go:42-43 | With nothing in `retrieved`, every call after the first ten minutes is a full rediscovery. |
| Lookup.IPLookup.constructor | updater/iplookup.go:31-36 | A new lookup starts with two empty maps. |
| Lookup.IPLookup.WebFacingIP | updater/iplookup.go:40-97 | `retrieved` stays empty; the returned address and the new cache are Resolve of the old state, which after the first ten minutes is always a rediscovery. |
| Reconciler.RecordTypeString | updater/updater.go:23-32 | The name is non-empty exactly for A and AAAA. |
| Reconciler.ParseRecordType | updater/updater.go:74-81 | A recognised type is A or AAAA. |
| Reconciler.LowerIsA | updater/updater.go:74-75 | A lower-cased character is 'a' exactly when it was 'a' or 'A'. |
| Reconciler.ParseRecordTypeCases | updater/updater.go:74-81 | The type is A exactly for "a"/"A" and AAAA exactly for the sixteen case variants of "aaaa". |
| Reconciler.RecordTypeStringRoundTrip | updater/updater.go:23-32 | Parsing the name of A or AAAA gives the type back. |
| Reconciler.ParseServiceKind | updater/updater.go:60-69 | A recognised service lower-cases to that provider's name. |
| Reconciler.ParseServiceKindInverse | updater/updater.go:60-69 | A name selects a provider exactly when it lower-cases to that provider's name. |
| Reconciler.ServiceSupportsRecord | updater/google.go:83-92 | Every selectable provider supports A and AAAA and nothing else. |
| Reconciler.OffsetOf | updater/updater.go:89-98 | The offset is nil or 16 bytes; without one the mask bits are 0; a parsable `ip_slaac` sets 64 mask bits. |
| Reconciler.Validate | updater/updater.go:56-101 | Validation succeeds exactly when the service is known, its own settings decode and the type parses; a success carries those values and the interface. |
| Reconciler.ValidateErrors | updater/updater.go:60-81 | The errors come in the code's order: an unknown service, then the provider's decoding error, then an invalid record type. |
| Reconciler.ValidateOffset | updater/updater.go:89-98 | A parsable `ip_slaac` overrides any offset with its EUI-64 bits and 64 mask bits; otherwise a parsable `ip_offset` comes with `ip_mask_bits`; otherwise there is neither. |
| Reconciler.ValidateIgnoresCase | updater/updater.go:60-74 | Service and type settings that differ only in letter case validate alike. |
| Reconciler.DecodeAll | updater/updater.go:185-200 | A successful decode has one updater per entry. |
| Reconciler.DecodeAllOk | updater/updater.go:191-199 | Decoding succeeds exactly when every entry validates, and then the i-th updater is the i-th entry's validation. |
| Reconciler.DecodeAllFirstError | updater/updater.go:193-195 | The first entry that fails decides the error. |
| Reconciler.Target | updater/updater.go:111 | The record value: the address with its low mask bits cleared, plus the offset. |
| Reconciler.TargetWidth | updater/updater.go:111 | The value is as wide as the wider of address and offset; with mask bits the address cannot take, it is the offset alone. |
| Reconciler.ShouldSubmit | updater/updater.go:112 | Submit when the value is not IP.Equal to the last accepted one and now is after tryAfter. |
| Reconciler.ShouldSubmitSameLength | updater/updater.go:112 | Between values of one length, the comparison is plain byte equality. |
| Reconciler.Reconcile | updater/updater.go:105-124 | An update submits exactly when the lookup is non-nil, the target is not IPEqual to the last accepted value and now is after tryAfter; it submits the target; without a submission the state is unchanged. |
| Reconciler.ReconcileNilLookup | updater/updater.go:106-109 | A nil lookup submits nothing and changes neither field. |
| Reconciler.ReconcileAfterSubmit | updater/updater.go:116-122 | Success changes only `submitted` (the cooldown is kept); failure changes only `tryAfter`, to later + retryAfter. |
| Reconciler.ReconcileAtMostOnce | updater/updater.go:111-122 | Two consecutive updates on the same address, the first accepted, submit at most once. |
| Reconciler.ReconcileRetriesAfterCooldown | updater/updater.go:112-119 | After a failure with delay d, the same target is submitted again exactly at instants after later + d. |
| Reconciler.ReconcileComparesAddresses | updater/updater.go:112 | A target IP.Equal to the accepted value, in either form, is not resubmitted. |
| Reconciler.TargetPassthrough | updater/updater.go:111 | With no offset and no mask, the record value is the looked-up address. |
| Reconciler.TargetSlaac | updater/updater.go:111 | With SLAAC settings, the value is the /64 prefix followed by the EUI-64 identifier, and the MAC can be read back from it. |
| Reconciler.V4OffsetAsWritten | updater/updater.go:111 | ::ffff:203.0.113.42 with 8 mask bits and offset ::ffff:0.0.0.5 gives ::1:fffe:cb00:7105, not IP.Equal to 203.0.113.5, and an update from the initial state submits it. |
| Reconciler.To4 | updater/updater.go:111 | The 4-byte form of a ::ffff: address, any other address unchanged; the result is IP.Equal to the input. |
| Reconciler.IntendedTarget | updater/updater.go:111 | The corrected value: for an A record, mask and offset work on 4-byte forms. |
| Reconciler.IntendedTargetV4 | updater/updater.go:111 | For an A record with an IPv4 address and offset, the corrected value is 4 bytes whose value is masked address plus offset modulo 2^32. |
| Reconciler.IntendedTargetExample | updater/updater.go:111 | The corrected value of the example is 203.0.113.5. |
| Reconciler.Tick | updater/updater.go:105-124 | An update that submits nothing leaves the record state unchanged. |
| Reconciler.TickKeepsOtherKeys | updater/updater.go:106 | An update changes no cache entry but that of its own record type and interface. |
| Reconciler.Show | updater/updater.go:127-136 | A dry run never changes the record state. |
| Reconciler.TickShows | updater/updater.go:127-136 | A dry run leaves the same cache as an update and shows any value the update would submit; showing nothing means nothing is submitted. |
| Reconciler.Updater.constructor | updater/updater.go:192-196 | A new updater has its configuration and the shared lookup, nothing submitted and no cooldown. |
| Reconciler.Updater.Update | updater/updater.go:105-124 | The method's new record state, submission and cache are Tick of the old state; `retrieved` stays empty. |
| Reconciler.Updater.DryRun | updater/updater.go:127-136 | The record state is unchanged, and the value shown and the cache are Show of the old state. |
| Reconciler.Fold | updater/updater.go:203-207 | A round over n updaters has n states and n reports. |
| Reconciler.FoldStep | updater/updater.go:204-205 | Each updater meets the cache left by those before it. |
| Reconciler.FoldKeepsIdleStates | updater/updater.go:203-207 | With steps that keep idle states, every updater that submitted nothing keeps its state. |
| Reconciler.FoldTouchesOwnKeys | updater/updater.go:203-207 | With steps that write only their own key, a key no updater uses is untouched by the round. |
| Reconciler.FoldPreviews | updater/updater.go:210-214 | A round of previewing steps leaves the same cache and reports each submission the other round makes. |
| Reconciler.UpdateStep | updater/updater.go:203-207 | An update step keeps idle states and writes only its own key. |
| Reconciler.UpdateStepIsTick | updater/updater.go:205 | Updater i's step is Tick with its own network, draws and provider. |
| Reconciler.ShowStep | updater/updater.go:212 | A dry-run step never changes a record state. |
| Reconciler.Run | updater/updater.go:203-207 | A round of updates gives one state and one report per updater. |
| Reconciler.RunKeepsIdleStates | updater/updater.go:203-207 | After a round, an updater that submitted nothing has its old state. |
| Reconciler.RunTouchesOwnKeys | updater/updater.go:203-207 | A cache key that no updater in the round uses is unchanged. |
| Reconciler.Preview | updater/updater.go:210-214 | A round of dry runs gives one report per updater. |
| Reconciler.PreviewMatchesRun | updater/updater.go:210-214 | A round of dry runs leaves the cache a round of updates leaves and shows every value the updates submit; a record it shows nothing for submits nothing. |
| Reconciler.Updaters.Configs | updater/updater.go:183 | There is one configuration per updater. |
| Reconciler.Updaters.States | updater/updater.go:183 | There is one record state per updater. |
| Reconciler.Updaters.constructor | updater/updater.go:185-200 | The decoded updaters share one new empty lookup, each with nothing submitted and no cooldown. |
| Reconciler.Updaters.Update | updater/updater.go:203-207 | The loop leaves every updater's state, every report and the shared cache as Run of the old state says. |
| Reconciler.Updaters.DryRun | updater/updater.go:210-214 | The loop leaves every record state unchanged, and its reports and the cache are those of Preview. |
| NoIP.NoIPError | updater/noip.go:65-91 | The error is never nil; the delay is 0 exactly for "911", 30 minutes exactly for an empty body (whose error is "Temporary outage."), and ten years for everything else. |
| NoIP.NoIPErrorMessages | updater/noip.go:67-88 | The text ends with "Will not attempt further updates." exactly when the delay is ten years. |
| NoIP.NoIPErrorQuotes | updater/noip.go:85-87 | A response outside the table is quoted right after "Fatal error: ". |
| NoIP.NoIPError911 | updater/noip.go:81 | "911" gives a zero delay and an empty error text. |
| NoIP.NoIPSubmit | updater/noip.go:38-63 | The error is nil exactly for status 200, and then the delay is 0; a failed request has a zero delay; any other status is noIPError of the body. |
| NoIP.SupportsRecord | updater/noip.go:99-108 | No-IP supports A and AAAA and no other record type. |
| NoIP.SupportsNamedRecords | updater/noip.go:99-108 | No-IP supports exactly the record types that have a name. |
| NoIP.ConfiguredEndpoint | updater/noip.go:116-118 | A non-empty defined endpoint replaces the configured one; an empty one keeps it. |
| NoIP.ConfiguredEndpointStable | updater/noip.go:116-118 | Applying the override twice changes nothing, and a defined endpoint ignores the configuration. |
| NoIP.NoIP911RetriesNextTime | updater/noip.go:81 | A "911" reply sets tryAfter to the failure instant, so the next update after it submits the same target again. |
| NoIP.NoIPFatalSilences | updater/noip.go:85-87 | A ten-year reply stops every submission up to ten years after the failure, whatever address is looked up. |

## Findings

| source | as written | input that shows it | evidently intended | confidence | as-written member | corrected member |
|---|---|---|---|---|---|---|
| updater/updater.go:111 | `AddIP(MaskIP(rawip, bits), offset)` on the 16-byte forms `net.ParseIP` returns: for an IPv4 address the ::ffff: prefixes of address and offset add up and carry | A record, address 203.0.113.42, `ip_offset` 0.0.0.5, `ip_mask_bits` 8: the value is ::1:fffe:cb00:7105 | 203.0.113.5: mask and add on the 4-byte forms | not executed | Reconciler.V4OffsetAsWritten | Reconciler.IntendedTargetV4 |

The updater model (`Reconcile`, `Tick`, the classes) keeps the value as the
code computes it, so that every other member describes the program as it
is. `IntendedTarget` is the correction: for an A record it takes both
operands through `To4` (Go's `net.IP.To4`) first. `IntendedTargetV4` proves
that the result is then a 4-byte address holding the masked address plus
the offset modulo 2^32, and `IntendedTargetExample` gives 203.0.113.5 for
the input above.

## Left out

- HTTP and sockets are not modelled. `dialContextFromAddr`, `net.Dialer` and `http.Client` are left out. An exchange is the `Network.exchange` oracle of (URL, dial). A failed `NewRequestWithContext`, a failed `Do` and a failed body read are all its `TransportError`.
- Go standard-library internals are oracles: `strings.TrimSpace`, `net.ParseIP`, `net.ParseMAC`, `IsGlobalUnicast` and `net.InterfaceByName`/`Addrs`. The `net.ParseIP` oracle is typed `ParsedIP`, so it returns nil or 16 bytes as Go's does; which strings parse is not modelled.
- Net.ToLower: ASCII only. Go's `strings.ToLower` also maps non-ASCII letters, and the KELVIN SIGN lower-cases to "k". The model therefore does not cover non-ASCII spellings of the keywords.
- The shuffle's randomness is a parameter `rand` (step to draw), taken modulo i+1 as rand.Shuffle does. The generator itself is not modelled.
- `time.Now()` is passed in as `now` and `later`. Each round of `Updaters` uses one pair of instants for all its updaters.
- `WebFacingIP` reads the lookup gate with the same `now` that the cooldown check uses.
- In a round, each updater index gets its own network (`net(i)`), its own draws (`rand(i)`) and its own provider (`submit(i)`), so two updaters may see different replies to the same request.
- Logging, `Identifier`, `context` cancellation and `DryRun`'s log output are left out. `Updater.DryRun` returns the value it would log.
- The YAML decoding mechanics are left out: `value.Decode`, `yaml.Unmarshaler`, and the "expected a YAML sequence" error of `Updaters.UnmarshalYAML`. Validation works on already-decoded strings. The provider's own decoding error is a field of `RawUpdater`.
- Reconciler.Validate: the "service does not support this record type" branch is kept in the function. Every selectable provider supports both record types that parse, so no input reaches that branch, and the contract does not mention it.
- The HTTP requests and `cloudflare-go` calls of google.go, duck.go and cloudflare.go are one abstract provider function. That function returns a retry delay and an optional error. testservice.go is not part of this model.
- No-IP's request construction is left out: the URL and query encoding, basic authentication and the User-Agent header. `NoIPService` cannot be selected by the service switch of `Updater.UnmarshalYAML`. Its table is modelled on its own and connected to `Reconcile` through a provider that always gives the same reply.
- `Identifier` and the stored credentials of No-IP are left out.
- main.go (flags, file reading, the update/sleep loop) is not part of this model.
- Loop structure: `WebFacingIP`'s nested loop is split into the methods `FirstSuccess` (services) and `TryDials` (dials). Each returns the first success. `WebFacingIP` writes the cache entry after they return, where the Go code writes it inside the inner loop just before returning. The observable result is the same.
- AddressMath.AddIP: the ensures states the result digit by digit (`Sum`). Its numeric meaning, the value sum modulo 256^width, is stated separately by `SumValue`.
- Integer width: `RecordType` and durations are unbounded integers. Go's 64-bit `time.Duration` and `time.Time` arithmetic cannot overflow for the constants involved. Mask bit counts outside the valid range give nil, as in Go.
