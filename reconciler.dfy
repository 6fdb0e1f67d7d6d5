/**
 * The per-record reconciler of updater/updater.go: validating one decoded
 * record configuration, computing the record value from a looked-up
 * address, and the two-field state machine (`submitted`, `tryAfter`) that
 * decides when the DNS provider is asked to change the record.
 *
 * A DNS provider is a function from record type and address to its
 * SubmitReply (retry delay and error); the clock is a pair of instants per
 * update: `now` for the lookup's gate and the cooldown check, `later` for
 * the instant read after the provider answered.
 */
module Reconciler {
  import opened Net
  import opened AddressMath
  import opened Lookup

  // ---------------------------------------------------------------------
  // Record types and services
  // ---------------------------------------------------------------------

  /** RecordTypeString: the DNS name of a record type, or "" for any other value. */
  function RecordTypeString(rtype: RecordType): (s: string)
    ensures s != "" <==> rtype == ARecord || rtype == AAAARecord
  {
    if rtype == ARecord then "A" else if rtype == AAAARecord then "AAAA" else ""
  }

  /** The `type` setting: "a" or "aaaa" after lower-casing, anything else rejected. */
  function ParseRecordType(name: string): (r: Option<RecordType>)
    ensures r.Some? ==> r.value == ARecord || r.value == AAAARecord
  {
    var lower := ToLower(name);
    if lower == "a" then Some(ARecord)
    else if lower == "aaaa" then Some(AAAARecord)
    else None
  }

  /** The only characters ToLower maps to 'a' are 'a' and 'A'. */
  lemma LowerIsA(s: string, i: nat)
    requires i < |s|
    ensures ToLower(s)[i] == 'a' <==> s[i] == 'a' || s[i] == 'A'
  {
  }

  /** The record type is accepted in any mix of cases and in no other spelling. */
  lemma ParseRecordTypeCases(name: string)
    ensures ParseRecordType(name) == Some(ARecord) <==> name == "a" || name == "A"
    ensures ParseRecordType(name) == Some(AAAARecord) <==>
      |name| == 4 && forall i :: 0 <= i < 4 ==> name[i] == 'a' || name[i] == 'A'
  {
    var lower := ToLower(name);
    if |name| == 1 {
      LowerIsA(name, 0);
      if lower == "a" {
        assert name[0] == 'a' || name[0] == 'A';
        assert name == [name[0]];
      }
    }
    if |name| == 4 {
      LowerIsA(name, 0);
      LowerIsA(name, 1);
      LowerIsA(name, 2);
      LowerIsA(name, 3);
      if forall i :: 0 <= i < 4 ==> name[i] == 'a' || name[i] == 'A' {
        assert lower == "aaaa";
      }
    }
  }

  /** Printing a record type and reading it back gives the same type. */
  lemma RecordTypeStringRoundTrip(rtype: RecordType)
    requires rtype == ARecord || rtype == AAAARecord
    ensures ParseRecordType(RecordTypeString(rtype)) == Some(rtype)
  {
    if rtype == ARecord {
      ParseRecordTypeCases("A");
    } else {
      ParseRecordTypeCases("AAAA");
    }
  }

  /** The DNS providers the `service` setting can select. */
  datatype ServiceKind = Cloudflare | Duck | Google

  /** The lower-case name that selects a provider. */
  function ServiceName(kind: ServiceKind): string
  {
    match kind
    case Cloudflare => "cloudflare"
    case Duck => "duck"
    case Google => "google"
  }

  /** The `service` setting, matched after lower-casing; any other name is unknown. */
  function ParseServiceKind(name: string): (r: Option<ServiceKind>)
    ensures r.Some? ==> ToLower(name) == ServiceName(r.value)
  {
    var lower := ToLower(name);
    if lower == "cloudflare" then Some(Cloudflare)
    else if lower == "duck" then Some(Duck)
    else if lower == "google" then Some(Google)
    else None
  }

  /** A name selects a provider exactly when it lower-cases to that provider's name. */
  lemma ParseServiceKindInverse(name: string, kind: ServiceKind)
    ensures ParseServiceKind(name) == Some(kind) <==> ToLower(name) == ServiceName(kind)
  {
  }

  /** SupportsRecord of the Cloudflare, Duck DNS and Google providers: A and AAAA, nothing else. */
  function ServiceSupportsRecord(kind: ServiceKind, rtype: RecordType): (b: bool)
    ensures b <==> rtype == ARecord || rtype == AAAARecord
  {
    match kind
    case Cloudflare => rtype == ARecord || rtype == AAAARecord
    case Duck => rtype == ARecord || rtype == AAAARecord
    case Google => rtype == ARecord || rtype == AAAARecord
  }

  // ---------------------------------------------------------------------
  // Configuration
  // ---------------------------------------------------------------------

  /** What net.ParseMAC returns on success: a 6-, 8- or 20-byte hardware address. */
  type HardwareAddr = s: seq<byte> | |s| == 6 || |s| == 8 || |s| == 20 witness [0, 0, 0, 0, 0, 0]

  /**
   * One decoded record entry: the settings `service`, `type`, `interface`,
   * `ip_slaac`, `ip_offset` and `ip_mask_bits`, and the error (if any) of
   * decoding the provider's own settings from the same entry.
   */
  datatype RawUpdater = RawUpdater(
    service: string, serviceErr: Option<string>, rtype: string, iface: string,
    ipSlaac: string, ipOffset: string, ipMaskBits: int)

  /** A validated record: provider, type, interface, offset and mask bits. */
  datatype UpdaterConfig = UpdaterConfig(kind: ServiceKind, rtype: RecordType, iface: string, offset: IP, maskBits: int)

  datatype Result<T> = Ok(value: T) | Err(msg: string)

  /**
   * The offset and mask bits: a parsable `ip_offset` is taken with
   * `ip_mask_bits`; a non-empty `ip_slaac` that parses as a hardware
   * address then replaces both with its EUI-64 bits and 64.
   */
  function OffsetOf(raw: RawUpdater, parseIP: string -> ParsedIP, parseMAC: string -> Option<HardwareAddr>): (r: (IP, int))
    ensures r.0 == [] || |r.0| == 16
    ensures r.0 == [] ==> r.1 == 0
    ensures raw.ipSlaac != "" && parseMAC(raw.ipSlaac).Some? ==> r.1 == 64
  {
    var plain := if parseIP(raw.ipOffset) != [] then (parseIP(raw.ipOffset), raw.ipMaskBits) else ([], 0);
    if raw.ipSlaac != "" && parseMAC(raw.ipSlaac).Some? then (SlaacBits(parseMAC(raw.ipSlaac).value), 64)
    else plain
  }

  /** Updater.UnmarshalYAML after decoding: the checks in order, then the offset rules. */
  function Validate(raw: RawUpdater, parseIP: string -> ParsedIP, parseMAC: string -> Option<HardwareAddr>): (r: Result<UpdaterConfig>)
    ensures r.Ok? <==>
      ParseServiceKind(raw.service).Some? && raw.serviceErr.None? && ParseRecordType(raw.rtype).Some?
    ensures r.Ok? ==>
      r.value.kind == ParseServiceKind(raw.service).value && r.value.rtype == ParseRecordType(raw.rtype).value &&
      r.value.iface == raw.iface
  {
    match ParseServiceKind(raw.service)
    case None => Err("unknown service")
    case Some(kind) =>
      if raw.serviceErr.Some? then Err(raw.serviceErr.value)
      else match ParseRecordType(raw.rtype)
        case None => Err("invalid record type")
        case Some(rtype) =>
          if !ServiceSupportsRecord(kind, rtype) then Err("service does not support this record type")
          else
            var (offset, bits) := OffsetOf(raw, parseIP, parseMAC);
            Ok(UpdaterConfig(kind, rtype, raw.iface, offset, bits))
  }

  /** The errors, in the order the checks run. */
  lemma ValidateErrors(raw: RawUpdater, parseIP: string -> ParsedIP, parseMAC: string -> Option<HardwareAddr>)
    ensures ParseServiceKind(raw.service).None? ==> Validate(raw, parseIP, parseMAC) == Err("unknown service")
    ensures ParseServiceKind(raw.service).Some? && raw.serviceErr.None? && ParseRecordType(raw.rtype).None? ==>
      Validate(raw, parseIP, parseMAC) == Err("invalid record type")
    ensures ParseServiceKind(raw.service).Some? && raw.serviceErr.Some? ==>
      Validate(raw, parseIP, parseMAC) == Err(raw.serviceErr.value)
  {
  }

  /**
   * A parsable `ip_slaac` overrides any `ip_offset` and forces 64 mask
   * bits; otherwise a parsable `ip_offset` is used with `ip_mask_bits`;
   * otherwise there is no offset and no mask.
   */
  lemma ValidateOffset(raw: RawUpdater, parseIP: string -> ParsedIP, parseMAC: string -> Option<HardwareAddr>)
    requires Validate(raw, parseIP, parseMAC).Ok?
    ensures var c := Validate(raw, parseIP, parseMAC).value;
      if raw.ipSlaac != "" && parseMAC(raw.ipSlaac).Some? then
        c.offset == SlaacBits(parseMAC(raw.ipSlaac).value) && c.maskBits == 64 &&
        |c.offset| == 16 && c.offset[13..] == parseMAC(raw.ipSlaac).value[3..6]
      else if parseIP(raw.ipOffset) != [] then
        c.offset == parseIP(raw.ipOffset) && c.maskBits == raw.ipMaskBits
      else
        c.offset == [] && c.maskBits == 0
  {
  }

  /** Provider and type names are matched case-insensitively: "Google" with "AAAA" validates like "google" with "aaaa". */
  lemma ValidateIgnoresCase(raw: RawUpdater, service: string, rtype: string,
                            parseIP: string -> ParsedIP, parseMAC: string -> Option<HardwareAddr>)
    requires ToLower(service) == ToLower(raw.service) && ToLower(rtype) == ToLower(raw.rtype)
    ensures Validate(raw.(service := service, rtype := rtype), parseIP, parseMAC) == Validate(raw, parseIP, parseMAC)
  {
  }

  /**
   * Updaters.UnmarshalYAML: the entries are validated in order and the
   * first error ends decoding.
   */
  function DecodeAll(raws: seq<RawUpdater>, parseIP: string -> ParsedIP, parseMAC: string -> Option<HardwareAddr>): (r: Result<seq<UpdaterConfig>>)
    ensures r.Ok? ==> |r.value| == |raws|
  {
    if |raws| == 0 then Ok([])
    else match Validate(raws[0], parseIP, parseMAC)
      case Err(e) => Err(e)
      case Ok(c) =>
        match DecodeAll(raws[1..], parseIP, parseMAC)
        case Err(e) => Err(e)
        case Ok(cs) => Ok([c] + cs)
  }

  /** Decoding succeeds exactly when every entry validates, and then yields each entry's configuration. */
  lemma {:induction false} DecodeAllOk(raws: seq<RawUpdater>, parseIP: string -> ParsedIP, parseMAC: string -> Option<HardwareAddr>)
    ensures DecodeAll(raws, parseIP, parseMAC).Ok? <==> forall i :: 0 <= i < |raws| ==> Validate(raws[i], parseIP, parseMAC).Ok?
    ensures DecodeAll(raws, parseIP, parseMAC).Ok? ==>
      forall i :: 0 <= i < |raws| ==> DecodeAll(raws, parseIP, parseMAC).value[i] == Validate(raws[i], parseIP, parseMAC).value
  {
    if |raws| > 0 {
      DecodeAllOk(raws[1..], parseIP, parseMAC);
      assert forall i :: 1 <= i < |raws| ==> raws[i] == raws[1..][i - 1];
    }
  }

  /** A failed decoding reports the error of the first entry that does not validate. */
  lemma {:induction false} DecodeAllFirstError(raws: seq<RawUpdater>, k: nat, parseIP: string -> ParsedIP, parseMAC: string -> Option<HardwareAddr>)
    requires k < |raws| && Validate(raws[k], parseIP, parseMAC).Err?
    requires forall i :: 0 <= i < k ==> Validate(raws[i], parseIP, parseMAC).Ok?
    ensures DecodeAll(raws, parseIP, parseMAC) == Err(Validate(raws[k], parseIP, parseMAC).msg)
  {
    if k > 0 {
      assert forall i :: 0 <= i < k - 1 ==> raws[1..][i] == raws[i + 1];
      DecodeAllFirstError(raws[1..], k - 1, parseIP, parseMAC);
    }
  }

  // ---------------------------------------------------------------------
  // The reconciler
  // ---------------------------------------------------------------------

  /** The two fields an Updater changes: the last value the provider accepted, and the cooldown end. */
  datatype RecordState = RecordState(submitted: IP, tryAfter: Time)

  /** The record value for a looked-up address: the mask bits cleared, then the offset added. */
  function Target(raw: IP, cfg: UpdaterConfig): IP
  {
    Sum(MaskIP(raw, cfg.maskBits), cfg.offset)
  }

  /** The new record state, and the value sent to the provider if one was sent. */
  datatype Outcome = Outcome(state: RecordState, submission: Option<IP>)

  /** Whether an update submits: the value differs (by net.IP.Equal) from the last accepted one and the cooldown has ended. */
  predicate ShouldSubmit(st: RecordState, ip: IP, now: Time)
  {
    !IPEqual(ip, st.submitted) && now > st.tryAfter
  }

  /**
   * Updater.Update given the looked-up address `raw`: nothing happens for
   * nil; otherwise the target is submitted when ShouldSubmit holds, a
   * success recording it and a failure starting a cooldown.
   */
  function Reconcile(st: RecordState, raw: IP, cfg: UpdaterConfig, now: Time, later: Time,
                     submit: (RecordType, IP) -> SubmitReply): (r: Outcome)
    ensures r.submission.Some? <==> raw != [] && ShouldSubmit(st, Target(raw, cfg), now)
    ensures r.submission.Some? ==> r.submission.value == Target(raw, cfg)
    ensures r.submission.None? ==> r.state == st
  {
    if raw == [] then Outcome(st, None)
    else
      var ip := Target(raw, cfg);
      if ShouldSubmit(st, ip, now) then
        var reply := submit(cfg.rtype, ip);
        if reply.err.Some? then Outcome(st.(tryAfter := later + reply.retryAfter), Some(ip))
        else Outcome(st.(submitted := ip), Some(ip))
      else Outcome(st, None)
  }

  /** A nil lookup submits nothing and changes neither field. */
  lemma ReconcileNilLookup(st: RecordState, cfg: UpdaterConfig, now: Time, later: Time, submit: (RecordType, IP) -> SubmitReply)
    ensures Reconcile(st, [], cfg, now, later, submit) == Outcome(st, None)
  {
  }

  /**
   * After a submission, success changes only `submitted` (the cooldown is
   * not cleared) and failure changes only `tryAfter`, so the same target
   * is tried again once the cooldown ends.
   */
  lemma ReconcileAfterSubmit(st: RecordState, raw: IP, cfg: UpdaterConfig, now: Time, later: Time,
                             submit: (RecordType, IP) -> SubmitReply)
    requires raw != [] && ShouldSubmit(st, Target(raw, cfg), now)
    ensures var ip := Target(raw, cfg);
      var reply := submit(cfg.rtype, ip);
      var r := Reconcile(st, raw, cfg, now, later, submit);
      (reply.err.None? ==> r.state.submitted == ip && r.state.tryAfter == st.tryAfter) &&
      (reply.err.Some? ==> r.state.submitted == st.submitted && r.state.tryAfter == later + reply.retryAfter)
  {
  }

  /** Two consecutive updates that see the same address, the first accepted, submit at most once. */
  lemma ReconcileAtMostOnce(st: RecordState, raw: IP, cfg: UpdaterConfig, now1: Time, later1: Time, now2: Time, later2: Time,
                            submit1: (RecordType, IP) -> SubmitReply, submit2: (RecordType, IP) -> SubmitReply)
    requires var r1 := Reconcile(st, raw, cfg, now1, later1, submit1);
      r1.submission.Some? ==> submit1(cfg.rtype, r1.submission.value).err.None?
    ensures var r1 := Reconcile(st, raw, cfg, now1, later1, submit1);
      var r2 := Reconcile(r1.state, raw, cfg, now2, later2, submit2);
      r1.submission.None? || r2.submission.None?
  {
    var r1 := Reconcile(st, raw, cfg, now1, later1, submit1);
    if r1.submission.Some? {
      IPEqualIsEquivalence(Target(raw, cfg), Target(raw, cfg), Target(raw, cfg));
    }
  }

  /**
   * After a failed submission with delay d, the same target is not
   * submitted at or before later + d, and is submitted again at any
   * instant after it.
   */
  lemma ReconcileRetriesAfterCooldown(st: RecordState, raw: IP, cfg: UpdaterConfig, now1: Time, later1: Time, now2: Time, later2: Time,
                                      submit1: (RecordType, IP) -> SubmitReply, submit2: (RecordType, IP) -> SubmitReply)
    requires var r1 := Reconcile(st, raw, cfg, now1, later1, submit1);
      r1.submission.Some? && submit1(cfg.rtype, r1.submission.value).err.Some?
    ensures var r1 := Reconcile(st, raw, cfg, now1, later1, submit1);
      var d := submit1(cfg.rtype, r1.submission.value).retryAfter;
      var r2 := Reconcile(r1.state, raw, cfg, now2, later2, submit2);
      r2.submission.Some? <==> now2 > later1 + d
  {
  }

  /** Equality is net.IP.Equal: a target in 16-byte form equal to the accepted 4-byte address is not resubmitted. */
  lemma ReconcileComparesAddresses(st: RecordState, raw: IP, cfg: UpdaterConfig, now: Time, later: Time,
                                   submit: (RecordType, IP) -> SubmitReply)
    requires raw != [] && IPEqual(Target(raw, cfg), st.submitted)
    ensures Reconcile(st, raw, cfg, now, later, submit).submission == None
  {
  }

  /** Between addresses of one length, net.IP.Equal is plain byte equality. */
  lemma ShouldSubmitSameLength(st: RecordState, ip: IP, now: Time)
    requires |ip| == |st.submitted|
    ensures ShouldSubmit(st, ip, now) <==> ip != st.submitted && now > st.tryAfter
  {
  }

  /**
   * The record value is as wide as the wider of the masked address and the
   * offset; when the mask bits do not fit the address, IP.Mask gives nil
   * and the value is the offset alone.
   */
  lemma TargetWidth(raw: IP, cfg: UpdaterConfig)
    ensures MaskInRange(raw, cfg.maskBits) ==> |Target(raw, cfg)| == Width(raw, cfg.offset)
    ensures !MaskInRange(raw, cfg.maskBits) ==> Target(raw, cfg) == cfg.offset
  {
    SumEmpty(cfg.offset);
  }

  /**
   * What the code computes for an A record with an IPv4 `ip_offset`: both
   * addresses arrive from net.ParseIP in their 16-byte ::ffff: form, the
   * mask leaves those prefix bytes alone, and adding them carries
   * 0xff + 0xff into the bytes above. ::ffff:203.0.113.42 masked to 8 bits
   * plus ::ffff:0.0.0.5 is ::1:fffe:cb00:7105, which is no IPv4 address,
   * and Reconcile submits it as the A record's value.
   */
  lemma V4OffsetAsWritten(st: RecordState, now: Time, later: Time, submit: (RecordType, IP) -> SubmitReply)
    requires st.submitted == [] && now > st.tryAfter
    ensures var raw, cfg := V4InV6Prefix + [203, 0, 113, 42], UpdaterConfig(Google, ARecord, "", V4InV6Prefix + [0, 0, 0, 5], 8);
            var t := Target(raw, cfg);
            t == [0, 0, 0, 0, 0, 0, 0, 0, 0, 1, 0xff, 0xfe, 203, 0, 113, 5] &&
            !IPEqual(t, [203, 0, 113, 5]) &&
            Reconcile(st, raw, cfg, now, later, submit).submission == Some(t)
  {
    var raw, cfg := V4InV6Prefix + [203, 0, 113, 42], UpdaterConfig(Google, ARecord, "", V4InV6Prefix + [0, 0, 0, 5], 8);
    MaskIPSixteenLastByte(raw, 8);
    assert LeadingOnes(0) == 0;
    var m, o := V4InV6Prefix + [203, 0, 113, 0], cfg.offset;
    assert MaskIP(raw, 8) == m;
    SumExampleMapped();
    var t: IP := [0, 0, 0, 0, 0, 0, 0, 0, 0, 1, 0xff, 0xfe, 203, 0, 113, 5];
    assert t[..12] != V4InV6Prefix by {
      assert t[9] != V4InV6Prefix[9];
    }
  }

  /** net.IP.To4 where it applies: the 4-byte form of an address written as ::ffff:a.b.c.d, any other address unchanged. */
  function To4(ip: IP): (r: IP)
    ensures IPEqual(r, ip)
    ensures |ip| == 16 && ip[..12] == V4InV6Prefix ==> |r| == 4
  {
    if |ip| == 16 && ip[..12] == V4InV6Prefix then ip[12..] else ip
  }

  /**
   * The record value the configuration describes: for an A record the
   * address and the offset are brought to their 4-byte form before the
   * mask and the addition, so that carries stay inside the IPv4 address.
   */
  function IntendedTarget(raw: IP, cfg: UpdaterConfig): IP
  {
    if cfg.rtype == ARecord then Sum(MaskIP(To4(raw), cfg.maskBits), To4(cfg.offset)) else Target(raw, cfg)
  }

  /**
   * For an A record with an IPv4 address and an IPv4 offset, both in their
   * ::ffff: form, the corrected value is a 4-byte address: the masked
   * address plus the offset modulo 2^32, and it keeps the address's top
   * `maskBits` bits when the offset has none of them set.
   */
  lemma IntendedTargetV4(raw4: IP, off4: IP, cfg: UpdaterConfig)
    requires |raw4| == 4 && |off4| == 4 && cfg.rtype == ARecord && cfg.offset == V4InV6Prefix + off4
    requires 0 <= cfg.maskBits <= 32
    ensures |IntendedTarget(V4InV6Prefix + raw4, cfg)| == 4
    ensures Value(IntendedTarget(V4InV6Prefix + raw4, cfg)) == (Value(MaskIP(raw4, cfg.maskBits)) + Value(off4)) % Pow256(4)
  {
    assert (V4InV6Prefix + raw4)[..12] == V4InV6Prefix && (V4InV6Prefix + raw4)[12..] == raw4;
    assert cfg.offset[..12] == V4InV6Prefix && cfg.offset[12..] == off4;
    SumValue(MaskIP(raw4, cfg.maskBits), off4);
  }

  /** The corrected value of the example above is 203.0.113.5. */
  lemma IntendedTargetExample()
    ensures IntendedTarget(V4InV6Prefix + [203, 0, 113, 42], UpdaterConfig(Google, ARecord, "", V4InV6Prefix + [0, 0, 0, 5], 8))
         == [203, 0, 113, 5]
  {
    var raw, off := V4InV6Prefix + [203, 0, 113, 42], V4InV6Prefix + [0, 0, 0, 5];
    assert raw[..12] == V4InV6Prefix && raw[12..] == [203, 0, 113, 42];
    assert off[..12] == V4InV6Prefix && off[12..] == [0, 0, 0, 5];
    MaskIPLastByte(203, 0, 113, 42, 8);
    assert LeadingOnes(0) == 0;
    SumExampleOffset();
  }

  /** With no offset and no mask the record value is the looked-up address itself. */
  lemma TargetPassthrough(raw: IP, cfg: UpdaterConfig)
    requires cfg.offset == [] && cfg.maskBits == 0 && (|raw| == 4 || |raw| == 16)
    ensures Target(raw, cfg) == raw
  {
    MaskIPZero(raw);
    SumEmpty(raw);
  }

  /** With SLAAC bits, the record value keeps the upper 64 bits of the address and carries the EUI-64 identifier below. */
  lemma TargetSlaac(raw: IP, cfg: UpdaterConfig, mac: HardwareAddr)
    requires |raw| == 16 && cfg.offset == SlaacBits(mac) && cfg.maskBits == 64
    ensures Target(raw, cfg) == raw[..8] + SlaacBits(mac)[8..]
    ensures MacOfInterfaceId(Target(raw, cfg)) == mac[..6]
  {
    SlaacTarget(raw, mac);
    SlaacBitsRoundTrip(mac);
  }

  /** What one update does: the lookup's resolution of the record's key, then Reconcile on the address found. */
  datatype TickResult = TickResult(outcome: Outcome, cache: map<IPSource, IP>)

  function Tick(st: RecordState, cfg: UpdaterConfig, cache: map<IPSource, IP>, retrieved: map<IPSource, Time>,
                now: Time, later: Time, net: Network, rand: nat -> nat, submit: (RecordType, IP) -> SubmitReply): (r: TickResult)
    ensures r.outcome.submission.None? ==> r.outcome.state == st
  {
    var res := Resolve(cache, retrieved, IPSource(cfg.rtype, cfg.iface), now, net, rand);
    TickResult(Reconcile(st, res.ip, cfg, now, later, submit), res.cache)
  }

  /** An update changes no cache entry but that of its own record type and interface. */
  lemma TickKeepsOtherKeys(st: RecordState, cfg: UpdaterConfig, cache: map<IPSource, IP>, retrieved: map<IPSource, Time>,
                           now: Time, later: Time, net: Network, rand: nat -> nat, submit: (RecordType, IP) -> SubmitReply,
                           k: IPSource)
    requires k != IPSource(cfg.rtype, cfg.iface)
    ensures var t := Tick(st, cfg, cache, retrieved, now, later, net, rand, submit);
      (k in t.cache <==> k in cache) && (k in cache ==> t.cache[k] == cache[k])
  {
    ResolveKeepsOtherKeys(cache, retrieved, IPSource(cfg.rtype, cfg.iface), now, net, rand, k);
  }

  /** What a dry run does: the same resolution, showing the record value instead of submitting it. */
  function Show(st: RecordState, cfg: UpdaterConfig, cache: map<IPSource, IP>, retrieved: map<IPSource, Time>,
                now: Time, net: Network, rand: nat -> nat): (r: TickResult)
    ensures r.outcome.state == st
  {
    var res := Resolve(cache, retrieved, IPSource(cfg.rtype, cfg.iface), now, net, rand);
    TickResult(Outcome(st, if res.ip == [] then None else Some(Target(res.ip, cfg))), res.cache)
  }

  /**
   * A dry run, whatever the record state, leaves the cache an update
   * leaves and shows the value an update would submit; showing nothing
   * means the lookup found nothing, so nothing is submitted.
   */
  lemma TickShows(st: RecordState, st': RecordState, cfg: UpdaterConfig, cache: map<IPSource, IP>,
                  retrieved: map<IPSource, Time>, now: Time, later: Time, net: Network, rand: nat -> nat,
                  submit: (RecordType, IP) -> SubmitReply)
    ensures var t := Tick(st, cfg, cache, retrieved, now, later, net, rand, submit);
      var s := Show(st', cfg, cache, retrieved, now, net, rand);
      t.cache == s.cache &&
      (t.outcome.submission.Some? ==> s.outcome.submission == t.outcome.submission) &&
      (s.outcome.submission.None? ==> t.outcome.submission.None?)
  {
  }

  // ---------------------------------------------------------------------
  // Updater and Updaters
  // ---------------------------------------------------------------------

  /** An Updater manages one DNS record. */
  class Updater {
    const config: UpdaterConfig
    const lookup: IPLookup
    var tryAfter: Time
    var submitted: IP

    constructor (config: UpdaterConfig, lookup: IPLookup)
      ensures this.config == config && this.lookup == lookup
      ensures tryAfter == 0 && submitted == []
    {
      this.config := config;
      this.lookup := lookup;
      tryAfter := 0;
      submitted := [];
    }

    function State(): RecordState
      reads this
    {
      RecordState(submitted, tryAfter)
    }

    /**
     * Update: look the address up, compute the record value, and submit it
     * when it differs from the last accepted value and the cooldown has
     * ended. Returns the value sent to the provider (the "➤" log line).
     */
    method Update(now: Time, later: Time, net: Network, rand: nat -> nat, submit: (RecordType, IP) -> SubmitReply)
      returns (submission: Option<IP>)
      requires lookup.Valid()
      modifies this, lookup
      ensures lookup.Valid() && lookup.retrieved == old(lookup.retrieved)
      ensures TickResult(Outcome(State(), submission), lookup.cache)
           == Tick(old(State()), config, old(lookup.cache), old(lookup.retrieved), now, later, net, rand, submit)
    {
      ghost var st := State();
      var rawip := lookup.WebFacingIP(config.rtype, config.iface, now, net, rand);
      ghost var outcome := Reconcile(st, rawip, config, now, later, submit);
      assert Tick(st, config, old(lookup.cache), old(lookup.retrieved), now, later, net, rand, submit)
          == TickResult(outcome, lookup.cache);
      if rawip == [] {
        return None;
      }
      var ip := AddIP(MaskIP(rawip, config.maskBits), config.offset);
      assert ip == Target(rawip, config);
      if !IPEqual(ip, submitted) && now > tryAfter {
        submission := Some(ip);
        var reply := submit(config.rtype, ip);
        if reply.err.Some? {
          tryAfter := later + reply.retryAfter;
        } else {
          submitted := ip;
        }
      } else {
        submission := None;
      }
      assert outcome == Outcome(State(), submission);
    }

    /** DryRun: the same lookup and record value, shown but never submitted; the record state is untouched. */
    method DryRun(now: Time, net: Network, rand: nat -> nat) returns (shown: Option<IP>)
      requires lookup.Valid()
      modifies lookup
      ensures State() == old(State())
      ensures lookup.Valid() && lookup.retrieved == old(lookup.retrieved)
      ensures TickResult(Outcome(State(), shown), lookup.cache)
           == Show(old(State()), config, old(lookup.cache), old(lookup.retrieved), now, net, rand)
    {
      var rawip := lookup.WebFacingIP(config.rtype, config.iface, now, net, rand);
      if rawip == [] {
        return None;
      }
      var ip := AddIP(MaskIP(rawip, config.maskBits), config.offset);
      shown := Some(ip);
    }
  }

  /** The outcome of one round over all updaters: their states, what each reported, and the shared cache. */
  datatype Round = Round(states: seq<RecordState>, submissions: seq<Option<IP>>, cache: map<IPSource, IP>)

  /** What updater i, in state st with configuration cfg, does when it meets the shared cache c. */
  type Step = (nat, RecordState, UpdaterConfig, map<IPSource, IP>) -> TickResult

  /**
   * The first n updaters of a round, in order, each meeting the cache left
   * by those before it.
   */
  function Fold(configs: seq<UpdaterConfig>, states: seq<RecordState>, n: nat, cache: map<IPSource, IP>, step: Step): (r: Round)
    requires n <= |configs| == |states|
    ensures |r.states| == n && |r.submissions| == n
    decreases n
  {
    if n == 0 then Round([], [], cache)
    else
      var prev := Fold(configs, states, n - 1, cache, step);
      var t := step(n - 1, states[n - 1], configs[n - 1], prev.cache);
      Round(prev.states + [t.outcome.state], prev.submissions + [t.outcome.submission], t.cache)
  }

  /** One more updater: its step meets the cache the others left. */
  lemma FoldStep(configs: seq<UpdaterConfig>, states: seq<RecordState>, i: nat, cache: map<IPSource, IP>, step: Step)
    requires i < |configs| == |states|
    ensures var prev := Fold(configs, states, i, cache, step);
      var t := step(i, states[i], configs[i], prev.cache);
      Fold(configs, states, i + 1, cache, step)
        == Round(prev.states + [t.outcome.state], prev.submissions + [t.outcome.submission], t.cache)
  {
  }

  /** A step that reports nothing leaves the state as it was. */
  ghost predicate KeepsIdleState(step: Step)
  {
    forall i: nat, st: RecordState, cfg: UpdaterConfig, c: map<IPSource, IP> :: step(i, st, cfg, c).outcome.submission.None? ==> step(i, st, cfg, c).outcome.state == st
  }

  /** A step changes no cache entry but that of its updater's own key. */
  ghost predicate WritesOwnKey(step: Step)
  {
    forall i: nat, st: RecordState, cfg: UpdaterConfig, c: map<IPSource, IP>, k: IPSource :: k != IPSource(cfg.rtype, cfg.iface) ==>
      (k in step(i, st, cfg, c).cache <==> k in c) && (k in c ==> step(i, st, cfg, c).cache[k] == c[k])
  }

  lemma {:induction false} FoldKeepsIdleStates(configs: seq<UpdaterConfig>, states: seq<RecordState>, n: nat,
                                               cache: map<IPSource, IP>, step: Step)
    requires n <= |configs| == |states| && KeepsIdleState(step)
    ensures var r := Fold(configs, states, n, cache, step);
      forall k :: 0 <= k < n && r.submissions[k].None? ==> r.states[k] == states[k]
    decreases n
  {
    if n > 0 {
      FoldKeepsIdleStates(configs, states, n - 1, cache, step);
    }
  }

  lemma {:induction false} FoldTouchesOwnKeys(configs: seq<UpdaterConfig>, states: seq<RecordState>, n: nat,
                                              cache: map<IPSource, IP>, step: Step, key: IPSource)
    requires n <= |configs| == |states| && WritesOwnKey(step)
    requires forall k :: 0 <= k < n ==> IPSource(configs[k].rtype, configs[k].iface) != key
    ensures var r := Fold(configs, states, n, cache, step);
      (key in r.cache <==> key in cache) && (key in cache ==> r.cache[key] == cache[key])
    decreases n
  {
    if n > 0 {
      FoldTouchesOwnKeys(configs, states, n - 1, cache, step, key);
      var prev := Fold(configs, states, n - 1, cache, step);
      var t := step(n - 1, states[n - 1], configs[n - 1], prev.cache);
      assert (key in t.cache <==> key in prev.cache) && (key in prev.cache ==> t.cache[key] == prev.cache[key]);
    }
  }

  /**
   * Two rounds over the same configurations whose steps leave the same
   * cache, where whatever the first reports the second reports too, and
   * the second reporting nothing means the first reports nothing.
   */
  ghost predicate Previews(step: Step, shown: Step)
  {
    forall i: nat, st: RecordState, st': RecordState, cfg: UpdaterConfig, c: map<IPSource, IP> :: step(i, st, cfg, c).cache == shown(i, st', cfg, c).cache &&
      (step(i, st, cfg, c).outcome.submission.Some? ==> shown(i, st', cfg, c).outcome.submission == step(i, st, cfg, c).outcome.submission) &&
      (shown(i, st', cfg, c).outcome.submission.None? ==> step(i, st, cfg, c).outcome.submission.None?)
  }

  lemma {:induction false} FoldPreviews(configs: seq<UpdaterConfig>, states: seq<RecordState>, states': seq<RecordState>,
                                        n: nat, cache: map<IPSource, IP>, step: Step, shown: Step)
    requires n <= |configs| == |states| == |states'| && Previews(step, shown)
    ensures var r := Fold(configs, states, n, cache, step);
      var p := Fold(configs, states', n, cache, shown);
      r.cache == p.cache &&
      forall k :: 0 <= k < n ==> (r.submissions[k].Some? ==> p.submissions[k] == r.submissions[k]) &&
                                 (p.submissions[k].None? ==> r.submissions[k].None?)
    decreases n
  {
    if n > 0 {
      FoldPreviews(configs, states, states', n - 1, cache, step, shown);
    }
  }

  /** Updater i of Updaters.Update: its requests go out through net(i), its shuffle draws from rand(i), its provider answers through submit(i). */
  function UpdateStep(retrieved: map<IPSource, Time>, now: Time, later: Time, net: nat -> Network,
                      rand: nat -> nat -> nat, submit: nat -> (RecordType, IP) -> SubmitReply): (step: Step)
    ensures KeepsIdleState(step) && WritesOwnKey(step)
  {
    var step: Step := (i, st, cfg, c) => Tick(st, cfg, c, retrieved, now, later, net(i), rand(i), submit(i));
    assert KeepsIdleState(step) by {
      forall i: nat, st: RecordState, cfg: UpdaterConfig, c: map<IPSource, IP>
        ensures step(i, st, cfg, c).outcome.submission.None? ==> step(i, st, cfg, c).outcome.state == st
      {
        var t := Tick(st, cfg, c, retrieved, now, later, net(i), rand(i), submit(i));
      }
    }
    assert WritesOwnKey(step) by {
      forall i: nat, st: RecordState, cfg: UpdaterConfig, c: map<IPSource, IP>, k: IPSource | k != IPSource(cfg.rtype, cfg.iface)
        ensures (k in step(i, st, cfg, c).cache <==> k in c) && (k in c ==> step(i, st, cfg, c).cache[k] == c[k])
      {
        TickKeepsOtherKeys(st, cfg, c, retrieved, now, later, net(i), rand(i), submit(i), k);
      }
    }
    step
  }

  lemma UpdateStepIsTick(retrieved: map<IPSource, Time>, now: Time, later: Time, net: nat -> Network,
                         rand: nat -> nat -> nat, submit: nat -> (RecordType, IP) -> SubmitReply,
                         i: nat, st: RecordState, cfg: UpdaterConfig, c: map<IPSource, IP>)
    ensures UpdateStep(retrieved, now, later, net, rand, submit)(i, st, cfg, c)
         == Tick(st, cfg, c, retrieved, now, later, net(i), rand(i), submit(i))
  {
  }

  /** Updater i of Updaters.DryRun. */
  function ShowStep(retrieved: map<IPSource, Time>, now: Time, net: nat -> Network, rand: nat -> nat -> nat): (step: Step)
    ensures forall i: nat, st: RecordState, cfg: UpdaterConfig, c: map<IPSource, IP> :: step(i, st, cfg, c).outcome.state == st
  {
    var step: Step := (i, st, cfg, c) => Show(st, cfg, c, retrieved, now, net(i), rand(i));
    assert forall i: nat, st: RecordState, cfg: UpdaterConfig, c: map<IPSource, IP> :: step(i, st, cfg, c).outcome.state == st by {
      forall i: nat, st: RecordState, cfg: UpdaterConfig, c: map<IPSource, IP>
        ensures step(i, st, cfg, c).outcome.state == st
      {
        var t := Show(st, cfg, c, retrieved, now, net(i), rand(i));
      }
    }
    step
  }

  /** One round of Updaters.Update. */
  function Run(configs: seq<UpdaterConfig>, states: seq<RecordState>, cache: map<IPSource, IP>,
               retrieved: map<IPSource, Time>, now: Time, later: Time, net: nat -> Network,
               rand: nat -> nat -> nat, submit: nat -> (RecordType, IP) -> SubmitReply): (r: Round)
    requires |configs| == |states|
    ensures |r.states| == |states| && |r.submissions| == |states|
  {
    Fold(configs, states, |configs|, cache, UpdateStep(retrieved, now, later, net, rand, submit))
  }

  /** An updater that submits nothing in a round keeps its record state. */
  lemma RunKeepsIdleStates(configs: seq<UpdaterConfig>, states: seq<RecordState>, cache: map<IPSource, IP>,
                           retrieved: map<IPSource, Time>, now: Time, later: Time, net: nat -> Network,
                           rand: nat -> nat -> nat, submit: nat -> (RecordType, IP) -> SubmitReply)
    requires |configs| == |states|
    ensures var r := Run(configs, states, cache, retrieved, now, later, net, rand, submit);
      forall k :: 0 <= k < |states| && r.submissions[k].None? ==> r.states[k] == states[k]
  {
    FoldKeepsIdleStates(configs, states, |configs|, cache, UpdateStep(retrieved, now, later, net, rand, submit));
  }

  /** A round changes only cache entries whose key (record type, interface) some updater uses. */
  lemma RunTouchesOwnKeys(configs: seq<UpdaterConfig>, states: seq<RecordState>, cache: map<IPSource, IP>,
                          retrieved: map<IPSource, Time>, now: Time, later: Time, net: nat -> Network,
                          rand: nat -> nat -> nat, submit: nat -> (RecordType, IP) -> SubmitReply, key: IPSource)
    requires |configs| == |states|
    requires forall k :: 0 <= k < |configs| ==> IPSource(configs[k].rtype, configs[k].iface) != key
    ensures var r := Run(configs, states, cache, retrieved, now, later, net, rand, submit);
      (key in r.cache <==> key in cache) && (key in cache ==> r.cache[key] == cache[key])
  {
    FoldTouchesOwnKeys(configs, states, |configs|, cache, UpdateStep(retrieved, now, later, net, rand, submit), key);
  }

  /** One round of Updaters.DryRun: what each updater shows, and the cache left behind. */
  function Preview(configs: seq<UpdaterConfig>, states: seq<RecordState>, cache: map<IPSource, IP>,
                   retrieved: map<IPSource, Time>, now: Time, net: nat -> Network, rand: nat -> nat -> nat): (r: Round)
    requires |configs| == |states|
    ensures |r.submissions| == |states|
  {
    Fold(configs, states, |configs|, cache, ShowStep(retrieved, now, net, rand))
  }

  /**
   * A dry run leaves the cache a real round with the same clock and
   * draws would leave, every value the real round submits is the value the
   * dry run shows for that updater, and an updater whose dry run shows
   * nothing submits nothing.
   */
  lemma PreviewMatchesRun(configs: seq<UpdaterConfig>, states: seq<RecordState>, cache: map<IPSource, IP>,
                          retrieved: map<IPSource, Time>, now: Time, later: Time, net: nat -> Network,
                          rand: nat -> nat -> nat, submit: nat -> (RecordType, IP) -> SubmitReply)
    requires |configs| == |states|
    ensures var r := Run(configs, states, cache, retrieved, now, later, net, rand, submit);
      var p := Preview(configs, states, cache, retrieved, now, net, rand);
      r.cache == p.cache &&
      forall k :: 0 <= k < |states| ==> (r.submissions[k].Some? ==> p.submissions[k] == r.submissions[k]) &&
                                        (p.submissions[k].None? ==> r.submissions[k].None?)
  {
    var step := UpdateStep(retrieved, now, later, net, rand, submit);
    var shown := ShowStep(retrieved, now, net, rand);
    forall i: nat, st: RecordState, st': RecordState, cfg: UpdaterConfig, c: map<IPSource, IP>
      ensures step(i, st, cfg, c).cache == shown(i, st', cfg, c).cache &&
        (step(i, st, cfg, c).outcome.submission.Some? ==> shown(i, st', cfg, c).outcome.submission == step(i, st, cfg, c).outcome.submission) &&
        (shown(i, st', cfg, c).outcome.submission.None? ==> step(i, st, cfg, c).outcome.submission.None?)
    {
      TickShows(st, st', cfg, c, retrieved, now, later, net(i), rand(i), submit(i));
    }
    FoldPreviews(configs, states, states, |configs|, cache, step, shown);
  }

  /** The updaters of one configuration: one shared lookup cache. */
  class Updaters {
    var records: seq<Updater>
    const lookup: IPLookup

    ghost predicate Valid()
      reads this, lookup
    {
      lookup.Valid() &&
      (forall i :: 0 <= i < |records| ==> records[i].lookup == lookup) &&
      (forall i, j :: 0 <= i < j < |records| ==> records[i] != records[j])
    }

    function Configs(): (cs: seq<UpdaterConfig>)
      reads this
      ensures |cs| == |records|
    {
      var rs := records;
      seq(|rs|, i requires 0 <= i < |rs| => rs[i].config)
    }

    function States(): (ss: seq<RecordState>)
      reads this, records
      ensures |ss| == |records|
    {
      var rs := records;
      seq(|rs|, i requires 0 <= i < |rs| reads rs => rs[i].State())
    }

    /**
     * A successfully decoded configuration: a fresh shared lookup and one
     * updater per entry, none having submitted anything.
     */
    constructor (configs: seq<UpdaterConfig>)
      ensures Valid() && Configs() == configs
      ensures forall i :: 0 <= i < |records| ==> records[i].State() == RecordState([], 0)
      ensures lookup.Valid() && lookup.cache == map[]
    {
      var l := new IPLookup();
      var rs: seq<Updater> := [];
      var i := 0;
      while i < |configs|
        invariant 0 <= i <= |configs| && |rs| == i
        invariant forall k :: 0 <= k < i ==> rs[k].lookup == l && rs[k].config == configs[k]
        invariant forall k :: 0 <= k < i ==> rs[k].State() == RecordState([], 0) && fresh(rs[k])
        invariant forall k, j :: 0 <= k < j < i ==> rs[k] != rs[j]
        invariant l.Valid() && l.cache == map[]
      {
        var u := new Updater(configs[i], l);
        rs := rs + [u];
        i := i + 1;
      }
      records := rs;
      lookup := l;
      new;
      assert Configs() == configs;
    }

    /** Updaters.Update: every updater in order, sharing the lookup cache. */
    method Update(now: Time, later: Time, net: nat -> Network, rand: nat -> nat -> nat, submit: nat -> (RecordType, IP) -> SubmitReply)
      returns (submissions: seq<Option<IP>>)
      requires Valid()
      modifies records, lookup
      ensures Valid()
      ensures lookup.retrieved == old(lookup.retrieved)
      ensures var r := Run(old(Configs()), old(States()), old(lookup.cache), old(lookup.retrieved), now, later, net, rand, submit);
        States() == r.states && submissions == r.submissions && lookup.cache == r.cache
    {
      ghost var configs := Configs();
      ghost var states := States();
      ghost var cache0, retrieved := lookup.cache, lookup.retrieved;
      ghost var step := UpdateStep(retrieved, now, later, net, rand, submit);
      ghost var round := Fold(configs, states, 0, cache0, step);
      submissions := [];
      var i := 0;
      while i < |records|
        invariant 0 <= i <= |records|
        invariant lookup.retrieved == retrieved && lookup.Valid()
        invariant round == Fold(configs, states, i, cache0, step)
        invariant forall k :: 0 <= k < i ==> records[k].State() == round.states[k]
        invariant forall k :: i <= k < |records| ==> records[k].State() == states[k]
        invariant submissions == round.submissions && lookup.cache == round.cache
      {
        ghost var prev := round;
        var u := records[i];
        FoldStep(configs, states, i, cache0, step);
        UpdateStepIsTick(retrieved, now, later, net, rand, submit, i, states[i], configs[i], prev.cache);
        var s := u.Update(now, later, net(i), rand(i), submit(i));
        round := Fold(configs, states, i + 1, cache0, step);
        assert round == Round(prev.states + [u.State()], prev.submissions + [s], lookup.cache);
        forall k | 0 <= k < i + 1
          ensures records[k].State() == round.states[k]
        {
          if k < i {
            assert records[k] != u;
          }
        }
        forall k | i + 1 <= k < |records|
          ensures records[k].State() == states[k]
        {
          assert records[k] != u;
        }
        submissions := submissions + [s];
        i := i + 1;
      }
    }

    /** Updaters.DryRun: every updater in order shows its record value; no record state changes. */
    method DryRun(now: Time, net: nat -> Network, rand: nat -> nat -> nat) returns (shown: seq<Option<IP>>)
      requires Valid()
      modifies lookup
      ensures Valid() && States() == old(States())
      ensures lookup.retrieved == old(lookup.retrieved)
      ensures var p := Preview(Configs(), States(), old(lookup.cache), old(lookup.retrieved), now, net, rand);
        shown == p.submissions && lookup.cache == p.cache
    {
      ghost var step := ShowStep(lookup.retrieved, now, net, rand);
      ghost var cache0 := lookup.cache;
      shown := [];
      var i := 0;
      while i < |records|
        invariant 0 <= i <= |records|
        invariant lookup.retrieved == old(lookup.retrieved) && lookup.Valid()
        invariant var p := Fold(Configs(), States(), i, cache0, step);
          shown == p.submissions && lookup.cache == p.cache
      {
        var s := records[i].DryRun(now, net(i), rand(i));
        shown := shown + [s];
        i := i + 1;
      }
    }
  }
}
