/** Base protocol messages: the descriptors the peer machine works on, the bytes the builders emit,
    and the theorem that a received message shows the receiver what the sender described. */
module Messages {
  import opened Bytes
  import opened AvpCodec
  import Header
  import Seqs

  datatype Option<+T> = None | Some(value: T)

  type Ipv4 = s: seq<byte> | |s| == 4 witness [0, 0, 0, 0]

  /** `hostIp` is what `inet_pton` made of the configured address. */
  datatype Config = Config(
    originHost: seq<byte>,
    originRealm: seq<byte>,
    hostIp: Option<Ipv4>,
    vendorId: uint32,
    productName: seq<byte>,
    watchdogIntervalSec: nat,
    applicationIds: seq<uint32>)

  datatype Kind = CER | CEA | DWR | DWA | DPR | DPA

  /** A base protocol message, described by the fields some handler reads (and the disconnect cause),
      or an application message, which is opaque bytes to the peer. */
  datatype Msg =
    | Base(kind: Kind, hbh: uint32, e2e: uint32, host: seq<byte>, realm: seq<byte>, cause: uint32)
    | App(bytes: seq<byte>)

  const CMD_CER: nat := 257
  const CMD_DWR: nat := 280
  const CMD_DPR: nat := 282

  const ORIGIN_HOST: uint32 := 264
  const ORIGIN_REALM: uint32 := 296
  const HOST_IP_ADDRESS: uint32 := 257
  const VENDOR_ID: uint32 := 266
  const PRODUCT_NAME: uint32 := 269
  const DISCONNECT_CAUSE: uint32 := 273
  const AUTH_APP_ID: uint32 := 258
  const DIAMETER_SUCCESS: uint32 := 2001
  const MANDATORY: byte := 0x40

  // ----- the bytes of each message -----

  predicate IsRequestKind(k: Kind) { k == CER || k == DWR || k == DPR }

  function CommandOf(k: Kind): nat {
    match k
    case CER | CEA => CMD_CER
    case DWR | DWA => CMD_DWR
    case DPR | DPA => CMD_DPR
  }

  /** `value.size()` is cast to 32 bits and only that many bytes are inserted. */
  function StringAvp(code: uint32, flags: byte, value: seq<byte>): Avp {
    Avp(code, flags, value[..|value| % TWO_TO_THE_32])
  }

  function Uint32Avp(code: uint32, value: uint32): Avp { Avp(code, MANDATORY, Be32(value)) }

  /** Address family 1 (IPv4), with 0.0.0.0 when the configured address does not parse. */
  function AddressAvp(ip: Option<Ipv4>): Avp {
    Avp(HOST_IP_ADDRESS, MANDATORY, [0, 1] + match ip case Some(a) => a case None => [0, 0, 0, 0])
  }

  function AuthAppAvps(ids: seq<uint32>): seq<Avp> {
    if ids == [] then []
    else
      var n := |ids| - 1;
      AuthAppAvps(ids[..n]) + if ids[n] == 0 then [] else [Uint32Avp(AUTH_APP_ID, ids[n])]
  }

  function OriginAvps(host: seq<byte>, realm: seq<byte>): seq<Avp> {
    [StringAvp(ORIGIN_HOST, MANDATORY, host), StringAvp(ORIGIN_REALM, MANDATORY, realm)]
  }

  function CapabilityAvps(cfg: Config): seq<Avp> {
    [AddressAvp(cfg.hostIp), Uint32Avp(VENDOR_ID, cfg.vendorId), StringAvp(PRODUCT_NAME, 0, cfg.productName)]
    + AuthAppAvps(cfg.applicationIds)
  }

  function TailAvps(cfg: Config, m: Msg): seq<Avp>
    requires m.Base?
  {
    match m.kind
    case CER | CEA => CapabilityAvps(cfg)
    case DPR => [Uint32Avp(DISCONNECT_CAUSE, m.cause)]
    case _ => []
  }

  function LeadAvps(k: Kind): seq<Avp> {
    if IsRequestKind(k) then [] else [Uint32Avp(RESULT_CODE, DIAMETER_SUCCESS)]
  }

  function AvpsOf(cfg: Config, m: Msg): seq<Avp>
    requires m.Base?
  {
    LeadAvps(m.kind) + (OriginAvps(m.host, m.realm) + TailAvps(cfg, m))
  }

  function EncodeMessage(flags: byte, code: nat, hbh: uint32, e2e: uint32, avps: seq<Avp>): (r: Header.Message) {
    Header.Encode(Header.SIZE + |EncodeAvps(avps)|, flags, code, 0, hbh, e2e) + EncodeAvps(avps)
  }

  function Flags(k: Kind): byte { if IsRequestKind(k) then Header.REQUEST_FLAG else 0 }

  /** What a peer configured with `cfg` writes for `m`. */
  function Encode(cfg: Config, m: Msg): seq<byte> {
    match m
    case Base(k, hbh, e2e, _, _, _) => EncodeMessage(Flags(k), CommandOf(k), hbh, e2e, AvpsOf(cfg, m))
    case App(bytes) => bytes
  }

  /** A message a peer builds carries its own configured origin. */
  function Own(cfg: Config, k: Kind, hbh: uint32, e2e: uint32, cause: uint32): Msg {
    Base(k, hbh, e2e, cfg.originHost, cfg.originRealm, cause)
  }

  // ----- what a receiver makes of bytes -----

  /** The routing of `onMessage`: command code, then request flag. */
  function KindOf(msg: Header.Message): Option<Kind> {
    var request := Header.IsRequest(msg);
    var code := Header.CommandCode(msg);
    if code == CMD_CER then Some(if request then CER else CEA)
    else if code == CMD_DWR then Some(if request then DWR else DWA)
    else if code == CMD_DPR then Some(if request then DPR else DPA)
    else None
  }

  function CauseIn(msg: Header.Message): uint32 {
    var d := StringAt(msg, Header.SIZE, DISCONNECT_CAUSE);
    if |d| == 4 then U32(d, 0) else 0
  }

  function Decode(msg: Header.Message): Msg {
    match KindOf(msg)
    case Some(k) =>
      Base(k, Header.HopByHop(msg), Header.EndToEnd(msg),
           StringAt(msg, Header.SIZE, ORIGIN_HOST), StringAt(msg, Header.SIZE, ORIGIN_REALM),
           if k == DPR then CauseIn(msg) else 0)
    case None => App(msg)
  }

  /** The strings and the whole message fit the 24-bit length fields; application messages are messages of
      another command. */
  predicate Fits(cfg: Config, m: Msg) {
    match m
    case Base(k, _, _, host, realm, cause) =>
      && |host| < TWO_TO_THE_24 && |realm| < TWO_TO_THE_24
      && |Encode(cfg, m)| < TWO_TO_THE_24
      && (k != DPR ==> cause == 0)
    case App(bytes) => |bytes| >= Header.SIZE && KindOf(bytes) == None
  }

  lemma AvpsFit(avps: seq<Avp>)
    requires |EncodeAvps(avps)| < TWO_TO_THE_24
    ensures forall a :: a in avps ==> AvpCodec.Fits(a)
  {
    hide EncodeAvp, RoundUp;
    if avps == [] {
    } else {
      PaddingsAgree(8 + |avps[0].data|);
      AvpsFit(avps[1..]);
    }
  }

  lemma {:induction false} FirstPayloadSkips(a: seq<Avp>, b: seq<Avp>, code: uint32)
    requires forall x :: x in a ==> WellFormed(x) && x.code != code
    ensures FirstPayload(a + b, code) == FirstPayload(b, code)
  {
    hide WellFormed;
    if a == [] {
      assert a + b == b;
    } else {
      Seqs.Uncons(a, b);
      FirstPayloadSkips(a[1..], b, code);
    }
  }

  lemma FirstPayloadHead(a: Avp, rest: seq<Avp>)
    requires WellFormed(a)
    ensures FirstPayload([a] + rest, a.code) == Payload(a)
  {
  }

  /** Every string lookup in an encoded message is a lookup in its AVP list. */
  lemma LookupInMessage(flags: byte, cmd: nat, hbh: uint32, e2e: uint32, avps: seq<Avp>, code: uint32)
    requires |EncodeMessage(flags, cmd, hbh, e2e, avps)| < TWO_TO_THE_24
    ensures StringAt(EncodeMessage(flags, cmd, hbh, e2e, avps), Header.SIZE, code) == FirstPayload(avps, code)
  {
    hide Header.Encode, EncodeAvps, StringAt, FirstPayload;
    AvpsFit(avps);
    StringRoundTrip(Header.Encode(Header.SIZE + |EncodeAvps(avps)|, flags, cmd, 0, hbh, e2e), avps, code);
  }

  lemma ShortStringAvp(code: uint32, value: seq<byte>)
    requires |value| < TWO_TO_THE_24 && AvpCodec.Fits(StringAvp(code, MANDATORY, value))
    ensures var a := StringAvp(code, MANDATORY, value); WellFormed(a) && Payload(a) == value && a.code == code
  {
  }

  lemma OriginLookups(lead: seq<Avp>, host: seq<byte>, realm: seq<byte>, tail: seq<Avp>)
    requires |host| < TWO_TO_THE_24 && |realm| < TWO_TO_THE_24
    requires forall a :: a in lead + (OriginAvps(host, realm) + tail) ==> AvpCodec.Fits(a)
    requires lead == [] || lead == [Uint32Avp(RESULT_CODE, DIAMETER_SUCCESS)]
    ensures FirstPayload(lead + (OriginAvps(host, realm) + tail), ORIGIN_HOST) == host
    ensures FirstPayload(lead + (OriginAvps(host, realm) + tail), ORIGIN_REALM) == realm
    ensures forall code | code !in {ORIGIN_HOST, ORIGIN_REALM, RESULT_CODE} ::
              FirstPayload(lead + (OriginAvps(host, realm) + tail), code) == FirstPayload(tail, code)
  {
    hide FirstPayload;
    var h, r := StringAvp(ORIGIN_HOST, MANDATORY, host), StringAvp(ORIGIN_REALM, MANDATORY, realm);
    var all := lead + (OriginAvps(host, realm) + tail);
    assert h == all[|lead|] && r == all[|lead| + 1];
    ShortStringAvp(ORIGIN_HOST, host);
    ShortStringAvp(ORIGIN_REALM, realm);
    assert all == lead + ([h] + ([r] + tail));
    FirstPayloadSkips(lead, [h] + ([r] + tail), ORIGIN_HOST);
    FirstPayloadHead(h, [r] + tail);
    assert all == (lead + [h]) + ([r] + tail);
    FirstPayloadSkips(lead + [h], [r] + tail, ORIGIN_REALM);
    FirstPayloadHead(r, tail);
    forall code | code !in {ORIGIN_HOST, ORIGIN_REALM, RESULT_CODE}
      ensures FirstPayload(all, code) == FirstPayload(tail, code)
    {
      assert all == (lead + [h, r]) + tail;
      FirstPayloadSkips(lead + [h, r], tail, code);
    }
  }

  lemma KindReadsBack(k: Kind, hbh: uint32, e2e: uint32, avps: seq<Avp>)
    ensures var msg := EncodeMessage(Flags(k), CommandOf(k), hbh, e2e, avps);
            && KindOf(msg) == Some(k) && Header.HopByHop(msg) == hbh && Header.EndToEnd(msg) == e2e
            && Header.Length(msg) == |msg| % TWO_TO_THE_24
  {
    hide Header.Encode, EncodeAvps, Header.CommandCode, Header.HopByHop, Header.EndToEnd, Header.Length;
    Header.EncodeReads(Header.SIZE + |EncodeAvps(avps)|, Flags(k), CommandOf(k), 0, hbh, e2e, EncodeAvps(avps));
  }

  /** What a handler sees of any base message, built by this library or not. */
  lemma DecodedFields(msg: Header.Message)
    requires KindOf(msg).Some?
    ensures var m := Decode(msg);
            && m.Base? && m.hbh == Number(msg[12..16]) && m.e2e == Number(msg[16..20])
            && m.host == StringAt(msg, 20, 264) && m.realm == StringAt(msg, 20, 296)
  {
    hide StringAt, KindOf, CauseIn, Header.HopByHop, Header.EndToEnd, Number;
    Header.Layout(msg);
  }

  /** The command bytes of CER and CEA, of DWR and DWA, of DPR and DPA. */
  predicate BaseCommandBytes(a: byte, b: byte, c: byte) { a == 0 && b == 1 && (c == 0x01 || c == 0x18 || c == 0x1A) }

  /** The routing, on the bytes of the header: three commands are the base protocol's, whatever the other flags, and
      the top bit of the flags tells requests from answers. */
  lemma RoutingOnBytes(msg: Header.Message)
    ensures KindOf(msg) == None <==> !BaseCommandBytes(msg[5], msg[6], msg[7])
    ensures KindOf(msg).Some? ==>
              var request := msg[4] / 0x80 == 1;
              KindOf(msg).value == if msg[7] == 0x01 then (if request then CER else CEA)
                                   else if msg[7] == 0x18 then (if request then DWR else DWA)
                                   else (if request then DPR else DPA)
  {
    Header.RequestBit(msg);
  }

  lemma CauseReadsBack(cause: uint32)
    requires AvpCodec.Fits(Uint32Avp(DISCONNECT_CAUSE, cause))
    ensures FirstPayload([Uint32Avp(DISCONNECT_CAUSE, cause)], DISCONNECT_CAUSE) == Be32(cause)
    ensures U32(Be32(cause), 0) == cause
  {
    U32OfBe32(Be32(cause), 0, cause);
  }

  /** What the sender described is what the receiver's accessors and walkers see. */
  lemma CodecRoundTrip(cfg: Config, m: Msg)
    requires Fits(cfg, m)
    ensures |Encode(cfg, m)| >= Header.SIZE && Decode(Encode(cfg, m)) == m
  {
    hide StringAt, EncodeMessage, FirstPayload, KindOf, EncodeAvps, OriginAvps, TailAvps, LeadAvps, U32, Be32,
      Header.HopByHop, Header.EndToEnd, Header.Length;
    if m.Base? {
      BaseRoundTrip(cfg, m);
    }
  }

  lemma BaseRoundTrip(cfg: Config, m: Msg)
    requires m.Base? && Fits(cfg, m)
    ensures Decode(Encode(cfg, m)) == m
  {
    hide StringAt, EncodeMessage, FirstPayload, KindOf, EncodeAvps, OriginAvps, CapabilityAvps, Uint32Avp, U32, Be32,
      Header.HopByHop, Header.EndToEnd, Header.Length;
    var avps := AvpsOf(cfg, m);
    var flags, code := Flags(m.kind), CommandOf(m.kind);
    KindReadsBack(m.kind, m.hbh, m.e2e, avps);
    AvpsFitMessage(flags, code, m.hbh, m.e2e, avps);
    OriginLookups(LeadAvps(m.kind), m.host, m.realm, TailAvps(cfg, m));
    LookupInMessage(flags, code, m.hbh, m.e2e, avps, ORIGIN_HOST);
    LookupInMessage(flags, code, m.hbh, m.e2e, avps, ORIGIN_REALM);
    if m.kind == DPR {
      LookupInMessage(flags, code, m.hbh, m.e2e, avps, DISCONNECT_CAUSE);
      assert TailAvps(cfg, m) == [Uint32Avp(DISCONNECT_CAUSE, m.cause)];
      CauseReadsBack(m.cause);
    }
  }

  lemma AvpsFitMessage(flags: byte, code: nat, hbh: uint32, e2e: uint32, avps: seq<Avp>)
    requires |EncodeMessage(flags, code, hbh, e2e, avps)| < TWO_TO_THE_24
    ensures forall a :: a in avps ==> AvpCodec.Fits(a)
  {
    hide EncodeAvps;
    AvpsFit(avps);
  }

  /** The bytes of a built message, by the numbers of RFC 6733: version, flags, command, application, identifiers,
      and the attribute-value pairs a receiver looks for. An answer reports DIAMETER_SUCCESS. */
  lemma WireFormat(cfg: Config, m: Msg)
    requires m.Base? && Fits(cfg, m)
    ensures var msg := Encode(cfg, m);
            && |msg| >= 20 && msg[0] == 1
            && msg[4] == (if m.kind == CER || m.kind == DWR || m.kind == DPR then 0x80 else 0)
            && msg[5..8] == [0, 1, if m.kind == CER || m.kind == CEA then 0x01
                                   else if m.kind == DWR || m.kind == DWA then 0x18 else 0x1A]
            && msg[8..12] == [0, 0, 0, 0]
            && U24(msg, 1) == |msg| && U32(msg, 12) == m.hbh && U32(msg, 16) == m.e2e
            && StringAt(msg, 20, 264) == m.host && StringAt(msg, 20, 296) == m.realm
            && (m.kind == CEA || m.kind == DWA || m.kind == DPA ==> ResultCodeAt(msg, 20) == 2001)
  {
    hide StringAt, FirstPayload, EncodeAvps, OriginAvps, TailAvps, ResultCodeAt, Uint32Avp, U24, U32, Header.Encode;
    var avps := AvpsOf(cfg, m);
    HeaderBytes(Header.SIZE + |EncodeAvps(avps)|, Flags(m.kind), CommandOf(m.kind), m.hbh, m.e2e, EncodeAvps(avps));
    AvpsFitMessage(Flags(m.kind), CommandOf(m.kind), m.hbh, m.e2e, avps);
    OriginLookups(LeadAvps(m.kind), m.host, m.realm, TailAvps(cfg, m));
    LookupInMessage(Flags(m.kind), CommandOf(m.kind), m.hbh, m.e2e, avps, ORIGIN_HOST);
    LookupInMessage(Flags(m.kind), CommandOf(m.kind), m.hbh, m.e2e, avps, ORIGIN_REALM);
    if !IsRequestKind(m.kind) {
      var lead := Header.Encode(Header.SIZE + |EncodeAvps(avps)|, Flags(m.kind), CommandOf(m.kind), 0, m.hbh, m.e2e);
      SuccessIsRead(lead, OriginAvps(m.host, m.realm) + TailAvps(cfg, m), avps);
    }
  }

  lemma HeaderBytes(length: nat, flags: byte, code: nat, hbh: uint32, e2e: uint32, rest: seq<byte>)
    requires length < TWO_TO_THE_24 && code < 0x200
    ensures var msg := Header.Encode(length, flags, code, 0, hbh, e2e) + rest;
            && msg[0] == 1 && msg[4] == flags && msg[5..8] == [0, code / 0x100, code % 0x100]
            && msg[8..12] == [0, 0, 0, 0]
            && U24(msg, 1) == length && U32(msg, 12) == hbh && U32(msg, 16) == e2e
  {
    hide U24, U32;
    Header.EncodeReads(length, flags, code, 0, hbh, e2e, rest);
    assert Header.Length(Header.Encode(length, flags, code, 0, hbh, e2e) + rest) == length;
    assert Be24(code) == [0, code / 0x100, code % 0x100];
    assert Be32(0) == [0, 0, 0, 0];
  }

  lemma SuccessIsRead(header: Header.Message, rest: seq<Avp>, avps: seq<Avp>)
    requires |header| == 20 && avps == LeadAvps(CEA) + rest
    requires forall a :: a in avps ==> AvpCodec.Fits(a)
    ensures ResultCodeAt(header + EncodeAvps(avps), 20) == 2001
  {
    hide ResultCodeAt, EncodeAvps, EncodeAvp, Be32, U32, CodeIn;
    var success := Uint32Avp(RESULT_CODE, DIAMETER_SUCCESS);
    assert avps[0] == success;
    assert success.data[0..] == success.data;
    CodeInIsPayload(success);
    U32OfBe32(success.data, 0, DIAMETER_SUCCESS);
    ResultCodeRoundTrip(header, avps);
  }

  /** The length field of a written base message is its size, so the stream reader frames it. */
  lemma EncodedIsFramed(cfg: Config, m: Msg)
    requires m.Base? && Fits(cfg, m)
    ensures var msg := Encode(cfg, m); Header.SIZE <= |msg| < TWO_TO_THE_24 && Header.Length(msg) == |msg|
  {
    hide EncodeMessage, AvpsOf, Header.Length;
    KindReadsBack(m.kind, m.hbh, m.e2e, AvpsOf(cfg, m));
  }

  /** The capabilities a peer advertises: a receiver's lookups find the configured address, vendor and product. */
  lemma CapabilitiesReadBack(cfg: Config, m: Msg)
    requires m.Base? && (m.kind == CER || m.kind == CEA) && Fits(cfg, m) && |cfg.productName| < TWO_TO_THE_24
    ensures var msg := Encode(cfg, m);
            && StringAt(msg, Header.SIZE, HOST_IP_ADDRESS)
               == (if cfg.hostIp.None? then [0, 1, 0, 0, 0, 0]
                   else [0, 1, cfg.hostIp.value[0], cfg.hostIp.value[1], cfg.hostIp.value[2], cfg.hostIp.value[3]])
            && StringAt(msg, Header.SIZE, VENDOR_ID) == Be32(cfg.vendorId)
            && StringAt(msg, Header.SIZE, PRODUCT_NAME) == cfg.productName
            && StringAt(msg, Header.SIZE, AUTH_APP_ID) == FirstPayload(AuthAppAvps(cfg.applicationIds), AUTH_APP_ID)
  {
    hide StringAt, EncodeMessage, FirstPayload, EncodeAvps, OriginAvps, CapabilityAvps, Uint32Avp, AddressAvp, Be32,
      AuthAppAvps;
    var avps := AvpsOf(cfg, m);
    var flags, code := Flags(m.kind), CommandOf(m.kind);
    AvpsFitMessage(flags, code, m.hbh, m.e2e, avps);
    OriginLookups(LeadAvps(m.kind), m.host, m.realm, TailAvps(cfg, m));
    LookupInMessage(flags, code, m.hbh, m.e2e, avps, HOST_IP_ADDRESS);
    LookupInMessage(flags, code, m.hbh, m.e2e, avps, VENDOR_ID);
    LookupInMessage(flags, code, m.hbh, m.e2e, avps, PRODUCT_NAME);
    LookupInMessage(flags, code, m.hbh, m.e2e, avps, AUTH_APP_ID);
    forall a | a in CapabilityAvps(cfg)
      ensures AvpCodec.Fits(a)
    {
      assert a in TailAvps(cfg, m) && a in avps;
    }
    CapabilityLookups(cfg);
    SixBytes(cfg.hostIp);
  }

  lemma SixBytes(ip: Option<Ipv4>)
    ensures AddressAvp(ip).data == if ip.None? then [0, 1, 0, 0, 0, 0]
                                   else [0, 1, ip.value[0], ip.value[1], ip.value[2], ip.value[3]]
  {
  }

  lemma CapabilityLookups(cfg: Config)
    requires forall a :: a in CapabilityAvps(cfg) ==> AvpCodec.Fits(a)
    requires |cfg.productName| < TWO_TO_THE_24
    ensures var avps := CapabilityAvps(cfg);
            && FirstPayload(avps, HOST_IP_ADDRESS) == AddressAvp(cfg.hostIp).data
            && FirstPayload(avps, VENDOR_ID) == Be32(cfg.vendorId)
            && FirstPayload(avps, PRODUCT_NAME) == cfg.productName
            && FirstPayload(avps, AUTH_APP_ID) == FirstPayload(AuthAppAvps(cfg.applicationIds), AUTH_APP_ID)
  {
    hide FirstPayload, Be32, AuthAppAvps, AddressAvp, Uint32Avp, StringAvp, WellFormed;
    var product := StringAvp(PRODUCT_NAME, 0, cfg.productName);
    assert product == CapabilityAvps(cfg)[2];
    FixedCapabilities(cfg);
    LookupsInThree(AddressAvp(cfg.hostIp), Uint32Avp(VENDOR_ID, cfg.vendorId), product,
                   AuthAppAvps(cfg.applicationIds), AUTH_APP_ID);
  }

  lemma FirstPayloadCons(a: Avp, rest: seq<Avp>, code: uint32)
    requires WellFormed(a)
    ensures FirstPayload([a] + rest, code) == if a.code == code then Payload(a) else FirstPayload(rest, code)
  {
    hide WellFormed, Payload;
    assert ([a] + rest)[1..] == rest;
  }

  lemma LookupsInThree(a: Avp, b: Avp, c: Avp, rest: seq<Avp>, other: uint32)
    requires WellFormed(a) && WellFormed(b) && WellFormed(c)
    requires a.code != b.code && a.code != c.code && b.code != c.code && other !in {a.code, b.code, c.code}
    ensures FirstPayload([a, b, c] + rest, a.code) == Payload(a)
    ensures FirstPayload([a, b, c] + rest, b.code) == Payload(b)
    ensures FirstPayload([a, b, c] + rest, c.code) == Payload(c)
    ensures FirstPayload([a, b, c] + rest, other) == FirstPayload(rest, other)
  {
    hide FirstPayload, WellFormed, Payload;
    assert [a, b, c] + rest == [a] + ([b] + ([c] + rest));
    forall code
      ensures FirstPayload([a, b, c] + rest, code)
              == if a.code == code then Payload(a) else if b.code == code then Payload(b)
                 else if c.code == code then Payload(c) else FirstPayload(rest, code)
    {
      FirstPayloadCons(a, [b] + ([c] + rest), code);
      FirstPayloadCons(b, [c] + rest, code);
      FirstPayloadCons(c, rest, code);
    }
  }

  lemma FixedCapabilities(cfg: Config)
    requires |cfg.productName| < TWO_TO_THE_24
    requires AvpCodec.Fits(StringAvp(PRODUCT_NAME, 0, cfg.productName))
    ensures var a, v := AddressAvp(cfg.hostIp), Uint32Avp(VENDOR_ID, cfg.vendorId);
            var p := StringAvp(PRODUCT_NAME, 0, cfg.productName);
            && WellFormed(a) && a.code == HOST_IP_ADDRESS && Payload(a) == a.data
            && WellFormed(v) && v.code == VENDOR_ID && Payload(v) == Be32(cfg.vendorId)
            && WellFormed(p) && p.code == PRODUCT_NAME && Payload(p) == cfg.productName
  {
    hide Be32;
  }

  /** The attribute-value pairs of every built message, by the numbers and flags of RFC 6733 and in order. */
  lemma BuiltAvps(cfg: Config, m: Msg)
    requires m.Base? && |m.host| < TWO_TO_THE_32 && |m.realm| < TWO_TO_THE_32 && |cfg.productName| < TWO_TO_THE_32
    ensures var success := [Avp(268, 0x40, Be32(2001))];
            var origin := [Avp(264, 0x40, m.host), Avp(296, 0x40, m.realm)];
            var ip := if cfg.hostIp.None? then [0, 0, 0, 0] else cfg.hostIp.value;
            var capabilities := [Avp(257, 0x40, [0, 1] + ip), Avp(266, 0x40, Be32(cfg.vendorId)),
                                 Avp(269, 0, cfg.productName)] + AuthAppAvps(cfg.applicationIds);
            AvpsOf(cfg, m) == match m.kind
                              case CER => origin + capabilities
                              case CEA => success + (origin + capabilities)
                              case DWR => origin
                              case DWA => success + origin
                              case DPR => origin + [Avp(273, 0x40, Be32(m.cause))]
                              case DPA => success + origin
  {
    hide Be32;
    assert m.host[..|m.host|] == m.host && m.realm[..|m.realm|] == m.realm;
    assert cfg.productName[..|cfg.productName|] == cfg.productName;
    assert OriginAvps(m.host, m.realm) == [Avp(264, 0x40, m.host), Avp(296, 0x40, m.realm)];
  }

  function NonZero(ids: seq<uint32>): seq<uint32> {
    if ids == [] then [] else NonZero(ids[..|ids| - 1]) + if ids[|ids| - 1] == 0 then [] else [ids[|ids| - 1]]
  }

  /** Every application id but 0 is advertised, in the configured order. */
  lemma {:induction false} AdvertisedIds(ids: seq<uint32>)
    ensures |AuthAppAvps(ids)| == |NonZero(ids)|
    ensures forall i :: 0 <= i < |NonZero(ids)| ==>
              AuthAppAvps(ids)[i] == Avp(AUTH_APP_ID, MANDATORY, Be32(NonZero(ids)[i])) && NonZero(ids)[i] != 0
  {
    if ids == [] {
    } else {
      hide Be32;
      AdvertisedIds(ids[..|ids| - 1]);
    }
  }
}
