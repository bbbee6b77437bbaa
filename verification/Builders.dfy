/** The message builders: bytes pushed one after the other into a growing buffer. */
module Builders {
  import opened Bytes
  import opened AvpCodec
  import opened Messages
  import Header
  import Seqs

  /** The buffer a builder fills: 20 header bytes, then the encodings of `avps`. */
  class MessageBuffer {
    var bytes: seq<byte>
    ghost var head: seq<byte>
    ghost var avps: seq<Avp>

    ghost predicate Valid()
      reads this
    {
      |head| == Header.SIZE && bytes == head + EncodeAvps(avps)
    }

    /** An empty buffer with the header written; the length bytes stay 0 until `FixMessageLength`. */
    constructor (flags: byte, code: nat, appId: uint32, hbh: uint32, e2e: uint32)
      requires code < TWO_TO_THE_24
      ensures Valid() && avps == [] && head == Header.Encode(0, flags, code, appId, hbh, e2e)
    {
      bytes := [1];
      bytes := bytes + Be24(0);
      bytes := bytes + [flags];
      bytes := bytes + Be24(code);
      bytes := bytes + Be32(appId);
      bytes := bytes + Be32(hbh);
      bytes := bytes + Be32(e2e);
      head := bytes;
      avps := [];
    }

    /** `data` is at most 2^32 - 1 bytes: its length is a 32-bit parameter. */
    method AppendAvp(code: uint32, flags: byte, data: seq<byte>)
      requires Valid() && |data| < TWO_TO_THE_32
      modifies this
      ensures Valid() && head == old(head) && avps == old(avps) + [Avp(code, flags, data)]
    {
      hide Be32, Be24, EncodeAvps, EncodeAvp, Padding, Zeros;
      ghost var a := Avp(code, flags, data);
      var avpLen := (8 + |data|) % TWO_TO_THE_32;
      LengthWraps(8 + |data|);
      bytes := bytes + Be32(code);
      bytes := bytes + [flags];
      bytes := bytes + Be24(avpLen);
      bytes := bytes + data;
      var pad := Padding(avpLen);
      ghost var unpadded := bytes;
      var i := 0;
      while i < pad
        invariant 0 <= i <= pad
        invariant bytes == unpadded + Zeros(i)
        invariant head == old(head) && avps == old(avps)
      {
        ZerosGrow(unpadded, i);
        bytes := bytes + [0];
        i := i + 1;
      }
      avps := avps + [a];
      PushedAvp(old(bytes), a);
      AppendEncoded(head, old(avps), a);
    }

    method AppendStringAvp(code: uint32, flags: byte, value: seq<byte>)
      requires Valid()
      modifies this
      ensures Valid() && head == old(head) && avps == old(avps) + [StringAvp(code, flags, value)]
    {
      hide EncodeAvps;
      AppendAvp(code, flags, value[..|value| % TWO_TO_THE_32]);
    }

    method AppendUint32Avp(code: uint32, value: uint32)
      requires Valid()
      modifies this
      ensures Valid() && head == old(head) && avps == old(avps) + [Uint32Avp(code, value)]
    {
      hide EncodeAvps;
      AppendAvp(code, MANDATORY, Be32(value));
    }

    method AppendAddressAvp(ip: Option<Ipv4>)
      requires Valid()
      modifies this
      ensures Valid() && head == old(head) && avps == old(avps) + [AddressAvp(ip)]
    {
      hide EncodeAvps;
      match ip {
        case Some(address) =>
          AppendAvp(HOST_IP_ADDRESS, MANDATORY, [0, 1] + address);
        case None =>
          AppendAvp(HOST_IP_ADDRESS, MANDATORY, [0, 1] + [0, 0, 0, 0]);
      }
    }

    /** Overwrites the three length bytes with the buffer's size. */
    method FixMessageLength(ghost flags: byte, ghost code: nat, ghost hbh: uint32, ghost e2e: uint32)
      requires Valid() && head == Header.Encode(0, flags, code, 0, hbh, e2e)
      modifies this
      ensures Valid() && avps == old(avps) && bytes == EncodeMessage(flags, code, hbh, e2e, avps)
    {
      var len := |bytes|;
      bytes := bytes[..1] + [len / 0x1_0000 % 0x100] + bytes[2..];
      bytes := bytes[..2] + [len / 0x100 % 0x100] + bytes[3..];
      bytes := bytes[..3] + [len % 0x100] + bytes[4..];
      head := bytes[..Header.SIZE];
      LengthFilled(old(bytes), bytes, flags, code, hbh, e2e, EncodeAvps(avps));
    }
  }

  /** The 32-bit wrap of `8 + dataLen` shows neither in the length bytes nor in the padding. */
  lemma LengthWraps(len: nat)
    ensures Be24(len % TWO_TO_THE_32) == Be24(len)
    ensures Padding(len % TWO_TO_THE_32) == Padding(len)
  {
    hide Padding;
    var q, r := len / TWO_TO_THE_32, len % TWO_TO_THE_32;
    WrappedBytes(q, r);
    WrappedPadding(q, r);
  }

  lemma WrappedBytes(q: nat, r: nat)
    ensures var len := q * TWO_TO_THE_32 + r;
            && len / 0x1_0000 % 0x100 == r / 0x1_0000 % 0x100
            && len / 0x100 % 0x100 == r / 0x100 % 0x100
            && len % 0x100 == r % 0x100
  {
    var len := q * TWO_TO_THE_32 + r;
    assert len / 0x1_0000 % 0x100 == r / 0x1_0000 % 0x100 by {
      assert len / 0x1_0000 == q * 0x1_0000 + r / 0x1_0000;
      LowByte(q * 0x100, r / 0x1_0000);
    }
    assert len / 0x100 % 0x100 == r / 0x100 % 0x100 by {
      assert len / 0x100 == q * 0x100_0000 + r / 0x100;
      LowByte(q * 0x1_0000, r / 0x100);
    }
    LowByte(q * 0x100_0000, r);
  }

  lemma LowByte(high: nat, low: nat)
    ensures (high * 0x100 + low) % 0x100 == low % 0x100
  {
  }

  lemma WrappedPadding(q: nat, r: nat)
    ensures Padding(q * TWO_TO_THE_32 + r) == Padding(r)
  {
    assert (q * TWO_TO_THE_32 + r) % 4 == r % 4;
  }

  lemma ZerosGrow(s: seq<byte>, n: nat)
    ensures s + Zeros(n + 1) == s + Zeros(n) + [0]
    ensures s + Zeros(0) == s
  {
  }

  lemma PushedAvp(before: seq<byte>, a: Avp)
    ensures before + Be32(a.code) + [a.flags] + Be24(8 + |a.data|) + a.data + Zeros(Padding(8 + |a.data|))
            == before + EncodeAvp(a)
  {
    hide Be32, Be24, Padding, Zeros;
  }

  lemma AppendEncoded(head: seq<byte>, avps: seq<Avp>, a: Avp)
    ensures head + EncodeAvps(avps) + EncodeAvp(a) == head + EncodeAvps(avps + [a])
  {
    hide EncodeAvp;
    EncodeAvpsConcat(avps, [a]);
    assert EncodeAvps([a]) == EncodeAvp(a) + EncodeAvps([a][1..]) == EncodeAvp(a);
    Seqs.Assoc(head, EncodeAvps(avps), EncodeAvp(a));
  }

  lemma LengthFilled(before: seq<byte>, after: seq<byte>, flags: byte, code: nat, hbh: uint32, e2e: uint32,
                     body: seq<byte>)
    requires before == Header.Encode(0, flags, code, 0, hbh, e2e) + body
    requires |after| == |before| && after[0] == before[0] && after[4..] == before[4..]
    requires after[1..4] == Be24(|before|)
    ensures after == Header.Encode(Header.SIZE + |body|, flags, code, 0, hbh, e2e) + body
    ensures after[..Header.SIZE] + body == after
  {
  }

  method AppendOrigin(buf: MessageBuffer, cfg: Config)
    requires buf.Valid()
    modifies buf
    ensures buf.Valid() && buf.head == old(buf.head)
    ensures buf.avps == old(buf.avps) + OriginAvps(cfg.originHost, cfg.originRealm)
  {
    buf.AppendStringAvp(ORIGIN_HOST, MANDATORY, cfg.originHost);
    buf.AppendStringAvp(ORIGIN_REALM, MANDATORY, cfg.originRealm);
  }

  /** The capability AVPs; application id 0 is not advertised. */
  method AppendCapabilities(buf: MessageBuffer, cfg: Config)
    requires buf.Valid()
    modifies buf
    ensures buf.Valid() && buf.head == old(buf.head)
    ensures buf.avps == old(buf.avps) + CapabilityAvps(cfg)
  {
    hide StringAvp, Uint32Avp, AddressAvp, EncodeAvps;
    ghost var before := buf.avps;
    buf.AppendAddressAvp(cfg.hostIp);
    buf.AppendUint32Avp(VENDOR_ID, cfg.vendorId);
    buf.AppendStringAvp(PRODUCT_NAME, 0, cfg.productName);
    ghost var fixed := buf.avps;
    var i := 0;
    while i < |cfg.applicationIds|
      invariant 0 <= i <= |cfg.applicationIds|
      invariant buf.Valid() && buf.head == old(buf.head)
      invariant buf.avps == fixed + AuthAppAvps(cfg.applicationIds[..i])
    {
      var appId := cfg.applicationIds[i];
      Seqs.TakeOneMore(cfg.applicationIds, i);
      if appId != 0 {
        buf.AppendUint32Avp(AUTH_APP_ID, appId);
      }
      i := i + 1;
    }
    assert cfg.applicationIds[..i] == cfg.applicationIds;
    ghost var three := [AddressAvp(cfg.hostIp), Uint32Avp(VENDOR_ID, cfg.vendorId),
                        StringAvp(PRODUCT_NAME, 0, cfg.productName)];
    assert fixed == before + three;
    Seqs.Assoc(before, three, AuthAppAvps(cfg.applicationIds));
  }

  method BuildCER(cfg: Config, hbh: uint32, e2e: uint32) returns (msg: seq<byte>)
    ensures msg == Encode(cfg, Own(cfg, CER, hbh, e2e, 0))
  {
    hide EncodeAvps, OriginAvps, CapabilityAvps, EncodeMessage, Header.Encode;
    var buf := new MessageBuffer(Header.REQUEST_FLAG, CMD_CER, 0, hbh, e2e);
    AppendOrigin(buf, cfg);
    AppendCapabilities(buf, cfg);
    buf.FixMessageLength(Header.REQUEST_FLAG, CMD_CER, hbh, e2e);
    msg := buf.bytes;
    assert buf.avps == AvpsOf(cfg, Own(cfg, CER, hbh, e2e, 0));
  }

  method BuildCEA(cfg: Config, cer: Header.Message) returns (msg: seq<byte>)
    ensures msg == Encode(cfg, Own(cfg, CEA, Header.HopByHop(cer), Header.EndToEnd(cer), 0))
  {
    hide EncodeAvps, OriginAvps, CapabilityAvps, EncodeMessage, Uint32Avp, Header.Encode, Header.HopByHop,
      Header.EndToEnd;
    var hbh, e2e := Header.HopByHop(cer), Header.EndToEnd(cer);
    var buf := new MessageBuffer(0, CMD_CER, 0, hbh, e2e);
    buf.AppendUint32Avp(RESULT_CODE, DIAMETER_SUCCESS);
    AppendOrigin(buf, cfg);
    AppendCapabilities(buf, cfg);
    buf.FixMessageLength(0, CMD_CER, hbh, e2e);
    msg := buf.bytes;
    assert buf.avps == AvpsOf(cfg, Own(cfg, CEA, hbh, e2e, 0));
  }

  method BuildDWR(cfg: Config, hbh: uint32, e2e: uint32) returns (msg: seq<byte>)
    ensures msg == Encode(cfg, Own(cfg, DWR, hbh, e2e, 0))
  {
    hide EncodeAvps, OriginAvps, EncodeMessage, Header.Encode;
    var buf := new MessageBuffer(Header.REQUEST_FLAG, CMD_DWR, 0, hbh, e2e);
    AppendOrigin(buf, cfg);
    buf.FixMessageLength(Header.REQUEST_FLAG, CMD_DWR, hbh, e2e);
    msg := buf.bytes;
    assert buf.avps == AvpsOf(cfg, Own(cfg, DWR, hbh, e2e, 0));
  }

  method BuildDPR(cfg: Config, hbh: uint32, e2e: uint32, cause: uint32) returns (msg: seq<byte>)
    ensures msg == Encode(cfg, Own(cfg, DPR, hbh, e2e, cause))
  {
    hide EncodeAvps, OriginAvps, EncodeMessage, Uint32Avp, Header.Encode;
    var buf := new MessageBuffer(Header.REQUEST_FLAG, CMD_DPR, 0, hbh, e2e);
    AppendOrigin(buf, cfg);
    buf.AppendUint32Avp(DISCONNECT_CAUSE, cause);
    buf.FixMessageLength(Header.REQUEST_FLAG, CMD_DPR, hbh, e2e);
    msg := buf.bytes;
    assert buf.avps == AvpsOf(cfg, Own(cfg, DPR, hbh, e2e, cause));
  }

  /** `buildDWA` and `buildDPA` differ in the command code only. */
  method BuildAnswer(cfg: Config, k: Kind, request: Header.Message) returns (msg: seq<byte>)
    requires k == DWA || k == DPA
    ensures msg == Encode(cfg, Own(cfg, k, Header.HopByHop(request), Header.EndToEnd(request), 0))
  {
    hide EncodeAvps, OriginAvps, EncodeMessage, Uint32Avp, Header.Encode, Header.HopByHop, Header.EndToEnd;
    var hbh, e2e := Header.HopByHop(request), Header.EndToEnd(request);
    var buf := new MessageBuffer(0, CommandOf(k), 0, hbh, e2e);
    buf.AppendUint32Avp(RESULT_CODE, DIAMETER_SUCCESS);
    AppendOrigin(buf, cfg);
    buf.FixMessageLength(0, CommandOf(k), hbh, e2e);
    msg := buf.bytes;
    assert buf.avps == AvpsOf(cfg, Own(cfg, k, hbh, e2e, 0));
  }
}
