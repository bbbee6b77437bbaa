/** The 20-byte message header (RFC 6733, section 3): the accessors and the in-place setters. */
module Header {
  import opened Bytes

  const SIZE: nat := 20
  const REQUEST_FLAG: byte := 0x80

  type Message = s: seq<byte> | SIZE <= |s| witness seq(20, _ => 0)

  function CommandCode(msg: Message): nat { U24(msg, 5) }

  function Length(msg: Message): nat { U24(msg, 1) }

  /** `msg[4] & 0x80` on a byte. */
  predicate IsRequest(msg: Message) { msg[4] >= REQUEST_FLAG }

  function HopByHop(msg: Message): uint32 { U32(msg, 12) }

  function EndToEnd(msg: Message): uint32 { U32(msg, 16) }

  /** The request flag is the top bit of the flags byte; the other seven flags do not matter. */
  lemma RequestBit(msg: Message)
    ensures IsRequest(msg) <==> msg[4] / 0x80 == 1
  {
  }

  /** The header layout of RFC 6733, section 3. */
  lemma Layout(msg: Message)
    ensures Length(msg) == Number(msg[1..4]) && CommandCode(msg) == Number(msg[5..8])
    ensures HopByHop(msg) == Number(msg[12..16]) && EndToEnd(msg) == Number(msg[16..20])
  {
    NetworkOrder(msg, 1);
    NetworkOrder(msg, 5);
    NetworkOrder(msg, 12);
    NetworkOrder(msg, 16);
  }

  /** `msg` with the four bytes at `pos` replaced. */
  function WithU32(msg: Message, pos: nat, n: uint32): (r: Message)
    requires pos + 4 <= SIZE
    ensures |r| == |msg|
  {
    msg[..pos] + Be32(n) + msg[pos + 4..]
  }

  function WithHopByHop(msg: Message, hbh: uint32): Message { WithU32(msg, 12, hbh) }

  function WithEndToEnd(msg: Message, e2e: uint32): Message { WithU32(msg, 16, e2e) }

  method SetU32(msg: array<byte>, pos: nat, n: uint32)
    requires SIZE <= msg.Length && pos + 4 <= SIZE
    modifies msg
    ensures msg[..] == WithU32(old(msg[..]), pos, n)
  {
    msg[pos] := n / 0x100_0000;
    msg[pos + 1] := n / 0x1_0000 % 0x100;
    msg[pos + 2] := n / 0x100 % 0x100;
    msg[pos + 3] := n % 0x100;
  }

  /** A setter is read back, and no byte outside its field changes. */
  lemma WithU32Reads(msg: Message, pos: nat, n: uint32)
    requires pos + 4 <= SIZE
    ensures var r := WithU32(msg, pos, n);
            && U32(r, pos) == n
            && forall i :: 0 <= i < |msg| && !(pos <= i < pos + 4) ==> r[i] == msg[i]
  {
    var r := WithU32(msg, pos, n);
    assert r[pos..pos + 4] == Be32(n);
    U32OfBe32(r, pos, n);
  }

  /** The identifier setters are independent of each other and of the command. */
  lemma SettersIndependent(msg: Message, hbh: uint32, e2e: uint32)
    ensures var h, e := WithHopByHop(msg, hbh), WithEndToEnd(msg, e2e);
            && HopByHop(h) == hbh && EndToEnd(h) == EndToEnd(msg)
            && EndToEnd(e) == e2e && HopByHop(e) == HopByHop(msg)
            && CommandCode(h) == CommandCode(e) == CommandCode(msg)
            && (IsRequest(h) <==> IsRequest(msg)) && (IsRequest(e) <==> IsRequest(msg))
            && Length(h) == Length(e) == Length(msg)
  {
    WithU32Reads(msg, 12, hbh);
    WithU32Reads(msg, 16, e2e);
  }

  /** The header `writeMessageHeader` pushes, with the length filled in. */
  function Encode(length: nat, flags: byte, code: nat, appId: uint32, hbh: uint32, e2e: uint32): (r: Message)
    ensures |r| == SIZE
  {
    [1] + Be24(length) + [flags] + Be24(code) + Be32(appId) + Be32(hbh) + Be32(e2e)
  }

  lemma EncodeReads(length: nat, flags: byte, code: nat, appId: uint32, hbh: uint32, e2e: uint32, rest: seq<byte>)
    ensures var msg := Encode(length, flags, code, appId, hbh, e2e) + rest;
            && Length(msg) == length % TWO_TO_THE_24
            && msg[4] == flags
            && CommandCode(msg) == code % TWO_TO_THE_24
            && U32(msg, 8) == appId
            && HopByHop(msg) == hbh
            && EndToEnd(msg) == e2e
  {
    var msg := Encode(length, flags, code, appId, hbh, e2e) + rest;
    assert msg[1..4] == Be24(length);
    assert msg[5..8] == Be24(code);
    assert msg[8..12] == Be32(appId);
    assert msg[12..16] == Be32(hbh);
    assert msg[16..20] == Be32(e2e);
    U24OfBe24(msg, 1, length);
    U24OfBe24(msg, 5, code);
    U32OfBe32(msg, 8, appId);
    U32OfBe32(msg, 12, hbh);
    U32OfBe32(msg, 16, e2e);
  }
}
