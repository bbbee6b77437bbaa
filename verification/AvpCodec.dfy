/** Attribute-value pairs: the padded encoding and the two walkers that read it back
    (RFC 6733, section 4.1). */
module AvpCodec {
  import opened Bytes
  import Seqs

  datatype Avp = Avp(code: uint32, flags: byte, data: seq<byte>)

  const V_BIT: byte := 0x80
  const HEADER_SIZE: nat := 20
  const RESULT_CODE: uint32 := 268

  // ----- encoding -----

  /** Zero bytes the builder appends after an AVP of length `len`. */
  function Padding(len: nat): nat { (4 - len % 4) % 4 }

  /** The advance of the string walker. */
  function RoundUp(len: nat): nat { (len + 3) / 4 * 4 }

  /** The advance of the result-code walker: `(len + 3) & ~3` clears the two low bits. */
  function ClearLowBits(len: nat): nat { (len + 3) - (len + 3) % 4 }

  /** The three padding formulas of the sources agree, whatever the length. */
  lemma PaddingsAgree(len: nat)
    ensures RoundUp(len) == ClearLowBits(len) == len + Padding(len)
    ensures RoundUp(len) % 4 == 0 && len <= RoundUp(len) < len + 4
  {
    var q, r := len / 4, len % 4;
    assert len == 4 * q + r;
    if r == 0 {
      assert (len + 3) / 4 == q;
    } else {
      assert (len + 3) / 4 == q + 1;
    }
  }

  function Zeros(n: nat): (r: seq<byte>)
    ensures |r| == n
  {
    seq(n, _ => 0)
  }

  /** The length field keeps the low 24 bits of `8 + |data|`, as the byte casts do. */
  function EncodeAvp(a: Avp): (r: seq<byte>)
    ensures |r| == RoundUp(8 + |a.data|)
  {
    PaddingsAgree(8 + |a.data|);
    Be32(a.code) + [a.flags] + Be24(8 + |a.data|) + a.data + Zeros(Padding(8 + |a.data|))
  }

  function EncodeAvps(avps: seq<Avp>): seq<byte> {
    if avps == [] then [] else EncodeAvp(avps[0]) + EncodeAvps(avps[1..])
  }

  lemma {:induction false} EncodeAvpsConcat(a: seq<Avp>, b: seq<Avp>)
    ensures EncodeAvps(a + b) == EncodeAvps(a) + EncodeAvps(b)
  {
    if a == [] {
      assert a + b == b;
    } else {
      EncodeAvpsConcat(a[1..], b);
      Seqs.Uncons(a, b);
      Seqs.Assoc(EncodeAvp(a[0]), EncodeAvps(a[1..]), EncodeAvps(b));
    }
  }

  /** The length fits the 24-bit field. */
  predicate Fits(a: Avp) { 8 + |a.data| < TWO_TO_THE_24 }

  /** The V bit announces a vendor id, which takes the first four data bytes. */
  function HeaderLength(flags: byte): nat { if flags >= V_BIT then 12 else 8 }

  /** Only the top bit of the flags decides; M and P bits do not matter. */
  lemma VendorBit(flags: byte)
    ensures HeaderLength(flags) == 8 + 4 * (flags / 0x80)
  {
  }

  predicate WellFormed(a: Avp) { Fits(a) && HeaderLength(a.flags) <= 8 + |a.data| }

  function Payload(a: Avp): seq<byte>
    requires WellFormed(a)
  {
    a.data[HeaderLength(a.flags) - 8..]
  }

  // ----- the string walker -----

  /** What `extractStringAvp` returns when its loop stands at `pos`. */
  function StringAt(msg: seq<byte>, pos: nat, code: uint32): seq<byte>
    decreases |msg| - pos
  {
    if pos + 8 > |msg| then []
    else
      var len := U24(msg, pos + 5);
      var headerLen := HeaderLength(msg[pos + 4]);
      if len < headerLen || pos + len > |msg| then []
      else if U32(msg, pos) == code then msg[pos + headerLen..pos + len]
      else
        PaddingsAgree(len);
        StringAt(msg, pos + RoundUp(len), code)
  }

  method ExtractStringAvp(msg: seq<byte>, code: uint32) returns (value: seq<byte>)
    ensures value == StringAt(msg, HEADER_SIZE, code)
  {
    var pos := HEADER_SIZE;
    while pos + 8 <= |msg|
      invariant StringAt(msg, pos, code) == StringAt(msg, HEADER_SIZE, code)
      decreases |msg| - pos
    {
      var avpCode := U32(msg, pos);
      var avpLen := U24(msg, pos + 5);
      var headerLen := HeaderLength(msg[pos + 4]);
      if avpLen < headerLen || pos + avpLen > |msg| {
        break;
      }
      if avpCode == code {
        var dataLen := avpLen - headerLen;
        return msg[pos + headerLen..pos + headerLen + dataLen];
      }
      PaddingsAgree(avpLen);
      pos := pos + (avpLen + 3) / 4 * 4;
    }
    value := [];
  }

  // ----- the result-code walker -----

  /** What `extractResultCode` returns when its loop stands at `offset`. It checks less than the
      string walker: no upper bound on the length, and no minimum of 12 with the V bit. */
  function ResultCodeAt(msg: seq<byte>, offset: nat): uint32
    decreases |msg| - offset
  {
    if offset + 8 > |msg| then 0
    else
      var len := U24(msg, offset + 5);
      var headerLen := HeaderLength(msg[offset + 4]);
      if len < 8 then 0
      else if U32(msg, offset) == RESULT_CODE && offset + headerLen + 4 <= |msg| then U32(msg, offset + headerLen)
      else
        PaddingsAgree(len);
        ResultCodeAt(msg, offset + ClearLowBits(len))
  }

  method ExtractResultCode(msg: seq<byte>) returns (code: uint32)
    ensures code == if |msg| < HEADER_SIZE then 0 else ResultCodeAt(msg, HEADER_SIZE)
  {
    if |msg| < HEADER_SIZE {
      return 0;
    }
    var offset := HEADER_SIZE;
    while offset + 8 <= |msg|
      invariant ResultCodeAt(msg, offset) == ResultCodeAt(msg, HEADER_SIZE)
      decreases |msg| - offset
    {
      var avpCode := U32(msg, offset);
      var flags := msg[offset + 4];
      var avpLen := U24(msg, offset + 5);
      if avpLen < 8 {
        break;
      }
      var headerLen := HeaderLength(flags);
      if avpCode == RESULT_CODE && offset + headerLen + 4 <= |msg| {
        return U32(msg, offset + headerLen);
      }
      PaddingsAgree(avpLen);
      offset := offset + ClearLowBits(avpLen);
    }
    code := 0;
  }

  // ----- reading back what was encoded -----

  /** The fields both walkers read at the start of an encoded AVP. */
  lemma EncodedFields(pre: seq<byte>, a: Avp, rest: seq<byte>)
    ensures var msg, p := pre + EncodeAvp(a) + rest, |pre|;
            && p + 8 + |a.data| <= p + |EncodeAvp(a)| <= |msg|
            && U32(msg, p) == a.code
            && msg[p + 4] == a.flags
            && U24(msg, p + 5) == (8 + |a.data|) % TWO_TO_THE_24
            && msg[p + 8..p + 8 + |a.data|] == a.data
  {
    var msg, p := pre + EncodeAvp(a) + rest, |pre|;
    PaddingsAgree(8 + |a.data|);
    assert msg[p..p + 4] == Be32(a.code);
    assert msg[p + 5..p + 8] == Be24(8 + |a.data|);
    U32OfBe32(msg, p, a.code);
    U24OfBe24(msg, p + 5, 8 + |a.data|);
  }

  /** The reference definition: the payload of the first AVP with the code, looked up in the list.
      A malformed AVP hides everything behind it. */
  function FirstPayload(avps: seq<Avp>, code: uint32): seq<byte> {
    if avps == [] || !WellFormed(avps[0]) then []
    else if avps[0].code == code then Payload(avps[0])
    else FirstPayload(avps[1..], code)
  }

  /** The AVP `a` lies at `pos`, padded to its boundary. */
  predicate LiesAt(msg: seq<byte>, pos: nat, a: Avp) {
    && pos + RoundUp(8 + |a.data|) <= |msg|
    && pos + 8 + |a.data| <= |msg|
    && U32(msg, pos) == a.code
    && msg[pos + 4] == a.flags
    && U24(msg, pos + 5) == (8 + |a.data|) % TWO_TO_THE_24
    && msg[pos + 8..pos + 8 + |a.data|] == a.data
  }

  lemma EncodedLiesAt(pre: seq<byte>, a: Avp, rest: seq<byte>)
    ensures LiesAt(pre + EncodeAvp(a) + rest, |pre|, a)
    ensures |pre + EncodeAvp(a)| == |pre| + RoundUp(8 + |a.data|)
  {
    EncodedFields(pre, a, rest);
  }

  lemma SubSlice(s: seq<byte>, lo: nat, hi: nat, skip: nat)
    requires lo + skip <= hi <= |s|
    ensures s[lo..hi][skip..] == s[lo + skip..hi]
  {
  }

  /** An AVP the string walker accepts. */
  predicate Walkable(msg: seq<byte>, pos: nat) {
    && pos + 8 <= |msg|
    && HeaderLength(msg[pos + 4]) <= U24(msg, pos + 5) <= |msg| - pos
  }

  lemma StringWalks(msg: seq<byte>, pos: nat, len: nat, code: uint32)
    requires Walkable(msg, pos) && len == U24(msg, pos + 5)
    ensures StringAt(msg, pos, code) == if U32(msg, pos) == code then msg[pos + HeaderLength(msg[pos + 4])..pos + len]
                                        else StringAt(msg, pos + RoundUp(len), code)
  {
    hide RoundUp, U32, U24;
  }

  lemma StringGivesUp(msg: seq<byte>, pos: nat, code: uint32)
    requires !Walkable(msg, pos)
    ensures StringAt(msg, pos, code) == []
  {
    hide RoundUp, U32, U24;
  }

  /** One iteration of the string walker. */
  lemma StringStep(msg: seq<byte>, pos: nat, a: Avp, code: uint32)
    requires Fits(a) && LiesAt(msg, pos, a)
    ensures StringAt(msg, pos, code) == if !WellFormed(a) then []
                                        else if a.code == code then Payload(a)
                                        else StringAt(msg, pos + RoundUp(8 + |a.data|), code)
  {
    hide RoundUp, U32, U24, StringAt;
    if WellFormed(a) {
      StringWalks(msg, pos, 8 + |a.data|, code);
      SubSlice(msg, pos + 8, pos + 8 + |a.data|, HeaderLength(a.flags) - 8);
    } else {
      StringGivesUp(msg, pos, code);
    }
  }

  /** Both walkers stop at the end of the message. */
  lemma WalkersStopAtEnd(msg: seq<byte>, code: uint32)
    ensures StringAt(msg, |msg|, code) == [] && ResultCodeAt(msg, |msg|) == 0
    ensures StringStops(msg, |msg|) == [] && ResultStops(msg, |msg|) == []
    ensures msg + EncodeAvps([]) == msg
  {
  }

  /** Looking a code up in the encoded bytes is looking it up in the list. */
  lemma {:induction false} StringRoundTrip(pre: seq<byte>, avps: seq<Avp>, code: uint32)
    requires forall a :: a in avps ==> Fits(a)
    ensures StringAt(pre + EncodeAvps(avps), |pre|, code) == FirstPayload(avps, code)
    decreases |avps|
  {
    hide EncodeAvp, StringAt, RoundUp, LiesAt;
    if avps == [] {
      WalkersStopAtEnd(pre, code);
    } else {
      var a, rest := avps[0], EncodeAvps(avps[1..]);
      Seqs.Assoc(pre, EncodeAvp(a), rest);
      EncodedLiesAt(pre, a, rest);
      StringStep(pre + EncodeAvp(a) + rest, |pre|, a, code);
      StringRoundTrip(pre + EncodeAvp(a), avps[1..], code);
    }
  }

  /** For one appended AVP without the V bit, the data comes back exactly when the length fits 24 bits,
      whatever surrounds it. */
  lemma StringRoundTripIff(pre: seq<byte>, a: Avp, rest: seq<byte>)
    requires a.flags < V_BIT
    ensures StringAt(pre + EncodeAvp(a) + rest, |pre|, a.code) == a.data <==> Fits(a)
  {
    EncodedLiesAt(pre, a, rest);
    StringIff(pre + EncodeAvp(a) + rest, |pre|, a);
  }

  lemma StringIff(msg: seq<byte>, pos: nat, a: Avp)
    requires a.flags < V_BIT && LiesAt(msg, pos, a)
    ensures StringAt(msg, pos, a.code) == a.data <==> Fits(a)
  {
    var value := StringAt(msg, pos, a.code);
    if !Fits(a) {
      assert |value| <= U24(msg, pos + 5) < |a.data|;
    }
  }

  /** At least one byte follows the AVP's own header. */
  predicate Carries(a: Avp) { HeaderLength(a.flags) < 8 + |a.data| }

  /** The four bytes the walker reads of a Result-Code AVP: the payload, and padding where it is shorter. */
  function CodeIn(a: Avp): uint32
    requires Carries(a)
  {
    U32(a.data[HeaderLength(a.flags) - 8..] + Zeros(3), 0)
  }

  /** The first Result-Code AVP, if there is one, carries something. */
  predicate FirstCarries(avps: seq<Avp>) {
    if avps == [] then true
    else if avps[0].code == RESULT_CODE then Carries(avps[0])
    else FirstCarries(avps[1..])
  }

  /** The reference definition: the first Result-Code in the list. */
  function FirstResultCode(avps: seq<Avp>): uint32
    requires FirstCarries(avps)
  {
    if avps == [] then 0
    else if avps[0].code == RESULT_CODE then CodeIn(avps[0])
    else FirstResultCode(avps[1..])
  }

  /** Of a payload of four or more bytes, these are the first four; of a shorter one, none is lost. */
  lemma CodeInIsPayload(a: Avp)
    requires WellFormed(a) && Carries(a)
    ensures 4 <= |Payload(a)| ==> CodeIn(a) == U32(Payload(a), 0)
    ensures CodeIn(a) == U32(Payload(a) + Zeros(3), 0)
  {
    var p := Payload(a);
    assert 4 <= |p| ==> (p + Zeros(3))[0..4] == p[0..4];
    if 4 <= |p| {
      Be32OfU32(p, 0);
      U32OfBe32(p + Zeros(3), 0, U32(p, 0));
    }
  }

  /** The bytes behind the AVP's own header, with the padding and what follows: the walker reads the first four. */
  lemma CodeBytes(pre: seq<byte>, a: Avp, rest: seq<byte>)
    requires Carries(a)
    ensures var p := |pre| + HeaderLength(a.flags);
            && p + 4 <= |pre + EncodeAvp(a) + rest|
            && U32(pre + EncodeAvp(a) + rest, p) == CodeIn(a)
  {
    var msg, p := pre + EncodeAvp(a) + rest, |pre| + HeaderLength(a.flags);
    var len := 8 + |a.data|;
    PaddingsAgree(len);
    PaddedPayload(len, HeaderLength(a.flags));
    var payload := a.data[HeaderLength(a.flags) - 8..];
    EncodedTail(pre, a, rest, HeaderLength(a.flags));
    FirstFour(msg[p..|pre| + RoundUp(len)], payload, Padding(len));
    assert msg[p..p + 4] == msg[p..|pre| + RoundUp(len)][0..4];
    Be32OfU32(payload + Zeros(3), 0);
    U32OfBe32(msg, p, CodeIn(a));
  }

  lemma FirstFour(tail: seq<byte>, payload: seq<byte>, padding: nat)
    requires tail == payload + Zeros(padding) && 4 <= |tail| && payload != []
    ensures tail[0..4] == (payload + Zeros(3))[0..4]
  {
  }

  /** A padded payload that is not empty has at least four bytes. */
  lemma PaddedPayload(len: nat, header: nat)
    requires header == 8 || header == 12
    requires header < len
    ensures header + 4 <= RoundUp(len)
  {
  }

  lemma EncodedTail(pre: seq<byte>, a: Avp, rest: seq<byte>, header: nat)
    requires 8 <= header <= 8 + |a.data|
    ensures var msg, p, n := pre + EncodeAvp(a) + rest, |pre|, 8 + |a.data|;
            && p + header <= p + RoundUp(n) <= |msg|
            && msg[p + header..p + RoundUp(n)] == a.data[header - 8..] + Zeros(Padding(n))
  {
    hide Be32, Be24;
    PaddingsAgree(8 + |a.data|);
  }

  /** One iteration of the result-code walker. */
  lemma ResultCodeStep(msg: seq<byte>, pos: nat, a: Avp)
    requires Fits(a) && LiesAt(msg, pos, a)
    ensures pos + 8 <= |msg|
    ensures ResultCodeAt(msg, pos)
            == if a.code == RESULT_CODE && pos + HeaderLength(a.flags) + 4 <= |msg|
               then U32(msg, pos + HeaderLength(a.flags))
               else ResultCodeAt(msg, pos + RoundUp(8 + |a.data|))
  {
    hide RoundUp, ClearLowBits, Padding, U24, U32;
    PaddingsAgree(8 + |a.data|);
  }

  /** The first Result-Code of an encoded list comes back. What later Result-Code AVPs look like does not matter. */
  lemma {:induction false} ResultCodeRoundTrip(pre: seq<byte>, avps: seq<Avp>)
    requires forall a :: a in avps ==> Fits(a)
    requires FirstCarries(avps)
    ensures ResultCodeAt(pre + EncodeAvps(avps), |pre|) == FirstResultCode(avps)
    decreases |avps|
  {
    hide EncodeAvp, ResultCodeAt, RoundUp, LiesAt, U32, CodeIn, Carries;
    if avps == [] {
      WalkersStopAtEnd(pre, 0);
    } else {
      var a, rest := avps[0], EncodeAvps(avps[1..]);
      Seqs.Assoc(pre, EncodeAvp(a), rest);
      EncodedLiesAt(pre, a, rest);
      ResultCodeStep(pre + EncodeAvp(a) + rest, |pre|, a);
      if a.code == RESULT_CODE {
        CodeBytes(pre, a, rest);
      } else {
        ResultCodeRoundTrip(pre + EncodeAvp(a), avps[1..]);
      }
    }
  }

  /** A Result-Code AVP with nothing behind its own header: the walker does not compare the AVP's length with the
      four bytes it reads, and returns bytes that follow the AVP. */
  lemma EmptyResultCodeReadsOn(pre: seq<byte>, a: Avp, rest: seq<byte>)
    requires a.code == RESULT_CODE && Fits(a) && !Carries(a) && 8 <= |rest|
    ensures RoundUp(8 + |a.data|) <= HeaderLength(a.flags) <= RoundUp(8 + |a.data|) + 4
    ensures ResultCodeAt(pre + EncodeAvp(a) + rest, |pre|)
            == U32(rest, HeaderLength(a.flags) - RoundUp(8 + |a.data|))
  {
    hide EncodeAvp, LiesAt, ResultCodeAt, U32, RoundUp;
    EncodedLiesAt(pre, a, rest);
    ResultCodeStep(pre + EncodeAvp(a) + rest, |pre|, a);
    NothingPadded(8 + |a.data|, HeaderLength(a.flags));
    BehindConcat(pre + EncodeAvp(a), rest, HeaderLength(a.flags) - RoundUp(8 + |a.data|));
  }

  lemma NothingPadded(len: nat, header: nat)
    requires header == 8 || header == 12
    requires 8 <= len <= header
    ensures RoundUp(len) <= header <= RoundUp(len) + 4
  {
  }

  lemma BehindConcat(head: seq<byte>, rest: seq<byte>, k: nat)
    requires k + 4 <= |rest|
    ensures U32(head + rest, |head| + k) == U32(rest, k)
  {
    assert (head + rest)[|head| + k..|head| + k + 4] == rest[k..k + 4];
    Be32OfU32(rest, k);
    U32OfBe32(head + rest, |head| + k, U32(rest, k));
  }

  /** What is read of a Result-Code AVP does not depend on the bytes that follow. */
  ghost predicate ReadsItself(pre: seq<byte>, a: Avp) {
    forall rest: seq<byte>, other: seq<byte> :: 8 <= |rest| && 8 <= |other| ==>
      ResultCodeAt(pre + EncodeAvp(a) + rest, |pre|) == ResultCodeAt(pre + EncodeAvp(a) + other, |pre|)
  }

  /** The reading of a Result-Code AVP is its own exactly when a byte follows its header: with the V bit clear it
      must have data, with the V bit set more than the vendor id. */
  lemma ResultCodeReadsItselfIff(pre: seq<byte>, a: Avp)
    requires a.code == RESULT_CODE && Fits(a)
    ensures ReadsItself(pre, a) <==> Carries(a)
  {
    hide EncodeAvp, ResultCodeAt, U32, RoundUp, CodeIn, Fits, Carries;
    if Carries(a) {
      forall rest: seq<byte>, other: seq<byte> | 8 <= |rest| && 8 <= |other|
        ensures ResultCodeAt(pre + EncodeAvp(a) + rest, |pre|) == ResultCodeAt(pre + EncodeAvp(a) + other, |pre|)
      {
        CarriedIsRead(pre, a, rest);
        CarriedIsRead(pre, a, other);
      }
    } else {
      var zeros, ones: seq<byte> := Zeros(8), seq(8, _ => 1);
      EmptyResultCodeReadsOn(pre, a, zeros);
      EmptyResultCodeReadsOn(pre, a, ones);
      Differ(zeros, ones, HeaderLength(a.flags) - RoundUp(8 + |a.data|));
    }
  }

  lemma CarriedIsRead(pre: seq<byte>, a: Avp, rest: seq<byte>)
    requires a.code == RESULT_CODE && Fits(a) && Carries(a)
    ensures ResultCodeAt(pre + EncodeAvp(a) + rest, |pre|) == CodeIn(a)
  {
    hide EncodeAvp, ResultCodeAt, U32, RoundUp, CodeIn, LiesAt, Carries;
    EncodedLiesAt(pre, a, rest);
    ResultCodeStep(pre + EncodeAvp(a) + rest, |pre|, a);
    CodeBytes(pre, a, rest);
  }

  lemma Differ(zeros: seq<byte>, ones: seq<byte>, k: nat)
    requires zeros == Zeros(8) && ones == seq(8, _ => 1) && k + 4 <= 8
    ensures U32(zeros, k) == 0 && U32(ones, k) != 0
  {
  }

  // ----- the boundaries the walkers visit -----

  /** The AVP starts the string walker visits when no code matches. */
  function StringStops(msg: seq<byte>, pos: nat): seq<nat>
    decreases |msg| - pos
  {
    if pos + 8 > |msg| then []
    else
      var len := U24(msg, pos + 5);
      if len < HeaderLength(msg[pos + 4]) || pos + len > |msg| then [pos]
      else
        PaddingsAgree(len);
        [pos] + StringStops(msg, pos + RoundUp(len))
  }

  function ResultStops(msg: seq<byte>, pos: nat): seq<nat>
    decreases |msg| - pos
  {
    if pos + 8 > |msg| then []
    else
      var len := U24(msg, pos + 5);
      if len < 8 then [pos]
      else
        PaddingsAgree(len);
        [pos] + ResultStops(msg, pos + ClearLowBits(len))
  }

  /** Where the AVPs of an encoded list start. */
  function Offsets(avps: seq<Avp>, pos: nat): seq<nat> {
    if avps == [] then [] else [pos] + Offsets(avps[1..], pos + |EncodeAvp(avps[0])|)
  }

  lemma BothStep(msg: seq<byte>, pos: nat, len: nat)
    requires Walkable(msg, pos) && len == U24(msg, pos + 5)
    ensures StringStops(msg, pos) == [pos] + StringStops(msg, pos + RoundUp(len))
    ensures ResultStops(msg, pos) == [pos] + ResultStops(msg, pos + RoundUp(len))
  {
    hide RoundUp, ClearLowBits, Padding, U24, U32;
    PaddingsAgree(len);
  }

  lemma StringWalkEnds(msg: seq<byte>, pos: nat)
    requires !Walkable(msg, pos)
    ensures StringStops(msg, pos) <= ResultStops(msg, pos)
  {
    hide RoundUp, ClearLowBits, Padding, U32;
  }

  /** On arbitrary bytes the walkers never disagree on a boundary: one only stops earlier. */
  lemma {:induction false} StopsArePrefix(msg: seq<byte>, pos: nat)
    ensures StringStops(msg, pos) <= ResultStops(msg, pos)
    decreases |msg| - pos
  {
    hide RoundUp, ClearLowBits, Padding, U24, U32, StringStops, ResultStops;
    if Walkable(msg, pos) {
      var len := U24(msg, pos + 5);
      PaddingsAgree(len);
      BothStep(msg, pos, len);
      StopsArePrefix(msg, pos + RoundUp(len));
    } else {
      StringWalkEnds(msg, pos);
    }
  }

  /** On well-formed lists both visit exactly the starts of the AVPs. */
  lemma {:induction false} StopsOfEncoded(pre: seq<byte>, avps: seq<Avp>)
    requires forall a :: a in avps ==> WellFormed(a)
    ensures StringStops(pre + EncodeAvps(avps), |pre|) == Offsets(avps, |pre|)
    ensures ResultStops(pre + EncodeAvps(avps), |pre|) == Offsets(avps, |pre|)
    decreases |avps|
  {
    hide EncodeAvp, StringStops, ResultStops, RoundUp, LiesAt, WellFormed, U24, U32, Padding, Zeros;
    if avps == [] {
      WalkersStopAtEnd(pre, 0);
    } else {
      var a, rest := avps[0], EncodeAvps(avps[1..]);
      Seqs.Assoc(pre, EncodeAvp(a), rest);
      EncodedLiesAt(pre, a, rest);
      StopsStep(pre + EncodeAvp(a) + rest, |pre|, a);
      StopsOfEncoded(pre + EncodeAvp(a), avps[1..]);
    }
  }

  lemma StopsStep(msg: seq<byte>, pos: nat, a: Avp)
    requires WellFormed(a) && LiesAt(msg, pos, a)
    ensures StringStops(msg, pos) == [pos] + StringStops(msg, pos + RoundUp(8 + |a.data|))
    ensures ResultStops(msg, pos) == [pos] + ResultStops(msg, pos + RoundUp(8 + |a.data|))
  {
    hide RoundUp, ClearLowBits, Padding, U24, U32, StringStops, ResultStops;
    BothStep(msg, pos, 8 + |a.data|);
  }
}
