/** Message framing on a byte stream: a reference definition, its characterization, and the read loop. */
module Framing {
  import opened Bytes
  import Header
  import Seqs

  const MAX_LENGTH: nat := 16777215

  function LengthField(s: seq<byte>): nat
    requires 4 <= |s|
  {
    U24(s, 1)
  }

  predicate Framed(m: seq<byte>) { Header.SIZE <= |m| && LengthField(m) == |m| }

  /** `undelivered` are the bytes behind the last delivered message; `bad` tells that they start with a length
      the reader refuses. */
  datatype Reading = Reading(delivered: seq<seq<byte>>, undelivered: seq<byte>, bad: bool)

  function Frames(input: seq<byte>): Reading
    decreases |input|
  {
    if |input| < 4 then Reading([], input, false)
    else
      var len := LengthField(input);
      if len < Header.SIZE then Reading([], input, true)
      else if |input| < len then Reading([], input, false)
      else
        var r := Frames(input[len..]);
        Reading([input[..len]] + r.delivered, r.undelivered, r.bad)
  }

  function Concat(ms: seq<seq<byte>>): seq<byte> {
    if ms == [] then [] else ms[0] + Concat(ms[1..])
  }

  /** No further message starts here: the header or the body is incomplete, or the length is refused. */
  predicate Stuck(s: seq<byte>, bad: bool) {
    if |s| < 4 then !bad
    else if LengthField(s) < Header.SIZE then bad
    else |s| < LengthField(s) && !bad
  }

  /** On arbitrary bytes: nothing is lost, invented or reordered, every delivered message is as long as its
      length field says, and reading stops only where no message starts. */
  lemma {:induction false} FramesConserve(input: seq<byte>)
    ensures var r := Frames(input);
            && Concat(r.delivered) + r.undelivered == input
            && (forall m :: m in r.delivered ==> Framed(m))
            && Stuck(r.undelivered, r.bad)
            && Header.SIZE * |r.delivered| + |r.undelivered| <= |input|
    decreases |input|
  {
    hide LengthField, Framed, Stuck;
    if 4 <= |input| && Header.SIZE <= LengthField(input) <= |input| {
      var len := LengthField(input);
      var head, tail := input[..len], input[len..];
      FramesConserve(tail);
      var r := Frames(tail);
      TakenIsFramed(input);
      Seqs.Uncons([head], r.delivered);
      Seqs.Assoc(head, Concat(r.delivered), r.undelivered);
      assert head + tail == input;
    } else {
      StuckHere(input);
    }
  }

  lemma TakenIsFramed(input: seq<byte>)
    requires 4 <= |input| && Header.SIZE <= LengthField(input) <= |input|
    ensures Framed(input[..LengthField(input)])
  {
    var m := input[..LengthField(input)];
    assert m[1] == input[1] && m[2] == input[2] && m[3] == input[3];
  }

  lemma StuckHere(input: seq<byte>)
    requires !(4 <= |input| && Header.SIZE <= LengthField(input) <= |input|)
    ensures var r := Frames(input); r.delivered == [] && r.undelivered == input && Stuck(input, r.bad)
    ensures Concat([]) + input == input
  {
  }

  lemma FrameHead(m: seq<byte>, rest: seq<byte>)
    requires Framed(m)
    ensures Frames(m + rest) == var r := Frames(rest); Reading([m] + r.delivered, r.undelivered, r.bad)
  {
    var input := m + rest;
    assert LengthField(input) == |m|;
    assert input[..|m|] == m && input[|m|..] == rest;
  }

  /** The reading is the only one with the properties of `FramesConserve`. In particular, any list of framed
      messages is delivered unchanged from its concatenation. */
  lemma {:induction false} FramesUnique(ms: seq<seq<byte>>, rest: seq<byte>, bad: bool)
    requires forall m :: m in ms ==> Framed(m)
    requires Stuck(rest, bad)
    ensures Frames(Concat(ms) + rest) == Reading(ms, rest, bad)
    decreases |ms|
  {
    hide LengthField;
    if ms == [] {
      assert Concat(ms) + rest == rest;
    } else {
      FramesUnique(ms[1..], rest, bad);
      FrameHead(ms[0], Concat(ms[1..]) + rest);
      Seqs.Assoc(ms[0], Concat(ms[1..]), rest);
      assert [ms[0]] + ms[1..] == ms;
    }
  }

  lemma FramingRoundTrip(ms: seq<seq<byte>>)
    requires forall m :: m in ms ==> Framed(m)
    ensures Frames(Concat(ms)) == Reading(ms, [], false)
  {
    FramesUnique(ms, [], false);
    assert Concat(ms) + [] == Concat(ms);
  }

  /** Reading may be interrupted anywhere: the rest is framed from the undelivered bytes on, and after a refused
      length nothing more is delivered. */
  lemma {:induction false} FramesResume(a: seq<byte>, b: seq<byte>)
    ensures var r := Frames(a);
            if r.bad then Frames(a + b) == Reading(r.delivered, r.undelivered + b, true)
            else var more := Frames(r.undelivered + b);
                 Frames(a + b) == Reading(r.delivered + more.delivered, more.undelivered, more.bad)
    decreases |a|
  {
    if |a| < 4 || LengthField(a) < Header.SIZE || |a| < LengthField(a) {
      StuckResume(a, b);
    } else {
      var len := LengthField(a);
      var head, tail := a[..len], a[len..];
      FramesResume(tail, b);
      assert head + tail == a;
      Seqs.Assoc(head, tail, b);
      FrameHead(head, tail + b);
      FrameHead(head, tail);
      var r := Frames(tail);
      Seqs.Assoc([head], r.delivered, Frames(r.undelivered + b).delivered);
    }
  }

  lemma StuckResume(a: seq<byte>, b: seq<byte>)
    requires |a| < 4 || LengthField(a) < Header.SIZE || |a| < LengthField(a)
    ensures Frames(a).delivered == [] && Frames(a).undelivered == a
    ensures Frames(a).bad ==> Frames(a + b) == Reading([], a + b, true)
  {
  }

  /** Any byte prefix of a stream delivers a prefix of its messages. */
  lemma PrefixDeliversPrefix(a: seq<byte>, b: seq<byte>)
    ensures Frames(a).delivered <= Frames(a + b).delivered
  {
    FramesResume(a, b);
  }

  /** `vector::resize`: keeps what fits, fills with zeros. */
  function Resized(s: seq<byte>, n: nat): (r: seq<byte>)
    ensures |r| == n
  {
    if n <= |s| then s[..n] else s + seq(n - |s|, _ => 0)
  }

  /** The reading half of a connection. `inbox` holds the bytes the socket has received and not yet handed out;
      `bodyLength` is 0 while a header is read, else the length of the message whose body is read. */
  class PeerConnection {
    var headerBuf: array<byte>
    var readBuf: seq<byte>
    var inbox: seq<byte>
    var bodyLength: nat

    ghost predicate Valid()
      reads this, headerBuf
    {
      && headerBuf.Length == 4
      && (bodyLength != 0 ==>
            && Header.SIZE <= bodyLength == |readBuf|
            && readBuf[..4] == headerBuf[..]
            && LengthField(headerBuf[..]) == bodyLength)
    }

    /** The received bytes that belong to no delivered message. */
    ghost function Undelivered(): seq<byte>
      reads this, headerBuf
    {
      if bodyLength == 0 then inbox else headerBuf[..] + inbox
    }

    constructor ()
      ensures Valid() && Undelivered() == []
    {
      headerBuf := new byte[4];
      readBuf, inbox, bodyLength := [], [], 0;
    }

    /** Bytes arrive on the socket. */
    method Arrive(bytes: seq<byte>)
      requires Valid()
      modifies this
      ensures Valid() && headerBuf == old(headerBuf) && Undelivered() == old(Undelivered()) + bytes
    {
      inbox := inbox + bytes;
      if bodyLength != 0 {
        Seqs.Assoc(headerBuf[..], old(inbox), bytes);
      }
    }

    /** The header read completes: four bytes land in `headerBuf`. */
    method ReadHeader() returns (ok: bool)
      requires Valid() && bodyLength == 0 && 4 <= |inbox|
      modifies this, headerBuf
      ensures headerBuf == old(headerBuf)
      ensures ok <==> Header.SIZE <= LengthField(old(inbox))
      ensures ok ==> Valid() && inbox == old(inbox)[4..] && bodyLength == LengthField(old(inbox))
                     && Undelivered() == old(inbox)
    {
      headerBuf[0], headerBuf[1], headerBuf[2], headerBuf[3] := inbox[0], inbox[1], inbox[2], inbox[3];
      assert headerBuf[..] == inbox[..4];
      inbox := inbox[4..];
      var msgLen := U24(headerBuf[..], 1);
      if msgLen < Header.SIZE || msgLen > MAX_LENGTH {
        return false;
      }
      readBuf := Resized(readBuf, msgLen);
      readBuf := headerBuf[..] + readBuf[4..];
      bodyLength := msgLen;
      ok := true;
      assert old(inbox)[..4] + old(inbox)[4..] == old(inbox);
    }

    /** The body read completes: everything behind the header is overwritten, and the buffer is handed over.
        What the callback leaves in it is unspecified. */
    method ReadBody() returns (message: seq<byte>)
      requires Valid() && bodyLength != 0 && bodyLength - 4 <= |inbox|
      modifies this
      ensures Valid() && headerBuf == old(headerBuf) && bodyLength == 0
      ensures message + Undelivered() == old(Undelivered()) && |message| == old(bodyLength)
    {
      var remaining := bodyLength - 4;
      readBuf := readBuf[..4] + inbox[..remaining];
      inbox := inbox[remaining..];
      message := readBuf;
      readBuf := *;
      bodyLength := 0;
      BodyConserved(headerBuf[..], old(inbox), remaining);
    }

    /** Runs the read handlers as long as the socket can satisfy them. */
    method ReadLoop() returns (delivered: seq<seq<byte>>, failed: bool)
      requires Valid()
      modifies this, headerBuf
      ensures headerBuf == old(headerBuf)
      ensures delivered == Frames(old(Undelivered())).delivered
      ensures failed == Frames(old(Undelivered())).bad
      ensures !failed ==> Valid() && Undelivered() == Frames(old(Undelivered())).undelivered
    {
      delivered, failed := [], false;
      while true
        invariant Valid() && headerBuf == old(headerBuf)
        invariant Frames(old(Undelivered())) ==
                  var r := Frames(Undelivered()); Reading(delivered + r.delivered, r.undelivered, r.bad)
        decreases |inbox| + (if bodyLength == 0 then 0 else 1)
      {
        ghost var before := Undelivered();
        if bodyLength == 0 {
          if |inbox| < 4 {
            return;
          }
          var ok := ReadHeader();
          if !ok {
            failed := true;
            return;
          }
        } else {
          if |inbox| < bodyLength - 4 {
            HeaderDecides(headerBuf[..], inbox);
            return;
          }
          HeaderDecides(headerBuf[..], inbox);
          var message := ReadBody();
          HeaderOf(message, Undelivered(), before);
          FrameHead(message, Undelivered());
          Seqs.Assoc(delivered, [message], Frames(Undelivered()).delivered);
          delivered := delivered + [message];
        }
      }
    }
  }

  lemma BodyConserved(header: seq<byte>, inbox: seq<byte>, n: nat)
    requires n <= |inbox|
    ensures header + inbox[..n] + inbox[n..] == header + inbox
  {
  }

  lemma HeaderDecides(header: seq<byte>, inbox: seq<byte>)
    requires |header| == 4
    ensures LengthField(header + inbox) == LengthField(header)
  {
  }

  lemma HeaderOf(m: seq<byte>, rest: seq<byte>, whole: seq<byte>)
    requires m + rest == whole && 4 <= |m|
    ensures LengthField(m) == LengthField(whole)
  {
  }
}
