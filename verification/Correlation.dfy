/** Requests and answers on bytes: what a send puts on the wire and into the table, and which table an inbound
    answer completes. */
module Correlation {
  import opened Bytes
  import opened Messages
  import opened PeerMachine
  import Header
  import Identifiers
  import Ledger
  import Table

  // ----- sending -----

  /** A request with its identifiers assigned, the peer after the draws, and the keys it is registered under. */
  datatype Outgoing = Outgoing(peer: Node, bytes: Header.Message, hbh: uint32, e2e: uint32)

  /** `send` and `sendRequest` draw the identifiers the caller left at zero. */
  function Assign(p: Node, request: Header.Message): Outgoing {
    var hbh0 := Header.HopByHop(request);
    var hbh := if hbh0 == 0 then p.hopByHop else hbh0;
    var p1 := if hbh0 == 0 then p.(hopByHop := Identifiers.Next(p.hopByHop)) else p;
    var r1 := if hbh0 == 0 then Header.WithHopByHop(request, hbh) else request;
    var e2e0 := Header.EndToEnd(r1);
    var e2e := if e2e0 == 0 then p1.endToEnd else e2e0;
    var p2 := if e2e0 == 0 then p1.(endToEnd := Identifiers.Next(p1.endToEnd)) else p1;
    var r2 := if e2e0 == 0 then Header.WithEndToEnd(r1, e2e) else r1;
    Outgoing(p2, r2, hbh, e2e)
  }

  /** The message the peer writes for an accepted request. */
  function OnWire(p: Node, request: Header.Message): Header.Message {
    var o := Assign(p, request);
    var h := if o.hbh == 0 then Header.WithHopByHop(o.bytes, o.peer.hopByHop) else o.bytes;
    if o.e2e == 0 then Header.WithEndToEnd(h, o.peer.endToEnd) else h
  }

  predicate SameOutsideIds(a: seq<byte>, b: seq<byte>) {
    |a| == |b| && forall i :: 0 <= i < |a| && !(12 <= i < 20) ==> a[i] == b[i]
  }

  /** The identifiers a request is registered under and sent with: an identifier of its own is kept, for a zero the
      counter's value is taken and the counter moves on. */
  lemma AssignFacts(p: Node, request: Header.Message)
    ensures var o := Assign(p, request);
            && Header.HopByHop(o.bytes) == o.hbh && Header.EndToEnd(o.bytes) == o.e2e
            && SameOutsideIds(o.bytes, request)
            && o.peer == p.(hopByHop := o.peer.hopByHop, endToEnd := o.peer.endToEnd)
            && (o.hbh == 0 ==> o.peer.hopByHop == 1) && (o.e2e == 0 ==> o.peer.endToEnd == 1)
            && (if Header.HopByHop(request) == 0
                then o.hbh == p.hopByHop && o.peer.hopByHop == Identifiers.Next(p.hopByHop)
                else o.hbh == Header.HopByHop(request) && o.peer.hopByHop == p.hopByHop)
            && (if Header.EndToEnd(request) == 0
                then o.e2e == p.endToEnd && o.peer.endToEnd == Identifiers.Next(p.endToEnd)
                else o.e2e == Header.EndToEnd(request) && o.peer.endToEnd == p.endToEnd)
  {
    hide Header.WithU32, Header.HopByHop, Header.EndToEnd;
    var hbh0 := Header.HopByHop(request);
    FilledHop(request, p.hopByHop);
    var r1 := if hbh0 == 0 then Header.WithHopByHop(request, p.hopByHop) else request;
    FilledEnd(r1, p.endToEnd);
  }

  lemma AssignedLength(p: Node, request: Header.Message)
    ensures |Assign(p, request).bytes| == |request| && Assign(p, request).peer.state == p.state
  {
    hide Header.HopByHop, Header.EndToEnd, Header.WithU32;
  }

  lemma FilledHop(msg: Header.Message, n: uint32)
    ensures var r := Header.WithHopByHop(msg, n);
            && Header.HopByHop(r) == n && Header.EndToEnd(r) == Header.EndToEnd(msg) && SameOutsideIds(r, msg)
  {
    hide Header.WithU32, U32;
    Header.WithU32Reads(msg, 12, n);
    Header.SettersIndependent(msg, n, 0);
  }

  lemma FilledEnd(msg: Header.Message, n: uint32)
    ensures var r := Header.WithEndToEnd(msg, n);
            && Header.EndToEnd(r) == n && Header.HopByHop(r) == Header.HopByHop(msg) && SameOutsideIds(r, msg)
  {
    hide Header.WithU32, U32;
    Header.WithU32Reads(msg, 16, n);
    Header.SettersIndependent(msg, 0, n);
  }

  /** An accepted send writes one message. All bytes but the identifiers are the caller's. Each identifier on the
      wire is the key it is registered under exactly when that key is not zero: the peer draws again for a zero,
      while the table keeps it. */
  lemma SentOnWire(p: Node, request: Header.Message)
    requires p.state == Open && p.sock
    ensures var o, wire := Assign(p, request), OnWire(p, request);
            && SendMessage(o.peer, o.bytes).wrote == p.wrote + [App(wire)]
            && SameOutsideIds(wire, request)
            && (Header.HopByHop(wire) == o.hbh <==> o.hbh != 0)
            && (Header.EndToEnd(wire) == o.e2e <==> o.e2e != 0)
            && (o.hbh != 0 && o.e2e != 0 ==> wire == o.bytes)
  {
    hide Header.WithU32, Header.HopByHop, Header.EndToEnd, Assign;
    var o := Assign(p, request);
    AssignFacts(p, request);
    FilledHop(o.bytes, o.peer.hopByHop);
    var h := if o.hbh == 0 then Header.WithHopByHop(o.bytes, o.peer.hopByHop) else o.bytes;
    FilledEnd(h, o.peer.endToEnd);
  }

  /** The ledger after the request is registered. */
  function Registered(l: Ledger.Ledger, p: Node, request: Header.Message): Ledger.Ledger {
    var o := Assign(p, request);
    Ledger.Step(l, Ledger.Registers(o.hbh, o.e2e, Header.CommandCode(o.bytes)))
  }

  // ----- an answer on the other leg -----

  /** What becomes of an inbound message: `own` is the table of the endpoint that received it, the other table is
      reached through the callback for unmatched answers. */
  datatype Verdict = ToRequestCallback | ByOwn(tx: Table.Pending) | ByOther(tx: Table.Pending) | Dropped

  /** The server's accessors tolerate short messages: they read as an answer with zero fields. */
  function HopByHopOrZero(msg: seq<byte>): uint32 { if |msg| < Header.SIZE then 0 else Header.HopByHop(msg) }

  function EndToEndOrZero(msg: seq<byte>): uint32 { if |msg| < Header.SIZE then 0 else Header.EndToEnd(msg) }

  function CommandOrZero(msg: seq<byte>): nat { if |msg| < Header.SIZE then 0 else Header.CommandCode(msg) }

  predicate IsLongRequest(msg: seq<byte>) { |msg| >= Header.SIZE && Header.IsRequest(msg) }

  /** The section `resolve` runs for an answer. */
  function Resolving(msg: seq<byte>): Ledger.Event {
    Ledger.Answers(HopByHopOrZero(msg), EndToEndOrZero(msg), CommandOrZero(msg))
  }

  /** The transaction an answer completes. */
  function Hit(t: Table.State, msg: seq<byte>): Option<Table.Pending> {
    match Table.Lookup(t, HopByHopOrZero(msg), EndToEndOrZero(msg), CommandOrZero(msg))
    case Some(h) => Some(t.pending[h])
    case None => None
  }

  /** The own table first, then `tryResolve` on the other leg. */
  function CrossLeg(own: Ledger.Ledger, other: Ledger.Ledger, msg: seq<byte>)
    : (Ledger.Ledger, Ledger.Ledger, Verdict)
  {
    if IsLongRequest(msg) then (own, other, ToRequestCallback)
    else
      match Hit(own.table, msg)
      case Some(tx) => (Ledger.Step(own, Resolving(msg)), other, ByOwn(tx))
      case None =>
        if |msg| < Header.SIZE then (own, other, Dropped)
        else match Hit(other.table, msg)
          case Some(tx) => (own, Ledger.Step(other, Resolving(msg)), ByOther(tx))
          case None => (own, other, Dropped)
  }

  /** The transaction with this key is one that a scan accepts, and it alone is taken out, as answered. */
  ghost predicate Completes(l: Ledger.Ledger, l': Ledger.Ledger, msg: seq<byte>, tx: Table.Pending) {
    exists h ::
      && Table.ScanHit(l.table, HopByHopOrZero(msg), EndToEndOrZero(msg), CommandOrZero(msg), h)
      && h in l.table.pending && tx == l.table.pending[h]
      && l' == Ledger.TakenOut(l, h, Ledger.Answered)
  }

  /** One inbound answer completes at most one transaction across both tables, changes neither on a double miss,
      and never reaches the request callback. */
  lemma AnswerCompletesAtMostOne(own: Ledger.Ledger, other: Ledger.Ledger, msg: seq<byte>)
    requires Ledger.Inv(own) && Ledger.Inv(other)
    ensures var (own', other', v) := CrossLeg(own, other, msg);
            && Ledger.Inv(own') && Ledger.Inv(other')
            && (v == ToRequestCallback <==> IsLongRequest(msg))
            && |own'.table.pending| + |other'.table.pending| + (if v.ByOwn? || v.ByOther? then 1 else 0)
               == |own.table.pending| + |other.table.pending|
            && (v == Dropped || v == ToRequestCallback ==> own' == own && other' == other)
            && (v.ByOwn? ==> other' == other && Completes(own, own', msg, v.tx))
            && (v.ByOther? ==> own' == own && Completes(other, other', msg, v.tx))
  {
    hide IsLongRequest, Hit, Completes, Ledger.Inv, Ledger.Step;
    if Hit(own.table, msg).Some? {
      HitCompletes(own, msg);
    }
    if Hit(other.table, msg).Some? {
      HitCompletes(other, msg);
    }
  }

  lemma HitCompletes(l: Ledger.Ledger, msg: seq<byte>)
    requires Ledger.Inv(l) && Hit(l.table, msg).Some?
    ensures var l' := Ledger.Step(l, Resolving(msg));
            && Ledger.Inv(l') && Completes(l, l', msg, Hit(l.table, msg).value)
            && |l'.table.pending| + 1 == |l.table.pending|
  {
    hide HopByHopOrZero, EndToEndOrZero, CommandOrZero, Table.ScanHit;
    var hbh, e2e, cmd := HopByHopOrZero(msg), EndToEndOrZero(msg), CommandOrZero(msg);
    var h := Table.Lookup(l.table, hbh, e2e, cmd).value;
    Table.LookupSound(l.table, hbh, e2e, cmd, h);
    Ledger.TakenOutKeeps(l, h, Ledger.Answered);
    MapSize(l.table.pending, h);
    assert Ledger.Step(l, Resolving(msg)) == Ledger.TakenOut(l, h, Ledger.Answered);
  }

  lemma MissIsNoStep(l: Ledger.Ledger, msg: seq<byte>)
    requires Hit(l.table, msg) == None
    ensures Ledger.Step(l, Resolving(msg)) == l
  {
  }

  lemma MapSize<K, V>(m: map<K, V>, k: K)
    requires k in m
    ensures |m - {k}| + 1 == |m|
  {
    assert m.Keys == (m - {k}).Keys + {k};
    assert |m| == |m.Keys| && |m - {k}| == |(m - {k}).Keys|;
  }

  /** What the lookup finds in the own table is completed; what it finds only in the other table is completed there;
      nothing else happens to an answer. A message with the request bit is a request, whatever its other flags. */
  lemma AnswerCompletes(own: Ledger.Ledger, other: Ledger.Ledger, msg: Header.Message)
    ensures var hbh, e2e, cmd := Header.HopByHop(msg), Header.EndToEnd(msg), Header.CommandCode(msg);
            var here, there := Table.Lookup(own.table, hbh, e2e, cmd), Table.Lookup(other.table, hbh, e2e, cmd);
            var result := CrossLeg(own, other, msg);
            if msg[4] / 0x80 == 1 then result == (own, other, ToRequestCallback)
            else if here.Some? then
              result == (Ledger.TakenOut(own, here.value, Ledger.Answered), other, ByOwn(own.table.pending[here.value]))
            else if there.Some? then
              result == (own, Ledger.TakenOut(other, there.value, Ledger.Answered),
                         ByOther(other.table.pending[there.value]))
            else result == (own, other, Dropped)
  {
    hide Header.HopByHop, Header.EndToEnd, Header.CommandCode;
    Header.RequestBit(msg);
  }

  /** A short message reads as an answer with zero fields, for the own table only. */
  lemma ShortAnswer(own: Ledger.Ledger, other: Ledger.Ledger, msg: seq<byte>)
    requires |msg| < 20
    ensures var here := Table.Lookup(own.table, 0, 0, 0);
            CrossLeg(own, other, msg)
            == if here.None? then (own, other, Dropped)
               else (Ledger.TakenOut(own, here.value, Ledger.Answered), other, ByOwn(own.table.pending[here.value]))
  {
  }

  // ----- from the request on the wire to its answer -----

  /** An answer that echoes a request's identifiers and command. */
  predicate Echoes(answer: Header.Message, request: Header.Message) {
    && answer[4] / 0x80 == 0
    && Header.HopByHop(answer) == Header.HopByHop(request)
    && Header.EndToEnd(answer) == Header.EndToEnd(request)
    && Header.CommandCode(answer) == Header.CommandCode(request)
  }

  /** If transaction `id` is pending, the endpoint completes that one and touches no other, here or on another leg. */
  ghost predicate CompletesExactly(l: Ledger.Ledger, id: nat, other: Ledger.Ledger, answer: Header.Message) {
    Ledger.Live(l, id) ==>
      var h := l.regs[id].hbh;
      CrossLeg(l, other, answer) == (Ledger.TakenOut(l, h, Ledger.Answered), other, ByOwn(l.table.pending[h]))
  }

  /** From bytes to bytes: a request is sent with non-zero identifiers and registered; whatever happens to the table
      then, as long as the transaction is pending, an answer echoing the bytes on the wire completes exactly it. */
  lemma EchoResolvesSent(l: Ledger.Ledger, p: Node, request: Header.Message, answer: Header.Message,
                         between: seq<Ledger.Event>, other: Ledger.Ledger)
    requires Ledger.Inv(l) && p.state == Open && p.sock
    requires Assign(p, request).hbh != 0 && Assign(p, request).e2e != 0
    requires Echoes(answer, OnWire(p, request))
    ensures CompletesExactly(Ledger.Run(Registered(l, p, request), between), |l.regs|, other, answer)
  {
    hide Assign, OnWire, Header.HopByHop, Header.EndToEnd, Header.CommandCode, Ledger.Inv, Ledger.TakenOut, CrossLeg;
    var o, id := Assign(p, request), |l.regs|;
    SentOnWire(p, request);
    var ev := Ledger.Registers(o.hbh, o.e2e, Header.CommandCode(o.bytes));
    var l1 := Ledger.Step(l, ev);
    Ledger.StepKeeps(l, ev);
    Ledger.LedgerOfRun(l1, between);
    var l2 := Ledger.Run(l1, between);
    assert l1.regs[id] == Ledger.Registration(o.hbh, o.e2e, Header.CommandCode(o.bytes));
    if Ledger.Live(l2, id) {
      assert l2.regs[id] == l1.regs[id];
      OwnKeyIsFound(l2, id);
      AnswerCompletes(l2, other, answer);
    }
  }

  lemma OwnKeyIsFound(l: Ledger.Ledger, id: nat)
    requires Ledger.Inv(l) && Ledger.Live(l, id)
    ensures var r := l.regs[id]; Table.Lookup(l.table, r.hbh, r.e2e, r.cmd) == Some(r.hbh)
  {
  }
}
