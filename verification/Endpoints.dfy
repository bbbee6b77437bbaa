/** Class `DiameterClient`, and the operations it has in common with `DiameterServer`: correlation of requests and
    answers over peers and tables. */
module Endpoints {
  import opened Bytes
  import opened Messages
  import opened PeerMachine
  import opened Correlation
  import opened Transactions
  import Header
  import Identifiers
  import Ledger
  import PeerObject
  import Table

  /** The object graph of a peer. */
  function Footprint(peer: PeerObject.Peer?): set<object> {
    if peer == null then {} else {peer, peer.nodeEndToEnd}
  }

  /** Copies a request and draws the identifiers left at zero. */
  method AssignIdentifiers(peer: PeerObject.Peer, request: Header.Message)
    returns (bytes: seq<byte>, hbh: uint32, e2e: uint32)
    requires peer.Valid()
    modifies peer, peer.nodeEndToEnd
    ensures peer.Valid()
    ensures var o := Assign(old(peer.Value()), request);
            bytes == o.bytes && hbh == o.hbh && e2e == o.e2e && peer.Value() == o.peer
  {
    hide Header.WithU32, Header.HopByHop, Header.EndToEnd, U32;
    var buf := new byte[|request|](i requires 0 <= i < |request| => request[i]);
    assert buf[..] == request;
    hbh := Header.HopByHop(buf[..]);
    if hbh == 0 {
      hbh := peer.NextHopByHop();
      Header.SetU32(buf, 12, hbh);
    }
    e2e := Header.EndToEnd(buf[..]);
    if e2e == 0 {
      e2e := peer.nodeEndToEnd.Draw();
      Header.SetU32(buf, 16, e2e);
    }
    bytes := buf[..];
  }

  /** The first half of a send: assign the identifiers and register the transaction. */
  method Register(peer: PeerObject.Peer, table: TransactionTable, request: Header.Message)
    returns (bytes: seq<byte>, hbh: uint32, e2e: uint32, id: nat)
    requires peer.Valid() && table.Valid()
    modifies peer, peer.nodeEndToEnd, table
    ensures peer.Valid() && table.Valid()
    ensures var o := Assign(old(peer.Value()), request);
            bytes == o.bytes && hbh == o.hbh && e2e == o.e2e && peer.Value() == o.peer
    ensures table.ledger == Registered(old(table.ledger), old(peer.Value()), request) && id == |old(table.ledger).regs|
  {
    hide Assign, Header.CommandCode, Ledger.Step, Ledger.Inv;
    bytes, hbh, e2e := AssignIdentifiers(peer, request);
    id := table.Add(hbh, e2e, Header.CommandCode(bytes));
  }

  /** The second half: hand the message to the peer, and roll back if it refuses. Between the halves anything may
      happen to the peer and to the table; registrations are never forgotten. */
  method Submit(peer: PeerObject.Peer, table: TransactionTable, bytes: seq<byte>, hbh: uint32, e2e: uint32, id: nat)
    returns (key: uint32)
    requires peer.Valid() && table.Valid()
    requires id < |table.ledger.regs| && table.ledger.regs[id].hbh == hbh && table.ledger.regs[id].e2e == e2e
    modifies peer, peer.nodeEndToEnd, table
    ensures peer.Valid() && table.Valid()
    ensures peer.Value() == SendMessage(old(peer.Value()), bytes)
    ensures if Accepts(old(peer.Value()), bytes) then key == hbh && table.ledger == old(table.ledger)
            else key == 0 && table.ledger == Ledger.Step(old(table.ledger), Ledger.Refused(id))
  {
    hide SendMessage, Ledger.Step, Ledger.Inv;
    var accepted := peer.SendMessage(bytes);
    if !accepted {
      table.Withdraw(hbh, e2e, id);
      return 0;
    }
    key := hbh;
  }

  /** `tryResolve` of either endpoint. */
  method TryResolve(table: TransactionTable, answer: seq<byte>) returns (resolved: Option<Table.Pending>)
    requires table.Valid()
    modifies table
    ensures table.Valid()
    ensures if |answer| < 20 || answer[4] / 0x80 == 1
            then resolved == None && table.ledger == old(table.ledger)
            else resolved == Hit(old(table.Value()), answer)
                 && table.ledger == Ledger.Step(old(table.ledger), Resolving(answer))
  {
    hide Ledger.Step, Ledger.Inv, Table.Lookup;
    if |answer| >= Header.SIZE {
      Header.RequestBit(answer);
    }
    if |answer| < Header.SIZE || Header.IsRequest(answer) {
      return None;
    }
    resolved := table.Answer(Header.HopByHop(answer), Header.EndToEnd(answer), Header.CommandCode(answer));
  }

  /** An inbound answer: the own table, then the other leg through the callback for unmatched answers. */
  method Correlate(own: TransactionTable, other: TransactionTable, msg: seq<byte>) returns (v: Verdict)
    requires own.Valid() && other.Valid() && own != other && !IsLongRequest(msg)
    modifies own, other
    ensures own.Valid() && other.Valid()
    ensures (own.ledger, other.ledger, v) == CrossLeg(old(own.ledger), old(other.ledger), msg)
  {
    hide Ledger.Step, Ledger.Inv, Table.Lookup, Header.HopByHop, Header.EndToEnd, Header.CommandCode;
    MissesAreNoSteps(own.ledger, other.ledger, msg);
    var resolved := own.Answer(HopByHopOrZero(msg), EndToEndOrZero(msg), CommandOrZero(msg));
    if resolved.Some? {
      return ByOwn(resolved.value);
    }
    var elsewhere := TryResolve(other, msg);
    if elsewhere.Some? {
      return ByOther(elsewhere.value);
    }
    v := Dropped;
  }

  lemma MissesAreNoSteps(own: Ledger.Ledger, other: Ledger.Ledger, msg: seq<byte>)
    ensures Hit(own.table, msg) == None ==> Ledger.Step(own, Resolving(msg)) == own
    ensures Hit(other.table, msg) == None ==> Ledger.Step(other, Resolving(msg)) == other
  {
    hide Ledger.Step, Hit;
    if Hit(own.table, msg) == None {
      MissIsNoStep(own, msg);
    }
    if Hit(other.table, msg) == None {
      MissIsNoStep(other, msg);
    }
  }

  class DiameterClient {
    const cfg: Config
    const node: Identifiers.Counter
    const table: TransactionTable
    var peer: PeerObject.Peer?

    ghost predicate Valid()
      reads this, table, Footprint(peer)
    {
      table.Valid() && (peer != null ==> peer.Valid())
    }

    constructor (cfg: Config, node: Identifiers.Counter)
      ensures Valid() && peer == null && table.ledger == Ledger.INIT && fresh(table)
      ensures this.cfg == cfg && this.node == node
    {
      this.cfg, this.node, peer := cfg, node, null;
      table := new TransactionTable();
    }

    /** A new peer for each connection; the table outlives it. */
    method Connect(seed: uint32, react: Reaction)
      requires Valid()
      modifies this`peer, node
      ensures Valid() && peer != null && fresh(peer) && peer.nodeEndToEnd == node
      ensures peer.Value() == PeerMachine.Connect(NewNode(cfg, seed, old(node.next)), react)
      ensures table.ledger == old(table.ledger)
    {
      hide PeerMachine.Connect, Ledger.Inv;
      var p := new PeerObject.Peer(cfg, node, seed);
      p.Connect(react);
      peer := p;
    }

    /** Refused at once unless the peer is Open. An uninterrupted send is then accepted. */
    method Send(request: seq<byte>) returns (key: uint32)
      requires Valid()
      modifies table, Footprint(peer)
      ensures Valid()
      ensures if peer == null || old(peer.state) != Open || |request| < Header.SIZE
              then key == 0 && table.ledger == old(table.ledger) && (peer != null ==> peer.Value() == old(peer.Value()))
              else
                var o := Assign(old(peer.Value()), request);
                && key == o.hbh
                && table.ledger == Registered(old(table.ledger), old(peer.Value()), request)
                && peer.Value() == SendMessage(o.peer, o.bytes)
    {
      hide Assign, SendMessage, Ledger.Step, Ledger.Inv;
      if peer == null || peer.state != Open {
        return 0;
      }
      if |request| < Header.SIZE {
        return 0;
      }
      AssignedLength(peer.Value(), request);
      RegisteredKeys(table.ledger, peer.Value(), request);
      var bytes, hbh, e2e, id := Register(peer, table, request);
      key := Submit(peer, table, bytes, hbh, e2e, id);
    }

    /** The expiry handler of transaction `timer`. */
    method OnExpiry(hbh: uint32, ghost timer: nat) returns (expired: Option<Table.Pending>)
      requires Valid() && timer < |table.ledger.regs| && table.ledger.regs[timer].hbh == hbh
      modifies table
      ensures Valid() && table.ledger == Ledger.Step(old(table.ledger), Ledger.Expiry(timer))
      ensures expired == if hbh in old(table.pending) then Some(old(table.pending)[hbh]) else None
    {
      hide Ledger.Step, Ledger.Inv;
      expired := table.TimeOut(hbh, timer);
    }

    /** An inbound application message; the callback for unmatched answers is the other leg's `tryResolve`. */
    method OnPeerRequest(msg: seq<byte>, other: TransactionTable) returns (v: Verdict)
      requires Valid() && other.Valid() && table != other
      modifies table, other
      ensures Valid() && other.Valid()
      ensures (table.ledger, other.ledger, v)
              == if |msg| < Header.SIZE then (old(table.ledger), old(other.ledger), Dropped)
                 else CrossLeg(old(table.ledger), old(other.ledger), msg)
      ensures v == ToRequestCallback <==> |msg| >= 20 && msg[4] / 0x80 == 1
    {
      hide Ledger.Step, Ledger.Inv, Hit;
      if |msg| < Header.SIZE {
        return Dropped;
      }
      if !Header.IsRequest(msg) {
        v := Correlate(table, other, msg);
        return;
      }
      v := ToRequestCallback;
    }

    method Close(react: Reaction)
      requires Valid()
      modifies table, Footprint(peer)
      ensures Valid() && table.ledger == Ledger.Step(old(table.ledger), Ledger.Clears) && table.pending == map[]
      ensures peer != null ==> peer.Value() == ForceClose(old(peer.Value()), react)
    {
      hide Ledger.Inv;
      if peer != null {
        peer.Close(react);
      }
      table.Clear();
    }
  }

  lemma RegisteredKeys(l: Ledger.Ledger, p: Node, request: Header.Message)
    ensures var o, l' := Assign(p, request), Registered(l, p, request);
            |l'.regs| == |l.regs| + 1 && l'.regs[|l.regs|].hbh == o.hbh && l'.regs[|l.regs|].e2e == o.e2e
  {
    hide Assign;
  }
}
