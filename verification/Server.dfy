/** Class `DiameterServer`: the list of accepted peers and the server-initiated transactions. A peer's state reports
    reach the server's callback; the model hands them over at the end of the handler that made them. */
module Server {
  import opened Bytes
  import opened Messages
  import opened PeerMachine
  import opened PeerHistory
  import opened Correlation
  import opened Endpoints
  import opened PeerObject
  import opened Transactions
  import Header
  import Identifiers
  import Ledger
  import Table

  /** The peer's reports are in order and up to date, and it has a socket unless it is Closed. */
  ghost predicate Told(p: Peer)
    reads p
  {
    && p.reported != [] && p.reported[|p.reported| - 1] == p.state
    && InOrder(p.reported)
    && (p.state != State.Closed ==> p.socketOpen)
  }

  predicate NoDuplicates(ps: seq<Peer>) { forall i, j :: 0 <= i < j < |ps| ==> ps[i] != ps[j] }

  /** The Open peers of a list. */
  function CountOpen(ps: seq<Peer>): nat
    reads ps
  {
    if ps == [] then 0
    else
      var n := |ps| - 1;
      CountOpen(ps[..n]) + if ps[n].state == Open then 1 else 0
  }

  function OpenIn(ps: seq<Peer>): set<Peer>
    reads ps
  {
    set p | p in ps && p.state == Open
  }

  lemma OpenInSnoc(ps: seq<Peer>, last: Peer)
    ensures OpenIn(ps + [last]) == OpenIn(ps) + if last.state == Open then {last} else {}
  {
  }

  lemma {:induction false} CountIsSize(ps: seq<Peer>)
    requires NoDuplicates(ps)
    ensures CountOpen(ps) == |OpenIn(ps)|
  {
    if ps == [] {
      assert OpenIn(ps) == {};
    } else {
      hide OpenIn;
      var n := |ps| - 1;
      CountIsSize(ps[..n]);
      assert ps == ps[..n] + [ps[n]];
      OpenInSnoc(ps[..n], ps[n]);
      LastIsNew(ps);
    }
  }

  lemma LastIsNew(ps: seq<Peer>)
    requires NoDuplicates(ps) && ps != []
    ensures ps[|ps| - 1] !in OpenIn(ps[..|ps| - 1])
  {
  }

  class DiameterServer {
    const cfg: Config
    const node: Identifiers.Counter
    const table: TransactionTable
    var peers: seq<Peer>
    /** Every peer ever accepted. */
    ghost var accepted: set<Peer>

    /** Between handlers the list has no duplicates and holds exactly the accepted peers that are not Closed. */
    ghost predicate Listed()
      reads this, accepted
    {
      && NoDuplicates(peers)
      && (forall p :: p in peers ==> p in accepted)
      && (forall p :: p in accepted ==> p.Valid() && p.nodeEndToEnd == node && Told(p))
      && (forall p :: p in accepted ==> (p in peers <==> p.state != State.Closed))
    }

    constructor (cfg: Config, node: Identifiers.Counter)
      ensures Listed() && peers == [] && accepted == {}
      ensures table.Valid() && table.ledger == Ledger.INIT && fresh(table)
      ensures this.node == node && this.cfg == cfg
    {
      this.cfg, this.node := cfg, node;
      table := new TransactionTable();
      peers, accepted := [], {};
    }

    // ----- the peer list -----

    /** The callback of a peer's state reports. */
    method OnPeerStateChange(peer: Peer, s: State)
      requires NoDuplicates(peers)
      modifies this`peers
      ensures NoDuplicates(peers) && |peers| <= |old(peers)|
      ensures forall p :: p in peers <==> p in old(peers) && !(p == peer && s == State.Closed)
    {
      if s == State.Closed {
        var kept: seq<Peer> := [];
        var i := 0;
        while i < |peers|
          invariant 0 <= i <= |peers|
          invariant NoDuplicates(kept) && |kept| <= i
          invariant forall p :: p in kept <==> p in peers[..i] && p != peer
        {
          if peers[i] != peer {
            assert peers[i] !in peers[..i];
            kept := kept + [peers[i]];
          }
          i := i + 1;
        }
        peers := kept;
      }
    }

    /** Hands over the reports a peer has made since it had made `from`. */
    method HandOver(peer: Peer, from: nat)
      requires NoDuplicates(peers) && from <= |peer.reported|
      modifies this`peers
      ensures NoDuplicates(peers) && |peers| <= |old(peers)|
      ensures forall p :: p in peers <==> p in old(peers) && !(p == peer && State.Closed in peer.reported[from..])
    {
      var i := from;
      while i < |peer.reported|
        invariant from <= i <= |peer.reported|
        invariant NoDuplicates(peers) && |peers| <= |old(peers)|
        invariant forall p :: p in peers <==> p in old(peers) && !(p == peer && State.Closed in peer.reported[from..i])
      {
        OnPeerStateChange(peer, peer.reported[i]);
        i := i + 1;
      }
    }

    /** A connection is accepted: the peer is listed, then started. */
    method Accept(seed: uint32, react: Reaction) returns (peer: Peer)
      requires Listed()
      modifies this`peers, this`accepted, node
      ensures Listed() && fresh(peer) && accepted == old(accepted) + {peer}
      ensures peer.Value() == PeerMachine.Start(NewNode(cfg, seed, old(node.next)), react)
    {
      hide RunCalls, SetState, InOrder, PeerMachine.Start, Wired;
      peer := new Peer(cfg, node, seed);
      peers := peers + [peer];
      accepted := accepted + {peer};
      ghost var created := peer.Value();
      peer.Start(react);
      FirstReport(created, false, react);
      StartIsWired(created, react);
      HandOver(peer, 0);
      ClosedIsLast(peer.reported, 0, peer.state);
    }

    /** Something happens at an accepted peer. */
    method OnPeerEvent(peer: Peer, i: Input)
      requires Listed() && peer in accepted && !i.Connected?
      modifies this`peers, peer, node
      ensures Listed() && accepted == old(accepted)
      ensures peer.Value() == Apply(old(peer.Value()), i)
    {
      hide Apply, InOrder;
      var from := |peer.reported|;
      Dispatch(peer, i);
      HandOver(peer, from);
      ClosedIsLast(peer.reported, from, peer.state);
    }

    /** How many accepted peers are Open. */
    method ActivePeerCount() returns (count: nat)
      requires Listed()
      ensures count == |set p | p in accepted && p.state == Open|
    {
      hide Told;
      count := 0;
      var i := 0;
      while i < |peers|
        invariant 0 <= i <= |peers| && count == CountOpen(peers[..i])
      {
        if peers[i].state == Open {
          count := count + 1;
        }
        i := i + 1;
        assert peers[..i][..i - 1] == peers[..i - 1];
      }
      assert peers[..i] == peers;
      CountIsSize(peers);
      assert (set p | p in accepted && p.state == Open) == OpenIn(peers);
    }

    /** One round of `shutdown`. */
    method Stop(peer: Peer, cause: uint32, react: Reaction)
      requires Listed() && peer in accepted
      modifies this`peers, peer, node
      ensures Listed() && accepted == old(accepted) && Stopped(peer, cause, react)
    {
      hide Apply, Asks, AllMild, InOrder;
      if peer.state == Open {
        ghost var before := peer.Value();
        OnPeerEvent(peer, UserCall(PeerMachine.Disconnect(cause), react));
        DisconnectEndsOpen(before, cause, react);
        ghost var after := peer.Value();
        assert after.state != Open;
      }
    }

    /** Disconnects the Open peers of the list as it is at the call. Each peer's callbacks may react differently. */
    method Shutdown(cause: uint32, reacts: Peer -> Reaction)
      requires Listed()
      modifies this`peers, peers, node
      ensures Listed() && accepted == old(accepted)
      ensures forall p :: p in old(peers) ==> Stopped(p, cause, reacts(p))
    {
      hide Told, Asks, AllMild;
      var copy := peers;
      var i := 0;
      while i < |copy|
        invariant 0 <= i <= |copy|
        invariant Listed() && accepted == old(accepted)
        invariant NoDuplicates(copy) && forall j :: 0 <= j < |copy| ==> copy[j] in accepted
        invariant forall j :: 0 <= j < i ==> Stopped(copy[j], cause, reacts(copy[j]))
        invariant forall j :: i <= j < |copy| ==> unchanged(copy[j])
      {
        Stop(copy[i], cause, reacts(copy[i]));
        i := i + 1;
      }
    }

    /** Takes all peers out of the list, then closes each. */
    method Close(reacts: Peer -> Reaction)
      requires Listed()
      modifies this`peers, peers, node
      ensures Listed() && accepted == old(accepted) && peers == []
      ensures forall p :: p in accepted ==> p.state == State.Closed
      ensures forall p :: p in old(peers) ==> !p.socketOpen
    {
      hide Apply, CountOpen, InOrder, Told;
      var copy := peers;
      peers := [];
      var i := 0;
      while i < |copy|
        invariant 0 <= i <= |copy| && peers == []
        invariant forall p :: p in accepted ==> p.Valid() && p.nodeEndToEnd == node && Told(p)
        invariant forall p :: p in accepted ==> (p in copy[i..] || p.state == State.Closed)
        invariant forall j :: 0 <= j < i ==> !copy[j].socketOpen
      {
        assert copy[i..] == [copy[i]] + copy[i + 1..];
        CloseOne(copy[i], reacts(copy[i]));
        HandOver(copy[i], 0);
        i := i + 1;
      }
    }

    // ----- transactions -----

    /** Unlike the client's `send`, this does not look at the peer's state first: the peer refuses the message when
        it is not Open, and the registration is then rolled back. */
    method SendRequest(peer: Peer?, request: seq<byte>) returns (key: uint32)
      requires table.Valid() && (peer != null ==> peer.Valid())
      modifies table, Footprint(peer)
      ensures table.Valid() && (peer != null ==> peer.Valid())
      ensures if peer == null || |request| < Header.SIZE
              then key == 0 && table.ledger == old(table.ledger) && (peer != null ==> peer.Value() == old(peer.Value()))
              else
                var o := Assign(old(peer.Value()), request);
                var registered := Registered(old(table.ledger), old(peer.Value()), request);
                && peer.Value() == SendMessage(o.peer, o.bytes)
                && if old(peer.state) == Open
                   then key == o.hbh && table.ledger == registered
                   else key == 0 && table.ledger == Ledger.Step(registered, Ledger.Refused(|old(table.ledger).regs|))
    {
      hide Assign, SendMessage, Ledger.Step, Ledger.Inv;
      if peer == null || |request| < Header.SIZE {
        return 0;
      }
      AssignedLength(peer.Value(), request);
      RegisteredKeys(table.ledger, peer.Value(), request);
      var bytes, hbh, e2e, id := Register(peer, table, request);
      key := Submit(peer, table, bytes, hbh, e2e, id);
    }

    /** The expiry handler of transaction `timer`. */
    method OnExpiry(hbh: uint32, ghost timer: nat) returns (expired: Option<Table.Pending>)
      requires table.Valid() && timer < |table.ledger.regs| && table.ledger.regs[timer].hbh == hbh
      modifies table
      ensures table.Valid() && table.ledger == Ledger.Step(old(table.ledger), Ledger.Expiry(timer))
      ensures expired == if hbh in old(table.pending) then Some(old(table.pending)[hbh]) else None
    {
      hide Ledger.Step, Ledger.Inv;
      expired := table.TimeOut(hbh, timer);
    }

    /** An inbound application message; the callback for unmatched answers is the other leg's `tryResolve`. */
    method OnPeerMessage(msg: seq<byte>, other: TransactionTable) returns (v: Verdict)
      requires table.Valid() && other.Valid() && table != other
      modifies table, other
      ensures table.Valid() && other.Valid()
      ensures (table.ledger, other.ledger, v) == CrossLeg(old(table.ledger), old(other.ledger), msg)
      ensures v == ToRequestCallback <==> |msg| >= 20 && msg[4] / 0x80 == 1
    {
      hide Ledger.Step, Ledger.Inv, Hit;
      if !IsLongRequest(msg) {
        v := Correlate(table, other, msg);
        return;
      }
      v := ToRequestCallback;
    }
  }

  /** What `shutdown` makes of a peer of its snapshot: it is not Open, it was left alone if it was not, and if no
      callback closed it, it is Closing with one request written. */
  twostate predicate Stopped(p: Peer, cause: uint32, react: Reaction)
    reads p
  {
    && p.state != Open
    && (old(p.state) != Open ==> p.state == old(p.state) && p.out == old(p.out))
    && (old(p.state) == Open && AllMild(react(Closing)) ==> p.state == Closing && Asks(old(p.sent), p.sent, cause))
  }

  /** One input at an accepted peer. */
  method Dispatch(peer: Peer, i: Input)
    requires peer.Valid() && Told(peer) && !i.Connected?
    modifies peer, peer.nodeEndToEnd
    ensures peer.Valid() && Told(peer)
    ensures peer.Value() == Apply(old(peer.Value()), i)
    ensures old(peer.reported) <= peer.reported
  {
    hide PeerMachine.OnMessage, OnBytes, DoCall, OnError, OnTimer, OnAnswerWritten, TimerElapses, InOrder;
    InputContinues(peer.Value(), i);
    InputKeepsWired(peer.Value(), i);
    match i {
      case Message(bytes, react, onApp) => peer.OnMessage(bytes, react, onApp);
      case Error(react) => peer.OnError(react);
      case Elapses => peer.TimerElapses();
      case Timer =>
        if peer.watchdogDue > 0 {
          peer.OnTimer();
        }
      case Written(react) =>
        if peer.answersOut > 0 {
          peer.OnAnswerWritten(react);
        }
      case UserCall(call, react) => peer.Serve(call, react);
    }
  }

  method CloseOne(peer: Peer, react: Reaction)
    requires peer.Valid() && Told(peer)
    modifies peer, peer.nodeEndToEnd
    ensures peer.Valid() && Told(peer) && peer.state == State.Closed && !peer.socketOpen
    ensures peer.Value() == ForceClose(old(peer.Value()), react)
  {
    hide Apply, InOrder, Told;
    ghost var before := peer.Value();
    Dispatch(peer, UserCall(PeerMachine.Close, react));
    ForceCloseForm(before, react);
    CloseIsForceClose(before, react);
    ghost var after := peer.Value();
    assert after.state == State.Closed && !after.sock;
  }

  lemma CloseIsForceClose(p: Node, react: Reaction)
    ensures Apply(p, UserCall(PeerMachine.Close, react)) == ForceClose(p, react)
  {
  }

  lemma StartIsWired(p: Node, react: Reaction)
    requires p.state == State.Closed && p.sock
    ensures Wired(PeerMachine.Start(p, react))
  {
    CallsKeepWired(p.(state := WaitCER, reported := p.reported + [WaitCER]), react(WaitCER), react);
  }

  lemma NothingAfterClosed(reports: seq<State>, k: nat)
    requires InOrder(reports) && k < |reports| && reports[k] == State.Closed
    ensures k == |reports| - 1
  {
    assert Rank(reports[k]) <= Rank(reports[|reports| - 1]);
  }

  /** With reports in order, Closed is among the later ones exactly when the peer has become Closed. */
  lemma ClosedIsLast(reports: seq<State>, from: nat, state: State)
    requires InOrder(reports) && from <= |reports| && reports != [] && reports[|reports| - 1] == state
    ensures State.Closed in reports[from..] <==> from < |reports| && state == State.Closed
    ensures from > 0 && reports[from - 1] == State.Closed ==> from == |reports|
  {
    if from > 0 && reports[from - 1] == State.Closed {
      NothingAfterClosed(reports, from - 1);
    }
    if State.Closed in reports[from..] {
      var i :| 0 <= i < |reports[from..]| && reports[from..][i] == State.Closed;
      NothingAfterClosed(reports, from + i);
    }
    if from < |reports| && state == State.Closed {
      assert reports[from..][|reports| - 1 - from] == State.Closed;
    }
  }

  lemma DisconnectEndsOpen(p: Node, cause: uint32, react: Reaction)
    requires p.state == Open && p.sock
    ensures var q := Apply(p, UserCall(PeerMachine.Disconnect(cause), react));
            && q.state != Open
            && (AllMild(react(Closing)) ==> q.state == Closing && Asks(p.wrote, q.wrote, cause))
  {
    DisconnectForm(p, cause, react);
  }

  /** One disconnect request with the cause has been written. */
  predicate Asks(before: seq<Msg>, after: seq<Msg>, cause: uint32) {
    && |after| == |before| + 1 && before <= after
    && after[|before|].Base? && after[|before|].kind == DPR && after[|before|].cause == cause
  }
}
