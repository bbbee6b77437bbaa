/** A client peer and a server peer on one connection. Each side's `wrote` is the history of its channel; the other
    side has read a prefix of it. Messages leave whole and in the order their writes were initiated. */
module TwoPeers {
  import opened Bytes
  import opened Messages
  import opened PeerMachine
  import Header
  import Identifiers

  datatype Side = Client | Server

  function Opposite(side: Side): Side { if side == Client then Server else Client }

  /** `dialing`: the client's transport completion is outstanding; `accepting`: the server peer is not started yet.
      `reset`: the connection broke without either side closing it. */
  datatype Sys = Sys(c: Node, s: Node, readByC: nat, readByS: nat, dialing: bool, accepting: bool, reset: bool)

  function Me(y: Sys, side: Side): Node { if side == Client then y.c else y.s }

  function Them(y: Sys, side: Side): Node { Me(y, Opposite(side)) }

  /** How many of the other side's messages `side` has read. */
  function Read(y: Sys, side: Side): nat { if side == Client then y.readByC else y.readByS }

  predicate Begun(y: Sys, side: Side) { if side == Client then !y.dialing else !y.accepting }

  function With(y: Sys, side: Side, n: Node): Sys { if side == Client then y.(c := n) else y.(s := n) }

  function ReadOneMore(y: Sys, side: Side): Sys {
    if side == Client then y.(readByC := y.readByC + 1) else y.(readByS := y.readByS + 1)
  }

  /** The connection is cut: `side` will get an error from its reads. */
  predicate Cut(y: Sys, side: Side) { !Me(y, side).sock || !Them(y, side).sock || y.reset }

  datatype Event =
    | Connected(react: Reaction)
    | Started(react: Reaction)
    | Delivered(to: Side, react: Reaction, onApp: seq<Call>)
    | EndOfStream(at: Side, react: Reaction)
    | WriteFailed(at: Side, react: Reaction)
    | AnswerWritten(at: Side, react: Reaction)
    | AnswerFailed(at: Side, react: Reaction)
    | Elapsed(at: Side)
    | TimerFired(at: Side)
    | UserCalled(at: Side, call: Call, react: Reaction)
    | Broken

  /** Where an event happens; a broken network happens to no peer. */
  function PlaceOf(e: Event): Side
    requires !e.Broken?
  {
    match e
    case Connected(_) => Client
    case Started(_) => Server
    case Delivered(to, _, _) => to
    case EndOfStream(at, _) => at
    case WriteFailed(at, _) => at
    case AnswerWritten(at, _) => at
    case AnswerFailed(at, _) => at
    case Elapsed(at) => at
    case TimerFired(at) => at
    case UserCalled(at, _, _) => at
  }

  predicate Enabled(y: Sys, e: Event) {
    match e
    case Connected(_) => y.dialing && y.c.sock
    case Started(_) => y.accepting && y.s.sock
    case Delivered(to, _, _) => Me(y, to).reading && Read(y, to) < |Them(y, to).wrote|
    case EndOfStream(at, _) => Me(y, at).reading && Cut(y, at)
    case WriteFailed(at, _) => Begun(y, at) && Cut(y, at)
    case AnswerWritten(at, _) => Me(y, at).dpaOut > 0
    case AnswerFailed(at, _) => Me(y, at).dpaOut > 0 && Begun(y, at) && Cut(y, at)
    case Elapsed(at) => Me(y, at).armed
    case TimerFired(at) => Me(y, at).due > 0
    case UserCalled(_, _, _) => true
    case Broken => true
  }

  function Apply(y: Sys, e: Event): Sys
    requires Enabled(y, e)
  {
    match e
    case Connected(react) => y.(c := OnConnected(y.c, true, react), dialing := false)
    case Started(react) => y.(s := Start(y.s, react), accepting := false)
    case Delivered(to, react, onApp) =>
      With(ReadOneMore(y, to), to, OnMessage(Me(y, to), Them(y, to).wrote[Read(y, to)], react, onApp))
    case EndOfStream(at, react) => With(y, at, OnError(Me(y, at).(reading := false), react))
    case WriteFailed(at, react) => With(y, at, OnError(Me(y, at), react))
    case AnswerWritten(at, react) => With(y, at, OnAnswerWritten(Me(y, at), react))
    case AnswerFailed(at, react) => With(y, at, OnError(Me(y, at).(dpaOut := Me(y, at).dpaOut - 1), react))
    case Elapsed(at) => With(y, at, TimerElapses(Me(y, at)))
    case TimerFired(at) => With(y, at, OnTimer(Me(y, at)))
    case UserCalled(at, call, react) => With(y, at, DoCall(Me(y, at), call, react))
    case Broken => y.(reset := true)
  }

  /** An event that is not enabled does not happen. */
  function Step(y: Sys, e: Event): Sys { if Enabled(y, e) then Apply(y, e) else y }

  function Run(y: Sys, es: seq<Event>): Sys
    decreases |es|
  {
    if es == [] then y else Run(Step(y, es[0]), es[1..])
  }

  /** Both peers are constructed and the client has called `connect`. */
  predicate IsStart(y: Sys) {
    && y.dialing && y.accepting && !y.reset && y.readByC == y.readByS == 0
    && Unused(y.c) && Unused(y.s) && y.c.state == WaitCEA && y.s.state == Closed
  }

  predicate Unused(p: Node) {
    p.sock && !p.reading && !p.armed && p.due == 0 && p.dpaOut == 0 && p.wrote == [] && p.delivered == []
  }

  // ----- the invariant -----

  predicate Is(m: Msg, k: Kind) { m.Base? && m.kind == k }

  ghost predicate InFlight(log: seq<Msg>, from: nat, k: Kind) { exists i :: from <= i < |log| && Is(log[i], k) }

  /** A peer waiting for the disconnect answer has something to wait for. */
  ghost predicate NotStuck(y: Sys, side: Side) {
    || Cut(y, side)
    || (Them(y, side).reading && InFlight(Me(y, side).wrote, Read(y, Opposite(side)), DPR))
    || Them(y, side).dpaOut > 0
    || InFlight(Them(y, side).wrote, Read(y, side), DPA)
  }

  ghost predicate Half(y: Sys, side: Side) {
    var me := Me(y, side);
    && Read(y, side) <= |Them(y, side).wrote|
    && (me.state != Closed ==> me.sock)
    && (me.reading ==> Begun(y, side))
    && (Begun(y, side) && me.state != Closed ==> me.reading)
    && (Begun(y, side) && me.state == Closed ==> Cut(y, side))
    && (me.state == Open || me.state == Closing ==> Begun(y, side))
    && (me.state == Closing ==> NotStuck(y, side))
    && (!Begun(y, side) ==> me.wrote == [] && me.delivered == [] && me.dpaOut == 0 && Read(y, side) == 0)
  }

  predicate Introduces(m: Msg, k: Kind, p: Node) {
    Is(m, k) && m.host == p.cfg.originHost && m.realm == p.cfg.originRealm
  }

  predicate SameIds(answer: Msg, request: Msg) {
    answer.Base? && request.Base? && answer.hbh == request.hbh && answer.e2e == request.e2e
  }

  predicate Knows(p: Node, q: Node) { p.remoteHost == q.cfg.originHost && p.remoteRealm == q.cfg.originRealm }

  ghost predicate Handshake(y: Sys) {
    && y.c.state != WaitCER && y.s.state != WaitCEA
    && (y.dialing ==> (y.c.state == WaitCEA && y.c.sock) || (y.c.state == Closed && !y.c.sock))
    && (y.accepting ==> y.s.state == Closed)
    && (!y.dialing ==> y.c.wrote != [])
    && (y.c.wrote != [] ==> Introduces(y.c.wrote[0], CER, y.c))
    && (y.s.wrote != [] ==>
          && Introduces(y.s.wrote[0], CEA, y.s) && y.readByS >= 1
          && y.c.wrote != [] && SameIds(y.s.wrote[0], y.c.wrote[0]))
    && (y.s.wrote == [] ==> |y.c.wrote| <= 1)
    && (y.c.state == WaitCEA ==> y.readByC == 0)
    && (y.s.state == WaitCER ==> y.readByS == 0 && y.s.wrote == [])
    && (y.c.state == Open || y.c.state == Closing ==> y.readByC >= 1 && Knows(y.c, y.s))
    && (y.s.state == Open || y.s.state == Closing ==> y.s.wrote != [] && Knows(y.s, y.c))
  }

  ghost predicate Inv(y: Sys) { Handshake(y) && Half(y, Client) && Half(y, Server) }

  lemma StartInv(y: Sys)
    requires IsStart(y)
    ensures Inv(y)
  {
  }

  // ----- what calls of the application can do to a peer -----

  /** The effect of any number of application calls, in any state. */
  ghost predicate ByCalls(p: Node, q: Node) {
    && q.cfg == p.cfg && q.remoteHost == p.remoteHost && q.remoteRealm == p.remoteRealm
    && q.reading == p.reading && q.due == p.due && q.dpaOut == p.dpaOut && q.delivered == p.delivered
    && (q.armed ==> p.armed)
    && p.wrote <= q.wrote
    && (forall i :: |p.wrote| <= i < |q.wrote| ==> q.wrote[i].App? || Is(q.wrote[i], DPR))
    && (q.wrote != p.wrote ==> p.state == Open)
    && (q.sock ==> p.sock)
    && (q.state != Closed ==> q.sock == p.sock)
    && (|| q.state == p.state
        || (q.state == Closed && !q.sock)
        || (p.state == Open && q.state == Closing && InFlight(q.wrote, |p.wrote|, DPR)))
  }

  lemma ByCallsTrans(p: Node, q: Node, r: Node)
    requires ByCalls(p, q) && ByCalls(q, r)
    ensures ByCalls(p, r)
  {
    if q.state == Closing && p.state == Open && r.state == Closing {
      var i :| |p.wrote| <= i < |q.wrote| && Is(q.wrote[i], DPR);
      assert r.wrote[i] == q.wrote[i];
    }
  }

  lemma ClosingByCalls(p: Node, react: Reaction)
    ensures ByCalls(p, ForceClose(p, react))
  {
    ForceCloseForm(p, react);
  }

  lemma CallByCalls(p: Node, c: Call, react: Reaction)
    requires p.state != Closed ==> p.sock
    ensures ByCalls(p, DoCall(p, c, react))
  {
    match c
    case Send(msg) => SendByCalls(p, msg);
    case Disconnect(cause) =>
      if p.state == Open {
        DisconnectByCalls(p, cause, react);
      } else {
        ClosingByCalls(p, react);
      }
    case Close => ClosingByCalls(p, react);
    case _ =>
  }

  lemma SendByCalls(p: Node, msg: seq<byte>)
    ensures ByCalls(p, SendMessage(p, msg))
  {
    hide Header.HopByHop, Header.EndToEnd, Header.WithHopByHop, Header.WithEndToEnd, InFlight, Identifiers.Next;
  }

  lemma DisconnectByCalls(p: Node, cause: uint32, react: Reaction)
    requires p.state == Open && p.sock
    ensures ByCalls(p, StartDisconnect(p, cause, react))
  {
    DisconnectForm(p, cause, react);
    var r := StartDisconnect(p, cause, react);
    if AllMild(react(Closing)) {
      assert Is(r.wrote[|p.wrote|], DPR);
    }
  }

  lemma {:induction false} RunByCalls(p: Node, calls: seq<Call>, react: Reaction)
    requires p.state != Closed ==> p.sock
    ensures ByCalls(p, RunCalls(p, calls, react))
    decreases |calls|
  {
    if calls == [] {
      assert ByCalls(p, p);
    } else {
      hide ByCalls, DoCall;
      var q := DoCall(p, calls[0], react);
      CallByCalls(p, calls[0], react);
      ByCallsSock(p, q);
      RunByCalls(q, calls[1..], react);
      ByCallsTrans(p, q, RunCalls(p, calls, react));
    }
  }

  lemma ByCallsSock(p: Node, q: Node)
    requires ByCalls(p, q) && (p.state != Closed ==> p.sock)
    ensures q.state != Closed ==> q.sock
  {
  }

  /** What calls do to one peer keeps the invariant. */
  lemma CallsKeep(y: Sys, side: Side, q: Node)
    requires Inv(y) && ByCalls(Me(y, side), q)
    ensures Inv(With(y, side, q))
  {
    var z := With(y, side, q);
    CallsKeepHandshake(y, side, q);
    CallsKeepMine(y, side, q);
    CallsKeepTheirs(y, side, q);
  }

  lemma CallsKeepHandshake(y: Sys, side: Side, q: Node)
    requires Inv(y) && ByCalls(Me(y, side), q)
    ensures Handshake(With(y, side, q))
  {
  }

  lemma CallsKeepMine(y: Sys, side: Side, q: Node)
    requires Inv(y) && ByCalls(Me(y, side), q)
    ensures Half(With(y, side, q), side)
  {
    var z, p, them := With(y, side, q), Me(y, side), Opposite(side);
    if q.state == Closing && !Cut(z, side) {
      assert !Cut(y, side);
      if p.state == Open {
        var i :| |p.wrote| <= i < |q.wrote| && Is(q.wrote[i], DPR);
        assert InFlight(q.wrote, Read(z, them), DPR);
        assert Half(y, them);
      } else {
        if InFlight(p.wrote, Read(y, them), DPR) {
          assert q.wrote == p.wrote;
        }
      }
    }
  }

  lemma CallsKeepTheirs(y: Sys, side: Side, q: Node)
    requires Inv(y) && ByCalls(Me(y, side), q)
    ensures Half(With(y, side, q), Opposite(side))
  {
    var z, p, them := With(y, side, q), Me(y, side), Opposite(side);
    assert Half(y, them);
    if Me(y, them).state == Closing && !Cut(z, them) {
      if InFlight(p.wrote, Read(y, them), DPA) {
        var i :| Read(y, them) <= i < |p.wrote| && Is(p.wrote[i], DPA);
        assert q.wrote[i] == p.wrote[i];
      }
    }
  }

  // ----- what each event does -----

  /** A peer that ends up closed on a cut connection keeps the invariant, whatever else was pending. */
  ghost predicate ByClosing(p: Node, q: Node) {
    && q.cfg == p.cfg && q.wrote == p.wrote && q.delivered == p.delivered
    && q.state == Closed && (q.sock ==> p.sock) && (q.reading ==> p.reading)
  }

  lemma ClosingKeeps(y: Sys, side: Side, q: Node)
    requires Inv(y) && Begun(y, side) && ByClosing(Me(y, side), q)
    requires Cut(With(y, side, q), side)
    ensures Inv(With(y, side, q))
  {
    var z, them := With(y, side, q), Opposite(side);
    assert Half(y, them) && Half(y, side);
    assert Half(z, them);
    assert Half(z, side);
  }

  lemma ErrorKeeps(y: Sys, side: Side, p: Node, react: Reaction)
    requires Inv(y) && Begun(y, side) && Cut(y, side)
    requires p == Me(y, side).(reading := p.reading, dpaOut := p.dpaOut) && (p.reading ==> Me(y, side).reading)
    ensures Inv(With(y, side, OnError(p, react)))
  {
    OnErrorForm(p, react);
    ClosingKeeps(y, side, OnError(p, react));
  }

  lemma AnswerWrittenKeeps(y: Sys, side: Side, react: Reaction)
    requires Inv(y) && Me(y, side).dpaOut > 0
    ensures Inv(With(y, side, OnAnswerWritten(Me(y, side), react)))
  {
    var p := Me(y, side);
    assert Half(y, side);
    ForceCloseForm(p.(dpaOut := p.dpaOut - 1), react);
    ClosingKeeps(y, side, OnAnswerWritten(p, react));
  }

  lemma ConnectedKeeps(y: Sys, react: Reaction)
    requires Inv(y) && Enabled(y, Connected(react))
    ensures Inv(Apply(y, Connected(react)))
  {
    var z := Apply(y, Connected(react));
    assert z.c.wrote[0] == Own(y.c.cfg, CER, y.c.hopByHop, y.c.endToEnd, 0) && |z.c.wrote| == 1;
    assert Half(y, Client) && Half(y, Server);
    assert Handshake(z);
    assert Half(z, Client);
    assert Half(z, Server);
  }

  lemma StartedKeeps(y: Sys, react: Reaction)
    requires Inv(y) && Enabled(y, Started(react))
    ensures Inv(Apply(y, Started(react)))
  {
    var p := y.s.(state := WaitCER, reported := y.s.reported + [WaitCER], reading := true);
    var z := y.(s := p, accepting := false);
    assert Half(y, Client) && Half(y, Server);
    assert Handshake(z);
    assert Half(z, Client);
    assert Half(z, Server);
    var q := RunCalls(p.(reading := y.s.reading), react(WaitCER), react);
    RunByCalls(p.(reading := y.s.reading), react(WaitCER), react);
    CallsKeep(z, Server, q.(reading := true));
  }

  /** A read that leaves the reader's state alone; the reader may answer a request. */
  ghost predicate ByReading(p: Node, q: Node, m: Msg) {
    && q.cfg == p.cfg && q.remoteHost == p.remoteHost && q.remoteRealm == p.remoteRealm
    && q.reading == p.reading && q.sock == p.sock && q.state == p.state && q.dpaOut >= p.dpaOut
    && p.wrote <= q.wrote
    && (q.wrote != p.wrote ==> Is(m, DWR) || Is(m, DPR))
    && (Is(m, DPR) && p.sock ==> q.dpaOut > 0)
    && !(p.state == Closing && Is(m, DPA))
    && p.state != WaitCER && p.state != WaitCEA
  }

  lemma ReadingKeeps(y: Sys, to: Side, q: Node)
    requires Inv(y) && Me(y, to).reading && Read(y, to) < |Them(y, to).wrote|
    requires ByReading(Me(y, to), q, Them(y, to).wrote[Read(y, to)])
    ensures Inv(With(ReadOneMore(y, to), to, q))
  {
    ReadingKeepsHandshake(y, to, q);
    ReadingKeepsMine(y, to, q);
    ReadingKeepsTheirs(y, to, q);
  }

  lemma ReadingKeepsHandshake(y: Sys, to: Side, q: Node)
    requires Inv(y) && Me(y, to).reading && Read(y, to) < |Them(y, to).wrote|
    requires ByReading(Me(y, to), q, Them(y, to).wrote[Read(y, to)])
    ensures Handshake(With(ReadOneMore(y, to), to, q))
  {
    assert Half(y, to);
    if Me(y, to).wrote != [] {
      assert q.wrote[0] == Me(y, to).wrote[0];
    }
  }

  lemma ReadingKeepsMine(y: Sys, to: Side, q: Node)
    requires Inv(y) && Me(y, to).reading && Read(y, to) < |Them(y, to).wrote|
    requires ByReading(Me(y, to), q, Them(y, to).wrote[Read(y, to)])
    ensures Half(With(ReadOneMore(y, to), to, q), to)
  {
    var z, p, them := With(ReadOneMore(y, to), to, q), Me(y, to), Opposite(to);
    assert Half(y, to);
    if p.state == Closing && !Cut(z, to) {
      if InFlight(p.wrote, Read(y, them), DPR) {
        var i :| Read(y, them) <= i < |p.wrote| && Is(p.wrote[i], DPR);
        assert q.wrote[i] == p.wrote[i];
      }
      if InFlight(Them(y, to).wrote, Read(y, to), DPA) {
        var i :| Read(y, to) <= i < |Them(y, to).wrote| && Is(Them(y, to).wrote[i], DPA);
        assert i != Read(y, to);
      }
    }
  }

  lemma ReadingKeepsTheirs(y: Sys, to: Side, q: Node)
    requires Inv(y) && Me(y, to).reading && Read(y, to) < |Them(y, to).wrote|
    requires ByReading(Me(y, to), q, Them(y, to).wrote[Read(y, to)])
    ensures Half(With(ReadOneMore(y, to), to, q), Opposite(to))
  {
    var z, p, them := With(ReadOneMore(y, to), to, q), Me(y, to), Opposite(to);
    var other := Me(y, them);
    assert Half(y, them);
    if other.state == Closing && !Cut(z, them) {
      if InFlight(other.wrote, Read(y, to), DPR) && !Is(other.wrote[Read(y, to)], DPR) {
        var i :| Read(y, to) <= i < |other.wrote| && Is(other.wrote[i], DPR);
        assert i != Read(y, to);
        assert InFlight(other.wrote, Read(z, to), DPR);
      }
      if InFlight(p.wrote, Read(y, them), DPA) {
        var i :| Read(y, them) <= i < |p.wrote| && Is(p.wrote[i], DPA);
        assert q.wrote[i] == p.wrote[i];
      }
    }
  }

  /** The capability request reaches the server: it is the first message, and the answer is the first one back. */
  lemma CerKeeps(y: Sys, react: Reaction)
    requires Inv(y) && y.s.state == WaitCER && y.s.reading && y.readByS < |y.c.wrote|
    ensures Is(y.c.wrote[y.readByS], CER)
    ensures Inv(With(ReadOneMore(y, Server), Server, HandleCER(y.s, y.c.wrote[y.readByS], react)))
  {
    var m := y.c.wrote[y.readByS];
    assert Half(y, Client) && Half(y, Server);
    var p := Write(y.s.(remoteHost := m.host, remoteRealm := m.realm), Own(y.s.cfg, CEA, m.hbh, m.e2e, 0))
             .(state := Open, reported := y.s.reported + [Open]);
    assert p.wrote[0] == Own(y.s.cfg, CEA, m.hbh, m.e2e, 0);
    var z := With(ReadOneMore(y, Server), Server, p);
    assert Handshake(z);
    assert Half(z, Client);
    assert Half(z, Server);
    RunByCalls(p, react(Open), react);
    CallsKeep(z, Server, RunCalls(p, react(Open), react));
  }

  /** The answer reaches the client as the first message from the server. */
  lemma CeaKeeps(y: Sys, react: Reaction)
    requires Inv(y) && y.c.state == WaitCEA && y.c.reading && y.readByC < |y.s.wrote|
    ensures Is(y.s.wrote[y.readByC], CEA)
    ensures Inv(With(ReadOneMore(y, Client), Client, HandleCEA(y.c, y.s.wrote[y.readByC], react)))
  {
    var m := y.s.wrote[y.readByC];
    assert Half(y, Client) && Half(y, Server);
    var p := y.c.(remoteHost := m.host, remoteRealm := m.realm, state := Open, reported := y.c.reported + [Open]);
    var z := With(ReadOneMore(y, Client), Client, p);
    CeaState(y, p);
    RunByCalls(p, react(Open), react);
    var q := RunCalls(p, react(Open), react);
    CallsKeep(z, Client, q);
    ArmingKeeps(With(z, Client, q), Client);
    assert With(With(z, Client, q), Client, StartWatchdog(q)) == With(z, Client, StartWatchdog(q));
  }

  lemma CeaState(y: Sys, p: Node)
    requires Inv(y) && y.c.state == WaitCEA && y.c.reading && y.readByC < |y.s.wrote|
    requires p == y.c.(remoteHost := y.s.cfg.originHost, remoteRealm := y.s.cfg.originRealm, state := Open,
                       reported := p.reported)
    ensures Inv(With(ReadOneMore(y, Client), Client, p))
  {
    var z := With(ReadOneMore(y, Client), Client, p);
    assert Half(y, Client) && Half(y, Server);
    assert Handshake(z);
    assert Half(z, Client);
    if y.s.state == Closing && !Cut(z, Server) {
      if InFlight(y.s.wrote, y.readByC, DPR) {
        var i :| y.readByC <= i < |y.s.wrote| && Is(y.s.wrote[i], DPR);
        assert i != y.readByC;
      }
    }
    assert Half(z, Server);
  }

  /** The watchdog timer plays no part in the invariant. */
  lemma TimerKeeps(y: Sys, side: Side, q: Node)
    requires Inv(y) && q == Me(y, side).(armed := q.armed, due := q.due, hopByHop := q.hopByHop, endToEnd := q.endToEnd)
    ensures Inv(With(y, side, q))
  {
    var z := With(y, side, q);
    assert Half(y, Client) && Half(y, Server);
    assert Half(z, Client);
    assert Half(z, Server);
  }

  lemma ArmingKeeps(y: Sys, side: Side)
    requires Inv(y)
    ensures Inv(With(y, side, StartWatchdog(Me(y, side))))
  {
    hide Inv;
    TimerKeeps(y, side, StartWatchdog(Me(y, side)));
  }

  /** An open peer may write anything. */
  lemma WritingKeeps(y: Sys, side: Side, m: Msg)
    requires Inv(y) && Me(y, side).state == Open
    ensures Inv(With(y, side, Write(Me(y, side), m)))
  {
    var p, q, them := Me(y, side), Write(Me(y, side), m), Opposite(side);
    var z := With(y, side, q);
    assert Half(y, side) && Half(y, them);
    assert Handshake(z) by {
      if p.wrote != [] {
        assert q.wrote[0] == p.wrote[0];
      }
    }
    assert Half(z, side);
    if Me(y, them).state == Closing && InFlight(p.wrote, Read(y, them), DPA) {
      var i :| Read(y, them) <= i < |p.wrote| && Is(p.wrote[i], DPA);
      assert q.wrote[i] == p.wrote[i];
    }
    assert Half(z, them);
  }

  lemma OnTimerKeeps(y: Sys, side: Side)
    requires Inv(y) && Me(y, side).due > 0
    ensures Inv(With(y, side, OnTimer(Me(y, side))))
  {
    hide Inv;
    var p := Me(y, side);
    var p1 := p.(due := p.due - 1);
    var y1 := With(y, side, p1);
    TimerKeeps(y, side, p1);
    assert Me(y1, side) == p1;
    if p1.state == Open {
      var y2 := With(y1, side, Advance(p1));
      TimerKeeps(y1, side, Advance(p1));
      var m := Own(p1.cfg, DWR, p1.hopByHop, p1.endToEnd, 0);
      WritingKeeps(y2, side, m);
      var y3 := With(y2, side, Write(Advance(p1), m));
      ArmingKeeps(y3, side);
    }
  }

  /** Messages that leave the receiver's state alone. */
  lemma QuietDelivery(p: Node, m: Msg, react: Reaction, onApp: seq<Call>)
    requires p.state != WaitCER && p.state != WaitCEA
    requires m.Base? && !(p.state == Closing && m.kind == DPA)
    ensures ByReading(p, OnMessage(p, m, react, onApp), m)
  {
  }

  lemma AppDelivery(y: Sys, to: Side, bytes: seq<byte>, react: Reaction, onApp: seq<Call>)
    requires Inv(y) && Me(y, to).reading && Me(y, to).state == Open
    requires Read(y, to) < |Them(y, to).wrote| && Them(y, to).wrote[Read(y, to)] == App(bytes)
    ensures Inv(With(ReadOneMore(y, to), to, OnMessage(Me(y, to), App(bytes), react, onApp)))
  {
    hide Handshake;
    var p := Me(y, to);
    assert Half(y, to);
    var p1 := p.(delivered := p.delivered + [bytes]);
    ReadingKeeps(y, to, p1);
    RunByCalls(p1, onApp, react);
    CallsKeep(With(ReadOneMore(y, to), to, p1), to, RunCalls(p1, onApp, react));
  }

  lemma LastAnswerDelivery(y: Sys, to: Side, react: Reaction)
    requires Inv(y) && Me(y, to).reading && Me(y, to).state == Closing
    requires Read(y, to) < |Them(y, to).wrote| && Is(Them(y, to).wrote[Read(y, to)], DPA)
    ensures Inv(With(ReadOneMore(y, to), to, ForceClose(Me(y, to), react)))
  {
    hide Handshake;
    var p := Me(y, to);
    var q := ForceClose(p, react);
    assert Half(y, to);
    ForceCloseForm(p, react);
    ClosingKeeps(y, to, q);
    ReadingKeeps(With(y, to, q), to, q);
  }

  lemma DeliveredKeeps(y: Sys, to: Side, react: Reaction, onApp: seq<Call>)
    requires Inv(y) && Enabled(y, Delivered(to, react, onApp))
    ensures Inv(Apply(y, Delivered(to, react, onApp)))
  {
    hide Half, ForceClose, RunCalls, SetState, ByReading;
    var p, m := Me(y, to), Them(y, to).wrote[Read(y, to)];
    if p.state == WaitCER {
      CerKeeps(y, react);
    } else if p.state == WaitCEA {
      CeaKeeps(y, react);
    } else if p.state == Closing && Is(m, DPA) {
      LastAnswerDelivery(y, to, react);
    } else if m.App? && p.state == Open {
      AppDelivery(y, to, m.bytes, react, onApp);
    } else if m.App? {
      assert ByReading(p, p, m) by { AppIgnored(p, m); }
      ReadingKeeps(y, to, p);
    } else {
      QuietDelivery(p, m, react, onApp);
      ReadingKeeps(y, to, OnMessage(p, m, react, onApp));
    }
  }

  lemma AppIgnored(p: Node, m: Msg)
    requires m.App? && p.state != WaitCER && p.state != WaitCEA
    ensures ByReading(p, p, m)
  {
  }

  lemma HalfFacts(y: Sys, side: Side)
    requires Inv(y)
    ensures var me := Me(y, side);
            && (me.reading ==> Begun(y, side)) && (me.state != Closed ==> me.sock)
            && (me.state == Open || me.state == Closing || me.state == WaitCER ==> me.reading)
            && Read(y, side) <= |Them(y, side).wrote|
  {
    assert Half(y, side);
  }

  lemma StepKeeps(y: Sys, e: Event)
    requires Inv(y)
    ensures Inv(Step(y, e))
  {
    hide Inv, OnError, OnAnswerWritten, OnTimer, OnMessage, OnConnected, Start, DoCall;
    if Enabled(y, e) {
      match e
      case Connected(react) => ConnectedKeeps(y, react);
      case Started(react) => StartedKeeps(y, react);
      case Delivered(to, react, onApp) => DeliveredKeeps(y, to, react, onApp);
      case EndOfStream(at, react) =>
        HalfFacts(y, at);
        ErrorKeeps(y, at, Me(y, at).(reading := false), react);
      case WriteFailed(at, react) => ErrorKeeps(y, at, Me(y, at), react);
      case AnswerWritten(at, react) => AnswerWrittenKeeps(y, at, react);
      case AnswerFailed(at, react) => ErrorKeeps(y, at, Me(y, at).(dpaOut := Me(y, at).dpaOut - 1), react);
      case Elapsed(at) => TimerKeeps(y, at, TimerElapses(Me(y, at)));
      case TimerFired(at) => OnTimerKeeps(y, at);
      case UserCalled(at, call, react) =>
        HalfFacts(y, at);
        CallByCalls(Me(y, at), call, react);
        CallsKeep(y, at, DoCall(Me(y, at), call, react));
      case Broken => BrokenKeeps(y);
    }
  }

  lemma BrokenKeeps(y: Sys)
    requires Inv(y)
    ensures Inv(y.(reset := true))
  {
    var z := y.(reset := true);
    assert Half(y, Client) && Half(y, Server);
    assert Half(z, Client);
    assert Half(z, Server);
  }

  lemma {:induction false} RunKeeps(y: Sys, es: seq<Event>)
    requires Inv(y)
    ensures Inv(Run(y, es))
    decreases |es|
  {
    if es == [] {
    } else {
      hide Inv, Step;
      StepKeeps(y, es[0]);
      RunKeeps(Step(y, es[0]), es[1..]);
    }
  }
}
