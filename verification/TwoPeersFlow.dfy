/** What arrives, and in which order, in every run of the two peers. */
module TwoPeersFlow {
  import opened Bytes
  import opened Messages
  import opened PeerMachine
  import opened TwoPeers
  import Seqs

  /** The application messages of a log. */
  function Apps(log: seq<Msg>): seq<seq<byte>> {
    if log == [] then []
    else
      var n := |log| - 1;
      Apps(log[..n]) + if log[n].App? then [log[n].bytes] else []
  }

  /** The identifiers of the messages of one kind. */
  function Ids(log: seq<Msg>, k: Kind): seq<(uint32, uint32)> {
    if log == [] then []
    else
      var n := |log| - 1;
      Ids(log[..n], k) + if Is(log[n], k) then [(log[n].hbh, log[n].e2e)] else []
  }

  lemma Snoc(log: seq<Msg>, m: Msg, k: Kind)
    ensures Apps(log + [m]) == Apps(log) + if m.App? then [m.bytes] else []
    ensures Ids(log + [m], k) == Ids(log, k) + if Is(m, k) then [(m.hbh, m.e2e)] else []
  {
    assert (log + [m])[..|log|] == log;
  }

  lemma {:induction false} PrefixFlows(log: seq<Msg>, n: nat, k: Kind)
    requires n <= |log|
    ensures Apps(log[..n]) <= Apps(log) && Ids(log[..n], k) <= Ids(log, k)
    decreases |log|
  {
    if n < |log| {
      var m := |log| - 1;
      PrefixFlows(log[..m], n, k);
      assert log[..m][..n] == log[..n];
    } else {
      assert log[..n] == log;
    }
  }

  /** A log extended by other kinds shows the same identifiers. */
  lemma {:induction false} OthersAdded(before: seq<Msg>, after: seq<Msg>, k: Kind)
    requires before <= after
    requires forall i :: |before| <= i < |after| ==> !Is(after[i], k)
    ensures Ids(after, k) == Ids(before, k)
    decreases |after|
  {
    if |before| < |after| {
      var n := |after| - 1;
      OthersAdded(before, after[..n], k);
    } else {
      assert before == after;
    }
  }

  /** A state in which the peer still handles what it reads. */
  predicate Listening(s: State) { s == WaitCEA || s == WaitCER || s == Open }

  /** `heard` is what the peer has read. While it listens, everything heard was delivered and answered; afterwards
      what was delivered and answered is a prefix. */
  ghost predicate FlowOf(p: Node, heard: seq<Msg>) {
    && p.delivered <= Apps(heard)
    && Ids(p.wrote, DWA) <= Ids(heard, DWR)
    && (Listening(p.state) ==> p.delivered == Apps(heard) && Ids(p.wrote, DWA) == Ids(heard, DWR))
  }

  ghost predicate Flow(y: Sys, side: Side)
    requires Read(y, side) <= |Them(y, side).wrote|
  {
    FlowOf(Me(y, side), Them(y, side).wrote[..Read(y, side)])
  }

  /** A change that neither delivers nor answers, and does not start to listen. */
  ghost predicate Outward(p: Node, q: Node) {
    && q.delivered == p.delivered
    && p.wrote <= q.wrote
    && (forall i :: |p.wrote| <= i < |q.wrote| ==> !Is(q.wrote[i], DWA))
    && (Listening(q.state) ==> Listening(p.state))
  }

  lemma OutwardFlows(p: Node, q: Node, heard: seq<Msg>)
    requires FlowOf(p, heard) && Outward(p, q)
    ensures FlowOf(q, heard)
  {
    hide Ids, Apps;
    OthersAdded(p.wrote, q.wrote, DWA);
  }

  lemma CallsAreOutward(p: Node, q: Node)
    requires ByCalls(p, q)
    ensures Outward(p, q)
  {
  }

  /** `p1` is `p` with some of its bookkeeping changed. */
  lemma OnErrorOutward(p: Node, p1: Node, react: Reaction)
    requires p1 == p.(reading := p1.reading, dpaOut := p1.dpaOut)
    ensures Outward(p, OnError(p1, react))
  {
    OnErrorForm(p1, react);
  }

  lemma ForceCloseOutward(p: Node, p1: Node, react: Reaction)
    requires p1 == p.(dpaOut := p1.dpaOut)
    ensures Outward(p, ForceClose(p1, react))
  {
    ForceCloseForm(p1, react);
  }

  lemma TimerOutward(p: Node)
    ensures Outward(p, TimerElapses(p)) && (p.due > 0 ==> Outward(p, OnTimer(p)))
  {
  }

  /** One delivered message. A waiting peer is assumed to read its handshake message, which every run ensures. */
  lemma DeliveryFlows(p: Node, m: Msg, heard: seq<Msg>, react: Reaction, onApp: seq<Call>)
    requires FlowOf(p, heard)
    requires p.state != Closed ==> p.sock
    requires p.state == WaitCER ==> Is(m, CER)
    requires p.state == WaitCEA ==> Is(m, CEA)
    ensures FlowOf(OnMessage(p, m, react, onApp), heard + [m])
  {
    hide Ids, Apps;
    Snoc(heard, m, DWR);
    if p.state == WaitCER || p.state == WaitCEA {
      HandshakeFlows(p, m, heard, react, onApp);
    } else if m.App? {
      if p.state == Open {
        var p1 := p.(delivered := p.delivered + [m.bytes]);
        RunByCalls(p1, onApp, react);
        CallsAreOutward(p1, RunCalls(p1, onApp, react));
        OutwardFlows(p1, RunCalls(p1, onApp, react), heard + [m]);
      } else {
        Longer(p.delivered, Apps(heard), Apps(heard + [m]));
      }
    } else if m.kind == DWR && p.state == Open {
      Snoc(p.wrote, Own(p.cfg, DWA, m.hbh, m.e2e, 0), DWA);
    } else {
      OtherMessagesFlow(p, m, heard, react, onApp);
    }
  }

  lemma Longer<T>(a: seq<T>, b: seq<T>, c: seq<T>)
    requires a <= b <= c
    ensures a <= c
  {
  }

  lemma HandshakeFlows(p: Node, m: Msg, heard: seq<Msg>, react: Reaction, onApp: seq<Call>)
    requires FlowOf(p, heard) && p.sock
    requires (p.state == WaitCER && Is(m, CER)) || (p.state == WaitCEA && Is(m, CEA))
    ensures FlowOf(OnMessage(p, m, react, onApp), heard + [m])
  {
    hide Ids, Apps;
    Snoc(heard, m, DWR);
    var p0 := p.(remoteHost := m.host, remoteRealm := m.realm);
    var p1 := (if p.state == WaitCER then Write(p0, Own(p.cfg, CEA, m.hbh, m.e2e, 0)) else p0)
              .(state := Open, reported := p.reported + [Open]);
    OutwardFlows(p, p1, heard + [m]);
    RunByCalls(p1, react(Open), react);
    var q := RunCalls(p1, react(Open), react);
    CallsAreOutward(p1, q);
    OutwardFlows(p1, q, heard + [m]);
    OutwardFlows(q, OnMessage(p, m, react, onApp), heard + [m]);
  }

  lemma OtherMessagesFlow(p: Node, m: Msg, heard: seq<Msg>, react: Reaction, onApp: seq<Call>)
    requires FlowOf(p, heard)
    requires p.state != WaitCER && p.state != WaitCEA
    requires m.Base? && !(m.kind == DWR && p.state == Open)
    ensures FlowOf(OnMessage(p, m, react, onApp), heard + [m])
  {
    hide Ids, Apps;
    Snoc(heard, m, DWR);
    var q := OnMessage(p, m, react, onApp);
    if m.kind == DPA && p.state == Closing {
      ForceCloseForm(p, react);
    }
    assert Outward(p, q);
    Longer(Ids(p.wrote, DWA), Ids(heard, DWR), Ids(heard + [m], DWR));
    OutwardFlows(p, q, heard + [m]);
  }

  /** Whatever one side does, the other side has heard the same as before. */
  lemma TheirFlowKept(y: Sys, z: Sys, side: Side)
    requires Read(y, side) <= |Them(y, side).wrote| && Flow(y, side)
    requires Me(z, side) == Me(y, side) && Read(z, side) == Read(y, side)
    requires Them(y, side).wrote <= Them(z, side).wrote
    ensures Read(z, side) <= |Them(z, side).wrote| && Flow(z, side)
  {
    var w, w' := Them(y, side).wrote, Them(z, side).wrote;
    assert w'[..Read(y, side)] == w[..Read(y, side)];
  }

  lemma MyFlowKept(y: Sys, side: Side, q: Node)
    requires Read(y, side) <= |Them(y, side).wrote| && Flow(y, side)
    requires Read(y, Opposite(side)) <= |Me(y, side).wrote| && Flow(y, Opposite(side))
    requires Outward(Me(y, side), q)
    ensures var z := With(y, side, q);
            && Read(z, Client) <= |z.s.wrote| && Read(z, Server) <= |z.c.wrote|
            && Flow(z, Client) && Flow(z, Server)
  {
    hide FlowOf;
    OutwardFlows(Me(y, side), q, Them(y, side).wrote[..Read(y, side)]);
    TheirFlowKept(y, With(y, side, q), Opposite(side));
  }

  ghost predicate Flows(y: Sys) {
    && Inv(y)
    && y.readByC <= |y.s.wrote| && y.readByS <= |y.c.wrote|
    && Flow(y, Client) && Flow(y, Server)
  }

  /** What an event other than a delivery does to the peer it happens at. */
  lemma LocalEventOutward(y: Sys, e: Event, at: Side)
    requires Inv(y) && Enabled(y, e)
    requires !e.Delivered? && !e.Started? && !e.Broken?
    requires at == PlaceOf(e)
    ensures Outward(Me(y, at), Me(Apply(y, e), at))
  {
    hide Inv, Outward, Cut, Begun;
    if e.Elapsed? || e.TimerFired? || e.UserCalled? {
      UserEventOutward(y, e, at);
    } else {
      ConnectionEventOutward(y, e, at);
    }
  }

  lemma UserEventOutward(y: Sys, e: Event, at: Side)
    requires Inv(y) && Enabled(y, e)
    requires e.Elapsed? || e.TimerFired? || e.UserCalled?
    requires at == PlaceOf(e)
    ensures Outward(Me(y, at), Me(Apply(y, e), at))
  {
    hide Inv, Outward, OnTimer, DoCall, ByCalls, TimerElapses;
    var p := Me(y, at);
    match e
    case Elapsed(_) => TimerOutward(p);
    case TimerFired(_) => TimerOutward(p);
    case UserCalled(_, call, react) =>
      HalfFacts(y, at);
      CallByCalls(p, call, react);
      CallsAreOutward(p, DoCall(p, call, react));
  }

  lemma ConnectionEventOutward(y: Sys, e: Event, at: Side)
    requires Inv(y) && Enabled(y, e)
    requires e.Connected? || e.EndOfStream? || e.WriteFailed? || e.AnswerWritten? || e.AnswerFailed?
    requires at == PlaceOf(e)
    ensures Outward(Me(y, at), Me(Apply(y, e), at))
  {
    hide Inv, Outward, OnError, OnConnected, ForceClose, Cut;
    var p := Me(y, at);
    match e
    case Connected(react) => ConnectedOutward(y, react);
    case EndOfStream(_, react) => OnErrorOutward(p, p.(reading := false), react);
    case WriteFailed(_, react) => OnErrorOutward(p, p, react);
    case AnswerWritten(_, react) => ForceCloseOutward(p, p.(dpaOut := p.dpaOut - 1), react);
    case AnswerFailed(_, react) => OnErrorOutward(p, p.(dpaOut := p.dpaOut - 1), react);
  }

  lemma ConnectedOutward(y: Sys, react: Reaction)
    requires Inv(y) && Enabled(y, Connected(react))
    ensures Outward(y.c, OnConnected(y.c, true, react))
  {
    assert SetState(y.c, WaitCEA, react) == y.c;
  }

  lemma DeliveredFlows(y: Sys, to: Side, react: Reaction, onApp: seq<Call>)
    requires Flows(y) && Enabled(y, Delivered(to, react, onApp))
    ensures Flows(Apply(y, Delivered(to, react, onApp)))
  {
    hide FlowOf, OnMessage, Inv;
    var p, w, n := Me(y, to), Them(y, to).wrote, Read(y, to);
    var q := OnMessage(p, w[n], react, onApp);
    StepKeeps(y, Delivered(to, react, onApp));
    HalfFacts(y, to);
    WaitersReadHandshake(y, to);
    DeliveryFlows(p, w[n], w[..n], react, onApp);
    Seqs.TakeOneMore(w, n);
    DeliveryAdds(p, w[n], react, onApp, DWR);
    TheirFlowKept(y, Apply(y, Delivered(to, react, onApp)), Opposite(to));
  }

  /** `q` has written what `p` had, and then nothing of kind `k`. */
  ghost predicate AddsNone(p: Node, q: Node, k: Kind) {
    p.wrote <= q.wrote && forall i :: |p.wrote| <= i < |q.wrote| ==> !Is(q.wrote[i], k)
  }

  lemma CallsAddNone(p: Node, calls: seq<Call>, react: Reaction, k: Kind)
    requires Wired(p) && k != DPR
    ensures AddsNone(p, RunCalls(p, calls, react), k)
  {
    RunByCalls(p, calls, react);
  }

  lemma DeliveryAdds(p: Node, m: Msg, react: Reaction, onApp: seq<Call>, k: Kind)
    requires Wired(p) && (k == DWR || (k == DPA && !Is(m, DPR)))
    ensures AddsNone(p, OnMessage(p, m, react, onApp), k)
  {
    hide RunCalls;
    match m
    case App(bytes) =>
      if p.state == Open {
        CallsAddNone(p.(delivered := p.delivered + [bytes]), onApp, react, k);
      }
    case Base(kind, hbh, e2e, host, realm, _) =>
      var p0 := p.(remoteHost := host, remoteRealm := realm);
      if kind == CER && p.state == WaitCER {
        CallsAddNone(Write(p0, Own(p.cfg, CEA, hbh, e2e, 0)).(state := Open, reported := p.reported + [Open]),
                     react(Open), react, k);
      } else if kind == CEA && p.state == WaitCEA {
        CallsAddNone(p0.(state := Open, reported := p.reported + [Open]), react(Open), react, k);
      } else if kind == DPA && p.state == Closing {
        ForceCloseForm(p, react);
      }
  }

  /** In every reachable state, what a waiting peer reads next is the handshake message it waits for. */
  lemma WaitersReadHandshake(y: Sys, side: Side)
    requires Inv(y) && Read(y, side) < |Them(y, side).wrote|
    ensures Me(y, side).state == WaitCER ==> Is(Them(y, side).wrote[Read(y, side)], CER)
    ensures Me(y, side).state == WaitCEA ==> Is(Them(y, side).wrote[Read(y, side)], CEA)
  {
  }

  lemma StartedFlows(y: Sys, react: Reaction)
    requires Flows(y) && Enabled(y, Started(react))
    ensures Flows(Apply(y, Started(react)))
  {
    hide Apps, Ids;
    StepKeeps(y, Started(react));
    assert Half(y, Server);
    var p := y.s.(state := WaitCER, reported := y.s.reported + [WaitCER]);
    assert y.c.wrote[..y.readByS] == [];
    assert FlowOf(p, []) by { NothingFlows(); }
    RunByCalls(p, react(WaitCER), react);
    var q := RunCalls(p, react(WaitCER), react);
    CallsAreOutward(p, q);
    OutwardFlows(p, q, []);
    TheirFlowKept(y, Apply(y, Started(react)), Client);
  }

  lemma NothingFlows()
    ensures Apps([]) == [] && forall k :: Ids([], k) == []
  {
  }

  /** Such an event changes the channels by what its peer writes, and nothing else. */
  lemma LocalIsLocal(y: Sys, e: Event)
    requires Enabled(y, e) && !e.Delivered? && !e.Started? && !e.Broken?
    ensures var z, at := Apply(y, e), PlaceOf(e);
            z == With(y, at, Me(z, at)).(dialing := z.dialing)
  {
    hide OnError, OnAnswerWritten, OnTimer, OnConnected, DoCall, TimerElapses, Cut, Begun;
  }

  lemma LocalFlows(y: Sys, e: Event)
    requires Flows(y) && Enabled(y, e) && !e.Delivered? && !e.Started? && !e.Broken?
    requires Inv(Apply(y, e))
    ensures Flows(Apply(y, e))
  {
    hide FlowOf, Inv, Apply, Outward, Enabled, PlaceOf;
    var at := PlaceOf(e);
    LocalEventOutward(y, e, at);
    MyFlowKept(y, at, Me(Apply(y, e), at));
    LocalIsLocal(y, e);
  }

  lemma StepFlows(y: Sys, e: Event)
    requires Flows(y)
    ensures Flows(Step(y, e))
  {
    hide FlowOf, Inv, Apply, Enabled;
    if Enabled(y, e) {
      StepKeeps(y, e);
      if e.Delivered? {
        DeliveredFlows(y, e.to, e.react, e.onApp);
      } else if e.Started? {
        StartedFlows(y, e.react);
      } else if e.Broken? {
        BrokenFlows(y);
      } else {
        LocalFlows(y, e);
      }
    }
  }

  lemma BrokenFlows(y: Sys)
    requires Flows(y) && Inv(Apply(y, Broken))
    ensures Flows(Apply(y, Broken))
  {
    hide FlowOf, Inv;
  }

  lemma StartFlows(y: Sys)
    requires IsStart(y)
    ensures Flows(y)
  {
    StartInv(y);
    NothingFlows();
  }

  lemma {:induction false} RunFlows(y: Sys, es: seq<Event>)
    requires Flows(y)
    ensures Flows(Run(y, es))
    decreases |es|
  {
    if es == [] {
    } else {
      hide Flows, Step;
      StepFlows(y, es[0]);
      RunFlows(Step(y, es[0]), es[1..]);
    }
  }

  lemma ErrorAdds(p: Node, p1: Node, react: Reaction, k: Kind)
    requires p1 == p.(reading := p1.reading, dpaOut := p1.dpaOut)
    ensures AddsNone(p, OnError(p1, react), k) && AddsNone(p, ForceClose(p1, react), k)
  {
    hide Is;
    OnErrorForm(p1, react);
    ForceCloseForm(p1, react);
  }

  /** Besides the watchdog handler, which writes DWRs, and the reading of a DPR, which writes a DPA, no event adds a
      message of these kinds. */
  predicate Sources(y: Sys, e: Event, k: Kind)
    requires Enabled(y, e) && !e.Broken?
  {
    match e
    case TimerFired(at) => k == DWR && Me(y, at).state == Open
    case Delivered(to, _, _) => k == DPA && Is(Them(y, to).wrote[Read(y, to)], DPR)
    case _ => false
  }

  lemma EventAdds(y: Sys, e: Event, k: Kind)
    requires Inv(y) && Enabled(y, e) && !e.Broken? && (k == DWR || k == DPA)
    ensures Sources(y, e, k) || AddsNone(Me(y, PlaceOf(e)), Me(Apply(y, e), PlaceOf(e)), k)
  {
    hide Inv, AddsNone, Apply, Enabled;
    if !Sources(y, e, k) {
      if e.Connected? || e.Started? || e.Delivered? {
        ChannelEventAdds(y, e, k);
      } else {
        LocalEventAdds(y, e, k);
      }
    }
  }

  lemma ChannelEventAdds(y: Sys, e: Event, k: Kind)
    requires Inv(y) && Enabled(y, e) && (e.Connected? || e.Started? || e.Delivered?)
    requires (k == DWR || k == DPA) && !Sources(y, e, k)
    ensures AddsNone(Me(y, PlaceOf(e)), Me(Apply(y, e), PlaceOf(e)), k)
  {
    hide Inv, OnMessage, OnConnected, Start, AddsNone;
    HalfFacts(y, PlaceOf(e));
    match e
    case Connected(react) => ConnectedAdds(y, react, k);
    case Started(react) => StartedAdds(y.s, react, k);
    case Delivered(to, react, onApp) => DeliveryAdds(Me(y, to), Them(y, to).wrote[Read(y, to)], react, onApp, k);
  }

  lemma LocalEventAdds(y: Sys, e: Event, k: Kind)
    requires Inv(y) && Enabled(y, e) && !e.Connected? && !e.Started? && !e.Delivered? && !e.Broken?
    requires (k == DWR || k == DPA) && !Sources(y, e, k)
    ensures AddsNone(Me(y, PlaceOf(e)), Me(Apply(y, e), PlaceOf(e)), k)
  {
    hide Inv, OnError, ForceClose, OnTimer, DoCall, AddsNone, ByCalls, Cut, TimerElapses;
    var p := Me(y, PlaceOf(e));
    HalfFacts(y, PlaceOf(e));
    match e
    case EndOfStream(_, react) => ErrorAdds(p, p.(reading := false), react, k);
    case WriteFailed(_, react) => ErrorAdds(p, p, react, k);
    case AnswerWritten(_, react) => ErrorAdds(p, p.(dpaOut := p.dpaOut - 1), react, k);
    case AnswerFailed(_, react) => ErrorAdds(p, p.(dpaOut := p.dpaOut - 1), react, k);
    case Elapsed(_) => TimerAdds(p, k);
    case TimerFired(_) => TimerAdds(p, k);
    case UserCalled(_, call, react) =>
      CallByCalls(p, call, react);
      ByCallsAdds(p, DoCall(p, call, react), k);
  }

  lemma EventIsLocal(y: Sys, e: Event, side: Side)
    requires Enabled(y, e)
    ensures e.Broken? || PlaceOf(e) != side ==> Me(Step(y, e), side) == Me(y, side)
  {
  }

  /** A watchdog request is written by the watchdog handler of a peer that is Open, and by nothing else: no other
      event, and no call from any callback, adds one. */
  lemma WatchdogOnlyWhileOpen(y: Sys, e: Event, side: Side)
    requires Inv(y)
    ensures var p, q := Me(y, side), Me(Step(y, e), side);
            AddsNone(p, q, DWR) || (e == TimerFired(side) && p.state == Open == q.state)
  {
    hide Inv, AddsNone, Apply, Enabled;
    NothingAdded(Me(y, side), DWR);
    if Enabled(y, e) {
      EventIsLocal(y, e, side);
      if !e.Broken? && PlaceOf(e) == side {
        EventAdds(y, e, DWR);
        if e.TimerFired? {
          TickStays(y, side);
        }
      }
    }
  }

  lemma TickStays(y: Sys, side: Side)
    requires Enabled(y, TimerFired(side))
    ensures Me(Apply(y, TimerFired(side)), side).state == Me(y, side).state
  {
  }

  lemma NothingAdded(p: Node, k: Kind)
    ensures AddsNone(p, p, k)
  {
  }

  lemma ConnectedAdds(y: Sys, react: Reaction, k: Kind)
    requires Inv(y) && Enabled(y, Connected(react)) && k != CER
    ensures AddsNone(y.c, OnConnected(y.c, true, react), k)
  {
    assert SetState(y.c, WaitCEA, react) == y.c;
  }

  lemma StartedAdds(p: Node, react: Reaction, k: Kind)
    requires p.sock && k != DPR
    ensures AddsNone(p, Start(p, react), k)
  {
    CallsAddNone(p.(state := WaitCER, reported := p.reported + [WaitCER]), react(WaitCER), react, k);
  }

  lemma TimerAdds(p: Node, k: Kind)
    ensures AddsNone(p, TimerElapses(p), k)
    ensures p.due > 0 && !(k == DWR && p.state == Open) ==> AddsNone(p, OnTimer(p), k)
  {
  }

  lemma ByCallsAdds(p: Node, q: Node, k: Kind)
    requires ByCalls(p, q) && k != DPR
    ensures AddsNone(p, q, k)
  {
  }

  // ----- theorems about every run -----

  /** A client that is Open has a server that left WaitCER, and a waiting side never dequeues anything but its
      handshake message: no application message is dropped for arriving early. */
  lemma HandshakeSafety(y0: Sys, es: seq<Event>)
    requires IsStart(y0)
    ensures var y := Run(y0, es);
            && (y.c.state == Open ==> y.s.state != WaitCER && !y.accepting)
            && (forall side :: Read(y, side) < |Them(y, side).wrote| ==>
                  && (Me(y, side).state == WaitCER ==> Is(Them(y, side).wrote[Read(y, side)], CER))
                  && (Me(y, side).state == WaitCEA ==> Is(Them(y, side).wrote[Read(y, side)], CEA)))
  {
    StartInv(y0);
    RunKeeps(y0, es);
    var y := Run(y0, es);
    assert Half(y, Client);
    forall side | Read(y, side) < |Them(y, side).wrote|
      ensures Me(y, side).state == WaitCER ==> Is(Them(y, side).wrote[Read(y, side)], CER)
      ensures Me(y, side).state == WaitCEA ==> Is(Them(y, side).wrote[Read(y, side)], CEA)
    {
      WaitersReadHandshake(y, side);
    }
  }

  /** Application messages are delivered without loss, duplication or reordering as long as the receiver listens;
      after that, what was delivered stays a prefix of what was sent. */
  lemma ApplicationOrder(y0: Sys, es: seq<Event>, side: Side)
    requires IsStart(y0)
    ensures var y := Run(y0, es);
            && Read(y, side) <= |Them(y, side).wrote|
            && Me(y, side).delivered <= Apps(Them(y, side).wrote)
            && (Me(y, side).state == Open ==> Me(y, side).delivered == Apps(Them(y, side).wrote[..Read(y, side)]))
  {
    StartFlows(y0);
    RunFlows(y0, es);
    var y := Run(y0, es);
    PrefixFlows(Them(y, side).wrote, Read(y, side), DWR);
  }

  /** An Open side has answered every watchdog request it has read, in order; the watchdog answers a side receives
      carry, in order, the identifiers of a prefix of the requests it sent. */
  lemma WatchdogOrder(y0: Sys, es: seq<Event>, side: Side)
    requires IsStart(y0)
    ensures var y := Run(y0, es);
            && Read(y, side) <= |Them(y, side).wrote|
            && Ids(Them(y, side).wrote[..Read(y, side)], DWA) <= Ids(Me(y, side).wrote, DWR)
            && (Me(y, side).state == Open ==>
                  Ids(Me(y, side).wrote, DWA) == Ids(Them(y, side).wrote[..Read(y, side)], DWR))
  {
    hide Apps, Ids;
    StartFlows(y0);
    RunFlows(y0, es);
    var y := Run(y0, es);
    var them := Opposite(side);
    PrefixFlows(Them(y, side).wrote, Read(y, side), DWA);
    PrefixFlows(Me(y, side).wrote, Read(y, them), DWR);
    assert Flow(y, them);
  }
}
