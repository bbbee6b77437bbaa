/** What each side owes the other in every run: watchdog requests while Open, and an answer to every disconnect request
    and to the capability request. */
module TwoPeersAnswers {
  import opened Bytes
  import opened Messages
  import opened PeerMachine
  import opened PeerSteps
  import opened TwoPeers
  import opened TwoPeersFlow
  import Seqs

  // ----- watchdog requests are sent -----

  /** How often the watchdog handler of a side has run while the side was Open. */
  ghost function Ticks(y: Sys, es: seq<Event>, side: Side): nat
    decreases |es|
  {
    if es == [] then 0
    else
      (if Enabled(y, es[0]) && es[0] == TimerFired(side) && Me(y, side).state == Open then 1 else 0)
      + Ticks(Step(y, es[0]), es[1..], side)
  }

  lemma StepTicks(y: Sys, e: Event, side: Side)
    requires Inv(y)
    ensures |Ids(Me(Step(y, e), side).wrote, DWR)|
            == |Ids(Me(y, side).wrote, DWR)|
               + if Enabled(y, e) && e == TimerFired(side) && Me(y, side).state == Open then 1 else 0
  {
    hide Inv, Apply, AddsNone, Ids;
    var p := Me(y, side);
    if e == TimerFired(side) && Enabled(y, e) && p.state == Open {
      HalfFacts(y, side);
      TickWrites(y, side);
      Snoc(p.wrote, Own(p.cfg, DWR, p.hopByHop, p.endToEnd, 0), DWR);
    } else if Enabled(y, e) {
      WatchdogOnlyWhileOpen(y, e, side);
      SameKind(p, Me(Step(y, e), side), DWR);
    }
  }

  lemma TickWrites(y: Sys, side: Side)
    requires Enabled(y, TimerFired(side)) && Me(y, side).state == Open && Me(y, side).sock
    ensures var p := Me(y, side);
            Me(Apply(y, TimerFired(side)), side).wrote == p.wrote + [Own(p.cfg, DWR, p.hopByHop, p.endToEnd, 0)]
  {
  }

  lemma SameKind(p: Node, q: Node, k: Kind)
    requires AddsNone(p, q, k)
    ensures Ids(q.wrote, k) == Ids(p.wrote, k)
  {
    OthersAdded(p.wrote, q.wrote, k);
  }

  lemma {:induction false} RunTicks(y: Sys, es: seq<Event>, side: Side)
    requires Inv(y)
    ensures |Ids(Me(Run(y, es), side).wrote, DWR)| == |Ids(Me(y, side).wrote, DWR)| + Ticks(y, es, side)
    decreases |es|
  {
    if es == [] {
    } else {
      hide Inv, Step, Ids;
      StepKeeps(y, es[0]);
      StepTicks(y, es[0], side);
      RunTicks(Step(y, es[0]), es[1..], side);
    }
  }

  // ----- disconnect requests are answered -----

  /** As long as the socket is open every DPR heard has been answered, in any state; afterwards a prefix of them was. */
  ghost predicate AnswersOf(p: Node, heard: seq<Msg>) {
    && Ids(p.wrote, DPA) <= Ids(heard, DPR)
    && (p.sock ==> Ids(p.wrote, DPA) == Ids(heard, DPR))
  }

  ghost predicate Answers(y: Sys, side: Side)
    requires Read(y, side) <= |Them(y, side).wrote|
  {
    AnswersOf(Me(y, side), Them(y, side).wrote[..Read(y, side)])
  }

  lemma DeliveryAnswers(p: Node, m: Msg, heard: seq<Msg>, react: Reaction, onApp: seq<Call>)
    requires AnswersOf(p, heard) && Wired(p)
    ensures AnswersOf(OnMessage(p, m, react, onApp), heard + [m])
  {
    hide Ids, Apps, OnMessage;
    Snoc(heard, m, DPR);
    if Is(m, DPR) {
      DprHandler(p, m, react, onApp);
      Snoc(p.wrote, Own(p.cfg, DPA, m.hbh, m.e2e, 0), DPA);
      Longer(Ids(p.wrote, DPA), Ids(heard, DPR), Ids(heard + [m], DPR));
    } else {
      DeliveryAdds(p, m, react, onApp, DPA);
      SameKind(p, OnMessage(p, m, react, onApp), DPA);
      DeliverySock(p, m, react, onApp);
    }
  }

  lemma DprHandler(p: Node, m: Msg, react: Reaction, onApp: seq<Call>)
    requires Is(m, DPR)
    ensures OnMessage(p, m, react, onApp)
            == if p.sock then Write(p, Own(p.cfg, DPA, m.hbh, m.e2e, 0)).(dpaOut := p.dpaOut + 1) else p
  {
  }

  lemma DeliverySock(p: Node, m: Msg, react: Reaction, onApp: seq<Call>)
    requires Wired(p)
    ensures OnMessage(p, m, react, onApp).sock ==> p.sock
  {
    hide RunCalls, ForceClose;
    ForceCloseForm(p, react);
    match m
    case App(bytes) => RunByCalls(p.(delivered := p.delivered + [bytes]), onApp, react);
    case Base(_, hbh, e2e, host, realm, _) =>
      var p1 := p.(remoteHost := host, remoteRealm := realm, state := Open, reported := p.reported + [Open]);
      if p.sock {
        RunByCalls(Write(p1, Own(p.cfg, CEA, hbh, e2e, 0)), react(Open), react);
        RunByCalls(p1, react(Open), react);
      }
  }

  /** An event that is not a delivery writes no DPA and opens no socket. */
  lemma OtherEventAnswers(y: Sys, e: Event, heard: seq<Msg>)
    requires Inv(y) && Enabled(y, e) && !e.Delivered? && !e.Broken?
    requires AnswersOf(Me(y, PlaceOf(e)), heard)
    ensures AnswersOf(Me(Apply(y, e), PlaceOf(e)), heard)
  {
    hide Inv, AddsNone, Apply, Ids, Enabled;
    EventAdds(y, e, DPA);
    SameKind(Me(y, PlaceOf(e)), Me(Apply(y, e), PlaceOf(e)), DPA);
    OtherEventSock(y, e);
  }

  lemma OtherEventSock(y: Sys, e: Event)
    requires Inv(y) && Enabled(y, e) && !e.Delivered? && !e.Broken?
    ensures Me(Apply(y, e), PlaceOf(e)).sock ==> Me(y, PlaceOf(e)).sock
  {
    hide Inv, OnError, ForceClose, OnTimer, DoCall, Start, OnConnected, OnAnswerWritten, Cut, TimerElapses;
    var p := Me(y, PlaceOf(e));
    if e.UserCalled? {
      HalfFacts(y, PlaceOf(e));
      CallByCalls(p, e.call, e.react);
    } else if e.EndOfStream? {
      ErrorSock(p, p.(reading := false), e.react);
    } else if e.WriteFailed? {
      ErrorSock(p, p, e.react);
    } else if e.AnswerFailed? {
      ErrorSock(p, p.(dpaOut := p.dpaOut - 1), e.react);
    } else {
      TimerAndAnswerSock(p);
    }
  }

  lemma ErrorSock(p: Node, p1: Node, react: Reaction)
    requires p1 == p.(reading := p1.reading, dpaOut := p1.dpaOut)
    ensures OnError(p1, react).sock ==> p.sock
  {
    OnErrorForm(p1, react);
  }

  lemma TimerAndAnswerSock(p: Node)
    ensures TimerElapses(p).sock == p.sock
    ensures p.due > 0 ==> OnTimer(p).sock == p.sock
    ensures forall react: Reaction :: p.dpaOut > 0 ==> !OnAnswerWritten(p, react).sock
  {
    forall react: Reaction | p.dpaOut > 0
      ensures !OnAnswerWritten(p, react).sock
    {
      ForceCloseForm(p.(dpaOut := p.dpaOut - 1), react);
    }
  }

  ghost predicate BothAnswer(y: Sys) {
    && Inv(y)
    && y.readByC <= |y.s.wrote| && y.readByS <= |y.c.wrote|
    && Answers(y, Client) && Answers(y, Server)
  }

  /** Whatever one side does, what the other has heard and answered is the same. */
  lemma TheirAnswersKept(y: Sys, z: Sys, side: Side)
    requires Read(y, side) <= |Them(y, side).wrote| && Answers(y, side)
    requires Me(z, side) == Me(y, side) && Read(z, side) == Read(y, side)
    requires Them(y, side).wrote <= Them(z, side).wrote
    ensures Read(z, side) <= |Them(z, side).wrote| && Answers(z, side)
  {
    assert Them(z, side).wrote[..Read(y, side)] == Them(y, side).wrote[..Read(y, side)];
  }

  lemma StepAnswers(y: Sys, e: Event)
    requires BothAnswer(y)
    ensures BothAnswer(Step(y, e))
  {
    hide AnswersOf, Inv, Apply, Enabled, AddsNone;
    if Enabled(y, e) {
      StepKeeps(y, e);
      if e.Broken? {
        BrokenAnswers(y);
      } else if e.Delivered? {
        DeliveredAnswers(y, e.to, e.react, e.onApp);
      } else {
        OtherAnswers(y, e);
      }
    }
  }

  lemma BrokenAnswers(y: Sys)
    requires BothAnswer(y) && Inv(Apply(y, Broken))
    ensures BothAnswer(Apply(y, Broken))
  {
    hide AnswersOf, Inv;
  }

  lemma DeliveredAnswers(y: Sys, to: Side, react: Reaction, onApp: seq<Call>)
    requires BothAnswer(y) && Enabled(y, Delivered(to, react, onApp)) && Inv(Apply(y, Delivered(to, react, onApp)))
    ensures BothAnswer(Apply(y, Delivered(to, react, onApp)))
  {
    hide AnswersOf, OnMessage, Inv;
    var p, w, n := Me(y, to), Them(y, to).wrote, Read(y, to);
    HalfFacts(y, to);
    DeliveryAnswers(p, w[n], w[..n], react, onApp);
    Seqs.TakeOneMore(w, n);
    DeliveryAdds(p, w[n], react, onApp, DWR);
    TheirAnswersKept(y, Apply(y, Delivered(to, react, onApp)), Opposite(to));
  }

  lemma OtherAnswers(y: Sys, e: Event)
    requires BothAnswer(y) && Enabled(y, e) && !e.Delivered? && !e.Broken? && Inv(Apply(y, e))
    ensures BothAnswer(Apply(y, e))
  {
    hide AnswersOf, Inv, Apply, Enabled, PlaceOf;
    var at, z := PlaceOf(e), Apply(y, e);
    OtherEventAnswers(y, e, Them(y, at).wrote[..Read(y, at)]);
    EventAdds(y, e, DPA);
    OnlyItsPlace(y, e);
    TheirAnswersKept(y, z, Opposite(at));
  }

  /** Nothing is read, and the other side stays as it is. */
  lemma OnlyItsPlace(y: Sys, e: Event)
    requires Enabled(y, e) && !e.Delivered? && !e.Broken?
    ensures var z, at := Apply(y, e), PlaceOf(e);
            z == With(y, at, Me(z, at)).(dialing := z.dialing, accepting := z.accepting)
  {
    hide OnError, OnAnswerWritten, OnTimer, OnConnected, Start, DoCall, TimerElapses, Cut, Begun;
  }

  lemma {:induction false} RunAnswers(y: Sys, es: seq<Event>)
    requires BothAnswer(y)
    ensures BothAnswer(Run(y, es))
    decreases |es|
  {
    if es == [] {
    } else {
      hide BothAnswer, Step;
      StepAnswers(y, es[0]);
      RunAnswers(Step(y, es[0]), es[1..]);
    }
  }

  // ----- who has no watchdog -----

  /** The server never starts a watchdog, nor does a client whose interval is 0. */
  predicate Unwatched(p: Node, side: Side) {
    !p.armed && p.due == 0 && (side == Server || p.cfg.watchdogIntervalSec == 0)
  }

  lemma DeliveryKeepsUnwatched(p: Node, m: Msg, react: Reaction, onApp: seq<Call>)
    requires Wired(p) && !p.armed && p.due == 0 && (p.cfg.watchdogIntervalSec == 0 || p.state != WaitCEA)
    ensures var q := OnMessage(p, m, react, onApp); !q.armed && q.due == 0 && q.cfg == p.cfg
  {
    hide RunCalls, ForceClose, Own;
    ForceCloseForm(p, react);
    match m
    case App(bytes) => RunByCalls(p.(delivered := p.delivered + [bytes]), onApp, react);
    case Base(_, hbh, e2e, host, realm, _) =>
      var p1 := p.(remoteHost := host, remoteRealm := realm, state := Open, reported := p.reported + [Open]);
      if p.sock {
        RunByCalls(Write(p1, Own(p.cfg, CEA, hbh, e2e, 0)), react(Open), react);
        RunByCalls(p1, react(Open), react);
      }
  }

  lemma OtherEventKeepsUnwatched(y: Sys, e: Event)
    requires Inv(y) && Enabled(y, e) && !e.Delivered? && !e.Broken?
    requires Unwatched(Me(y, PlaceOf(e)), PlaceOf(e))
    ensures Unwatched(Me(Apply(y, e), PlaceOf(e)), PlaceOf(e))
  {
    hide Inv, OnError, ForceClose, DoCall, Start, OnConnected, OnAnswerWritten, Cut;
    var p := Me(y, PlaceOf(e));
    HalfFacts(y, PlaceOf(e));
    match e
    case Connected(react) => ConnectedKeepsUnwatched(y, react);
    case Started(react) => StartedKeepsUnwatched(p, react);
    case EndOfStream(_, react) => OnErrorForm(p.(reading := false), react);
    case WriteFailed(_, react) => OnErrorForm(p, react);
    case AnswerWritten(_, react) => AnswerKeepsUnwatched(p, react);
    case AnswerFailed(_, react) => OnErrorForm(p.(dpaOut := p.dpaOut - 1), react);
    case Elapsed(_) =>
    case UserCalled(_, call, react) => CallByCalls(p, call, react);
  }

  lemma ConnectedKeepsUnwatched(y: Sys, react: Reaction)
    requires Inv(y) && Enabled(y, Connected(react))
    ensures var q := OnConnected(y.c, true, react); q.armed == y.c.armed && q.due == y.c.due && q.cfg == y.c.cfg
  {
    assert SetState(y.c, WaitCEA, react) == y.c;
  }

  lemma StartedKeepsUnwatched(p: Node, react: Reaction)
    requires p.sock && !p.armed
    ensures var q := Start(p, react); !q.armed && q.due == p.due && q.cfg == p.cfg
  {
    RunByCalls(p.(state := WaitCER, reported := p.reported + [WaitCER]), react(WaitCER), react);
  }

  lemma AnswerKeepsUnwatched(p: Node, react: Reaction)
    requires p.dpaOut > 0
    ensures var q := OnAnswerWritten(p, react); !q.armed && q.due == p.due && q.cfg == p.cfg
  {
    ForceCloseForm(p.(dpaOut := p.dpaOut - 1), react);
  }

  lemma StepKeepsUnwatched(y: Sys, e: Event, side: Side)
    requires Inv(y) && Unwatched(Me(y, side), side)
    ensures Unwatched(Me(Step(y, e), side), side)
    ensures Ids(Me(Step(y, e), side).wrote, DWR) == Ids(Me(y, side).wrote, DWR)
  {
    hide Ids, AddsNone, Inv, Unwatched, Apply;
    if Enabled(y, e) {
      NotTicking(y, side);
      WatchdogOnlyWhileOpen(y, e, side);
      SameKind(Me(y, side), Me(Step(y, e), side), DWR);
      EventIsLocal(y, e, side);
      if !e.Broken? && PlaceOf(e) == side {
        if e.Delivered? {
          DeliveredKeepsUnwatched(y, side, e.react, e.onApp);
        } else {
          OtherEventKeepsUnwatched(y, e);
        }
      }
    }
  }

  lemma NotTicking(y: Sys, side: Side)
    requires Unwatched(Me(y, side), side)
    ensures !Enabled(y, TimerFired(side))
  {
  }

  lemma DeliveredKeepsUnwatched(y: Sys, to: Side, react: Reaction, onApp: seq<Call>)
    requires Inv(y) && Enabled(y, Delivered(to, react, onApp)) && Unwatched(Me(y, to), to)
    ensures Unwatched(Me(Apply(y, Delivered(to, react, onApp)), to), to)
  {
    hide OnMessage, Half;
    HalfFacts(y, to);
    DeliveryKeepsUnwatched(Me(y, to), Them(y, to).wrote[Read(y, to)], react, onApp);
  }

  lemma {:induction false} RunKeepsUnwatched(y: Sys, es: seq<Event>, side: Side)
    requires Inv(y) && Unwatched(Me(y, side), side)
    ensures Unwatched(Me(Run(y, es), side), side)
    ensures Ids(Me(Run(y, es), side).wrote, DWR) == Ids(Me(y, side).wrote, DWR)
    decreases |es|
  {
    if es == [] {
    } else {
      hide Inv, Step, Unwatched, Ids;
      StepKeeps(y, es[0]);
      StepKeepsUnwatched(y, es[0], side);
      RunKeepsUnwatched(Step(y, es[0]), es[1..], side);
    }
  }

  // ----- the start -----

  /** Two constructed peers, the client after `connect` with a callback that does not close, are where the theorems
      about runs start. */
  lemma ConstructedPeersStart(client: Node, server: Node, react: Reaction)
    requires client == NewNode(client.cfg, client.hopByHop, client.endToEnd)
    requires server == NewNode(server.cfg, server.hopByHop, server.endToEnd)
    requires forall c :: c in react(WaitCEA) ==> !c.Disconnect? && !c.Close?
    ensures IsStart(Sys(Connect(client, react), server, 0, 0, true, true, false))
  {
    ConnectWaitsIff(client.cfg, client.hopByHop, client.endToEnd, react);
  }

  // ----- theorems about every run -----

  /** A side has written one DWR for each time its watchdog handler ran while it was Open. */
  lemma WatchdogCounts(y0: Sys, es: seq<Event>, side: Side)
    requires IsStart(y0)
    ensures |Ids(Me(Run(y0, es), side).wrote, DWR)| == Ticks(y0, es, side)
  {
    StartInv(y0);
    RunTicks(y0, es, side);
  }

  /** A side that has its socket has answered every disconnect request it has read, in order and in any state; the
      disconnect answers a side receives carry the identifiers of a prefix of the requests it sent. */
  lemma DisconnectOrder(y0: Sys, es: seq<Event>, side: Side)
    requires IsStart(y0)
    ensures var y := Run(y0, es);
            && Read(y, side) <= |Them(y, side).wrote|
            && Ids(Them(y, side).wrote[..Read(y, side)], DPA) <= Ids(Me(y, side).wrote, DPR)
            && (Me(y, side).sock ==>
                  Ids(Me(y, side).wrote, DPA) == Ids(Them(y, side).wrote[..Read(y, side)], DPR))
  {
    hide Apps, Ids;
    StartAnswers(y0);
    RunAnswers(y0, es);
    var y := Run(y0, es);
    var them := Opposite(side);
    PrefixFlows(Them(y, side).wrote, Read(y, side), DPA);
    PrefixFlows(Me(y, side).wrote, Read(y, them), DPR);
    assert Answers(y, them);
  }

  lemma StartAnswers(y: Sys)
    requires IsStart(y)
    ensures BothAnswer(y)
  {
    StartInv(y);
    NothingFlows();
  }

  /** The first message of the server answers the first one of the client: a CEA with the identifiers of the CER. */
  lemma HandshakeEchoes(y0: Sys, es: seq<Event>)
    requires IsStart(y0)
    ensures var y := Run(y0, es);
            y.s.wrote != [] ==>
              && y.c.wrote != [] && Is(y.c.wrote[0], CER) && Is(y.s.wrote[0], CEA)
              && y.s.wrote[0].hbh == y.c.wrote[0].hbh && y.s.wrote[0].e2e == y.c.wrote[0].e2e
  {
    StartInv(y0);
    RunKeeps(y0, es);
  }

  /** A server, and a client with interval 0, never has a running timer and never writes a DWR. */
  lemma UnwatchedNeverAsks(y0: Sys, es: seq<Event>, side: Side)
    requires IsStart(y0) && (side == Server || y0.c.cfg.watchdogIntervalSec == 0)
    ensures var p := Me(Run(y0, es), side); !p.armed && p.due == 0 && Ids(p.wrote, DWR) == []
  {
    StartInv(y0);
    RunKeepsUnwatched(y0, es, side);
  }
}
