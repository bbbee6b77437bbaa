/** The handshake over bytes, for applications that send whatever `send` accepts: messages with a base command or a
    wrong length field included. */
module TwoPeersIdentity {
  import opened Bytes
  import opened Messages
  import opened PeerMachine
  import opened TwoPeers
  import opened TwoPeersWire
  import Header

  /** The first message of a log is read as it was meant. */
  predicate FirstSound(p: Node) { ConfigFits(p.cfg) && (p.wrote != [] ==> Sound(p.cfg, p.wrote[0])) }

  /** The handshake invariant; nothing is said about any message but the first of each side. `StartMeets` shows that
      every start has it. */
  ghost predicate Met(y: Sys) {
    && Handshake(y)
    && FirstSound(y.c) && FirstSound(y.s)
    && Wired(y.c) && Wired(y.s)
    && (y.c.reading ==> !y.dialing) && (y.s.reading ==> !y.accepting)
    && y.readByC <= |y.s.wrote| && y.readByS <= |y.c.wrote|
    && (y.c.state == WaitCEA || y.s.wrote == [] ==> |y.c.wrote| <= 1)
    && (y.dialing ==> y.c.wrote == []) && (y.accepting ==> y.s.wrote == [] && y.readByS == 0)
  }

  predicate Waits(p: Node) { p.state == WaitCEA || p.state == WaitCER }

  /** A change that learns nothing and does not start to wait. */
  ghost predicate Fades(p: Node, q: Node) {
    && q.cfg == p.cfg && q.remoteHost == p.remoteHost && q.remoteRealm == p.remoteRealm
    && p.wrote <= q.wrote
    && (q.reading ==> p.reading) && (q.sock ==> p.sock) && (q.state != Closed ==> q.sock == p.sock)
    && (q.state == p.state || q.state == Closed || (p.state == Open && q.state == Closing))
  }

  /** Both sides have spoken, and this one waits no longer. */
  predicate MayWrite(y: Sys, side: Side) {
    Me(y, side).wrote != [] && Them(y, side).wrote != [] && !Waits(Me(y, side))
  }

  lemma OpenMayWrite(y: Sys, side: Side)
    requires Met(y) && Me(y, side).state == Open
    ensures MayWrite(y, side) && Begun(y, side)
  {
  }

  lemma FadingKeeps(y: Sys, side: Side, q: Node)
    requires Met(y) && Fades(Me(y, side), q)
    requires q.state == Me(y, side).state || !q.sock || Begun(y, side)
    requires q.wrote != Me(y, side).wrote ==> MayWrite(y, side)
    ensures Met(With(y, side, q))
  {
    hide Sound, ConfigFits;
    if Me(y, side).wrote != [] {
      assert q.wrote[0] == Me(y, side).wrote[0];
    }
  }

  lemma CallsFade(p: Node, q: Node)
    requires ByCalls(p, q) && Wired(p)
    ensures Fades(p, q) && (q.wrote != p.wrote ==> p.state == Open)
    ensures q.state == p.state || !q.sock || p.state == Open
  {
  }

  /** Calls of the application, in any number. */
  lemma CallsKeepMet(y: Sys, side: Side, q: Node)
    requires Met(y) && ByCalls(Me(y, side), q)
    ensures Met(With(y, side, q))
  {
    hide Met, ByCalls, Fades;
    MetWired(y, side);
    CallsFade(Me(y, side), q);
    if Me(y, side).state == Open {
      OpenMayWrite(y, side);
    }
    FadingKeeps(y, side, q);
  }

  lemma MetWired(y: Sys, side: Side)
    requires Met(y)
    ensures Wired(Me(y, side)) && (Me(y, side).reading ==> Begun(y, side))
    ensures Read(y, side) <= |Them(y, side).wrote|
  {
  }

  // ----- what each event does -----

  lemma ErrorMeets(y: Sys, side: Side, p: Node, react: Reaction)
    requires Met(y) && Begun(y, side)
    requires p == Me(y, side).(reading := p.reading, dpaOut := p.dpaOut) && (p.reading ==> Me(y, side).reading)
    ensures Met(With(y, side, OnError(p, react)))
  {
    hide Met;
    OnErrorForm(p, react);
    FadingKeeps(y, side, OnError(p, react));
  }

  lemma AnswerWrittenMeets(y: Sys, side: Side, react: Reaction)
    requires Met(y) && Me(y, side).dpaOut > 0
    ensures Met(With(y, side, OnAnswerWritten(Me(y, side), react)))
  {
    hide Met;
    var p := Me(y, side);
    ForceCloseForm(p.(dpaOut := p.dpaOut - 1), react);
    FadingKeeps(y, side, OnAnswerWritten(p, react));
  }

  lemma OnTimerMeets(y: Sys, side: Side)
    requires Met(y) && Me(y, side).due > 0
    ensures Met(With(y, side, OnTimer(Me(y, side))))
  {
    hide Met;
    if Me(y, side).state == Open {
      OpenMayWrite(y, side);
    }
    FadingKeeps(y, side, OnTimer(Me(y, side)));
  }

  lemma ConnectedMeets(y: Sys, react: Reaction)
    requires Met(y) && Enabled(y, Connected(react))
    ensures Met(Apply(y, Connected(react)))
  {
    hide Sound, ConfigFits;
    var cer := Own(y.c.cfg, CER, y.c.hopByHop, y.c.endToEnd, 0);
    var z := Apply(y, Connected(react));
    OwnFits(y.c.cfg, CER, y.c.hopByHop, y.c.endToEnd, 0);
    assert z.c.wrote == [cer];
  }

  lemma StartedMeets(y: Sys, react: Reaction)
    requires Met(y) && Enabled(y, Started(react))
    ensures Met(Apply(y, Started(react)))
  {
    var p := y.s.(state := WaitCER, reported := y.s.reported + [WaitCER], reading := true);
    var z := y.(s := p, accepting := false);
    assert y.s.state == Closed;
    hide Met;
    StartedState(y, p);
    var q := RunCalls(p.(reading := y.s.reading), react(WaitCER), react);
    RunByCalls(p.(reading := y.s.reading), react(WaitCER), react);
    CallsKeepMet(z, Server, q.(reading := true));
  }

  lemma StartedState(y: Sys, p: Node)
    requires Met(y) && y.accepting && y.s.sock
    requires p == y.s.(state := WaitCER, reported := p.reported, reading := true)
    ensures Met(y.(s := p, accepting := false))
  {
    hide Sound, ConfigFits;
  }

  /** The first message each way is the sender's own, and it is read as it was written. */
  lemma FirstIsRead(y: Sys, side: Side)
    requires Met(y) && Me(y, side).reading && Read(y, side) < |Them(y, side).wrote|
    requires Waits(Me(y, side)) || Me(y, side).wrote == []
    ensures var them := Them(y, side);
            var bytes := Encode(them.cfg, them.wrote[Read(y, side)]);
            && Introduces(them.wrote[Read(y, side)], if side == Client then CEA else CER, them)
            && Me(y, side).state != Open && Me(y, side).state != Closing
            && |bytes| >= Header.SIZE && Decode(bytes) == them.wrote[Read(y, side)]
  {
    hide Encode, Decode, KindOf, ConfigFits, EncodeMessage;
    var them := Them(y, side);
    assert Read(y, side) == 0;
    assert Sound(them.cfg, them.wrote[0]);
    CodecRoundTrip(them.cfg, them.wrote[0]);
  }

  lemma CerMeets(y: Sys, react: Reaction)
    requires Met(y) && y.s.state == WaitCER && y.s.reading && y.readByS < |y.c.wrote|
    requires Introduces(y.c.wrote[y.readByS], CER, y.c)
    ensures Met(With(ReadOneMore(y, Server), Server, HandleCER(y.s, y.c.wrote[y.readByS], react)))
  {
    var m := y.c.wrote[y.readByS];
    var p := Write(y.s.(remoteHost := m.host, remoteRealm := m.realm), Own(y.s.cfg, CEA, m.hbh, m.e2e, 0))
             .(state := Open, reported := y.s.reported + [Open]);
    CerState(y, p);
    var z := With(ReadOneMore(y, Server), Server, p);
    hide Met, RunCalls, Fades;
    RunByCalls(p, react(Open), react);
    CallsKeepMet(z, Server, RunCalls(p, react(Open), react));
  }

  lemma CerState(y: Sys, p: Node)
    requires Met(y) && y.s.state == WaitCER && y.s.reading && y.readByS < |y.c.wrote|
    requires var m := y.c.wrote[y.readByS];
             && m.Base?
             && p == y.s.(remoteHost := y.c.cfg.originHost, remoteRealm := y.c.cfg.originRealm, state := Open,
                          reported := p.reported, wrote := y.s.wrote + [Own(y.s.cfg, CEA, m.hbh, m.e2e, 0)])
    ensures Met(With(ReadOneMore(y, Server), Server, p))
  {
    hide Sound, ConfigFits;
    var m := y.c.wrote[y.readByS];
    OwnFits(y.s.cfg, CEA, m.hbh, m.e2e, 0);
    assert p.wrote == [Own(y.s.cfg, CEA, m.hbh, m.e2e, 0)];
  }

  lemma CeaMeets(y: Sys, react: Reaction)
    requires Met(y) && y.c.state == WaitCEA && y.c.reading && y.readByC < |y.s.wrote|
    requires Introduces(y.s.wrote[y.readByC], CEA, y.s)
    ensures Met(With(ReadOneMore(y, Client), Client, HandleCEA(y.c, y.s.wrote[y.readByC], react)))
  {
    var m := y.s.wrote[y.readByC];
    var p := y.c.(remoteHost := m.host, remoteRealm := m.realm, state := Open, reported := y.c.reported + [Open]);
    var z := With(ReadOneMore(y, Client), Client, p);
    hide Met, RunCalls, Fades;
    CeaState(y, p);
    RunByCalls(p, react(Open), react);
    var q := RunCalls(p, react(Open), react);
    CallsKeepMet(z, Client, q);
    WatchdogMeets(With(z, Client, q), Client);
    assert With(With(z, Client, q), Client, StartWatchdog(q)) == With(z, Client, StartWatchdog(q));
  }

  lemma WatchdogMeets(y: Sys, side: Side)
    requires Met(y)
    ensures Met(With(y, side, StartWatchdog(Me(y, side))))
  {
    hide Met;
    FadingKeeps(y, side, StartWatchdog(Me(y, side)));
  }

  lemma CeaState(y: Sys, p: Node)
    requires Met(y) && y.c.state == WaitCEA && y.c.reading && y.readByC < |y.s.wrote|
    requires p == y.c.(remoteHost := y.s.cfg.originHost, remoteRealm := y.s.cfg.originRealm, state := Open,
                       reported := p.reported)
    ensures Met(With(ReadOneMore(y, Client), Client, p))
  {
    hide Sound, ConfigFits;
  }

  /** Reading, by a side that does not wait, of any message at all. */
  lemma ReadingFades(p: Node, m: Msg, react: Reaction, onApp: seq<Call>)
    requires !Waits(p) && Wired(p)
    ensures var q := OnMessage(p, m, react, onApp);
            && Fades(p, q)
            && (q.wrote != p.wrote ==> p.state == Open || Is(m, DPR))
  {
    hide RunCalls, ForceClose, Own;
    match m
    case App(bytes) =>
      var p1 := p.(delivered := p.delivered + [bytes]);
      RunByCalls(p1, onApp, react);
      CallsFade(p1, RunCalls(p1, onApp, react));
    case Base(_, _, _, _, _, _) => ForceCloseForm(p, react);
  }

  lemma ReadMet(y: Sys, to: Side)
    requires Met(y) && Me(y, to).reading && Read(y, to) < |Them(y, to).wrote| && !Waits(Me(y, to))
    ensures Met(ReadOneMore(y, to))
  {
    hide Sound, ConfigFits;
  }

  lemma DeliveredMeets(y: Sys, to: Side, react: Reaction, onApp: seq<Call>)
    requires Met(y) && Enabled(y, Delivered(to, react, onApp))
    ensures Met(WireStep(y, Delivered(to, react, onApp)))
  {
    hide Met, Encode, Decode, Handshake, ConfigFits, OnMessage, HandleCER, HandleCEA, Fades;
    var p, them := Me(y, to), Them(y, to);
    var m := them.wrote[Read(y, to)];
    var bytes := Encode(them.cfg, m);
    if Waits(p) {
      FirstIsRead(y, to);
      WaitersDiffer(y, to);
      HandshakeHandlers(p, m, react, onApp);
      if to == Server {
        CerMeets(y, react);
      } else {
        CeaMeets(y, react);
      }
    } else {
      MetWired(y, to);
      ReadMet(y, to);
      var q := OnBytes(p, bytes, react, onApp);
      BytesFade(y, to, bytes, react, onApp);
      FadingKeeps(ReadOneMore(y, to), to, q);
    }
  }

  lemma WaitersDiffer(y: Sys, side: Side)
    requires Met(y) && Waits(Me(y, side))
    ensures Me(y, side).state == if side == Client then WaitCEA else WaitCER
  {
  }

  lemma HandshakeHandlers(p: Node, m: Msg, react: Reaction, onApp: seq<Call>)
    ensures Is(m, CER) ==> OnMessage(p, m, react, onApp) == HandleCER(p, m, react)
    ensures Is(m, CEA) ==> OnMessage(p, m, react, onApp) == HandleCEA(p, m, react)
  {
    hide HandleCER, HandleCEA;
  }

  lemma BytesFade(y: Sys, to: Side, bytes: seq<byte>, react: Reaction, onApp: seq<Call>)
    requires Met(y) && Me(y, to).reading && Read(y, to) < |Them(y, to).wrote| && !Waits(Me(y, to))
    requires bytes == Encode(Them(y, to).cfg, Them(y, to).wrote[Read(y, to)])
    ensures var p, q := Me(y, to), OnBytes(Me(y, to), bytes, react, onApp);
            Fades(p, q) && (q.wrote != p.wrote ==> MayWrite(y, to))
  {
    hide Met, Encode, Decode, OnMessage, Fades;
    var p := Me(y, to);
    MetWired(y, to);
    if |bytes| < Header.SIZE {
      assert Fades(p, p) by { StayingFades(p); }
    } else {
      ReadingFades(p, Decode(bytes), react, onApp);
      if p.wrote == [] {
        FirstIsRead(y, to);
      }
    }
  }

  lemma StayingFades(p: Node)
    ensures Fades(p, p)
  {
  }

  lemma StepMeets(y: Sys, e: Event)
    requires Met(y)
    ensures Met(WireStep(y, e))
  {
    hide Met, OnError, OnAnswerWritten, OnTimer, OnBytes, OnConnected, Start, DoCall, Encode, Cut;
    if Enabled(y, e) {
      match e
      case Connected(react) => ConnectedMeets(y, react);
      case Started(react) => StartedMeets(y, react);
      case Delivered(to, react, onApp) => DeliveredMeets(y, to, react, onApp);
      case EndOfStream(at, react) =>
        MetWired(y, at);
        ErrorMeets(y, at, Me(y, at).(reading := false), react);
      case WriteFailed(at, react) => ErrorMeets(y, at, Me(y, at), react);
      case AnswerWritten(at, react) => AnswerWrittenMeets(y, at, react);
      case AnswerFailed(at, react) => ErrorMeets(y, at, Me(y, at).(dpaOut := Me(y, at).dpaOut - 1), react);
      case Elapsed(at) => ElapsedMeets(y, at);
      case TimerFired(at) => OnTimerMeets(y, at);
      case UserCalled(at, call, react) =>
        MetWired(y, at);
        CallByCalls(Me(y, at), call, react);
        CallsKeepMet(y, at, DoCall(Me(y, at), call, react));
      case Broken => BrokenMeets(y);
    }
  }

  lemma ElapsedMeets(y: Sys, side: Side)
    requires Met(y)
    ensures Met(With(y, side, TimerElapses(Me(y, side))))
  {
    hide Met;
    FadingKeeps(y, side, TimerElapses(Me(y, side)));
  }

  lemma BrokenMeets(y: Sys)
    requires Met(y)
    ensures Met(y.(reset := true))
  {
    hide Sound, ConfigFits;
  }

  lemma {:induction false} RunMeets(y: Sys, es: seq<Event>)
    requires Met(y)
    ensures Met(WireRun(y, es))
    decreases |es|
  {
    if es == [] {
    } else {
      hide Met, WireStep;
      StepMeets(y, es[0]);
      RunMeets(WireStep(y, es[0]), es[1..]);
    }
  }

  lemma StartMeets(y: Sys)
    requires IsStart(y) && ConfigFits(y.c.cfg) && ConfigFits(y.s.cfg)
    ensures Met(y)
  {
    hide ConfigFits;
  }

  // ----- the theorems -----

  /** In every run over bytes, whoever is Open or Closing knows the other side by the origin it is configured with,
      whatever the applications send. */
  lemma IdentityAgreement(y0: Sys, es: seq<Event>, side: Side)
    requires IsStart(y0) && ConfigFits(y0.c.cfg) && ConfigFits(y0.s.cfg)
    ensures var y := WireRun(y0, es);
            Me(y, side).state == Open || Me(y, side).state == Closing ==> Knows(Me(y, side), Them(y, side))
  {
    hide ConfigFits;
    StartMeets(y0);
    RunMeets(y0, es);
  }

  /** Nor can anything they send disturb the handshake: an Open client has a server that left WaitCER, and the bytes a
      waiting side reads next decode to the handshake message it waits for. */
  lemma WireHandshakeSafety(y0: Sys, es: seq<Event>, side: Side)
    requires IsStart(y0) && ConfigFits(y0.c.cfg) && ConfigFits(y0.s.cfg)
    ensures var y := WireRun(y0, es);
            && (y.c.state == Open ==> y.s.state != WaitCER && !y.accepting)
            && (Waits(Me(y, side)) && Me(y, side).reading && Read(y, side) < |Them(y, side).wrote| ==>
                  var bytes := Encode(Them(y, side).cfg, Them(y, side).wrote[Read(y, side)]);
                  && |bytes| >= Header.SIZE
                  && Introduces(Decode(bytes), if side == Client then CEA else CER, Them(y, side)))
  {
    hide ConfigFits, Encode, Decode;
    StartMeets(y0);
    RunMeets(y0, es);
    var y := WireRun(y0, es);
    if Waits(Me(y, side)) && Me(y, side).reading && Read(y, side) < |Them(y, side).wrote| {
      FirstIsRead(y, side);
    }
  }
}
