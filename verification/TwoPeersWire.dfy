/** The two peers with the byte codec and the stream framing between them. */
module TwoPeersWire {
  import opened Bytes
  import opened AvpCodec
  import opened Messages
  import opened PeerMachine
  import opened TwoPeers
  import Framing
  import Header

  /** A delivery hands the receiver's peer the bytes of the sender's builders. */
  function WireStep(y: Sys, e: Event): Sys {
    if Enabled(y, e) && e.Delivered? then
      var m := Them(y, e.to).wrote[Read(y, e.to)];
      With(ReadOneMore(y, e.to), e.to, OnBytes(Me(y, e.to), Encode(Them(y, e.to).cfg, m), e.react, e.onApp))
    else Step(y, e)
  }

  function WireRun(y: Sys, es: seq<Event>): Sys
    decreases |es|
  {
    if es == [] then y else WireRun(WireStep(y, es[0]), es[1..])
  }

  // ----- which messages fit -----

  /** An application message of another command, whose length field is its size. */
  predicate AppSound(bytes: seq<byte>) {
    Header.SIZE <= |bytes| && KindOf(bytes) == None && Header.Length(bytes) == |bytes|
  }

  predicate Sound(cfg: Config, m: Msg) { if m.App? then AppSound(m.bytes) else Messages.Fits(cfg, m) }

  /** The longest message a peer builds, its CEA, fits the 24-bit length field. */
  predicate ConfigFits(cfg: Config) {
    && |cfg.originHost| < TWO_TO_THE_24 && |cfg.originRealm| < TWO_TO_THE_24
    && |Encode(cfg, Own(cfg, CEA, 0, 0, 0))| < TWO_TO_THE_24
  }

  lemma SizeOf(cfg: Config, m: Msg)
    requires m.Base?
    ensures |Encode(cfg, m)| == Header.SIZE + |EncodeAvps(LeadAvps(m.kind))| + |EncodeAvps(OriginAvps(m.host, m.realm))|
                                + |EncodeAvps(TailAvps(cfg, m))|
  {
    hide EncodeAvps, LeadAvps, OriginAvps, TailAvps;
    EncodeAvpsConcat(LeadAvps(m.kind), OriginAvps(m.host, m.realm) + TailAvps(cfg, m));
    EncodeAvpsConcat(OriginAvps(m.host, m.realm), TailAvps(cfg, m));
  }

  lemma SizeOfOne(a: Avp)
    ensures |EncodeAvps([a])| == RoundUp(8 + |a.data|)
    ensures |EncodeAvps([])| == 0
  {
    hide EncodeAvp;
    assert EncodeAvps([a]) == EncodeAvp(a) + EncodeAvps([a][1..]);
  }

  lemma TailIsShort(cfg: Config, m: Msg)
    requires m.Base?
    ensures |EncodeAvps(TailAvps(cfg, m))| <= |EncodeAvps(CapabilityAvps(cfg))|
  {
    hide EncodeAvp, EncodeAvps, AuthAppAvps, StringAvp;
    var address := AddressAvp(cfg.hostIp);
    var rest := [Uint32Avp(VENDOR_ID, cfg.vendorId), StringAvp(PRODUCT_NAME, 0, cfg.productName)]
                + AuthAppAvps(cfg.applicationIds);
    assert CapabilityAvps(cfg) == [address] + rest;
    EncodeAvpsConcat([address], rest);
    SizeOfOne(address);
    SizeOfOne(Uint32Avp(DISCONNECT_CAUSE, m.cause));
  }

  /** Then every message it builds fits. */
  lemma OwnFits(cfg: Config, k: Kind, hbh: uint32, e2e: uint32, cause: uint32)
    requires ConfigFits(cfg) && (k != DPR ==> cause == 0)
    ensures Sound(cfg, Own(cfg, k, hbh, e2e, cause))
  {
    hide EncodeAvps, Encode, CapabilityAvps, OriginAvps;
    var m, cea := Own(cfg, k, hbh, e2e, cause), Own(cfg, CEA, 0, 0, 0);
    SizeOf(cfg, m);
    SizeOf(cfg, cea);
    TailIsShort(cfg, m);
    SizeOfOne(Uint32Avp(RESULT_CODE, DIAMETER_SUCCESS));
  }

  /** The application sends only messages of its own commands, with their length filled in. */
  predicate AppOnly(c: Call) {
    c.Send? && Header.SIZE <= |c.msg| ==> AppSound(c.msg)
  }

  ghost predicate AppOnlyReaction(react: Reaction) { forall s, c :: c in react(s) ==> AppOnly(c) }

  ghost predicate AppOnlyEvent(e: Event) {
    match e
    case Delivered(_, react, onApp) => AppOnlyReaction(react) && forall c :: c in onApp ==> AppOnly(c)
    case UserCalled(_, call, react) => AppOnly(call) && AppOnlyReaction(react)
    case Connected(react) => AppOnlyReaction(react)
    case Started(react) => AppOnlyReaction(react)
    case EndOfStream(_, react) => AppOnlyReaction(react)
    case WriteFailed(_, react) => AppOnlyReaction(react)
    case AnswerWritten(_, react) => AppOnlyReaction(react)
    case AnswerFailed(_, react) => AppOnlyReaction(react)
    case _ => true
  }

  // ----- everything written fits -----

  predicate AllSound(cfg: Config, log: seq<Msg>) { forall m :: m in log ==> Sound(cfg, m) }

  predicate Fitting(p: Node) { ConfigFits(p.cfg) && AllSound(p.cfg, p.wrote) }

  lemma WriteFits(p: Node, m: Msg)
    requires Fitting(p) && Sound(p.cfg, m)
    ensures Fitting(Write(p, m)) && Write(p, m).cfg == p.cfg
  {
    hide Sound, ConfigFits;
  }

  lemma FillingKeepsSound(msg: Header.Message, hbh: uint32, e2e: uint32)
    requires AppSound(msg)
    ensures AppSound(Header.WithHopByHop(msg, hbh)) && AppSound(Header.WithEndToEnd(msg, e2e))
  {
    hide Header.WithU32, Header.Length, Header.CommandCode, Header.IsRequest;
    Header.SettersIndependent(msg, hbh, e2e);
  }

  lemma SendFits(p: Node, msg: seq<byte>)
    requires Fitting(p) && AppOnly(Send(msg))
    ensures Fitting(SendMessage(p, msg)) && SendMessage(p, msg).cfg == p.cfg
  {
    hide ConfigFits, Header.HopByHop, Header.EndToEnd, Header.WithU32, AppSound, Encode;
    if Accepts(p, msg) {
      FillingKeepsSound(msg, p.hopByHop, p.endToEnd);
      var msg1 := if Header.HopByHop(msg) == 0 then Header.WithHopByHop(msg, p.hopByHop) else msg;
      FillingKeepsSound(msg1, p.hopByHop, p.endToEnd);
      var msg2 := if Header.EndToEnd(msg1) == 0 then Header.WithEndToEnd(msg1, p.endToEnd) else msg1;
      WriteFits(p, App(msg2));
    }
  }

  lemma CallFits(p: Node, c: Call, react: Reaction)
    requires Fitting(p) && AppOnly(c)
    ensures Fitting(DoCall(p, c, react)) && DoCall(p, c, react).cfg == p.cfg
  {
    hide ConfigFits, Sound, KindOf;
    match c
    case Send(msg) => SendFits(p, msg);
    case Disconnect(cause) =>
      if p.state == Open {
        DisconnectFits(p, cause, react);
      } else {
        ForceCloseForm(p, react);
      }
    case Close => ForceCloseForm(p, react);
    case _ =>
  }

  lemma DisconnectFits(p: Node, cause: uint32, react: Reaction)
    requires Fitting(p) && p.state == Open
    ensures Fitting(StartDisconnect(p, cause, react)) && StartDisconnect(p, cause, react).cfg == p.cfg
  {
    hide ConfigFits, Sound, StartDisconnect, Own;
    DisconnectForm(p, cause, react);
    if AllMild(react(Closing)) {
      var closing := p.(state := Closing, armed := false, reported := p.reported + [Closing]);
      var h, e :| SameButIds(Write(closing, Own(p.cfg, DPR, h, e, cause)), StartDisconnect(p, cause, react));
      OwnFits(p.cfg, DPR, h, e, cause);
      WriteFits(closing, Own(p.cfg, DPR, h, e, cause));
    }
  }

  lemma {:induction false} CallsFit(p: Node, calls: seq<Call>, react: Reaction)
    requires Fitting(p) && forall c :: c in calls ==> AppOnly(c)
    ensures Fitting(RunCalls(p, calls, react)) && RunCalls(p, calls, react).cfg == p.cfg
    decreases |calls|
  {
    if calls == [] {
    } else {
      hide Fitting, AppOnly, DoCall;
      CallFits(p, calls[0], react);
      CallsFit(DoCall(p, calls[0], react), calls[1..], react);
    }
  }

  lemma SetStateFits(p: Node, newState: State, react: Reaction)
    requires Fitting(p) && AppOnlyReaction(react)
    ensures Fitting(SetState(p, newState, react)) && SetState(p, newState, react).cfg == p.cfg
  {
    hide ConfigFits, AllSound, AppOnly;
    if p.state != newState {
      CallsFit(p.(state := newState, reported := p.reported + [newState]), react(newState), react);
    }
  }

  lemma OnMessageFits(p: Node, m: Msg, react: Reaction, onApp: seq<Call>)
    requires Fitting(p) && AppOnlyReaction(react) && forall c :: c in onApp ==> AppOnly(c)
    ensures Fitting(OnMessage(p, m, react, onApp)) && OnMessage(p, m, react, onApp).cfg == p.cfg
  {
    hide ConfigFits, AllSound, AppOnly, AppOnlyReaction, SetState, RunCalls, Own;
    match m
    case App(bytes) =>
      if p.state == Open {
        CallsFit(p.(delivered := p.delivered + [bytes]), onApp, react);
      }
    case Base(kind, hbh, e2e, host, realm, _) =>
      var k := if kind == CER then CEA else if kind == DWR then DWA else DPA;
      var answer := Own(p.cfg, k, hbh, e2e, 0);
      var p1 := p.(remoteHost := host, remoteRealm := realm);
      OwnFits(p.cfg, k, hbh, e2e, 0);
      match kind
      case CER =>
        WriteFits(p1, answer);
        SetStateFits(Write(p1, answer), Open, react);
      case CEA => SetStateFits(p1, Open, react);
      case DWR => WriteFits(p, answer);
      case DWA =>
      case DPR => WriteFits(p, answer);
      case DPA => SetStateFits(StopWatchdog(p).(sock := false), Closed, react);
  }

  ghost predicate BothFit(y: Sys) { Fitting(y.c) && Fitting(y.s) }

  lemma LocalFits(y: Sys, e: Event)
    requires BothFit(y) && Enabled(y, e) && AppOnlyEvent(e) && !e.Delivered? && !e.Broken?
    ensures BothFit(Apply(y, e))
  {
    hide Fitting, AppOnlyReaction, SetState, Own, AppOnly, DoCall;
    match e
    case Connected(react) => OnConnectedFits(y.c, react);
    case Started(react) =>
      SetStateFits(y.s, WaitCER, react);
      SameLogFits(SetState(y.s, WaitCER, react), Start(y.s, react));
    case EndOfStream(at, react) => OnErrorFits(Me(y, at), Me(y, at).(reading := false), react);
    case WriteFailed(at, react) => OnErrorFits(Me(y, at), Me(y, at), react);
    case AnswerWritten(at, react) =>
      var p := Me(y, at).(dpaOut := Me(y, at).dpaOut - 1);
      SameLogFits(Me(y, at), StopWatchdog(p).(sock := false));
      SetStateFits(StopWatchdog(p).(sock := false), Closed, react);
    case AnswerFailed(at, react) => OnErrorFits(Me(y, at), Me(y, at).(dpaOut := Me(y, at).dpaOut - 1), react);
    case Elapsed(at) => SameLogFits(Me(y, at), TimerElapses(Me(y, at)));
    case TimerFired(at) => OnTimerFits(Me(y, at));
    case UserCalled(at, call, react) => CallFits(Me(y, at), call, react);
  }

  lemma SameLogFits(p: Node, q: Node)
    requires Fitting(p) && q.cfg == p.cfg && q.wrote == p.wrote
    ensures Fitting(q)
  {
  }

  lemma OnErrorFits(p: Node, p1: Node, react: Reaction)
    requires Fitting(p) && AppOnlyReaction(react) && p1.cfg == p.cfg && p1.wrote == p.wrote
    ensures Fitting(OnError(p1, react))
  {
    hide Fitting, AppOnlyReaction, SetState;
    SameLogFits(p, StopWatchdog(p1));
    SetStateFits(StopWatchdog(p1), Closed, react);
  }

  lemma OnConnectedFits(p: Node, react: Reaction)
    requires Fitting(p) && AppOnlyReaction(react)
    ensures Fitting(OnConnected(p, true, react))
  {
    hide ConfigFits, Sound, AppOnlyReaction, SetState, Own;
    SameLogFits(p, p.(sock := true));
    SetStateFits(p.(sock := true), WaitCEA, react);
    var q := SetState(p.(sock := true), WaitCEA, react);
    OwnFits(q.cfg, CER, q.hopByHop, q.endToEnd, 0);
    WriteFits(Advance(q), Own(q.cfg, CER, q.hopByHop, q.endToEnd, 0));
  }

  lemma OnTimerFits(p: Node)
    requires Fitting(p) && p.due > 0
    ensures Fitting(OnTimer(p))
  {
    hide ConfigFits, Sound, Own;
    OwnFits(p.cfg, DWR, p.hopByHop, p.endToEnd, 0);
    WriteFits(Advance(p.(due := p.due - 1)), Own(p.cfg, DWR, p.hopByHop, p.endToEnd, 0));
  }

  lemma StepFits(y: Sys, e: Event)
    requires BothFit(y) && AppOnlyEvent(e)
    ensures BothFit(Step(y, e))
  {
    hide Fitting, AppOnly, AppOnlyReaction, OnMessage;
    if Enabled(y, e) {
      if e.Delivered? {
        OnMessageFits(Me(y, e.to), Them(y, e.to).wrote[Read(y, e.to)], e.react, e.onApp);
      } else if !e.Broken? {
        LocalFits(y, e);
      }
    }
  }

  // ----- the theorems -----

  /** Putting the codec on the wire changes nothing. */
  lemma WireStepIsStep(y: Sys, e: Event)
    requires BothFit(y)
    ensures WireStep(y, e) == Step(y, e)
  {
    hide Encode, Decode, OnMessage, ConfigFits, KindOf;
    if Enabled(y, e) && e.Delivered? {
      var them := Them(y, e.to);
      var m := them.wrote[Read(y, e.to)];
      assert Sound(them.cfg, m);
      CodecRoundTrip(them.cfg, m);
    }
  }

  /** Every run over bytes is the run over descriptors, when both configurations fit and the application sends
      application messages. */
  lemma {:induction false} WireRunIsRun(y: Sys, es: seq<Event>)
    requires BothFit(y) && forall e :: e in es ==> AppOnlyEvent(e)
    ensures WireRun(y, es) == Run(y, es) && BothFit(Run(y, es))
    decreases |es|
  {
    if es == [] {
    } else {
      hide BothFit, AppOnlyEvent, WireStep, Step;
      WireStepIsStep(y, es[0]);
      StepFits(y, es[0]);
      WireRunIsRun(Step(y, es[0]), es[1..]);
    }
  }

  lemma UnusedFits(p: Node)
    requires Unused(p) && ConfigFits(p.cfg)
    ensures Fitting(p)
  {
  }

  /** From the start of a connection on, only the configurations and the application matter: every theorem about
      runs of descriptors is one about runs of bytes. */
  lemma WireRunFromStart(y0: Sys, es: seq<Event>)
    requires IsStart(y0) && ConfigFits(y0.c.cfg) && ConfigFits(y0.s.cfg)
    requires forall e :: e in es ==> AppOnlyEvent(e)
    ensures WireRun(y0, es) == Run(y0, es)
  {
    hide ConfigFits, AppOnlyEvent, Fitting;
    UnusedFits(y0.c);
    UnusedFits(y0.s);
    WireRunIsRun(y0, es);
  }

  /** Why the application's messages matter: an Open peer treats received bytes as an application message if and only
      if their command is none of the base protocol's. */
  lemma RoutedAsAppIff(p: Node, bytes: Header.Message, react: Reaction, onApp: seq<Call>)
    requires p.state == Open && p.sock
    ensures OnBytes(p, bytes, react, onApp) == OnMessage(p, App(bytes), react, onApp)
            <==> !BaseCommandBytes(bytes[5], bytes[6], bytes[7])
  {
    RoutingOnBytes(bytes);
    hide RunCalls, KindOf, CauseIn, StringAt, Header.HopByHop, Header.EndToEnd;
    var p1 := p.(delivered := p.delivered + [bytes]);
    RunByCalls(p1, onApp, react);
    assert OnMessage(p, App(bytes), react, onApp).delivered == p.delivered + [bytes];
  }

  function EncodeAll(cfg: Config, log: seq<Msg>): (r: seq<seq<byte>>)
    ensures |r| == |log|
  {
    seq(|log|, i requires 0 <= i < |log| => Encode(cfg, log[i]))
  }

  lemma SoundIsFramed(cfg: Config, m: Msg)
    requires Sound(cfg, m)
    ensures Framing.Framed(Encode(cfg, m)) && Decode(Encode(cfg, m)) == m
  {
    hide EncodeMessage, KindOf, Decode;
    CodecRoundTrip(cfg, m);
    if m.Base? {
      EncodedIsFramed(cfg, m);
    }
  }

  /** The byte stream of a side, cut anywhere, delivers exactly the bytes of its first messages, and they decode
      to what was written. */
  lemma StreamDelivers(cfg: Config, log: seq<Msg>, got: seq<byte>, rest: seq<byte>)
    requires AllSound(cfg, log) && Framing.Concat(EncodeAll(cfg, log)) == got + rest
    ensures var r := Framing.Frames(got);
            && !r.bad && |r.delivered| <= |log|
            && r.delivered == EncodeAll(cfg, log)[..|r.delivered|]
            && forall i :: 0 <= i < |r.delivered| ==>
                 |r.delivered[i]| >= Header.SIZE && Decode(r.delivered[i]) == log[i]
  {
    hide Encode, Decode, Framing.Framed, Sound;
    var all := EncodeAll(cfg, log);
    forall i | 0 <= i < |log|
      ensures Framing.Framed(all[i])
    {
      SoundIsFramed(cfg, log[i]);
    }
    Framing.FramingRoundTrip(all);
    Framing.FramesResume(got, rest);
    Framing.PrefixDeliversPrefix(got, rest);
    var r := Framing.Frames(got);
    forall i | 0 <= i < |r.delivered|
      ensures |r.delivered[i]| >= Header.SIZE && Decode(r.delivered[i]) == log[i]
    {
      SoundIsFramed(cfg, log[i]);
      FramedIsLong(all[i]);
      assert r.delivered[i] == all[i];
    }
  }

  lemma FramedIsLong(m: seq<byte>)
    requires Framing.Framed(m)
    ensures |m| >= Header.SIZE
  {
  }
}
