/** A connection that is being taken down comes down: once one side is Closing or Closed, and nothing new is sent,
    every run ends, and it ends with both sides Closed. */
module TwoPeersProgress {
  import opened Bytes
  import opened Messages
  import opened PeerMachine
  import opened TwoPeers
  import Seqs

  // ----- runs without new traffic -----

  predicate NoSend(calls: seq<Call>) { forall c :: c in calls ==> !c.Send? }

  /** The callbacks may disconnect, close and draw identifiers, but send nothing. */
  ghost predicate Sparing(react: Reaction) { forall s :: NoSend(react(s)) }

  /** The events that happen by themselves, with callbacks that send nothing: no call from outside, no timer, no
      failure of the network. */
  ghost predicate Internal(e: Event) {
    match e
    case Connected(react) => Sparing(react)
    case Started(react) => Sparing(react)
    case Delivered(_, react, onApp) => Sparing(react) && NoSend(onApp)
    case EndOfStream(_, react) => Sparing(react)
    case AnswerWritten(_, react) => Sparing(react)
    case AnswerFailed(_, react) => Sparing(react)
    case _ => false
  }

  /** Events that come from outside and start no traffic: calls other than sends, write errors, a broken network, and
      a timer that expires without its handler running. */
  ghost predicate Passive(e: Event) {
    match e
    case UserCalled(_, call, react) => !call.Send? && Sparing(react)
    case WriteFailed(_, react) => Sparing(react)
    case Elapsed(_) => true
    case Broken => true
    case _ => false
  }

  // ----- the measure -----

  /** An unread message and everything its reader may do because of it. */
  function Weight(m: Msg): nat {
    if m.App? then 1
    else match m.kind
      case DPR => 3
      case CER | DWR => 2
      case _ => 1
  }

  function Load(log: seq<Msg>): nat {
    if log == [] then 0 else Weight(log[0]) + Load(log[1..])
  }

  lemma {:induction false} LoadConcat(a: seq<Msg>, b: seq<Msg>)
    ensures Load(a + b) == Load(a) + Load(b)
    decreases |a|
  {
    if a == [] {
      assert a + b == b;
    } else {
      Seqs.Uncons(a, b);
      LoadConcat(a[1..], b);
    }
  }

  lemma LoadOne(m: Msg)
    ensures Load([m]) == Weight(m) && Load([]) == 0
  {
    assert [m][1..] == [];
  }

  function Unread(y: Sys, side: Side): seq<Msg>
    requires Read(y, side) <= |Them(y, side).wrote|
  {
    Them(y, side).wrote[Read(y, side)..]
  }

  /** What a peer can still write without being asked: one disconnect request, as long as it has not begun to close. */
  function Potential(p: Node): nat { if p.state == Closing || p.state == Closed then 0 else 4 }

  function PeerMeasure(p: Node, begun: bool): nat {
    p.dpaOut + (if p.reading then 1 else 0) + Potential(p) + (if begun then 0 else 8)
  }

  ghost function Measure(y: Sys): nat
    requires Inv(y)
  {
    HalfFacts(y, Client);
    HalfFacts(y, Server);
    Load(Unread(y, Client)) + Load(Unread(y, Server)) + PeerMeasure(y.c, !y.dialing) + PeerMeasure(y.s, !y.accepting)
  }

  /** A peer steps from `p` to `q`, writing messages of weight `added`. */
  ghost predicate Writes(p: Node, q: Node, added: nat) {
    p.wrote <= q.wrote && added == Load(q.wrote[|p.wrote|..])
  }

  lemma WritesLoad(p: Node, q: Node, added: nat, read: nat)
    requires Writes(p, q, added) && read <= |p.wrote|
    ensures Load(q.wrote[read..]) == Load(p.wrote[read..]) + added
  {
    assert q.wrote[read..] == p.wrote[read..] + q.wrote[|p.wrote|..];
    LoadConcat(p.wrote[read..], q.wrote[|p.wrote|..]);
  }

  lemma WritesTrans(p: Node, q: Node, r: Node, a: nat, b: nat)
    requires Writes(p, q, a) && Writes(q, r, b)
    ensures Writes(p, r, a + b)
  {
    WritesLoad(q, r, b, |p.wrote|);
  }

  lemma WritesNothing(p: Node, q: Node)
    requires q.wrote == p.wrote
    ensures Writes(p, q, 0)
  {
    assert q.wrote[|p.wrote|..] == [];
  }

  lemma WritesOne(p: Node, q: Node, m: Msg)
    requires q.wrote == p.wrote + [m]
    ensures Writes(p, q, Weight(m))
  {
    assert q.wrote[|p.wrote|..] == [m];
    LoadOne(m);
  }

  // ----- what calls cost -----

  /** The step is paid for by the potential it gives up, and touches neither reads nor pending answers. */
  ghost predicate Affords(p: Node, q: Node) {
    && q.reading == p.reading && q.dpaOut == p.dpaOut
    && exists added: nat :: Writes(p, q, added) && added + Potential(q) <= Potential(p)
  }

  lemma AffordsTrans(p: Node, q: Node, r: Node)
    requires Affords(p, q) && Affords(q, r)
    ensures Affords(p, r)
  {
    hide Writes, Potential;
    var a: nat :| Writes(p, q, a) && a + Potential(q) <= Potential(p);
    var b: nat :| Writes(q, r, b) && b + Potential(r) <= Potential(q);
    WritesTrans(p, q, r, a, b);
  }

  lemma AffordsQuiet(p: Node, q: Node)
    requires q.wrote == p.wrote && q.reading == p.reading && q.dpaOut == p.dpaOut && Potential(q) <= Potential(p)
    ensures Affords(p, q)
  {
    WritesNothing(p, q);
  }

  lemma CloseAffords(p: Node, react: Reaction)
    ensures Affords(p, ForceClose(p, react))
  {
    hide Affords;
    ForceCloseForm(p, react);
    AffordsQuiet(p, ForceClose(p, react));
  }

  lemma DisconnectAffords(p: Node, cause: uint32, react: Reaction)
    requires p.state == Open
    ensures Affords(p, StartDisconnect(p, cause, react))
  {
    DisconnectForm(p, cause, react);
    var r := StartDisconnect(p, cause, react);
    if AllMild(react(Closing)) && p.sock {
      WritesOne(p, r, r.wrote[|p.wrote|]);
    } else {
      AffordsQuiet(p, r);
    }
  }

  lemma CallAffords(p: Node, c: Call, react: Reaction)
    requires !c.Send?
    ensures Affords(p, DoCall(p, c, react))
  {
    hide Affords, ForceClose;
    match c
    case Disconnect(cause) =>
      if p.state == Open {
        DisconnectAffords(p, cause, react);
      } else {
        CloseAffords(p, react);
      }
    case Close => CloseAffords(p, react);
    case DrawHopByHop => AffordsQuiet(p, DoCall(p, c, react));
    case DrawEndToEnd => AffordsQuiet(p, DoCall(p, c, react));
  }

  lemma {:induction false} CallsAfford(p: Node, calls: seq<Call>, react: Reaction)
    requires NoSend(calls)
    ensures Affords(p, RunCalls(p, calls, react))
    decreases |calls|
  {
    hide Affords, DoCall;
    if calls == [] {
      AffordsQuiet(p, p);
    } else {
      var q := DoCall(p, calls[0], react);
      CallAffords(p, calls[0], react);
      CallsAfford(q, calls[1..], react);
      AffordsTrans(p, q, RunCalls(p, calls, react));
    }
  }

  /** Reporting a state costs no more than the state is worth. */
  lemma SetStateAffords(p: Node, newState: State, react: Reaction)
    requires Sparing(react)
    requires Potential(p.(state := newState)) <= Potential(p)
    ensures Affords(p, SetState(p, newState, react))
  {
    hide Affords, RunCalls;
    if p.state == newState {
      AffordsQuiet(p, p);
    } else {
      var q := p.(state := newState, reported := p.reported + [newState]);
      AffordsQuiet(p, q);
      CallsAfford(q, react(newState), react);
      AffordsTrans(p, q, SetState(p, newState, react));
    }
  }

  // ----- what deliveries cost -----

  /** Reading `m` costs more than the reader gains from it. */
  ghost predicate Pays(p: Node, q: Node, m: Msg) {
    && q.reading == p.reading
    && exists added: nat ::
         Writes(p, q, added) && added + q.dpaOut + Potential(q) < Weight(m) + p.dpaOut + Potential(p)
  }

  lemma AffordedPays(p: Node, q: Node, m: Msg)
    requires Affords(p, q)
    ensures Pays(p, q, m)
  {
  }

  /** An answer is written, and then a state may be reported. */
  lemma AnsweredPays(p: Node, p1: Node, q: Node, m: Msg, answer: Msg)
    requires Is(m, CER) || Is(m, DWR) || Is(m, DPR)
    requires Is(answer, CEA) || Is(answer, DWA) || Is(answer, DPA)
    requires p1.wrote == p.wrote + [answer] && p1.reading == p.reading && Potential(p1) == Potential(p)
    requires p1.dpaOut == p.dpaOut + if Is(m, DPR) then 1 else 0
    requires Affords(p1, q)
    ensures Pays(p, q, m)
  {
    hide Writes, Potential;
    WritesOne(p, p1, answer);
    var b: nat :| Writes(p1, q, b) && b + Potential(q) <= Potential(p1);
    WritesTrans(p, p1, q, Weight(answer), b);
  }

  lemma CerPays(p: Node, m: Msg, react: Reaction)
    requires Sparing(react) && Is(m, CER)
    ensures Pays(p, HandleCER(p, m, react), m)
  {
    hide SetState, Sparing, Pays, Affords;
    var p0 := p.(remoteHost := m.host, remoteRealm := m.realm);
    var answer := Own(p.cfg, CEA, m.hbh, m.e2e, 0);
    var q := HandleCER(p, m, react);
    if p.state != WaitCER {
      AffordsQuiet(p, p);
      AffordedPays(p, q, m);
    } else {
      SetStateAffords(Write(p0, answer), Open, react);
      if p.sock {
        AnsweredPays(p, Write(p0, answer), q, m, answer);
      } else {
        AffordsQuiet(p, p0);
        AffordsTrans(p, p0, q);
        AffordedPays(p, q, m);
      }
    }
  }

  lemma CeaPays(p: Node, m: Msg, react: Reaction)
    requires Sparing(react) && Is(m, CEA)
    ensures Pays(p, HandleCEA(p, m, react), m)
  {
    hide SetState, Sparing, Pays, Affords;
    var p0 := p.(remoteHost := m.host, remoteRealm := m.realm);
    if p.state != WaitCEA {
      AffordsQuiet(p, p);
    } else {
      var q := SetState(p0, Open, react);
      AffordsQuiet(p, p0);
      SetStateAffords(p0, Open, react);
      AffordsTrans(p, p0, q);
      AffordsQuiet(q, StartWatchdog(q));
      AffordsTrans(p, q, StartWatchdog(q));
    }
    AffordedPays(p, HandleCEA(p, m, react), m);
  }

  lemma AnswerPays(p: Node, m: Msg)
    requires Is(m, DWR) || Is(m, DPR)
    ensures Pays(p, if m.kind == DWR then HandleDWR(p, m) else HandleDPR(p, m), m)
  {
    hide Pays, Affords;
    var q := if m.kind == DWR then HandleDWR(p, m) else HandleDPR(p, m);
    if q.wrote == p.wrote {
      AffordsQuiet(p, q);
      AffordedPays(p, q, m);
    } else {
      AffordsQuiet(q, q);
      AnsweredPays(p, q, q, m, Own(p.cfg, if m.kind == DWR then DWA else DPA, m.hbh, m.e2e, 0));
    }
  }

  lemma AppPays(p: Node, m: Msg, react: Reaction, onApp: seq<Call>)
    requires m.App? && NoSend(onApp)
    ensures Pays(p, OnMessage(p, m, react, onApp), m)
  {
    hide Pays, Affords, RunCalls;
    var p1 := p.(delivered := p.delivered + [m.bytes]);
    AffordsQuiet(p, p);
    AffordsQuiet(p, p1);
    CallsAfford(p1, onApp, react);
    AffordsTrans(p, p1, RunCalls(p1, onApp, react));
    AffordedPays(p, OnMessage(p, m, react, onApp), m);
  }

  lemma DpaPays(p: Node, m: Msg, react: Reaction)
    requires Is(m, DPA)
    ensures Pays(p, HandleDPA(p, react), m)
  {
    hide Pays, Affords, ForceClose;
    AffordsQuiet(p, p);
    CloseAffords(p, react);
    AffordedPays(p, HandleDPA(p, react), m);
  }

  lemma DwaPays(p: Node, m: Msg)
    requires Is(m, DWA)
    ensures Pays(p, p, m)
  {
    AffordsQuiet(p, p);
    AffordedPays(p, p, m);
  }

  lemma DeliveryPays(p: Node, m: Msg, react: Reaction, onApp: seq<Call>)
    requires Sparing(react) && NoSend(onApp)
    ensures Pays(p, OnMessage(p, m, react, onApp), m)
  {
    hide SetState, RunCalls, Sparing, Pays, HandleCER, HandleCEA, HandleDWR, HandleDPR, HandleDPA;
    match m
    case App(_) => AppPays(p, m, react, onApp);
    case Base(kind, _, _, _, _, _) =>
      match kind
      case CER => CerPays(p, m, react);
      case CEA => CeaPays(p, m, react);
      case DWA => DwaPays(p, m);
      case DPA => DpaPays(p, m, react);
      case DWR => AnswerPays(p, m);
      case DPR => AnswerPays(p, m);
  }

  lemma DeliveredDecreases(y: Sys, to: Side, react: Reaction, onApp: seq<Call>)
    requires Inv(y) && Enabled(y, Delivered(to, react, onApp)) && Sparing(react) && NoSend(onApp)
    requires Inv(Apply(y, Delivered(to, react, onApp)))
    ensures Measure(Apply(y, Delivered(to, react, onApp))) < Measure(y)
  {
    hide Inv, OnMessage, Writes, Weight, Sparing, Potential;
    var z := Apply(y, Delivered(to, react, onApp));
    var p, w, n, them := Me(y, to), Them(y, to).wrote, Read(y, to), Opposite(to);
    HalfFacts(y, to);
    HalfFacts(y, them);
    DeliveryPays(p, w[n], react, onApp);
    var q := Me(z, to);
    var added: nat :| Writes(p, q, added) && added + q.dpaOut + Potential(q) < Weight(w[n]) + p.dpaOut + Potential(p);
    WritesLoad(p, q, added, Read(y, them));
    assert w[n..][1..] == w[n + 1..];
    assert Load(Unread(y, to)) == Weight(w[n]) + Load(Unread(z, to));
  }

  // ----- what other events cost -----

  /** The step from `p` to `q` writes messages, and with them gives up `gain` at least. */
  ghost predicate LocallyPays(p: Node, begun: bool, q: Node, begunAfter: bool, gain: nat) {
    exists added: nat :: Writes(p, q, added) && added + PeerMeasure(q, begunAfter) + gain <= PeerMeasure(p, begun)
  }

  lemma AffordedLocally(p: Node, p1: Node, begun: bool, q: Node, gain: nat)
    requires p1 == p.(reading := p1.reading, dpaOut := p1.dpaOut, armed := p1.armed, sock := p1.sock)
    requires PeerMeasure(p1, begun) + gain <= PeerMeasure(p, begun)
    requires Affords(p1, q)
    ensures LocallyPays(p, begun, q, begun, gain)
  {
    hide Writes, Potential;
    var added: nat :| Writes(p1, q, added) && added + Potential(q) <= Potential(p1);
    WritesNothing(p, p1);
    WritesTrans(p, p1, q, 0, added);
    assert Writes(p, q, added);
  }

  lemma ConnectedPays(p: Node, react: Reaction)
    requires p.state == WaitCEA && p.sock
    ensures LocallyPays(p, false, OnConnected(p, true, react), true, 1)
  {
    hide Writes;
    assert SetState(p, WaitCEA, react) == p;
    var q := OnConnected(p, true, react);
    WritesOne(p, q, Own(p.cfg, CER, p.hopByHop, p.endToEnd, 0));
  }

  lemma StartedPays(p: Node, react: Reaction)
    requires Sparing(react) && p.state == Closed
    ensures LocallyPays(p, false, Start(p, react), true, 1)
  {
    hide Writes, RunCalls;
    var p1 := p.(state := WaitCER, reported := p.reported + [WaitCER]);
    var q := RunCalls(p1, react(WaitCER), react);
    CallsAfford(p1, react(WaitCER), react);
    var added: nat :| Writes(p1, q, added) && added + Potential(q) <= Potential(p1);
    WritesNothing(p, p1);
    WritesTrans(p, p1, q, 0, added);
    WritesNothing(q, Start(p, react));
    WritesTrans(p, q, Start(p, react), added, 0);
  }

  lemma ErrorPays(p: Node, p1: Node, react: Reaction, gain: nat)
    requires Sparing(react) && p1 == p.(reading := p1.reading, dpaOut := p1.dpaOut)
    requires p1.dpaOut + (if p1.reading then 1 else 0) + gain <= p.dpaOut + if p.reading then 1 else 0
    ensures LocallyPays(p, true, OnError(p1, react), true, gain)
  {
    hide Affords, SetState, Sparing, LocallyPays;
    SetStateAffords(StopWatchdog(p1), Closed, react);
    AffordedLocally(p, StopWatchdog(p1), true, OnError(p1, react), gain);
  }

  lemma AnswerWrittenPays(p: Node, react: Reaction)
    requires p.dpaOut > 0
    ensures LocallyPays(p, true, OnAnswerWritten(p, react), true, 1)
  {
    hide Affords, ForceClose, LocallyPays;
    var p1 := p.(dpaOut := p.dpaOut - 1);
    CloseAffords(p1, react);
    AffordedLocally(p, p1, true, OnAnswerWritten(p, react), 1);
  }

  lemma CallPays(p: Node, begun: bool, c: Call, react: Reaction)
    requires !c.Send?
    ensures LocallyPays(p, begun, DoCall(p, c, react), begun, 0)
  {
    hide Affords, DoCall, LocallyPays;
    CallAffords(p, c, react);
    AffordedLocally(p, p, begun, DoCall(p, c, react), 0);
  }

  lemma ElapsedPays(p: Node, begun: bool)
    ensures LocallyPays(p, begun, TimerElapses(p), begun, 0)
  {
    WritesNothing(p, TimerElapses(p));
  }

  /** What an event away from the channels costs: an internal one pays, a passive one costs nothing. */
  lemma LocalPays(y: Sys, e: Event)
    requires Inv(y) && Enabled(y, e) && !e.Delivered? && !e.Broken?
    requires Internal(e) || Passive(e)
    ensures var at := PlaceOf(e);
            LocallyPays(Me(y, at), Begun(y, at), Me(Apply(y, e), at), Begun(Apply(y, e), at),
                        if Internal(e) then 1 else 0)
  {
    hide SetState, Sparing, LocallyPays, OnConnected, Start, OnError, OnAnswerWritten, DoCall, TimerElapses,
      Potential, Cut;
    var p := Me(y, PlaceOf(e));
    assert Half(y, PlaceOf(e));
    match e
    case Connected(react) => ConnectedPays(p, react);
    case Started(react) => StartedPays(p, react);
    case EndOfStream(_, react) => ErrorPays(p, p.(reading := false), react, 1);
    case WriteFailed(_, react) => ErrorPays(p, p, react, 0);
    case AnswerWritten(_, react) => AnswerWrittenPays(p, react);
    case AnswerFailed(_, react) => ErrorPays(p, p.(dpaOut := p.dpaOut - 1), react, 1);
    case Elapsed(at) => ElapsedPays(p, Begun(y, at));
    case UserCalled(at, call, react) => CallPays(p, Begun(y, at), call, react);
  }

  lemma LocalDecreases(y: Sys, e: Event)
    requires Inv(y) && Enabled(y, e) && !e.Delivered? && !e.Broken?
    requires Internal(e) || Passive(e)
    requires Inv(Apply(y, e))
    ensures Measure(Apply(y, e)) + (if Internal(e) then 1 else 0) <= Measure(y)
  {
    hide Inv, Writes, Enabled, Apply, PeerMeasure, Internal, Passive;
    var z, at := Apply(y, e), PlaceOf(e);
    HalfFacts(y, Client);
    HalfFacts(y, Server);
    LocalPays(y, e);
    AwayFromPlace(y, e);
    var p, q, gain := Me(y, at), Me(z, at), if Internal(e) then 1 else 0;
    var added: nat :|
      Writes(p, q, added) && added + PeerMeasure(q, Begun(z, at)) + gain <= PeerMeasure(p, Begun(y, at));
    WritesLoad(p, q, added, Read(y, Opposite(at)));
  }

  /** Nothing is read, and nothing happens at the other side. */
  lemma AwayFromPlace(y: Sys, e: Event)
    requires Enabled(y, e) && !e.Delivered? && !e.Broken?
    ensures var z, them := Apply(y, e), Opposite(PlaceOf(e));
            && z.readByC == y.readByC && z.readByS == y.readByS
            && Me(z, them) == Me(y, them) && Begun(z, them) == Begun(y, them)
  {
    hide OnError, OnAnswerWritten, OnTimer, OnConnected, Start, DoCall, TimerElapses, Cut;
  }

  lemma InternalDecreases(y: Sys, e: Event)
    requires Inv(y) && Internal(e) && Enabled(y, e)
    ensures Inv(Step(y, e)) && Measure(Step(y, e)) < Measure(y)
  {
    hide Inv, Measure, Enabled;
    StepKeeps(y, e);
    if e.Delivered? {
      DeliveredDecreases(y, e.to, e.react, e.onApp);
    } else {
      LocalDecreases(y, e);
    }
  }

  lemma PassiveKeepsMeasure(y: Sys, e: Event)
    requires Inv(y) && Passive(e) && Enabled(y, e)
    ensures Inv(Step(y, e)) && Measure(Step(y, e)) <= Measure(y)
  {
    hide Inv, Enabled, PeerMeasure, Apply;
    StepKeeps(y, e);
    if e.Broken? {
      BrokenWeighsNothing(y);
    } else {
      LocalDecreases(y, e);
    }
  }

  lemma BrokenWeighsNothing(y: Sys)
    requires Inv(y) && Inv(Apply(y, Broken))
    ensures Measure(Apply(y, Broken)) == Measure(y)
  {
    hide Inv, PeerMeasure;
  }

  // ----- where runs end -----

  /** The end of the connection has begun: a side is Closing or Closed, or the network broke. */
  predicate Ending(y: Sys) {
    || y.c.state == Closing || y.c.state == Closed
    || y.s.state == Closing || (y.s.state == Closed && (!y.accepting || !y.s.sock))
    || y.reset
  }

  ghost predicate Quiescent(y: Sys) { forall e :: Internal(e) ==> !Enabled(y, e) }

  lemma QuiescentMeans(y: Sys, side: Side)
    requires Inv(y) && Quiescent(y)
    ensures Me(y, side).reading ==> !Cut(y, side) && Read(y, side) == |Them(y, side).wrote|
    ensures Me(y, side).dpaOut == 0
    ensures !(y.dialing && y.c.sock) && !(y.accepting && y.s.sock)
  {
    var silent: Reaction := _ => [];
    HalfFacts(y, side);
    assert !Enabled(y, Delivered(side, silent, []));
    assert !Enabled(y, EndOfStream(side, silent));
    assert !Enabled(y, AnswerWritten(side, silent));
    assert !Enabled(y, Connected(silent));
    assert !Enabled(y, Started(silent));
  }

  /** No side waits for ever: where nothing more can happen, an ending connection has ended on both sides. */
  lemma QuiescentIsClosed(y: Sys)
    requires Inv(y) && Quiescent(y) && Ending(y)
    ensures y.c.state == Closed && y.s.state == Closed
  {
    QuiescentMeans(y, Client);
    QuiescentMeans(y, Server);
    assert Half(y, Client) && Half(y, Server);
    assert Cut(y, Client);
  }

  /** No event but the start of a connection leads a peer out of Closing or Closed, or reopens a socket. */
  ghost predicate Sinks(p: Node, q: Node) {
    && (p.state == Closing || p.state == Closed ==> q.state == p.state || q.state == Closed)
    && (q.sock ==> p.sock)
  }

  lemma DeliverySinks(p: Node, m: Msg, react: Reaction, onApp: seq<Call>)
    requires Wired(p)
    ensures Sinks(p, OnMessage(p, m, react, onApp))
  {
    hide RunCalls, ForceClose;
    ForceCloseForm(p, react);
    match m
    case App(bytes) =>
      var p1 := p.(delivered := p.delivered + [bytes]);
      RunByCalls(p1, onApp, react);
    case Base(_, hbh, e2e, host, realm, _) =>
      var p1 := p.(remoteHost := host, remoteRealm := realm, state := Open, reported := p.reported + [Open]);
      if p.sock {
        RunByCalls(Write(p1, Own(p.cfg, CEA, hbh, e2e, 0)), react(Open), react);
        RunByCalls(p1, react(Open), react);
      }
  }

  lemma ErrorSinks(p: Node, p1: Node, react: Reaction)
    requires p1 == p.(reading := p1.reading, dpaOut := p1.dpaOut)
    ensures Sinks(p, OnError(p1, react)) && Sinks(p, ForceClose(p1, react))
  {
    OnErrorForm(p1, react);
    ForceCloseForm(p1, react);
  }

  lemma CallSinks(p: Node, c: Call, react: Reaction)
    requires Wired(p)
    ensures Sinks(p, DoCall(p, c, react))
  {
    CallByCalls(p, c, react);
  }

  lemma ElapsedSinks(p: Node)
    ensures Sinks(p, TimerElapses(p))
  {
  }

  lemma EventSinks(y: Sys, e: Event)
    requires Inv(y) && Enabled(y, e) && (Internal(e) || Passive(e))
    requires !e.Connected? && !e.Started? && !e.Broken?
    ensures Sinks(Me(y, PlaceOf(e)), Me(Apply(y, e), PlaceOf(e)))
  {
    hide Inv, Sinks, OnError, OnMessage, ForceClose, DoCall, Cut, Sparing;
    var p := Me(y, PlaceOf(e));
    HalfFacts(y, PlaceOf(e));
    match e
    case Delivered(to, react, onApp) => DeliverySinks(p, Them(y, to).wrote[Read(y, to)], react, onApp);
    case EndOfStream(_, react) => ErrorSinks(p, p.(reading := false), react);
    case WriteFailed(_, react) => ErrorSinks(p, p, react);
    case AnswerWritten(_, react) => ErrorSinks(p, p.(dpaOut := p.dpaOut - 1), react);
    case AnswerFailed(_, react) => ErrorSinks(p, p.(dpaOut := p.dpaOut - 1), react);
    case Elapsed(_) => ElapsedSinks(p);
    case UserCalled(_, call, react) => CallSinks(p, call, react);
  }

  lemma EndingKept(y: Sys, e: Event)
    requires Inv(y) && Ending(y) && (Internal(e) || Passive(e))
    ensures Ending(Step(y, e))
  {
    if Enabled(y, e) {
      if e.Connected? {
        ConnectedEnds(y, e.react);
      } else if e.Started? {
        StartedEnds(y, e.react);
      } else if !e.Broken? {
        EventSinks(y, e);
        SinkingEnds(y, e);
      }
    }
  }

  lemma SinkingEnds(y: Sys, e: Event)
    requires Inv(y) && Ending(y) && Enabled(y, e) && !e.Connected? && !e.Started? && !e.Broken?
    requires Sinks(Me(y, PlaceOf(e)), Me(Apply(y, e), PlaceOf(e)))
    ensures Ending(Apply(y, e))
  {
    hide Half, OnError, OnMessage, OnAnswerWritten, OnTimer, DoCall, TimerElapses, Cut, Begun;
  }

  lemma ConnectedEnds(y: Sys, react: Reaction)
    requires Inv(y) && Ending(y) && Enabled(y, Connected(react))
    ensures Ending(Apply(y, Connected(react)))
  {
    assert y.c.state == WaitCEA;
  }

  lemma StartedEnds(y: Sys, react: Reaction)
    requires Inv(y) && Ending(y) && Enabled(y, Started(react))
    ensures Ending(Apply(y, Started(react)))
  {
    assert y.s.state == Closed;
  }

  /** A side in Closing always waits for something that exists: its request is unread, the other side is about to
      close, an answer is under way, or the cut connection will be reported to it. */
  lemma ClosingIsNeverStuck(y0: Sys, es: seq<Event>, side: Side)
    requires IsStart(y0)
    ensures var y := Run(y0, es); Me(y, side).state == Closing ==> Me(y, side).reading && NotStuck(y, side)
  {
    hide NotStuck;
    StartInv(y0);
    RunKeeps(y0, es);
    assert Half(Run(y0, es), side);
  }

  /** A run of internal and passive events each of which happens. */
  ghost predicate Happens(y: Sys, es: seq<Event>)
    decreases |es|
  {
    if es == [] then true
    else Enabled(y, es[0]) && (Internal(es[0]) || Passive(es[0])) && Happens(Step(y, es[0]), es[1..])
  }

  /** The internal events of a run. */
  ghost function Count(es: seq<Event>): nat {
    if es == [] then 0 else (if Internal(es[0]) then 1 else 0) + Count(es[1..])
  }

  /** From any state with an end begun, however callbacks and callers disconnect and close: no more internal events
      happen than the measure says, and where none can happen any more, both sides are Closed. Simultaneous
      disconnect requests are no exception. */
  lemma {:induction false} DisconnectEnds(y: Sys, es: seq<Event>)
    requires Inv(y) && Ending(y) && Happens(y, es)
    ensures Count(es) <= Measure(y)
    ensures var z := Run(y, es); Quiescent(z) ==> z.c.state == Closed && z.s.state == Closed
    decreases |es|
  {
    if es == [] {
      if Quiescent(y) {
        QuiescentIsClosed(y);
      }
    } else {
      hide Inv, Measure, Enabled, Ending, Quiescent, Internal, Passive, Step;
      if Internal(es[0]) {
        InternalDecreases(y, es[0]);
      } else {
        PassiveKeepsMeasure(y, es[0]);
      }
      EndingKept(y, es[0]);
      DisconnectEnds(Step(y, es[0]), es[1..]);
    }
  }

  /** The same for every reachable state: whatever happened before the end began, it is reached. */
  lemma EveryDisconnectEnds(y0: Sys, before: seq<Event>, es: seq<Event>)
    requires IsStart(y0) && Ending(Run(y0, before)) && Happens(Run(y0, before), es)
    ensures Inv(Run(y0, before)) && Count(es) <= Measure(Run(y0, before))
    ensures var z := Run(Run(y0, before), es); Quiescent(z) ==> z.c.state == Closed && z.s.state == Closed
  {
    hide Measure;
    StartInv(y0);
    RunKeeps(y0, before);
    DisconnectEnds(Run(y0, before), es);
  }
}
