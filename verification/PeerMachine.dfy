/** The peer state machine (RFC 6733, sections 5.3 to 5.6) as functions on a peer's state. They are the
    specification of class `Peer` and the steps of the two-party system.

    `setState` calls the application re-entrantly, and the application may call back into the peer. A `Reaction`
    lists, for each state, the calls the state callback makes when that state is reported. Every event of a run has
    its own reaction, so the application may behave differently each time. */
module PeerMachine {
  import opened Bytes
  import opened Messages
  import Header
  import Identifiers

  datatype State = Closed | WaitCEA | WaitCER | Open | Closing

  /** What an application may call on a peer. */
  datatype Call =
    | Send(msg: seq<byte>)
    | Disconnect(cause: uint32)
    | Close
    | DrawHopByHop
    | DrawEndToEnd

  type Reaction = State -> seq<Call>

  /** A peer and its connection. `wrote` is everything handed to the open socket, in order; `delivered` the
      application messages given to the request callback; `reported` the states given to the state callback.
      `armed` and `due` are the watchdog timer: running, and expired with the handler still queued.
      `dpaOut` counts the disconnect answers whose write has not completed. */
  datatype Node = Node(
    cfg: Config,
    state: State,
    remoteHost: seq<byte>,
    remoteRealm: seq<byte>,
    hopByHop: uint32,
    endToEnd: uint32,
    sock: bool,
    reading: bool,
    armed: bool,
    due: nat,
    dpaOut: nat,
    wrote: seq<Msg>,
    delivered: seq<seq<byte>>,
    reported: seq<State>)

  /** A peer that has just been constructed. */
  function NewNode(cfg: Config, hopByHop: uint32, endToEnd: uint32): Node {
    Node(cfg, Closed, [], [], hopByHop, endToEnd, true, false, false, 0, 0, [], [], [])
  }

  /** States are reported in the order of falling rank. */
  function Rank(s: State): nat {
    match s
    case Closed => 0
    case Closing => 1
    case Open => 2
    case WaitCEA | WaitCER => 3
  }

  /** A peer that is not Closed has an open socket. */
  predicate Wired(p: Node) { p.state != Closed ==> p.sock }

  // ----- elementary steps -----

  /** A write on a closed socket fails; nothing leaves. */
  function Write(p: Node, m: Msg): Node { if p.sock then p.(wrote := p.wrote + [m]) else p }

  function Advance(p: Node): Node {
    p.(hopByHop := Identifiers.Next(p.hopByHop), endToEnd := Identifiers.Next(p.endToEnd))
  }

  function StopWatchdog(p: Node): Node { p.(armed := false) }

  function StartWatchdog(p: Node): Node { if p.cfg.watchdogIntervalSec == 0 then p else p.(armed := true) }

  predicate Accepts(p: Node, msg: seq<byte>) { p.state == Open && Header.SIZE <= |msg| }

  /** Identifiers the caller left at zero are drawn here. */
  function SendMessage(p: Node, msg: seq<byte>): Node {
    if !Accepts(p, msg) then p
    else
      var drawH := Header.HopByHop(msg) == 0;
      var msg1 := if drawH then Header.WithHopByHop(msg, p.hopByHop) else msg;
      var p1 := if drawH then p.(hopByHop := Identifiers.Next(p.hopByHop)) else p;
      var drawE := Header.EndToEnd(msg1) == 0;
      var msg2 := if drawE then Header.WithEndToEnd(msg1, p1.endToEnd) else msg1;
      var p2 := if drawE then p1.(endToEnd := Identifiers.Next(p1.endToEnd)) else p1;
      Write(p2, App(msg2))
  }

  // ----- state changes and the calls made from their callbacks -----

  function SetState(p: Node, newState: State, react: Reaction): (r: Node)
    ensures Rank(r.state) <= Rank(newState)
    decreases if p.state == newState then 0 else Rank(newState) + 1, 0, 0
  {
    if p.state == newState then p
    else RunCalls(p.(state := newState, reported := p.reported + [newState]), react(newState), react)
  }

  function RunCalls(p: Node, calls: seq<Call>, react: Reaction): (r: Node)
    ensures Rank(r.state) <= Rank(p.state)
    decreases Rank(p.state), 4, |calls|
  {
    if calls == [] then p else RunCalls(DoCall(p, calls[0], react), calls[1..], react)
  }

  function DoCall(p: Node, c: Call, react: Reaction): (r: Node)
    ensures Rank(r.state) <= Rank(p.state)
    decreases Rank(p.state), 3, 0
  {
    match c
    case Send(msg) => SendMessage(p, msg)
    case Disconnect(cause) => StartDisconnect(p, cause, react)
    case Close => ForceClose(p, react)
    case DrawHopByHop => p.(hopByHop := Identifiers.Next(p.hopByHop))
    case DrawEndToEnd => p.(endToEnd := Identifiers.Next(p.endToEnd))
  }

  /** The request is written after the state callback has run, so the callback may have closed the socket. */
  function StartDisconnect(p: Node, cause: uint32, react: Reaction): (r: Node)
    ensures Rank(r.state) <= Rank(p.state)
    decreases Rank(p.state), 2, 0
  {
    if p.state != Open then ForceClose(p, react)
    else
      var q := StopWatchdog(SetState(p, Closing, react));
      Write(Advance(q), Own(q.cfg, DPR, q.hopByHop, q.endToEnd, cause))
  }

  function ForceClose(p: Node, react: Reaction): (r: Node)
    ensures r.state == Closed
    decreases Rank(p.state), 1, 0
  {
    SetState(StopWatchdog(p).(sock := false), Closed, react)
  }

  // ----- handlers -----

  function Connect(p: Node, react: Reaction): Node { SetState(p, WaitCEA, react) }

  /** The transport completion: the client writes its CER and starts reading. There is no guard on the state, and
      a close during name resolution cancels nothing: `up` tells whether the socket is open now. */
  function OnConnected(p: Node, up: bool, react: Reaction): Node {
    var q := SetState(p.(sock := up), WaitCEA, react);
    Write(Advance(q), Own(q.cfg, CER, q.hopByHop, q.endToEnd, 0)).(reading := true)
  }

  function Start(p: Node, react: Reaction): Node { SetState(p, WaitCER, react).(reading := true) }

  function OnError(p: Node, react: Reaction): Node { SetState(StopWatchdog(p), Closed, react) }

  /** The answer is written before the state is reported, so nothing a callback sends can overtake it. */
  function HandleCER(p: Node, m: Msg, react: Reaction): Node
    requires m.Base?
  {
    if p.state != WaitCER then p
    else
      var p1 := p.(remoteHost := m.host, remoteRealm := m.realm);
      SetState(Write(p1, Own(p.cfg, CEA, m.hbh, m.e2e, 0)), Open, react)
  }

  function HandleCEA(p: Node, m: Msg, react: Reaction): Node
    requires m.Base?
  {
    if p.state != WaitCEA then p
    else StartWatchdog(SetState(p.(remoteHost := m.host, remoteRealm := m.realm), Open, react))
  }

  function HandleDWR(p: Node, m: Msg): Node
    requires m.Base?
  {
    if p.state != Open then p else Write(p, Own(p.cfg, DWA, m.hbh, m.e2e, 0))
  }

  /** In any state. */
  function HandleDPR(p: Node, m: Msg): Node
    requires m.Base?
  {
    if p.sock then Write(p, Own(p.cfg, DPA, m.hbh, m.e2e, 0)).(dpaOut := p.dpaOut + 1) else p
  }

  function HandleDPA(p: Node, react: Reaction): Node { if p.state != Closing then p else ForceClose(p, react) }

  function OnMessage(p: Node, m: Msg, react: Reaction, onApp: seq<Call>): Node {
    match m
    case Base(kind, _, _, _, _, _) =>
      (match kind
       case CER => HandleCER(p, m, react)
       case CEA => HandleCEA(p, m, react)
       case DWR => HandleDWR(p, m)
       case DWA => p
       case DPR => HandleDPR(p, m)
       case DPA => HandleDPA(p, react))
    case App(bytes) =>
      if p.state == Open then RunCalls(p.(delivered := p.delivered + [bytes]), onApp, react) else p
  }

  /** A received message; a short one is ignored. */
  function OnBytes(p: Node, bytes: seq<byte>, react: Reaction, onApp: seq<Call>): Node {
    if |bytes| < Header.SIZE then p else OnMessage(p, Decode(bytes), react, onApp)
  }

  /** The write of a disconnect answer completes. */
  function OnAnswerWritten(p: Node, react: Reaction): Node
    requires p.dpaOut > 0
  {
    ForceClose(p.(dpaOut := p.dpaOut - 1), react)
  }

  function TimerElapses(p: Node): Node { if p.armed then p.(armed := false, due := p.due + 1) else p }

  function OnTimer(p: Node): Node
    requires p.due > 0
  {
    var q := p.(due := p.due - 1);
    if q.state != Open then q
    else StartWatchdog(Write(Advance(q), Own(q.cfg, DWR, q.hopByHop, q.endToEnd, 0)))
  }

  // ----- closed forms -----

  /** A call that cannot make a peer leave its state. */
  predicate Mild(c: Call) { !c.Disconnect? && !c.Close? }

  predicate AllMild(calls: seq<Call>) { forall c :: c in calls ==> Mild(c) }

  /** `q` is `p` up to the identifiers drawn. */
  predicate SameButIds(p: Node, q: Node) { q == p.(hopByHop := q.hopByHop, endToEnd := q.endToEnd) }

  /** The state reports of a peer that becomes closed. */
  function ReportClosed(p: Node): seq<State> { if p.state == Closed then p.reported else p.reported + [Closed] }

  function ClosedForm(p: Node, sock: bool): Node {
    p.(state := Closed, sock := sock, armed := false, reported := ReportClosed(p))
  }

  lemma CallOutsideOpen(p: Node, c: Call, react: Reaction)
    requires p.state != Open
    ensures SameButIds(if Mild(c) then p else ClosedForm(p, false), DoCall(p, c, react))
    decreases Rank(p.state), 1
  {
    hide RunCalls;
    if !Mild(c) {
      var q := StopWatchdog(p).(sock := false);
      if p.state != Closed {
        CallsOutsideOpen(q.(state := Closed, reported := p.reported + [Closed]), react(Closed), react);
      }
      assert SameButIds(ClosedForm(p, false), ForceClose(p, react));
    }
  }

  /** Outside Open, whatever is called draws identifiers or closes, and writes nothing. */
  lemma {:induction false} CallsOutsideOpen(p: Node, calls: seq<Call>, react: Reaction)
    requires p.state != Open
    ensures SameButIds(if AllMild(calls) then p else ClosedForm(p, false), RunCalls(p, calls, react))
    decreases Rank(p.state), 2, |calls|
  {
    if calls == [] {
    } else {
      hide DoCall;
      assert calls == [calls[0]] + calls[1..];
      CallOutsideOpen(p, calls[0], react);
      CallsOutsideOpen(DoCall(p, calls[0], react), calls[1..], react);
    }
  }

  lemma ForceCloseForm(p: Node, react: Reaction)
    ensures SameButIds(ClosedForm(p, false), ForceClose(p, react))
  {
    var q := StopWatchdog(p).(sock := false);
    if p.state != Closed {
      CallsOutsideOpen(q.(state := Closed, reported := p.reported + [Closed]), react(Closed), react);
    }
  }

  lemma OnErrorForm(p: Node, react: Reaction)
    ensures SameButIds(ClosedForm(p, p.sock && (p.state == Closed || AllMild(react(Closed)))), OnError(p, react))
  {
    var q := StopWatchdog(p);
    if p.state != Closed {
      CallsOutsideOpen(q.(state := Closed, reported := p.reported + [Closed]), react(Closed), react);
    }
  }

  /** A graceful disconnect from Open either leaves the peer Closing with the request written, or, when its
      callback closes, Closed without it. */
  lemma DisconnectForm(p: Node, cause: uint32, react: Reaction)
    requires p.state == Open
    ensures var closing := p.(state := Closing, armed := false, reported := p.reported + [Closing]);
            var r := StartDisconnect(p, cause, react);
            if AllMild(react(Closing))
            then exists h, e :: SameButIds(Write(closing, Own(p.cfg, DPR, h, e, cause)), r)
            else SameButIds(ClosedForm(closing, false), r)
  {
    var closing := p.(state := Closing, reported := p.reported + [Closing]);
    CallsOutsideOpen(closing, react(Closing), react);
    var q := StopWatchdog(SetState(p, Closing, react));
    if AllMild(react(Closing)) {
      assert SameButIds(Write(closing.(armed := false), Own(p.cfg, DPR, q.hopByHop, q.endToEnd, cause)),
                        StartDisconnect(p, cause, react));
    }
  }
}
