/** What each step of a peer writes, learns and leaves alone. */
module PeerSteps {
  import opened Bytes
  import opened Messages
  import opened PeerMachine
  import opened Correlation
  import Header
  import Identifiers

  /** One message was written, of this kind, under these identifiers, with the own origin. */
  predicate Adds(p: Node, q: Node, kind: Kind, hbh: uint32, e2e: uint32) {
    && |q.wrote| == |p.wrote| + 1 && p.wrote <= q.wrote
    && q.wrote[|p.wrote|].Base? && q.wrote[|p.wrote|].kind == kind
    && q.wrote[|p.wrote|].hbh == hbh && q.wrote[|p.wrote|].e2e == e2e
    && q.wrote[|p.wrote|].host == p.cfg.originHost && q.wrote[|p.wrote|].realm == p.cfg.originRealm
  }

  /** Both counters have given one identifier. */
  predicate DrewBoth(p: Node, q: Node) {
    && q.hopByHop == (p.hopByHop + 1) % 0x1_0000_0000
    && q.endToEnd == (p.endToEnd + 1) % 0x1_0000_0000
  }

  // ----- requests of the other side -----

  /** A disconnect request is answered in every state, as long as there is a socket, and the answer's completion is
      awaited; nothing else changes. */
  lemma DisconnectRequestIsAnswered(p: Node, m: Msg, react: Reaction, onApp: seq<Call>)
    requires m.Base? && m.kind == DPR
    ensures var q := OnMessage(p, m, react, onApp);
            if p.sock then
              Adds(p, q, DPA, m.hbh, m.e2e) && q == p.(wrote := q.wrote, dpaOut := p.dpaOut + 1)
            else q == p
  {
  }

  /** A watchdog request is answered by an Open peer, and by no other; nothing else changes. */
  lemma WatchdogRequestIsAnswered(p: Node, m: Msg, react: Reaction, onApp: seq<Call>)
    requires m.Base? && m.kind == DWR
    ensures var q := OnMessage(p, m, react, onApp);
            if p.state == Open && p.sock then Adds(p, q, DWA, m.hbh, m.e2e) && q == p.(wrote := q.wrote)
            else q == p
  {
  }

  /** A waiting server answers the capability request with its identifiers, knows the client, and only then runs the
      callback for Open. */
  lemma CapabilityRequestIsAnswered(p: Node, m: Msg, react: Reaction, onApp: seq<Call>)
    requires m.Base? && m.kind == CER && p.state == WaitCER && p.sock
    ensures var cea := Base(CEA, m.hbh, m.e2e, p.cfg.originHost, p.cfg.originRealm, 0);
            var p1 := p.(remoteHost := m.host, remoteRealm := m.realm, wrote := p.wrote + [cea], state := Open,
                         reported := p.reported + [Open]);
            OnMessage(p, m, react, onApp) == RunCalls(p1, react(Open), react)
  {
    hide RunCalls;
  }

  /** A waiting client knows the server, runs the callback for Open, and then starts its watchdog. */
  lemma CapabilityAnswerOpens(p: Node, m: Msg, react: Reaction, onApp: seq<Call>)
    requires m.Base? && m.kind == CEA && p.state == WaitCEA
    ensures var p1 := p.(remoteHost := m.host, remoteRealm := m.realm, state := Open, reported := p.reported + [Open]);
            var q := RunCalls(p1, react(Open), react);
            OnMessage(p, m, react, onApp) == q.(armed := q.armed || q.cfg.watchdogIntervalSec != 0)
  {
    hide RunCalls;
  }

  /** The awaited disconnect answer closes the peer and its socket; what the callback for Closed does can only draw
      identifiers. */
  lemma DisconnectAnswerCloses(p: Node, m: Msg, react: Reaction, onApp: seq<Call>)
    requires m.Base? && m.kind == DPA && p.state == Closing
    ensures var q := OnMessage(p, m, react, onApp);
            q == p.(state := Closed, sock := false, armed := false, reported := p.reported + [Closed],
                    hopByHop := q.hopByHop, endToEnd := q.endToEnd)
  {
    ForceCloseForm(p, react);
  }

  /** When the write of a disconnect answer completes, the peer closes, in whatever state it is. */
  lemma AnswerCompletionCloses(p: Node, react: Reaction)
    requires p.dpaOut > 0
    ensures var q := OnAnswerWritten(p, react);
            q == p.(state := Closed, sock := false, armed := false, dpaOut := p.dpaOut - 1,
                    reported := if p.state == Closed then p.reported else p.reported + [Closed],
                    hopByHop := q.hopByHop, endToEnd := q.endToEnd)
  {
    ForceCloseForm(p.(dpaOut := p.dpaOut - 1), react);
  }

  /** Messages out of place change nothing: no state, no answer, no callback. */
  lemma OutOfPlaceIsIgnored(p: Node, m: Msg, react: Reaction, onApp: seq<Call>)
    requires match m
             case App(_) => p.state != Open
             case Base(kind, _, _, _, _, _) =>
               match kind
               case CER => p.state != WaitCER
               case CEA => p.state != WaitCEA
               case DWR => p.state != Open
               case DWA => true
               case DPR => !p.sock
               case DPA => p.state != Closing
    ensures OnMessage(p, m, react, onApp) == p
  {
  }

  /** An Open peer hands an application message over once, and then the callback may call back. */
  lemma ApplicationMessageIsDelivered(p: Node, bytes: seq<byte>, react: Reaction, onApp: seq<Call>)
    requires p.state == Open
    ensures OnMessage(p, App(bytes), react, onApp) == RunCalls(p.(delivered := p.delivered + [bytes]), onApp, react)
  {
  }

  // ----- requests of the own side -----

  /** The watchdog handler of an Open peer sends a request under new identifiers and restarts the timer; of any other
      peer it does nothing. */
  lemma WatchdogSends(p: Node)
    requires p.due > 0
    ensures var q := OnTimer(p);
            if p.state == Open then
              && (p.sock ==> Adds(p, q, DWR, p.hopByHop, p.endToEnd)) && (!p.sock ==> q.wrote == p.wrote)
              && DrewBoth(p, q)
              && q == p.(wrote := q.wrote, hopByHop := q.hopByHop, endToEnd := q.endToEnd, due := p.due - 1,
                         armed := p.armed || p.cfg.watchdogIntervalSec != 0)
            else q == p.(due := p.due - 1)
  {
  }

  /** An expiring timer is neither lost nor doubled. */
  lemma ExpiryConserves(p: Node)
    ensures var q := TimerElapses(p);
            && (if q.armed then 1 else 0) + q.due == (if p.armed then 1 else 0) + p.due
            && !q.armed && q == p.(armed := q.armed, due := q.due)
  {
  }

  /** The transport completion a client waits for: it sends its capability request under new identifiers and reads. */
  lemma ConnectionSends(p: Node, up: bool, react: Reaction)
    requires p.state == WaitCEA
    ensures var q := OnConnected(p, up, react);
            && (up ==> Adds(p, q, CER, p.hopByHop, p.endToEnd)) && (!up ==> q.wrote == p.wrote)
            && DrewBoth(p, q) && q.reading
            && q == p.(wrote := q.wrote, hopByHop := q.hopByHop, endToEnd := q.endToEnd, sock := up, reading := true)
  {
    assert SetState(p.(sock := up), WaitCEA, react) == p.(sock := up);
  }

  /** A graceful disconnect whose callback does not close: one request with the cause, under the identifiers drawn
      last, which are the first ones if the callback draws none. */
  lemma DisconnectSends(p: Node, cause: uint32, react: Reaction)
    requires p.state == Open && p.sock && AllMild(react(Closing))
    ensures var q := DoCall(p, Disconnect(cause), react);
            && q.state == Closing && !q.armed && q.sock
            && |q.wrote| == |p.wrote| + 1
            && var m := q.wrote[|p.wrote|];
               && m.Base? && m.cause == cause
               && Adds(p, q, DPR, m.hbh, m.e2e)
               && q.hopByHop == (m.hbh + 1) % 0x1_0000_0000 && q.endToEnd == (m.e2e + 1) % 0x1_0000_0000
               && (react(Closing) == [] ==> m.hbh == p.hopByHop && m.e2e == p.endToEnd)
  {
    hide RunCalls;
    var closing := p.(state := Closing, reported := p.reported + [Closing]);
    CallsOutsideOpen(closing, react(Closing), react);
    NoCalls(closing, react);
    var after := RunCalls(closing, react(Closing), react);
    assert SetState(p, Closing, react) == after;
    assert StartDisconnect(p, cause, react)
        == Write(Advance(StopWatchdog(after)), Own(p.cfg, DPR, after.hopByHop, after.endToEnd, cause));
    assert DoCall(p, Disconnect(cause), react) == StartDisconnect(p, cause, react);
  }

  lemma NoCalls(p: Node, react: Reaction)
    ensures RunCalls(p, [], react) == p
  {
  }

  // ----- calls -----

  /** A send of an Open peer with a socket appends one message. An identifier given is on the wire; for a zero the
      counter's value is, and the counter has moved on. No other byte differs, and nothing else changes. Any other
      peer, and a message shorter than a header, are refused without effect. */
  lemma SendFacts(p: Node, msg: seq<byte>)
    ensures !(p.state == Open && 20 <= |msg|) ==> SendMessage(p, msg) == p
    ensures p.state == Open && 20 <= |msg| ==>
              var q := SendMessage(p, msg);
              && q == p.(wrote := q.wrote, hopByHop := q.hopByHop, endToEnd := q.endToEnd)
              && q.hopByHop == (if Header.HopByHop(msg) == 0 then Identifiers.Next(p.hopByHop) else p.hopByHop)
              && q.endToEnd == (if Header.EndToEnd(msg) == 0 then Identifiers.Next(p.endToEnd) else p.endToEnd)
              && (!p.sock ==> q.wrote == p.wrote)
              && (p.sock ==>
                    && |q.wrote| == |p.wrote| + 1 && p.wrote <= q.wrote
                    && q.wrote[|p.wrote|].App?
                    && IsFilled(q.wrote[|p.wrote|].bytes, msg, p.hopByHop, p.endToEnd))
  {
    hide Header.WithU32, Header.HopByHop, Header.EndToEnd;
    if p.state == Open && 20 <= |msg| {
      FilledHop(msg, p.hopByHop);
      var msg1: Header.Message := if Header.HopByHop(msg) == 0 then Header.WithHopByHop(msg, p.hopByHop) else msg;
      FilledEnd(msg1, p.endToEnd);
    }
  }

  /** `wire` is `msg` with its zero identifiers replaced. */
  predicate IsFilled(wire: seq<byte>, msg: Header.Message, hbh: uint32, e2e: uint32) {
    && SameOutsideIds(wire, msg)
    && Header.HopByHop(wire) == (if Header.HopByHop(msg) == 0 then hbh else Header.HopByHop(msg))
    && Header.EndToEnd(wire) == (if Header.EndToEnd(msg) == 0 then e2e else Header.EndToEnd(msg))
  }

  /** Calls are served one after the other, each for what it is. */
  lemma CallsAreServed(p: Node, c: Call, rest: seq<Call>, react: Reaction)
    ensures RunCalls(p, [], react) == p
    ensures RunCalls(p, [c] + rest, react) == RunCalls(DoCall(p, c, react), rest, react)
    ensures c.Send? ==> DoCall(p, c, react) == SendMessage(p, c.msg)
    ensures c.DrawHopByHop? ==> DoCall(p, c, react) == p.(hopByHop := (p.hopByHop + 1) % 0x1_0000_0000)
    ensures c.DrawEndToEnd? ==> DoCall(p, c, react) == p.(endToEnd := (p.endToEnd + 1) % 0x1_0000_0000)
    ensures c.Close? ==> DoCall(p, c, react).state == Closed && !DoCall(p, c, react).sock
    ensures c.Disconnect? && p.state != Open ==> DoCall(p, c, react) == DoCall(p, Close, react)
  {
    hide SendMessage, SetState;
    assert ([c] + rest)[1..] == rest;
    ForceCloseForm(p, react);
  }

  /** A new state is reported once, after the peer is in it, and the callback's calls are served then and there. */
  lemma ReportRunsCallback(p: Node, s: State, react: Reaction)
    ensures p.state == s ==> SetState(p, s, react) == p
    ensures p.state != s ==>
              SetState(p, s, react) == RunCalls(p.(state := s, reported := p.reported + [s]), react(s), react)
  {
    hide RunCalls;
  }

  // ----- the start -----

  /** `connect` leaves the peer in WaitCEA, with nothing written and one report, exactly when the callback for that
      state neither disconnects nor closes. */
  lemma ConnectWaitsIff(cfg: Config, hopByHop: uint32, endToEnd: uint32, react: Reaction)
    ensures var p := NewNode(cfg, hopByHop, endToEnd);
            var q := Connect(p, react);
            && (q.state == WaitCEA <==> forall c :: c in react(WaitCEA) ==> !c.Disconnect? && !c.Close?)
            && (q.state == WaitCEA ==>
                  q == p.(state := WaitCEA, reported := [WaitCEA], hopByHop := q.hopByHop, endToEnd := q.endToEnd))
            && (q.state != WaitCEA ==> q.state == Closed && !q.sock && q.reported == [WaitCEA, Closed] && q.wrote == [])
  {
    hide RunCalls;
    var p := NewNode(cfg, hopByHop, endToEnd).(state := WaitCEA, reported := [WaitCEA]);
    assert NewNode(cfg, hopByHop, endToEnd).reported + [WaitCEA] == [WaitCEA];
    CallsOutsideOpen(p, react(WaitCEA), react);
  }

  /** The same for `start` and WaitCER; a started peer reads. */
  lemma StartWaitsIff(cfg: Config, hopByHop: uint32, endToEnd: uint32, react: Reaction)
    ensures var p := NewNode(cfg, hopByHop, endToEnd);
            var q := Start(p, react);
            && q.reading && q.wrote == []
            && (q.state == WaitCER <==> forall c :: c in react(WaitCER) ==> !c.Disconnect? && !c.Close?)
            && (q.state != WaitCER ==> q.state == Closed && !q.sock)
  {
    hide RunCalls;
    var p := NewNode(cfg, hopByHop, endToEnd).(state := WaitCER, reported := [WaitCER]);
    assert NewNode(cfg, hopByHop, endToEnd).reported + [WaitCER] == [WaitCER];
    CallsOutsideOpen(p, react(WaitCER), react);
  }
}
