/** The states one peer reports over its life, whatever happens to it and whatever its callbacks call. */
module PeerHistory {
  import opened Bytes
  import opened AvpCodec
  import opened Messages
  import opened PeerMachine
  import Header

  /** What can happen to a peer after its one `connect` or `start`. */
  datatype Input =
    | Connected(up: bool, react: Reaction)
    | Message(bytes: seq<byte>, react: Reaction, onApp: seq<Call>)
    | Error(react: Reaction)
    | Elapses
    | Timer
    | Written(react: Reaction)
    | UserCall(call: Call, react: Reaction)

  function Apply(p: Node, i: Input): Node {
    match i
    case Connected(up, react) => OnConnected(p, up, react)
    case Message(bytes, react, onApp) => OnBytes(p, bytes, react, onApp)
    case Error(react) => OnError(p, react)
    case Elapses => TimerElapses(p)
    case Timer => if p.due > 0 then OnTimer(p) else p
    case Written(react) => if p.dpaOut > 0 then OnAnswerWritten(p, react) else p
    case UserCall(call, react) => DoCall(p, call, react)
  }

  function ApplyAll(p: Node, inputs: seq<Input>): Node
    decreases |inputs|
  {
    if inputs == [] then p else ApplyAll(Apply(p, inputs[0]), inputs[1..])
  }

  /** Wait, Open, Closing, Closed: each at most once, in this order. */
  ghost predicate InOrder(states: seq<State>) {
    forall i, j :: 0 <= i < j < |states| ==> Rank(states[i]) > Rank(states[j])
  }

  /** The last report is the current state. */
  ghost predicate UpToDate(p: Node) { p.reported != [] && p.reported[|p.reported| - 1] == p.state }

  /** `q` has only added reports to `p`'s, and if they were in order they still are. */
  ghost predicate Continues(p: Node, q: Node) {
    && UpToDate(q)
    && p.reported <= q.reported
    && (InOrder(p.reported) ==> InOrder(q.reported))
  }

  lemma SetStateContinues(p: Node, newState: State, react: Reaction)
    requires UpToDate(p)
    requires p.state == newState || Rank(newState) < Rank(p.state)
    ensures Continues(p, SetState(p, newState, react))
    decreases if p.state == newState then 0 else Rank(newState) + 1, 0, 0
  {
    if p.state != newState {
      var q := p.(state := newState, reported := p.reported + [newState]);
      assert Continues(p, q);
      CallsContinue(q, react(newState), react);
    }
  }

  lemma CallsContinue(p: Node, calls: seq<Call>, react: Reaction)
    requires UpToDate(p)
    ensures Continues(p, RunCalls(p, calls, react))
    decreases Rank(p.state), 4, |calls|
  {
    if calls == [] {
      assert Continues(p, p);
    } else {
      hide Continues, UpToDate, DoCall;
      var q := DoCall(p, calls[0], react);
      CallContinues(p, calls[0], react);
      ContinuesUpToDate(p, q);
      CallsContinue(q, calls[1..], react);
      ContinuesTrans(p, q, RunCalls(p, calls, react));
    }
  }

  lemma ContinuesUpToDate(p: Node, q: Node)
    requires Continues(p, q)
    ensures UpToDate(q)
  {
  }

  lemma ContinuesTrans(p: Node, q: Node, r: Node)
    requires Continues(p, q) && Continues(q, r)
    ensures Continues(p, r)
  {
  }

  lemma CallContinues(p: Node, c: Call, react: Reaction)
    requires UpToDate(p)
    ensures Continues(p, DoCall(p, c, react))
    decreases Rank(p.state), 3, 0
  {
    hide StartDisconnect, ForceClose;
    match c
    case Disconnect(cause) => DisconnectContinues(p, cause, react);
    case Close => CloseContinues(p, react);
    case _ =>
  }

  lemma DisconnectContinues(p: Node, cause: uint32, react: Reaction)
    requires UpToDate(p)
    ensures Continues(p, StartDisconnect(p, cause, react))
    decreases Rank(p.state), 2, 0
  {
    hide SetState, ForceClose, InOrder;
    if p.state == Open {
      SetStateContinues(p, Closing, react);
    } else {
      CloseContinues(p, react);
    }
  }

  lemma CloseContinues(p: Node, react: Reaction)
    requires UpToDate(p)
    ensures Continues(p, ForceClose(p, react))
    decreases Rank(p.state), 1, 0
  {
    SetStateContinues(StopWatchdog(p).(sock := false), Closed, react);
  }

  /** Everything but a late transport completion keeps the reports in order. */
  lemma InputContinues(p: Node, i: Input)
    requires UpToDate(p)
    requires i.Connected? ==> p.state == WaitCEA
    ensures Continues(p, Apply(p, i))
  {
    hide OnMessage, OnConnected, OnError, OnAnswerWritten, OnTimer, TimerElapses, DoCall, Decode, Continues, UpToDate;
    match i
    case Connected(up, react) => ConnectedContinues(p, up, react);
    case Message(bytes, react, onApp) =>
      SameContinues(p, p);
      if |bytes| >= Header.SIZE {
        MessageContinues(p, Decode(bytes), react, onApp);
      }
    case Error(react) => ErrorContinues(p, react);
    case Elapses => TimerContinues(p);
    case Timer => TimerContinues(p);
    case Written(react) =>
      SameContinues(p, p);
      if p.dpaOut > 0 {
        WrittenContinues(p, react);
      }
    case UserCall(call, react) => CallContinues(p, call, react);
  }

  lemma SameContinues(p: Node, q: Node)
    requires UpToDate(p) && q.state == p.state && q.reported == p.reported
    ensures Continues(p, q)
  {
  }

  lemma ConnectedContinues(p: Node, up: bool, react: Reaction)
    requires UpToDate(p) && p.state == WaitCEA
    ensures Continues(p, OnConnected(p, up, react))
  {
    hide RunCalls;
    SameContinues(p, OnConnected(p, up, react));
  }

  lemma ErrorContinues(p: Node, react: Reaction)
    requires UpToDate(p)
    ensures Continues(p, OnError(p, react))
  {
    hide SetState;
    SetStateContinues(StopWatchdog(p), Closed, react);
  }

  lemma WrittenContinues(p: Node, react: Reaction)
    requires UpToDate(p) && p.dpaOut > 0
    ensures Continues(p, OnAnswerWritten(p, react))
  {
    hide ForceClose;
    CloseContinues(p.(dpaOut := p.dpaOut - 1), react);
  }

  lemma TimerContinues(p: Node)
    requires UpToDate(p)
    ensures Continues(p, TimerElapses(p)) && Continues(p, if p.due > 0 then OnTimer(p) else p)
  {
    SameContinues(p, TimerElapses(p));
    SameContinues(p, if p.due > 0 then OnTimer(p) else p);
  }

  lemma MessageContinues(p: Node, m: Msg, react: Reaction, onApp: seq<Call>)
    requires UpToDate(p)
    ensures Continues(p, OnMessage(p, m, react, onApp))
  {
    match m
    case App(bytes) =>
      if p.state == Open {
        CallsContinue(p.(delivered := p.delivered + [bytes]), onApp, react);
      }
    case Base(kind, hbh, e2e, host, realm, _) =>
      var p1 := p.(remoteHost := host, remoteRealm := realm);
      if kind == CER && p.state == WaitCER {
        SetStateContinues(Write(p1, Own(p.cfg, CEA, hbh, e2e, 0)), Open, react);
      } else if kind == CEA && p.state == WaitCEA {
        SetStateContinues(p1, Open, react);
      } else if kind == DPA && p.state == Closing {
        CloseContinues(p, react);
      }
  }

  /** A transport completion in another state than WaitCEA puts the reports out of order for good. */
  lemma StrayConnect(p: Node, up: bool, react: Reaction)
    requires UpToDate(p) && p.state != WaitCEA
    ensures UpToDate(OnConnected(p, up, react)) && !InOrder(OnConnected(p, up, react).reported)
  {
    hide RunCalls;
    var q := p.(sock := up, state := WaitCEA, reported := p.reported + [WaitCEA]);
    assert q.reported[|p.reported| - 1] == p.state && q.reported[|p.reported|] == WaitCEA;
    CallsContinue(q, react(WaitCEA), react);
    var r := SetState(p.(sock := up), WaitCEA, react);
    assert r == RunCalls(q, react(WaitCEA), react);
    assert r.reported[|p.reported| - 1] == p.state && r.reported[|p.reported|] == WaitCEA;
  }

  /** Reports are only ever added. */
  lemma ReportsGrow(p: Node, i: Input)
    requires UpToDate(p)
    ensures UpToDate(Apply(p, i)) && (!InOrder(p.reported) ==> !InOrder(Apply(p, i).reported))
  {
    if i.Connected? && p.state != WaitCEA {
      StrayConnect(p, i.up, i.react);
    } else {
      InputContinues(p, i);
    }
  }

  ghost predicate ConnectsWhileWaiting(p: Node, inputs: seq<Input>)
    decreases |inputs|
  {
    inputs == []
    || ((inputs[0].Connected? ==> p.state == WaitCEA) && ConnectsWhileWaiting(Apply(p, inputs[0]), inputs[1..]))
  }

  lemma {:induction false} DisorderStays(p: Node, inputs: seq<Input>)
    requires UpToDate(p) && !InOrder(p.reported)
    ensures !InOrder(ApplyAll(p, inputs).reported)
    decreases |inputs|
  {
    if inputs == [] {
    } else {
      hide Apply, InOrder, UpToDate;
      ReportsGrow(p, inputs[0]);
      DisorderStays(Apply(p, inputs[0]), inputs[1..]);
    }
  }

  /** The reported states are a subsequence of Wait, Open, Closing, Closed exactly when every transport completion
      finds the peer still in WaitCEA, the guard `connect`'s completion handler lacks. */
  lemma {:induction false} HistoryInOrderIff(p: Node, inputs: seq<Input>)
    requires UpToDate(p) && InOrder(p.reported)
    ensures InOrder(ApplyAll(p, inputs).reported) <==> ConnectsWhileWaiting(p, inputs)
    decreases |inputs|
  {
    if inputs == [] {
    } else {
      hide Apply, InOrder, UpToDate, Continues;
      var q := Apply(p, inputs[0]);
      if inputs[0].Connected? && p.state != WaitCEA {
        StrayConnect(p, inputs[0].up, inputs[0].react);
        assert q == OnConnected(p, inputs[0].up, inputs[0].react) by { ApplyConnected(p, inputs[0]); }
        DisorderStays(q, inputs[1..]);
      } else {
        InputContinues(p, inputs[0]);
        ContinuesInOrder(p, q);
        HistoryInOrderIff(q, inputs[1..]);
      }
    }
  }

  lemma ApplyConnected(p: Node, i: Input)
    requires i.Connected?
    ensures Apply(p, i) == OnConnected(p, i.up, i.react)
  {
  }

  lemma ContinuesInOrder(p: Node, q: Node)
    requires Continues(p, q) && InOrder(p.reported)
    ensures UpToDate(q) && InOrder(q.reported)
  {
  }

  lemma FirstReport(created: Node, client: bool, react: Reaction)
    requires created.state == Closed && created.reported == []
    ensures var p := if client then Connect(created, react) else Start(created, react);
            UpToDate(p) && InOrder(p.reported)
  {
    hide RunCalls, SetState;
    var first := if client then WaitCEA else WaitCER;
    var q := created.(state := first, reported := [first]);
    CallsContinue(q, react(first), react);
    EnterFirst(created, first, react);
  }

  lemma EnterFirst(created: Node, first: State, react: Reaction)
    requires created.state == Closed && created.reported == [] && first != Closed
    ensures SetState(created, first, react)
            == RunCalls(created.(state := first, reported := [first]), react(first), react)
  {
    assert created.reported + [first] == [first];
  }

  /** The life of a peer from construction on: one `connect` or one `start`, then anything. */
  lemma HistoryOfPeer(created: Node, client: bool, react: Reaction, inputs: seq<Input>)
    requires created.state == Closed && created.reported == []
    ensures var p := if client then Connect(created, react) else Start(created, react);
            InOrder(ApplyAll(p, inputs).reported) <==> ConnectsWhileWaiting(p, inputs)
  {
    hide ConnectsWhileWaiting, ApplyAll;
    var p := if client then Connect(created, react) else Start(created, react);
    FirstReport(created, client, react);
    HistoryInOrderIff(p, inputs);
  }

  /** Closed absorbs every later message, error, timer, completion or call, even with re-entrant callbacks: no
      state is reported any more, and nothing but the answer to a disconnect request is written. */
  lemma ClosedAbsorbs(p: Node, i: Input)
    requires p.state == Closed && !i.Connected?
    ensures var q := Apply(p, i);
            && q.state == Closed && q.reported == p.reported && q.delivered == p.delivered
            && (q.wrote == p.wrote
                || (p.sock && i.Message? && |i.bytes| >= Header.SIZE && KindOf(i.bytes) == Some(DPR)
                    && q.wrote == p.wrote + [Own(p.cfg, DPA, Header.HopByHop(i.bytes), Header.EndToEnd(i.bytes), 0)]))
  {
    hide KindOf, CauseIn, StringAt, Header.HopByHop, Header.EndToEnd;
    match i
    case Error(react) => OnErrorForm(p, react);
    case Written(react) =>
      if p.dpaOut > 0 {
        ForceCloseForm(p.(dpaOut := p.dpaOut - 1), react);
      }
    case UserCall(call, react) =>
      if call.Disconnect? || call.Close? {
        ForceCloseForm(p, react);
        if call.Disconnect? {
          assert StartDisconnect(p, call.cause, react) == ForceClose(p, react);
        }
      }
    case _ =>
  }

  // ----- the watchdog of a client -----

  /** A client that is Open, with a watchdog configured, has the timer running or its handler queued. */
  predicate Watched(p: Node) {
    p.state != WaitCER && (p.state == Open && p.cfg.watchdogIntervalSec > 0 ==> p.armed || p.due > 0)
  }

  /** A change that leaves the timer alone unless the peer leaves Open. */
  predicate TimerKept(p: Node, q: Node) {
    && (q.state == WaitCER ==> p.state == WaitCER)
    && (q.state == Open ==> p.state == Open && q.cfg == p.cfg && q.armed == p.armed && q.due == p.due)
  }

  lemma CallKeepsTimer(p: Node, c: Call, react: Reaction)
    ensures TimerKept(p, DoCall(p, c, react))
  {
    hide StartDisconnect, ForceClose, Header.HopByHop, Header.EndToEnd, Header.WithU32;
    if c.Disconnect? {
      DisconnectLeavesOpen(p, c.cause, react);
    }
  }

  /** Calls that leave a peer Open leave its timer alone. */
  lemma {:induction false} CallsKeepTimer(p: Node, calls: seq<Call>, react: Reaction)
    ensures TimerKept(p, RunCalls(p, calls, react))
    decreases |calls|
  {
    if calls == [] {
    } else {
      hide DoCall;
      CallKeepsTimer(p, calls[0], react);
      CallsKeepTimer(DoCall(p, calls[0], react), calls[1..], react);
    }
  }

  lemma DisconnectLeavesOpen(p: Node, cause: uint32, react: Reaction)
    ensures Rank(StartDisconnect(p, cause, react).state) <= Rank(Closing)
  {
    hide SetState, ForceClose;
  }

  lemma InputKeepsWatched(p: Node, i: Input)
    requires Watched(p)
    ensures Watched(Apply(p, i))
  {
    hide RunCalls, ForceClose, DoCall, KindOf, CauseIn, StringAt, Header.HopByHop, Header.EndToEnd;
    match i
    case Connected(up, react) =>
      CallsKeepTimer(p.(sock := up, state := WaitCEA, reported := p.reported + [WaitCEA]), react(WaitCEA), react);
    case Message(bytes, react, onApp) =>
      CallsKeepTimer(p.(delivered := p.delivered + [bytes]), onApp, react);
    case UserCall(call, react) =>
      CallKeepsTimer(p, call, react);
    case _ =>
  }

  /** The watchdog never dies on a client that stays Open: whatever happens, it goes on until the peer leaves Open. */
  lemma {:induction false} WatchdogStaysAlive(p: Node, inputs: seq<Input>)
    requires Watched(p)
    ensures Watched(ApplyAll(p, inputs))
    decreases |inputs|
  {
    if inputs == [] {
    } else {
      hide Watched, Apply;
      InputKeepsWatched(p, inputs[0]);
      WatchdogStaysAlive(Apply(p, inputs[0]), inputs[1..]);
    }
  }

  /** From the client's `connect` on. */
  lemma ClientIsWatched(created: Node, react: Reaction, inputs: seq<Input>)
    requires created.state == Closed
    ensures Watched(ApplyAll(Connect(created, react), inputs))
  {
    hide ApplyAll, RunCalls;
    CallsKeepTimer(created.(state := WaitCEA, reported := created.reported + [WaitCEA]), react(WaitCEA), react);
    WatchdogStaysAlive(Connect(created, react), inputs);
  }

  // ----- the socket -----

  lemma CallKeepsWired(p: Node, c: Call, react: Reaction)
    requires Wired(p)
    ensures Wired(DoCall(p, c, react))
  {
    hide StartDisconnect, ForceClose, Header.HopByHop, Header.EndToEnd, Header.WithU32;
    ForceCloseForm(p, react);
    if c.Disconnect? {
      if p.state == Open {
        DisconnectForm(p, c.cause, react);
      } else {
        CallOutsideOpen(p, c, react);
      }
    }
  }

  lemma {:induction false} CallsKeepWired(p: Node, calls: seq<Call>, react: Reaction)
    requires Wired(p)
    ensures Wired(RunCalls(p, calls, react))
    decreases |calls|
  {
    if calls == [] {
    } else {
      hide DoCall;
      CallKeepsWired(p, calls[0], react);
      CallsKeepWired(DoCall(p, calls[0], react), calls[1..], react);
    }
  }

  /** Only a close closes the socket, and it leaves the peer Closed. */
  lemma InputKeepsWired(p: Node, i: Input)
    requires Wired(p) && !i.Connected?
    ensures Wired(Apply(p, i))
  {
    hide RunCalls, ForceClose, DoCall, KindOf, CauseIn, StringAt, Header.HopByHop, Header.EndToEnd;
    match i
    case Message(bytes, react, onApp) =>
      CallsKeepWired(p.(delivered := p.delivered + [bytes]), onApp, react);
      if |bytes| >= Header.SIZE && Decode(bytes).Base? {
        BaseKeepsWired(p, Decode(bytes), react);
      }
    case Error(react) => OnErrorForm(p, react);
    case Written(react) =>
      if p.dpaOut > 0 {
        ForceCloseForm(p.(dpaOut := p.dpaOut - 1), react);
      }
    case UserCall(call, react) => CallKeepsWired(p, call, react);
    case _ =>
  }

  lemma BaseKeepsWired(p: Node, m: Msg, react: Reaction)
    requires Wired(p) && m.Base?
    ensures Wired(OnMessage(p, m, react, []))
  {
    hide RunCalls, ForceClose;
    ForceCloseForm(p, react);
    var p1 := p.(remoteHost := m.host, remoteRealm := m.realm, state := Open, reported := p.reported + [Open]);
    if p.sock {
      CallsKeepWired(Write(p1, Own(p.cfg, CEA, m.hbh, m.e2e, 0)), react(Open), react);
      CallsKeepWired(p1, react(Open), react);
    }
  }
}
