/** Class `Peer`: the handlers on bytes, proved against the functions of `PeerMachine`. */
module PeerObject {
  import opened Bytes
  import opened AvpCodec
  import opened Messages
  import opened PeerMachine
  import Header
  import Builders
  import Identifiers

  class Peer {
    const cfg: Config
    /** The process-wide end-to-end counter, shared by all peers. */
    const nodeEndToEnd: Identifiers.Counter

    var state: State
    var remoteOriginHost: seq<byte>
    var remoteOriginRealm: seq<byte>
    var hopByHop: uint32
    var socketOpen: bool
    var reading: bool
    var watchdogArmed: bool
    var watchdogDue: nat
    var answersOut: nat
    /** The byte messages written so far, and (ghost) what they stand for. */
    var out: seq<seq<byte>>
    ghost var sent: seq<Msg>
    var delivered: seq<seq<byte>>
    var reported: seq<State>

    ghost predicate Valid()
      reads this
    {
      |out| == |sent| && forall i :: 0 <= i < |out| ==> out[i] == Encode(cfg, sent[i])
    }

    ghost function Value(): Node
      reads this, nodeEndToEnd
    {
      Node(cfg, state, remoteOriginHost, remoteOriginRealm, hopByHop, nodeEndToEnd.next, socketOpen, reading,
           watchdogArmed, watchdogDue, answersOut, sent, delivered, reported)
    }

    constructor (cfg: Config, nodeEndToEnd: Identifiers.Counter, seed: uint32)
      ensures Valid() && this.cfg == cfg && this.nodeEndToEnd == nodeEndToEnd
      ensures Value() == NewNode(cfg, seed, nodeEndToEnd.next)
    {
      this.cfg, this.nodeEndToEnd := cfg, nodeEndToEnd;
      state, remoteOriginHost, remoteOriginRealm, hopByHop := State.Closed, [], [], seed;
      socketOpen, reading, watchdogArmed, watchdogDue, answersOut := true, false, false, 0, 0;
      out, sent, delivered, reported := [], [], [], [];
    }

    // ----- identifiers and writes -----

    method NextHopByHop() returns (n: uint32)
      modifies this`hopByHop
      ensures n == old(hopByHop) && hopByHop == Identifiers.Next(old(hopByHop))
    {
      n := hopByHop;
      hopByHop := (hopByHop + 1) % TWO_TO_THE_32;
    }

    method AsyncWrite(bytes: seq<byte>, ghost m: Msg)
      requires Valid() && bytes == Encode(cfg, m)
      modifies this`out, this`sent
      ensures Valid() && Value() == Write(old(Value()), m)
    {
      if socketOpen {
        out := out + [bytes];
        sent := sent + [m];
      }
    }

    /** An application message; identifiers left at zero are filled in, in place. */
    method SendMessage(msg: seq<byte>) returns (accepted: bool)
      requires Valid()
      modifies this, nodeEndToEnd
      ensures Valid() && Value() == PeerMachine.SendMessage(old(Value()), msg)
      ensures accepted == Accepts(old(Value()), msg)
    {
      hide Header.WithU32, Header.HopByHop, Header.EndToEnd, U32, Be32;
      if state != Open {
        return false;
      }
      if |msg| < Header.SIZE {
        return false;
      }
      var buf := new byte[|msg|](i requires 0 <= i < |msg| => msg[i]);
      assert buf[..] == msg;
      var hbh := Header.HopByHop(buf[..]);
      if hbh == 0 {
        var h := NextHopByHop();
        Header.SetU32(buf, 12, h);
      }
      var e2e := Header.EndToEnd(buf[..]);
      if e2e == 0 {
        var e := nodeEndToEnd.Draw();
        Header.SetU32(buf, 16, e);
      }
      AsyncWrite(buf[..], App(buf[..]));
      accepted := true;
    }

    // ----- state changes -----

    method SetState(newState: State, react: Reaction)
      requires Valid()
      modifies this, nodeEndToEnd
      ensures Valid() && Value() == PeerMachine.SetState(old(Value()), newState, react)
      decreases if state == newState then 0 else Rank(newState) + 1, 0, 0
    {
      if state == newState {
        return;
      }
      state := newState;
      reported := reported + [newState];
      OnState(react(newState), react);
    }

    /** The application's callback: some calls back into this peer. */
    method OnState(calls: seq<Call>, react: Reaction)
      requires Valid()
      modifies this, nodeEndToEnd
      ensures Valid() && Value() == RunCalls(old(Value()), calls, react)
      decreases Rank(state), 4, |calls|
    {
      if calls != [] {
        Serve(calls[0], react);
        OnState(calls[1..], react);
      }
    }

    method Serve(c: Call, react: Reaction)
      requires Valid()
      modifies this, nodeEndToEnd
      ensures Valid() && Value() == DoCall(old(Value()), c, react)
      decreases Rank(state), 3, 0
    {
      match c
      case Send(msg) => var _ := SendMessage(msg);
      case Disconnect(cause) => Disconnect(cause, react);
      case Close => Close(react);
      case DrawHopByHop => var _ := NextHopByHop();
      case DrawEndToEnd => var _ := nodeEndToEnd.Draw();
    }

    method Disconnect(cause: uint32, react: Reaction)
      requires Valid()
      modifies this, nodeEndToEnd
      ensures Valid() && Value() == StartDisconnect(old(Value()), cause, react)
      decreases Rank(state), 2, 0
    {
      hide Encode, Own, PeerMachine.SetState, RunCalls;
      if state != Open {
        Close(react);
        return;
      }
      SetState(Closing, react);
      watchdogArmed := false;
      var h := NextHopByHop();
      var e := nodeEndToEnd.Draw();
      var dpr := Builders.BuildDPR(cfg, h, e, cause);
      AsyncWrite(dpr, Own(cfg, DPR, h, e, cause));
    }

    method Close(react: Reaction)
      requires Valid()
      modifies this, nodeEndToEnd
      ensures Valid() && Value() == ForceClose(old(Value()), react)
      decreases Rank(state), 1, 0
    {
      watchdogArmed := false;
      socketOpen := false;
      SetState(State.Closed, react);
    }

    // ----- connection start -----

    method Connect(react: Reaction)
      requires Valid()
      modifies this, nodeEndToEnd
      ensures Valid() && Value() == PeerMachine.Connect(old(Value()), react)
    {
      SetState(WaitCEA, react);
    }

    /** Builds and writes the capability request, under identifiers of its own. */
    method WriteCER()
      requires Valid()
      modifies this, nodeEndToEnd
      ensures Valid()
      ensures var v := old(Value()); Value() == Write(Advance(v), Own(v.cfg, CER, v.hopByHop, v.endToEnd, 0))
    {
      hide Encode, Own;
      var h := NextHopByHop();
      var e := nodeEndToEnd.Draw();
      var cer := Builders.BuildCER(cfg, h, e);
      AsyncWrite(cer, Own(cfg, CER, h, e, 0));
    }

    method OnConnected(up: bool, react: Reaction)
      requires Valid()
      modifies this, nodeEndToEnd
      ensures Valid() && Value() == PeerMachine.OnConnected(old(Value()), up, react)
    {
      hide Encode, Own, PeerMachine.SetState, RunCalls, Advance, Write;
      socketOpen := up;
      SetState(WaitCEA, react);
      WriteCER();
      reading := true;
    }

    method Start(react: Reaction)
      requires Valid()
      modifies this, nodeEndToEnd
      ensures Valid() && Value() == PeerMachine.Start(old(Value()), react)
    {
      SetState(WaitCER, react);
      reading := true;
    }

    // ----- events from the connection -----

    method OnError(react: Reaction)
      requires Valid()
      modifies this, nodeEndToEnd
      ensures Valid() && Value() == PeerMachine.OnError(old(Value()), react)
    {
      watchdogArmed := false;
      SetState(State.Closed, react);
    }

    /** Routes a received message by command code and request flag; a short one is ignored. */
    method OnMessage(msg: seq<byte>, react: Reaction, onApp: seq<Call>)
      requires Valid()
      modifies this, nodeEndToEnd
      ensures Valid() && Value() == OnBytes(old(Value()), msg, react, onApp)
    {
      hide Encode, Header.CommandCode, Header.IsRequest, Header.HopByHop, Header.EndToEnd, StringAt, CauseIn;
      if |msg| < Header.SIZE {
        return;
      }
      var cmdCode := Header.CommandCode(msg);
      var request := Header.IsRequest(msg);
      if cmdCode == CMD_CER && request {
        HandleCER(msg, react);
      } else if cmdCode == CMD_CER && !request {
        HandleCEA(msg, react);
      } else if cmdCode == CMD_DWR && request {
        HandleDWR(msg);
      } else if cmdCode == CMD_DWR && !request {
        // The watchdog answer is only logged.
      } else if cmdCode == CMD_DPR && request {
        HandleDPR(msg);
      } else if cmdCode == CMD_DPR && !request {
        HandleDPA(react);
      } else if state == Open {
        delivered := delivered + [msg];
        OnState(onApp, react);
      }
    }

    method HandleCER(msg: Header.Message, react: Reaction)
      requires Valid() && KindOf(msg) == Some(CER)
      modifies this, nodeEndToEnd
      ensures Valid() && Value() == PeerMachine.HandleCER(old(Value()), Decode(msg), react)
    {
      hide Encode, Own, PeerMachine.SetState, RunCalls, Header.HopByHop, Header.EndToEnd, StringAt, CauseIn, KindOf;
      if state != WaitCER {
        return;
      }
      remoteOriginHost := ExtractStringAvp(msg, ORIGIN_HOST);
      remoteOriginRealm := ExtractStringAvp(msg, ORIGIN_REALM);
      var cea := Builders.BuildCEA(cfg, msg);
      AsyncWrite(cea, Own(cfg, CEA, Header.HopByHop(msg), Header.EndToEnd(msg), 0));
      SetState(Open, react);
    }

    method HandleCEA(msg: Header.Message, react: Reaction)
      requires Valid() && KindOf(msg) == Some(CEA)
      modifies this, nodeEndToEnd
      ensures Valid() && Value() == PeerMachine.HandleCEA(old(Value()), Decode(msg), react)
    {
      hide Encode, Own, PeerMachine.SetState, RunCalls, Header.HopByHop, Header.EndToEnd, StringAt, CauseIn, KindOf;
      if state != WaitCEA {
        return;
      }
      remoteOriginHost := ExtractStringAvp(msg, ORIGIN_HOST);
      remoteOriginRealm := ExtractStringAvp(msg, ORIGIN_REALM);
      SetState(Open, react);
      StartWatchdog();
    }

    method HandleDWR(msg: Header.Message)
      requires Valid() && KindOf(msg) == Some(DWR)
      modifies this
      ensures Valid() && Value() == PeerMachine.HandleDWR(old(Value()), Decode(msg))
    {
      hide Encode, Header.HopByHop, Header.EndToEnd, StringAt, CauseIn, KindOf;
      if state != Open {
        return;
      }
      var dwa := Builders.BuildAnswer(cfg, DWA, msg);
      AsyncWrite(dwa, Own(cfg, DWA, Header.HopByHop(msg), Header.EndToEnd(msg), 0));
    }

    method HandleDPR(msg: Header.Message)
      requires Valid() && KindOf(msg) == Some(DPR)
      modifies this
      ensures Valid() && Value() == PeerMachine.HandleDPR(old(Value()), Decode(msg))
    {
      hide Encode, Header.HopByHop, Header.EndToEnd, StringAt, CauseIn, KindOf;
      var dpa := Builders.BuildAnswer(cfg, DPA, msg);
      AsyncWrite(dpa, Own(cfg, DPA, Header.HopByHop(msg), Header.EndToEnd(msg), 0));
      if socketOpen {
        answersOut := answersOut + 1;
      }
    }

    method HandleDPA(react: Reaction)
      requires Valid()
      modifies this, nodeEndToEnd
      ensures Valid() && Value() == PeerMachine.HandleDPA(old(Value()), react)
    {
      if state != Closing {
        return;
      }
      Close(react);
    }

    /** The completion handler given to the write of a disconnect answer. */
    method OnAnswerWritten(react: Reaction)
      requires Valid() && answersOut > 0
      modifies this, nodeEndToEnd
      ensures Valid() && Value() == PeerMachine.OnAnswerWritten(old(Value()), react)
    {
      answersOut := answersOut - 1;
      Close(react);
    }

    // ----- watchdog -----

    method StartWatchdog()
      modifies this`watchdogArmed
      ensures Value() == PeerMachine.StartWatchdog(old(Value()))
    {
      if cfg.watchdogIntervalSec == 0 {
        return;
      }
      watchdogArmed := true;
    }

    /** The timer expires: its handler is queued and can no longer be cancelled. */
    method TimerElapses()
      requires Valid()
      modifies this`watchdogArmed, this`watchdogDue
      ensures Valid() && Value() == PeerMachine.TimerElapses(old(Value()))
    {
      if watchdogArmed {
        watchdogArmed := false;
        watchdogDue := watchdogDue + 1;
      }
    }

    method WriteDWR()
      requires Valid()
      modifies this, nodeEndToEnd
      ensures Valid()
      ensures var v := old(Value()); Value() == Write(Advance(v), Own(v.cfg, DWR, v.hopByHop, v.endToEnd, 0))
    {
      hide Encode, Own;
      var h := NextHopByHop();
      var e := nodeEndToEnd.Draw();
      var dwr := Builders.BuildDWR(cfg, h, e);
      AsyncWrite(dwr, Own(cfg, DWR, h, e, 0));
    }

    /** The watchdog handler, run without an error code. */
    method OnTimer()
      requires Valid() && watchdogDue > 0
      modifies this, nodeEndToEnd
      ensures Valid() && Value() == PeerMachine.OnTimer(old(Value()))
    {
      hide Encode, Own, Advance, Write, PeerMachine.StartWatchdog;
      watchdogDue := watchdogDue - 1;
      if state != Open {
        return;
      }
      WriteDWR();
      StartWatchdog();
    }
  }
}
