/** Runs of requests on one leg: every send draws the identifiers its caller left at zero from the counters of the peer
    and of the process, and registers under what it drew. */
module Requests {
  import opened Bytes
  import opened Messages
  import opened PeerMachine
  import opened Correlation
  import opened Identifiers
  import opened Ledger
  import opened Table
  import Header

  /** A peer, its table's ledger, and the history of the counters: `hops` and `ends` draws since the seeds, and the
      draws the registrations took their identifiers from. */
  datatype Leg = Leg(
    peer: Node,
    ledger: Ledger,
    hopSeed: uint32,
    endSeed: uint32,
    hops: nat,
    ends: nat,
    hopDraws: seq<nat>,
    endDraws: seq<nat>)

  /** A send; draws for other messages, of this peer or (end-to-end) of any other; a critical section of the table
      other than a registration. */
  datatype Happening =
    | Sends(request: Header.Message)
    | DrawsElsewhere(hops: nat, ends: nat)
    | Section(ev: Event)

  /** `send` from the registration to the write. A key drawn as zero is drawn again by the peer when it writes. */
  function SendOn(g: Leg, request: Header.Message): Leg {
    var o := Assign(g.peer, request);
    var written := SendMessage(o.peer, o.bytes);
    g.(peer := written,
       ledger := Registered(g.ledger, g.peer, request),
       hops := g.hops + HopsDrawn(g.peer, request),
       ends := g.ends + EndsDrawn(g.peer, request),
       hopDraws := g.hopDraws + [g.hops],
       endDraws := g.endDraws + [g.ends])
  }

  /** One for a zero in the request, and one more if that draw gave zero again. */
  function HopsDrawn(p: Node, request: Header.Message): nat {
    if Header.HopByHop(request) != 0 then 0 else if p.hopByHop == 0 && p.state == Open then 2 else 1
  }

  function EndsDrawn(p: Node, request: Header.Message): nat {
    if Header.EndToEnd(request) != 0 then 0 else if p.endToEnd == 0 && p.state == Open then 2 else 1
  }

  /** A peer whose counters have moved on. */
  function MovedOn(p: Node, hops: nat, ends: nat): Node {
    p.(hopByHop := After(p.hopByHop, hops), endToEnd := After(p.endToEnd, ends))
  }

  function Happen(g: Leg, h: Happening): Leg {
    match h
    case Sends(request) => SendOn(g, request)
    case DrawsElsewhere(hops, ends) =>
      g.(peer := MovedOn(g.peer, hops, ends), hops := g.hops + hops, ends := g.ends + ends)
    case Section(ev) => if ev.Registers? then g else g.(ledger := Step(g.ledger, ev))
  }

  function RunLeg(g: Leg, hs: seq<Happening>): Leg
    decreases |hs|
  {
    if hs == [] then g else RunLeg(Happen(g, hs[0]), hs[1..])
  }

  /** The history is that of the counters. */
  predicate Tracks(g: Leg) {
    && g.peer.hopByHop == After(g.hopSeed, g.hops) && g.peer.endToEnd == After(g.endSeed, g.ends)
    && |g.hopDraws| == |g.endDraws| == |g.ledger.regs|
    && (forall id :: 0 <= id < |g.hopDraws| ==> g.hopDraws[id] <= g.hops && g.endDraws[id] <= g.ends)
  }

  lemma AfterAfter(seed: uint32, j: nat, k: nat)
    ensures After(After(seed, j), k) == After(seed, j + k)
  {
    if k == 0 {
    } else {
      AfterAfter(seed, j, k - 1);
    }
  }

  /** What a send does to the counters is what was counted. */
  lemma SendDraws(p: Node, request: Header.Message)
    ensures var o := Assign(p, request);
            var q := SendMessage(o.peer, o.bytes);
            && q.hopByHop == After(p.hopByHop, HopsDrawn(p, request))
            && q.endToEnd == After(p.endToEnd, EndsDrawn(p, request))
  {
    hide Header.WithU32, Header.HopByHop, Header.EndToEnd, Assign, Next;
    var o := Assign(p, request);
    AssignFacts(p, request);
    AssignedLength(p, request);
    FilledHop(o.bytes, o.peer.hopByHop);
    Twice(p.hopByHop);
    Twice(p.endToEnd);
  }

  lemma Twice(n: uint32)
    ensures After(n, 0) == n && After(n, 1) == Next(n) && After(n, 2) == Next(Next(n))
  {
    assert After(n, 1) == Next(After(n, 0));
  }

  lemma HappenTracks(g: Leg, h: Happening)
    requires Tracks(g)
    ensures Tracks(Happen(g, h))
  {
    hide After, Assign, SendMessage, HopsDrawn, EndsDrawn, Lookup;
    match h
    case Sends(request) =>
      SendDraws(g.peer, request);
      AfterAfter(g.hopSeed, g.hops, HopsDrawn(g.peer, request));
      AfterAfter(g.endSeed, g.ends, EndsDrawn(g.peer, request));
    case DrawsElsewhere(hops, ends) =>
      AfterAfter(g.hopSeed, g.hops, hops);
      AfterAfter(g.endSeed, g.ends, ends);
    case Section(_) =>
  }

  /** A leg on which nothing was sent yet. */
  function NewLeg(p: Node): Leg { Leg(p, INIT, p.hopByHop, p.endToEnd, 0, 0, [], []) }

  // ----- hop-by-hop keys -----

  /** Every transaction still pending registered with a draw less than 2^32 draws ago. */
  ghost predicate HopsYoung(g: Leg)
    requires |g.hopDraws| == |g.ledger.regs|
  {
    forall id :: 0 <= id < |g.ledger.regs| && Live(g.ledger, id) ==> g.hops < g.hopDraws[id] + TWO_TO_THE_32
  }

  /** All requests leave the hop-by-hop identifier to the library, and none is sent while a transaction from 2^32
      draws ago is still pending. */
  ghost predicate HopsLeft(g: Leg, hs: seq<Happening>)
    requires Tracks(g)
    decreases |hs|
  {
    if hs == [] then true
    else
      HappenTracks(g, hs[0]);
      && (hs[0].Sends? ==> Header.HopByHop(hs[0].request) == 0 && HopsYoung(g))
      && HopsLeft(Happen(g, hs[0]), hs[1..])
  }

  /** The registrations took their keys from the counter, each from a draw of its own. */
  ghost predicate HopsDistinct(g: Leg)
    requires Tracks(g)
  {
    forall id :: 0 <= id < |g.hopDraws| ==>
      g.hopDraws[id] < g.hops && g.ledger.regs[id].hbh == After(g.hopSeed, g.hopDraws[id])
  }

  lemma SendKeepsHops(g: Leg, request: Header.Message)
    requires Tracks(g) && HopsDistinct(g) && Header.HopByHop(request) == 0
    ensures Tracks(SendOn(g, request)) && HopsDistinct(SendOn(g, request))
    ensures Assign(g.peer, request).hbh == After(g.hopSeed, g.hops)
  {
    hide After, Assign, SendMessage, Header.HopByHop;
    HappenTracks(g, Sends(request));
    AssignFacts(g.peer, request);
  }

  /** Identifiers the library assigns never evict a pending transaction: not by two sends in a row, and not by any
      number of sends with anything in between, as long as no transaction stays pending for 2^32 draws. */
  lemma {:induction false} SendsEvictNone(g: Leg, hs: seq<Happening>)
    requires Tracks(g) && Inv(g.ledger) && NoneReplaced(g.ledger) && HopsDistinct(g) && HopsLeft(g, hs)
    ensures NoneReplaced(RunLeg(g, hs).ledger)
    decreases |hs|
  {
    if hs == [] {
    } else {
      hide Inv, NoneReplaced, Step, After, Assign, Live;
      var h := hs[0];
      HappenTracks(g, h);
      match h {
        case Sends(request) => SendEvictsNone(g, request);
        case DrawsElsewhere(_, _) =>
        case Section(ev) => SectionEvictsNone(g, ev);
      }
      SendsEvictNone(Happen(g, h), hs[1..]);
    }
  }

  lemma SendEvictsNone(g: Leg, request: Header.Message)
    requires Tracks(g) && Inv(g.ledger) && NoneReplaced(g.ledger) && HopsDistinct(g)
    requires Header.HopByHop(request) == 0 && HopsYoung(g)
    ensures var z := SendOn(g, request);
            Tracks(z) && Inv(z.ledger) && NoneReplaced(z.ledger) && HopsDistinct(z)
  {
    hide Inv, NoneReplaced, After, Assign, SendMessage, Live, Header.HopByHop, Header.CommandCode;
    var o := Assign(g.peer, request);
    var ev := Registers(o.hbh, o.e2e, Header.CommandCode(o.bytes));
    SendKeepsHops(g, request);
    StepKeeps(g.ledger, ev);
    forall id | 0 <= id < |g.ledger.regs| && Live(g.ledger, id)
      ensures g.ledger.regs[id].hbh != ev.hbh
    {
      DrawsCollideIff(g.hopSeed, g.hopDraws[id], g.hops);
    }
    FreshKeyReplacesNone(g.ledger, ev);
  }

  lemma SectionEvictsNone(g: Leg, ev: Event)
    requires Tracks(g) && Inv(g.ledger) && NoneReplaced(g.ledger) && HopsDistinct(g)
    ensures var z := Happen(g, Section(ev));
            Tracks(z) && Inv(z.ledger) && NoneReplaced(z.ledger) && HopsDistinct(z)
  {
    hide Inv, NoneReplaced, After, Lookup;
    HappenTracks(g, Section(ev));
    StepKeeps(g.ledger, ev);
    if !ev.Registers? {
      FreshKeyReplacesNone(g.ledger, ev);
    }
  }

  // ----- end-to-end identifiers -----

  ghost predicate EndsYoung(g: Leg)
    requires |g.endDraws| == |g.ledger.regs|
  {
    forall id :: 0 <= id < |g.ledger.regs| && Live(g.ledger, id) ==> g.ends < g.endDraws[id] + TWO_TO_THE_32
  }

  ghost predicate EndsLeft(g: Leg, hs: seq<Happening>)
    requires Tracks(g)
    decreases |hs|
  {
    if hs == [] then true
    else
      HappenTracks(g, hs[0]);
      && (hs[0].Sends? ==> Header.EndToEnd(hs[0].request) == 0 && EndsYoung(g))
      && EndsLeft(Happen(g, hs[0]), hs[1..])
  }

  ghost predicate EndsDistinct(g: Leg)
    requires Tracks(g)
  {
    forall id :: 0 <= id < |g.endDraws| ==>
      g.endDraws[id] < g.ends && g.ledger.regs[id].e2e == After(g.endSeed, g.endDraws[id])
  }

  lemma SendKeepsEnds(g: Leg, request: Header.Message)
    requires Tracks(g) && EndsDistinct(g) && Header.EndToEnd(request) == 0
    ensures Tracks(SendOn(g, request)) && EndsDistinct(SendOn(g, request))
    ensures Assign(g.peer, request).e2e == After(g.endSeed, g.ends)
  {
    hide After, Assign, SendMessage, Header.EndToEnd;
    HappenTracks(g, Sends(request));
    AssignFacts(g.peer, request);
  }

  /** End-to-end identifiers the library assigns keep the index the exact inverse of the table. */
  lemma {:induction false} SendsStayExact(g: Leg, hs: seq<Happening>)
    requires Tracks(g) && Inv(g.ledger) && Exact(g.ledger.table) && EndsDistinct(g) && EndsLeft(g, hs)
    ensures Exact(RunLeg(g, hs).ledger.table)
    decreases |hs|
  {
    if hs == [] {
    } else {
      hide Inv, Exact, Step, After, Assign, Live;
      var h := hs[0];
      HappenTracks(g, h);
      match h {
        case Sends(request) => SendStaysExact(g, request);
        case DrawsElsewhere(_, _) =>
        case Section(ev) => SectionStaysExact(g, ev);
      }
      SendsStayExact(Happen(g, h), hs[1..]);
    }
  }

  lemma SendStaysExact(g: Leg, request: Header.Message)
    requires Tracks(g) && Inv(g.ledger) && Exact(g.ledger.table) && EndsDistinct(g)
    requires Header.EndToEnd(request) == 0 && EndsYoung(g)
    ensures var z := SendOn(g, request);
            Tracks(z) && Inv(z.ledger) && Exact(z.ledger.table) && EndsDistinct(z)
  {
    hide Inv, Exact, After, Assign, SendMessage, Live, Header.EndToEnd, Header.CommandCode;
    var o := Assign(g.peer, request);
    var ev := Registers(o.hbh, o.e2e, Header.CommandCode(o.bytes));
    SendKeepsEnds(g, request);
    StepKeeps(g.ledger, ev);
    forall id | 0 <= id < |g.ledger.regs| && Live(g.ledger, id)
      ensures g.ledger.regs[id].e2e != ev.e2e
    {
      DrawsCollideIff(g.endSeed, g.endDraws[id], g.ends);
    }
    FreshIdKeepsExact(g.ledger, ev);
  }

  lemma SectionStaysExact(g: Leg, ev: Event)
    requires Tracks(g) && Inv(g.ledger) && Exact(g.ledger.table) && EndsDistinct(g)
    ensures var z := Happen(g, Section(ev));
            Tracks(z) && Inv(z.ledger) && Exact(z.ledger.table) && EndsDistinct(z)
  {
    hide Inv, Exact, After, Lookup;
    HappenTracks(g, Section(ev));
    StepKeeps(g.ledger, ev);
    if !ev.Registers? {
      FreshIdKeepsExact(g.ledger, ev);
    }
  }

  // ----- from the start -----

  lemma NewLegTracks(p: Node)
    ensures var g := NewLeg(p);
            && Tracks(g) && Inv(g.ledger) && NoneReplaced(g.ledger) && Exact(g.ledger.table)
            && HopsDistinct(g) && EndsDistinct(g)
  {
  }

  /** For a peer with any counters: requests that leave their identifiers to the library replace no pending
      transaction and keep the two maps inverse. */
  lemma AssignedIdsAreFresh(p: Node, hs: seq<Happening>)
    ensures (NewLegTracks(p); HopsLeft(NewLeg(p), hs) ==> NoneReplaced(RunLeg(NewLeg(p), hs).ledger))
    ensures (NewLegTracks(p); EndsLeft(NewLeg(p), hs) ==> Exact(RunLeg(NewLeg(p), hs).ledger.table))
  {
    hide HopsLeft, EndsLeft, RunLeg, Inv, NoneReplaced, Exact;
    NewLegTracks(p);
    if HopsLeft(NewLeg(p), hs) {
      SendsEvictNone(NewLeg(p), hs);
    }
    if EndsLeft(NewLeg(p), hs) {
      SendsStayExact(NewLeg(p), hs);
    }
  }
}
