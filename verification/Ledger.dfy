/** Runs of the transaction table: any interleaving of its critical sections, and what becomes of every
    transaction ever registered. */
module Ledger {
  import opened Bytes
  import opened Messages
  import opened Table

  /** What a transaction was registered with. Its number is its position in `Ledger.regs`. */
  datatype Registration = Registration(hbh: uint32, e2e: uint32, cmd: nat)

  /** How a transaction left the table. `Answered` runs its response callback, `TimedOut` its timeout callbacks. */
  datatype Fate = Answered | TimedOut | RolledBack | Replaced | Cleared

  datatype Ledger = Ledger(table: State, regs: seq<Registration>, fates: seq<seq<Fate>>)

  const INIT: Ledger := Ledger(EMPTY, [], [])

  /** One critical section. An expiry is the handler of some transaction's timer; it may run at any time, since
      a handler that is already queued is not cancelled. A refusal is the roll-back of some transaction's send. */
  datatype Event =
    | Registers(hbh: uint32, e2e: uint32, cmd: nat)
    | Refused(id: nat)
    | Expiry(id: nat)
    | Answers(hbh: uint32, e2e: uint32, cmd: nat)
    | Clears

  function Ended(fates: seq<seq<Fate>>, id: nat, f: Fate): (r: seq<seq<Fate>>)
    ensures |r| == |fates|
  {
    if id < |fates| then fates[id := fates[id] + [f]] else fates
  }

  function EndedAt(l: Ledger, hbh: uint32, f: Fate): seq<seq<Fate>> {
    if hbh in l.table.pending then Ended(l.fates, l.table.pending[hbh].id, f) else l.fates
  }

  function PendingOf(l: Ledger, id: nat): Pending
    requires id < |l.regs|
  {
    Pending(id, l.regs[id].e2e, l.regs[id].cmd)
  }

  predicate Live(l: Ledger, id: nat) {
    && id < |l.regs|
    && l.regs[id].hbh in l.table.pending
    && l.table.pending[l.regs[id].hbh].id == id
  }

  function Step(l: Ledger, ev: Event): Ledger {
    match ev
    case Registers(hbh, e2e, cmd) =>
      Ledger(Register(l.table, hbh, Pending(|l.regs|, e2e, cmd)),
             l.regs + [Registration(hbh, e2e, cmd)],
             EndedAt(l, hbh, Replaced) + [[]])
    case Refused(id) =>
      if id < |l.regs| then
        l.(table := RollBack(l.table, l.regs[id].hbh, PendingOf(l, id)),
           fates := if Live(l, id) then Ended(l.fates, id, RolledBack) else l.fates)
      else l
    case Expiry(id) =>
      if id < |l.regs| then
        l.(table := Expire(l.table, l.regs[id].hbh), fates := EndedAt(l, l.regs[id].hbh, TimedOut))
      else l
    case Answers(hbh, e2e, cmd) =>
      (match Lookup(l.table, hbh, e2e, cmd)
       case Some(h) => l.(table := Resolve(l.table, hbh, e2e, cmd), fates := EndedAt(l, h, Answered))
       case None => l)
    case Clears =>
      Ledger(EMPTY, l.regs,
             seq(|l.fates|, id requires 0 <= id < |l.fates| =>
               if Live(l, id) then l.fates[id] + [Cleared] else l.fates[id]))
  }

  function Run(l: Ledger, evs: seq<Event>): Ledger
    decreases |evs|
  {
    if evs == [] then l else Run(Step(l, evs[0]), evs[1..])
  }

  // ----- what every run keeps -----

  /** Every entry of the table is a registration under its own key, and the newest one under that key. */
  ghost predicate TableMatches(l: Ledger) {
    && (forall h :: h in l.table.pending ==>
          var p := l.table.pending[h];
          p.id < |l.regs| && l.regs[p.id] == Registration(h, p.endToEnd, p.commandCode))
    && (forall id :: 0 <= id < |l.regs| && l.regs[id].hbh in l.table.pending ==>
          id <= l.table.pending[l.regs[id].hbh].id)
  }

  /** Conservation: a transaction is in the table, or it has left the table exactly once. */
  ghost predicate Balanced(l: Ledger) {
    && |l.fates| == |l.regs|
    && forall id :: 0 <= id < |l.regs| ==> |l.fates[id]| == if Live(l, id) then 0 else 1
  }

  ghost predicate Inv(l: Ledger) { Sound(l.table) && TableMatches(l) && Balanced(l) }

  lemma RegistersKeeps(l: Ledger, ev: Event)
    requires Inv(l) && ev.Registers?
    ensures Inv(Step(l, ev))
  {
    var l' := Step(l, ev);
    RegisterSound(l.table, ev.hbh, Pending(|l.regs|, ev.e2e, ev.cmd));
    forall id | 0 <= id < |l'.regs|
      ensures |l'.fates[id]| == if Live(l', id) then 0 else 1
    {
      if id < |l.regs| {
        assert l'.regs[id] == l.regs[id];
        assert Live(l', id) <==> Live(l, id) && l.regs[id].hbh != ev.hbh;
      }
    }
  }

  /** Taking one transaction out of the table and recording its fate. */
  function TakenOut(l: Ledger, h: uint32, f: Fate): Ledger
    requires h in l.table.pending
  {
    l.(table := Remove(l.table, h), fates := EndedAt(l, h, f))
  }

  lemma TakenOutKeeps(l: Ledger, h: uint32, f: Fate)
    requires Inv(l) && h in l.table.pending
    ensures Inv(TakenOut(l, h, f))
  {
    var l' := TakenOut(l, h, f);
    var gone := l.table.pending[h].id;
    RemoveSound(l.table, h);
    forall id | 0 <= id < |l.regs|
      ensures |l'.fates[id]| == if Live(l', id) then 0 else 1
    {
      assert Live(l', id) <==> Live(l, id) && id != gone;
    }
  }

  /** Every section but registration and clearing changes nothing or takes one transaction out. */
  lemma StepTakesOut(l: Ledger, ev: Event)
    requires Inv(l) && !ev.Registers? && !ev.Clears?
    ensures Step(l, ev) == l
            || exists h, f :: h in l.table.pending && Step(l, ev) == TakenOut(l, h, f)
  {
    match ev
    case Refused(id) =>
      if Live(l, id) {
        assert Step(l, ev) == TakenOut(l, l.regs[id].hbh, RolledBack);
      }
    case Expiry(id) =>
      if id < |l.regs| && l.regs[id].hbh in l.table.pending {
        assert Step(l, ev) == TakenOut(l, l.regs[id].hbh, TimedOut);
      }
    case Answers(hbh, e2e, cmd) =>
      var hit := Lookup(l.table, hbh, e2e, cmd);
      if hit.Some? {
        assert Step(l, ev) == TakenOut(l, hit.value, Answered);
      }
  }

  lemma StepKeeps(l: Ledger, ev: Event)
    requires Inv(l)
    ensures Inv(Step(l, ev))
  {
    if ev.Registers? {
      RegistersKeeps(l, ev);
    } else if !ev.Clears? {
      StepTakesOut(l, ev);
      if Step(l, ev) != l {
        var h, f :| h in l.table.pending && Step(l, ev) == TakenOut(l, h, f);
        TakenOutKeeps(l, h, f);
      }
    }
  }

  /** Over any interleaving: the index is sound, and each registered transaction is pending or has exactly one of
      the five fates. */
  lemma {:induction false} LedgerOfRun(l: Ledger, evs: seq<Event>)
    requires Inv(l)
    ensures Inv(Run(l, evs))
    ensures l.regs <= Run(l, evs).regs
    ensures forall id :: 0 <= id < |l.regs| ==> l.fates[id] <= Run(l, evs).fates[id]
    decreases |evs|
  {
    if evs == [] {
    } else {
      hide Inv;
      StepKeeps(l, evs[0]);
      StepGrows(l, evs[0]);
      LedgerOfRun(Step(l, evs[0]), evs[1..]);
      InvSizes(l);
      InvSizes(Step(l, evs[0]));
      InvSizes(Run(l, evs));
    }
  }

  lemma InvSizes(l: Ledger)
    requires Inv(l)
    ensures |l.fates| == |l.regs|
  {
  }

  /** A fate is never taken back. */
  lemma StepGrows(l: Ledger, ev: Event)
    requires Inv(l)
    ensures l.regs <= Step(l, ev).regs && |l.fates| <= |Step(l, ev).fates|
    ensures forall id :: 0 <= id < |l.fates| ==> l.fates[id] <= Step(l, ev).fates[id]
  {
  }

  // ----- callbacks -----

  /** Response and timeout callbacks a transaction has seen. */
  function Callbacks(fates: seq<Fate>): nat {
    if fates == [] then 0
    else Callbacks(fates[1..]) + if fates[0].Answered? || fates[0].TimedOut? then 1 else 0
  }

  /** Over any run, the callbacks of a transaction together fire at most once, and never while it is pending. */
  lemma CallbacksAtMostOnce(evs: seq<Event>, id: nat)
    requires id < |Run(INIT, evs).regs|
    ensures var l := Run(INIT, evs); id < |l.fates| && Callbacks(l.fates[id]) <= if Live(l, id) then 0 else 1
  {
    LedgerOfRun(INIT, evs);
  }

  /** The effect of a roll-back, for ever: if the transaction is still registered it ends silently, else the
      roll-back does nothing. */
  lemma RollBackDecides(l: Ledger, id: nat, later: seq<Event>)
    requires Inv(l) && id < |l.regs|
    ensures var l' := Run(Step(l, Refused(id)), later);
            |l'.fates| > id && l'.fates[id] == if Live(l, id) then [RolledBack] else l.fates[id]
  {
    var l1 := Step(l, Refused(id));
    StepKeeps(l, Refused(id));
    LedgerOfRun(l1, later);
    assert |l1.fates[id]| == 1;
    assert Run(l1, later).fates[id] == l1.fates[id];
  }

  /** A section that runs a callback of the pending transaction `id`: an answer whose lookup gives its key, or an
      expiry of any registration under its key. */
  predicate Strikes(l: Ledger, ev: Event, id: nat)
    requires id < |l.regs|
  {
    match ev
    case Answers(hbh, e2e, cmd) => Lookup(l.table, hbh, e2e, cmd) == Some(l.regs[id].hbh)
    case Expiry(timer) => timer < |l.regs| && l.regs[timer].hbh == l.regs[id].hbh
    case _ => false
  }

  /** Some section of the run strikes the transaction while it is pending. */
  predicate Struck(l: Ledger, evs: seq<Event>, id: nat)
    decreases |evs|
  {
    if evs == [] then false
    else (Live(l, id) && Strikes(l, evs[0], id)) || Struck(Step(l, evs[0]), evs[1..], id)
  }

  lemma StepStrikes(l: Ledger, ev: Event, id: nat)
    requires Inv(l) && id < |l.regs|
    ensures |Step(l, ev).fates| > id && id < |Step(l, ev).regs|
    ensures Callbacks(Step(l, ev).fates[id])
            == Callbacks(l.fates[id]) + if Live(l, id) && Strikes(l, ev, id) then 1 else 0
  {
    StepKeeps(l, ev);
    StepGrows(l, ev);
    assert |l.fates| == |l.regs|;
    var before, after := l.fates[id], Step(l, ev).fates[id];
    if after != before {
      assert before == [] && after == [after[0]];
      assert [after[0]][1..] == [];
    }
  }

  lemma {:induction false} StruckCounts(l: Ledger, evs: seq<Event>, id: nat)
    requires Inv(l) && id < |l.regs|
    ensures |Run(l, evs).fates| > id
    ensures Callbacks(Run(l, evs).fates[id]) == Callbacks(l.fates[id]) + if Struck(l, evs, id) then 1 else 0
    decreases |evs|
  {
    if evs == [] {
      InvSizes(l);
    } else {
      hide Inv, Strikes, Callbacks;
      var l1 := Step(l, evs[0]);
      StepKeeps(l, evs[0]);
      StepStrikes(l, evs[0], id);
      StruckCounts(l1, evs[1..], id);
      LedgerOfRun(l1, evs[1..]);
      OnlyOneCallback(Run(l1, evs[1..]), id);
    }
  }

  lemma OnlyOneCallback(l: Ledger, id: nat)
    requires Inv(l) && id < |l.fates|
    ensures Callbacks(l.fates[id]) <= 1
  {
  }

  /** When the documented promise of a refused send holds. Its registration, any sections before the roll-back, the
      roll-back, and any sections after it: no callback of it ever fires if and only if no section in between
      struck it while it was pending. */
  lemma RefusedSendIsSilentIff(l: Ledger, hbh: uint32, e2e: uint32, cmd: nat, between: seq<Event>, later: seq<Event>)
    requires Inv(l)
    ensures var id := |l.regs|;
            var l1 := Step(l, Registers(hbh, e2e, cmd));
            var l2 := Run(Step(Run(l1, between), Refused(id)), later);
            |l2.fates| > id && (Callbacks(l2.fates[id]) == 0 <==> !Struck(l1, between, id))
  {
    hide Inv, Struck, Step;
    var id := |l.regs|;
    var l1 := Step(l, Registers(hbh, e2e, cmd));
    StepKeeps(l, Registers(hbh, e2e, cmd));
    FreshlyRegistered(l, hbh, e2e, cmd);
    StruckCounts(l1, between, id);
    LedgerOfRun(l1, between);
    var l2 := Run(l1, between);
    RollBackDecides(l2, id, later);
    LiveIsSilent(l2, id);
  }

  lemma FreshlyRegistered(l: Ledger, hbh: uint32, e2e: uint32, cmd: nat)
    requires Inv(l)
    ensures var l1 := Step(l, Registers(hbh, e2e, cmd));
            Live(l1, |l.regs|) && |l1.regs| == |l1.fates| == |l.regs| + 1 && l1.fates[|l.regs|] == []
            && Callbacks(l1.fates[|l.regs|]) == 0
  {
  }

  lemma LiveIsSilent(l: Ledger, id: nat)
    requires Inv(l) && id < |l.regs|
    ensures id < |l.fates| && (Live(l, id) ==> Callbacks(l.fates[id]) == 0)
    ensures Callbacks([RolledBack]) == 0
  {
    assert [RolledBack][1..] == [];
  }

  /** The documented promise for an uninterrupted refused send. */
  lemma AtomicRefusedSend(l: Ledger, hbh: uint32, e2e: uint32, cmd: nat, later: seq<Event>)
    requires Inv(l)
    ensures var l' := Run(Step(Step(l, Registers(hbh, e2e, cmd)), Refused(|l.regs|)), later);
            |l'.fates| > |l.regs| && l'.fates[|l.regs|] == [RolledBack]
  {
    StepKeeps(l, Registers(hbh, e2e, cmd));
    RollBackDecides(Step(l, Registers(hbh, e2e, cmd)), |l.regs|, later);
  }

  /** It does not hold under interleaving: an answer between registration and write fires the callback of a send
      that then returns 0. */
  lemma InterruptedRefusedSendFires()
    ensures var l := Step(Step(Step(INIT, Registers(1, 2, 272)), Answers(1, 2, 272)), Refused(0));
            l.fates == [[Answered]] && Callbacks(l.fates[0]) == 1
  {
    var l1 := Step(INIT, Registers(1, 2, 272));
    assert l1.fates == [[]] && 1 in l1.table.pending;
    var l2 := Step(l1, Answers(1, 2, 272));
    assert l1.fates[0] + [Answered] == [Answered];
    assert |l2.fates| == 1 && l2.fates[0] == [Answered] && 1 !in l2.table.pending;
    assert l2.fates == [[Answered]];
    assert [Answered][1..] == [];
  }

  /** Closing the client empties the table and ends every pending transaction without a callback, for ever; what had
      ended before keeps its fate. */
  lemma ClearingIsSilent(l: Ledger, id: nat, later: seq<Event>)
    requires Inv(l) && id < |l.regs|
    ensures Step(l, Clears).table.pending == map[] && Step(l, Clears).table.byE2e == map[]
    ensures var l' := Run(Step(l, Clears), later);
            |l'.fates| > id && l'.fates[id] == if Live(l, id) then [Cleared] else l.fates[id]
  {
    var l1 := Step(l, Clears);
    StepKeeps(l, Clears);
    LedgerOfRun(l1, later);
    assert |l1.fates[id]| == 1;
    assert Run(l1, later).fates[id] == l1.fates[id];
  }

  /** An expiry ends its own transaction exactly when that is still pending; otherwise at most a later one
      registered under the same key. */
  lemma ExpiryEnds(l: Ledger, id: nat)
    requires Inv(l) && id < |l.regs|
    ensures var h := l.regs[id].hbh;
            if h !in l.table.pending then Step(l, Expiry(id)) == l
            else
              var victim := l.table.pending[h].id;
              && Step(l, Expiry(id)) == TakenOut(l, h, TimedOut)
              && id <= victim < |l.regs| && l.regs[victim].hbh == h
              && (victim == id <==> Live(l, id))
  {
  }

  // ----- exactness of the index over runs -----

  ghost predicate AlwaysExact(l: Ledger, evs: seq<Event>)
    decreases |evs|
  {
    Exact(l.table) && (evs == [] || AlwaysExact(Step(l, evs[0]), evs[1..]))
  }

  ghost predicate AlwaysDistinct(l: Ledger, evs: seq<Event>)
    decreases |evs|
  {
    DistinctE2e(l.table) && (evs == [] || AlwaysDistinct(Step(l, evs[0]), evs[1..]))
  }

  lemma StepExact(l: Ledger, ev: Event)
    requires Inv(l) && Exact(l.table)
    ensures DistinctE2e(Step(l, ev).table) <==> Exact(Step(l, ev).table)
  {
    var t' := Step(l, ev).table;
    if Exact(t') {
      ExactIsDistinct(t');
    }
    if DistinctE2e(t') {
      if ev.Registers? {
        forall h | h in l.table.pending && h != ev.hbh
          ensures l.table.pending[h].endToEnd != ev.e2e
        {
          assert t'.pending[h] == l.table.pending[h] && t'.pending[ev.hbh].endToEnd == ev.e2e;
        }
        RegisterExactIff(l.table, ev.hbh, Pending(|l.regs|, ev.e2e, ev.cmd));
      } else if !ev.Clears? && Step(l, ev) != l {
        StepTakesOut(l, ev);
        var h, f :| h in l.table.pending && Step(l, ev) == TakenOut(l, h, f);
        RemoveExact(l.table, h);
      }
    }
  }

  /** The maps are inverse to each other all along a run exactly when the pending transactions have distinct
      end-to-end identifiers all along it. */
  lemma {:induction false} ExactWhileDistinct(l: Ledger, evs: seq<Event>)
    requires Inv(l) && Exact(l.table)
    ensures AlwaysExact(l, evs) <==> AlwaysDistinct(l, evs)
    decreases |evs|
  {
    ExactIsDistinct(l.table);
    if evs == [] {
    } else {
      hide Inv, Step, Exact, DistinctE2e;
      StepKeeps(l, evs[0]);
      StepExact(l, evs[0]);
      if Exact(Step(l, evs[0]).table) {
        ExactWhileDistinct(Step(l, evs[0]), evs[1..]);
      } else {
        assert !AlwaysDistinct(Step(l, evs[0]), evs[1..]);
      }
    }
  }

  /** Distinctness now is not enough: after a past collision, a lone pending transaction can be missing in the
      index, and an answer with a rewritten hop-by-hop then misses it. */
  lemma PastCollisionHides()
    ensures var l := Step(Step(Step(INIT, Registers(1, 7, 272)), Registers(2, 7, 272)), Answers(2, 7, 272));
            && Live(l, 0) && DistinctE2e(l.table) && !Exact(l.table)
            && ScanHit(l.table, 9, 7, 272, 1) && Lookup(l.table, 9, 7, 272) == None
  {
    var l := Step(Step(Step(INIT, Registers(1, 7, 272)), Registers(2, 7, 272)), Answers(2, 7, 272));
    assert l.table.pending == map[1 := Pending(0, 7, 272)];
    assert 7 !in l.table.byE2e;
  }

  // ----- duplicate answers -----

  /** How often the same answer can still resolve: once by hop-by-hop, once by end-to-end. */
  function Chances(t: State, hbh: uint32, e2e: uint32, cmd: nat): nat {
    (if hbh in t.pending && t.pending[hbh].commandCode == cmd then 1 else 0)
    + (if e2e != 0 && e2e in t.byE2e then 1 else 0)
  }

  /** Resolutions of the answer along a run. */
  function Resolutions(l: Ledger, evs: seq<Event>, hbh: uint32, e2e: uint32, cmd: nat): nat
    decreases |evs|
  {
    if evs == [] then 0
    else
      (if evs[0] == Answers(hbh, e2e, cmd) && Lookup(l.table, hbh, e2e, cmd).Some? then 1 else 0)
      + Resolutions(Step(l, evs[0]), evs[1..], hbh, e2e, cmd)
  }

  lemma ChancesShrink(l: Ledger, ev: Event, hbh: uint32, e2e: uint32, cmd: nat)
    requires Inv(l) && !ev.Registers?
    ensures Chances(Step(l, ev).table, hbh, e2e, cmd)
            + (if ev == Answers(hbh, e2e, cmd) && Lookup(l.table, hbh, e2e, cmd).Some? then 1 else 0)
            <= Chances(l.table, hbh, e2e, cmd)
  {
  }

  /** Without new registrations, any answer resolves at most twice, even with colliding identifiers. */
  lemma {:induction false} AnswerResolvesAtMostTwice(l: Ledger, evs: seq<Event>, hbh: uint32, e2e: uint32, cmd: nat)
    requires Inv(l)
    requires forall ev :: ev in evs ==> !ev.Registers?
    ensures Resolutions(l, evs, hbh, e2e, cmd) <= Chances(l.table, hbh, e2e, cmd) <= 2
    decreases |evs|
  {
    if evs == [] {
    } else {
      hide Inv, Step, Lookup, Chances;
      StepKeeps(l, evs[0]);
      ChancesShrink(l, evs[0], hbh, e2e, cmd);
      AnswerResolvesAtMostTwice(Step(l, evs[0]), evs[1..], hbh, e2e, cmd);
    }
    ChancesBound(l.table, hbh, e2e, cmd);
  }

  lemma ChancesBound(t: State, hbh: uint32, e2e: uint32, cmd: nat)
    ensures Chances(t, hbh, e2e, cmd) <= 2
  {
  }

  /** An answer that echoes both identifiers and the command of a pending transaction resolves exactly that one,
      and repeating it misses ever after, until something is registered. */
  lemma EchoResolvesOnce(l: Ledger, id: nat, later: seq<Event>)
    requires Inv(l) && Live(l, id)
    requires forall ev :: ev in later ==> !ev.Registers?
    ensures var r := l.regs[id];
            var l' := Step(l, Answers(r.hbh, r.e2e, r.cmd));
            && l' == TakenOut(l, r.hbh, Answered) && l'.fates[id] == [Answered]
            && Resolutions(l', later, r.hbh, r.e2e, r.cmd) == 0
  {
    var r := l.regs[id];
    var l' := Step(l, Answers(r.hbh, r.e2e, r.cmd));
    StepKeeps(l, Answers(r.hbh, r.e2e, r.cmd));
    assert Chances(l'.table, r.hbh, r.e2e, r.cmd) == 0;
    AnswerResolvesAtMostTwice(l', later, r.hbh, r.e2e, r.cmd);
  }

  // ----- fresh keys -----

  ghost predicate DistinctKeys(regs: seq<Registration>) {
    forall i, j :: 0 <= i < j < |regs| ==> regs[i].hbh != regs[j].hbh
  }

  ghost predicate NoneReplaced(l: Ledger) {
    forall id :: 0 <= id < |l.fates| ==> Replaced !in l.fates[id]
  }

  /** A registration under a key no pending transaction has replaces nothing. */
  lemma FreshKeyReplacesNone(l: Ledger, ev: Event)
    requires Inv(l) && NoneReplaced(l)
    requires ev.Registers? ==> forall id :: 0 <= id < |l.regs| && Live(l, id) ==> l.regs[id].hbh != ev.hbh
    ensures NoneReplaced(Step(l, ev))
  {
    if ev.Registers? && ev.hbh in l.table.pending {
      assert Live(l, l.table.pending[ev.hbh].id);
    }
  }

  /** A registration with an end-to-end identifier no pending transaction has keeps the maps inverse. */
  lemma FreshIdKeepsExact(l: Ledger, ev: Event)
    requires Inv(l) && Exact(l.table)
    requires ev.Registers? ==> forall id :: 0 <= id < |l.regs| && Live(l, id) ==> l.regs[id].e2e != ev.e2e
    ensures Exact(Step(l, ev).table)
  {
    if ev.Registers? {
      forall h | h in l.table.pending && h != ev.hbh
        ensures l.table.pending[h].endToEnd != ev.e2e
      {
        assert Live(l, l.table.pending[h].id);
      }
      RegisterExactIff(l.table, ev.hbh, Pending(|l.regs|, ev.e2e, ev.cmd));
    } else if ev.Clears? {
    } else {
      StepTakesOut(l, ev);
      if Step(l, ev) != l {
        var h, f :| h in l.table.pending && Step(l, ev) == TakenOut(l, h, f);
        RemoveExact(l.table, h);
      }
    }
  }

  lemma StepReplacesNone(l: Ledger, ev: Event)
    requires Inv(l) && NoneReplaced(l) && DistinctKeys(Step(l, ev).regs)
    ensures NoneReplaced(Step(l, ev))
  {
    if ev.Registers? {
      var regs := Step(l, ev).regs;
      forall id | 0 <= id < |l.regs| && Live(l, id)
        ensures l.regs[id].hbh != ev.hbh
      {
        assert regs[id].hbh != regs[|l.regs|].hbh;
      }
    }
    FreshKeyReplacesNone(l, ev);
  }

  /** A run that never reuses a key evicts nothing. */
  lemma {:induction false} DistinctKeysEvictNone(l: Ledger, evs: seq<Event>)
    requires Inv(l) && NoneReplaced(l) && DistinctKeys(Run(l, evs).regs)
    ensures NoneReplaced(Run(l, evs))
    decreases |evs|
  {
    if evs == [] {
    } else {
      hide Inv, Step, NoneReplaced;
      var l' := Step(l, evs[0]);
      StepKeeps(l, evs[0]);
      LedgerOfRun(l', evs[1..]);
      assert DistinctKeys(l'.regs);
      StepReplacesNone(l, evs[0]);
      DistinctKeysEvictNone(l', evs[1..]);
    }
  }
}
