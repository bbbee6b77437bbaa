/** The wrapping identifier counters (`nextHopByHop` per peer, `nextEndToEnd` per process). */
module Identifiers {
  import opened Bytes
  import opened Ledger
  import opened Table

  /** `fetch_add(1)` on a 32-bit atomic. */
  function Next(n: uint32): uint32 { (n + 1) % TWO_TO_THE_32 }

  class Counter {
    var next: uint32

    constructor (seed: uint32)
      ensures next == seed
    {
      next := seed;
    }

    method Draw() returns (n: uint32)
      modifies this
      ensures n == old(next) && next == Next(old(next))
    {
      n := next;
      next := (next + 1) % TWO_TO_THE_32;
    }
  }

  /** The value of the counter after `k` draws. */
  function After(seed: uint32, k: nat): uint32 {
    if k == 0 then seed else Next(After(seed, k - 1))
  }

  lemma AfterIsModular(seed: uint32, k: nat)
    ensures After(seed, k) == (seed + k) % TWO_TO_THE_32
  {
  }

  /** Two draws of one counter give the same identifier exactly when a whole number of rounds lies between them. */
  lemma DrawsCollideIff(seed: uint32, i: nat, j: nat)
    requires i <= j
    ensures After(seed, i) == After(seed, j) <==> (j - i) % TWO_TO_THE_32 == 0
  {
    AfterIsModular(seed, i);
    AfterIsModular(seed, j);
    var m := TWO_TO_THE_32;
    var x, y := seed + i, seed + j;
    assert x == x / m * m + x % m && y == y / m * m + y % m;
    var q := y / m - x / m;
    assert y - x == q * m + (y % m - x % m);
    if x % m == y % m {
      Multiple(q, m);
    } else if (y - x) % m == 0 {
      var p := (y - x) / m;
      assert y - x == p * m;
      NotBetween(p - q, m, y % m - x % m);
    }
  }

  lemma Multiple(q: int, m: int)
    requires m == TWO_TO_THE_32
    ensures (q * m) % m == 0
  {
  }

  lemma NotBetween(q: int, m: int, d: int)
    requires m == TWO_TO_THE_32 && q * m == d && -m < d < m
    ensures d == 0
  {
  }

  // ----- keys drawn from one counter -----

  function KeyOf(r: Registration, byHop: bool): uint32 { if byHop then r.hbh else r.e2e }

  /** `draws` numbers the draw each registration took its key from; the draws in between went to other messages. */
  predicate Drawn(seed: uint32, draws: seq<nat>, byHop: bool, l: Ledger) {
    && |l.regs| <= |draws|
    && forall id :: 0 <= id < |l.regs| ==> KeyOf(l.regs[id], byHop) == After(seed, draws[id])
  }

  /** A run, of any length, whose registrations draw their keys, while the draw of each transaction that is still
      pending is less than one round back. */
  ghost predicate DrawsYoung(seed: uint32, draws: seq<nat>, byHop: bool, l: Ledger, evs: seq<Event>)
    decreases |evs|
  {
    if evs == [] then true
    else
      && (evs[0].Registers? ==>
            var n := |l.regs|;
            && n < |draws|
            && KeyOf(Registration(evs[0].hbh, evs[0].e2e, evs[0].cmd), byHop) == After(seed, draws[n])
            && forall id :: 0 <= id < n && Live(l, id) ==> draws[id] < draws[n] < draws[id] + TWO_TO_THE_32)
      && DrawsYoung(seed, draws, byHop, Step(l, evs[0]), evs[1..])
  }

  lemma StepDrawn(seed: uint32, draws: seq<nat>, byHop: bool, l: Ledger, evs: seq<Event>)
    requires evs != [] && Drawn(seed, draws, byHop, l) && DrawsYoung(seed, draws, byHop, l, evs)
    ensures Drawn(seed, draws, byHop, Step(l, evs[0]))
  {
    hide After, DrawsYoung, Lookup;
    var ev := evs[0];
    if ev.Registers? {
      YoungHead(seed, draws, byHop, l, evs);
    }
  }

  /** The key of a registration is the key of no pending transaction. */
  lemma YoungHead(seed: uint32, draws: seq<nat>, byHop: bool, l: Ledger, evs: seq<Event>)
    requires evs != [] && evs[0].Registers?
    requires Drawn(seed, draws, byHop, l) && DrawsYoung(seed, draws, byHop, l, evs)
    ensures |l.regs| < |draws|
    ensures var key := KeyOf(Registration(evs[0].hbh, evs[0].e2e, evs[0].cmd), byHop);
            && key == After(seed, draws[|l.regs|])
            && forall id :: 0 <= id < |l.regs| && Live(l, id) ==> KeyOf(l.regs[id], byHop) != key
  {
    hide After, Live;
    forall id | 0 <= id < |l.regs| && Live(l, id)
      ensures KeyOf(l.regs[id], byHop) != KeyOf(Registration(evs[0].hbh, evs[0].e2e, evs[0].cmd), byHop)
    {
      DrawsCollideIff(seed, draws[id], draws[|l.regs|]);
    }
  }

  /** Hop-by-hop identifiers from one counter never evict a pending transaction, however long the run. */
  lemma {:induction false} FreshKeysEvictNone(seed: uint32, draws: seq<nat>, l: Ledger, evs: seq<Event>)
    requires Inv(l) && NoneReplaced(l) && Drawn(seed, draws, true, l) && DrawsYoung(seed, draws, true, l, evs)
    ensures NoneReplaced(Run(l, evs))
    decreases |evs|
  {
    if evs == [] {
    } else {
      StepDrawn(seed, draws, true, l, evs);
      if evs[0].Registers? {
        YoungHead(seed, draws, true, l, evs);
      }
      hide Inv, Step, NoneReplaced, Drawn, After, Live;
      StepKeeps(l, evs[0]);
      FreshKeyReplacesNone(l, evs[0]);
      FreshKeysEvictNone(seed, draws, Step(l, evs[0]), evs[1..]);
    }
  }

  /** End-to-end identifiers from one counter keep the two maps inverse, however long the run. */
  lemma {:induction false} FreshIdsStayExact(seed: uint32, draws: seq<nat>, l: Ledger, evs: seq<Event>)
    requires Inv(l) && Exact(l.table) && Drawn(seed, draws, false, l) && DrawsYoung(seed, draws, false, l, evs)
    ensures AlwaysDistinct(l, evs) && AlwaysExact(l, evs)
    decreases |evs|
  {
    ExactIsDistinct(l.table);
    if evs == [] {
    } else {
      StepDrawn(seed, draws, false, l, evs);
      if evs[0].Registers? {
        YoungHead(seed, draws, false, l, evs);
      }
      hide Inv, Step, Exact, DistinctE2e, Drawn, After, Live;
      StepKeeps(l, evs[0]);
      FreshIdKeepsExact(l, evs[0]);
      FreshIdsStayExact(seed, draws, Step(l, evs[0]), evs[1..]);
    }
  }
}
