/** The table of pending transactions and its end-to-end index (RFC 6733, sections 3, 6.2 and 6.2.1).
    `DiameterClient` and `DiameterServer` run the same algorithm; each critical section is one operation. */
module Table {
  import opened Bytes
  import opened Messages

  /** A registered transaction. `id` stands for the identity of the shared object: a fresh number for each. */
  datatype Pending = Pending(id: nat, endToEnd: uint32, commandCode: nat)

  /** `pending` maps hop-by-hop to transaction, `byE2e` maps end-to-end to hop-by-hop. */
  datatype State = State(pending: map<uint32, Pending>, byE2e: map<uint32, uint32>)

  const EMPTY: State := State(map[], map[])

  // ----- the critical sections -----

  /** Takes the transaction at `hbh` out of both maps. */
  function Remove(t: State, hbh: uint32): State
    requires hbh in t.pending
  {
    State(t.pending - {hbh}, t.byE2e - {t.pending[hbh].endToEnd})
  }

  /** The newest registration wins; the index must not keep pointing at a replaced entry. */
  function Register(t: State, hbh: uint32, p: Pending): State {
    var index := if hbh in t.pending then t.byE2e - {t.pending[hbh].endToEnd} else t.byE2e;
    State(t.pending[hbh := p], index[p.endToEnd := hbh])
  }

  /** After a refused write: only if the same transaction is still registered. */
  function RollBack(t: State, hbh: uint32, p: Pending): State {
    if hbh in t.pending && t.pending[hbh].id == p.id
    then State(t.pending - {hbh}, t.byE2e - {p.endToEnd})
    else t
  }

  /** The expiry handler looks up by hop-by-hop, not by identity. */
  function Expire(t: State, hbh: uint32): State {
    if hbh in t.pending then Remove(t, hbh) else t
  }

  /** The key of the transaction an answer resolves: hop-by-hop with the command, then the end-to-end index. */
  function Lookup(t: State, hbh: uint32, e2e: uint32, cmd: nat): Option<uint32> {
    if hbh in t.pending && t.pending[hbh].commandCode == cmd then Some(hbh)
    else if e2e != 0 && e2e in t.byE2e && t.byE2e[e2e] in t.pending && t.pending[t.byE2e[e2e]].commandCode == cmd
    then Some(t.byE2e[e2e])
    else None
  }

  function Resolve(t: State, hbh: uint32, e2e: uint32, cmd: nat): State {
    match Lookup(t, hbh, e2e, cmd)
    case Some(h) => Remove(t, h)
    case None => t
  }

  // ----- what the index promises -----

  /** No index entry dangles or names another transaction. */
  ghost predicate Sound(t: State) {
    forall e :: e in t.byE2e ==> t.byE2e[e] in t.pending && t.pending[t.byE2e[e]].endToEnd == e
  }

  /** Every pending transaction is indexed. */
  ghost predicate Complete(t: State) {
    forall h :: h in t.pending ==> t.pending[h].endToEnd in t.byE2e && t.byE2e[t.pending[h].endToEnd] == h
  }

  /** The two maps are inverse to each other. */
  ghost predicate Exact(t: State) { Sound(t) && Complete(t) }

  ghost predicate DistinctE2e(t: State) {
    forall h, k :: h in t.pending && k in t.pending && t.pending[h].endToEnd == t.pending[k].endToEnd ==> h == k
  }

  /** No other pending transaction uses the end-to-end identifier. */
  ghost predicate E2eFree(t: State, hbh: uint32, e2e: uint32) {
    forall h :: h in t.pending && h != hbh ==> t.pending[h].endToEnd != e2e
  }

  /** Soundness survives registration and removal, whatever identifiers collide. */
  lemma RegisterSound(t: State, hbh: uint32, p: Pending)
    requires Sound(t)
    ensures Sound(Register(t, hbh, p))
  {
  }

  lemma RemoveSound(t: State, hbh: uint32)
    requires Sound(t) && hbh in t.pending
    ensures Sound(Remove(t, hbh))
  {
  }

  lemma RemoveExact(t: State, hbh: uint32)
    requires Exact(t) && hbh in t.pending
    ensures Exact(Remove(t, hbh))
  {
  }

  /** A registration keeps the maps inverse exactly when its end-to-end identifier is free. */
  lemma RegisterExactIff(t: State, hbh: uint32, p: Pending)
    requires Exact(t)
    ensures Exact(Register(t, hbh, p)) <==> E2eFree(t, hbh, p.endToEnd)
  {
    var r := Register(t, hbh, p);
    if Exact(r) {
      forall h | h in t.pending && h != hbh
        ensures t.pending[h].endToEnd != p.endToEnd
      {
        assert r.pending[h] == t.pending[h];
      }
    }
    if E2eFree(t, hbh, p.endToEnd) {
      forall h | h in r.pending
        ensures r.pending[h].endToEnd in r.byE2e && r.byE2e[r.pending[h].endToEnd] == h
      {
      }
    }
  }

  lemma ExactIsDistinct(t: State)
    requires Exact(t)
    ensures DistinctE2e(t)
  {
  }

  // ----- the index against a scan of the pending transactions -----

  /** What a scan without an index accepts: first by (hop-by-hop, command), else by (non-zero end-to-end, command). */
  ghost predicate ScanHit(t: State, hbh: uint32, e2e: uint32, cmd: nat, h: uint32) {
    && h in t.pending
    && t.pending[h].commandCode == cmd
    && (h == hbh
        || (!(hbh in t.pending && t.pending[hbh].commandCode == cmd) && e2e != 0 && t.pending[h].endToEnd == e2e))
  }

  /** Whatever collided before, the fallback never hits a wrong transaction. */
  lemma LookupSound(t: State, hbh: uint32, e2e: uint32, cmd: nat, h: uint32)
    requires Sound(t) && Lookup(t, hbh, e2e, cmd) == Some(h)
    ensures ScanHit(t, hbh, e2e, cmd, h)
  {
  }

  /** The index entry of the transaction points at it. */
  predicate Indexed(t: State, h: uint32) {
    && h in t.pending
    && t.pending[h].endToEnd in t.byE2e && t.byE2e[t.pending[h].endToEnd] == h
  }

  /** In every reachable table, whatever collided: the lookup finds the transaction under the hop-by-hop key if its
      command matches, and otherwise exactly the scan's hits that are indexed. */
  lemma LookupIsIndexedScan(t: State, hbh: uint32, e2e: uint32, cmd: nat, h: uint32)
    requires Sound(t)
    ensures Lookup(t, hbh, e2e, cmd) == Some(h) <==> ScanHit(t, hbh, e2e, cmd, h) && (h == hbh || Indexed(t, h))
  {
  }

  /** With inverse maps the index finds exactly what the scan finds. */
  lemma LookupIsScan(t: State, hbh: uint32, e2e: uint32, cmd: nat, h: uint32)
    requires Exact(t)
    ensures Lookup(t, hbh, e2e, cmd) == Some(h) <==> ScanHit(t, hbh, e2e, cmd, h)
  {
  }

  /** A refused, uninterrupted send restores both maps exactly when its identifiers were fresh in both. */
  lemma RefusedSendRestoresIff(t: State, hbh: uint32, p: Pending)
    ensures RollBack(Register(t, hbh, p), hbh, p) == t <==> hbh !in t.pending && p.endToEnd !in t.byE2e
  {
    var r := RollBack(Register(t, hbh, p), hbh, p);
    assert hbh !in r.pending && p.endToEnd !in r.byE2e;
    if hbh !in t.pending && p.endToEnd !in t.byE2e {
      assert r.pending == t.pending;
      assert r.byE2e == t.byE2e;
    }
  }
}
