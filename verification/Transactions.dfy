/** The table both endpoints keep (`pending_`, `pendingByE2e_`), one method for each critical section. Every method is a
    step of the ledger, so what the ledger proves of all runs holds for the objects. */
module Transactions {
  import opened Bytes
  import opened Messages
  import opened Table
  import opened Ledger

  class TransactionTable {
    var pending: map<uint32, Pending>
    var pendingByE2e: map<uint32, uint32>
    /** The identity of the next shared object. */
    var nextId: nat
    ghost var ledger: Ledger

    function Value(): Table.State
      reads this
    {
      Table.State(pending, pendingByE2e)
    }

    ghost predicate Valid()
      reads this
    {
      Inv(ledger) && ledger.table == Value() && |ledger.regs| == nextId
    }

    constructor ()
      ensures Valid() && ledger == INIT
    {
      pending, pendingByE2e, nextId, ledger := map[], map[], 0, INIT;
    }

    method Add(hbh: uint32, e2e: uint32, cmd: nat) returns (id: nat)
      requires Valid()
      modifies this
      ensures Valid() && ledger == Step(old(ledger), Registers(hbh, e2e, cmd)) && id == |old(ledger).regs|
    {
      hide Inv;
      StepKeeps(ledger, Registers(hbh, e2e, cmd));
      ledger := Step(ledger, Registers(hbh, e2e, cmd));
      id := nextId;
      nextId := nextId + 1;
      if hbh in pending {
        pendingByE2e := pendingByE2e - {pending[hbh].endToEnd};
      }
      pending := pending[hbh := Pending(id, e2e, cmd)];
      pendingByE2e := pendingByE2e[e2e := hbh];
    }

    /** The roll-back of transaction `id`, which was registered under these keys. */
    method Withdraw(hbh: uint32, e2e: uint32, id: nat)
      requires Valid() && id < |ledger.regs| && ledger.regs[id].hbh == hbh && ledger.regs[id].e2e == e2e
      modifies this
      ensures Valid() && ledger == Step(old(ledger), Refused(id))
    {
      hide Inv;
      StepKeeps(ledger, Refused(id));
      ledger := Step(ledger, Refused(id));
      if hbh in pending && pending[hbh].id == id {
        pendingByE2e := pendingByE2e - {e2e};
        pending := pending - {hbh};
      }
    }

    /** The expiry handler of transaction `timer`. The timeout callbacks of the returned transaction run, if any. */
    method TimeOut(hbh: uint32, ghost timer: nat) returns (expired: Option<Pending>)
      requires Valid() && timer < |ledger.regs| && ledger.regs[timer].hbh == hbh
      modifies this
      ensures Valid() && ledger == Step(old(ledger), Expiry(timer))
      ensures expired == if hbh in old(pending) then Some(old(pending)[hbh]) else None
    {
      hide Inv;
      StepKeeps(ledger, Expiry(timer));
      ledger := Step(ledger, Expiry(timer));
      if hbh !in pending {
        return None;
      }
      var req := pending[hbh];
      pendingByE2e := pendingByE2e - {req.endToEnd};
      pending := pending - {hbh};
      expired := Some(req);
    }

    /** The transaction whose response callback runs, if any. */
    method Answer(hbh: uint32, e2e: uint32, cmd: nat) returns (resolved: Option<Pending>)
      requires Valid()
      modifies this
      ensures Valid() && ledger == Step(old(ledger), Answers(hbh, e2e, cmd))
      ensures resolved == match Lookup(old(Value()), hbh, e2e, cmd)
                          case Some(h) => Some(old(pending)[h])
                          case None => None
    {
      hide Inv;
      StepKeeps(ledger, Answers(hbh, e2e, cmd));
      ledger := Step(ledger, Answers(hbh, e2e, cmd));
      var it: Option<uint32> := None;
      if hbh in pending {
        it := Some(hbh);
      }
      if it.None? || pending[it.value].commandCode != cmd {
        it := None;
        if e2e != 0 {
          if e2e in pendingByE2e {
            var h := pendingByE2e[e2e];
            if h in pending && pending[h].commandCode == cmd {
              it := Some(h);
            }
          }
        }
      }
      if it.None? {
        return None;
      }
      var req := pending[it.value];
      pendingByE2e := pendingByE2e - {req.endToEnd};
      pending := pending - {it.value};
      resolved := Some(req);
    }

    method Clear()
      requires Valid()
      modifies this
      ensures Valid() && ledger == Step(old(ledger), Clears)
    {
      hide Inv;
      StepKeeps(ledger, Clears);
      ledger := Step(ledger, Clears);
      pending := map[];
      pendingByE2e := map[];
    }
  }
}
