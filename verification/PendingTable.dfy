/**
 * One end's id counter and pending-waiter table as the object the two programs keep, updated in
 * place. Each critical section is one method, which keeps the table in order; the modules of the
 * link interleave them.
 */
module PendingTables {
  import opened Rpc
  import opened RpcInvariant

  class PendingTable {
    const side: Side
    var nextId: int
    var pending: map<int, nat>
    var calls: map<nat, Call>
    ghost var sent: multiset<Copy>
    ghost var delivered: multiset<Copy>

    ghost function Value(): Table reads this { Table(nextId, pending, calls) }

    ghost predicate Valid() reads this { TableOk(Value(), side, sent, delivered) }

    constructor (side: Side)
      ensures this.side == side && Valid() && sent == multiset{} && delivered == multiset{}
      ensures Value() == TableOf(Start(), side)
    {
      this.side := side;
      nextId := if side == Client then CLIENT_FIRST_ID else SERVER_FIRST_ID;
      pending, calls, sent, delivered := map[], map[], multiset{}, multiset{};
    }

    /** A new call gets an id no call has had before. */
    method TakeId(call: nat) returns (id: int)
      requires Valid() && call !in calls
      modifies this
      ensures Valid() && Value() == Allocate(old(Value()), call)
      ensures sent == old(sent) && delivered == old(delivered)
      ensures id !in old(pending) && forall c :: c in old(calls) ==> old(calls)[c].id < id
      ensures calls[call].id == id
    {
      AllocateOk(Value(), side, sent, delivered, call);
      IdsAreBelow(Value());
      id := nextId;
      nextId := nextId + 1;
      calls := calls[call := Call(id, Allocated)];
    }

    lemma IdsAreBelow(t: Table)
      requires TableOk(t, side, sent, delivered)
      ensures t.nextId !in t.pending && forall c :: c in t.calls ==> t.calls[c].id < t.nextId
    {
      assert t.nextId in t.pending ==> WaiterOk(t, t.nextId);
      assert forall c :: c in t.calls ==> CallOk(t, side, delivered, c);
    }

    method Insert(call: nat)
      requires Valid() && HasPhase(Value(), call, Allocated)
      modifies this
      ensures Valid() && Value() == Register(old(Value()), call)
      ensures sent == old(sent) && delivered == old(delivered)
      ensures pending == old(pending)[old(calls)[call].id := call]
    {
      RegisterOk(Value(), side, sent, delivered, call);
      pending := pending[calls[call].id := call];
      calls := calls[call := calls[call].(phase := Registered)];
    }

    /** The outbox took the request; a waiter dropped meanwhile is noticed only now. */
    method Await(call: nat)
      requires Valid() && HasPhase(Value(), call, Registered)
      modifies this
      ensures Valid() && Value() == Sent(old(Value()), call)
      ensures sent == old(sent) + multiset{Copy(side, old(calls)[call].id, call)} && delivered == old(delivered)
    {
      SentOk(Value(), side, sent, delivered, call);
      sent := sent + multiset{Copy(side, calls[call].id, call)};
      calls := calls[call := calls[call].(phase := if calls[call].id in pending then Waiting else Closed)];
    }

    /** The outbox was closed: the server withdraws its waiter, the client leaves it. */
    method GiveUp(call: nat)
      requires Valid() && HasPhase(Value(), call, Registered)
      modifies this
      ensures Valid() && HasPhase(Value(), call, Failed)
      ensures sent == old(sent) && delivered == old(delivered) && nextId == old(nextId)
      ensures pending == if side == Client then old(pending) else old(pending) - {old(calls)[call].id}
      ensures calls == old(calls)[call := old(calls)[call].(phase := Failed)]
    {
      FailOk(Value(), side, sent, delivered, call, side == Client);
      if side == Server {
        pending := pending - {calls[call].id};
      }
      calls := calls[call := calls[call].(phase := Failed)];
    }

    /**
     * A response is claimed exactly when its id is pending, whatever else it carries, and an
     * unclaimed one changes nothing. A response to a sent request wakes that request's own caller.
     */
    method DeliverResponse(copy: Copy) returns (claimed: bool)
      requires Valid()
      modifies this
      ensures Value() == Deliver(old(Value()), copy) && sent == old(sent)
      ensures claimed <==> copy.id in old(pending)
      ensures copy.id !in pending
      ensures !claimed ==> Value() == old(Value()) && Valid()
      ensures copy in sent && copy.side == side ==> Valid() && delivered == old(delivered) + multiset{copy}
      ensures copy in sent && copy.side == side && claimed ==>
        HasPhase(old(Value()), copy.call, Waiting) && HasPhase(Value(), copy.call, Resolved(copy.call))
    {
      assert copy.id in pending ==> WaiterOk(Value(), copy.id);
      claimed := copy.id in pending;
      if copy in sent && copy.side == side {
        DeliverOk(Value(), side, sent, delivered, copy);
        if claimed {
          ResponseMeetsOwnWaiter(Value(), side, sent, delivered, copy);
        }
        delivered := delivered + multiset{copy};
      }
      if claimed {
        var waiter := pending[copy.id];
        pending := pending - {copy.id};
        calls := calls[waiter := calls[waiter].(phase := Resolved(copy.call))];
      }
    }

    /** The reader's last act: every caller still waiting is told the transport closed. */
    method DropAll()
      requires Valid()
      modifies this
      ensures Valid() && Value() == Clear(old(Value())) && pending == map[]
      ensures sent == old(sent) && delivered == old(delivered)
      ensures forall c :: c in calls ==> calls[c].phase != Waiting
    {
      ClearOk(Value(), side, sent, delivered);
      assert forall c :: c in calls ==> CallOk(Value(), side, delivered, c);
      calls := map c | c in calls ::
        if calls[c].phase == Waiting && calls[c].id in pending then calls[c].(phase := Closed) else calls[c];
      pending := map[];
    }
  }
}
