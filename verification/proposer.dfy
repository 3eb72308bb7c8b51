/** The proposer's object (proposer.c): a value queue and two hash tables, updated in place. */
module Proposers {
  import opened PaxosTypes
  import opened CArrays
  import opened KHashMap
  import opened InstanceTables
  import opened ProposerTables
  import P = ProposerSpec
  import T = Timeouts

  class Proposer {
    const id: nat
    const acceptors: nat
    const values: CArray<Value>
    var maxTrimIid: nat
    var nextPrepareIid: nat
    const prepares: Table
    const accepts: Table

    /** The queue and the tables are sound and share nothing. */
    ghost predicate Parts()
      reads values, values.Repr, prepares, prepares.Repr, accepts, accepts.Repr
    {
      && values.Valid() && prepares.Valid() && accepts.Valid()
      && values.Repr !! prepares.Repr && values.Repr !! accepts.Repr && prepares.Repr !! accepts.Repr
      && (this as object) !in values.Repr + prepares.Repr + accepts.Repr
    }

    ghost function State(): P.Proposer
      requires values.Valid()
      reads this, values, values.Repr, prepares, accepts
    {
      P.Proposer(id, acceptors, values.Contents(), maxTrimIid, nextPrepareIid, prepares.M, accepts.M)
    }

    ghost predicate Valid()
      reads this, values, values.Repr, prepares, prepares.Repr, accepts, accepts.Repr
      ensures Valid() ==> values.Valid() && P.TablesOk(State())
      ensures Valid() ==> (this as object) !in values.Repr && (this as object) !in prepares.Repr
                          && (this as object) !in accepts.Repr
    {
      Parts() && P.TablesOk(State())
    }

    /** Whatever was added to the proposer's parts is new. */
    twostate predicate Grown()
      reads values, prepares, accepts
    {
      && fresh(values.Repr - old(values.Repr))
      && fresh(prepares.Repr - old(prepares.Repr))
      && fresh(accepts.Repr - old(accepts.Repr))
    }

    constructor (id: nat, acceptors: nat)
      ensures Valid() && State() == P.Proposer(id, acceptors, [], 0, 0, map[], map[])
      ensures fresh(values.Repr) && fresh(prepares.Repr) && fresh(accepts.Repr)
    {
      this.id, this.acceptors, maxTrimIid, nextPrepareIid := id, acceptors, 0, 0;
      values := new CArray<Value>(128);
      prepares := new KHash<P.Instance>();
      accepts := new KHash<P.Instance>();
    }

    method Propose(v: Value)
      requires Valid()
      modifies values.Repr
      ensures Valid() && fresh(values.Repr - old(values.Repr))
      ensures prepares.Repr == old(prepares.Repr) && accepts.Repr == old(accepts.Repr)
      ensures State() == P.Propose(old(State()), v)
    {
      hide KHash.Valid;
      values.PushBack(v);
    }

    method PreparedCount() returns (n: nat)
      requires Valid()
      ensures n == |State().prepares|
    {
      prepares.Arrays();
      n := prepares.size;
    }

    /** The next instance may be set to any that keeps the pending ones behind it. */
    method SetInstanceId(iid: nat)
      requires Valid() && P.TablesOk(State().(nextPrepareIid := iid))
      modifies this`nextPrepareIid
      ensures Valid() && State() == old(State()).(nextPrepareIid := iid)
    {
      nextPrepareIid := iid;
    }

    /** Adds an instance to the prepare table. */
    method AddPrepare(inst: P.Instance)
      requires Parts() && |prepares.M| < MAX_BUCKETS && inst.iid !in prepares.M
      modifies prepares.Repr
      ensures Parts() && fresh(prepares.Repr - old(prepares.Repr))
      ensures values.Repr == old(values.Repr) && accepts.Repr == old(accepts.Repr)
      ensures State() == old(State()).(prepares := old(prepares.M)[inst.iid := inst])
    {
      hide KHash.Valid, CArray.Valid;
      PutNew(prepares, inst.iid, inst);
    }

    method Prepare(now: int) returns (out: Message)
      requires Valid() && |State().prepares| < MAX_BUCKETS
      modifies this`nextPrepareIid, prepares.Repr
      ensures Valid() && fresh(prepares.Repr - old(prepares.Repr))
      ensures values.Repr == old(values.Repr) && accepts.Repr == old(accepts.Repr)
      ensures (State(), out) == P.OpenInstance(old(State()), now)
    {
      OpenKeepsTables(State(), now);
      TablesKeyed(State());
      hide Parts, P.TablesOk, P.OpenInstance;
      out := Open(now);
    }

    method Open(now: int) returns (out: Message)
      requires Parts() && |prepares.M| < MAX_BUCKETS && nextPrepareIid + 1 !in prepares.M
      modifies this`nextPrepareIid, prepares.Repr
      ensures Parts() && fresh(prepares.Repr - old(prepares.Repr))
      ensures values.Repr == old(values.Repr) && accepts.Repr == old(accepts.Repr)
      ensures (State(), out) == P.OpenInstance(old(State()), now)
    {
      hide Parts;
      Advance();
      var inst := P.Instance(nextPrepareIid, P.NextBallot(id, 0), None, None, 0, {}, now);
      AddPrepare(inst);
      out := Message.Prepare(inst.iid, inst.ballot);
    }

    /** `++(p->next_prepare_iid)`. */
    method Advance()
      requires Parts()
      modifies this`nextPrepareIid
      ensures Parts() && State() == old(State()).(nextPrepareIid := old(nextPrepareIid) + 1)
      ensures values.Repr == old(values.Repr) && prepares.Repr == old(prepares.Repr) && accepts.Repr == old(accepts.Repr)
    {
      nextPrepareIid := nextPrepareIid + 1;
    }

    method ReceivePromise(m: Message, from: nat, now: int) returns (out: Option<Message>)
      requires Valid() && m.Promise?
      modifies prepares.Repr
      ensures Valid() && prepares.Repr == old(prepares.Repr)
      ensures values.Repr == old(values.Repr) && accepts.Repr == old(accepts.Repr)
      ensures (State(), out) == P.ReceivePromise(old(State()), m, from, now)
    {
      hide KHash.Valid, CArray.Valid;
      ghost var before := State();
      PromiseKeepsTables(before, m, from, now);
      var found := Lookup(prepares, m.iid);
      if found.None? {
        return None;
      }
      var inst := found.value;
      if m.ballot < inst.ballot {
        return None;
      }
      if m.ballot > inst.ballot {
        inst := P.Preempt(id, inst, now);
        Write(prepares, m.iid, inst);
        return Some(Message.Prepare(inst.iid, inst.ballot));
      }
      if from in inst.quorum {
        return None;
      }
      inst := inst.(quorum := inst.quorum + {from});
      if |m.value| > 0 && m.valueBallot > inst.valueBallot {
        inst := inst.(valueBallot := m.valueBallot, promisedValue := Some(m.value));
      }
      Write(prepares, m.iid, inst);
      return None;
    }

    method MoveToAccepts(inst: P.Instance)
      requires Parts() && |accepts.M| < MAX_BUCKETS
      requires inst.iid in prepares.M && inst.iid !in accepts.M
      modifies prepares.Repr, accepts.Repr
      ensures Parts() && fresh(accepts.Repr - old(accepts.Repr))
      ensures prepares.Repr == old(prepares.Repr) && values.Repr == old(values.Repr)
      ensures State() == old(State()).(prepares := old(prepares.M) - {inst.iid},
                                       accepts := old(accepts.M)[inst.iid := inst.(quorum := {})])
    {
      hide KHash.Valid, CArray.Valid;
      MoveInstance(prepares, accepts, inst);
    }

    method MoveToPrepares(inst: P.Instance)
      requires Parts() && |prepares.M| < MAX_BUCKETS
      requires inst.iid in accepts.M && inst.iid !in prepares.M
      modifies prepares.Repr, accepts.Repr
      ensures Parts() && fresh(prepares.Repr - old(prepares.Repr))
      ensures values.Repr == old(values.Repr) && accepts.Repr == old(accepts.Repr)
      ensures State() == old(State()).(accepts := old(accepts.M) - {inst.iid},
                                       prepares := old(prepares.M)[inst.iid := inst.(quorum := {})])
    {
      hide KHash.Valid, CArray.Valid;
      MoveInstance(accepts, prepares, inst);
    }

    /** Stores a changed instance back into the prepare table. */
    method WritePrepare(inst: P.Instance)
      requires Parts() && inst.iid in prepares.M
      modifies prepares.Repr
      ensures Parts() && prepares.Repr == old(prepares.Repr)
      ensures values.Repr == old(values.Repr) && accepts.Repr == old(accepts.Repr)
      ensures State() == old(State()).(prepares := old(prepares.M)[inst.iid := inst])
    {
      hide KHash.Valid, CArray.Valid;
      Write(prepares, inst.iid, inst);
    }

    /** An instance without a value of its own takes the next client value, if there is one. */
    method TakeValue(inst: P.Instance) returns (inst': P.Instance)
      requires Parts()
      modifies values
      ensures Parts() && values.Repr == old(values.Repr)
      ensures prepares.Repr == old(prepares.Repr) && accepts.Repr == old(accepts.Repr)
      ensures var pops := inst.value.None? && old(State()).values != [];
              && inst' == (if pops then inst.(value := Some(old(State()).values[0])) else inst)
              && State() == old(State()).(values := if pops then old(State()).values[1..] else old(State()).values)
    {
      hide KHash.Valid, CArray.Valid;
      inst' := inst;
      if inst.value.None? {
        var v := values.PopFront();
        inst' := inst.(value := v);
      }
    }

    method Accept() returns (out: Option<Message>)
      requires Valid()
      requires State().prepares != map[] ==> |State().accepts| < MAX_BUCKETS
      modifies values, prepares.Repr, accepts.Repr
      ensures Valid() && fresh(accepts.Repr - old(accepts.Repr))
      ensures values.Repr == old(values.Repr) && prepares.Repr == old(prepares.Repr)
      ensures (State(), out) == P.TryAccept(old(State()))
    {
      ghost var before := State();
      AcceptKeepsTables(before);
      TablesKeyed(before);
      hide Parts, P.TablesOk;
      var found := SmallestIn(prepares);
      out := None;
      if found.Some? && P.QuorumReached(acceptors, found.value) {
        out := AcceptFrom(found.value);
      }
    }

    /** `proposer_accept` once it has found its instance and the quorum. */
    method AcceptFrom(found: P.Instance) returns (out: Option<Message>)
      requires Parts() && |accepts.M| < MAX_BUCKETS
      requires found.iid in State().prepares && found.iid !in State().accepts
      modifies values, prepares.Repr, accepts.Repr
      ensures Parts() && fresh(accepts.Repr - old(accepts.Repr))
      ensures values.Repr == old(values.Repr) && prepares.Repr == old(prepares.Repr)
      ensures (State(), out) == P.AcceptWith(old(State()), found.iid, found)
    {
      hide Parts;
      out := None;
      var inst := TakeValue(found);
      if P.HasSomeValue(inst) {
        MoveToAccepts(inst);
        out := Some(P.ToAccept(inst));
      }
    }

    /** A quorum of acks: the instance is done, its own value goes back to the queue if another was accepted. */
    method Close(iid: nat, inst: P.Instance)
      requires Parts() && iid in accepts.M
      modifies values.Repr, accepts.Repr
      ensures Parts() && fresh(values.Repr - old(values.Repr))
      ensures prepares.Repr == old(prepares.Repr) && accepts.Repr == old(accepts.Repr)
      ensures State() == old(State()).(
                           accepts := old(accepts.M) - {iid},
                           values := if P.LostItsValue(inst) then old(State()).values + [inst.value.value]
                                     else old(State()).values)
    {
      hide KHash.Valid, CArray.Valid;
      if P.LostItsValue(inst) {
        values.PushBack(inst.value.value);
      }
      Delete(accepts, iid);
    }

    method ReceiveAccepted(m: Message, from: nat) returns (counted: bool)
      requires Valid() && m.Accepted?
      modifies values.Repr, accepts.Repr
      ensures Valid() && fresh(values.Repr - old(values.Repr))
      ensures prepares.Repr == old(prepares.Repr) && accepts.Repr == old(accepts.Repr)
      ensures (State(), counted) == P.ReceiveAccepted(old(State()), m, from)
    {
      hide KHash.Valid, CArray.Valid;
      ghost var before := State();
      AcceptedKeepsTables(before, m, from);
      var found := Lookup(accepts, m.iid);
      if found.None? {
        return false;
      }
      var inst := found.value;
      if m.ballot != inst.ballot || from in inst.quorum {
        return false;
      }
      inst := inst.(quorum := inst.quorum + {from});
      if P.QuorumReached(acceptors, inst) {
        Close(m.iid, inst);
      } else {
        Write(accepts, m.iid, inst);
      }
      return true;
    }

    /** Moves an instance back to be prepared at the next ballot. */
    method PrepareAgain(inst: P.Instance, now: int) returns (inst': P.Instance)
      requires Parts() && |prepares.M| < MAX_BUCKETS
      requires inst.iid in accepts.M && inst.iid !in prepares.M
      modifies prepares.Repr, accepts.Repr
      ensures Parts() && fresh(prepares.Repr - old(prepares.Repr))
      ensures values.Repr == old(values.Repr) && accepts.Repr == old(accepts.Repr)
      ensures inst' == P.Preempt(id, inst, now)
      ensures State() == old(State()).(accepts := old(accepts.M) - {inst.iid},
                                       prepares := old(prepares.M)[inst.iid := inst'])
    {
      hide Parts;
      MoveToPrepares(inst);
      inst' := P.Preempt(id, inst, now);
      WritePrepare(inst');
      assert prepares.M == old(prepares.M)[inst.iid := inst'];
    }

    method ReceivePreempted(m: Message, now: int) returns (out: Option<Message>)
      requires Valid() && m.Preempted?
      requires State().accepts != map[] ==> |State().prepares| < MAX_BUCKETS
      modifies prepares.Repr, accepts.Repr
      ensures Valid() && fresh(prepares.Repr - old(prepares.Repr))
      ensures values.Repr == old(values.Repr) && accepts.Repr == old(accepts.Repr)
      ensures (State(), out) == P.ReceivePreempted(old(State()), m, now)
    {
      hide KHash.Valid, CArray.Valid;
      ghost var before := State();
      PreemptedKeepsTables(before, m, now);
      TablesKeyed(before);
      hide P.TablesOk;
      var found := Lookup(accepts, m.iid);
      if found.None? {
        return None;
      }
      var inst := found.value;
      if m.ballot <= inst.ballot {
        return None;
      }
      inst := PrepareAgain(inst, now);
      return Some(Message.Prepare(inst.iid, inst.ballot));
    }

    method TrimPrepares(iid: nat) returns (ghost order: seq<nat>)
      requires Parts() && Keyed(State().prepares)
      modifies values.Repr, prepares.Repr
      ensures Parts() && fresh(values.Repr - old(values.Repr))
      ensures prepares.Repr == old(prepares.Repr) && accepts.Repr == old(accepts.Repr)
      ensures P.IsScan(order, P.Trimmed(old(prepares.M), iid).Keys) && P.Listed(order, old(prepares.M))
      ensures State() == old(State()).(prepares := P.Above(old(prepares.M), iid),
                                       values := old(State()).values + P.ValuesOf(old(prepares.M), order))
    {
      hide KHash.Valid, CArray.Valid;
      order := TrimInstances(values, prepares, iid);
    }

    method TrimAccepts(iid: nat) returns (ghost order: seq<nat>)
      requires Parts() && Keyed(State().accepts)
      modifies values.Repr, accepts.Repr
      ensures Parts() && fresh(values.Repr - old(values.Repr))
      ensures prepares.Repr == old(prepares.Repr) && accepts.Repr == old(accepts.Repr)
      ensures P.IsScan(order, P.Trimmed(old(accepts.M), iid).Keys) && P.Listed(order, old(accepts.M))
      ensures State() == old(State()).(accepts := P.Above(old(accepts.M), iid),
                                       values := old(State()).values + P.ValuesOf(old(accepts.M), order))
    {
      hide KHash.Valid, CArray.Valid;
      order := TrimInstances(values, accepts, iid);
    }

    /** Trims both tables unless the report is older than the last; the orders are those of their buckets. */
    method ReceiveAcceptorState(trimIid: nat) returns (ghost order1: seq<nat>, ghost order2: seq<nat>)
      requires Valid()
      modifies this`maxTrimIid, this`nextPrepareIid, values.Repr, prepares.Repr, accepts.Repr
      ensures Valid() && fresh(values.Repr - old(values.Repr))
      ensures prepares.Repr == old(prepares.Repr) && accepts.Repr == old(accepts.Repr)
      ensures P.IsScan(order1, P.Trimmed(old(State()).prepares, trimIid).Keys)
      ensures P.IsScan(order2, P.Trimmed(old(State()).accepts, trimIid).Keys)
      ensures P.Listed(order1, old(State()).prepares) && P.Listed(order2, old(State()).accepts)
      ensures State() == P.ReceiveAcceptorState(old(State()), trimIid, order1, order2)
    {
      ghost var before := State();
      TablesKeyed(before);
      hide Parts, P.TablesOk, P.IsScan, P.Listed, P.ValuesOf, Keyed;
      if maxTrimIid > trimIid {
        order1 := ScanOf(before.prepares, trimIid);
        order2 := ScanOf(before.accepts, trimIid);
        return;
      }
      maxTrimIid := trimIid;
      if nextPrepareIid < trimIid {
        nextPrepareIid := trimIid;
      }
      order1 := TrimPrepares(trimIid);
      order2 := TrimAccepts(trimIid);
      StateKeepsTables(before, trimIid, order1, order2);
    }

    method PassPrepares(c: T.Clock) returns (iids: seq<nat>, returned: seq<P.Instance>)
      requires Parts() && Keyed(State().prepares) && T.CanEnd(c, State().prepares)
      modifies prepares.Repr
      ensures Parts() && values.Repr == old(values.Repr)
      ensures prepares.Repr == old(prepares.Repr) && accepts.Repr == old(accepts.Repr)
      ensures P.IsScan(iids, T.OverdueKeys(c, old(prepares.M))) && P.Listed(iids, old(prepares.M))
      ensures returned == T.Fetched(old(prepares.M), iids)
      ensures State() == old(State()).(prepares := T.Stamped(c, old(prepares.M), iids))
    {
      hide KHash.Valid, CArray.Valid, P.IsScan, P.Listed, T.Stamped, T.OverdueKeys, T.Fetched, T.CanEnd, Keyed;
      iids, returned := T.Pass(c, prepares);
    }

    method PassAccepts(c: T.Clock) returns (iids: seq<nat>, returned: seq<P.Instance>)
      requires Parts() && Keyed(State().accepts) && T.CanEnd(c, State().accepts)
      modifies accepts.Repr
      ensures Parts() && values.Repr == old(values.Repr)
      ensures prepares.Repr == old(prepares.Repr) && accepts.Repr == old(accepts.Repr)
      ensures P.IsScan(iids, T.OverdueKeys(c, old(accepts.M))) && P.Listed(iids, old(accepts.M))
      ensures returned == T.Fetched(old(accepts.M), iids)
      ensures State() == old(State()).(accepts := T.Stamped(c, old(accepts.M), iids))
    {
      hide KHash.Valid, CArray.Valid, P.IsScan, P.Listed, T.Stamped, T.OverdueKeys, T.Fetched, T.CanEnd, Keyed;
      iids, returned := T.Pass(c, accepts);
    }

    /** Both passes of the timeout iterator; the instances they return are as they were before. */
    method PassBoth(c: T.Clock) returns (iids1: seq<nat>, iids2: seq<nat>,
                                         prepared: seq<P.Instance>, accepted: seq<P.Instance>)
      requires Valid() && T.CanEnd(c, State().prepares) && T.CanEnd(c, State().accepts)
      modifies prepares.Repr, accepts.Repr
      ensures Valid() && values.Repr == old(values.Repr)
      ensures prepares.Repr == old(prepares.Repr) && accepts.Repr == old(accepts.Repr)
      ensures P.IsScan(iids1, T.OverdueKeys(c, old(State()).prepares)) && P.Listed(iids1, old(State()).prepares)
      ensures P.IsScan(iids2, T.OverdueKeys(c, old(State()).accepts)) && P.Listed(iids2, old(State()).accepts)
      ensures prepared == T.Fetched(old(State()).prepares, iids1) && accepted == T.Fetched(old(State()).accepts, iids2)
      ensures State() == old(State()).(prepares := T.Stamped(c, old(State()).prepares, iids1),
                                       accepts := T.Stamped(c, old(State()).accepts, iids2))
    {
      ghost var before := State();
      TablesKeyed(before);
      hide Parts, P.IsScan, P.Listed, P.TablesOk, T.Stamped, T.OverdueKeys, T.Fetched, T.CanEnd, Keyed;
      iids1, prepared := PassPrepares(c);
      iids2, accepted := PassAccepts(c);
      T.StampKeepsTables(c, before, iids1, iids2);
    }
  }
}
