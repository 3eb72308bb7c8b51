/** The learner's objects (learner.c, evlearner.c): ack arrays updated in place, the final value a pointer into them. */
module Learners {
  import opened PaxosTypes
  import L = LearnerSpec
  import LP = LearnerProofs

  class Instance {
    var iid: nat
    var lastUpdateBallot: nat
    const acks: array<Option<Record>>
    var final: Option<nat>

    ghost function State(): L.Instance
      reads this, acks
    {
      L.Instance(iid, lastUpdateBallot, acks[..], final)
    }

    constructor (acceptors: nat)
      ensures State() == L.NewInstance(acceptors) && acks.Length == acceptors && fresh(acks)
    {
      iid, lastUpdateBallot, final := 0, 0, None;
      acks := new Option<Record>[acceptors](_ => None);
      new;
      assert acks[..] == L.NewInstance(acceptors).acks;
    }

    /** Counts the acks at the last updated ballot; a majority closes the instance. */
    method HasQuorum() returns (closed: bool)
      modifies this`final
      ensures State() == L.CheckQuorum(old(State()))
      ensures closed <==> final.Some?
    {
      if final.Some? {
        return true;
      }
      var validIndex, count := 0, 0;
      for i := 0 to acks.Length
        invariant count == L.Count(acks[..i], lastUpdateBallot)
        invariant count > 0 ==> validIndex == L.LastIndex(acks[..i], lastUpdateBallot)
      {
        assert acks[..i + 1][..i] == acks[..i];
        if L.Agrees(acks[i], lastUpdateBallot) {
          count := count + 1;
          validIndex := i;
        }
      }
      assert acks[..acks.Length] == acks[..];
      if count >= Majority(acks.Length) {
        final := Some(validIndex);
        return true;
      }
      return false;
    }

    method Update(ack: Record, from: nat)
      requires from < acks.Length
      modifies this, acks
      ensures State() == L.Update(old(State()), ack, from)
    {
      if iid == 0 {
        iid, lastUpdateBallot := ack.iid, ack.ballot;
      }
      var closed := HasQuorum();
      if closed {
        return;
      }
      var prev := acks[from];
      if prev.Some? && prev.value.ballot >= ack.ballot {
        return;
      }
      acks[from] := Some(ack);
      lastUpdateBallot := ack.ballot;
    }
  }

  class Learner {
    var acceptors: nat
    var lateStart: bool
    var currentIid: nat
    var highestIidClosed: nat
    var instances: map<nat, Instance>
    ghost var Repr: set<object>
    ghost var owner: map<object, nat>         // which instance an object belongs to
    ghost var table: map<nat, L.Instance>     // the instances, read as values

    /** Instances and their ack arrays are this learner's own, each belonging to one key. */
    ghost predicate Owned()
      reads this, Repr
    {
      this in Repr && Owns(Repr - {this}, owner, instances, table)
    }

    static ghost predicate Owns(objects: set<object>, owner: map<object, nat>,
                                instances: map<nat, Instance>, table: map<nat, L.Instance>)
      reads objects
    {
      && owner.Keys == objects && table.Keys == instances.Keys
      && forall k :: k in instances ==> Belongs(owner, k, instances[k]) && instances[k].State() == table[k]
    }

    static ghost predicate Belongs(owner: map<object, nat>, k: nat, inst: Instance) {
      && inst in owner && owner[inst] == k
      && inst.acks in owner && owner[inst.acks] == k
    }

    ghost function State(): L.Learner
      reads this
    {
      L.Learner(acceptors, lateStart, currentIid, highestIidClosed, table)
    }

    ghost predicate Valid()
      reads this, Repr
      ensures Valid() ==> this in Repr
    {
      Owned() && L.Shaped(State()) && L.FinalsPoint(State()) && LP.LearnerOk(State())
    }

    constructor (n: nat, catchUp: bool)
      ensures Valid() && State() == L.Learner(n, !catchUp, 1, 1, map[]) && fresh(Repr)
    {
      acceptors, lateStart, currentIid, highestIidClosed := n, !catchUp, 1, 1;
      instances := map[];
      Repr, owner, table := {this}, map[], map[];
    }

    method SetInstanceId(iid: nat)
      requires Valid() && instances == map[] && !lateStart
      modifies this`currentIid, this`highestIidClosed
      ensures Valid() && State() == old(State()).(currentIid := iid + 1, highestIidClosed := iid)
    {
      currentIid, highestIidClosed := iid + 1, iid;
    }

    /** Changing one instance leaves all others alone. */
    twostate lemma OneChanged(iid: nat)
      requires old(Owned()) && iid in instances
      requires instances == old(instances) && owner == old(owner) && Repr == old(Repr)
      requires forall o :: o in Repr - {this, instances[iid], instances[iid].acks} ==> unchanged(o)
      requires table == old(table)[iid := instances[iid].State()]
      ensures Owned()
    {
      forall k | k in instances
        ensures Belongs(owner, k, instances[k]) && instances[k].State() == table[k]
      {
        assert Belongs(owner, k, instances[k]) && Belongs(owner, iid, instances[iid]);
        if k != iid {
          assert {instances[k], instances[k].acks} <= Repr - {this, instances[iid], instances[iid].acks};
          assert instances[k].acks[..] == old(instances[k].acks[..]);
        }
      }
    }

    method GetInstanceOrCreate(iid: nat) returns (inst: Instance)
      requires Owned() && L.Shaped(State())
      modifies this`instances, this`Repr, this`owner, this`table
      ensures Owned() && fresh(Repr - old(Repr)) && iid in instances && inst == instances[iid]
      ensures inst.acks.Length == |table[iid].acks| == acceptors
      ensures table == old(table)[iid := L.Find(old(State()), iid)]
    {
      if iid in instances {
        assert |State().instances[iid].acks| == acceptors;
        assert table == table[iid := table[iid]];
        return instances[iid];
      }
      hide L.NewInstance, L.Shaped;
      inst := new Instance(acceptors);
      Add(iid, inst);
    }

    static lemma OneMore(objects: set<object>, owner: map<object, nat>, instances: map<nat, Instance>,
                         table: map<nat, L.Instance>, iid: nat, inst: Instance)
      requires Owns(objects, owner, instances, table) && iid !in instances && {inst, inst.acks} !! objects
      ensures Owns(objects + {inst, inst.acks}, owner[inst := iid][inst.acks := iid],
                   instances[iid := inst], table[iid := inst.State()])
    {
    }

    method Add(iid: nat, inst: Instance)
      requires Owned() && iid !in instances && {inst, inst.acks} !! Repr
      modifies this`instances, this`Repr, this`owner, this`table
      ensures Owned() && Repr == old(Repr) + {inst, inst.acks} && instances == old(instances)[iid := inst]
      ensures table == old(table)[iid := inst.State()]
    {
      OneMore(Repr - {this}, owner, instances, table, iid, inst);
      hide Owns;
      assert Repr + {inst, inst.acks} - {this} == Repr - {this} + {inst, inst.acks};
      instances := instances[iid := inst];
      Repr := Repr + {inst, inst.acks};
      owner := owner[inst := iid][inst.acks := iid];
      table := table[iid := inst.State()];
    }

    method UpdateInstance(ack: Record, from: nat)
      requires Owned() && ack.iid in instances && from < instances[ack.iid].acks.Length
      modifies Repr - {this}, this`table
      ensures Owned()
      ensures from < |old(table)[ack.iid].acks|
      ensures table == old(table)[ack.iid := L.Update(old(table)[ack.iid], ack, from)]
    {
      hide L.Update;
      var inst := instances[ack.iid];
      assert Belongs(owner, ack.iid, inst);
      inst.Update(ack, from);
      table := table[ack.iid := inst.State()];
      OneChanged(ack.iid);
    }

    method CheckInstance(iid: nat) returns (closed: bool)
      requires Owned() && iid in instances
      modifies Repr - {this}, this`table
      ensures Owned() && Repr == old(Repr) && iid in old(table)
      ensures table == old(table)[iid := L.CheckQuorum(old(table)[iid])]
      ensures closed <==> table[iid].final.Some?
      ensures instances[iid].State() == table[iid]
    {
      hide L.CheckQuorum;
      var inst := instances[iid];
      assert Belongs(owner, iid, inst);
      closed := inst.HasQuorum();
      table := table[iid := inst.State()];
      OneChanged(iid);
    }

    method ReceiveAccepted(ack: Record, from: nat)
      requires Valid() && from < acceptors
      modifies Repr
      ensures Valid() && fresh(Repr - old(Repr))
      ensures State() == L.ReceiveAccepted(old(State()), ack, from)
    {
      ghost var before := State();
      LP.ReceiveKeepsOk(before, ack, from);
      LP.ReceiveKeepsShape(before, ack, from);
      hide LP.LearnerOk, L.FinalsPoint, L.Update, L.CheckQuorum, L.NewInstance;
      if lateStart {
        lateStart := false;
        currentIid := ack.iid;
      }
      assert State() == L.Start(before, ack.iid);
      if ack.iid < currentIid {
        return;
      }
      TakeAck(ack, from);
    }

    /** The part of `learner_receive_accepted` that is past the duplicate check. */
    method TakeAck(ack: Record, from: nat)
      requires Owned() && L.Shaped(State()) && from < acceptors && currentIid <= ack.iid && !lateStart
      modifies Repr
      ensures Owned() && fresh(Repr - old(Repr))
      ensures State() == L.ReceiveAccepted(old(State()), ack, from)
    {
      hide Owns, L.Find, L.Update, L.CheckQuorum, L.ReceiveAccepted;
      ghost var before := State();
      var closed := AddAck(ack, from);
      if closed && instances[ack.iid].iid > highestIidClosed {
        highestIidClosed := instances[ack.iid].iid;
      }
      LP.ReceivedIs(before, ack, from, table[ack.iid], State());
    }

    method AddAck(ack: Record, from: nat) returns (closed: bool)
      requires Owned() && L.Shaped(State()) && from < acceptors
      modifies Repr - {this}, this`instances, this`Repr, this`owner, this`table
      ensures Owned() && fresh(Repr - old(Repr)) && ack.iid in instances
      ensures from < |L.Find(old(State()), ack.iid).acks|
      ensures table == old(table)[ack.iid := L.CheckQuorum(L.Update(L.Find(old(State()), ack.iid), ack, from))]
      ensures closed <==> table[ack.iid].final.Some?
      ensures instances[ack.iid].iid == table[ack.iid].iid
    {
      hide Owns, L.Shaped, L.Find, L.Update, L.CheckQuorum;
      var inst := GetInstanceOrCreate(ack.iid);
      UpdateInstance(ack, from);
      closed := CheckInstance(ack.iid);
    }

    /** Whether the current instance exists and has a quorum; looking leaves a learner in order as it is. */
    method CurrentClosed() returns (closed: bool)
      requires Valid()
      modifies Repr - {this}, this`table
      ensures Owned() && Repr == old(Repr) && table == old(table) && L.FinalsPoint(old(State()))
      ensures closed <==> L.DeliverNext(old(State())).1.Some?
      ensures closed ==> currentIid in instances && instances[currentIid].State() == table[currentIid]
                         && table[currentIid].final.Some?
    {
      LP.DeliverKeepsOk(State());
      hide Owns, LP.LearnerOk, L.CheckQuorum, L.DeliverNext, L.Shaped;
      if currentIid !in instances {
        return false;
      }
      closed := CheckInstance(currentIid);
    }

    method DeliverNext() returns (out: Option<Record>)
      requires Valid()
      modifies Repr
      ensures Valid() && Repr == old(Repr)
      ensures L.FinalsPoint(old(State()))
      ensures (State(), out) == L.DeliverNext(old(State()))
      ensures out.None? ==> State() == old(State())
      ensures out.Some? ==> |instances| < old(|instances|)
    {
      ghost var before := State();
      LP.DeliverKeepsOk(before);
      LP.DeliverKeepsShape(before);
      hide Owns, LP.LearnerOk, L.CheckQuorum, L.DeliverNext, L.Shaped, L.FinalsPoint;
      var closed := CurrentClosed();
      if !closed {
        return None;
      }
      var record := FinishCurrent();
      return Some(record);
    }

    lemma ClosedPoints(iid: nat)
      requires L.FinalsPoint(State()) && iid in instances && iid in table && instances[iid].State() == table[iid]
      requires table[iid].final.Some?
      ensures var inst := instances[iid];
              inst.final.value < inst.acks.Length && inst.acks[inst.final.value].Some?
    {
      assert table[iid] == State().instances[iid];
    }

    lemma OneGone(iid: nat)
      requires Owned() && iid in instances
      ensures Owns(Repr - {this}, owner, instances - {iid}, table - {iid})
      ensures |instances - {iid}| < |instances|
    {
      assert (instances - {iid}).Keys == instances.Keys - {iid};
    }

    /** Copies the final value out, `learner_delete_instance`, and on to the next one. */
    method FinishCurrent() returns (record: Record)
      requires Owned() && L.FinalsPoint(State()) && LP.LearnerOk(State()) && currentIid in instances
      requires currentIid in table && instances[currentIid].State() == table[currentIid]
      requires table[currentIid].final.Some?
      modifies this`instances, this`currentIid, this`table
      ensures Owned() && Repr == old(Repr) && |instances| < old(|instances|)
      ensures L.FinalsPoint(old(State())) && (State(), Some(record)) == L.DeliverNext(old(State()))
    {
      hide Owns, L.DeliverNext, L.FinalsPoint, LP.LearnerOk;
      ghost var before := State();
      ClosedPoints(currentIid);
      var inst := instances[currentIid];
      record := inst.acks[inst.final.value].value;
      OneGone(currentIid);
      instances, table := instances - {currentIid}, table - {currentIid};
      currentIid := currentIid + 1;
      LP.DeliveredIs(before, State(), record);
    }

    /** The stretch of instances a learner should ask for again, if it is behind. */
    method HasHoles() returns (hole: Option<(nat, nat)>)
      requires Valid()
      ensures hole.Some? <==> L.HasHoles(State())
      ensures hole.Some? ==> hole.value == (currentIid, highestIidClosed)
    {
      if highestIidClosed > currentIid {
        return Some((currentIid, highestIidClosed));
      }
      return None;
    }

    /** `evlearner_deliver_next_closed`: delivers until there is nothing left to deliver. */
    method DeliverClosed() returns (delivered: seq<Record>)
      requires Valid()
      modifies Repr
      ensures Valid() && Repr == old(Repr)
      ensures LP.Delivers(old(State()), delivered, State())
      ensures L.DeliverNext(State()).1.None?
    {
      hide LP.LearnerOk, L.DeliverNext, L.Shaped, L.FinalsPoint, LP.Delivers;
      ghost var start := State();
      delivered := [];
      LP.DeliversNothing(start);
      while true
        invariant Valid() && Repr == old(Repr)
        invariant LP.Delivers(start, delivered, State())
        decreases |instances|
      {
        ghost var mid := State();
        var next := DeliverNext();
        if next.None? {
          break;
        }
        LP.DeliversMore(start, delivered, mid, next.value, State());
        delivered := delivered + [next.value];
      }
    }

    /** `evlearner_handle_accepted`: take the ack, then deliver everything that has become deliverable. */
    method HandleAccepted(ack: Record, from: nat) returns (delivered: seq<Record>)
      requires Valid() && from < acceptors
      modifies Repr
      ensures Valid() && fresh(Repr - old(Repr))
      ensures LP.Delivers(L.ReceiveAccepted(old(State()), ack, from), delivered, State())
      ensures L.DeliverNext(State()).1.None?
    {
      ReceiveAccepted(ack, from);
      delivered := DeliverClosed();
    }

    /** `evlearner_check_holes`: asks for at most eleven instances at a time. */
    method CheckHoles() returns (request: Option<(nat, nat)>)
      requires Valid()
      ensures request.Some? <==> L.HasHoles(State())
      ensures request.Some? ==>
                request.value.0 == currentIid < request.value.1 <= highestIidClosed
                && request.value.1 == if highestIidClosed - currentIid > 10 then currentIid + 10 else highestIidClosed
    {
      request := HasHoles();
      if request.Some? && request.value.1 - request.value.0 > 10 {
        request := Some((request.value.0, request.value.0 + 10));
      }
    }
  }
}
