/** Closing an instance, delivering in order, and agreement between learners. */
module LearnerProofs {
  import opened PaxosTypes
  import opened LearnerSpec

  // ---- Counting acks ----

  function Backers(acks: seq<Option<Record>>, ballot: nat): (s: set<nat>)
    ensures forall i: nat :: i in s <==> i < |acks| && Agrees(acks[i], ballot)
  {
    set i: nat | i < |acks| && Agrees(acks[i], ballot)
  }

  lemma {:induction false} CountIsBackers(acks: seq<Option<Record>>, ballot: nat)
    ensures Count(acks, ballot) == |Backers(acks, ballot)|
  {
    if acks == [] {
      assert Backers(acks, ballot) == {};
    } else {
      var k := |acks| - 1;
      var front := acks[..k];
      CountIsBackers(front, ballot);
      assert Backers(acks, ballot) == Backers(front, ballot) + if Agrees(acks[k], ballot) then {k} else {};
    }
  }

  /** Replacing one ack can only raise the count of the new ack's ballot. */
  lemma OtherCountsDrop(acks: seq<Option<Record>>, from: nat, ack: Record, b: nat)
    requires from < |acks| && b != ack.ballot
    ensures Count(acks[from := Some(ack)], b) <= Count(acks, b)
  {
    CountIsBackers(acks, b);
    CountIsBackers(acks[from := Some(ack)], b);
    SubsetSize(Backers(acks[from := Some(ack)], b), Backers(acks, b));
  }

  lemma {:induction false} NothingCounts(acks: seq<Option<Record>>, b: nat)
    requires forall i :: 0 <= i < |acks| ==> acks[i].None?
    ensures Count(acks, b) == 0
  {
    CountIsBackers(acks, b);
    assert Backers(acks, b) == {};
  }

  // ---- One instance ----

  ghost predicate HasMajority(inst: Instance, b: nat) {
    Count(inst.acks, b) >= Majority(|inst.acks|)
  }

  ghost predicate SomeMajority(inst: Instance) {
    exists b: nat :: HasMajority(inst, b)
  }

  /** An open instance holds no majority at any ballot; a closed one's final value is part of one. */
  ghost predicate InstanceOk(inst: Instance) {
    && (inst.final.None? ==> !SomeMajority(inst))
    && (inst.final.Some? ==>
          && inst.final.value < |inst.acks| && inst.acks[inst.final.value].Some?
          && HasMajority(inst, FinalValue(inst).ballot))
  }

  ghost predicate AcksFor(inst: Instance, iid: nat) {
    && inst.iid == iid
    && forall i :: 0 <= i < |inst.acks| && inst.acks[i].Some? ==> inst.acks[i].value.iid == iid
  }

  /** A closed instance keeps its acks and its final value (instance 0, whose iid reads as unset, is stamped again). */
  ghost predicate Untouched(inst: Instance, inst': Instance) {
    inst'.acks == inst.acks && inst'.final == inst.final && (inst.iid > 0 ==> inst' == inst)
  }

  lemma NewInstanceOk(n: nat)
    ensures InstanceOk(NewInstance(n))
  {
    var inst := NewInstance(n);
    forall b: nat
      ensures !HasMajority(inst, b)
    {
      NothingCounts(inst.acks, b);
    }
  }

  /** Looking at the last updated ballot alone closes the instance exactly when some ballot has a majority,
      and an instance once closed is never touched again. */
  lemma ClosesExactlyAtMajority(inst: Instance, ack: Record, from: nat)
    requires InstanceOk(inst) && from < |inst.acks|
    ensures var inst' := CheckQuorum(Update(inst, ack, from));
            && InstanceOk(inst')
            && (inst'.final.Some? <==> SomeMajority(inst'))
            && (inst.final.Some? ==> Untouched(inst, inst'))
            && |inst'.acks| == |inst.acks|
  {
    var inst1 := Stamp(inst, ack);
    assert forall b: nat :: HasMajority(inst1, b) <==> HasMajority(inst, b);
    var checked := CheckQuorum(inst1);
    assert checked.final == inst.final by {
      if inst.final.None? { assert !HasMajority(inst, inst1.lastUpdateBallot); }
    }
    var inst' := CheckQuorum(Update(inst, ack, from));
    if inst.final.Some? {
    } else if inst.acks[from].Some? && inst.acks[from].value.ballot >= ack.ballot {
      assert forall b: nat :: HasMajority(inst', b) <==> HasMajority(inst, b);
      assert !HasMajority(inst, inst1.lastUpdateBallot);
    } else {
      forall b: nat | b != ack.ballot
        ensures !HasMajority(inst', b)
      {
        OtherCountsDrop(inst.acks, from, ack, b);
        assert !HasMajority(inst, b);
      }
      assert inst'.final.Some? <==> HasMajority(inst', ack.ballot);
    }
  }

  // ---- The whole learner ----

  ghost predicate LearnerOk(l: Learner) {
    && Shaped(l)
    && FinalsPoint(l)
    && (forall k :: k in l.instances ==>
          && l.currentIid <= k && InstanceOk(l.instances[k]) && AcksFor(l.instances[k], k)
          && (l.instances[k].final.Some? ==> k <= l.highestIidClosed))
    && (HasHoles(l) && !l.lateStart && l.highestIidClosed > 1 ==>
          l.highestIidClosed in l.instances && l.instances[l.highestIidClosed].final.Some?)
    && (l.lateStart ==> l.instances == map[] && l.highestIidClosed <= 1)
  }

  lemma UpdatedInstanceOk(inst: Instance, ack: Record, from: nat)
    requires InstanceOk(inst) && from < |inst.acks|
    requires AcksFor(inst, ack.iid) || inst == NewInstance(|inst.acks|)
    ensures var inst' := CheckQuorum(Update(inst, ack, from));
            InstanceOk(inst') && AcksFor(inst', ack.iid) && |inst'.acks| == |inst.acks|
            && (inst.final.Some? ==> Untouched(inst, inst'))
  {
    ClosesExactlyAtMajority(inst, ack, from);
  }

  lemma FoundOk(l: Learner, iid: nat)
    requires LearnerOk(l)
    ensures InstanceOk(Find(l, iid)) && |Find(l, iid).acks| == l.acceptors
    ensures AcksFor(Find(l, iid), iid) || Find(l, iid) == NewInstance(|Find(l, iid).acks|)
  {
    NewInstanceOk(l.acceptors);
  }

  lemma StartKeepsOk(l: Learner, iid: nat)
    requires LearnerOk(l)
    ensures LearnerOk(Start(l, iid))
  {
  }

  /** Putting a sound instance into the table of a learner that has not passed it. */
  lemma StoreKeepsOk(l: Learner, iid: nat, inst: Instance)
    requires LearnerOk(l) && !l.lateStart && l.currentIid <= iid
    requires InstanceOk(inst) && AcksFor(inst, iid) && |inst.acks| == l.acceptors
    requires iid in l.instances && l.instances[iid].final.Some? ==> inst.final.Some?
    ensures LearnerOk(l.(instances := l.instances[iid := inst],
                         highestIidClosed := if inst.final.Some? && iid > l.highestIidClosed
                                             then iid else l.highestIidClosed))
  {
  }

  lemma ReceiveKeepsOk(l: Learner, ack: Record, from: nat)
    requires LearnerOk(l) && from < l.acceptors
    ensures LearnerOk(ReceiveAccepted(l, ack, from))
  {
    var l0 := Start(l, ack.iid);
    StartKeepsOk(l, ack.iid);
    if ack.iid >= l0.currentIid {
      FoundOk(l0, ack.iid);
      var inst := Find(l0, ack.iid);
      UpdatedInstanceOk(inst, ack, from);
      var inst' := CheckQuorum(Update(inst, ack, from));
      hide LearnerOk, InstanceOk, CheckQuorum, Update;
      StoreKeepsOk(l0, ack.iid, inst');
    }
  }

  lemma DeliverKeepsOk(l: Learner)
    requires LearnerOk(l)
    ensures LearnerOk(DeliverNext(l).0)
    ensures DeliverNext(l).1.Some? <==> l.currentIid in l.instances && l.instances[l.currentIid].final.Some?
    ensures l.currentIid in l.instances ==>
              CheckQuorum(l.instances[l.currentIid]) == l.instances[l.currentIid]
    ensures DeliverNext(l).1.None? ==> DeliverNext(l).0 == l
    ensures DeliverNext(l).1.Some? ==>
              DeliverNext(l).1.value == FinalValue(l.instances[l.currentIid])
  {
    if l.currentIid in l.instances {
      var inst := l.instances[l.currentIid];
      assert inst.final.None? ==> !HasMajority(inst, inst.lastUpdateBallot);
    }
  }

  /** With nothing left to deliver, a hole is reported exactly when a closed instance is waiting; a learner that
      started late at instance 0 reports one from the outset. */
  lemma HolesWhenDrained(l: Learner)
    requires LearnerOk(l) && !l.lateStart && DeliverNext(l).1.None?
    ensures HasHoles(l) <==>
              || (exists k :: k in l.instances && l.instances[k].final.Some?)
              || (l.currentIid == 0 && l.highestIidClosed == 1)
  {
    DeliverKeepsOk(l);
  }

  /** Delivering again and again from `l` hands out `log` and leads to `l'`. */
  ghost predicate Delivers(l: Learner, log: seq<Record>, l': Learner)
    decreases |log|
  {
    if log == [] then l' == l
    else
      var front, last := log[..|log| - 1], log[|log| - 1];
      exists mid :: Delivers(l, front, mid) && DeliversOne(mid, last, l')
  }

  ghost predicate DeliversOne(l: Learner, r: Record, l': Learner) {
    FinalsPoint(l) && DeliverNext(l) == (l', Some(r))
  }

  lemma DeliversNothing(l: Learner)
    ensures Delivers(l, [], l)
  {
  }

  lemma DeliversMore(l: Learner, log: seq<Record>, mid: Learner, r: Record, l': Learner)
    requires Delivers(l, log, mid) && FinalsPoint(mid) && DeliverNext(mid) == (l', Some(r))
    ensures Delivers(l, log + [r], l')
  {
    assert (log + [r])[..|log|] == log;
    assert DeliversOne(mid, r, l');
  }

  lemma ReceiveKeepsShape(l: Learner, ack: Record, from: nat)
    requires LearnerOk(l) && from < l.acceptors
    ensures Shaped(ReceiveAccepted(l, ack, from)) && FinalsPoint(ReceiveAccepted(l, ack, from))
    ensures Shaped(Start(l, ack.iid))
    ensures ReceiveAccepted(Start(l, ack.iid), ack, from) == ReceiveAccepted(l, ack, from)
  {
    ReceiveKeepsOk(l, ack, from);
  }

  lemma ReceivedIs(l: Learner, ack: Record, from: nat, inst: Instance, l': Learner)
    requires Shaped(l) && from < l.acceptors && !l.lateStart && l.currentIid <= ack.iid
    requires inst == CheckQuorum(Update(Find(l, ack.iid), ack, from))
    requires l'.acceptors == l.acceptors && l'.lateStart == l.lateStart && l'.currentIid == l.currentIid
    requires l'.instances == l.instances[ack.iid := inst]
    requires l'.highestIidClosed ==
               if inst.final.Some? && inst.iid > l.highestIidClosed then inst.iid else l.highestIidClosed
    ensures l' == ReceiveAccepted(l, ack, from)
  {
  }

  lemma DeliverKeepsShape(l: Learner)
    requires LearnerOk(l)
    ensures Shaped(DeliverNext(l).0) && FinalsPoint(DeliverNext(l).0)
    ensures l.currentIid !in l.instances ==> DeliverNext(l) == (l, None)
  {
    DeliverKeepsOk(l);
  }

  lemma DeliveredIs(l: Learner, l': Learner, r: Record)
    requires FinalsPoint(l) && LearnerOk(l) && l.currentIid in l.instances
    requires l.instances[l.currentIid].final.Some? && r == FinalValue(l.instances[l.currentIid])
    requires l'.acceptors == l.acceptors && l'.lateStart == l.lateStart && l'.currentIid == l.currentIid + 1
    requires l'.highestIidClosed == l.highestIidClosed && l'.instances == l.instances - {l.currentIid}
    ensures DeliverNext(l) == (l', Some(r))
  {
  }
}
