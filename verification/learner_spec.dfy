/** What the learner's operations do to its state, read as values (learner.c). */
module LearnerSpec {
  import opened PaxosTypes

  /** `final` is the index of the ack whose record is the instance's final value, once it has one. */
  datatype Instance = Instance(iid: nat, lastUpdateBallot: nat, acks: seq<Option<Record>>, final: Option<nat>)

  datatype Learner = Learner(
    acceptors: nat,
    lateStart: bool,
    currentIid: nat,
    highestIidClosed: nat,
    instances: map<nat, Instance>)

  predicate Agrees(ack: Option<Record>, ballot: nat) {
    ack.Some? && ack.value.ballot == ballot
  }

  function Count(acks: seq<Option<Record>>, ballot: nat): nat {
    if acks == [] then 0
    else
      var k := |acks| - 1;
      Count(acks[..k], ballot) + if Agrees(acks[k], ballot) then 1 else 0
  }

  /** The last index holding an ack at `ballot`. */
  function LastIndex(acks: seq<Option<Record>>, ballot: nat): (i: nat)
    requires Count(acks, ballot) > 0
    ensures i < |acks| && Agrees(acks[i], ballot)
  {
    var k := |acks| - 1;
    if Agrees(acks[k], ballot) then k else LastIndex(acks[..k], ballot)
  }

  /** `instance_has_quorum`: closes the instance if the acks at the last updated ballot are a majority. */
  function CheckQuorum(inst: Instance): Instance {
    if inst.final.None? && Count(inst.acks, inst.lastUpdateBallot) >= Majority(|inst.acks|)
    then inst.(final := Some(LastIndex(inst.acks, inst.lastUpdateBallot)))
    else inst
  }

  function NewInstance(acceptors: nat): Instance {
    Instance(0, 0, seq(acceptors, i => None), None)
  }

  function Stamp(inst: Instance, ack: Record): Instance {
    if inst.iid == 0 then inst.(iid := ack.iid, lastUpdateBallot := ack.ballot) else inst
  }

  function Update(inst: Instance, ack: Record, from: nat): Instance
    requires from < |inst.acks|
  {
    var checked := CheckQuorum(Stamp(inst, ack));
    if checked.final.Some? then checked
    else if inst.acks[from].Some? && inst.acks[from].value.ballot >= ack.ballot then checked
    else checked.(acks := inst.acks[from := Some(ack)], lastUpdateBallot := ack.ballot)
  }

  function Find(l: Learner, iid: nat): Instance {
    if iid in l.instances then l.instances[iid] else NewInstance(l.acceptors)
  }

  ghost predicate Shaped(l: Learner) {
    forall k :: k in l.instances ==> |l.instances[k].acks| == l.acceptors
  }

  function Start(l: Learner, iid: nat): Learner {
    if l.lateStart then l.(lateStart := false, currentIid := iid) else l
  }

  function ReceiveAccepted(l0: Learner, ack: Record, from: nat): Learner
    requires Shaped(l0) && from < l0.acceptors
  {
    var l := Start(l0, ack.iid);
    if ack.iid < l.currentIid then l
    else
      var inst := CheckQuorum(Update(Find(l, ack.iid), ack, from));
      l.(instances := l.instances[ack.iid := inst],
         highestIidClosed := if inst.final.Some? && inst.iid > l.highestIidClosed then inst.iid else l.highestIidClosed)
  }

  ghost predicate FinalsPoint(l: Learner) {
    forall k :: k in l.instances && l.instances[k].final.Some? ==>
      l.instances[k].final.value < |l.instances[k].acks| && l.instances[k].acks[l.instances[k].final.value].Some?
  }

  function FinalValue(inst: Instance): Record
    requires inst.final.Some? && inst.final.value < |inst.acks| && inst.acks[inst.final.value].Some?
  {
    inst.acks[inst.final.value].value
  }

  /** `learner_deliver_next`: hands out the final value of the current instance and forgets the instance. */
  function DeliverNext(l: Learner): (Learner, Option<Record>)
    requires FinalsPoint(l)
  {
    if l.currentIid !in l.instances then (l, None)
    else
      var inst := CheckQuorum(l.instances[l.currentIid]);
      if inst.final.None? then (l, None)
      else (l.(instances := l.instances - {l.currentIid}, currentIid := l.currentIid + 1), Some(FinalValue(inst)))
  }

  predicate HasHoles(l: Learner) {
    l.highestIidClosed > l.currentIid
  }
}
