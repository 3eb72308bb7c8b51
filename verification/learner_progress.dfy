/** A learner does not lose what it is told: acks of a majority at one ballot close an instance, whatever other acks
    come in between, and the handler delivers it as soon as the ones before it are closed too. */
module LearnerProgress {
  import opened PaxosTypes
  import opened Protocol
  import opened LearnerAgreement
  import L = LearnerSpec
  import LP = LearnerProofs

  // ---- One instance ----

  /** The instance is closed, or holds an ack of `from` that is no older than this one. */
  ghost predicate Holds(inst: L.Instance, from: nat, ballot: nat) {
    inst.final.Some? || (from < |inst.acks| && inst.acks[from].Some? && inst.acks[from].value.ballot >= ballot)
  }

  /** Taking an ack replaces the acceptor's earlier one exactly if that is older, and touches no other. */
  lemma TakesAck(inst: L.Instance, ack: Record, from: nat)
    requires LP.InstanceOk(inst) && from < |inst.acks|
    ensures var inst' := L.CheckQuorum(L.Update(inst, ack, from));
            && |inst'.acks| == |inst.acks| && Holds(inst', from, ack.ballot)
            && (forall j :: 0 <= j < |inst.acks| && j != from ==> inst'.acks[j] == inst.acks[j])
            && (inst.final.Some? ==> inst'.acks == inst.acks && inst'.final == inst.final)
            && (inst.final.None? ==>
                  inst'.acks[from] == if inst.acks[from].Some? && inst.acks[from].value.ballot >= ack.ballot
                                      then inst.acks[from] else Some(ack))
  {
    var inst1 := L.Stamp(inst, ack);
    if inst.final.None? { assert !LP.HasMajority(inst, inst1.lastUpdateBallot); }
  }

  lemma TakesAckKeeps(inst: L.Instance, ack: Record, from: nat, i: nat, ballot: nat)
    requires LP.InstanceOk(inst) && from < |inst.acks| && Holds(inst, i, ballot)
    ensures Holds(L.CheckQuorum(L.Update(inst, ack, from)), i, ballot)
  {
    TakesAck(inst, ack, from);
    hide L.CheckQuorum, L.Update, LP.InstanceOk;
  }

  // ---- The learner ----

  ghost predicate AllAccepted(acks: seq<Reply>) {
    forall r :: r in acks ==> r.msg.Accepted?
  }

  ghost predicate Taken(l: L.Learner, r: Reply)
    requires r.msg.Accepted?
  {
    r.msg.iid in l.instances && Holds(l.instances[r.msg.iid], r.from, r.msg.ballot)
  }

  /** No ack for an instance the learner has not passed is lost. */
  ghost predicate AllTaken(l: L.Learner, acks: seq<Reply>)
    requires AllAccepted(acks)
  {
    forall r :: r in acks && r.msg.iid >= l.currentIid ==> Taken(l, r)
  }

  ghost predicate Heard(acks: seq<Reply>, from: nat, record: Record) {
    exists r :: r in acks && r.msg.Accepted? && r.from == from && RecordOf(r.msg) == record
  }

  /** Every ack the learner holds is one it was told. */
  ghost predicate AllHeard(l: L.Learner, acks: seq<Reply>) {
    forall k, i :: k in l.instances && 0 <= i < |l.instances[k].acks| && l.instances[k].acks[i].Some? ==>
      Heard(acks, i, l.instances[k].acks[i].value)
  }

  ghost predicate KeepsTrack(l: L.Learner, acks: seq<Reply>) {
    && AllAccepted(acks) && LP.LearnerOk(l) && AllTaken(l, acks) && AllHeard(l, acks)
    && (l.lateStart ==> acks == [])
  }

  lemma ReceiveTakes(l: L.Learner, r: Reply)
    requires LP.LearnerOk(l) && r.msg.Accepted? && r.from < l.acceptors
    ensures var l' := L.ReceiveAccepted(l, RecordOf(r.msg), r.from);
            && l'.acceptors == l.acceptors && !l'.lateStart
            && l'.currentIid == (if l.lateStart then r.msg.iid else l.currentIid)
            && (r.msg.iid >= l'.currentIid ==> Taken(l', r))
  {
    LP.FoundOk(L.Start(l, r.msg.iid), r.msg.iid);
    TakesAck(L.Find(L.Start(l, r.msg.iid), r.msg.iid), RecordOf(r.msg), r.from);
    hide L.CheckQuorum, L.Update, LP.InstanceOk;
  }

  lemma ReceiveStillTakes(l: L.Learner, r: Reply, other: Reply)
    requires LP.LearnerOk(l) && r.msg.Accepted? && r.from < l.acceptors && other.msg.Accepted? && Taken(l, other)
    ensures Taken(L.ReceiveAccepted(l, RecordOf(r.msg), r.from), other)
  {
    if other.msg.iid == r.msg.iid {
      TakesAckKeeps(l.instances[r.msg.iid], RecordOf(r.msg), r.from, other.from, other.msg.ballot);
    }
    hide L.CheckQuorum, L.Update, LP.InstanceOk;
  }

  lemma ReceiveHears(l: L.Learner, acks: seq<Reply>, r: Reply)
    requires LP.LearnerOk(l) && r.msg.Accepted? && r.from < l.acceptors && AllHeard(l, acks)
    ensures AllHeard(L.ReceiveAccepted(l, RecordOf(r.msg), r.from), acks + [r])
  {
    var ack := RecordOf(r.msg);
    var l0 := L.Start(l, ack.iid);
    var found := L.Find(l0, ack.iid);
    LP.FoundOk(l0, ack.iid);
    TakesAck(found, ack, r.from);
    hide L.CheckQuorum, L.Update, LP.InstanceOk;
    var l' := L.ReceiveAccepted(l, ack, r.from);
    assert r in acks + [r] && Heard(acks + [r], r.from, ack);
    forall k, i | k in l'.instances && 0 <= i < |l'.instances[k].acks| && l'.instances[k].acks[i].Some?
      ensures Heard(acks + [r], i, l'.instances[k].acks[i].value)
    {
      if l'.instances[k].acks[i] != Some(ack) || i != r.from {
        assert k in l.instances && l'.instances[k].acks[i] == l.instances[k].acks[i];
        assert Heard(acks, i, l.instances[k].acks[i].value);
        var r0 :| r0 in acks && r0.msg.Accepted? && r0.from == i && RecordOf(r0.msg) == l.instances[k].acks[i].value;
        assert r0 in acks + [r];
      }
    }
  }

  lemma ReceiveKeepsTrack(l: L.Learner, acks: seq<Reply>, r: Reply)
    requires KeepsTrack(l, acks) && r.msg.Accepted? && r.from < l.acceptors
    ensures KeepsTrack(L.ReceiveAccepted(l, RecordOf(r.msg), r.from), acks + [r])
  {
    var l' := L.ReceiveAccepted(l, RecordOf(r.msg), r.from);
    LP.ReceiveKeepsOk(l, RecordOf(r.msg), r.from);
    ReceiveTakes(l, r);
    ReceiveHears(l, acks, r);
    hide L.ReceiveAccepted, LP.LearnerOk, Taken;
    forall other | other in acks && other.msg.iid >= l'.currentIid
      ensures Taken(l', other)
    {
      ReceiveStillTakes(l, r, other);
    }
  }

  lemma DeliverKeepsTrack(l: L.Learner, acks: seq<Reply>, record: Record, l': L.Learner)
    requires KeepsTrack(l, acks) && LP.DeliversOne(l, record, l')
    ensures KeepsTrack(l', acks)
    ensures l'.currentIid == l.currentIid + 1 && l'.acceptors == l.acceptors && l'.lateStart == l.lateStart
    ensures record.iid == l.currentIid
  {
    LP.DeliverKeepsOk(l);
  }

  lemma {:induction false} DrainKeepsTrack(l: L.Learner, acks: seq<Reply>, delivered: seq<Record>, l': L.Learner)
    requires KeepsTrack(l, acks) && LP.Delivers(l, delivered, l')
    ensures KeepsTrack(l', acks) && l'.acceptors == l.acceptors && l'.lateStart == l.lateStart
    ensures l'.currentIid == l.currentIid + |delivered|
    ensures forall j :: 0 <= j < |delivered| ==> delivered[j].iid == l.currentIid + j
    decreases |delivered|
  {
    hide KeepsTrack, LP.DeliversOne;
    if delivered != [] {
      var front, last := delivered[..|delivered| - 1], delivered[|delivered| - 1];
      var mid :| LP.Delivers(l, front, mid) && LP.DeliversOne(mid, last, l');
      DrainKeepsTrack(l, acks, front, mid);
      hide LP.Delivers;
      DeliverKeepsTrack(mid, acks, last, l');
    }
  }

  // ---- The handler ----

  /** The instance a learner starts delivering at. */
  function First(start: L.Learner, acks: seq<Reply>): nat
    requires AllAccepted(acks) && (start.lateStart ==> acks != [])
  {
    if start.lateStart then acks[0].msg.iid else start.currentIid
  }

  /** The log has every instance from the first one up to where the learner is. */
  ghost predicate Covers(start: L.Learner, acks: seq<Reply>, l: L.Learner, log: seq<Record>)
    requires AllAccepted(acks) && (start.lateStart ==> acks != [])
  {
    && l.currentIid == First(start, acks) + |log|
    && forall j :: 0 <= j < |log| ==> log[j].iid == First(start, acks) + j
  }

  lemma OneHandledCovers(start: L.Learner, acks: seq<Reply>, l: L.Learner, log: seq<Record>,
                         r: Reply, l': L.Learner, log': seq<Record>)
    requires KeepsTrack(l, acks) && l.lateStart == (start.lateStart && acks == []) && l.acceptors == start.acceptors
    requires acks == [] ==> l == start && log == []
    requires acks != [] ==> Covers(start, acks, l, log)
    requires HandlesOne(l, log, r, l', log')
    ensures KeepsTrack(l', acks + [r]) && !l'.lateStart && l'.acceptors == start.acceptors
    ensures Covers(start, acks + [r], l', log')
  {
    var l1 := L.ReceiveAccepted(l, RecordOf(r.msg), r.from);
    var delivered :| LP.Delivers(l1, delivered, l') && log' == log + delivered;
    ReceiveKeepsTrack(l, acks, r);
    ReceiveTakes(l, r);
    hide L.ReceiveAccepted, LP.Delivers, KeepsTrack, Taken;
    DrainKeepsTrack(l1, acks + [r], delivered, l');
    AllAcceptedMore(acks, r);
    FirstStays(start, acks, r);
    LogGrows(First(start, acks + [r]), log, delivered);
    hide First, AllAccepted;
  }

  lemma FirstStays(start: L.Learner, acks: seq<Reply>, r: Reply)
    requires r.msg.Accepted? && AllAccepted(acks)
    ensures First(start, acks + [r]) == if start.lateStart && acks == [] then r.msg.iid else
                                        if acks == [] then start.currentIid else First(start, acks)
  {
  }

  lemma LogGrows(first: nat, log: seq<Record>, delivered: seq<Record>)
    requires forall j :: 0 <= j < |log| ==> log[j].iid == first + j
    requires forall j :: 0 <= j < |delivered| ==> delivered[j].iid == first + |log| + j
    ensures forall j :: 0 <= j < |log + delivered| ==> (log + delivered)[j].iid == first + j
  {
  }

  lemma AllAcceptedMore(acks: seq<Reply>, r: Reply)
    requires r.msg.Accepted? && AllAccepted(acks)
    ensures AllAccepted(acks + [r])
  {
  }

  /** Whatever the handler is called with, no ack for an instance still to come is lost, and the log has every
      instance the learner has passed, in order. */
  lemma {:induction false} HandlingKeepsTrack(start: L.Learner, acks: seq<Reply>, l: L.Learner, log: seq<Record>)
    requires Handles(start, acks, l, log) && Fresh(start, start.acceptors)
    ensures KeepsTrack(l, acks) && l.acceptors == start.acceptors
    ensures l.lateStart == (start.lateStart && acks == [])
    ensures acks == [] ==> l == start && log == []
    ensures acks != [] ==> Covers(start, acks, l, log) && Drained(l)
    decreases |acks|
  {
    if acks != [] {
      hide KeepsTrack, Covers, HandlesOne, Drained, Fresh;
      var before, last := acks[..|acks| - 1], acks[|acks| - 1];
      var l1, log1 :| Handles(start, before, l1, log1) && HandlesOne(l1, log1, last, l, log);
      HandlingKeepsTrack(start, before, l1, log1);
      hide Handles;
      assert acks == before + [last];
      OneHandledCovers(start, before, l1, log1, last, l, log);
      HandledIsDrained(l1, log1, last, l, log);
    }
  }

  lemma HandledIsDrained(l: L.Learner, log: seq<Record>, r: Reply, l': L.Learner, log': seq<Record>)
    requires HandlesOne(l, log, r, l', log')
    ensures Drained(l')
  {
  }

  // ---- Majorities ----

  /** The learner was told that all of `q` accepted `iid` at ballot `b`, and of no higher ballot of theirs. */
  ghost predicate AckedBy(acks: seq<Reply>, q: set<nat>, iid: nat, b: nat) {
    && (forall a :: a in q ==> AckedAt(acks, a, iid, b))
    && (forall r :: r in acks && r.msg.Accepted? && r.msg.iid == iid && r.from in q ==> r.msg.ballot <= b)
  }

  ghost predicate AckedAt(acks: seq<Reply>, a: nat, iid: nat, b: nat) {
    exists r :: r in acks && r.msg.Accepted? && r.from == a && r.msg.iid == iid && r.msg.ballot == b
  }

  ghost predicate AckedByMajority(acks: seq<Reply>, iid: nat, acceptors: nat) {
    exists q, b :: IsQuorum(q, acceptors) && AckedBy(acks, q, iid, b)
  }

  lemma MajorityAgrees(l: L.Learner, acks: seq<Reply>, iid: nat, q: set<nat>, b: nat)
    requires KeepsTrack(l, acks) && AckedBy(acks, q, iid, b) && iid >= l.currentIid
    requires iid in l.instances && l.instances[iid].final.None?
    ensures q <= LP.Backers(l.instances[iid].acks, b)
  {
    var inst := l.instances[iid];
    forall a | a in q
      ensures a in LP.Backers(inst.acks, b)
    {
      assert AckedAt(acks, a, iid, b);
      var r :| r in acks && r.msg.Accepted? && r.from == a && r.msg.iid == iid && r.msg.ballot == b;
      assert Taken(l, r);
      assert Heard(acks, a, inst.acks[a].value);
      assert LP.AcksFor(inst, iid);
    }
  }

  lemma AnyAckOpens(l: L.Learner, acks: seq<Reply>, iid: nat, q: set<nat>, b: nat)
    requires KeepsTrack(l, acks) && IsQuorum(q, l.acceptors) && AckedBy(acks, q, iid, b) && iid >= l.currentIid
    ensures iid in l.instances
  {
    var a :| a in q;
    assert AckedAt(acks, a, iid, b);
    var r :| r in acks && r.msg.Accepted? && r.from == a && r.msg.iid == iid && r.msg.ballot == b;
    assert Taken(l, r);
  }

  lemma MajorityCloses(l: L.Learner, acks: seq<Reply>, iid: nat)
    requires KeepsTrack(l, acks) && AckedByMajority(acks, iid, l.acceptors)
    ensures iid < l.currentIid || (iid in l.instances && l.instances[iid].final.Some?)
  {
    var q, b :| IsQuorum(q, l.acceptors) && AckedBy(acks, q, iid, b);
    if iid >= l.currentIid {
      AnyAckOpens(l, acks, iid, q, b);
      var inst := l.instances[iid];
      if inst.final.None? {
        MajorityAgrees(l, acks, iid, q, b);
        LP.CountIsBackers(inst.acks, b);
        SubsetSize(q, LP.Backers(inst.acks, b));
        assert LP.HasMajority(inst, b);
        assert false;
      }
    }
  }

  /** Once the handler was told of majorities for every instance from where the learner starts up to `n`, however
      the acks were ordered, repeated or mixed with others, all of these are delivered. */
  lemma DeliversUpTo(start: L.Learner, acks: seq<Reply>, l: L.Learner, log: seq<Record>, n: nat)
    requires Handles(start, acks, l, log) && Fresh(start, start.acceptors) && acks != [] && AllAccepted(acks)
    requires forall k :: First(start, acks) <= k <= n ==> AckedByMajority(acks, k, start.acceptors)
    ensures n < First(start, acks) + |log|
    ensures forall j :: 0 <= j < |log| ==> log[j].iid == First(start, acks) + j
  {
    HandlingKeepsTrack(start, acks, l, log);
    if l.currentIid <= n {
      assert AckedByMajority(acks, l.currentIid, start.acceptors);
      MajorityCloses(l, acks, l.currentIid);
      LP.DeliverKeepsOk(l);
      assert false;
    }
  }
}
