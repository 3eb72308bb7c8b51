/** Learners over the protocol: each delivers a gap-free stretch of the one log of chosen values. */
module LearnerAgreement {
  import opened PaxosTypes
  import opened Protocol
  import opened Safety
  import opened Agreement
  import L = LearnerSpec
  import LP = LearnerProofs

  datatype Event = Receive(reply: Reply) | Deliver

  function RecordOf(m: Message): Record
    requires m.Accepted?
  {
    Record(m.iid, m.ballot, m.valueBallot, m.value)
  }

  ghost predicate LearnerStep(l: L.Learner, log: seq<Record>, e: Event, l': L.Learner, log': seq<Record>) {
    match e
    case Receive(r) =>
      && L.Shaped(l) && r.from < l.acceptors && r.msg.Accepted?
      && l' == L.ReceiveAccepted(l, RecordOf(r.msg), r.from) && log' == log
    case Deliver =>
      && L.FinalsPoint(l)
      && var (next, out) := L.DeliverNext(l);
         l' == next && log' == if out.Some? then log + [out.value] else log
  }

  /** From `start`, the events lead to `l` with `log` delivered. */
  ghost predicate Reaches(start: L.Learner, events: seq<Event>, l: L.Learner, log: seq<Record>)
    decreases |events|
  {
    if events == [] then l == start && log == []
    else
      var before, last := events[..|events| - 1], events[|events| - 1];
      exists l1, log1 :: Reaches(start, before, l1, log1) && LearnerStep(l1, log1, last, l, log)
  }

  /** A learner that has received nothing yet, possibly told where to start. */
  ghost predicate Fresh(l: L.Learner, acceptors: nat) {
    && l.acceptors == acceptors && l.instances == map[] && l.currentIid > 0
    && l.highestIidClosed <= l.currentIid && (l.lateStart ==> l.highestIidClosed <= 1)
  }

  /** The reply is the acknowledgement of an accept, not a repeat whose ballot a later prepare raised. */
  ghost predicate Genuine(r: Reply) {
    r.msg.Accepted? && r.msg.ballot == r.msg.valueBallot
  }

  ghost predicate ReceivesOnly(events: seq<Event>, replies: set<Reply>) {
    forall e :: e in events && e.Receive? ==> e.reply in replies && Genuine(e.reply)
  }

  // ---- What a learner knows ----

  ghost predicate AckBacked(ack: Option<Record>, i: nat, replies: set<Reply>) {
    ack.Some? ==> ack.value.valueBallot == ack.value.ballot
                  && Voted(replies, i, ack.value.iid, ack.value.ballot, ack.value.value)
  }

  ghost predicate InstanceBacked(inst: L.Instance, replies: set<Reply>) {
    forall i :: 0 <= i < |inst.acks| ==> AckBacked(inst.acks[i], i, replies)
  }

  ghost predicate Backed(l: L.Learner, replies: set<Reply>) {
    forall k :: k in l.instances ==> InstanceBacked(l.instances[k], replies)
  }

  ghost predicate ChosenRecord(s: System, r: Record) {
    Chosen(s, r.iid, r.value)
  }

  /** The log runs without gaps up to the learner's current instance, and every entry is chosen. */
  ghost predicate LogOk(start: L.Learner, l: L.Learner, log: seq<Record>, s: System) {
    && (forall i :: 0 <= i < |log| ==> ChosenRecord(s, log[i]) && log[i].iid + |log| == l.currentIid + i)
    && (!start.lateStart ==> !l.lateStart && l.currentIid == start.currentIid + |log|)
    && (l.lateStart ==> log == [])
  }

  ghost predicate LearnerInv(start: L.Learner, l: L.Learner, log: seq<Record>, s: System) {
    LP.LearnerOk(l) && l.acceptors == |s.acceptors| && Backed(l, s.replies) && LogOk(start, l, log, s)
  }

  /** A closed instance backed by votes holds a chosen value: its ballot alone names the value. */
  lemma FinalIsChosen(s: System, inst: L.Instance, iid: nat)
    requires Inv(s) && |inst.acks| == |s.acceptors| && inst.final.Some?
    requires LP.InstanceOk(inst) && LP.AcksFor(inst, iid) && InstanceBacked(inst, s.replies)
    ensures L.FinalValue(inst).iid == iid && Chosen(s, iid, L.FinalValue(inst).value)
  {
    var r := L.FinalValue(inst);
    var q := LP.Backers(inst.acks, r.ballot);
    LP.CountIsBackers(inst.acks, r.ballot);
    assert AckBacked(inst.acks[inst.final.value], inst.final.value, s.replies);
    assert Accept(iid, r.ballot, r.value) in s.requests;
    forall i | i in q
      ensures Voted(s.replies, i, iid, r.ballot, r.value)
    {
      assert AckBacked(inst.acks[i], i, s.replies);
      assert Accept(iid, r.ballot, inst.acks[i].value.value) in s.requests;
    }
    assert IsQuorum(q, |s.acceptors|) && VotedByAll(s.replies, q, iid, r.ballot, r.value);
    assert ChosenAt(s, iid, r.ballot, r.value);
  }

  lemma ReceiveKeepsBacked(l: L.Learner, ack: Record, from: nat, replies: set<Reply>)
    requires L.Shaped(l) && from < l.acceptors && Backed(l, replies)
    requires ack.valueBallot == ack.ballot && Voted(replies, from, ack.iid, ack.ballot, ack.value)
    ensures Backed(L.ReceiveAccepted(l, ack, from), replies)
  {
    var l0 := L.Start(l, ack.iid);
    var inst := L.CheckQuorum(L.Update(L.Find(l0, ack.iid), ack, from));
    assert InstanceBacked(inst, replies);
  }

  lemma ReceiveKeeps(s: System, start: L.Learner, l: L.Learner, log: seq<Record>, r: Reply)
    requires Inv(s) && LearnerInv(start, l, log, s)
    requires r in s.replies && Genuine(r) && r.from < l.acceptors
    ensures LearnerInv(start, L.ReceiveAccepted(l, RecordOf(r.msg), r.from), log, s)
  {
    var ack := RecordOf(r.msg);
    assert Voted(s.replies, r.from, ack.iid, ack.ballot, ack.value);
    LP.ReceiveKeepsOk(l, ack, r.from);
    ReceiveKeepsBacked(l, ack, r.from, s.replies);
    ReceiveKeepsLog(start, l, log, s, ack, r.from);
    hide Inv, LP.LearnerOk, LogOk, Backed;
  }

  lemma ReceiveKeepsLog(start: L.Learner, l: L.Learner, log: seq<Record>, s: System, ack: Record, from: nat)
    requires L.Shaped(l) && from < l.acceptors && LogOk(start, l, log, s)
    ensures LogOk(start, L.ReceiveAccepted(l, ack, from), log, s)
    ensures L.ReceiveAccepted(l, ack, from).acceptors == l.acceptors
  {
    hide L.Update, L.CheckQuorum, L.Find, ChosenRecord;
  }

  lemma DeliverKeeps(s: System, start: L.Learner, l: L.Learner, log: seq<Record>, l': L.Learner, log': seq<Record>)
    requires Inv(s) && LearnerInv(start, l, log, s)
    requires LearnerStep(l, log, Deliver, l', log')
    ensures LearnerInv(start, l', log', s)
  {
    LP.DeliverKeepsOk(l);
    var out := L.DeliverNext(l).1;
    if out.Some? {
      FinalIsChosen(s, l.instances[l.currentIid], l.currentIid);
      assert ChosenRecord(s, out.value);
    }
  }

  lemma {:induction false} ReachedInv(s: System, start: L.Learner, events: seq<Event>, l: L.Learner, log: seq<Record>)
    requires Inv(s) && Fresh(start, |s.acceptors|) && ReceivesOnly(events, s.replies)
    requires Reaches(start, events, l, log)
    ensures LearnerInv(start, l, log, s)
    decreases |events|
  {
    if events != [] {
      var k := |events| - 1;
      var l1, log1 :| Reaches(start, events[..k], l1, log1) && LearnerStep(l1, log1, events[k], l, log);
      ReachedInv(s, start, events[..k], l1, log1);
      match events[k]
      case Receive(r) =>
        assert events[k] in events;
        ReceiveKeeps(s, start, l1, log1, r);
      case Deliver =>
        DeliverKeeps(s, start, l1, log1, l, log);
    }
  }

  /** In every run, what a learner delivers is a consecutive stretch of instances, each with its chosen value. */
  lemma DeliversTheChosenLog(run: seq<System>, i: nat, start: L.Learner, events: seq<Event>, l: L.Learner, log: seq<Record>)
    requires IsRun(run) && i < |run|
    requires Fresh(start, |run[i].acceptors|) && ReceivesOnly(events, run[i].replies)
    requires Reaches(start, events, l, log)
    ensures forall k :: 0 <= k < |log| ==> Chosen(run[i], log[k].iid, log[k].value)
    ensures forall k :: 0 <= k < |log| ==> log[k].iid == log[0].iid + k
    ensures !start.lateStart && log != [] ==> log[0].iid == start.currentIid
  {
    RunInv(run, i);
    ReachedInv(run[i], start, events, l, log);
    forall k | 0 <= k < |log|
      ensures Chosen(run[i], log[k].iid, log[k].value)
    {
      assert ChosenRecord(run[i], log[k]);
    }
  }

  /** Two learners, whatever they received and whenever, never deliver different values for one instance. */
  lemma LearnersAgree(run: seq<System>, i1: nat, i2: nat, start1: L.Learner, start2: L.Learner,
      events1: seq<Event>, events2: seq<Event>, l1: L.Learner, l2: L.Learner,
      log1: seq<Record>, log2: seq<Record>, k1: nat, k2: nat)
    requires IsRun(run) && i1 < |run| && i2 < |run|
    requires Fresh(start1, |run[i1].acceptors|) && ReceivesOnly(events1, run[i1].replies)
    requires Fresh(start2, |run[i2].acceptors|) && ReceivesOnly(events2, run[i2].replies)
    requires Reaches(start1, events1, l1, log1) && Reaches(start2, events2, l2, log2)
    requires k1 < |log1| && k2 < |log2| && log1[k1].iid == log2[k2].iid
    ensures log1[k1].value == log2[k2].value
  {
    DeliversTheChosenLog(run, i1, start1, events1, l1, log1);
    DeliversTheChosenLog(run, i2, start2, events2, l2, log2);
    AgreementInEveryRun(run, i1, i2, log1[k1].iid, log1[k1].value, log2[k2].value);
  }

  // ---- The handler of acks ----

  ghost predicate Drained(l: L.Learner) {
    L.FinalsPoint(l) && L.DeliverNext(l).1.None?
  }

  /** `evlearner_handle_accepted`: the ack is taken, then everything deliverable is delivered. */
  ghost predicate HandlesOne(l: L.Learner, log: seq<Record>, r: Reply, l': L.Learner, log': seq<Record>) {
    && L.Shaped(l) && r.from < l.acceptors && r.msg.Accepted? && Drained(l')
    && exists delivered ::
         LP.Delivers(L.ReceiveAccepted(l, RecordOf(r.msg), r.from), delivered, l') && log' == log + delivered
  }

  /** From `start`, handling the acks one after the other leads to `l` with `log` delivered. */
  ghost predicate Handles(start: L.Learner, acks: seq<Reply>, l: L.Learner, log: seq<Record>)
    decreases |acks|
  {
    if acks == [] then l == start && log == []
    else
      var before, last := acks[..|acks| - 1], acks[|acks| - 1];
      exists l1, log1 :: Handles(start, before, l1, log1) && HandlesOne(l1, log1, last, l, log)
  }

  ghost predicate GenuineAcks(acks: seq<Reply>, replies: set<Reply>) {
    forall r :: r in acks ==> r in replies && Genuine(r)
  }

  lemma ReachesMore(start: L.Learner, events: seq<Event>, l: L.Learner, log: seq<Record>,
                    e: Event, l': L.Learner, log': seq<Record>)
    requires Reaches(start, events, l, log) && LearnerStep(l, log, e, l', log')
    ensures Reaches(start, events + [e], l', log')
  {
    hide LearnerStep;
    assert (events + [e])[..|events|] == events;
  }

  lemma OneDelivered(l: L.Learner, r: Record, l': L.Learner, log: seq<Record>)
    requires LP.DeliversOne(l, r, l')
    ensures LearnerStep(l, log, Deliver, l', log + [r])
  {
  }

  /** Draining is a stretch of deliveries. */
  lemma {:induction false} DrainingReaches(start: L.Learner, events: seq<Event>, l: L.Learner, log: seq<Record>,
                                           delivered: seq<Record>, l': L.Learner, replies: set<Reply>)
    returns (events': seq<Event>)
    requires Reaches(start, events, l, log) && LP.Delivers(l, delivered, l') && ReceivesOnly(events, replies)
    ensures Reaches(start, events', l', log + delivered) && ReceivesOnly(events', replies)
    decreases |delivered|
  {
    hide Reaches, LP.DeliversOne, LearnerStep;
    if delivered == [] {
      assert log + delivered == log;
      events' := events;
    } else {
      var front, last := delivered[..|delivered| - 1], delivered[|delivered| - 1];
      var mid :| LP.Delivers(l, front, mid) && LP.DeliversOne(mid, last, l');
      var before := DrainingReaches(start, events, l, log, front, mid, replies);
      hide LP.Delivers;
      assert log + delivered == (log + front) + [last];
      OneDelivered(mid, last, l', log + front);
      ReachesMore(start, before, mid, log + front, Deliver, l', log + delivered);
      events' := before + [Deliver];
    }
  }

  /** One call of the handler is the ack and the deliveries after it. */
  lemma OneHandled(start: L.Learner, events: seq<Event>, l: L.Learner, log: seq<Record>,
                   r: Reply, l': L.Learner, log': seq<Record>, replies: set<Reply>)
    returns (events': seq<Event>)
    requires Reaches(start, events, l, log) && ReceivesOnly(events, replies)
    requires HandlesOne(l, log, r, l', log') && r in replies && Genuine(r)
    ensures Reaches(start, events', l', log') && ReceivesOnly(events', replies)
  {
    hide Reaches, LP.Delivers, L.ReceiveAccepted;
    var l1 := L.ReceiveAccepted(l, RecordOf(r.msg), r.from);
    var delivered :| LP.Delivers(l1, delivered, l') && log' == log + delivered;
    assert LearnerStep(l, log, Receive(r), l1, log);
    hide LearnerStep, L.Shaped;
    ReachesMore(start, events, l, log, Receive(r), l1, log);
    assert ReceivesOnly(events + [Receive(r)], replies);
    events' := DrainingReaches(start, events + [Receive(r)], l1, log, delivered, l', replies);
  }

  /** What the handler does is what the learner's events do. */
  lemma {:induction false} HandlingReaches(start: L.Learner, acks: seq<Reply>, l: L.Learner, log: seq<Record>,
                                           replies: set<Reply>)
    returns (events: seq<Event>)
    requires Handles(start, acks, l, log) && GenuineAcks(acks, replies)
    ensures Reaches(start, events, l, log) && ReceivesOnly(events, replies)
    decreases |acks|
  {
    hide HandlesOne;
    if acks == [] {
      events := [];
    } else {
      hide Reaches, ReceivesOnly;
      var before, last := acks[..|acks| - 1], acks[|acks| - 1];
      var l1, log1 :| Handles(start, before, l1, log1) && HandlesOne(l1, log1, last, l, log);
      events := HandlingReaches(start, before, l1, log1, replies);
      hide Handles;
      assert last in acks;
      events := OneHandled(start, events, l1, log1, last, l, log, replies);
    }
  }

  /** Whatever acks two learners' handlers are called with, and in whatever order, they hand the application
      consecutive instances, and never different values for one. */
  lemma HandlersAgree(run: seq<System>, i1: nat, i2: nat, start1: L.Learner, start2: L.Learner,
      acks1: seq<Reply>, acks2: seq<Reply>, l1: L.Learner, l2: L.Learner,
      log1: seq<Record>, log2: seq<Record>)
    requires IsRun(run) && i1 < |run| && i2 < |run|
    requires Fresh(start1, |run[i1].acceptors|) && GenuineAcks(acks1, run[i1].replies)
    requires Fresh(start2, |run[i2].acceptors|) && GenuineAcks(acks2, run[i2].replies)
    requires Handles(start1, acks1, l1, log1) && Handles(start2, acks2, l2, log2)
    ensures forall k :: 0 <= k < |log1| ==> log1[k].iid == log1[0].iid + k && Chosen(run[i1], log1[k].iid, log1[k].value)
    ensures forall j, k :: 0 <= j < |log1| && 0 <= k < |log2| && log1[j].iid == log2[k].iid ==>
              log1[j].value == log2[k].value
  {
    hide Handles, Reaches, IsRun, Chosen, ReceivesOnly, GenuineAcks, Fresh;
    var events1 := HandlingReaches(start1, acks1, l1, log1, run[i1].replies);
    var events2 := HandlingReaches(start2, acks2, l2, log2, run[i2].replies);
    DeliversTheChosenLog(run, i1, start1, events1, l1, log1);
    forall j: nat, k: nat | j < |log1| && k < |log2| && log1[j].iid == log2[k].iid
      ensures log1[j].value == log2[k].value
    {
      LearnersAgree(run, i1, i2, start1, start2, events1, events2, l1, l2, log1, log2, j, k);
    }
  }
}
