/** Every proposer step keeps the invariant of module Safety. */
module ProposerSafety {
  import opened PaxosTypes
  import opened Protocol
  import opened Safety
  import P = ProposerSpec
  import PT = ProposerTables

  /** New Accepts of proposer `id` bound nobody else's ballots. */
  lemma OthersUnbothered(x: P.Proposer, j: nat, id: nat, n: nat, requests: set<Message>, out: set<Message>, replies: set<Reply>)
    requires ProposerOk(x, j, n, requests, replies) && j != id
    requires forall iid, b: nat, v :: Accept(iid, b, v) in out ==> b % MAX_N_OF_PROPOSERS == id
    ensures ProposerOk(x, j, n, requests + out, replies)
  {
    forall iid, b | OwnBelow(requests, j, iid, b)
      ensures OwnBelow(requests + out, j, iid, b)
    {
      forall c: nat, v | Accept(iid, c, v) in requests + out && c % MAX_N_OF_PROPOSERS == j
        ensures c < b
      {
        assert Accept(iid, c, v) in requests;
      }
    }
  }

  /** Once the moving proposer and its Accepts are accounted for, the rest of the invariant follows. */
  lemma ProposersKept(s: System, e: Event, p': P.Proposer, out: set<Message>, s': System)
    requires Inv(s) && ProposerMoves(s, e, p', out, s')
    requires ProposerOk(p', e.p, |s.acceptors|, s'.requests, s'.replies)
    requires forall iid, b: nat, v :: Accept(iid, b, v) in out ==> b % MAX_N_OF_PROPOSERS == e.p
    requires AcceptsSafe(s'.requests, s'.replies, |s.acceptors|) && AcceptsUnique(s'.requests)
    ensures Inv(s')
  {
    forall i | 0 <= i < |s'.proposers|
      ensures ProposerOk(s'.proposers[i], i, |s'.acceptors|, s'.requests, s'.replies)
    {
      if i != e.p {
        OthersUnbothered(s.proposers[i], i, e.p, |s.acceptors|, s.requests, out, s.replies);
      }
    }
  }

  ghost predicate NoAccepts(out: set<Message>) {
    forall m :: m in out ==> !m.Accept?
  }

  /** Messages other than Accepts change nothing the invariant says about requests. */
  lemma SilentStep(s: System, e: Event, p': P.Proposer, out: set<Message>, s': System)
    requires Inv(s) && ProposerMoves(s, e, p', out, s') && NoAccepts(out)
    requires ProposerOk(p', e.p, |s.acceptors|, s.requests, s.replies)
    ensures Inv(s')
  {
    SameAccepts(p', e.p, |s.acceptors|, s.requests, out, s.replies);
    assert forall iid, b, v :: Accept(iid, b, v) in s'.requests ==> Accept(iid, b, v) in s.requests;
    ProposersKept(s, e, p', out, s');
  }

  lemma SameAccepts(x: P.Proposer, id: nat, n: nat, requests: set<Message>, out: set<Message>, replies: set<Reply>)
    requires ProposerOk(x, id, n, requests, replies) && NoAccepts(out)
    ensures ProposerOk(x, id, n, requests + out, replies)
  {
    forall iid, b | OwnBelow(requests, id, iid, b)
      ensures OwnBelow(requests + out, id, iid, b)
    {
      forall c: nat, v | Accept(iid, c, v) in requests + out && c % MAX_N_OF_PROPOSERS == id
        ensures c < b
      {
        assert Accept(iid, c, v) in requests;
      }
    }
  }

  // ---- One lemma per kind of step ----

  lemma ProposeKeeps(x: P.Proposer, v: Value, id: nat, n: nat, requests: set<Message>, replies: set<Reply>)
    requires ProposerOk(x, id, n, requests, replies) && v != NO_VALUE
    ensures ProposerOk(P.Propose(x, v), id, n, requests, replies)
  {
  }

  lemma OpenKeeps(x: P.Proposer, now: int, id: nat, n: nat, requests: set<Message>, replies: set<Reply>)
    requires ProposerOk(x, id, n, requests, replies) && id < MAX_N_OF_PROPOSERS
    ensures ProposerOk(P.OpenInstance(x, now).0, id, n, requests, replies)
  {
    var inst := P.NewInstance(x, now);
    assert OwnBelow(requests, id, inst.iid, 0);
    assert PreparingOk(inst, id, n, requests, replies);
  }

  /** Counting a promise keeps the promised value the highest one reported. */
  lemma CountKeepsEvidence(inst: P.Instance, m: Message, from: nat, n: nat, replies: set<Reply>)
    requires Evidence(inst, n, replies) && PromisesTrue(replies)
    requires m.Promise? && Reply(from, m) in replies && from < n
    requires m.iid == inst.iid && m.ballot == inst.ballot
    ensures Evidence(P.CountPromise(inst, m.valueBallot, m.value, from), n, replies)
  {
    var inst' := P.CountPromise(inst, m.valueBallot, m.value, from);
    assert Promised(replies, from, m.iid, m.ballot, m.valueBallot, m.value);
    assert PromiseHolds(replies, from, m.iid, m.ballot, m.valueBallot, m.value);
    forall i | i in inst'.quorum
      ensures i < n && PromisedUpTo(replies, i, inst.iid, inst.ballot, inst'.valueBallot)
    {
      if i in inst.quorum {
        var vb: nat, v :| Promised(replies, i, inst.iid, inst.ballot, vb, v) && vb <= inst.valueBallot;
      }
    }
    if inst'.promisedValue.Some? {
      if inst'.valueBallot == inst.valueBallot && inst'.promisedValue == inst.promisedValue {
        assert ReportedBy(inst, replies);
        var i :| i in inst.quorum
                 && Promised(replies, i, inst.iid, inst.ballot, inst.valueBallot, inst.promisedValue.value);
        assert i in inst'.quorum;
      } else {
        assert from in inst'.quorum;
      }
      assert ReportedBy(inst', replies);
    }
  }

  lemma PreemptKeeps(inst: P.Instance, id: nat, n: nat, requests: set<Message>, replies: set<Reply>, now: int)
    requires OwnBallot(id, inst.ballot) && NonEmpty(inst.value)
    requires OwnBelow(requests, id, inst.iid, inst.ballot + 1)
    ensures PreparingOk(P.Preempt(id, inst, now), id, n, requests, replies)
  {
  }

  lemma PromiseKeeps(x: P.Proposer, r: Reply, now: int, id: nat, n: nat, requests: set<Message>, replies: set<Reply>)
    requires ProposerOk(x, id, n, requests, replies) && PromisesTrue(replies) && FromAcceptors(replies, n)
    requires r in replies && r.msg.Promise?
    ensures ProposerOk(P.ReceivePromise(x, r.msg, r.from, now).0, id, n, requests, replies)
  {
    if r.msg.iid in x.prepares {
      var inst := x.prepares[r.msg.iid];
      if r.msg.ballot > inst.ballot {
        PreemptKeeps(inst, id, n, requests, replies, now);
      } else if r.msg.ballot == inst.ballot && r.from !in inst.quorum {
        CountKeepsEvidence(inst, r.msg, r.from, n, replies);
      }
    }
  }

  lemma AcceptedKeeps(x: P.Proposer, m: Message, from: nat, id: nat, n: nat, requests: set<Message>, replies: set<Reply>)
    requires ProposerOk(x, id, n, requests, replies) && m.Accepted?
    ensures ProposerOk(P.ReceiveAccepted(x, m, from).0, id, n, requests, replies)
  {
  }

  lemma PreemptedKeeps(x: P.Proposer, m: Message, now: int, id: nat, n: nat, requests: set<Message>, replies: set<Reply>)
    requires ProposerOk(x, id, n, requests, replies) && m.Preempted?
    ensures ProposerOk(P.ReceivePreempted(x, m, now).0, id, n, requests, replies)
  {
    if m.iid in x.accepts && m.ballot > x.accepts[m.iid].ballot {
      PreemptKeeps(x.accepts[m.iid], id, n, requests, replies, now);
    }
  }

  lemma {:induction false} PushedBackNonEmpty(t: map<nat, P.Instance>, order: seq<nat>)
    requires forall i :: i in order ==> i in t
    requires forall i :: i in t ==> NonEmpty(t[i].value)
    ensures forall v :: v in P.ValuesOf(t, order) ==> v != NO_VALUE
  {
    if order != [] {
      PushedBackNonEmpty(t, order[1..]);
    }
  }

  lemma AcceptorStateKeeps(x: P.Proposer, trimIid: nat, order1: seq<nat>, order2: seq<nat>,
      id: nat, n: nat, requests: set<Message>, replies: set<Reply>)
    requires ProposerOk(x, id, n, requests, replies)
    requires forall i :: i in order1 ==> i in x.prepares
    requires forall i :: i in order2 ==> i in x.accepts
    ensures ProposerOk(P.ReceiveAcceptorState(x, trimIid, order1, order2), id, n, requests, replies)
  {
    PushedBackNonEmpty(x.prepares, order1);
    PushedBackNonEmpty(x.accepts, order2);
  }

  lemma ResendPrepareKeeps(x: P.Proposer, iid: nat, now: int, id: nat, n: nat, requests: set<Message>, replies: set<Reply>)
    requires ProposerOk(x, id, n, requests, replies) && iid in x.prepares
    ensures ProposerOk(P.ResendPrepare(x, iid, now).0, id, n, requests, replies)
  {
    var inst := x.prepares[iid];
    var inst' := inst.(createdAt := now);
    assert inst.promisedValue.Some? ==> ReportedBy(inst, replies);
    assert inst.promisedValue.Some? ==> ReportedBy(inst', replies);
  }

  /** The heart of phase 2: a quorum of promises makes the value the proposer picks safe. */
  lemma PickedValueSafe(inst: P.Instance, id: nat, n: nat, requests: set<Message>, replies: set<Reply>)
    requires PreparingOk(inst, id, n, requests, replies)
    requires P.QuorumReached(n, inst)
    requires inst.value.Some? || inst.promisedValue.Some?
    requires PromisesTrue(replies) && VotesRequested(requests, replies)
    ensures SafeAt(replies, n, inst.iid, inst.ballot, P.AcceptValue(inst))
  {
    if inst.promisedValue.Some? {
      assert ReportedBy(inst, replies);
      var i :| i in inst.quorum
               && Promised(replies, i, inst.iid, inst.ballot, inst.valueBallot, inst.promisedValue.value);
      assert PromiseHolds(replies, i, inst.iid, inst.ballot, inst.valueBallot, inst.promisedValue.value);
      assert Voted(replies, i, inst.iid, inst.valueBallot, inst.promisedValue.value);
      assert Accept(inst.iid, inst.valueBallot, inst.promisedValue.value) in requests;
      assert inst.valueBallot < inst.ballot;
    }
    assert SafeBy(replies, n, inst.iid, inst.ballot, P.AcceptValue(inst), inst.quorum, inst.valueBallot);
  }

  /** What the proposer guarantees of an Accept it sends for the first time. */
  lemma SentAcceptFresh(x: P.Proposer, x': P.Proposer, m: Message, id: nat, n: nat, requests: set<Message>, replies: set<Reply>)
    requires ProposerOk(x, id, n, requests, replies)
    requires PromisesTrue(replies) && VotesRequested(requests, replies)
    requires P.TryAccept(x) == (x', Some(m))
    ensures m.Accept? && m.value != NO_VALUE && OwnBallot(id, m.ballot)
    ensures SafeAt(replies, n, m.iid, m.ballot, m.value)
    ensures OwnBelow(requests, id, m.iid, m.ballot)
  {
    var iid := Smallest(x.prepares.Keys);
    var inst := x.prepares[iid];
    var sent := x'.accepts[iid].(quorum := inst.quorum);
    assert m == P.ToAccept(sent);
    assert x.values != [] ==> x.values[0] in x.values;
    assert PreparingOk(inst, id, n, requests, replies);
    assert ReportedBySame(inst, sent, replies);
    PickedValueSafe(sent, id, n, requests, replies);
  }

  lemma AcceptAdded(requests: set<Message>, m: Message, id: nat, n: nat, replies: set<Reply>)
    requires AcceptsSafe(requests, replies, n) && AcceptsUnique(requests)
    requires m.Accept? && m.value != NO_VALUE && OwnBallot(id, m.ballot)
    requires SafeAt(replies, n, m.iid, m.ballot, m.value)
    requires OwnBelow(requests, id, m.iid, m.ballot)
    ensures AcceptsSafe(requests + {m}, replies, n) && AcceptsUnique(requests + {m})
  {
  }

  lemma SendAcceptKeepsInv(s: System, p: nat, p': P.Proposer, out: set<Message>, s': System)
    requires Inv(s) && ProposerMoves(s, SendAccept(p), p', out, s')
    ensures Inv(s')
  {
    var x := s.proposers[p];
    var o := P.TryAccept(x).1;
    if o.None? {
      SilentStep(s, SendAccept(p), p', out, s');
    } else {
      var m := o.value;
      SentAcceptFresh(x, p', m, p, |s.acceptors|, s.requests, s.replies);
      AcceptAdded(s.requests, m, p, |s.acceptors|, s.replies);
      AcceptMoveOk(x, p', Smallest(x.prepares.Keys), m, p, |s.acceptors|, s.requests, s.replies);
      ProposersKept(s, SendAccept(p), p', out, s');
    }
  }

  ghost predicate ReportedBySame(inst: P.Instance, inst': P.Instance, replies: set<Reply>) {
    inst.promisedValue.Some? && inst'.promisedValue.Some? ==>
      ReportedBy(inst, replies) == ReportedBy(inst', replies)
  }

  lemma AcceptMoveOk(x: P.Proposer, x': P.Proposer, iid: nat, m: Message, id: nat, n: nat, requests: set<Message>, replies: set<Reply>)
    requires ProposerOk(x, id, n, requests, replies)
    requires P.TryAccept(x) == (x', Some(m))
    requires iid == Smallest(x.prepares.Keys)
    ensures ProposerOk(x', id, n, requests + {m}, replies)
  {
    var inst' := x'.accepts[iid];
    assert x.values != [] ==> x.values[0] in x.values;
    assert forall v :: v in x'.values ==> v in x.values;
    assert m == P.ToAccept(inst') && inst'.iid == iid;
    assert PreparingOk(x.prepares[iid], id, n, requests, replies);
    assert AcceptingOk(inst', id, requests + {m});
    PT.AcceptKeepsTables(x);
    assert x'.prepares == x.prepares - {iid} && x'.accepts == x.accepts[iid := inst'];
    hide P.TryAccept, P.ToAccept, P.TablesOk;
    forall j: nat, b | j != iid && OwnBelow(requests, id, j, b)
      ensures OwnBelow(requests + {m}, id, j, b)
    {
    }
  }

  lemma ResendAcceptKeeps(x: P.Proposer, iid: nat, now: int, id: nat, n: nat, requests: set<Message>, replies: set<Reply>)
    requires ProposerOk(x, id, n, requests, replies) && iid in x.accepts
    ensures x.accepts[iid].value.Some? || x.accepts[iid].promisedValue.Some?
    ensures P.ResendAccept(x, iid, now).1 in requests
    ensures ProposerOk(P.ResendAccept(x, iid, now).0, id, n, requests, replies)
  {
    assert AcceptingOk(x.accepts[iid], id, requests);
    assert AcceptingOk(x.accepts[iid].(createdAt := now), id, requests);
  }

  lemma ResendAcceptKeepsInv(s: System, p: nat, iid: nat, now: int, p': P.Proposer, out: set<Message>, s': System)
    requires Inv(s) && ProposerMoves(s, ResendAccept(p, iid, now), p', out, s')
    ensures Inv(s')
  {
    ResendAcceptKeeps(s.proposers[p], iid, now, p, |s.acceptors|, s.requests, s.replies);
    assert s.requests + out == s.requests;
    assert s' == s.(proposers := s.proposers[p := p']);
  }

  /** The proposer acting on a reply. */
  lemma HearingKeepsInv(s: System, e: Event, p': P.Proposer, out: set<Message>, s': System)
    requires Inv(s) && ProposerMoves(s, e, p', out, s')
    requires e.GetPromise? || e.GetAccepted? || e.GetPreempted? || e.GetAcceptorState?
    ensures Inv(s')
  {
    var x := s.proposers[e.p];
    var n := |s.acceptors|;
    match e {
      case GetPromise(p, r, now) =>
        PromiseKeeps(x, r, now, p, n, s.requests, s.replies);
      case GetAccepted(p, r) =>
        AcceptedKeeps(x, r.msg, r.from, p, n, s.requests, s.replies);
      case GetPreempted(p, r, now) =>
        PreemptedKeeps(x, r.msg, now, p, n, s.requests, s.replies);
      case GetAcceptorState(p, r, order1, order2) =>
        AcceptorStateKeeps(x, r.msg.trimIid, order1, order2, p, n, s.requests, s.replies);
    }
    SilentStep(s, e, p', out, s');
  }

  lemma ProposerKeepsInv(s: System, e: Event, p': P.Proposer, out: set<Message>, s': System)
    requires Inv(s) && ProposerMoves(s, e, p', out, s')
    ensures Inv(s')
  {
    var x := s.proposers[e.p];
    var n := |s.acceptors|;
    match e
    case ClientValue(p, v) =>
      ProposeKeeps(x, v, p, n, s.requests, s.replies);
      SilentStep(s, e, p', out, s');
    case OpenInstance(p, now) =>
      OpenKeeps(x, now, p, n, s.requests, s.replies);
      SilentStep(s, e, p', out, s');
    case SendAccept(p) =>
      SendAcceptKeepsInv(s, p, p', out, s');
    case ResendPrepare(p, iid, now) =>
      ResendPrepareKeeps(x, iid, now, p, n, s.requests, s.replies);
      SilentStep(s, e, p', out, s');
    case ResendAccept(p, iid, now) =>
      ResendAcceptKeepsInv(s, p, iid, now, p', out, s');
    case _ =>
      HearingKeepsInv(s, e, p', out, s');
  }

  lemma NextKeepsInv(s: System, s': System)
    requires Inv(s) && Next(s, s')
    ensures Inv(s')
  {
    var e :| Step(s, e, s');
    if p', out :| ProposerMoves(s, e, p', out, s') {
      ProposerKeepsInv(s, e, p', out, s');
    } else {
      var a', out :| AcceptorMoves(s, e, a', out, s');
      if e.AnswerPrepare? {
        PrepareKeepsInv(s, e.a, e.request, a', out, s');
      } else if e.AnswerAccept? {
        AcceptKeepsInv(s, e.a, e.request, a', out, s');
      } else {
        OtherAnswersKeepInv(s, e, a', out, s');
      }
    }
  }
}
