/** Client values over whole runs: what was proposed is still held, or was dropped once it had been chosen. */
module ConservationInRuns {
  import opened PaxosTypes
  import opened Protocol
  import opened Safety
  import opened Agreement
  import opened Conservation
  import P = ProposerSpec
  import LA = LearnerAgreement

  /** A run together with the events that made it. */
  ghost predicate IsTrace(run: seq<System>, events: seq<Event>) {
    && |run| == |events| + 1
    && Init(run[0])
    && forall i :: 0 <= i < |events| ==> Step(run[i], events[i], run[i + 1])
  }

  lemma TraceIsRun(run: seq<System>, events: seq<Event>)
    requires IsTrace(run, events)
    ensures IsRun(run)
  {
    hide Init, Step;
    forall i | 0 <= i < |run| - 1
      ensures Next(run[i], run[i + 1])
    {
      assert Step(run[i], events[i], run[i + 1]);
    }
  }

  lemma {:induction false} EmptyHolds(n: nat, v: Value)
    ensures Attached(map[], n, v) == 0
  {
    if n > 0 { EmptyHolds(n - 1, v); }
  }

  // ---- One step ----

  /** Whether event `e` gives `v` to proposer `i`. */
  function GivenBy(e: Event, i: nat, v: Value): nat {
    if e.ClientValue? && e.p == i && e.value == v then 1 else 0
  }

  /** Whether proposer `i` drops `v` in event `e`. */
  function DroppedBy(s: System, e: Event, i: nat, v: Value): nat {
    if e.GetAccepted? && e.p == i && i < |s.proposers| && e.reply.msg.Accepted?
    then One(Dropped(s.proposers[i], e.reply.msg, e.reply.from), v)
    else 0
  }

  lemma ProposerConserves(s: System, e: Event, p': P.Proposer, out: set<Message>, v: Value)
    requires ProposerStep(s, e, p', out) && P.TablesOk(s.proposers[e.p])
    ensures Held(p', v) + DroppedBy(s, e, e.p, v) == Held(s.proposers[e.p], v) + GivenBy(e, e.p, v)
  {
    var p := s.proposers[e.p];
    hide Held, P.TablesOk, Dropped, P.OpenInstance, P.ReceivePromise, P.TryAccept, P.ReceiveAccepted, P.ReceivePreempted,
         P.ReceiveAcceptorState, P.Propose, P.ResendPrepare, P.ResendAccept;
    match e
    case ClientValue(_, w) => ProposeAdds(p, w, v);
    case OpenInstance(_, now) => OpenConserves(p, now, v);
    case GetPromise(_, r, now) => PromiseConserves(p, r.msg, r.from, now, v);
    case SendAccept(_) => AcceptConserves(p, v);
    case GetAccepted(_, r) => AcceptedConserves(p, r.msg, r.from, v);
    case GetPreempted(_, r, now) => PreemptedConserves(p, r.msg, now, v);
    case GetAcceptorState(_, r, order1, order2) => TrimConserves(p, r.msg.trimIid, order1, order2, v);
    case ResendPrepare(_, iid, now) => ResendConserves(p, iid, now, v);
    case ResendAccept(_, iid, now) => ResendConserves(p, iid, now, v);
    case _ =>
  }

  lemma StepConserves(s: System, e: Event, s': System, i: nat, v: Value)
    requires Inv(s) && Step(s, e, s') && i < |s.proposers|
    ensures |s'.proposers| == |s.proposers|
    ensures Held(s'.proposers[i], v) + DroppedBy(s, e, i, v) == Held(s.proposers[i], v) + GivenBy(e, i, v)
  {
    hide Held, Dropped;
    if p', out :| ProposerMoves(s, e, p', out, s') {
      assert ProposerOk(s.proposers[e.p], e.p, |s.acceptors|, s.requests, s.replies);
      ProposerConserves(s, e, p', out, v);
    }
  }

  // ---- Runs ----

  /** How often `v` was given to proposer `i` in the first `n` events. */
  function Given(events: seq<Event>, n: nat, i: nat, v: Value): nat
    requires n <= |events|
  {
    if n == 0 then 0 else Given(events, n - 1, i, v) + GivenBy(events[n - 1], i, v)
  }

  /** How often it dropped `v` in them. */
  function Drops(run: seq<System>, events: seq<Event>, n: nat, i: nat, v: Value): nat
    requires n <= |events| <= |run|
  {
    if n == 0 then 0 else Drops(run, events, n - 1, i, v) + DroppedBy(run[n - 1], events[n - 1], i, v)
  }

  /** Conservation: in every run, at every moment, a proposer holds exactly the client values it was given and has
      not dropped. */
  lemma {:induction false} ValuesAreConserved(run: seq<System>, events: seq<Event>, n: nat, i: nat, v: Value)
    requires IsTrace(run, events) && n < |run| && i < |run[0].proposers|
    ensures i < |run[n].proposers|
    ensures Held(run[n].proposers[i], v) + Drops(run, events, n, i, v) == Given(events, n, i, v)
    decreases n
  {
    if n == 0 {
      EmptyHolds(run[0].proposers[i].nextPrepareIid, v);
    } else {
      ValuesAreConserved(run, events, n - 1, i, v);
      TraceIsRun(run, events);
      RunInv(run, n - 1);
      assert Step(run[n - 1], events[n - 1], run[n - 1 + 1]);
      hide Step, Inv, IsTrace, Held, GivenBy, DroppedBy;
      StepConserves(run[n - 1], events[n - 1], run[n], i, v);
    }
  }

  // ---- A dropped value has been chosen ----

  /** Every ack a proposer counted is a vote for the value it is trying to have accepted. */
  ghost predicate CountsVotes(s: System) {
    forall i :: 0 <= i < |s.proposers| ==> AllCounted(s.proposers[i].accepts, |s.acceptors|, s.replies)
  }

  ghost predicate AllCounted(t: map<nat, P.Instance>, n: nat, replies: set<Reply>) {
    forall iid :: iid in t ==> VotesCounted(t[iid], n, replies)
  }

  ghost predicate VotesCounted(inst: P.Instance, n: nat, replies: set<Reply>) {
    P.HasSomeValue(inst) &&
    forall a :: a in inst.quorum ==> a < n && Voted(replies, a, inst.iid, inst.ballot, P.AcceptValue(inst))
  }

  /** The ack is one `acceptor_receive_accept` made, not a repeat with a raised ballot. */
  ghost predicate AcksGenuine(events: seq<Event>) {
    forall e :: e in events && e.GetAccepted? ==> LA.Genuine(e.reply)
  }

  lemma AckIsVote(s: System, i: nat, r: Reply, iid: nat)
    requires Inv(s) && i < |s.proposers| && iid in s.proposers[i].accepts
    requires r in s.replies && LA.Genuine(r) && r.msg.iid == iid && r.msg.ballot == s.proposers[i].accepts[iid].ballot
    ensures var inst := s.proposers[i].accepts[iid];
            P.HasSomeValue(inst) && inst.iid == iid && r.from < |s.acceptors|
            && Voted(s.replies, r.from, iid, inst.ballot, P.AcceptValue(inst))
  {
    var p := s.proposers[i];
    assert ProposerOk(p, i, |s.acceptors|, s.requests, s.replies);
    var inst := p.accepts[iid];
    assert AcceptingOk(inst, i, s.requests);
    assert Voted(s.replies, r.from, iid, inst.ballot, r.msg.value);
    assert Accept(iid, inst.ballot, r.msg.value) in s.requests;
    assert P.ToAccept(inst) in s.requests;
  }

  lemma AcceptedCountsVotes(s: System, i: nat, r: Reply)
    requires Inv(s) && CountsVotes(s) && i < |s.proposers| && r in s.replies && LA.Genuine(r)
    ensures AllCounted(P.ReceiveAccepted(s.proposers[i], r.msg, r.from).0.accepts, |s.acceptors|, s.replies)
  {
    var p := s.proposers[i];
    assert AllCounted(p.accepts, |s.acceptors|, s.replies);
    if r.msg.iid in p.accepts && r.msg.ballot == p.accepts[r.msg.iid].ballot {
      AckIsVote(s, i, r, r.msg.iid);
      hide Inv, CountsVotes;
      OneMoreCounted(p.accepts[r.msg.iid], r.from, |s.acceptors|, s.replies);
      hide VotesCounted;
    }
  }

  lemma OneMoreCounted(inst: P.Instance, from: nat, n: nat, replies: set<Reply>)
    requires VotesCounted(inst, n, replies) && from < n
    requires Voted(replies, from, inst.iid, inst.ballot, P.AcceptValue(inst))
    ensures VotesCounted(inst.(quorum := inst.quorum + {from}), n, replies)
  {
  }

  /** An instance in the accept table after some other event was there before, is stamped, or has no acks yet. */
  lemma NewAcceptsUncounted(s: System, e: Event, p': P.Proposer, out: set<Message>, iid: nat)
    requires ProposerStep(s, e, p', out) && !e.GetAccepted? && iid in p'.accepts
    ensures var p, inst := s.proposers[e.p], p'.accepts[iid];
            || (P.HasSomeValue(inst) && inst.quorum == {})
            || (iid in p.accepts && inst == p.accepts[iid].(createdAt := inst.createdAt))
  {
  }

  lemma ProposerCountsVotes(s: System, e: Event, p': P.Proposer, out: set<Message>)
    requires Inv(s) && CountsVotes(s) && ProposerStep(s, e, p', out)
    requires e.GetAccepted? ==> LA.Genuine(e.reply)
    ensures AllCounted(p'.accepts, |s.acceptors|, s.replies)
  {
    var p := s.proposers[e.p];
    assert AllCounted(p.accepts, |s.acceptors|, s.replies);
    if e.GetAccepted? {
      AcceptedCountsVotes(s, e.p, e.reply);
    } else {
      hide ProposerStep, Inv, CountsVotes;
      forall iid | iid in p'.accepts
        ensures VotesCounted(p'.accepts[iid], |s.acceptors|, s.replies)
      {
        NewAcceptsUncounted(s, e, p', out, iid);
      }
    }
  }

  lemma MoreReplies(t: map<nat, P.Instance>, n: nat, replies: set<Reply>, replies': set<Reply>)
    requires AllCounted(t, n, replies) && replies <= replies'
    ensures AllCounted(t, n, replies')
  {
    forall iid | iid in t
      ensures VotesCounted(t[iid], n, replies')
    {
      assert VotesCounted(t[iid], n, replies);
    }
  }

  lemma StepCountsVotes(s: System, e: Event, s': System)
    requires Inv(s) && CountsVotes(s) && Step(s, e, s')
    requires e.GetAccepted? ==> LA.Genuine(e.reply)
    ensures CountsVotes(s')
  {
    if p', out :| ProposerMoves(s, e, p', out, s') {
      ProposerCountsVotes(s, e, p', out);
    } else {
      var a', out :| AcceptorMoves(s, e, a', out, s');
      assert s.replies <= s'.replies && |s'.acceptors| == |s.acceptors|;
      hide Inv, AcceptorMoves;
      forall i | 0 <= i < |s'.proposers|
        ensures AllCounted(s'.proposers[i].accepts, |s'.acceptors|, s'.replies)
      {
        MoreReplies(s.proposers[i].accepts, |s.acceptors|, s.replies, s'.replies);
      }
    }
  }

  lemma {:induction false} TraceCountsVotes(run: seq<System>, events: seq<Event>, n: nat)
    requires IsTrace(run, events) && n < |run| && AcksGenuine(events)
    ensures CountsVotes(run[n])
    decreases n
  {
    if n > 0 {
      TraceCountsVotes(run, events, n - 1);
      TraceIsRun(run, events);
      RunInv(run, n - 1);
      assert events[n - 1] in events;
      assert Step(run[n - 1], events[n - 1], run[n - 1 + 1]);
      assert events[n - 1].GetAccepted? ==> LA.Genuine(events[n - 1].reply);
      hide Step, Inv, CountsVotes, IsTrace, AcksGenuine;
      StepCountsVotes(run[n - 1], events[n - 1], run[n]);
    }
  }

  /** As long as only genuine acks are counted, a value is dropped only when it has been chosen. */
  lemma DroppedWasChosen(run: seq<System>, events: seq<Event>, n: nat, i: nat, v: Value)
    requires IsTrace(run, events) && n < |events| && AcksGenuine(events)
    requires DroppedBy(run[n], events[n], i, v) > 0
    ensures Chosen(run[n], events[n].reply.msg.iid, v)
  {
    var s, e := run[n], events[n];
    TraceIsRun(run, events);
    RunInv(run, n);
    TraceCountsVotes(run, events, n);
    assert events[n] in events;
    assert Step(run[n], events[n], run[n + 1]);
    hide IsTrace;
    var p, r := s.proposers[i], e.reply;
    var inst := p.accepts[r.msg.iid];
    AckWasReceived(s, e, run[n + 1]);
    AckIsVote(s, i, r, r.msg.iid);
    assert AllCounted(p.accepts, |s.acceptors|, s.replies);
    assert VotesCounted(inst, |s.acceptors|, s.replies);
    var q := inst.quorum + {r.from};
    assert ProposerOk(p, i, |s.acceptors|, s.requests, s.replies);
    assert IsQuorum(q, |s.acceptors|) && VotedByAll(s.replies, q, inst.iid, inst.ballot, v);
    assert ChosenAt(s, inst.iid, inst.ballot, v);
  }

  lemma AckWasReceived(s: System, e: Event, s': System)
    requires Step(s, e, s') && e.GetAccepted?
    ensures e.reply in s.replies
  {
  }
}
