/** What each operation of a proposer does to its instances, and that nothing pending is left unasked: whatever a
    proposer waits for, it has sent the request for. */
module ProposerAnswers {
  import opened PaxosTypes
  import opened Protocol
  import opened Safety
  import opened Agreement
  import P = ProposerSpec

  // ---- One instance ----

  /** Nothing but instance `iid` has changed. */
  ghost predicate OnlyInstance(p: P.Proposer, q: P.Proposer, iid: nat) {
    && q.id == p.id && q.acceptors == p.acceptors && q.maxTrimIid == p.maxTrimIid && q.nextPrepareIid == p.nextPrepareIid
    && p.prepares - {iid} == q.prepares - {iid} && p.accepts - {iid} == q.accepts - {iid}
  }

  /** `iid` starts over at the next ballot: nothing counted, nothing promised, its client value kept, the time of
      the preemption noted, and the Prepare sent is for the ballot it now has. */
  ghost predicate StartsOver(inst: P.Instance, q: P.Proposer, out: Option<Message>, now: int) {
    && inst.iid in q.prepares && inst.iid !in q.accepts
    && q.prepares[inst.iid] == P.Instance(inst.iid, inst.ballot + MAX_N_OF_PROPOSERS, inst.value, None, 0, {}, now)
    && out == Some(Prepare(inst.iid, q.prepares[inst.iid].ballot))
  }

  /** A promise preempts if and only if its ballot is higher; otherwise it counts its sender if and only if it is at
      the instance's ballot and the sender's first; otherwise it does nothing. */
  lemma PromiseDoes(p: P.Proposer, m: Message, from: nat, now: int)
    requires P.TablesOk(p) && m.Promise? && m.iid in p.prepares && p.prepares[m.iid].ballot > 0
    ensures var inst := p.prepares[m.iid];
            var (q, out) := P.ReceivePromise(p, m, from, now);
            && OnlyInstance(p, q, m.iid) && q.values == p.values && q.accepts == p.accepts
            && (out.Some? <==> m.ballot > inst.ballot)
            && (out.Some? ==> StartsOver(inst, q, out, now))
            && (m.ballot < inst.ballot || (m.ballot == inst.ballot && from in inst.quorum) ==> q == p)
            && (m.ballot == inst.ballot && from !in inst.quorum ==> Counts(inst, q, m, from))
  {
  }

  /** `from` is counted; its vote is recorded if it is higher than those reported so far. */
  ghost predicate Counts(inst: P.Instance, q: P.Proposer, m: Message, from: nat)
    requires m.Promise?
  {
    && inst.iid in q.prepares
    && var inst' := q.prepares[inst.iid];
       && inst'.ballot == inst.ballot && inst'.value == inst.value && inst'.createdAt == inst.createdAt
       && inst'.quorum == inst.quorum + {from}
       && (m.value != NO_VALUE && m.valueBallot > inst.valueBallot ==>
             inst'.valueBallot == m.valueBallot && inst'.promisedValue == Some(m.value))
       && (m.value == NO_VALUE || m.valueBallot <= inst.valueBallot ==>
             inst'.valueBallot == inst.valueBallot && inst'.promisedValue == inst.promisedValue)
  }

  lemma StrayPromiseDoesNothing(p: P.Proposer, m: Message, from: nat, now: int)
    requires m.Promise? && m.iid !in p.prepares
    ensures P.ReceivePromise(p, m, from, now) == (p, None)
  {
  }

  /** A preemption takes effect if and only if its ballot is higher than that of an instance being accepted. */
  lemma PreemptedDoes(p: P.Proposer, m: Message, now: int)
    requires P.TablesOk(p) && m.Preempted? && forall i :: i in p.accepts ==> p.accepts[i].ballot > 0
    ensures var (q, out) := P.ReceivePreempted(p, m, now);
            && (out.Some? <==> m.iid in p.accepts && m.ballot > p.accepts[m.iid].ballot)
            && (out.Some? ==> StartsOver(p.accepts[m.iid], q, out, now)
                              && OnlyInstance(p, q, m.iid) && q.values == p.values)
            && (out.None? ==> q == p)
  {
    if m.iid in p.accepts { assert (p.prepares - {m.iid}).Keys == p.prepares.Keys; }
  }

  /** An ack is reported as counted if and only if it is for an instance being accepted, at its ballot and its
      sender's first, which is if and only if it changes anything; it closes the instance exactly at a majority. */
  lemma AcceptedDoes(p: P.Proposer, m: Message, from: nat)
    requires P.TablesOk(p) && m.Accepted?
    ensures var (q, counted) := P.ReceiveAccepted(p, m, from);
            && (counted <==> m.iid in p.accepts && m.ballot == p.accepts[m.iid].ballot && from !in p.accepts[m.iid].quorum)
            && (counted <==> q != p)
            && OnlyInstance(p, q, m.iid) && q.prepares == p.prepares
            && (counted ==>
                  var quorum := p.accepts[m.iid].quorum + {from};
                  && (m.iid !in q.accepts <==> |quorum| >= Majority(p.acceptors))
                  && (m.iid in q.accepts ==> q.accepts[m.iid] == p.accepts[m.iid].(quorum := quorum)
                                             && q.values == p.values))
  {
    var q := P.ReceiveAccepted(p, m, from).0;
    if m.iid in p.accepts && m.iid in q.accepts && from !in p.accepts[m.iid].quorum {
      assert q.accepts[m.iid] == p.accepts[m.iid] || from in q.accepts[m.iid].quorum;
    }
  }

  /** Opening takes the iid after the last one, which is in use nowhere, for an instance nothing is known about. */
  lemma OpenDoes(p: P.Proposer, now: int)
    requires P.TablesOk(p)
    ensures var (q, m) := P.OpenInstance(p, now);
            var iid := p.nextPrepareIid + 1;
            && iid !in p.prepares && iid !in p.accepts
            && q == p.(nextPrepareIid := iid, prepares := q.prepares) && q.prepares - {iid} == p.prepares
            && iid in q.prepares
            && q.prepares[iid] == P.Instance(iid, MAX_N_OF_PROPOSERS + p.id, None, None, 0, {}, now)
            && m == Prepare(iid, q.prepares[iid].ballot)
  {
  }

  // ---- Trim reports ----

  /** A report removes the instances at or below its trim point and no others; it is ignored if an earlier one was
      higher, so reports may arrive in any order. */
  lemma ReportDoes(p: P.Proposer, trimIid: nat, order1: seq<nat>, order2: seq<nat>)
    requires P.IsScan(order1, P.Trimmed(p.prepares, trimIid).Keys) && P.IsScan(order2, P.Trimmed(p.accepts, trimIid).Keys)
    ensures var q := P.ReceiveAcceptorState(p, trimIid, order1, order2);
            && q.maxTrimIid == (if p.maxTrimIid > trimIid then p.maxTrimIid else trimIid)
            && (p.maxTrimIid > trimIid ==> q == p)
            && (p.maxTrimIid <= trimIid ==>
                  q.nextPrepareIid == if p.nextPrepareIid < trimIid then trimIid else p.nextPrepareIid)
            && q.id == p.id && q.acceptors == p.acceptors
            && (forall i :: i in q.prepares <==> i in p.prepares && (i > trimIid || p.maxTrimIid > trimIid))
            && (forall i :: i in q.accepts <==> i in p.accepts && (i > trimIid || p.maxTrimIid > trimIid))
            && (forall i :: i in q.prepares ==> q.prepares[i] == p.prepares[i])
            && (forall i :: i in q.accepts ==> q.accepts[i] == p.accepts[i])
  {
  }

  lemma OldReportIsIgnored(p: P.Proposer, t: nat, order1: seq<nat>, order2: seq<nat>,
                           older: nat, order3: seq<nat>, order4: seq<nat>)
    requires P.IsScan(order1, P.Trimmed(p.prepares, t).Keys) && P.IsScan(order2, P.Trimmed(p.accepts, t).Keys) && older < t
    ensures var q := P.ReceiveAcceptorState(p, t, order1, order2);
            P.Listed(order3, q.prepares) && P.Listed(order4, q.accepts) ==>
              P.ReceiveAcceptorState(q, older, order3, order4) == q
  {
    ReportDoes(p, t, order1, order2);
  }

  // ---- Many answers ----

  /** The acceptors among the senders that promised `iid` at ballot `b`. */
  function Promisers(acks: seq<Reply>, iid: nat, b: nat): set<nat> {
    set r | r in acks && r.msg.Promise? && r.msg.iid == iid && r.msg.ballot == b :: r.from
  }

  ghost predicate NoneHigher(acks: seq<Reply>, iid: nat, b: nat) {
    forall r :: r in acks && r.msg.Promise? && r.msg.iid == iid ==> r.msg.ballot <= b
  }

  /** The proposer after these promises. */
  function AfterPromises(p: P.Proposer, acks: seq<Reply>, now: int): P.Proposer
    requires forall r :: r in acks ==> r.msg.Promise?
  {
    if acks == [] then p
    else
      var last := acks[|acks| - 1];
      P.ReceivePromise(AfterPromises(p, acks[..|acks| - 1], now), last.msg, last.from, now).0
  }

  lemma OnePromise(p: P.Proposer, m: Message, from: nat, now: int, iid: nat)
    requires iid in p.prepares && m.Promise? && (m.iid == iid ==> m.ballot <= p.prepares[iid].ballot)
    ensures var q := P.ReceivePromise(p, m, from, now).0;
            var counted := if m.iid == iid && m.ballot == p.prepares[iid].ballot then {from} else {};
            && iid in q.prepares && q.prepares[iid].iid == p.prepares[iid].iid
            && q.prepares[iid].ballot == p.prepares[iid].ballot && q.prepares[iid].value == p.prepares[iid].value
            && q.prepares[iid].quorum == p.prepares[iid].quorum + counted
  {
  }

  lemma PromisersMore(front: seq<Reply>, last: Reply, iid: nat, b: nat)
    requires last.msg.Promise?
    ensures Promisers(front + [last], iid, b) ==
            Promisers(front, iid, b) + if last.msg.iid == iid && last.msg.ballot == b then {last.from} else {}
  {
  }

  /** Whatever promises arrive, in any order and any number of times, as long as none for `iid` is higher than its
      ballot, those at its ballot are counted, each sender once, and no others. */
  lemma {:induction false} PromisesAreCounted(p: P.Proposer, acks: seq<Reply>, now: int, iid: nat)
    requires P.TablesOk(p) && iid in p.prepares
    requires (forall r :: r in acks ==> r.msg.Promise?) && NoneHigher(acks, iid, p.prepares[iid].ballot)
    ensures var q := AfterPromises(p, acks, now);
            && iid in q.prepares && q.prepares[iid].iid == iid && q.prepares[iid].ballot == p.prepares[iid].ballot
            && q.prepares[iid].value == p.prepares[iid].value
            && q.prepares[iid].quorum == p.prepares[iid].quorum + Promisers(acks, iid, p.prepares[iid].ballot)
    decreases |acks|
  {
    var b := p.prepares[iid].ballot;
    if acks == [] {
      assert Promisers(acks, iid, b) == {};
    } else {
      var front, last := acks[..|acks| - 1], acks[|acks| - 1];
      assert acks == front + [last] && last in acks;
      PromisesAreCounted(p, front, now, iid);
      OnePromise(AfterPromises(p, front, now), last.msg, last.from, now, iid);
      PromisersMore(front, last, iid, b);
      hide P.ReceivePromise, Promisers, P.TablesOk;
    }
  }

  /** The acceptors among the senders that accepted `iid` at ballot `b`. */
  function Acceptors(acks: seq<Reply>, iid: nat, b: nat): set<nat> {
    set r | r in acks && r.msg.Accepted? && r.msg.iid == iid && r.msg.ballot == b :: r.from
  }

  function AfterAcks(p: P.Proposer, acks: seq<Reply>): P.Proposer
    requires forall r :: r in acks ==> r.msg.Accepted?
  {
    if acks == [] then p
    else
      var last := acks[|acks| - 1];
      P.ReceiveAccepted(AfterAcks(p, acks[..|acks| - 1]), last.msg, last.from).0
  }

  lemma OneAck(p: P.Proposer, m: Message, from: nat, iid: nat)
    requires m.Accepted?
    ensures var q := P.ReceiveAccepted(p, m, from).0;
            && q.acceptors == p.acceptors
            && (iid !in p.accepts ==> iid !in q.accepts)
            && (iid in p.accepts && (m.iid != iid || m.ballot != p.accepts[iid].ballot || from in p.accepts[iid].quorum) ==>
                  iid in q.accepts && q.accepts[iid] == p.accepts[iid])
            && (iid in p.accepts && m.iid == iid && m.ballot == p.accepts[iid].ballot && from !in p.accepts[iid].quorum ==>
                  var quorum := p.accepts[iid].quorum + {from};
                  && (iid !in q.accepts <==> |quorum| >= Majority(p.acceptors))
                  && (iid in q.accepts ==> q.accepts[iid] == p.accepts[iid].(quorum := quorum)))
  {
  }

  lemma AcceptorsMore(before: set<nat>, front: seq<Reply>, last: Reply, iid: nat, b: nat)
    requires last.msg.Accepted?
    ensures before + Acceptors(front + [last], iid, b) ==
            before + Acceptors(front, iid, b) + if last.msg.iid == iid && last.msg.ballot == b then {last.from} else {}
  {
  }

  /** Whatever acks arrive, an instance is closed exactly when those at its ballot come from a majority. */
  lemma {:induction false} AcksClose(p: P.Proposer, acks: seq<Reply>, iid: nat)
    requires P.TablesOk(p) && iid in p.accepts && |p.accepts[iid].quorum| < Majority(p.acceptors)
    requires forall r :: r in acks ==> r.msg.Accepted?
    ensures var q := AfterAcks(p, acks);
            var quorum := p.accepts[iid].quorum + Acceptors(acks, iid, p.accepts[iid].ballot);
            && q.acceptors == p.acceptors
            && (iid !in q.accepts <==> |quorum| >= Majority(p.acceptors))
            && (iid in q.accepts ==> q.accepts[iid] == p.accepts[iid].(quorum := quorum))
    decreases |acks|
  {
    var b, before := p.accepts[iid].ballot, p.accepts[iid].quorum;
    if acks == [] {
      assert before + Acceptors(acks, iid, b) == before;
    } else {
      var front, last := acks[..|acks| - 1], acks[|acks| - 1];
      assert acks == front + [last] && last in acks;
      AcksClose(p, front, iid);
      OneAck(AfterAcks(p, front), last.msg, last.from, iid);
      AcceptorsMore(before, front, last, iid, b);
      hide P.ReceiveAccepted, Acceptors, P.TablesOk;
      SubsetSize(before + Acceptors(front, iid, b), before + Acceptors(acks, iid, b));
      if last.from in before + Acceptors(front, iid, b) {
        assert before + Acceptors(acks, iid, b) == before + Acceptors(front, iid, b);
      }
    }
  }

  // ---- Every run ----

  /** Every request the proposer waits for an answer to was sent. */
  ghost predicate Asked(p: P.Proposer, requests: set<Message>) {
    && (forall i :: i in p.prepares ==> Prepare(i, p.prepares[i].ballot) in requests)
    && (forall i :: i in p.accepts ==> P.HasSomeValue(p.accepts[i]) && P.ToAccept(p.accepts[i]) in requests)
  }

  /** The request is about an instance as it is pending now, at its ballot and with its value. */
  ghost predicate IsPending(p: P.Proposer, m: Message) {
    || (m.Prepare? && m.iid in p.prepares && m.ballot == p.prepares[m.iid].ballot)
    || (m.Accept? && m.iid in p.accepts && P.HasSomeValue(p.accepts[m.iid]) && m == P.ToAccept(p.accepts[m.iid]))
  }

  /** Whatever is sent is about an instance as it is left, and whatever is started is sent. */
  ghost predicate Announces(p: P.Proposer, q: P.Proposer, out: set<Message>) {
    && (forall m :: m in out ==> IsPending(q, m))
    && (forall i :: i in q.prepares ==>
          || (i in p.prepares && p.prepares[i].ballot == q.prepares[i].ballot)
          || Prepare(i, q.prepares[i].ballot) in out)
    && (forall i :: i in q.accepts ==>
          && P.HasSomeValue(q.accepts[i])
          && (|| (i in p.accepts && P.HasSomeValue(p.accepts[i]) && P.ToAccept(p.accepts[i]) == P.ToAccept(q.accepts[i]))
              || P.ToAccept(q.accepts[i]) in out))
  }

  lemma OpenAnnounces(p: P.Proposer, now: int)
    requires P.TablesOk(p)
    ensures var (q, m) := P.OpenInstance(p, now); Announces(p, q, {m})
  {
  }

  lemma PromiseAnnounces(p: P.Proposer, m: Message, from: nat, now: int)
    requires P.TablesOk(p) && m.Promise?
    ensures var (q, o) := P.ReceivePromise(p, m, from, now); Announces(p, q, Sent(o))
  {
  }

  lemma AcceptAnnounces(p: P.Proposer)
    requires P.TablesOk(p)
    ensures var (q, o) := P.TryAccept(p); Announces(p, q, Sent(o))
  {
  }

  lemma AckAnnounces(p: P.Proposer, m: Message, from: nat)
    requires P.TablesOk(p) && m.Accepted?
    ensures Announces(p, P.ReceiveAccepted(p, m, from).0, {})
  {
  }

  lemma PreemptionAnnounces(p: P.Proposer, m: Message, now: int)
    requires P.TablesOk(p) && m.Preempted?
    ensures var (q, o) := P.ReceivePreempted(p, m, now); Announces(p, q, Sent(o))
  {
  }

  lemma ReportAnnounces(p: P.Proposer, trimIid: nat, order1: seq<nat>, order2: seq<nat>)
    requires P.TablesOk(p) && P.Listed(order1, p.prepares) && P.Listed(order2, p.accepts)
    ensures Announces(p, P.ReceiveAcceptorState(p, trimIid, order1, order2), {})
  {
  }

  lemma ResendsAnnounce(p: P.Proposer, iid: nat, now: int)
    requires P.TablesOk(p)
    ensures iid in p.prepares ==> var (q, m) := P.ResendPrepare(p, iid, now); Announces(p, q, {m})
    ensures iid in p.accepts ==> var (q, m) := P.ResendAccept(p, iid, now); Announces(p, q, {m})
  {
  }

  /** Whatever a step sends is about an instance as the step leaves it, and whatever a step starts is sent. */
  lemma StepAnnounces(s: System, e: Event, q: P.Proposer, out: set<Message>)
    requires ProposerStep(s, e, q, out) && P.TablesOk(s.proposers[e.p])
    ensures Announces(s.proposers[e.p], q, out)
  {
    var p := s.proposers[e.p];
    match e
    case ClientValue(_, v) => Unchanged(p, P.Propose(p, v));
    case OpenInstance(_, now) => OpenAnnounces(p, now);
    case GetPromise(_, r, now) => PromiseAnnounces(p, r.msg, r.from, now);
    case SendAccept(_) => AcceptAnnounces(p);
    case GetAccepted(_, r) => AckAnnounces(p, r.msg, r.from);
    case GetPreempted(_, r, now) => PreemptionAnnounces(p, r.msg, now);
    case GetAcceptorState(_, r, order1, order2) => ReportAnnounces(p, r.msg.trimIid, order1, order2);
    case ResendPrepare(_, iid, now) => ResendsAnnounce(p, iid, now);
    case ResendAccept(_, iid, now) => ResendsAnnounce(p, iid, now);
  }

  lemma Unchanged(p: P.Proposer, q: P.Proposer)
    requires P.TablesOk(p) && q.prepares == p.prepares && q.accepts == p.accepts
    ensures Announces(p, q, {})
  {
  }

  lemma AsksOn(p: P.Proposer, q: P.Proposer, out: set<Message>, requests: set<Message>)
    requires Asked(p, requests) && Announces(p, q, out)
    ensures Asked(q, requests + out)
  {
  }

  ghost predicate AllAsked(s: System) {
    forall i :: 0 <= i < |s.proposers| ==> Asked(s.proposers[i], s.requests)
  }

  lemma NextAsks(s: System, s': System)
    requires Inv(s) && Next(s, s') && AllAsked(s)
    ensures AllAsked(s')
  {
    var e :| Step(s, e, s');
    if q, out :| ProposerMoves(s, e, q, out, s') {
      assert ProposerOk(s.proposers[e.p], e.p, |s.acceptors|, s.requests, s.replies);
      StepAnnounces(s, e, q, out);
      AsksOn(s.proposers[e.p], q, out, s.requests);
      hide ProposerStep, Inv, Announces, P.TablesOk;
      forall i | 0 <= i < |s'.proposers|
        ensures Asked(s'.proposers[i], s'.requests)
      {
        assert i != e.p ==> Asked(s.proposers[i], s.requests);
      }
    }
  }

  /** In every run, an instance being prepared has had a Prepare sent at its present ballot, and one being accepted
      an Accept at its ballot and with its value. */
  lemma {:induction false} AskedInEveryRun(run: seq<System>, k: nat)
    requires IsRun(run) && k < |run|
    ensures AllAsked(run[k])
  {
    hide Next, AllAsked;
    if k == 0 {
      NothingAsked(run[0]);
    } else {
      AskedInEveryRun(run, k - 1);
      RunInv(run, k - 1);
      assert Next(run[k - 1], run[k - 1 + 1]);
      NextAsks(run[k - 1], run[k]);
    }
  }

  lemma NothingAsked(s: System)
    requires Init(s)
    ensures AllAsked(s)
  {
  }
}
