/** What an acceptor's answers are good for: every request above the trim point is answered, the answer says how
    high a ballot has to be, and it moves on the proposer that asked. */
module AcceptorAnswers {
  import opened PaxosTypes
  import opened AcceptorSpec
  import P = ProposerSpec

  ghost predicate KeyedRecords(a: Acceptor) {
    forall i :: i in a.records ==> a.records[i].iid == i
  }

  /** The highest ballot the acceptor has answered for an instance. */
  function BallotAt(a: Acceptor, iid: nat): nat {
    if iid in a.records then a.records[iid].ballot else 0
  }

  /** The ballot and the value of its last vote. */
  function VoteAt(a: Acceptor, iid: nat): (nat, Value) {
    if iid in a.records then (a.records[iid].valueBallot, a.records[iid].value) else (0, NO_VALUE)
  }

  ghost predicate OthersSame(a: Acceptor, a': Acceptor, iid: nat) {
    && a'.durable == a.durable && a'.trimIid == a.trimIid && KeyedRecords(a')
    && forall j :: j != iid ==> (j in a'.records <==> j in a.records)
                                && (j in a.records ==> a'.records[j] == a.records[j])
  }

  /** A prepare above the trim point is always answered, also one that comes too late: with the higher of the two
      ballots, which is the one stored from then on, and with the last vote, which it does not touch. */
  lemma PrepareIsAnswered(a: Acceptor, iid: nat, ballot: nat)
    requires KeyedRecords(a) && iid > a.trimIid
    ensures var (a', out) := ReceivePrepare(a, iid, ballot);
            && out.Some? && out.value.Promise? && out.value.iid == iid
            && out.value.ballot == BallotAt(a', iid)
            && out.value.ballot >= ballot && out.value.ballot >= BallotAt(a, iid)
            && (out.value.ballot == ballot || out.value.ballot == BallotAt(a, iid))
            && (out.value.valueBallot, out.value.value) == VoteAt(a, iid) == VoteAt(a', iid)
            && (BallotAt(a, iid) > ballot ==> a' == a && out.value.ballot > ballot)
            && OthersSame(a, a', iid)
  {
  }

  /** An accept above the trim point is accepted if and only if no higher ballot was answered, and is refused with
      that ballot otherwise. */
  lemma AcceptIsAnswered(a: Acceptor, iid: nat, ballot: nat, value: Value)
    requires KeyedRecords(a) && iid > a.trimIid
    ensures var (a', out) := ReceiveAccept(a, iid, ballot, value);
            && out.Some? && (out.value.Accepted? <==> BallotAt(a, iid) <= ballot)
            && (out.value.Accepted? ==> out.value == Accepted(iid, ballot, ballot, value)
                                        && BallotAt(a', iid) == ballot && VoteAt(a', iid) == (ballot, value))
            && (!out.value.Accepted? ==> out.value == Preempted(iid, BallotAt(a, iid)) && a' == a)
            && OthersSame(a, a', iid)
  {
  }

  /** A request is left unanswered if and only if its instance is trimmed, and then does nothing. */
  lemma UnansweredIffTrimmed(a: Acceptor, iid: nat, ballot: nat, value: Value)
    ensures ReceivePrepare(a, iid, ballot).1.None? <==> iid <= a.trimIid
    ensures ReceiveAccept(a, iid, ballot, value).1.None? <==> iid <= a.trimIid
    ensures iid <= a.trimIid ==>
              ReceivePrepare(a, iid, ballot).0 == a && ReceiveAccept(a, iid, ballot, value).0 == a
  {
  }

  /** A request that arrives twice is answered twice, with the same words, and does nothing more. */
  lemma AnswersAgainTheSame(a: Acceptor, iid: nat, ballot: nat, value: Value)
    ensures var (a1, out) := ReceivePrepare(a, iid, ballot); ReceivePrepare(a1, iid, ballot) == (a1, out)
    ensures var (a1, out) := ReceiveAccept(a, iid, ballot, value); ReceiveAccept(a1, iid, ballot, value) == (a1, out)
  {
    var b1 := ReceivePrepare(a, iid, ballot).0;
    assert ReceivePrepare(b1, iid, ballot).0.records == b1.records;
    var c1 := ReceiveAccept(a, iid, ballot, value).0;
    assert ReceiveAccept(c1, iid, ballot, value).0.records == c1.records;
  }

  // ---- One answer after another ----

  /** The ballot of a Promise is what an Accept has to reach from then on. */
  lemma PromiseDecidesAccepts(a: Acceptor, iid: nat, ballot: nat, later: nat, value: Value)
    requires KeyedRecords(a) && iid > a.trimIid
    ensures var (a', out) := ReceivePrepare(a, iid, ballot);
            && out.Some? && out.value.Promise?
            && ReceiveAccept(a', iid, later, value).1 ==
               Some(if later >= out.value.ballot then Accepted(iid, later, later, value)
                    else Preempted(iid, out.value.ballot))
  {
    PrepareIsAnswered(a, iid, ballot);
    AcceptIsAnswered(ReceivePrepare(a, iid, ballot).0, iid, later, value);
  }

  /** The acceptor after prepares for `iid` at these ballots. */
  function Prepared(a: Acceptor, iid: nat, ballots: seq<nat>): Acceptor {
    if ballots == [] then a else ReceivePrepare(Prepared(a, iid, ballots[..|ballots| - 1]), iid, ballots[|ballots| - 1]).0
  }

  lemma {:induction false} PreparedKeepsVote(a: Acceptor, iid: nat, ballots: seq<nat>)
    requires KeyedRecords(a) && iid > a.trimIid
    ensures var a' := Prepared(a, iid, ballots);
            KeyedRecords(a') && a'.trimIid == a.trimIid && VoteAt(a', iid) == VoteAt(a, iid)
            && BallotAt(a', iid) >= BallotAt(a, iid) && forall b :: b in ballots ==> BallotAt(a', iid) >= b
  {
    if ballots != [] {
      var front, last := ballots[..|ballots| - 1], ballots[|ballots| - 1];
      PreparedKeepsVote(a, iid, front);
      PrepareIsAnswered(Prepared(a, iid, front), iid, last);
      assert ballots == front + [last];
    }
  }

  /** Once a value is accepted, every Promise reports it, however many prepares have come in between, and a repeat
      returns it, at its own ballot as long as there were none. */
  lemma VoteIsReported(a: Acceptor, iid: nat, ballot: nat, value: Value, ballots: seq<nat>, last: nat)
    requires KeyedRecords(a) && iid > a.trimIid && BallotAt(a, iid) <= ballot && value != NO_VALUE
    ensures var a1 := ReceiveAccept(a, iid, ballot, value).0;
            var out := ReceivePrepare(Prepared(a1, iid, ballots), iid, last).1;
            && out.Some? && out.value.Promise? && (out.value.valueBallot, out.value.value) == (ballot, value)
            && ReceiveRepeat(a1, iid) == ReceiveAccept(a, iid, ballot, value).1
            && var again := ReceiveRepeat(Prepared(a1, iid, ballots), iid);
               again.Some? && again.value.Accepted? && again.value.iid == iid
               && (again.value.valueBallot, again.value.value) == (ballot, value)
               && again.value.ballot == BallotAt(Prepared(a1, iid, ballots), iid)
  {
    AcceptIsAnswered(a, iid, ballot, value);
    var a1 := ReceiveAccept(a, iid, ballot, value).0;
    PreparedKeepsVote(a1, iid, ballots);
    PrepareIsAnswered(Prepared(a1, iid, ballots), iid, last);
  }

  /** A trim silences the instances it covers and changes no answer about the others. What it covers can still be
      repeated from memory, but not from the durable store. */
  lemma TrimSparesTheRest(a: Acceptor, trimIid: nat, iid: nat, ballot: nat, value: Value)
    ensures var a' := ReceiveTrim(a, trimIid);
            && a'.trimIid == (if trimIid > a.trimIid then trimIid else a.trimIid)
            && (iid <= trimIid ==> ReceivePrepare(a', iid, ballot).1.None? && ReceiveAccept(a', iid, ballot, value).1.None?)
            && (iid > trimIid ==> ReceivePrepare(a', iid, ballot).1 == ReceivePrepare(a, iid, ballot).1
                                  && ReceiveAccept(a', iid, ballot, value).1 == ReceiveAccept(a, iid, ballot, value).1
                                  && ReceiveRepeat(a', iid) == ReceiveRepeat(a, iid))
            && (a.trimIid < trimIid && iid <= trimIid ==>
                  ReceiveRepeat(a', iid) == if a.durable then None else ReceiveRepeat(a, iid))
  {
  }

  // ---- What the answer does to the proposer that asked ----

  /** The instance is to be prepared again, at the next ballot of its proposer, and the Prepare says so. */
  ghost predicate AsksAgain(q: P.Proposer, iid: nat, ballot: nat, out: Option<Message>) {
    && iid in q.prepares && q.prepares[iid].ballot == ballot + MAX_N_OF_PROPOSERS && q.prepares[iid].quorum == {}
    && out == Some(Prepare(iid, ballot + MAX_N_OF_PROPOSERS))
  }

  /** A proposer that has asked an acceptor to prepare gets on by the answer: the acceptor counts for its ballot, or
      it asks again with a higher one, which it does exactly if the acceptor had answered a higher one. */
  lemma PromiseMovesProposer(a: Acceptor, p: P.Proposer, iid: nat, from: nat, now: int)
    requires KeyedRecords(a) && iid > a.trimIid
    requires P.TablesOk(p) && iid in p.prepares && p.prepares[iid].ballot > 0
    ensures var ballot := p.prepares[iid].ballot;
            var out := ReceivePrepare(a, iid, ballot).1;
            && out.Some? && out.value.Promise?
            && var (q, prepare) := P.ReceivePromise(p, out.value, from, now);
               if BallotAt(a, iid) > ballot then AsksAgain(q, iid, ballot, prepare)
               else prepare == None && iid in q.prepares && q.prepares[iid].ballot == ballot
                    && q.prepares[iid].quorum == p.prepares[iid].quorum + {from}
  {
    PrepareIsAnswered(a, iid, p.prepares[iid].ballot);
  }

  /** The same for a proposer that has asked it to accept: its ack is counted, and closes the instance if that makes
      a majority, or the instance goes back to be prepared. */
  lemma AckMovesProposer(a: Acceptor, p: P.Proposer, iid: nat, from: nat, now: int)
    requires KeyedRecords(a) && iid > a.trimIid
    requires P.TablesOk(p) && iid in p.accepts && p.accepts[iid].ballot > 0 && from !in p.accepts[iid].quorum
    ensures var inst := p.accepts[iid];
            var out := ReceiveAccept(a, iid, inst.ballot, P.AcceptValue(inst)).1;
            && out.Some?
            && if BallotAt(a, iid) > inst.ballot then
                 out.value.Preempted?
                 && var (q, prepare) := P.ReceivePreempted(p, out.value, now);
                    iid !in q.accepts && AsksAgain(q, iid, inst.ballot, prepare)
               else
                 out.value.Accepted?
                 && var (q, counted) := P.ReceiveAccepted(p, out.value, from);
                    counted && if |inst.quorum + {from}| >= Majority(p.acceptors) then iid !in q.accepts
                               else iid in q.accepts && q.accepts[iid].quorum == inst.quorum + {from}
  {
    AcceptIsAnswered(a, iid, p.accepts[iid].ballot, P.AcceptValue(p.accepts[iid]));
  }
}
