/** The inductive invariant of the protocol and the proof that every step keeps it. */
module Safety {
  import opened PaxosTypes
  import opened Protocol
  import A = AcceptorSpec
  import P = ProposerSpec

  // ---- Acceptors ----

  ghost predicate RecordOk(r: Record, i: nat, iid: nat, replies: set<Reply>) {
    && r.iid == iid
    && r.valueBallot <= r.ballot
    && (r.value == NO_VALUE ==> r.valueBallot == 0)
    && (r.value != NO_VALUE ==> r.valueBallot > 0 && Voted(replies, i, iid, r.valueBallot, r.value))
  }

  ghost predicate RecordsOk(a: A.Acceptor, i: nat, replies: set<Reply>) {
    forall iid :: iid in a.records ==> RecordOk(a.records[iid], i, iid, replies)
  }

  /** An acceptor's record is never behind what the acceptor has accepted or promised. */
  ghost predicate VotesKept(a: A.Acceptor, i: nat, replies: set<Reply>) {
    forall iid: nat, b: nat, v :: Voted(replies, i, iid, b, v) ==>
      && (iid > a.trimIid ==> iid in a.records)
      && (iid in a.records ==> b <= a.records[iid].valueBallot)
  }

  ghost predicate PromisesKept(a: A.Acceptor, i: nat, replies: set<Reply>) {
    forall iid: nat, b: nat, vb: nat, v :: Promised(replies, i, iid, b, vb, v) && iid > a.trimIid ==>
      iid in a.records && b <= a.records[iid].ballot
  }

  ghost predicate AcceptorOk(a: A.Acceptor, i: nat, replies: set<Reply>) {
    RecordsOk(a, i, replies) && VotesKept(a, i, replies) && PromisesKept(a, i, replies)
  }

  /** What a Promise says: `v` was accepted at `vb`, and nothing at any ballot strictly between `vb` and `b`. */
  ghost predicate PromiseHolds(replies: set<Reply>, i: nat, iid: nat, b: nat, vb: nat, v: Value) {
    && vb <= b
    && (v == NO_VALUE ==> vb == 0)
    && (v != NO_VALUE ==> vb > 0 && Voted(replies, i, iid, vb, v))
    && forall c: nat, w :: Voted(replies, i, iid, c, w) ==> c <= vb || b <= c
  }

  ghost predicate PromisesTrue(replies: set<Reply>) {
    forall i: nat, iid: nat, b: nat, vb: nat, v :: Promised(replies, i, iid, b, vb, v) ==>
      PromiseHolds(replies, i, iid, b, vb, v)
  }

  ghost predicate FromAcceptors(replies: set<Reply>, n: nat) {
    forall r :: r in replies ==> r.from < n
  }

  ghost predicate VotesRequested(requests: set<Message>, replies: set<Reply>) {
    forall i: nat, iid: nat, b: nat, v :: Voted(replies, i, iid, b, v) ==>
      iid > 0 && Accept(iid, b, v) in requests
  }

  // ---- Accept requests ----

  /** Acceptor `i` promised ballot `b`, its last vote at or below ballot `m`. */
  ghost predicate PromisedUpTo(replies: set<Reply>, i: nat, iid: nat, b: nat, m: nat) {
    exists vb: nat, v :: Promised(replies, i, iid, b, vb, v) && vb <= m
  }

  /** The quorum `q` of promises that makes `v` safe at `b`: its highest vote is `v`, at `m`, or it has none. */
  ghost predicate SafeBy(replies: set<Reply>, n: nat, iid: nat, b: nat, v: Value, q: set<nat>, m: nat) {
    && IsQuorum(q, n)
    && m < b
    && (forall i :: i in q ==> PromisedUpTo(replies, i, iid, b, m))
    && (m > 0 ==> exists i :: i in q && Promised(replies, i, iid, b, m, v))
  }

  ghost predicate SafeAt(replies: set<Reply>, n: nat, iid: nat, b: nat, v: Value) {
    exists q, m :: SafeBy(replies, n, iid, b, v, q, m)
  }

  ghost predicate AcceptsSafe(requests: set<Message>, replies: set<Reply>, n: nat) {
    forall iid, b, v :: Accept(iid, b, v) in requests ==>
      v != NO_VALUE && b > 0 && SafeAt(replies, n, iid, b, v)
  }

  ghost predicate AcceptsUnique(requests: set<Message>) {
    forall iid, b, v, w :: Accept(iid, b, v) in requests && Accept(iid, b, w) in requests ==> v == w
  }

  // ---- Proposers ----

  /** Every Accept for `iid` at a ballot of proposer `id` is below `b`. */
  ghost predicate OwnBelow(requests: set<Message>, id: nat, iid: nat, b: nat) {
    forall c: nat, v :: Accept(iid, c, v) in requests && c % MAX_N_OF_PROPOSERS == id ==> c < b
  }

  ghost predicate OwnBallot(id: nat, b: nat) {
    b >= MAX_N_OF_PROPOSERS && b % MAX_N_OF_PROPOSERS == id
  }

  ghost predicate NonEmpty(o: Option<Value>) {
    o.Some? ==> o.value != NO_VALUE
  }

  ghost predicate ReportedBy(inst: P.Instance, replies: set<Reply>)
    requires inst.promisedValue.Some?
  {
    exists i :: i in inst.quorum
                && Promised(replies, i, inst.iid, inst.ballot, inst.valueBallot, inst.promisedValue.value)
  }

  /** The instance's promised value is the highest vote reported by the promises it counted. */
  ghost predicate Evidence(inst: P.Instance, n: nat, replies: set<Reply>) {
    && (forall i :: i in inst.quorum ==> i < n && PromisedUpTo(replies, i, inst.iid, inst.ballot, inst.valueBallot))
    && (inst.promisedValue.None? ==> inst.valueBallot == 0)
    && (inst.promisedValue.Some? ==> inst.valueBallot > 0 && ReportedBy(inst, replies))
  }

  ghost predicate PreparingOk(inst: P.Instance, id: nat, n: nat, requests: set<Message>, replies: set<Reply>) {
    && OwnBallot(id, inst.ballot)
    && NonEmpty(inst.value) && NonEmpty(inst.promisedValue)
    && OwnBelow(requests, id, inst.iid, inst.ballot)
    && Evidence(inst, n, replies)
  }

  ghost predicate AcceptingOk(inst: P.Instance, id: nat, requests: set<Message>) {
    && OwnBallot(id, inst.ballot)
    && NonEmpty(inst.value) && NonEmpty(inst.promisedValue)
    && (inst.value.Some? || inst.promisedValue.Some?)
    && OwnBelow(requests, id, inst.iid, inst.ballot + 1)
    && P.ToAccept(inst) in requests
  }

  ghost predicate ProposerOk(p: P.Proposer, id: nat, n: nat, requests: set<Message>, replies: set<Reply>) {
    && p.id == id && p.acceptors == n
    && P.TablesOk(p)
    && (forall v :: v in p.values ==> v != NO_VALUE)
    && (forall iid :: iid in p.prepares ==> PreparingOk(p.prepares[iid], id, n, requests, replies))
    && (forall iid :: iid in p.accepts ==> AcceptingOk(p.accepts[iid], id, requests))
    && (forall iid: nat :: iid > p.nextPrepareIid ==> OwnBelow(requests, id, iid, 0))
  }

  // ---- The invariant ----

  ghost predicate AcceptorsOk(s: System) {
    && (forall i :: 0 <= i < |s.acceptors| ==> AcceptorOk(s.acceptors[i], i, s.replies))
    && FromAcceptors(s.replies, |s.acceptors|)
    && PromisesTrue(s.replies)
    && VotesRequested(s.requests, s.replies)
  }

  ghost predicate ProposersOk(s: System) {
    && |s.proposers| <= MAX_N_OF_PROPOSERS
    && (forall i :: 0 <= i < |s.proposers| ==>
          ProposerOk(s.proposers[i], i, |s.acceptors|, s.requests, s.replies))
    && AcceptsSafe(s.requests, s.replies, |s.acceptors|)
    && AcceptsUnique(s.requests)
  }

  ghost predicate Inv(s: System) {
    AcceptorsOk(s) && ProposersOk(s)
  }

  lemma InitInv(s: System)
    requires Init(s)
    ensures Inv(s)
  {
  }

  // ---- Acceptor steps ----

  lemma SafetyGrows(requests: set<Message>, replies: set<Reply>, replies': set<Reply>, n: nat)
    requires replies <= replies'
    requires AcceptsSafe(requests, replies, n)
    ensures AcceptsSafe(requests, replies', n)
  {
    forall iid, b, v | Accept(iid, b, v) in requests
      ensures SafeAt(replies', n, iid, b, v)
    {
      var q, m :| SafeBy(replies, n, iid, b, v, q, m);
      SafeByGrows(replies, replies', n, iid, b, v, q, m);
    }
  }

  lemma SafeByGrows(replies: set<Reply>, replies': set<Reply>, n: nat, iid: nat, b: nat, v: Value, q: set<nat>, m: nat)
    requires replies <= replies'
    requires SafeBy(replies, n, iid, b, v, q, m)
    ensures SafeBy(replies', n, iid, b, v, q, m)
  {
    forall i | i in q
      ensures PromisedUpTo(replies', i, iid, b, m)
    {
      PromisedUpToGrows(replies, replies', i, iid, b, m);
    }
    if m > 0 {
      var i :| i in q && Promised(replies, i, iid, b, m, v);
      assert Promised(replies', i, iid, b, m, v);
    }
  }

  lemma PromisedUpToGrows(replies: set<Reply>, replies': set<Reply>, i: nat, iid: nat, b: nat, m: nat)
    requires replies <= replies' && PromisedUpTo(replies, i, iid, b, m)
    ensures PromisedUpTo(replies', i, iid, b, m)
  {
    var vb: nat, v :| Promised(replies, i, iid, b, vb, v) && vb <= m;
    assert Promised(replies', i, iid, b, vb, v);
  }

  lemma EvidenceGrows(inst: P.Instance, n: nat, replies: set<Reply>, replies': set<Reply>)
    requires replies <= replies' && Evidence(inst, n, replies)
    ensures Evidence(inst, n, replies')
  {
    forall i | i in inst.quorum
      ensures PromisedUpTo(replies', i, inst.iid, inst.ballot, inst.valueBallot)
    {
      PromisedUpToGrows(replies, replies', i, inst.iid, inst.ballot, inst.valueBallot);
    }
    if inst.promisedValue.Some? {
      var i :| i in inst.quorum &&
        Promised(replies, i, inst.iid, inst.ballot, inst.valueBallot, inst.promisedValue.value);
      assert Promised(replies', i, inst.iid, inst.ballot, inst.valueBallot, inst.promisedValue.value);
    }
  }

  /** Replies only add evidence: no proposer's invariant is lost by an acceptor's step. */
  lemma RepliesKeepProposers(s: System, s': System)
    requires ProposersOk(s)
    requires s'.proposers == s.proposers && s'.requests == s.requests && |s'.acceptors| == |s.acceptors|
    requires s.replies <= s'.replies
    ensures ProposersOk(s')
  {
    SafetyGrows(s.requests, s.replies, s'.replies, |s.acceptors|);
    forall i | 0 <= i < |s.proposers|
      ensures ProposerOk(s'.proposers[i], i, |s'.acceptors|, s'.requests, s'.replies)
    {
      var p := s.proposers[i];
      forall iid | iid in p.prepares
        ensures PreparingOk(p.prepares[iid], i, |s.acceptors|, s.requests, s'.replies)
      {
        EvidenceGrows(p.prepares[iid], |s.acceptors|, s.replies, s'.replies);
      }
    }
  }

  ghost predicate SameVotes(replies: set<Reply>, replies': set<Reply>) {
    forall i: nat, iid: nat, b: nat, v :: Voted(replies', i, iid, b, v) <==> Voted(replies, i, iid, b, v)
  }

  ghost predicate SamePromises(replies: set<Reply>, replies': set<Reply>) {
    forall i: nat, iid: nat, b: nat, vb: nat, v ::
      Promised(replies', i, iid, b, vb, v) <==> Promised(replies, i, iid, b, vb, v)
  }

  /** A reply of acceptor `a` is nothing to any other acceptor. */
  lemma OthersUntouched(x: A.Acceptor, i: nat, a: nat, replies: set<Reply>, out: Option<Message>)
    requires AcceptorOk(x, i, replies) && i != a
    ensures AcceptorOk(x, i, replies + Replied(a, out))
  {
    var replies' := replies + Replied(a, out);
    assert forall iid: nat, b: nat, v :: Voted(replies', i, iid, b, v) ==> Voted(replies, i, iid, b, v);
    assert forall iid: nat, b: nat, vb: nat, v ::
        Promised(replies', i, iid, b, vb, v) ==> Promised(replies, i, iid, b, vb, v);
  }

  /** Once the moving acceptor and the promises are accounted for, the rest of the acceptor invariant follows. */
  lemma AcceptorsKept(s: System, e: Event, a': A.Acceptor, out: Option<Message>, s': System)
    requires Inv(s) && AcceptorMoves(s, e, a', out, s')
    requires AcceptorOk(a', e.a, s'.replies) && PromisesTrue(s'.replies)
    requires VotesRequested(s'.requests, s'.replies)
    ensures Inv(s')
  {
    RepliesKeepProposers(s, s');
    forall i | 0 <= i < |s'.acceptors|
      ensures AcceptorOk(s'.acceptors[i], i, s'.replies)
    {
      if i != e.a { OthersUntouched(s.acceptors[i], i, e.a, s.replies, out); }
    }
  }

  lemma PreparePromises(s: System, a: nat, m: Message, a': A.Acceptor, out: Option<Message>, s': System)
    requires Inv(s) && AcceptorMoves(s, AnswerPrepare(a, m), a', out, s')
    ensures SameVotes(s.replies, s'.replies)
    ensures forall iid: nat, b: nat, vb: nat, v ::
              Promised(s'.replies, a, iid, b, vb, v) && !Promised(s.replies, a, iid, b, vb, v) ==>
                iid in a'.records && a'.records[iid] == Record(iid, b, vb, v)
    ensures AcceptorOk(a', a, s'.replies)
  {
    assert AcceptorOk(s.acceptors[a], a, s.replies);
  }

  lemma PrepareKeepsInv(s: System, a: nat, m: Message, a': A.Acceptor, out: Option<Message>, s': System)
    requires Inv(s) && AcceptorMoves(s, AnswerPrepare(a, m), a', out, s')
    ensures Inv(s')
  {
    PreparePromises(s, a, m, a', out, s');
    forall i: nat, iid: nat, b: nat, vb: nat, v | Promised(s'.replies, i, iid, b, vb, v)
      ensures PromiseHolds(s'.replies, i, iid, b, vb, v)
    {
      if Promised(s.replies, i, iid, b, vb, v) {
        assert PromiseHolds(s.replies, i, iid, b, vb, v);
      }
    }
    AcceptorsKept(s, AnswerPrepare(a, m), a', out, s');
  }

  lemma AcceptVotes(s: System, a: nat, m: Message, a': A.Acceptor, out: Option<Message>, s': System)
    requires Inv(s) && AcceptorMoves(s, AnswerAccept(a, m), a', out, s')
    ensures SamePromises(s.replies, s'.replies)
    ensures forall i: nat, iid: nat, b: nat, v :: Voted(s'.replies, i, iid, b, v) && !Voted(s.replies, i, iid, b, v) ==>
              i == a && iid == m.iid && b == m.ballot && v == m.value && iid > s.acceptors[a].trimIid
              && (iid in s.acceptors[a].records ==> s.acceptors[a].records[iid].ballot <= b)
  {
  }

  lemma AcceptKeepsAcceptor(x: A.Acceptor, a: nat, iid: nat, ballot: nat, value: Value, replies: set<Reply>)
    requires AcceptorOk(x, a, replies) && ballot > 0 && value != NO_VALUE
    ensures var (x', out) := A.ReceiveAccept(x, iid, ballot, value);
            AcceptorOk(x', a, replies + Replied(a, out))
  {
    var (x', out) := A.ReceiveAccept(x, iid, ballot, value);
    var replies' := replies + Replied(a, out);
    assert forall i: nat, b: nat, v :: Voted(replies', a, i, b, v) ==>
             Voted(replies, a, i, b, v) || (out == Some(Accepted(i, b, b, v)) && i == iid && b == ballot);
    assert forall i: nat, b: nat, vb: nat, v :: Promised(replies', a, i, b, vb, v) ==> Promised(replies, a, i, b, vb, v);
  }

  lemma AcceptKeepsInv(s: System, a: nat, m: Message, a': A.Acceptor, out: Option<Message>, s': System)
    requires Inv(s) && AcceptorMoves(s, AnswerAccept(a, m), a', out, s')
    ensures Inv(s')
  {
    AcceptVotes(s, a, m, a', out, s');
    AcceptKeepsAcceptor(s.acceptors[a], a, m.iid, m.ballot, m.value, s.replies);
    assert AcceptorOk(s.acceptors[a], a, s.replies);
    forall i: nat, iid: nat, b: nat, vb: nat, v | Promised(s'.replies, i, iid, b, vb, v)
      ensures PromiseHolds(s'.replies, i, iid, b, vb, v)
    {
      assert PromiseHolds(s.replies, i, iid, b, vb, v);
    }
    AcceptorsKept(s, AnswerAccept(a, m), a', out, s');
  }

  lemma OtherAnswersKeepInv(s: System, e: Event, a': A.Acceptor, out: Option<Message>, s': System)
    requires Inv(s) && AcceptorMoves(s, e, a', out, s')
    requires e.AnswerRepeat? || e.TrimAcceptor? || e.ReportState?
    ensures Inv(s')
  {
    assert AcceptorOk(s.acceptors[e.a], e.a, s.replies);
    assert SamePromises(s.replies, s'.replies);
    assert SameVotes(s.replies, s'.replies);
    forall i: nat, iid: nat, b: nat, vb: nat, v | Promised(s'.replies, i, iid, b, vb, v)
      ensures PromiseHolds(s'.replies, i, iid, b, vb, v)
    {
      assert PromiseHolds(s.replies, i, iid, b, vb, v);
    }
    AcceptorsKept(s, e, a', out, s');
  }
}
