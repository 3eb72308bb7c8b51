/** No run can get stuck: as long as a majority of the acceptors has not trimmed the instance a proposer is at, there
    is a way on by which it gets a value chosen, however high the ballots others have left behind. */
module Progress {
  import opened PaxosTypes
  import opened Protocol
  import opened Safety
  import opened HandlerSteps
  import AG = Agreement
  import AA = AcceptorAnswers
  import A = AcceptorSpec
  import P = ProposerSpec

  // ---- Where a round stands ----

  /** The acceptors of `q` still answer requests for `iid`. */
  ghost predicate Listening(s: System, q: set<nat>, iid: nat) {
    && IsQuorum(q, |s.acceptors|)
    && forall a :: a in q ==> s.acceptors[a].trimIid < iid && AA.KeyedRecords(s.acceptors[a])
  }

  ghost predicate AtMost(s: System, q: set<nat>, iid: nat, b: nat)
    requires forall a :: a in q ==> a < |s.acceptors|
  {
    forall a :: a in q ==> AA.BallotAt(s.acceptors[a], iid) <= b
  }

  /** `iid` is the first instance the proposer has to get accepted, and there is a client value for it. */
  ghost predicate IsNext(p: P.Proposer, iid: nat) {
    && P.TablesOk(p) && iid in p.prepares && p.prepares[iid].ballot > 0
    && (forall j :: j in p.prepares ==> iid <= j)
    && (p.prepares[iid].value.Some? || p.values != [])
  }

  ghost predicate Trying(s: System, i: nat, iid: nat, q: set<nat>) {
    && i < |s.proposers| && s.proposers[i].acceptors == |s.acceptors|
    && IsNext(s.proposers[i], iid) && Listening(s, q, iid)
  }

  function Ballot(s: System, i: nat, iid: nat): nat
    requires i < |s.proposers| && iid in s.proposers[i].prepares
  {
    s.proposers[i].prepares[iid].ballot
  }

  function Quorum(s: System, i: nat, iid: nat): set<nat>
    requires i < |s.proposers| && iid in s.proposers[i].prepares
  {
    s.proposers[i].prepares[iid].quorum
  }

  // ---- Steps ----

  lemma ProposerGoesOn(s: System, e: Event, p': P.Proposer, out: set<Message>)
    requires ProposerStep(s, e, p', out)
    ensures LeadsTo(s, s.(proposers := s.proposers[e.p := p'], requests := s.requests + out))
  {
    var s' := s.(proposers := s.proposers[e.p := p'], requests := s.requests + out);
    assert ProposerMoves(s, e, p', out, s');
    assert Step(s, e, s');
    NextIsOneStep(s, s');
  }

  /** The proposer asks for promises again. */
  lemma Asks(s: System, i: nat, iid: nat, q: set<nat>) returns (s': System)
    requires Trying(s, i, iid, q)
    ensures LeadsTo(s, s') && Trying(s', i, iid, q) && Prepare(iid, Ballot(s', i, iid)) in s'.requests
    ensures s'.acceptors == s.acceptors && Ballot(s', i, iid) == Ballot(s, i, iid) && Quorum(s', i, iid) == Quorum(s, i, iid)
  {
    var (p', m) := P.ResendPrepare(s.proposers[i], iid, 0);
    ProposerGoesOn(s, ResendPrepare(i, iid, 0), p', {m});
    s' := s.(proposers := s.proposers[i := p'], requests := s.requests + {m});
    hide LeadsTo;
  }

  lemma Answered(s: System, a: nat, m: Message) returns (s': System)
    requires a < |s.acceptors| && m in s.requests && m.Prepare?
    ensures LeadsTo(s, s') && s'.proposers == s.proposers && s'.requests == s.requests
    ensures var (x, out) := A.ReceivePrepare(s.acceptors[a], m.iid, m.ballot);
            s'.acceptors == s.acceptors[a := x] && (out.Some? ==> Reply(a, out.value) in s'.replies)
  {
    HandlePrepareIsStep(s, a, m);
    hide LeadsTo;
    var (x, out) := A.ReceivePrepare(s.acceptors[a], m.iid, m.ballot);
    s' := s.(acceptors := s.acceptors[a := x], replies := s.replies + Replied(a, out));
  }

  lemma Hears(s: System, i: nat, r: Reply) returns (s': System)
    requires i < |s.proposers| && r in s.replies && r.msg.Promise?
    ensures LeadsTo(s, s') && s'.acceptors == s.acceptors
    ensures s'.proposers == s.proposers[i := P.ReceivePromise(s.proposers[i], r.msg, r.from, 0).0]
  {
    var (p', out) := P.ReceivePromise(s.proposers[i], r.msg, r.from, 0);
    ProposerGoesOn(s, GetPromise(i, r, 0), p', Sent(out));
    hide LeadsTo;
    s' := s.(proposers := s.proposers[i := p'], requests := s.requests + Sent(out));
  }

  function HigherOf(s: System, a: nat, iid: nat, b: nat): nat
    requires a < |s.acceptors|
  {
    if AA.BallotAt(s.acceptors[a], iid) < b then b else AA.BallotAt(s.acceptors[a], iid)
  }

  /** One acceptor is asked and its answer heard. */
  lemma AsksOne(s: System, i: nat, iid: nat, q: set<nat>, a: nat) returns (s': System)
    requires Trying(s, i, iid, q) && a in q
    ensures LeadsTo(s, s') && Trying(s', i, iid, q)
    ensures |s'.acceptors| == |s.acceptors|
    ensures forall b :: b in q ==>
              (AA.BallotAt(s'.acceptors[b], iid) == HigherOf(s, b, iid, if b == a then Ballot(s, i, iid) else 0))
    ensures if AA.BallotAt(s.acceptors[a], iid) > Ballot(s, i, iid)
            then Ballot(s', i, iid) == Ballot(s, i, iid) + MAX_N_OF_PROPOSERS
            else Ballot(s', i, iid) == Ballot(s, i, iid) && Quorum(s', i, iid) == Quorum(s, i, iid) + {a}
  {
    hide LeadsTo;
    var b := Ballot(s, i, iid);
    var s1 := Asks(s, i, iid, q);
    var (x, out) := A.ReceivePrepare(s1.acceptors[a], iid, b);
    AA.PrepareIsAnswered(s1.acceptors[a], iid, b);
    AA.PromiseMovesProposer(s1.acceptors[a], s1.proposers[i], iid, a, 0);
    var s2 := Answered(s1, a, Prepare(iid, b));
    Together(s, s1, s2);
    var p := s1.proposers[i];
    var p' := P.ReceivePromise(p, out.value, a, 0).0;
    StillNext(p, out.value, a, iid);
    hide A.ReceivePrepare, P.ReceivePromise;
    s' := Hears(s2, i, Reply(a, out.value));
    Together(s, s2, s');
    assert Listening(s', q, iid);
  }

  lemma StillNext(p: P.Proposer, m: Message, from: nat, iid: nat)
    requires IsNext(p, iid) && m.Promise? && m.iid == iid
    ensures IsNext(P.ReceivePromise(p, m, from, 0).0, iid)
    ensures P.ReceivePromise(p, m, from, 0).0.acceptors == p.acceptors
  {
  }

  // ---- Phase 1 ----

  /** Being told of higher ballots, the proposer catches up with all of `q`. */
  lemma {:induction false} CatchesUp(s: System, i: nat, iid: nat, q: set<nat>, top: nat) returns (s': System)
    requires Trying(s, i, iid, q) && AtMost(s, q, iid, top)
    ensures LeadsTo(s, s') && Trying(s', i, iid, q) && AtMost(s', q, iid, Ballot(s', i, iid))
    decreases if top > Ballot(s, i, iid) then top - Ballot(s, i, iid) else 0
  {
    hide LeadsTo;
    if a :| a in q && AA.BallotAt(s.acceptors[a], iid) > Ballot(s, i, iid) {
      var s1 := AsksOne(s, i, iid, q, a);
      s' := CatchesUp(s1, i, iid, q, top);
      Together(s, s1, s');
    } else {
      Stays(s);
      s' := s;
    }
  }

  /** With nobody of `q` ahead, all of `rest` get counted. */
  lemma {:induction false} Collects(s: System, i: nat, iid: nat, q: set<nat>, rest: set<nat>) returns (s': System)
    requires Trying(s, i, iid, q) && AtMost(s, q, iid, Ballot(s, i, iid)) && rest <= q
    ensures LeadsTo(s, s') && Trying(s', i, iid, q) && AtMost(s', q, iid, Ballot(s', i, iid))
    ensures Quorum(s, i, iid) + rest <= Quorum(s', i, iid)
    decreases |rest|
  {
    hide LeadsTo;
    if rest == {} {
      Stays(s);
      s' := s;
    } else {
      var a :| a in rest;
      var s1 := AsksOne(s, i, iid, q, a);
      s' := Collects(s1, i, iid, q, rest - {a});
      Together(s, s1, s');
    }
  }

  // ---- Phase 2 ----

  lemma Offers(s: System, i: nat, iid: nat, q: set<nat>) returns (s': System, v: Value)
    requires Trying(s, i, iid, q) && q <= Quorum(s, i, iid)
    ensures LeadsTo(s, s') && s'.acceptors == s.acceptors && Accept(iid, Ballot(s, i, iid), v) in s'.requests
  {
    var p := s.proposers[i];
    SubsetSize(q, p.prepares[iid].quorum);
    assert p.prepares.Keys != {} && Smallest(p.prepares.Keys) == iid;
    var (p', m) := P.TryAccept(p);
    ProposerGoesOn(s, SendAccept(i), p', Sent(m));
    hide LeadsTo;
    s' := s.(proposers := s.proposers[i := p'], requests := s.requests + Sent(m));
    v := m.value.value;
  }

  /** An acceptor of `q` that is asked to accept does. */
  lemma Votes(s: System, iid: nat, b: nat, v: Value, q: set<nat>, a: nat) returns (s': System)
    requires Accept(iid, b, v) in s.requests && Listening(s, q, iid) && AtMost(s, q, iid, b) && a in q
    ensures LeadsTo(s, s') && Accept(iid, b, v) in s'.requests && Listening(s', q, iid) && AtMost(s', q, iid, b)
    ensures s.replies <= s'.replies && Voted(s'.replies, a, iid, b, v) && |s'.acceptors| == |s.acceptors|
  {
    HandleAcceptIsStep(s, a, Accept(iid, b, v));
    AA.AcceptIsAnswered(s.acceptors[a], iid, b, v);
    hide LeadsTo;
    var (x, out) := A.ReceiveAccept(s.acceptors[a], iid, b, v);
    hide A.ReceiveAccept;
    s' := s.(acceptors := s.acceptors[a := x], replies := s.replies + Replied(a, out));
  }

  lemma {:induction false} AllVote(s: System, iid: nat, b: nat, v: Value, q: set<nat>, rest: set<nat>) returns (s': System)
    requires Accept(iid, b, v) in s.requests && Listening(s, q, iid) && AtMost(s, q, iid, b) && rest <= q
    ensures LeadsTo(s, s') && s.replies <= s'.replies && |s'.acceptors| == |s.acceptors|
    ensures VotedByAll(s'.replies, rest, iid, b, v)
    decreases |rest|
  {
    hide LeadsTo, Listening;
    if rest == {} {
      Stays(s);
      s' := s;
    } else {
      var a :| a in rest;
      var s1 := Votes(s, iid, b, v, q, a);
      s' := AllVote(s1, iid, b, v, q, rest - {a});
      Together(s, s1, s');
      forall c | c in rest
        ensures Voted(s'.replies, c, iid, b, v)
      {
        assert c == a || c in rest - {a};
      }
    }
  }

  // ---- The whole round ----

  lemma {:induction false} TopExists(s: System, q: set<nat>, iid: nat) returns (top: nat)
    requires forall a :: a in q ==> a < |s.acceptors|
    ensures AtMost(s, q, iid, top)
    decreases |q|
  {
    top := 0;
    if q != {} {
      var a :| a in q;
      var t := TopExists(s, q - {a}, iid);
      var b := AA.BallotAt(s.acceptors[a], iid);
      top := if b > t then b else t;
      assert forall c :: c in q ==> c == a || c in q - {a};
    }
  }

  lemma VotesChoose(s: System, iid: nat, b: nat, v: Value, q: set<nat>) returns (s': System)
    requires Accept(iid, b, v) in s.requests && Listening(s, q, iid) && AtMost(s, q, iid, b)
    ensures LeadsTo(s, s') && Chosen(s', iid, v)
  {
    s' := AllVote(s, iid, b, v, q, q);
    assert ChosenAt(s', iid, b, v);
  }

  lemma TryingSucceeds(s: System, i: nat, iid: nat, q: set<nat>) returns (s': System, v: Value)
    requires Trying(s, i, iid, q)
    ensures LeadsTo(s, s') && Chosen(s', iid, v)
  {
    hide LeadsTo, Chosen;
    var top := TopExists(s, q, iid);
    var s1 := CatchesUp(s, i, iid, q, top);
    var s2 := Collects(s1, i, iid, q, q);
    Together(s, s1, s2);
    var s3;
    s3, v := Offers(s2, i, iid, q);
    Together(s, s2, s3);
    assert Listening(s3, q, iid);
    s' := VotesChoose(s3, iid, Ballot(s2, i, iid), v, q);
    Together(s, s3, s');
  }

  // ---- From an instance that is being accepted ----

  /** `iid` is pending, comes before whatever is being prepared, and there is a client value for it. */
  ghost predicate IsFirst(p: P.Proposer, iid: nat) {
    && (forall j :: j in p.prepares ==> iid <= j)
    && (|| (iid in p.prepares && (p.prepares[iid].value.Some? || p.values != []))
        || (iid in p.accepts && (p.accepts[iid].value.Some? || p.values != [])))
  }

  lemma OffersAgain(s: System, i: nat, iid: nat) returns (s': System, v: Value)
    requires i < |s.proposers| && P.TablesOk(s.proposers[i]) && iid in s.proposers[i].accepts
    ensures var b := s.proposers[i].accepts[iid].ballot;
            LeadsTo(s, s') && s'.acceptors == s.acceptors && Accept(iid, b, v) in s'.requests
    ensures |s'.proposers| == |s.proposers|
    ensures s'.proposers[i] == P.ResendAccept(s.proposers[i], iid, 0).0
  {
    var (p', m) := P.ResendAccept(s.proposers[i], iid, 0);
    ProposerGoesOn(s, ResendAccept(i, iid, 0), p', {m});
    hide LeadsTo;
    s', v := s.(proposers := s.proposers[i := p'], requests := s.requests + {m}), m.value;
  }

  /** An acceptor that is ahead refuses, and the instance is prepared again. */
  lemma Preempts(s: System, i: nat, iid: nat, v: Value, q: set<nat>, a: nat) returns (s': System)
    requires i < |s.proposers| && s.proposers[i].acceptors == |s.acceptors| && P.TablesOk(s.proposers[i])
    requires IsFirst(s.proposers[i], iid) && iid in s.proposers[i].accepts && s.proposers[i].accepts[iid].ballot > 0
    requires Listening(s, q, iid) && a in q
    requires Accept(iid, s.proposers[i].accepts[iid].ballot, v) in s.requests
    requires AA.BallotAt(s.acceptors[a], iid) > s.proposers[i].accepts[iid].ballot
    ensures LeadsTo(s, s') && Trying(s', i, iid, q)
  {
    var b := s.proposers[i].accepts[iid].ballot;
    HandleAcceptIsStep(s, a, Accept(iid, b, v));
    AA.AcceptIsAnswered(s.acceptors[a], iid, b, v);
    hide LeadsTo;
    var m := Preempted(iid, AA.BallotAt(s.acceptors[a], iid));
    var s1 := s.(acceptors := s.acceptors[a := s.acceptors[a]], replies := s.replies + {Reply(a, m)});
    var (p', out) := P.ReceivePreempted(s1.proposers[i], m, 0);
    ProposerGoesOn(s1, GetPreempted(i, Reply(a, m), 0), p', Sent(out));
    PreemptedIsNext(s.proposers[i], m, iid);
    s' := s1.(proposers := s1.proposers[i := p'], requests := s1.requests + Sent(out));
    Together(s, s1, s');
  }

  lemma PreemptedIsNext(p: P.Proposer, m: Message, iid: nat)
    requires P.TablesOk(p) && IsFirst(p, iid) && iid in p.accepts && p.accepts[iid].ballot > 0
    requires m.Preempted? && m.iid == iid && m.ballot > p.accepts[iid].ballot
    ensures IsNext(P.ReceivePreempted(p, m, 0).0, iid) && P.ReceivePreempted(p, m, 0).0.acceptors == p.acceptors
  {
  }

  lemma AcceptingSucceeds(s: System, i: nat, iid: nat, q: set<nat>) returns (s': System, v: Value)
    requires i < |s.proposers| && s.proposers[i].acceptors == |s.acceptors| && P.TablesOk(s.proposers[i])
    requires IsFirst(s.proposers[i], iid) && iid in s.proposers[i].accepts && s.proposers[i].accepts[iid].ballot > 0
    requires Listening(s, q, iid)
    ensures LeadsTo(s, s') && Chosen(s', iid, v)
  {
    hide LeadsTo, Chosen;
    var b := s.proposers[i].accepts[iid].ballot;
    var s1;
    s1, v := OffersAgain(s, i, iid);
    if a :| a in q && AA.BallotAt(s1.acceptors[a], iid) > b {
      var s2 := Preempts(s1, i, iid, v, q, a);
      Together(s, s1, s2);
      s', v := TryingSucceeds(s2, i, iid, q);
      Together(s, s2, s');
    } else {
      s' := VotesChoose(s1, iid, b, v, q);
      Together(s, s1, s');
    }
  }

  // ---- Every run ----

  lemma SoundInRun(s: System, i: nat, iid: nat)
    requires Inv(s) && i < |s.proposers| && IsFirst(s.proposers[i], iid)
    ensures s.proposers[i].acceptors == |s.acceptors| && P.TablesOk(s.proposers[i])
    ensures iid in s.proposers[i].prepares ==> IsNext(s.proposers[i], iid)
    ensures iid in s.proposers[i].accepts ==> s.proposers[i].accepts[iid].ballot > 0
  {
    var p := s.proposers[i];
    assert ProposerOk(p, i, |s.acceptors|, s.requests, s.replies);
    if iid in p.prepares { assert PreparingOk(p.prepares[iid], i, |s.acceptors|, s.requests, s.replies); }
    if iid in p.accepts { assert AcceptingOk(p.accepts[iid], i, s.requests); }
  }

  lemma KeyedInRun(s: System, a: nat)
    requires Inv(s) && a < |s.acceptors|
    ensures AA.KeyedRecords(s.acceptors[a])
  {
    assert AcceptorOk(s.acceptors[a], a, s.replies);
    assert forall k :: k in s.acceptors[a].records ==> RecordOk(s.acceptors[a].records[k], a, k, s.replies);
  }

  /** `iid` is first in line at proposer `i`, and none of the majority `q` has trimmed it. */
  ghost predicate Unblocked(s: System, i: nat, iid: nat, q: set<nat>) {
    && i < |s.proposers| && IsFirst(s.proposers[i], iid)
    && IsQuorum(q, |s.acceptors|) && forall a :: a in q ==> s.acceptors[a].trimIid < iid
  }

  /** Every run can be continued so that the first pending instance of a proposer gets a value chosen, if there is a
      value for it and some majority has not trimmed it. */
  lemma NeverStuck(run: seq<System>, i: nat, iid: nat, q: set<nat>) returns (more: seq<System>, v: Value)
    requires IsRun(run) && Unblocked(run[|run| - 1], i, iid, q)
    ensures IsRun(run + more) && Chosen((run + more)[|run + more| - 1], iid, v)
  {
    assert |run| > 0;
    hide IsRun, LeadsTo, Chosen, Inv, IsNext;
    AG.RunInv(run, |run| - 1);
    var s := run[|run| - 1];
    SoundInRun(s, i, iid);
    forall a | a in q
      ensures AA.KeyedRecords(s.acceptors[a])
    {
      KeyedInRun(s, a);
    }
    var s';
    if iid in s.proposers[i].prepares {
      s', v := TryingSucceeds(s, i, iid, q);
    } else {
      s', v := AcceptingSucceeds(s, i, iid, q);
    }
    more := RunGoesOn(run, s');
  }
}
