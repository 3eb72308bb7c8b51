/** What holds in every run of the protocol: agreement, and the smaller promises it rests on. */
module Agreement {
  import opened PaxosTypes
  import opened Protocol
  import opened Safety
  import PS = ProposerSafety
  import A = AcceptorSpec
  import P = ProposerSpec

  // ---- Runs ----

  lemma {:induction false} RunInv(run: seq<System>, i: nat)
    requires IsRun(run) && i < |run|
    ensures Inv(run[i])
  {
    hide Next, Inv, Init;
    if i == 0 {
      InitInv(run[0]);
    } else {
      RunInv(run, i - 1);
      assert Next(run[i - 1], run[i - 1 + 1]);
      PS.NextKeepsInv(run[i - 1], run[i]);
    }
  }

  /** What no step ever takes back. */
  ghost predicate Later(s: System, s': System) {
    && |s'.acceptors| == |s.acceptors| && |s'.proposers| == |s.proposers|
    && s.requests <= s'.requests && s.replies <= s'.replies
    && (forall a :: 0 <= a < |s.acceptors| ==> s.acceptors[a].trimIid <= s'.acceptors[a].trimIid)
    && (forall p :: 0 <= p < |s.proposers| ==> s.proposers[p].nextPrepareIid <= s'.proposers[p].nextPrepareIid)
  }

  lemma NextIsLater(s: System, s': System)
    requires Next(s, s')
    ensures Later(s, s')
  {
  }

  lemma {:induction false} RunGrows(run: seq<System>, i: nat, j: nat)
    requires IsRun(run) && i <= j < |run|
    ensures Later(run[i], run[j])
  {
    hide Next, Init;
    if i < j {
      RunGrows(run, i, j - 1);
      assert Next(run[j - 1], run[j - 1 + 1]);
      NextIsLater(run[j - 1], run[j]);
    }
  }

  // ---- Agreement ----

  /** Once `v` is chosen at `b`, every Accept at a higher ballot carries `v`. */
  lemma {:induction false} ChosenSticks(s: System, iid: nat, b: nat, v: Value, c: nat, w: Value)
    requires Inv(s) && ChosenAt(s, iid, b, v)
    requires Accept(iid, c, w) in s.requests && b <= c
    ensures w == v
    decreases c
  {
    var q :| IsQuorum(q, |s.acceptors|) && VotedByAll(s.replies, q, iid, b, v);
    var r, m :| SafeBy(s.replies, |s.acceptors|, iid, c, w, r, m);
    var a := QuorumsIntersect(q, r, |s.acceptors|);
    assert Voted(s.replies, a, iid, b, v);
    if b < c {
      var vb: nat, x :| Promised(s.replies, a, iid, c, vb, x) && vb <= m;
      assert PromiseHolds(s.replies, a, iid, c, vb, x);
      var i :| i in r && Promised(s.replies, i, iid, c, m, w);
      assert PromiseHolds(s.replies, i, iid, c, m, w);
      assert Voted(s.replies, i, iid, m, w);
      ChosenSticks(s, iid, b, v, m, w);
    }
  }

  lemma ChosenWasRequested(s: System, iid: nat, b: nat, v: Value)
    requires Inv(s) && ChosenAt(s, iid, b, v)
    ensures Accept(iid, b, v) in s.requests
  {
    var q :| IsQuorum(q, |s.acceptors|) && VotedByAll(s.replies, q, iid, b, v);
    var a :| a in q;
    assert Voted(s.replies, a, iid, b, v);
  }

  lemma OneChosenValue(s: System, iid: nat, v: Value, w: Value)
    requires Inv(s) && Chosen(s, iid, v) && Chosen(s, iid, w)
    ensures v == w
  {
    var b :| ChosenAt(s, iid, b, v);
    var c :| ChosenAt(s, iid, c, w);
    ChosenWasRequested(s, iid, b, v);
    ChosenWasRequested(s, iid, c, w);
    if b <= c {
      ChosenSticks(s, iid, b, v, c, w);
    } else {
      ChosenSticks(s, iid, c, w, b, v);
    }
  }

  lemma ChosenLater(s: System, s': System, iid: nat, v: Value)
    requires Later(s, s') && Chosen(s, iid, v)
    ensures Chosen(s', iid, v)
  {
    var b :| ChosenAt(s, iid, b, v);
    var q :| IsQuorum(q, |s.acceptors|) && VotedByAll(s.replies, q, iid, b, v);
    assert VotedByAll(s'.replies, q, iid, b, v);
    assert ChosenAt(s', iid, b, v);
  }

  /** Agreement: whatever is chosen for an instance at two points of a run is the same value. */
  lemma AgreementInEveryRun(run: seq<System>, i: nat, j: nat, iid: nat, v: Value, w: Value)
    requires IsRun(run) && i < |run| && j < |run|
    requires Chosen(run[i], iid, v) && Chosen(run[j], iid, w)
    ensures v == w
  {
    var k := if i <= j then j else i;
    RunGrows(run, i, k);
    RunGrows(run, j, k);
    ChosenLater(run[i], run[k], iid, v);
    ChosenLater(run[j], run[k], iid, w);
    RunInv(run, k);
    OneChosenValue(run[k], iid, v, w);
  }

  // ---- Every Accept is safe, and alone at its ballot ----

  ghost predicate NoVoteIn(replies: set<Reply>, a: nat, iid: nat, lo: nat, hi: nat) {
    forall c: nat, w :: Voted(replies, a, iid, c, w) ==> !(lo < c < hi)
  }

  ghost predicate PromisedBallot(replies: set<Reply>, a: nat, iid: nat, b: nat) {
    exists vb: nat, v :: Promised(replies, a, iid, b, vb, v)
  }

  /** A majority promised `b`; either none of it ever votes below `b`, or `v` is the value of the highest
      ballot below `b` that any of it ever votes for. */
  ghost predicate AcceptJustified(replies: set<Reply>, n: nat, iid: nat, b: nat, v: Value) {
    exists q, m :: JustifiedBy(replies, n, iid, b, v, q, m)
  }

  ghost predicate JustifiedBy(replies: set<Reply>, n: nat, iid: nat, b: nat, v: Value, q: set<nat>, m: nat) {
    && IsQuorum(q, n)
    && (forall a :: a in q ==> PromisedBallot(replies, a, iid, b) && NoVoteIn(replies, a, iid, m, b))
    && (m > 0 ==> m < b && exists a :: a in q && Voted(replies, a, iid, m, v))
  }

  lemma AcceptIsJustified(s: System, iid: nat, b: nat, v: Value)
    requires Inv(s) && Accept(iid, b, v) in s.requests
    ensures AcceptJustified(s.replies, |s.acceptors|, iid, b, v)
  {
    var q, m :| SafeBy(s.replies, |s.acceptors|, iid, b, v, q, m);
    forall a | a in q
      ensures PromisedBallot(s.replies, a, iid, b) && NoVoteIn(s.replies, a, iid, m, b)
    {
      var vb: nat, x :| Promised(s.replies, a, iid, b, vb, x) && vb <= m;
      assert PromiseHolds(s.replies, a, iid, b, vb, x);
    }
    if m > 0 {
      var i :| i in q && Promised(s.replies, i, iid, b, m, v);
      assert PromiseHolds(s.replies, i, iid, b, m, v);
    }
    assert JustifiedBy(s.replies, |s.acceptors|, iid, b, v, q, m);
  }

  /** Every Accept sent by step `i` is justified at every later step `j`, whatever is voted in between. */
  lemma AcceptsSafeInEveryRun(run: seq<System>, i: nat, j: nat, iid: nat, b: nat, v: Value)
    requires IsRun(run) && i <= j < |run| && Accept(iid, b, v) in run[i].requests
    ensures v != NO_VALUE && AcceptJustified(run[j].replies, |run[j].acceptors|, iid, b, v)
  {
    RunGrows(run, i, j);
    RunInv(run, j);
    AcceptIsJustified(run[j], iid, b, v);
  }

  /** Over all proposers and retransmissions, an instance and a ballot have one value. */
  lemma OneValuePerBallot(run: seq<System>, i: nat, j: nat, iid: nat, b: nat, v: Value, w: Value)
    requires IsRun(run) && i < |run| && j < |run|
    requires Accept(iid, b, v) in run[i].requests && Accept(iid, b, w) in run[j].requests
    ensures v == w
  {
    var k := if i <= j then j else i;
    RunGrows(run, i, k);
    RunGrows(run, j, k);
    RunInv(run, k);
  }

  // ---- Promises are kept for ever ----

  /** A Promise sent by step `i` is still true at any later step `j`, and the acceptor's ballot has not dropped. */
  lemma PromisesKeptInEveryRun(run: seq<System>, i: nat, j: nat, a: nat, iid: nat, b: nat, vb: nat, v: Value)
    requires IsRun(run) && i <= j < |run| && Promised(run[i].replies, a, iid, b, vb, v)
    ensures PromiseHolds(run[j].replies, a, iid, b, vb, v)
    ensures a < |run[j].acceptors|
    ensures iid > run[j].acceptors[a].trimIid ==>
              iid in run[j].acceptors[a].records && b <= run[j].acceptors[a].records[iid].ballot
  {
    RunGrows(run, i, j);
    RunInv(run, j);
    assert Promised(run[j].replies, a, iid, b, vb, v);
    assert AcceptorOk(run[j].acceptors[a], a, run[j].replies);
  }

  // ---- What a repeat is worth ----

  /** A repeat is evidence of a vote at its ballot exactly when that is its value ballot; if a prepare has raised
      the ballot, the acceptor has voted for nothing at all there. */
  lemma RepeatIsVoteIffGenuine(s: System, a: nat, iid: nat)
    requires Inv(s) && a < |s.acceptors| && A.ReceiveRepeat(s.acceptors[a], iid).Some?
    ensures var m := A.ReceiveRepeat(s.acceptors[a], iid).value;
            && m.iid == iid && Voted(s.replies, a, iid, m.valueBallot, m.value)
            && (Voted(s.replies, a, iid, m.ballot, m.value) <==> m.ballot == m.valueBallot)
            && (m.ballot != m.valueBallot ==> forall v :: !Voted(s.replies, a, iid, m.ballot, v))
  {
    assert AcceptorOk(s.acceptors[a], a, s.replies);
    assert RecordOk(s.acceptors[a].records[iid], a, iid, s.replies);
  }

  lemma RepeatIsVoteInEveryRun(run: seq<System>, i: nat, a: nat, iid: nat)
    requires IsRun(run) && i < |run| && a < |run[i].acceptors|
    requires A.ReceiveRepeat(run[i].acceptors[a], iid).Some?
    ensures var m := A.ReceiveRepeat(run[i].acceptors[a], iid).value;
            && Voted(run[i].replies, a, iid, m.valueBallot, m.value)
            && (Voted(run[i].replies, a, iid, m.ballot, m.value) <==> m.ballot == m.valueBallot)
            && (m.ballot != m.valueBallot ==> forall v :: !Voted(run[i].replies, a, iid, m.ballot, v))
  {
    RunInv(run, i);
    RepeatIsVoteIffGenuine(run[i], a, iid);
  }

  lemma NoVoteWhenTrimmed(s: System, s': System, a: nat, iid: nat, b: nat, v: Value)
    requires Inv(s) && Next(s, s') && a < |s.acceptors| && iid <= s.acceptors[a].trimIid
    requires Voted(s'.replies, a, iid, b, v)
    ensures Voted(s.replies, a, iid, b, v)
  {
    assert RecordsOk(s.acceptors[a], a, s.replies);
    assert forall i :: i in s.acceptors[a].records ==> RecordOk(s.acceptors[a].records[i], a, i, s.replies);
  }

  lemma NoVoteWhenTrimmedAt(run: seq<System>, k: nat, a: nat, iid: nat, b: nat, v: Value)
    requires IsRun(run) && k + 1 < |run| && a < |run[k].acceptors|
    requires iid <= run[k].acceptors[a].trimIid && Voted(run[k + 1].replies, a, iid, b, v)
    ensures Voted(run[k].replies, a, iid, b, v)
  {
    RunInv(run, k);
    NoVoteWhenTrimmed(run[k], run[k + 1], a, iid, b, v);
  }

  /** After a trim covering `iid` the acceptor accepts nothing more there. */
  lemma {:induction false} TrimmedForGood(run: seq<System>, i: nat, j: nat, a: nat, iid: nat, b: nat, v: Value)
    requires IsRun(run) && i <= j < |run| && a < |run[i].acceptors|
    requires iid <= run[i].acceptors[a].trimIid && Voted(run[j].replies, a, iid, b, v)
    ensures Voted(run[i].replies, a, iid, b, v)
  {
    hide IsRun;
    if i < j {
      RunGrows(run, i, j - 1);
      NoVoteWhenTrimmedAt(run, j - 1, a, iid, b, v);
      TrimmedForGood(run, i, j - 1, a, iid, b, v);
    }
  }

  // ---- Ballots and instances of one proposer ----

  /** In every run each proposer's tables are well formed, so none of its asserts can fail. */
  lemma TablesWellFormedInEveryRun(run: seq<System>, i: nat, p: nat)
    requires IsRun(run) && i < |run| && p < |run[i].proposers|
    ensures P.TablesOk(run[i].proposers[p])
  {
    RunInv(run, i);
    assert ProposerOk(run[i].proposers[p], p, |run[i].acceptors|, run[i].requests, run[i].replies);
  }

  ghost predicate Pending(p: P.Proposer, iid: nat) {
    iid in p.prepares || iid in p.accepts
  }

  function BallotOf(p: P.Proposer, iid: nat): nat
    requires iid in p.prepares || iid in p.accepts
  {
    if iid in p.prepares then p.prepares[iid].ballot else p.accepts[iid].ballot
  }

  /** A pending instance's ballot is left alone or raised by exactly the proposers' stride. */
  ghost predicate BallotRises(x: P.Proposer, x': P.Proposer, iid: nat) {
    Pending(x, iid) && Pending(x', iid) ==>
      || BallotOf(x', iid) == BallotOf(x, iid)
      || BallotOf(x', iid) == BallotOf(x, iid) + MAX_N_OF_PROPOSERS
  }

  /** An instance a proposer has passed and no longer holds does not come back. */
  ghost predicate StaysClosed(x: P.Proposer, x': P.Proposer, iid: nat) {
    iid <= x.nextPrepareIid && !Pending(x, iid) ==> !Pending(x', iid)
  }

  lemma ProposerStepRises(s: System, e: Event, x': P.Proposer, out: set<Message>, iid: nat)
    requires ProposerStep(s, e, x', out)
    requires P.TablesOk(s.proposers[e.p])
    requires forall i :: i in s.proposers[e.p].prepares ==> s.proposers[e.p].prepares[i].ballot > 0
    requires forall i :: i in s.proposers[e.p].accepts ==> s.proposers[e.p].accepts[i].ballot > 0
    ensures BallotRises(s.proposers[e.p], x', iid)
    ensures StaysClosed(s.proposers[e.p], x', iid)
  {
  }

  lemma NextRises(s: System, s': System, p: nat, iid: nat)
    requires Inv(s) && Next(s, s') && p < |s.proposers|
    ensures |s'.proposers| == |s.proposers|
    ensures BallotRises(s.proposers[p], s'.proposers[p], iid)
    ensures StaysClosed(s.proposers[p], s'.proposers[p], iid)
  {
    var x := s.proposers[p];
    assert ProposerOk(x, p, |s.acceptors|, s.requests, s.replies);
    assert forall i :: i in x.prepares ==> OwnBallot(p, x.prepares[i].ballot);
    assert forall i :: i in x.accepts ==> OwnBallot(p, x.accepts[i].ballot);
    var e :| Step(s, e, s');
    if x', out :| ProposerMoves(s, e, x', out, s') {
      if e.p == p {
        ProposerStepRises(s, e, x', out, iid);
      }
    }
  }

  /** Ballots stay in their proposer's residue class and never fall while an instance is pending. */
  lemma BallotsRise(run: seq<System>, i: nat, p: nat, iid: nat)
    requires IsRun(run) && i + 1 < |run| && p < |run[i].proposers|
    ensures |run[i + 1].proposers| == |run[i].proposers|
    ensures BallotRises(run[i].proposers[p], run[i + 1].proposers[p], iid)
    ensures Pending(run[i].proposers[p], iid) ==> BallotOf(run[i].proposers[p], iid) % MAX_N_OF_PROPOSERS == p
  {
    RunInv(run, i);
    assert Next(run[i], run[i + 1]);
    NextRises(run[i], run[i + 1], p, iid);
    assert ProposerOk(run[i].proposers[p], p, |run[i].acceptors|, run[i].requests, run[i].replies);
  }

  lemma ClosedStaysClosed(run: seq<System>, k: nat, p: nat, iid: nat)
    requires IsRun(run) && k + 1 < |run| && p < |run[k].proposers|
    ensures |run[k + 1].proposers| == |run[k].proposers|
    ensures StaysClosed(run[k].proposers[p], run[k + 1].proposers[p], iid)
  {
    RunInv(run, k);
    assert Next(run[k], run[k + 1]);
    NextRises(run[k], run[k + 1], p, iid);
  }

  /** No proposer prepares an instance twice: one it has passed and no longer holds never comes back. */
  lemma {:induction false} NeverPreparedTwice(run: seq<System>, i: nat, j: nat, p: nat, iid: nat)
    requires IsRun(run) && i <= j < |run| && p < |run[i].proposers|
    requires iid <= run[i].proposers[p].nextPrepareIid && !Pending(run[i].proposers[p], iid)
    ensures |run[j].proposers| == |run[i].proposers|
    ensures !Pending(run[j].proposers[p], iid)
  {
    hide IsRun;
    if i < j {
      NeverPreparedTwice(run, i, j - 1, p, iid);
      RunGrows(run, i, j - 1);
      ClosedStaysClosed(run, j - 1, p, iid);
    }
  }
}
