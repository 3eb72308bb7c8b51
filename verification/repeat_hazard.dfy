/** Why agreement between learners needs genuine acks: a repeat reply copies the acceptor's stored record, and a
    later prepare may have raised that record's ballot above the ballot its value was accepted at. The run
    below ends with two learners delivering different values for instance 1, and a variant of it with a proposer
    dropping a client value that was not chosen. */
module RepeatHazard {
  import opened PaxosTypes
  import opened Protocol
  import opened LearnerAgreement
  import A = AcceptorSpec
  import C = Conservation
  import P = ProposerSpec
  import L = LearnerSpec

  const X: Value := [1]
  const Y: Value := [2]
  const BLANK := A.Acceptor(true, 0, map[])
  const PROMISED_10 := A.Acceptor(true, 0, map[1 := Record(1, 10, 0, [])])
  const PROMISED_11 := A.Acceptor(true, 0, map[1 := Record(1, 11, 0, [])])
  const HAS_X := A.Acceptor(true, 0, map[1 := Record(1, 10, 10, X)])
  const HAS_X_AT_11 := A.Acceptor(true, 0, map[1 := Record(1, 11, 10, X)])
  const HAS_Y := A.Acceptor(true, 0, map[1 := Record(1, 11, 11, Y)])

  function Idle(id: nat): P.Proposer {
    P.Proposer(id, 3, [], 0, 0, map[], map[])
  }

  /** Proposer `id` in phase 1 with the promises of `quorum`, its client value still queued. */
  function Preparing(id: nat, v: Value, quorum: set<nat>): P.Proposer {
    P.Proposer(id, 3, [v], 0, 1, map[1 := P.Instance(1, 10 + id, None, None, 0, quorum, 0)], map[])
  }

  function Accepting(id: nat, v: Value): P.Proposer {
    P.Proposer(id, 3, [], 0, 1, map[], map[1 := P.Instance(1, 10 + id, Some(v), None, 0, {}, 0)])
  }

  /** Extending a run by one step. */
  lemma Extend(run: seq<System>, s': System)
    requires IsRun(run) && Next(run[|run| - 1], s')
    ensures IsRun(run + [s'])
  {
    var run' := run + [s'];
    forall i | 0 <= i < |run'| - 1
      ensures Next(run'[i], run'[i + 1])
    {
      if i < |run| - 1 {
        assert Next(run[i], run[i + 1]);
      }
    }
  }

  ghost predicate Reachable(s: System) {
    exists run :: IsRun(run) && run[|run| - 1] == s
  }

  lemma ReachNext(s: System, s': System)
    requires Reachable(s) && Next(s, s')
    ensures Reachable(s')
  {
    var run :| IsRun(run) && run[|run| - 1] == s;
    Extend(run, s');
    assert (run + [s'])[|run + [s']| - 1] == s';
  }

  lemma DoPropose(s: System, e: Protocol.Event, p': P.Proposer, out: set<Message>, s': System)
    requires Reachable(s) && ProposerMoves(s, e, p', out, s')
    ensures Reachable(s')
  {
    assert Step(s, e, s');
    ReachNext(s, s');
  }

  lemma DoAnswer(s: System, e: Protocol.Event, a': A.Acceptor, out: Option<Message>, s': System)
    requires Reachable(s) && AcceptorMoves(s, e, a', out, s')
    ensures Reachable(s')
  {
    assert Step(s, e, s');
    ReachNext(s, s');
  }

  ghost function WithProposer(s: System, id: nat, p: P.Proposer, m: Message): System
    requires id < |s.proposers|
  {
    s.(proposers := s.proposers[id := p], requests := s.requests + {m})
  }

  ghost function WithAcceptor(s: System, a: nat, x: A.Acceptor, m: Message): System
    requires a < |s.acceptors|
  {
    s.(acceptors := s.acceptors[a := x], replies := s.replies + {Reply(a, m)})
  }

  /** A proposer takes a client value and opens instance 1. */
  lemma Opens(s: System, id: nat, v: Value)
    requires Reachable(s) && id < |s.proposers| && s.proposers[id] == Idle(id) && v != NO_VALUE
    ensures Reachable(WithProposer(s, id, Preparing(id, v, {}), Prepare(1, 10 + id)))
  {
    var queued := P.Propose(Idle(id), v);
    var s1 := s.(proposers := s.proposers[id := queued], requests := s.requests + {});
    DoPropose(s, ClientValue(id, v), queued, {}, s1);
    var s2 := WithProposer(s, id, Preparing(id, v, {}), Prepare(1, 10 + id));
    assert queued.values == [v];
    assert P.OpenInstance(queued, 0).0.prepares == Preparing(id, v, {}).prepares;
    assert P.OpenInstance(queued, 0) == (Preparing(id, v, {}), Prepare(1, 10 + id));
    DoPropose(s1, OpenInstance(id, 0), Preparing(id, v, {}), {Prepare(1, 10 + id)}, s2);
  }

  lemma CountsBlank(s: System, id: nat, v: Value, q: set<nat>, a: nat)
    requires Reachable(s) && id < |s.proposers| && s.proposers[id] == Preparing(id, v, q) && a !in q
    requires Reply(a, Promise(1, 10 + id, 0, [])) in s.replies
    ensures Reachable(s.(proposers := s.proposers[id := Preparing(id, v, q + {a})]))
  {
    var r := Reply(a, Promise(1, 10 + id, 0, []));
    var p' := Preparing(id, v, q + {a});
    assert P.ReceivePromise(Preparing(id, v, q), r.msg, a, 0).0.prepares == p'.prepares;
    assert P.ReceivePromise(Preparing(id, v, q), r.msg, a, 0) == (p', None);
    DoPropose(s, GetPromise(id, r, 0), p', {}, s.(proposers := s.proposers[id := p'], requests := s.requests + {}));
    assert s.requests + {} == s.requests;
  }

  /** With two promises counted, it sends its own value. */
  lemma SendsAccept(s: System, id: nat, v: Value, q: set<nat>)
    requires Reachable(s) && id < |s.proposers| && s.proposers[id] == Preparing(id, v, q) && |q| == 2
    ensures Reachable(WithProposer(s, id, Accepting(id, v), Accept(1, 10 + id, v)))
  {
    var p := Preparing(id, v, q);
    assert 1 in p.prepares && Smallest(p.prepares.Keys) == 1;
    assert P.TryAccept(p) == (Accepting(id, v), Some(Accept(1, 10 + id, v)));
    DoPropose(s, SendAccept(id), Accepting(id, v), {Accept(1, 10 + id, v)},
              WithProposer(s, id, Accepting(id, v), Accept(1, 10 + id, v)));
  }

  /** With the promises of two acceptors that had accepted nothing, it sends its own value. */
  lemma SendsOwnValue(s: System, id: nat, v: Value, a: nat, b: nat)
    requires Reachable(s) && id < |s.proposers| && s.proposers[id] == Preparing(id, v, {}) && a != b
    requires Reply(a, Promise(1, 10 + id, 0, [])) in s.replies
    requires Reply(b, Promise(1, 10 + id, 0, [])) in s.replies
    ensures Reachable(WithProposer(s, id, Accepting(id, v), Accept(1, 10 + id, v)))
  {
    hide Reachable, Preparing, Accepting;
    var one, two := {} + {a}, {} + {a} + {b};
    CountsBlank(s, id, v, {}, a);
    var s1 := s.(proposers := s.proposers[id := Preparing(id, v, one)]);
    CountsBlank(s1, id, v, one, b);
    var s2 := s1.(proposers := s1.proposers[id := Preparing(id, v, two)]);
    SendsAccept(s2, id, v, two);
    assert WithProposer(s2, id, Accepting(id, v), Accept(1, 10 + id, v))
        == WithProposer(s, id, Accepting(id, v), Accept(1, 10 + id, v));
  }

  lemma Prepares(s: System, a: nat, ballot: nat, x': A.Acceptor, m: Message)
    requires Reachable(s) && a < |s.acceptors| && Prepare(1, ballot) in s.requests
    requires A.ReceivePrepare(s.acceptors[a], 1, ballot) == (x', Some(m))
    ensures Reachable(WithAcceptor(s, a, x', m))
  {
    DoAnswer(s, AnswerPrepare(a, Prepare(1, ballot)), x', Some(m), WithAcceptor(s, a, x', m));
  }

  lemma Accepts(s: System, a: nat, ballot: nat, v: Value, x': A.Acceptor, m: Message)
    requires Reachable(s) && a < |s.acceptors| && Accept(1, ballot, v) in s.requests
    requires A.ReceiveAccept(s.acceptors[a], 1, ballot, v) == (x', Some(m))
    ensures Reachable(WithAcceptor(s, a, x', m))
  {
    DoAnswer(s, AnswerAccept(a, Accept(1, ballot, v)), x', Some(m), WithAcceptor(s, a, x', m));
  }

  /** How the acceptors of this run answer. */
  lemma AcceptorTable()
    ensures A.ReceivePrepare(BLANK, 1, 10) == (PROMISED_10, Some(Promise(1, 10, 0, [])))
    ensures A.ReceiveAccept(PROMISED_10, 1, 10, X) == (HAS_X, Some(Accepted(1, 10, 10, X)))
    ensures A.ReceivePrepare(PROMISED_10, 1, 11) == (PROMISED_11, Some(Promise(1, 11, 0, [])))
    ensures A.ReceivePrepare(BLANK, 1, 11) == (PROMISED_11, Some(Promise(1, 11, 0, [])))
    ensures A.ReceivePrepare(HAS_X, 1, 11) == (HAS_X_AT_11, Some(Promise(1, 11, 10, X)))
    ensures A.ReceiveAccept(PROMISED_11, 1, 11, Y) == (HAS_Y, Some(Accepted(1, 11, 11, Y)))
  {
    assert A.ReceivePrepare(BLANK, 1, 10).0.records == PROMISED_10.records;
    assert A.ReceiveAccept(PROMISED_10, 1, 10, X).0.records == HAS_X.records;
    assert A.ReceivePrepare(PROMISED_10, 1, 11).0.records == PROMISED_11.records;
    assert A.ReceivePrepare(BLANK, 1, 11).0.records == PROMISED_11.records;
    assert A.ReceivePrepare(HAS_X, 1, 11).0.records == HAS_X_AT_11.records;
    assert A.ReceiveAccept(PROMISED_11, 1, 11, Y).0.records == HAS_Y.records;
  }

  const START := System([Idle(0), Idle(1)], [BLANK, BLANK, BLANK], {}, {})

  lemma StartReachable()
    ensures Reachable(START)
  {
    assert IsRun([START]) && [START][|[START]| - 1] == START;
  }

  /** Nobody but `only` has accepted `v` for any instance. */
  ghost predicate VotersOf(replies: set<Reply>, v: Value, only: set<nat>) {
    forall a: nat, iid: nat, b: nat :: Voted(replies, a, iid, b, v) ==> a in only
  }

  lemma OtherAnswer(s: System, a: nat, x: A.Acceptor, m: Message, v: Value, only: set<nat>)
    requires a < |s.acceptors| && VotersOf(s.replies, v, only) && (m.Accepted? && m.value == v ==> a in only)
    ensures VotersOf(WithAcceptor(s, a, x, m).replies, v, only)
  {
    forall b: nat, iid: nat, c: nat | Voted(WithAcceptor(s, a, x, m).replies, b, iid, c, v)
      ensures b in only
    {
      if Reply(b, Accepted(iid, c, c, v)) != Reply(a, m) { assert Voted(s.replies, b, iid, c, v); }
    }
  }

  /** Proposer 0 gets acceptors 0 and 2 to promise ballot 10. */
  lemma TenPromised() returns (s: System)
    ensures Reachable(s) && VotersOf(s.replies, Y, {})
    ensures s.proposers == [Preparing(0, X, {}), Idle(1)] && s.acceptors == [PROMISED_10, BLANK, PROMISED_10]
    ensures Reply(0, Promise(1, 10, 0, [])) in s.replies && Reply(2, Promise(1, 10, 0, [])) in s.replies
  {
    AcceptorTable();
    StartReachable();
    s := START;
    hide Reachable, A.ReceivePrepare;
    Opens(s, 0, X);
    s := WithProposer(s, 0, Preparing(0, X, {}), Prepare(1, 10));
    Prepares(s, 0, 10, PROMISED_10, Promise(1, 10, 0, []));
    OtherAnswer(s, 0, PROMISED_10, Promise(1, 10, 0, []), Y, {});
    s := WithAcceptor(s, 0, PROMISED_10, Promise(1, 10, 0, []));
    Prepares(s, 2, 10, PROMISED_10, Promise(1, 10, 0, []));
    OtherAnswer(s, 2, PROMISED_10, Promise(1, 10, 0, []), Y, {});
    s := WithAcceptor(s, 2, PROMISED_10, Promise(1, 10, 0, []));
  }

  /** Proposer 0 gets `X` accepted at ballot 10 by acceptor 2 alone. */
  lemma XAcceptedOnce() returns (s: System)
    ensures Reachable(s) && VotersOf(s.replies, Y, {})
    ensures |s.proposers| == 2 && s.proposers[1] == Idle(1)
    ensures s.acceptors == [PROMISED_10, BLANK, HAS_X]
  {
    AcceptorTable();
    hide Reachable, VotersOf, A.ReceivePrepare, A.ReceiveAccept;
    s := TenPromised();
    SendsOwnValue(s, 0, X, 0, 2);
    s := WithProposer(s, 0, Accepting(0, X), Accept(1, 10, X));
    Accepts(s, 2, 10, X, HAS_X, Accepted(1, 10, 10, X));
    OtherAnswer(s, 2, HAS_X, Accepted(1, 10, 10, X), Y, {});
    s := WithAcceptor(s, 2, HAS_X, Accepted(1, 10, 10, X));
  }

  /** Proposer 1 prepares everywhere at ballot 11. */
  lemma ElevenPromised() returns (s: System)
    ensures Reachable(s) && VotersOf(s.replies, Y, {})
    ensures |s.proposers| == 2 && s.proposers[1] == Preparing(1, Y, {})
    ensures s.acceptors == [PROMISED_11, PROMISED_11, HAS_X_AT_11]
    ensures Reply(0, Promise(1, 11, 0, [])) in s.replies && Reply(1, Promise(1, 11, 0, [])) in s.replies
  {
    AcceptorTable();
    hide Reachable, VotersOf, A.ReceivePrepare, A.ReceiveAccept;
    s := XAcceptedOnce();
    Opens(s, 1, Y);
    s := WithProposer(s, 1, Preparing(1, Y, {}), Prepare(1, 11));
    Prepares(s, 0, 11, PROMISED_11, Promise(1, 11, 0, []));
    OtherAnswer(s, 0, PROMISED_11, Promise(1, 11, 0, []), Y, {});
    s := WithAcceptor(s, 0, PROMISED_11, Promise(1, 11, 0, []));
    Prepares(s, 1, 11, PROMISED_11, Promise(1, 11, 0, []));
    OtherAnswer(s, 1, PROMISED_11, Promise(1, 11, 0, []), Y, {});
    s := WithAcceptor(s, 1, PROMISED_11, Promise(1, 11, 0, []));
    Prepares(s, 2, 11, HAS_X_AT_11, Promise(1, 11, 10, X));
    OtherAnswer(s, 2, HAS_X_AT_11, Promise(1, 11, 10, X), Y, {});
    s := WithAcceptor(s, 2, HAS_X_AT_11, Promise(1, 11, 10, X));
  }

  /** It hears acceptors 0 and 1 only, and gets `Y` chosen at ballot 11. */
  lemma YChosen() returns (s: System)
    ensures Reachable(s)
    ensures s.acceptors == [HAS_Y, HAS_Y, HAS_X_AT_11]
    ensures Reply(0, Accepted(1, 11, 11, Y)) in s.replies && Reply(1, Accepted(1, 11, 11, Y)) in s.replies
  {
    AcceptorTable();
    hide Reachable, A.ReceivePrepare, A.ReceiveAccept;
    s := ElevenPromised();
    SendsOwnValue(s, 1, Y, 0, 1);
    s := WithProposer(s, 1, Accepting(1, Y), Accept(1, 11, Y));
    Accepts(s, 0, 11, Y, HAS_Y, Accepted(1, 11, 11, Y));
    s := WithAcceptor(s, 0, HAS_Y, Accepted(1, 11, 11, Y));
    Accepts(s, 1, 11, Y, HAS_Y, Accepted(1, 11, 11, Y));
    s := WithAcceptor(s, 1, HAS_Y, Accepted(1, 11, 11, Y));
  }

  const NEW_LEARNER := L.Learner(3, false, 1, 1, map[])

  lemma CountThree(acks: seq<Option<Record>>)
    requires |acks| == 3
    ensures L.Count(acks, 11) == (if L.Agrees(acks[0], 11) then 1 else 0) + (if L.Agrees(acks[1], 11) then 1 else 0)
                                 + (if L.Agrees(acks[2], 11) then 1 else 0)
  {
    var two := acks[..2];
    var one := two[..1];
    assert L.Count(one[..0], 11) == 0;
    assert L.Count(one, 11) == if L.Agrees(acks[0], 11) then 1 else 0;
    assert L.Count(two, 11) == L.Count(one, 11) + if L.Agrees(acks[1], 11) then 1 else 0;
  }

  lemma LastOfThree(acks: seq<Option<Record>>, b: nat)
    requires |acks| == 3 && b < 3 && L.Agrees(acks[b], 11) && L.Count(acks, 11) > 0
    requires forall i :: b < i < 3 ==> acks[i].None?
    ensures L.LastIndex(acks, 11) == b
  {
    CountThree(acks);
    if b < 2 {
      var two := acks[..2];
      assert L.LastIndex(acks, 11) == L.LastIndex(two, 11);
    }
  }

  function Ack(a: nat, vb: nat, v: Value): Reply {
    Reply(a, Accepted(1, 11, vb, v))
  }

  /** The first ack at ballot 11 opens instance 1. */
  lemma FirstAck(a: nat, v: Value, vb: nat) returns (l: L.Learner)
    requires a < 3
    ensures Reaches(NEW_LEARNER, [Receive(Ack(a, vb, v))], l, [])
    ensures var acks := [None, None, None][a := Some(Record(1, 11, vb, v))];
            l == NEW_LEARNER.(instances := map[1 := L.Instance(1, 11, acks, None)])
  {
    var none: seq<Option<Record>> := [None, None, None];
    var r := Record(1, 11, vb, v);
    assert L.NewInstance(3).acks == none;
    CountThree(none);
    CountThree(none[a := Some(r)]);
    l := L.ReceiveAccepted(NEW_LEARNER, r, a);
    assert l.instances == map[1 := L.Instance(1, 11, none[a := Some(r)], None)];
    assert [Receive(Ack(a, vb, v))][..0] == [];
    assert Reaches(NEW_LEARNER, [], NEW_LEARNER, []);
    assert LearnerStep(NEW_LEARNER, [], Receive(Ack(a, vb, v)), l, []);
  }

  /** A second ack closes it, and the record of the later acceptor is what gets delivered. */
  lemma SecondAck(l: L.Learner, a: nat, va: Value, vba: nat, b: nat, vb: Value, vbb: nat)
    requires a < b < 3
    requires var acks := [None, None, None][a := Some(Record(1, 11, vba, va))];
             l == NEW_LEARNER.(instances := map[1 := L.Instance(1, 11, acks, None)])
    ensures L.Shaped(l)
    ensures var l' := L.ReceiveAccepted(l, Record(1, 11, vbb, vb), b);
            L.FinalsPoint(l') && L.DeliverNext(l').1 == Some(Record(1, 11, vbb, vb))
  {
    var r := Record(1, 11, vbb, vb);
    var two := l.instances[1].acks[b := Some(r)];
    CountThree(l.instances[1].acks);
    CountThree(two);
    LastOfThree(two, b);
    hide L.Count, L.LastIndex;
    var l' := L.ReceiveAccepted(l, r, b);
    assert l'.instances == map[1 := L.Instance(1, 11, two, Some(b))];
  }

  lemma DeliversLastOfTwo(a: nat, va: Value, vba: nat, b: nat, vb: Value, vbb: nat) returns (l: L.Learner)
    requires a < b < 3
    ensures Reaches(NEW_LEARNER, [Receive(Ack(a, vba, va)), Receive(Ack(b, vbb, vb)), Deliver], l, [Record(1, 11, vbb, vb)])
  {
    var r := Record(1, 11, vbb, vb);
    var e1, e2 := Receive(Ack(a, vba, va)), Receive(Ack(b, vbb, vb));
    var l1 := FirstAck(a, va, vba);
    SecondAck(l1, a, va, vba, b, vb, vbb);
    hide Reaches, L.ReceiveAccepted, L.DeliverNext, L.Shaped, L.FinalsPoint;
    var l2 := L.ReceiveAccepted(l1, r, b);
    l := L.DeliverNext(l2).0;
    assert LearnerStep(l1, [], e2, l2, []);
    assert LearnerStep(l2, [], Deliver, l, [] + [r]);
    hide LearnerStep;
    ReachesMore(NEW_LEARNER, [e1], l1, [], e2, l2, []);
    ReachesMore(NEW_LEARNER, [e1] + [e2], l2, [], Deliver, l, [] + [r]);
    assert [e1] + [e2] + [Deliver] == [e1, e2, Deliver] && [] + [r] == [r];
  }

  /** Two fresh learners, fed only Accepted messages that were sent, deliver different values for one instance. */
  ghost predicate Disagree(s: System, events1: seq<LearnerAgreement.Event>, events2: seq<LearnerAgreement.Event>,
                           l1: L.Learner, l2: L.Learner, r1: Record, r2: Record) {
    && Fresh(NEW_LEARNER, |s.acceptors|)
    && (forall e :: e in events1 + events2 && e.Receive? ==> e.reply in s.replies && e.reply.msg.Accepted?)
    && Reaches(NEW_LEARNER, events1, l1, [r1]) && Reaches(NEW_LEARNER, events2, l2, [r2])
    && r1.iid == r2.iid && r1.value != r2.value
  }

  lemma RepeatsBreakAgreement()
    ensures exists s, events1, events2, l1, l2, r1, r2 ::
      Reachable(s) && Disagree(s, events1, events2, l1, l2, r1, r2)
  {
    hide Reachable, Reaches;
    var s := YChosen();
    var m := Accepted(1, 11, 10, X);
    var s' := WithAcceptor(s, 2, HAS_X_AT_11, m);
    assert A.ReceiveRepeat(HAS_X_AT_11, 1) == Some(m);
    DoAnswer(s, AnswerRepeat(2, 1), HAS_X_AT_11, Some(m), s');
    var l1 := DeliversLastOfTwo(0, Y, 11, 1, Y, 11);
    var l2 := DeliversLastOfTwo(1, Y, 11, 2, X, 10);
    var events1 := [Receive(Ack(0, 11, Y)), Receive(Ack(1, 11, Y)), Deliver];
    var events2 := [Receive(Ack(1, 11, Y)), Receive(Ack(2, 10, X)), Deliver];
    assert Disagree(s', events1, events2, l1, l2, Record(1, 11, 11, Y), Record(1, 11, 10, X));
  }

  // ---- The same for proposers ----

  /** The proposer drops its value although nobody has chosen it. */
  ghost predicate DropsUnchosen(s: System, r: Reply) {
    && 1 < |s.proposers| && r in s.replies && r.msg.Accepted?
    && C.Dropped(s.proposers[1], r.msg, r.from) == Some(Y)
    && forall iid: nat :: !Chosen(s, iid, Y)
  }

  function Acked(): P.Proposer {
    P.Proposer(1, 3, [], 0, 1, map[], map[1 := P.Instance(1, 11, Some(Y), None, 0, {0}, 0)])
  }

  /** Proposer 1 has counted the vote of acceptor 0, the only one for `Y`. */
  lemma YAckedOnce() returns (s: System)
    ensures Reachable(s) && VotersOf(s.replies, Y, {0})
    ensures |s.proposers| == 2 && s.proposers[1] == Acked() && |s.acceptors| == 3 && s.acceptors[2] == HAS_X_AT_11
  {
    AcceptorTable();
    s := ElevenPromised();
    hide Reachable, A.ReceivePrepare, A.ReceiveAccept;
    SendsOwnValue(s, 1, Y, 0, 1);
    s := WithProposer(s, 1, Accepting(1, Y), Accept(1, 11, Y));
    Accepts(s, 0, 11, Y, HAS_Y, Accepted(1, 11, 11, Y));
    OtherAnswer(s, 0, HAS_Y, Accepted(1, 11, 11, Y), Y, {0});
    s := WithAcceptor(s, 0, HAS_Y, Accepted(1, 11, 11, Y));
    var r := Reply(0, Accepted(1, 11, 11, Y));
    assert P.ReceiveAccepted(Accepting(1, Y), r.msg, 0).0 == Acked() by {
      assert P.ReceiveAccepted(Accepting(1, Y), r.msg, 0).0.accepts == Acked().accepts;
    }
    var s' := s.(proposers := s.proposers[1 := Acked()], requests := s.requests + {});
    DoPropose(s, GetAccepted(1, r), Acked(), {}, s');
    s := s';
  }

  lemma OneVoterChoosesNothing(s: System, iid: nat)
    requires |s.acceptors| == 3 && VotersOf(s.replies, Y, {0})
    ensures !Chosen(s, iid, Y)
  {
    if b: nat :| ChosenAt(s, iid, b, Y) {
      var q: set<nat> :| IsQuorum(q, |s.acceptors|) && VotedByAll(s.replies, q, iid, b, Y);
      forall a: nat | a in q
        ensures a in {0}
      {
        assert Voted(s.replies, a, iid, b, Y);
      }
      SubsetSize(q, {0});
      assert false;
    }
  }

  /** A repeat whose ballot was raised counts towards a quorum it does not belong to. */
  lemma RepeatsDropUnchosen()
    ensures exists s, r :: Reachable(s) && DropsUnchosen(s, r)
  {
    var s := YAckedOnce();
    var m := Accepted(1, 11, 10, X);
    assert A.ReceiveRepeat(HAS_X_AT_11, 1) == Some(m);
    var s' := WithAcceptor(s, 2, HAS_X_AT_11, m);
    DoAnswer(s, AnswerRepeat(2, 1), HAS_X_AT_11, Some(m), s');
    hide Reachable;
    OtherAnswer(s, 2, HAS_X_AT_11, m, Y, {0});
    forall iid: nat
      ensures !Chosen(s', iid, Y)
    {
      OneVoterChoosesNothing(s', iid);
    }
    assert |{0} + {2}| == 2;
    assert DropsUnchosen(s', Reply(2, m));
  }
}
