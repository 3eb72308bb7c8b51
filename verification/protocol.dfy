/** Proposers and acceptors over a network that loses, duplicates and reorders: a message once sent stays
    in the set of sent messages for ever, and a step may read any of them any number of times. */
module Protocol {
  import opened PaxosTypes
  import A = AcceptorSpec
  import P = ProposerSpec

  datatype System = System(
    proposers: seq<P.Proposer>,
    acceptors: seq<A.Acceptor>,
    requests: set<Message>,  // everything proposers ever sent
    replies: set<Reply>)     // everything acceptors ever sent

  datatype Event =
    | ClientValue(p: nat, value: Value)
    | OpenInstance(p: nat, now: int)
    | GetPromise(p: nat, reply: Reply, now: int)
    | SendAccept(p: nat)
    | GetAccepted(p: nat, reply: Reply)
    | GetPreempted(p: nat, reply: Reply, now: int)
    | GetAcceptorState(p: nat, reply: Reply, order1: seq<nat>, order2: seq<nat>)
    | ResendPrepare(p: nat, iid: nat, now: int)
    | ResendAccept(p: nat, iid: nat, now: int)
    | AnswerPrepare(a: nat, request: Message)
    | AnswerAccept(a: nat, request: Message)
    | AnswerRepeat(a: nat, iid: nat)
    | TrimAcceptor(a: nat, iid: nat)
    | ReportState(a: nat)

  function Sent(o: Option<Message>): set<Message> {
    if o.Some? then {o.value} else {}
  }

  function Replied(a: nat, o: Option<Message>): set<Reply> {
    if o.Some? then {Reply(a, o.value)} else {}
  }

  /** The proposer part of a step: the new state of the proposer and what it sends to every acceptor. */
  ghost predicate ProposerStep(s: System, e: Event, p': P.Proposer, out: set<Message>) {
    match e
    case ClientValue(p, v) =>
      p < |s.proposers| && v != NO_VALUE && p' == P.Propose(s.proposers[p], v) && out == {}
    case OpenInstance(p, now) =>
      p < |s.proposers| && p' == P.OpenInstance(s.proposers[p], now).0
      && out == {P.OpenInstance(s.proposers[p], now).1}
    case GetPromise(p, r, now) =>
      p < |s.proposers| && r in s.replies && r.msg.Promise? &&
      var (q, o) := P.ReceivePromise(s.proposers[p], r.msg, r.from, now);
      p' == q && out == Sent(o)
    case SendAccept(p) =>
      p < |s.proposers| &&
      var (q, o) := P.TryAccept(s.proposers[p]);
      p' == q && out == Sent(o)
    case GetAccepted(p, r) =>
      p < |s.proposers| && r in s.replies && r.msg.Accepted?
      && p' == P.ReceiveAccepted(s.proposers[p], r.msg, r.from).0 && out == {}
    case GetPreempted(p, r, now) =>
      p < |s.proposers| && r in s.replies && r.msg.Preempted? &&
      var (q, o) := P.ReceivePreempted(s.proposers[p], r.msg, now);
      p' == q && out == Sent(o)
    case GetAcceptorState(p, r, order1, order2) =>
      p < |s.proposers| && r in s.replies && r.msg.AcceptorState?
      && P.IsScan(order1, P.Trimmed(s.proposers[p].prepares, r.msg.trimIid).Keys)
      && P.IsScan(order2, P.Trimmed(s.proposers[p].accepts, r.msg.trimIid).Keys)
      && p' == P.ReceiveAcceptorState(s.proposers[p], r.msg.trimIid, order1, order2) && out == {}
    case ResendPrepare(p, iid, now) =>
      p < |s.proposers| && iid in s.proposers[p].prepares
      && p' == P.ResendPrepare(s.proposers[p], iid, now).0
      && out == {P.ResendPrepare(s.proposers[p], iid, now).1}
    case ResendAccept(p, iid, now) =>
      p < |s.proposers| && iid in s.proposers[p].accepts
      && P.HasSomeValue(s.proposers[p].accepts[iid])
      && p' == P.ResendAccept(s.proposers[p], iid, now).0
      && out == {P.ResendAccept(s.proposers[p], iid, now).1}
    case _ => false
  }

  /** The acceptor part of a step: the new state of the acceptor and its reply. */
  ghost predicate AcceptorStep(s: System, e: Event, a': A.Acceptor, out: Option<Message>) {
    match e
    case AnswerPrepare(a, m) =>
      a < |s.acceptors| && m in s.requests && m.Prepare?
      && (a', out) == A.ReceivePrepare(s.acceptors[a], m.iid, m.ballot)
    case AnswerAccept(a, m) =>
      a < |s.acceptors| && m in s.requests && m.Accept?
      && (a', out) == A.ReceiveAccept(s.acceptors[a], m.iid, m.ballot, m.value)
    case AnswerRepeat(a, iid) =>
      a < |s.acceptors| && a' == s.acceptors[a] && out == A.ReceiveRepeat(s.acceptors[a], iid)
    case TrimAcceptor(a, iid) =>
      a < |s.acceptors| && a' == A.ReceiveTrim(s.acceptors[a], iid) && out == None
    case ReportState(a) =>
      a < |s.acceptors| && a' == s.acceptors[a] && out == Some(AcceptorState(s.acceptors[a].trimIid))
    case _ => false
  }

  ghost predicate ProposerMoves(s: System, e: Event, p': P.Proposer, out: set<Message>, s': System) {
    ProposerStep(s, e, p', out)
    && s' == s.(proposers := s.proposers[e.p := p'], requests := s.requests + out)
  }

  ghost predicate AcceptorMoves(s: System, e: Event, a': A.Acceptor, out: Option<Message>, s': System) {
    AcceptorStep(s, e, a', out)
    && s' == s.(acceptors := s.acceptors[e.a := a'], replies := s.replies + Replied(e.a, out))
  }

  ghost predicate Step(s: System, e: Event, s': System) {
    || (exists p', out :: ProposerMoves(s, e, p', out, s'))
    || (exists a', out :: AcceptorMoves(s, e, a', out, s'))
  }

  ghost predicate Next(s: System, s': System) {
    exists e :: Step(s, e, s')
  }

  /** Proposer ids are 0..9 and distinct; each may have been given any first instance (`set_instance_id`). */
  ghost predicate Init(s: System) {
    && |s.proposers| <= MAX_N_OF_PROPOSERS
    && (forall i :: 0 <= i < |s.proposers| ==>
          s.proposers[i] == P.Proposer(i, |s.acceptors|, [], 0, s.proposers[i].nextPrepareIid, map[], map[]))
    && (forall a :: 0 <= a < |s.acceptors| ==>
          s.acceptors[a] == A.Acceptor(s.acceptors[a].durable, 0, map[]))
    && s.requests == {} && s.replies == {}
  }

  ghost predicate IsRun(run: seq<System>) {
    && |run| > 0
    && Init(run[0])
    && forall i :: 0 <= i < |run| - 1 ==> Next(run[i], run[i + 1])
  }

  /** Acceptor `a` accepted value `v` for instance `iid` at ballot `b`. */
  ghost predicate Voted(replies: set<Reply>, a: nat, iid: nat, b: nat, v: Value) {
    Reply(a, Accepted(iid, b, b, v)) in replies
  }

  ghost predicate Promised(replies: set<Reply>, a: nat, iid: nat, b: nat, vb: nat, v: Value) {
    Reply(a, Promise(iid, b, vb, v)) in replies
  }

  ghost predicate VotedByAll(replies: set<Reply>, q: set<nat>, iid: nat, b: nat, v: Value) {
    forall a :: a in q ==> Voted(replies, a, iid, b, v)
  }

  /** A majority of the acceptors accepted `v` for `iid` at ballot `b`. */
  ghost predicate ChosenAt(s: System, iid: nat, b: nat, v: Value) {
    exists q :: IsQuorum(q, |s.acceptors|) && VotedByAll(s.replies, q, iid, b, v)
  }

  ghost predicate Chosen(s: System, iid: nat, v: Value) {
    exists b :: ChosenAt(s, iid, b, v)
  }
}
