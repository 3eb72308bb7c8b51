/** Everything an event handler of a proposer or an acceptor does is a stretch of steps of the protocol. */
module HandlerSteps {
  import opened PaxosTypes
  import opened Protocol
  import A = AcceptorSpec
  import EA = EvAcceptors
  import P = ProposerSpec
  import E = EvProposerSpec
  import T = Timeouts

  // ---- Stretches of a run ----

  ghost predicate InSteps(s: System, n: nat, s': System) {
    if n == 0 then s' == s else exists mid :: InSteps(s, n - 1, mid) && Next(mid, s')
  }

  ghost predicate LeadsTo(s: System, s': System) {
    exists n: nat :: InSteps(s, n, s')
  }

  lemma Stays(s: System)
    ensures LeadsTo(s, s)
  {
    assert InSteps(s, 0, s);
  }

  lemma {:induction false} InStepsTogether(s: System, n: nat, mid: System, m: nat, s': System)
    requires InSteps(s, n, mid) && InSteps(mid, m, s')
    ensures InSteps(s, n + m, s')
  {
    hide Next;
    if m > 0 {
      var x :| InSteps(mid, m - 1, x) && Next(x, s');
      InStepsTogether(s, n, mid, m - 1, x);
    }
  }

  lemma Together(s: System, mid: System, s': System)
    requires LeadsTo(s, mid) && LeadsTo(mid, s')
    ensures LeadsTo(s, s')
  {
    var n: nat :| InSteps(s, n, mid);
    var m: nat :| InSteps(mid, m, s');
    InStepsTogether(s, n, mid, m, s');
  }

  lemma {:induction false} RunExtends(run: seq<System>, n: nat, s': System) returns (more: seq<System>)
    requires IsRun(run) && InSteps(run[|run| - 1], n, s')
    ensures IsRun(run + more) && (run + more)[|run + more| - 1] == s'
  {
    if n == 0 {
      more := [];
      assert run + more == run;
    } else {
      var mid :| InSteps(run[|run| - 1], n - 1, mid) && Next(mid, s');
      var front := RunExtends(run, n - 1, mid);
      more := front + [s'];
      var all := run + more;
      assert all == (run + front) + [s'];
      hide Next, Init;
      forall i | 0 <= i < |all| - 1
        ensures Next(all[i], all[i + 1])
      {
        if i < |all| - 2 { assert Next((run + front)[i], (run + front)[i + 1]); }
      }
    }
  }

  /** A run goes on through whatever its last state leads to, so all that holds in every run holds there too. */
  lemma RunGoesOn(run: seq<System>, s': System) returns (more: seq<System>)
    requires IsRun(run) && LeadsTo(run[|run| - 1], s')
    ensures IsRun(run + more) && (run + more)[|run + more| - 1] == s'
  {
    var n: nat :| InSteps(run[|run| - 1], n, s');
    more := RunExtends(run, n, s');
  }

  // ---- One proposer moves ----

  ghost function All(sent: seq<Message>): set<Message> {
    set m | m in sent
  }

  /** Proposer `i` is now `p`, having sent `sent` to every acceptor. */
  ghost function With(s: System, i: nat, p: P.Proposer, sent: seq<Message>): System
    requires i < |s.proposers|
  {
    s.(proposers := s.proposers[i := p], requests := s.requests + All(sent))
  }

  ghost predicate Does(s: System, i: nat, p: P.Proposer, sent: seq<Message>) {
    i < |s.proposers| && LeadsTo(s, With(s, i, p, sent))
  }

  lemma NextIsOneStep(s: System, s': System)
    requires Next(s, s')
    ensures LeadsTo(s, s')
  {
    hide Next;
    assert InSteps(s, 1 - 1, s);
    assert InSteps(s, 1, s');
  }

  lemma OneStep(s: System, e: Event, p: P.Proposer, sent: seq<Message>)
    requires ProposerStep(s, e, p, All(sent)) && e.p < |s.proposers|
    ensures Does(s, e.p, p, sent)
  {
    var s' := With(s, e.p, p, sent);
    assert ProposerMoves(s, e, p, All(sent), s');
    assert Step(s, e, s');
    NextIsOneStep(s, s');
  }

  lemma Nothing(s: System, i: nat)
    requires i < |s.proposers|
    ensures Does(s, i, s.proposers[i], [])
  {
    assert With(s, i, s.proposers[i], []) == s;
    Stays(s);
  }

  lemma Both(s: System, i: nat, p: P.Proposer, sent: seq<Message>, q: P.Proposer, more: seq<Message>)
    requires Does(s, i, p, sent) && Does(With(s, i, p, sent), i, q, more)
    ensures Does(s, i, q, sent + more)
  {
    var mid := With(s, i, p, sent);
    assert All(sent + more) == All(sent) + All(more);
    assert With(mid, i, q, more) == With(s, i, q, sent + more);
    Together(s, mid, With(s, i, q, sent + more));
  }

  // ---- Loops ----

  lemma {:induction false} AcceptAllIsSteps(s: System, i: nat)
    requires i < |s.proposers|
    ensures Does(s, i, E.AcceptAll(s.proposers[i]).0, E.AcceptAll(s.proposers[i]).1)
    decreases |s.proposers[i].prepares|
  {
    var p := s.proposers[i];
    var (q, out) := P.TryAccept(p);
    assert All(E.Listing(out)) == Sent(out);
    OneStep(s, SendAccept(i), q, E.Listing(out));
    if out.Some? {
      E.AcceptingShrinks(p);
      hide P.TryAccept, Does;
      var mid := With(s, i, q, [out.value]);
      AcceptAllIsSteps(mid, i);
      Both(s, i, q, [out.value], E.AcceptAll(q).0, E.AcceptAll(q).1);
    }
  }

  lemma {:induction false} OpenManyIsSteps(s: System, i: nat, n: nat, now: int)
    requires i < |s.proposers|
    ensures Does(s, i, E.OpenMany(s.proposers[i], n, now).0, E.OpenMany(s.proposers[i], n, now).1)
    decreases n
  {
    if n == 0 {
      Nothing(s, i);
    } else {
      var (q, m) := P.OpenInstance(s.proposers[i], now);
      assert All([m]) == {m};
      OneStep(s, OpenInstance(i, now), q, [m]);
      hide P.OpenInstance, Does;
      OpenManyIsSteps(With(s, i, q, [m]), i, n - 1, now);
      Both(s, i, q, [m], E.OpenMany(q, n - 1, now).0, E.OpenMany(q, n - 1, now).1);
    }
  }

  lemma TryAcceptIsSteps(s: System, i: nat, window: int, now: int)
    requires i < |s.proposers|
    ensures var (r, sent) := E.TryAcceptThenOpen(s.proposers[i], window, now); Does(s, i, r, sent)
  {
    hide Does, E.AcceptAll, E.OpenMany;
    AcceptAllIsSteps(s, i);
    var (q, accepts) := E.AcceptAll(s.proposers[i]);
    var mid := With(s, i, q, accepts);
    assert Does(s, i, q, accepts) && i < |mid.proposers| && mid.proposers[i] == q;
    var (r, prepares) := E.PreExecute(q, window, now);
    if window - |q.prepares| <= 0 {
      Nothing(mid, i);
    } else {
      OpenManyIsSteps(mid, i, window - |q.prepares|, now);
    }
    Both(s, i, q, accepts, r, prepares);
  }

  /** A step, then `try_accept`. */
  lemma StepThenTryAccept(s: System, i: nat, q: P.Proposer, first: seq<Message>, window: int, now: int)
    requires Does(s, i, q, first)
    ensures var (r, rest) := E.TryAcceptThenOpen(q, window, now); Does(s, i, r, first + rest)
  {
    var mid := With(s, i, q, first);
    TryAcceptIsSteps(mid, i, window, now);
    hide Does, E.TryAcceptThenOpen;
    var (r, rest) := E.TryAcceptThenOpen(q, window, now);
    Both(s, i, q, first, r, rest);
  }

  lemma NoneFirst(sent: seq<Message>)
    ensures [] + sent == sent
  {
  }

  lemma SilentThenTryAccept(s: System, i: nat, q: P.Proposer, window: int, now: int)
    requires Does(s, i, q, [])
    ensures var (r, rest) := E.TryAcceptThenOpen(q, window, now); Does(s, i, r, rest)
  {
    hide Does, E.TryAcceptThenOpen;
    StepThenTryAccept(s, i, q, [], window, now);
    NoneFirst(E.TryAcceptThenOpen(q, window, now).1);
  }

  // ---- Handlers ----

  lemma HandlePromiseIsSteps(s: System, i: nat, r: Reply, window: int, now: int)
    requires i < |s.proposers| && r in s.replies && r.msg.Promise?
    ensures var (p, sent) := E.HandlePromise(s.proposers[i], r.msg, r.from, window, now); Does(s, i, p, sent)
  {
    var (q, out) := P.ReceivePromise(s.proposers[i], r.msg, r.from, now);
    assert All(E.Listing(out)) == Sent(out);
    OneStep(s, GetPromise(i, r, now), q, E.Listing(out));
    StepThenTryAccept(s, i, q, E.Listing(out), window, now);
  }

  lemma HandleAcceptedIsSteps(s: System, i: nat, r: Reply, window: int, now: int)
    requires i < |s.proposers| && r in s.replies && r.msg.Accepted?
    ensures var (p, sent) := E.HandleAccepted(s.proposers[i], r.msg, r.from, window, now); Does(s, i, p, sent)
  {
    var (q, counted) := P.ReceiveAccepted(s.proposers[i], r.msg, r.from);
    assert All([]) == {};
    OneStep(s, GetAccepted(i, r), q, []);
    hide Does, P.ReceiveAccepted, E.TryAcceptThenOpen;
    SilentThenTryAccept(s, i, q, window, now);
  }

  lemma HandlePreemptedIsSteps(s: System, i: nat, r: Reply, window: int, now: int)
    requires i < |s.proposers| && r in s.replies && r.msg.Preempted?
    ensures var (p, sent) := E.HandlePreempted(s.proposers[i], r.msg, window, now); Does(s, i, p, sent)
  {
    var (q, out) := P.ReceivePreempted(s.proposers[i], r.msg, now);
    assert All(E.Listing(out)) == Sent(out);
    OneStep(s, GetPreempted(i, r, now), q, E.Listing(out));
    StepThenTryAccept(s, i, q, E.Listing(out), window, now);
  }

  lemma HandleClientValueIsSteps(s: System, i: nat, v: Value, window: int, now: int)
    requires i < |s.proposers| && v != NO_VALUE
    ensures var (p, sent) := E.HandleClientValue(s.proposers[i], v, window, now); Does(s, i, p, sent)
  {
    var q := P.Propose(s.proposers[i], v);
    assert All([]) == {};
    OneStep(s, ClientValue(i, v), q, []);
    hide Does, P.Propose, E.TryAcceptThenOpen;
    SilentThenTryAccept(s, i, q, window, now);
  }

  lemma HandleAcceptorStateIsSteps(s: System, i: nat, r: Reply, order1: seq<nat>, order2: seq<nat>)
    requires i < |s.proposers| && r in s.replies && r.msg.AcceptorState?
    requires P.IsScan(order1, P.Trimmed(s.proposers[i].prepares, r.msg.trimIid).Keys)
    requires P.IsScan(order2, P.Trimmed(s.proposers[i].accepts, r.msg.trimIid).Keys)
    ensures Does(s, i, P.ReceiveAcceptorState(s.proposers[i], r.msg.trimIid, order1, order2), [])
  {
    assert All([]) == {};
    OneStep(s, GetAcceptorState(i, r, order1, order2),
            P.ReceiveAcceptorState(s.proposers[i], r.msg.trimIid, order1, order2), []);
  }

  // ---- Timeouts ----

  ghost function PreparesResent(c: T.Clock, p: P.Proposer, iids: seq<nat>): P.Proposer {
    p.(prepares := T.Stamped(c, p.prepares, iids))
  }

  ghost function AcceptsResent(c: T.Clock, p: P.Proposer, iids: seq<nat>): P.Proposer {
    p.(accepts := T.Stamped(c, p.accepts, iids))
  }

  lemma StampedLast(c: T.Clock, m: map<nat, P.Instance>, iids: seq<nat>)
    requires iids != [] && P.Listed(iids, m)
    ensures var front, i := iids[..|iids| - 1], iids[|iids| - 1];
            && P.Listed(front, m) && i in m
            && T.Stamped(c, m, iids) == T.Stamped(c, m, front)[i := T.Stamped(c, m, front)[i].(createdAt := c.now)]
            && T.Fetched(m, iids) == T.Fetched(m, front) + [m[i]]
            && T.Stamped(c, m, front)[i].(createdAt := c.now) == m[i].(createdAt := c.now)
  {
    var front, i := iids[..|iids| - 1], iids[|iids| - 1];
    assert iids == front + [i];
  }

  lemma AskLast(insts: seq<P.Instance>, inst: P.Instance)
    ensures E.AskAgain(insts + [inst]) == E.AskAgain(insts) + [Prepare(inst.iid, inst.ballot)]
  {
  }

  lemma OfferLast(insts: seq<P.Instance>, inst: P.Instance)
    requires E.AllHaveValues(insts + [inst])
    ensures E.AllHaveValues(insts) && P.HasSomeValue(inst)
    ensures E.OfferAgain(insts + [inst]) == E.OfferAgain(insts) + [P.ToAccept(inst)]
  {
    assert forall j :: 0 <= j < |insts| ==> insts[j] == (insts + [inst])[j];
    assert inst == (insts + [inst])[|insts|];
  }

  lemma {:induction false} AskAgainIsSteps(s: System, i: nat, c: T.Clock, iids: seq<nat>)
    requires i < |s.proposers| && P.Listed(iids, s.proposers[i].prepares)
    ensures var p := s.proposers[i];
            Does(s, i, PreparesResent(c, p, iids), E.AskAgain(T.Fetched(p.prepares, iids)))
    decreases |iids|
  {
    var p := s.proposers[i];
    if iids == [] {
      assert T.Stamped(c, p.prepares, []) == p.prepares;
      Nothing(s, i);
    } else {
      var front, iid := iids[..|iids| - 1], iids[|iids| - 1];
      StampedLast(c, p.prepares, iids);
      AskLast(T.Fetched(p.prepares, front), p.prepares[iid]);
      AskAgainIsSteps(s, i, c, front);
      var q, sent := PreparesResent(c, p, front), E.AskAgain(T.Fetched(p.prepares, front));
      var mid := With(s, i, q, sent);
      var (r, m) := P.ResendPrepare(q, iid, c.now);
      assert All([m]) == {m};
      OneStep(mid, ResendPrepare(i, iid, c.now), r, [m]);
      Both(s, i, q, sent, r, [m]);
    }
  }

  lemma {:induction false} OfferAgainIsSteps(s: System, i: nat, c: T.Clock, iids: seq<nat>)
    requires i < |s.proposers| && P.Listed(iids, s.proposers[i].accepts)
    requires E.AllHaveValues(T.Fetched(s.proposers[i].accepts, iids))
    ensures var p := s.proposers[i];
            Does(s, i, AcceptsResent(c, p, iids), E.OfferAgain(T.Fetched(p.accepts, iids)))
    decreases |iids|
  {
    var p := s.proposers[i];
    if iids == [] {
      assert T.Stamped(c, p.accepts, []) == p.accepts;
      Nothing(s, i);
    } else {
      var front, iid := iids[..|iids| - 1], iids[|iids| - 1];
      StampedLast(c, p.accepts, iids);
      OfferLast(T.Fetched(p.accepts, front), p.accepts[iid]);
      OfferAgainIsSteps(s, i, c, front);
      var q, sent := AcceptsResent(c, p, front), E.OfferAgain(T.Fetched(p.accepts, front));
      var mid := With(s, i, q, sent);
      var (r, m) := P.ResendAccept(q, iid, c.now);
      assert All([m]) == {m};
      OneStep(mid, ResendAccept(i, iid, c.now), r, [m]);
      Both(s, i, q, sent, r, [m]);
    }
  }

  lemma CheckTimeoutsIsSteps(s: System, i: nat, c: T.Clock, iids1: seq<nat>, iids2: seq<nat>)
    requires i < |s.proposers| && P.Listed(iids1, s.proposers[i].prepares) && P.Listed(iids2, s.proposers[i].accepts)
    requires E.AllHaveValues(T.Fetched(s.proposers[i].accepts, iids2))
    ensures var (p, sent) := E.ResendAll(c, s.proposers[i], iids1, iids2); Does(s, i, p, sent)
  {
    var p := s.proposers[i];
    AskAgainIsSteps(s, i, c, iids1);
    var q, sent := PreparesResent(c, p, iids1), E.AskAgain(T.Fetched(p.prepares, iids1));
    var mid := With(s, i, q, sent);
    OfferAgainIsSteps(mid, i, c, iids2);
    hide Does, T.Stamped, E.AskAgain, E.OfferAgain;
    Both(s, i, q, sent, AcceptsResent(c, q, iids2), E.OfferAgain(T.Fetched(p.accepts, iids2)));
  }

  // ---- Acceptors ----

  /** An acceptor's handler is one step: what it answers joins the messages any proposer or learner may read. */
  lemma AnswerIsStep(s: System, e: Event, a': A.Acceptor, out: Option<Message>)
    requires AcceptorStep(s, e, a', out) && e.a < |s.acceptors|
    ensures LeadsTo(s, s.(acceptors := s.acceptors[e.a := a'], replies := s.replies + Replied(e.a, out)))
  {
    var s' := s.(acceptors := s.acceptors[e.a := a'], replies := s.replies + Replied(e.a, out));
    assert AcceptorMoves(s, e, a', out, s');
    assert Step(s, e, s');
    NextIsOneStep(s, s');
  }

  /** Acceptor `a` is now `x`, having answered `out`. */
  ghost predicate Answers(s: System, a: nat, x: A.Acceptor, out: Option<Message>) {
    && a < |s.acceptors|
    && LeadsTo(s, s.(acceptors := s.acceptors[a := x], replies := s.replies + Replied(a, out)))
  }

  lemma HandlePrepareIsStep(s: System, a: nat, m: Message)
    requires a < |s.acceptors| && m in s.requests && m.Prepare?
    ensures var (x, out) := A.ReceivePrepare(s.acceptors[a], m.iid, m.ballot); Answers(s, a, x, out)
  {
    var (x, out) := A.ReceivePrepare(s.acceptors[a], m.iid, m.ballot);
    AnswerIsStep(s, AnswerPrepare(a, m), x, out);
  }

  lemma HandleAcceptIsStep(s: System, a: nat, m: Message)
    requires a < |s.acceptors| && m in s.requests && m.Accept?
    ensures var (x, out) := A.ReceiveAccept(s.acceptors[a], m.iid, m.ballot, m.value); Answers(s, a, x, out)
  {
    var (x, out) := A.ReceiveAccept(s.acceptors[a], m.iid, m.ballot, m.value);
    AnswerIsStep(s, AnswerAccept(a, m), x, out);
  }

  lemma HandleTrimIsStep(s: System, a: nat, iid: nat)
    requires a < |s.acceptors|
    ensures Answers(s, a, A.ReceiveTrim(s.acceptors[a], iid), None)
  {
    AnswerIsStep(s, TrimAcceptor(a, iid), A.ReceiveTrim(s.acceptors[a], iid), None);
  }

  lemma SendStateIsStep(s: System, a: nat)
    requires a < |s.acceptors|
    ensures Answers(s, a, s.acceptors[a], Some(AcceptorState(s.acceptors[a].trimIid)))
  {
    AnswerIsStep(s, ReportState(a), s.acceptors[a], Some(AcceptorState(s.acceptors[a].trimIid)));
  }

  function Answered(a: nat, sent: seq<Message>): set<Reply> {
    set m | m in sent :: Reply(a, m)
  }

  lemma RepeatOne(s: System, a: nat, iid: nat)
    requires a < |s.acceptors|
    ensures LeadsTo(s, s.(replies := s.replies + Replied(a, A.ReceiveRepeat(s.acceptors[a], iid))))
  {
    var x := s.acceptors[a];
    AnswerIsStep(s, AnswerRepeat(a, iid), x, A.ReceiveRepeat(x, iid));
    assert s.acceptors[a := x] == s.acceptors;
  }

  lemma AnsweredTogether(replies: set<Reply>, a: nat, out: Option<Message>, rest: seq<Message>)
    ensures replies + Replied(a, out) + Answered(a, rest) == replies + Answered(a, E.Listing(out) + rest)
  {
    assert Answered(a, E.Listing(out) + rest) == Replied(a, out) + Answered(a, rest);
  }

  lemma {:induction false} RepeatIsSteps(s: System, a: nat, first: nat, past: nat)
    requires a < |s.acceptors|
    ensures LeadsTo(s, s.(replies := s.replies + Answered(a, EA.Repeated(s.acceptors[a], first, past))))
    decreases past - first
  {
    hide LeadsTo;
    var x := s.acceptors[a];
    if first >= past {
      assert s.(replies := s.replies + Answered(a, [])) == s;
      Stays(s);
    } else {
      hide A.ReceiveRepeat, Answered, Replied;
      var out, rest := A.ReceiveRepeat(x, first), EA.Repeated(x, first + 1, past);
      RepeatOne(s, a, first);
      var mid := s.(replies := s.replies + Replied(a, out));
      RepeatIsSteps(mid, a, first + 1, past);
      AnsweredTogether(s.replies, a, out, rest);
      Together(s, mid, mid.(replies := mid.replies + Answered(a, rest)));
    }
  }
}
