/** Only what clients proposed is ever chosen. */
module Validity {
  import opened PaxosTypes
  import opened Protocol
  import opened Safety
  import opened Agreement
  import CR = ConservationInRuns
  import A = AcceptorSpec
  import P = ProposerSpec

  ghost predicate InstanceFrom(inst: P.Instance, given: set<Value>) {
    && (inst.value.Some? ==> inst.value.value in given)
    && (inst.promisedValue.Some? ==> inst.promisedValue.value in given)
  }

  ghost predicate TableFrom(t: map<nat, P.Instance>, given: set<Value>) {
    forall i :: i in t ==> InstanceFrom(t[i], given)
  }

  ghost predicate QueueFrom(values: seq<Value>, given: set<Value>) {
    forall v :: v in values ==> v in given
  }

  ghost predicate ProposerFrom(p: P.Proposer, given: set<Value>) {
    QueueFrom(p.values, given) && TableFrom(p.prepares, given) && TableFrom(p.accepts, given)
  }

  ghost predicate ValueFrom(v: Value, given: set<Value>) {
    v == NO_VALUE || v in given
  }

  /** Any value a message carries. */
  ghost predicate MessageFrom(m: Message, given: set<Value>) {
    m.Promise? || m.Accept? || m.Accepted? ==> ValueFrom(m.value, given)
  }

  ghost predicate AcceptorFrom(a: A.Acceptor, given: set<Value>) {
    forall i :: i in a.records ==> ValueFrom(a.records[i].value, given)
  }

  /** Every value anywhere in the system, or ever sent, is one of those given. */
  ghost predicate AllFrom(s: System, given: set<Value>) {
    && (forall i :: 0 <= i < |s.proposers| ==> ProposerFrom(s.proposers[i], given))
    && (forall i :: 0 <= i < |s.acceptors| ==> AcceptorFrom(s.acceptors[i], given))
    && (forall m :: m in s.requests ==> MessageFrom(m, given))
    && (forall r :: r in s.replies ==> MessageFrom(r.msg, given))
  }

  function NewlyGiven(e: Event): set<Value> {
    if e.ClientValue? then {e.value} else {}
  }

  lemma {:induction false} ReturnedFrom(t: map<nat, P.Instance>, order: seq<nat>, given: set<Value>)
    requires P.Listed(order, t) && TableFrom(t, given)
    ensures QueueFrom(P.ValuesOf(t, order), given)
  {
    if order != [] {
      ReturnedFrom(t, order[1..], given);
      assert InstanceFrom(t[order[0]], given);
    }
  }

  lemma TrimFrom(p: P.Proposer, trimIid: nat, order1: seq<nat>, order2: seq<nat>, given: set<Value>)
    requires ProposerFrom(p, given) && P.Listed(order1, p.prepares) && P.Listed(order2, p.accepts)
    ensures ProposerFrom(P.ReceiveAcceptorState(p, trimIid, order1, order2), given)
  {
    ReturnedFrom(p.prepares, order1, given);
    ReturnedFrom(p.accepts, order2, given);
  }

  lemma ProposerStaysFrom(s: System, e: Event, p': P.Proposer, out: set<Message>, given: set<Value>)
    requires AllFrom(s, given) && ProposerStep(s, e, p', out)
    ensures ProposerFrom(p', given + NewlyGiven(e))
    ensures forall m :: m in out ==> MessageFrom(m, given)
  {
    var p := s.proposers[e.p];
    assert ProposerFrom(p, given);
    if e.GetAcceptorState? {
      TrimFrom(p, e.reply.msg.trimIid, e.order1, e.order2, given);
      hide P.ReceiveAcceptorState;
    } else if e.SendAccept? {
      AcceptFrom(p, given);
      hide P.TryAccept;
    } else if e.GetPromise? {
      assert MessageFrom(e.reply.msg, given);
      PromiseFrom(p, e.reply.msg, e.reply.from, e.now, given);
      hide P.ReceivePromise;
    } else if e.GetPreempted? {
      PreemptedFrom(p, e.reply.msg, e.now, given);
      hide P.ReceivePreempted;
    }
  }

  lemma PromiseFrom(p: P.Proposer, m: Message, from: nat, now: int, given: set<Value>)
    requires ProposerFrom(p, given) && m.Promise? && MessageFrom(m, given)
    ensures ProposerFrom(P.ReceivePromise(p, m, from, now).0, given)
  {
  }

  lemma PreemptedFrom(p: P.Proposer, m: Message, now: int, given: set<Value>)
    requires ProposerFrom(p, given) && m.Preempted?
    ensures ProposerFrom(P.ReceivePreempted(p, m, now).0, given)
    ensures P.ReceivePreempted(p, m, now).1.Some? ==> MessageFrom(P.ReceivePreempted(p, m, now).1.value, given)
  {
  }

  lemma AcceptFrom(p: P.Proposer, given: set<Value>)
    requires ProposerFrom(p, given)
    ensures ProposerFrom(P.TryAccept(p).0, given)
    ensures P.TryAccept(p).1.Some? ==> MessageFrom(P.TryAccept(p).1.value, given)
  {
    if p.prepares != map[] {
      assert InstanceFrom(p.prepares[Smallest(p.prepares.Keys)], given);
    }
  }

  lemma AcceptorStaysFrom(s: System, e: Event, a': A.Acceptor, out: Option<Message>, given: set<Value>)
    requires AllFrom(s, given) && AcceptorStep(s, e, a', out)
    ensures AcceptorFrom(a', given)
    ensures out.Some? ==> MessageFrom(out.value, given)
  {
    assert AcceptorFrom(s.acceptors[e.a], given);
  }

  lemma MoreGiven(s: System, given: set<Value>, more: set<Value>)
    requires AllFrom(s, given)
    ensures AllFrom(s, given + more)
  {
    forall i | 0 <= i < |s.proposers|
      ensures ProposerFrom(s.proposers[i], given + more)
    {
      assert ProposerFrom(s.proposers[i], given);
    }
    forall i | 0 <= i < |s.acceptors|
      ensures AcceptorFrom(s.acceptors[i], given + more)
    {
      assert AcceptorFrom(s.acceptors[i], given);
    }
  }

  lemma ProposerMoveStaysFrom(s: System, e: Event, p': P.Proposer, out: set<Message>, s': System, given: set<Value>)
    requires AllFrom(s, given) && ProposerMoves(s, e, p', out, s')
    ensures AllFrom(s', given + NewlyGiven(e))
  {
    MoreGiven(s, given, NewlyGiven(e));
    ProposerStaysFrom(s, e, p', out, given);
    hide ProposerStep, ProposerFrom, AcceptorFrom;
  }

  lemma AcceptorMoveStaysFrom(s: System, e: Event, a': A.Acceptor, out: Option<Message>, s': System, given: set<Value>)
    requires AllFrom(s, given) && AcceptorMoves(s, e, a', out, s')
    ensures AllFrom(s', given)
  {
    AcceptorStaysFrom(s, e, a', out, given);
    hide AcceptorStep, ProposerFrom, AcceptorFrom;
  }

  lemma StepStaysFrom(s: System, e: Event, s': System, given: set<Value>)
    requires AllFrom(s, given) && Step(s, e, s')
    ensures AllFrom(s', given + NewlyGiven(e))
  {
    hide AllFrom;
    if p', out :| ProposerMoves(s, e, p', out, s') {
      ProposerMoveStaysFrom(s, e, p', out, s', given);
    } else {
      var a', out :| AcceptorMoves(s, e, a', out, s');
      AcceptorMoveStaysFrom(s, e, a', out, s', given);
      MoreGiven(s', given, NewlyGiven(e));
    }
  }

  /** Every value clients gave to some proposer in the first `n` events. */
  function GivenTo(events: seq<Event>, n: nat): set<Value>
    requires n <= |events|
  {
    if n == 0 then {} else GivenTo(events, n - 1) + NewlyGiven(events[n - 1])
  }

  lemma {:induction false} TraceStaysFrom(run: seq<System>, events: seq<Event>, n: nat)
    requires CR.IsTrace(run, events) && n < |run|
    ensures AllFrom(run[n], GivenTo(events, n))
    decreases n
  {
    if n > 0 {
      TraceStaysFrom(run, events, n - 1);
      assert Step(run[n - 1], events[n - 1], run[n - 1 + 1]);
      hide Step, AllFrom, Init;
      StepStaysFrom(run[n - 1], events[n - 1], run[n], GivenTo(events, n - 1));
    }
  }

  /** Validity: in every run, a chosen value is one that some client proposed before. */
  lemma OnlyProposedValuesChosen(run: seq<System>, events: seq<Event>, n: nat, iid: nat, v: Value)
    requires CR.IsTrace(run, events) && n < |run| && Chosen(run[n], iid, v)
    ensures v in GivenTo(events, n) && v != NO_VALUE
  {
    CR.TraceIsRun(run, events);
    RunInv(run, n);
    TraceStaysFrom(run, events, n);
    var b :| ChosenAt(run[n], iid, b, v);
    ChosenWasRequested(run[n], iid, b, v);
    assert MessageFrom(Accept(iid, b, v), GivenTo(events, n));
  }
}
