/** The acceptor's event handlers (evacceptor.c): which replies go back to the sender, and which to every client. */
module EvAcceptors {
  import opened PaxosTypes
  import opened Acceptors
  import opened StorageMem
  import A = AcceptorSpec

  datatype Sending = Nobody | Sender(msg: Message) | EveryClient(msg: Message)

  /** The answers of a repeat for `first` up to but not including `past`, in that order. */
  function Repeated(a: A.Acceptor, first: nat, past: nat): (sent: seq<Message>)
    decreases past - first
  {
    if first >= past then []
    else
      var out := A.ReceiveRepeat(a, first);
      (if out.Some? then [out.value] else []) + Repeated(a, first + 1, past)
  }

  ghost predicate HasValue(a: A.Acceptor, iid: nat) {
    iid in a.records && a.records[iid].value != NO_VALUE
  }

  ghost predicate Answers(a: A.Acceptor, m: Message, first: nat, past: nat) {
    m.Accepted? && first <= m.iid < past && HasValue(a, m.iid) && m.value == a.records[m.iid].value
  }

  ghost predicate Mentions(sent: seq<Message>, iid: nat) {
    exists j :: 0 <= j < |sent| && sent[j].Accepted? && sent[j].iid == iid
  }

  ghost predicate AllAnswer(a: A.Acceptor, sent: seq<Message>, first: nat, past: nat) {
    && (forall j :: 0 <= j < |sent| ==> Answers(a, sent[j], first, past))
    && (forall i, j :: 0 <= i < j < |sent| ==> sent[i].iid < sent[j].iid)
  }

  ghost predicate AllMentioned(a: A.Acceptor, sent: seq<Message>, first: nat, past: nat) {
    forall iid: nat :: first <= iid < past && HasValue(a, iid) ==> Mentions(sent, iid)
  }

  lemma {:induction false} RepeatsOnlyAccepted(a: A.Acceptor, first: nat, past: nat)
    requires forall i :: i in a.records ==> a.records[i].iid == i
    ensures AllAnswer(a, Repeated(a, first, past), first, past)
    decreases past - first
  {
    if first < past {
      RepeatsOnlyAccepted(a, first + 1, past);
      var rest := Repeated(a, first + 1, past);
      var head: seq<Message> := if A.ReceiveRepeat(a, first).Some? then [A.ReceiveRepeat(a, first).value] else [];
      forall j | 0 <= j < |rest|
        ensures Answers(a, rest[j], first, past) && rest[j].iid > first
      {
        assert Answers(a, rest[j], first + 1, past);
      }
      assert Repeated(a, first, past) == head + rest;
    }
  }

  lemma MentionsLater(head: seq<Message>, rest: seq<Message>, iid: nat)
    requires Mentions(rest, iid)
    ensures Mentions(head + rest, iid)
  {
    var j :| 0 <= j < |rest| && rest[j].Accepted? && rest[j].iid == iid;
    assert (head + rest)[|head| + j] == rest[j];
  }

  lemma {:induction false} RepeatsAllAccepted(a: A.Acceptor, first: nat, past: nat)
    requires forall i :: i in a.records ==> a.records[i].iid == i
    ensures AllMentioned(a, Repeated(a, first, past), first, past)
    decreases past - first
  {
    if first < past {
      RepeatsAllAccepted(a, first + 1, past);
      var rest := Repeated(a, first + 1, past);
      var head: seq<Message> := if A.ReceiveRepeat(a, first).Some? then [A.ReceiveRepeat(a, first).value] else [];
      forall iid: nat | first <= iid < past && HasValue(a, iid)
        ensures Mentions(head + rest, iid)
      {
        if iid == first {
          assert (head + rest)[0].iid == iid;
        } else {
          assert Mentions(rest, iid);
          MentionsLater(head, rest, iid);
        }
      }
    }
  }

  /** Exactly the instances of the range that were accepted are answered, each once and in ascending order. */
  lemma RepeatsWhatWasAccepted(a: A.Acceptor, first: nat, past: nat)
    requires forall i :: i in a.records ==> a.records[i].iid == i
    ensures AllAnswer(a, Repeated(a, first, past), first, past)
    ensures forall iid: nat :: first <= iid < past ==> (HasValue(a, iid) <==> Mentions(Repeated(a, first, past), iid))
  {
    RepeatsOnlyAccepted(a, first, past);
    RepeatsAllAccepted(a, first, past);
    hide Repeated;
    forall iid: nat | Mentions(Repeated(a, first, past), iid)
      ensures HasValue(a, iid)
    {
      var sent := Repeated(a, first, past);
      var j :| 0 <= j < |sent| && sent[j].Accepted? && sent[j].iid == iid;
      assert Answers(a, sent[j], first, past);
    }
  }

  /** The memory store has only newer instances in the slot of `iid`: asking for it ends the process. */
  ghost predicate Fatal(a: A.Acceptor, iid: nat) {
    !a.durable && Evicted(a.records, iid)
  }

  lemma {:induction false} RepeatedOneMore(a: A.Acceptor, first: nat, past: nat)
    requires first <= past
    ensures Repeated(a, first, past + 1) ==
            Repeated(a, first, past)
            + (if A.ReceiveRepeat(a, past).Some? then [A.ReceiveRepeat(a, past).value] else [])
    decreases past - first
  {
    if first < past {
      RepeatedOneMore(a, first + 1, past);
    }
  }

  class EvAcceptor {
    const state: Acceptor

    ghost predicate Valid()
      reads state, state.Objects()
    {
      state.Valid()
    }

    ghost function State(): A.Acceptor
      requires Valid()
      reads state, state.Objects()
    {
      state.State()
    }

    constructor (a: Acceptor)
      requires a.Valid()
      ensures Valid() && state == a
    {
      state := a;
    }

    /** A promise goes to the proposer that asked. */
    method HandlePrepare(m: Message) returns (out: Sending, exited: bool)
      requires Valid() && m.Prepare?
      modifies state.Objects()
      ensures Valid()
      ensures !exited ==> var (a, reply) := A.ReceivePrepare(old(State()), m.iid, m.ballot);
                          State() == a && out == if reply.Some? then Sender(reply.value) else Nobody
      ensures exited ==> out == Nobody && State() == old(State())
    {
      var answer := state.ReceivePrepare(m.iid, m.ballot);
      if answer.Exited? {
        return Nobody, true;
      }
      out := if answer.reply.Some? then Sender(answer.reply.value) else Nobody;
      exited := false;
    }

    /** A vote goes to every client, learners among them; a preemption only to the proposer that asked. */
    method HandleAccept(m: Message) returns (out: Sending, exited: bool)
      requires Valid() && m.Accept?
      modifies state.Objects()
      ensures Valid()
      ensures !exited ==> var (a, reply) := A.ReceiveAccept(old(State()), m.iid, m.ballot, m.value);
                          && State() == a
                          && (out.EveryClient? <==> reply.Some? && reply.value.Accepted?)
                          && (out.Sender? <==> reply.Some? && reply.value.Preempted?)
                          && (!out.Nobody? ==> reply.Some? && out.msg == reply.value)
      ensures exited ==> out == Nobody && State() == old(State())
    {
      var answer := state.ReceiveAccept(m.iid, m.ballot, m.value);
      if answer.Exited? {
        return Nobody, true;
      }
      out, exited := Nobody, false;
      if answer.reply.Some? {
        if answer.reply.value.Accepted? {
          out := EveryClient(answer.reply.value);
        } else if answer.reply.value.Preempted? {
          out := Sender(answer.reply.value);
        }
      }
    }

    /** Answers to whoever asked, until the range is done or the process exits on an evicted instance `stop`. */
    method HandleRepeat(first: nat, last: nat) returns (sent: seq<Message>, exited: bool, ghost stop: nat)
      requires Valid() && state.Readable(first)
      ensures !exited ==> sent == Repeated(State(), first, last + 1)
      ensures !exited ==> forall iid: nat :: first <= iid <= last ==> !Fatal(State(), iid)
      ensures exited ==> first <= stop <= last && Fatal(State(), stop) && sent == Repeated(State(), first, stop)
    {
      sent, exited, stop := [], false, 0;
      var iid := first;
      ghost var a := State();
      while iid <= last
        invariant first <= iid && (iid <= last + 1 || iid == first)
        invariant sent == Repeated(a, first, iid)
        invariant forall i: nat :: first <= i < iid ==> !Fatal(a, i)
        decreases last + 1 - iid
      {
        var answer := state.ReceiveRepeat(iid);
        if answer.Exited? {
          exited, stop := true, iid;
          return;
        }
        assert !Fatal(State(), iid);
        RepeatedOneMore(a, first, iid);
        if answer.reply.Some? {
          sent := sent + [answer.reply.value];
        }
        iid := iid + 1;
      }
      if iid != last + 1 {
        assert Repeated(a, first, last + 1) == [];
      }
    }

    method HandleTrim(iid: nat)
      requires Valid()
      modifies state.Objects()
      ensures Valid() && State() == A.ReceiveTrim(old(State()), iid)
    {
      state.ReceiveTrim(iid);
    }

    /** The timer tells every client how far this acceptor has trimmed. */
    method SendState() returns (out: Sending)
      requires Valid()
      ensures out == EveryClient(AcceptorState(State().trimIid))
    {
      out := EveryClient(AcceptorState(state.trimIid));
    }
  }
}
