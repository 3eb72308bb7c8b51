/** The proposer's event handlers (evproposer.c); what is sent goes to every acceptor and is returned here. */
module EvProposers {
  import opened PaxosTypes
  import opened ProposerTables
  import opened KHashMap
  import opened Proposers
  import P = ProposerSpec
  import E = EvProposerSpec
  import T = Timeouts

  class EvProposer {
    const preexecWindow: int
    const state: Proposer

    ghost predicate Valid()
      reads state, state.values, state.prepares, state.accepts
      reads state.values.Repr, state.prepares.Repr, state.accepts.Repr
    {
      state.Valid()
    }

    ghost function State(): P.Proposer
      requires state.values.Valid()
      reads state, state.values, state.prepares, state.accepts, state.values.Repr
    {
      state.State()
    }

    /** The tables have room for what a handler may move and open. */
    ghost predicate RoomLeft()
      requires state.values.Valid()
      reads state, state.values, state.prepares, state.accepts, state.values.Repr
    {
      Pending(State()) <= MAX_BUCKETS && preexecWindow <= MAX_BUCKETS
    }

    constructor (id: nat, window: int, acceptors: nat)
      ensures Valid() && State() == P.Proposer(id, acceptors, [], 0, 0, map[], map[])
      ensures preexecWindow == window && fresh(state)
      ensures fresh(state.values.Repr) && fresh(state.prepares.Repr) && fresh(state.accepts.Repr)
    {
      preexecWindow := window;
      state := new Proposer(id, acceptors);
    }

    /** `proposer_preexecute`. */
    method PreExecute(now: int) returns (sent: seq<Message>)
      requires Valid() && preexecWindow <= MAX_BUCKETS
      modifies state, state.values.Repr, state.prepares.Repr, state.accepts.Repr
      ensures Valid() && state.Grown()
      ensures (State(), sent) == E.PreExecute(old(State()), preexecWindow, now)
    {
      hide Proposer.Valid, Proposer.State, Pending, E.OpenMany, E.StillOpening, P.OpenInstance;
      sent := [];
      ghost var before, p := State(), State();
      var prepared := state.PreparedCount();
      var count := preexecWindow - prepared;
      if count <= 0 {
        return;
      }
      E.OpeningStarts(before, count, now);
      for i := 0 to count
        invariant Valid() && state.Grown()
        invariant p == State() && |p.prepares| == |before.prepares| + i
        invariant E.StillOpening(before, count, now, p, count - i, sent)
      {
        OpenAddsPrepared(p, now);
        var m := state.Prepare(now);
        E.OpeningGoesOn(before, count, now, p, count - i, sent, State(), m);
        p, sent := State(), sent + [m];
      }
      E.OpeningEnds(before, count, now, p, sent);
    }

    /** `try_accept`. */
    method TryAccept(now: int) returns (sent: seq<Message>)
      requires Valid() && RoomLeft()
      modifies state, state.values.Repr, state.prepares.Repr, state.accepts.Repr
      ensures Valid() && state.Grown()
      ensures (State(), sent) == E.TryAcceptThenOpen(old(State()), preexecWindow, now)
    {
      hide Proposer.Valid, Pending, E.AcceptAll, E.PreExecute;
      sent := AcceptAll();
      var more := PreExecute(now);
      sent := sent + more;
    }

    method AcceptAll() returns (sent: seq<Message>)
      requires Valid() && Pending(State()) <= MAX_BUCKETS
      modifies state, state.values.Repr, state.prepares.Repr, state.accepts.Repr
      ensures Valid() && state.Grown()
      ensures Pending(State()) == Pending(old(State()))
      ensures (State(), sent) == E.AcceptAll(old(State()))
    {
      hide Proposer.Valid, Pending, E.AcceptAll, E.StillAccepting, P.TryAccept;
      ghost var before := State();
      E.AcceptingStarts(before);
      sent := [];
      while true
        invariant Valid() && state.Grown()
        invariant Pending(State()) == Pending(before)
        invariant E.StillAccepting(before, State(), sent)
        decreases |State().prepares|
      {
        E.AcceptingGoesOn(before, State(), sent);
        AcceptKeepsPending(State());
        if State().prepares != map[] { AcceptsFewer(State()); }
        var m := state.Accept();
        if m.None? {
          break;
        }
        sent := sent + [m.value];
      }
    }

    method HandlePromise(m: Message, from: nat, now: int) returns (sent: seq<Message>)
      requires Valid() && RoomLeft() && m.Promise?
      modifies state, state.values.Repr, state.prepares.Repr, state.accepts.Repr
      ensures Valid() && state.Grown()
      ensures (State(), sent) == E.HandlePromise(old(State()), m, from, preexecWindow, now)
    {
      hide Proposer.Valid, Pending, P.ReceivePromise, E.TryAcceptThenOpen;
      PromiseKeepsPending(State(), m, from, now);
      var prepare := state.ReceivePromise(m, from, now);
      var rest := TryAccept(now);
      sent := E.Listing(prepare) + rest;
    }

    method HandleAccepted(m: Message, from: nat, now: int) returns (sent: seq<Message>)
      requires Valid() && RoomLeft() && m.Accepted?
      modifies state, state.values.Repr, state.prepares.Repr, state.accepts.Repr
      ensures Valid() && state.Grown()
      ensures (State(), sent) == E.HandleAccepted(old(State()), m, from, preexecWindow, now)
    {
      hide Proposer.Valid, Pending, P.ReceiveAccepted, E.TryAcceptThenOpen;
      AcceptedKeepsPending(State(), m, from);
      var counted := state.ReceiveAccepted(m, from);
      sent := [];
      if counted {
        sent := TryAccept(now);
      }
    }

    method HandlePreempted(m: Message, now: int) returns (sent: seq<Message>)
      requires Valid() && RoomLeft() && m.Preempted?
      modifies state, state.values.Repr, state.prepares.Repr, state.accepts.Repr
      ensures Valid() && state.Grown()
      ensures (State(), sent) == E.HandlePreempted(old(State()), m, preexecWindow, now)
    {
      hide Proposer.Valid, Pending, P.ReceivePreempted, E.TryAcceptThenOpen;
      PreemptedKeepsPending(State(), m, now);
      if State().accepts != map[] { PreparesFewer(State()); }
      var prepare := state.ReceivePreempted(m, now);
      sent := [];
      if prepare.Some? {
        sent := TryAccept(now);
        sent := [prepare.value] + sent;
      }
    }

    method HandleClientValue(v: Value, now: int) returns (sent: seq<Message>)
      requires Valid() && RoomLeft()
      modifies state, state.values.Repr, state.prepares.Repr, state.accepts.Repr
      ensures Valid() && state.Grown()
      ensures (State(), sent) == E.HandleClientValue(old(State()), v, preexecWindow, now)
    {
      hide Proposer.Valid, Pending, P.Propose, E.TryAcceptThenOpen;
      ProposeKeepsPending(State(), v);
      state.Propose(v);
      sent := TryAccept(now);
    }

    method HandleAcceptorState(trimIid: nat) returns (ghost order1: seq<nat>, ghost order2: seq<nat>)
      requires Valid()
      modifies state, state.values.Repr, state.prepares.Repr, state.accepts.Repr
      ensures Valid() && state.Grown()
      ensures P.IsScan(order1, P.Trimmed(old(State()).prepares, trimIid).Keys)
      ensures P.IsScan(order2, P.Trimmed(old(State()).accepts, trimIid).Keys)
      ensures P.Listed(order1, old(State()).prepares) && P.Listed(order2, old(State()).accepts)
      ensures State() == P.ReceiveAcceptorState(old(State()), trimIid, order1, order2)
    {
      hide Proposer.Valid, P.ReceiveAcceptorState, P.IsScan, P.Trimmed, P.Listed;
      order1, order2 := state.ReceiveAcceptorState(trimIid);
    }

    /** `evproposer_check_timeouts`: every overdue prepare and every overdue accept is sent again, once. */
    method CheckTimeouts(now: int, timeout: int) returns (iids1: seq<nat>, iids2: seq<nat>, sent: seq<Message>)
      requires Valid()
      requires var c := T.Clock(state.acceptors, now, timeout);
               T.CanEnd(c, State().prepares) && T.CanEnd(c, State().accepts)
      modifies state, state.values.Repr, state.prepares.Repr, state.accepts.Repr
      ensures Valid() && state.Grown()
      ensures var c := T.Clock(state.acceptors, now, timeout);
              && P.IsScan(iids1, T.OverdueKeys(c, old(State()).prepares)) && P.Listed(iids1, old(State()).prepares)
              && P.IsScan(iids2, T.OverdueKeys(c, old(State()).accepts)) && P.Listed(iids2, old(State()).accepts)
              && E.AllHaveValues(T.Fetched(old(State()).accepts, iids2))
              && (State(), sent) == E.ResendAll(c, old(State()), iids1, iids2)
    {
      var c := T.Clock(state.acceptors, now, timeout);
      ghost var before := State();
      hide Proposer.Valid, P.IsScan, P.Listed, P.TablesOk, T.Stamped, T.OverdueKeys, T.Fetched, T.CanEnd;
      var prepared, accepted;
      iids1, iids2, prepared, accepted := state.PassBoth(c);
      E.ResendsHaveValues(before, iids2);
      sent := E.AskAgain(prepared) + E.OfferAgain(accepted);
    }
  }
}
