/** What state the proposer's handlers leave behind: nothing that could be accepted is left lying, and the window of
    prepared instances is full. Only a trim report can disturb that, and it is shown exactly when it does. */
module Settling {
  import opened PaxosTypes
  import opened ProposerSpec
  import opened ProposerTables
  import opened EvProposerSpec
  import T = Timeouts

  /** There is nothing to do before the next message, value or timeout. */
  ghost predicate Settled(p: Proposer, window: int) {
    NothingToAccept(p) && |p.prepares| >= window
  }

  function Missing(p: Proposer, window: int): nat {
    if window > |p.prepares| then window - |p.prepares| else 0
  }

  /** From `p`, the handler has offered `accepts`, which leads to `mid`, and opened as many instances as the window
      then lacks, which leads to `r`. */
  ghost predicate OffersAndOpens(p: Proposer, mid: Proposer, r: Proposer, window: int,
                                 accepts: seq<Message>, prepares: seq<Message>) {
    && TablesOk(r) && Settled(r, window)
    && NothingToAccept(mid) && AllMove(p, mid, accepts)
    && Opens(mid, Missing(mid, window), r, prepares)
  }

  /** All that is sent is the Accepts of the instances that move and the Prepares of those that are opened. */
  ghost predicate Settles(p: Proposer, r: Proposer, window: int, sent: seq<Message>) {
    exists mid, accepts, prepares :: OffersAndOpens(p, mid, r, window, accepts, prepares) && sent == accepts + prepares
  }

  lemma OpenKeepsNothing(p: Proposer, now: int)
    requires TablesOk(p) && NothingToAccept(p)
    ensures NothingToAccept(OpenInstance(p, now).0)
  {
    var q, iid := OpenInstance(p, now).0, p.nextPrepareIid + 1;
    assert iid in q.prepares.Keys;
    var k := Smallest(q.prepares.Keys);
    assert IsSmallest(k, q.prepares.Keys);
    if p.prepares == map[] {
      assert q.prepares.Keys == {iid};
    } else {
      assert p.prepares.Keys != {} && Smallest(p.prepares.Keys) in q.prepares.Keys;
      assert k == Smallest(p.prepares.Keys);
    }
  }

  lemma {:induction false} OpenManyKeepsNothing(p: Proposer, n: nat, now: int)
    requires TablesOk(p) && NothingToAccept(p)
    ensures NothingToAccept(OpenMany(p, n, now).0)
    decreases n
  {
    if n > 0 {
      OpenKeepsNothing(p, now);
      OpenKeepsTables(p, now);
      hide NothingToAccept, OpenInstance, TablesOk;
      OpenManyKeepsNothing(OpenInstance(p, now).0, n - 1, now);
    }
  }

  lemma NoneOpened(p: Proposer)
    ensures Opens(p, 0, p, [])
  {
  }

  /** `try_accept`, whatever it starts from. */
  lemma TryAcceptSettles(p: Proposer, window: int, now: int)
    requires TablesOk(p)
    ensures var (r, sent) := TryAcceptThenOpen(p, window, now); Settles(p, r, window, sent)
  {
    AcceptAllDoes(p);
    hide TablesOk, NothingToAccept, AllMove, AcceptAll, OpenMany;
    var (mid, accepts) := AcceptAll(p);
    var n := Missing(mid, window);
    var (r, prepares) := OpenMany(mid, n, now);
    OpenManyDoes(mid, n, now);
    OpenManyKeepsNothing(mid, n, now);
    NoneOpened(mid);
    assert (r, prepares) == PreExecute(mid, window, now);
    assert OffersAndOpens(p, mid, r, window, accepts, prepares);
  }

  // ---- Every handler ----

  /** Whatever the promise, the handler goes on to offer and open what it can. */
  lemma PromiseSettles(p: Proposer, m: Message, from: nat, window: int, now: int)
    requires TablesOk(p) && m.Promise?
    ensures var (r, sent) := HandlePromise(p, m, from, window, now);
            var (q, prepare) := ReceivePromise(p, m, from, now);
            TablesOk(r) && Settled(r, window)
            && exists rest :: Settles(q, r, window, rest) && sent == Listing(prepare) + rest
  {
    PromiseKeepsTables(p, m, from, now);
    TryAcceptSettles(ReceivePromise(p, m, from, now).0, window, now);
  }

  lemma ClientValueSettles(p: Proposer, v: Value, window: int, now: int)
    requires TablesOk(p)
    ensures var (r, sent) := HandleClientValue(p, v, window, now);
            TablesOk(r) && Settled(r, window) && Settles(Propose(p, v), r, window, sent)
  {
    TryAcceptSettles(Propose(p, v), window, now);
  }

  /** An ack that counts frees the handler to go on; any other changes nothing. */
  lemma AcceptedSettles(p: Proposer, m: Message, from: nat, window: int, now: int)
    requires TablesOk(p) && m.Accepted?
    ensures var (r, sent) := HandleAccepted(p, m, from, window, now);
            var (q, counted) := ReceiveAccepted(p, m, from);
            && TablesOk(r)
            && (counted ==> Settled(r, window) && Settles(q, r, window, sent))
            && (!counted ==> r == p && sent == [])
  {
    AcceptedKeepsTables(p, m, from);
    TryAcceptSettles(ReceiveAccepted(p, m, from).0, window, now);
  }

  lemma PreemptedSettles(p: Proposer, m: Message, window: int, now: int)
    requires TablesOk(p) && m.Preempted?
    ensures var (r, sent) := HandlePreempted(p, m, window, now);
            var (q, prepare) := ReceivePreempted(p, m, now);
            && TablesOk(r)
            && (prepare.Some? ==> Settled(r, window)
                                  && exists rest :: Settles(q, r, window, rest) && sent == [prepare.value] + rest)
            && (prepare.None? ==> r == p && sent == [])
  {
    PreemptedKeepsTables(p, m, now);
    TryAcceptSettles(ReceivePreempted(p, m, now).0, window, now);
  }

  /** Sending again changes time stamps only. */
  lemma TimeoutsKeepSettled(c: T.Clock, p: Proposer, iids1: seq<nat>, iids2: seq<nat>, window: int)
    requires TablesOk(p) && Listed(iids1, p.prepares) && Listed(iids2, p.accepts)
    requires AllHaveValues(T.Fetched(p.accepts, iids2))
    ensures Settled(ResendAll(c, p, iids1, iids2).0, window) <==> Settled(p, window)
    ensures TablesOk(ResendAll(c, p, iids1, iids2).0)
  {
    var q := ResendAll(c, p, iids1, iids2).0;
    assert q.prepares.Keys == p.prepares.Keys;
    T.StampKeepsTables(c, p, iids1, iids2);
  }

  /** So a client value goes out at once if an instance is ready for it: whenever the smallest prepared instance has
      a majority of promises and there is anything to put into it, a handler that gets to `try_accept` offers it. */
  lemma ReadyIsOffered(p: Proposer, r: Proposer, window: int, sent: seq<Message>)
    requires TablesOk(p) && p.prepares != map[] && Settles(p, r, window, sent)
    requires var inst := p.prepares[Smallest(p.prepares.Keys)];
             QuorumReached(p.acceptors, inst) && (HasSomeValue(inst) || p.values != [])
    ensures var iid := Smallest(p.prepares.Keys);
            && iid in r.accepts && iid !in r.prepares && HasSomeValue(r.accepts[iid])
            && sent != [] && sent[0] == ToAccept(r.accepts[iid]) && sent[0].iid == iid
  {
    var iid := Smallest(p.prepares.Keys);
    var mid, accepts, prepares :| OffersAndOpens(p, mid, r, window, accepts, prepares) && sent == accepts + prepares;
    SmallestMoves(p, mid, accepts);
    assert sent[0] == accepts[0];
  }

  lemma SmallestOfFewer(p: Proposer, q: Proposer)
    requires p.prepares != map[] && q.prepares.Keys <= p.prepares.Keys
    ensures Smallest(p.prepares.Keys) in q.prepares ==>
              q.prepares != map[] && Smallest(q.prepares.Keys) == Smallest(p.prepares.Keys)
  {
    if q.prepares != map[] {
      assert IsSmallest(Smallest(q.prepares.Keys), q.prepares.Keys);
    }
  }

  lemma SmallestMoves(p: Proposer, mid: Proposer, accepts: seq<Message>)
    requires TablesOk(p) && p.prepares != map[] && AllMove(p, mid, accepts) && NothingToAccept(mid)
    requires var inst := p.prepares[Smallest(p.prepares.Keys)];
             QuorumReached(p.acceptors, inst) && (HasSomeValue(inst) || p.values != [])
    ensures var iid := Smallest(p.prepares.Keys);
            && iid in mid.accepts && iid !in mid.prepares && HasSomeValue(mid.accepts[iid])
            && accepts != [] && accepts[0] == ToAccept(mid.accepts[iid]) && accepts[0].iid == iid
  {
    var iid := Smallest(p.prepares.Keys);
    SmallestOfFewer(p, mid);
    assert accepts != [] ==> Moved(p, mid, accepts[0]);
    if iid in mid.prepares {
      assert false;
    }
    var j :| 0 <= j < |accepts| && accepts[j].Accept? && accepts[j].iid == iid;
    assert Moved(p, mid, accepts[j]);
    assert j == 0;
  }

  // ---- Trim reports ----

  ghost predicate NothingToGiveBack(t: map<nat, Instance>, trimIid: nat) {
    forall i :: i in t && i <= trimIid ==> t[i].value.None?
  }

  lemma {:induction false} NoValuesIff(t: map<nat, Instance>, order: seq<nat>)
    requires Listed(order, t)
    ensures ValuesOf(t, order) == [] <==> forall i :: i in order ==> t[i].value.None?
  {
    if order != [] {
      NoValuesIff(t, order[1..]);
      assert order == [order[0]] + order[1..];
    }
  }

  /** What has to hold before a report for it to leave the proposer settled: enough instances stay prepared, and the
      smallest of them lacks promises, or lacks a value while neither the queue nor any trimmed instance has one. */
  ghost predicate StaysSettled(p: Proposer, trimIid: nat, window: int) {
    var rest := Above(p.prepares, trimIid);
    && |rest| >= window
    && (|| rest == map[]
        || !QuorumReached(p.acceptors, rest[Smallest(rest.Keys)])
        || (!HasSomeValue(rest[Smallest(rest.Keys)]) && p.values == []
            && NothingToGiveBack(p.prepares, trimIid) && NothingToGiveBack(p.accepts, trimIid)))
  }

  /** The handler of trim reports does not call `try_accept`, so it can leave work undone: exactly then. */
  lemma ReportSettlesIff(p: Proposer, trimIid: nat, order1: seq<nat>, order2: seq<nat>, window: int)
    requires p.maxTrimIid <= trimIid
    requires IsScan(order1, Trimmed(p.prepares, trimIid).Keys) && IsScan(order2, Trimmed(p.accepts, trimIid).Keys)
    ensures Settled(ReceiveAcceptorState(p, trimIid, order1, order2), window) <==> StaysSettled(p, trimIid, window)
  {
    NoValuesIff(p.prepares, order1);
    NoValuesIff(p.accepts, order2);
    assert NothingToGiveBack(p.prepares, trimIid) <==> ValuesOf(p.prepares, order1) == [];
    assert NothingToGiveBack(p.accepts, trimIid) <==> ValuesOf(p.accepts, order2) == [];
    hide NothingToGiveBack, ValuesOf, IsScan;
  }

  /** A proposer of three acceptors whose next instance is prepared for values to come. */
  const READY := Instance(2, 10, None, None, 0, {0, 1}, 0)
  const OFFERED := Instance(1, 10, Some([7]), None, 0, {}, 0)
  const WAITING := Proposer(0, 3, [], 0, 2, map[2 := READY], map[1 := OFFERED])

  /** It is settled, and the report that trims its only accept gives the value back to a queue where it stays. */
  lemma ReportUnsettles()
    ensures TablesOk(WAITING) && Settled(WAITING, 1)
    ensures IsScan([], Trimmed(WAITING.prepares, 1).Keys) && IsScan([1], Trimmed(WAITING.accepts, 1).Keys)
    ensures var q := ReceiveAcceptorState(WAITING, 1, [], [1]);
            q.values == [[7]] && 2 in q.prepares && !Settled(q, 1)
  {
    assert WAITING.prepares.Keys == {2} && Smallest(WAITING.prepares.Keys) == 2;
    var q := ReceiveAcceptorState(WAITING, 1, [], [1]);
    assert q.prepares == WAITING.prepares;
    assert ValuesOf(WAITING.accepts, [1]) == [[7]] + ValuesOf(WAITING.accepts, [1][1..]);
    assert |{0, 1}| == 2;
  }
}
