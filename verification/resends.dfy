/** What the timeout handler sends again: each instance that lacks a majority and has waited long enough, once. */
module Resends {
  import opened PaxosTypes
  import opened ProposerSpec
  import opened EvProposerSpec
  import T = Timeouts

  /** The instance lacks a majority and was last asked about at least `timeout` seconds before `now`. */
  ghost predicate WaitsTooLong(inst: Instance, acceptors: nat, now: int, timeout: int) {
    |inst.quorum| < Majority(acceptors) && inst.createdAt + timeout <= now
  }

  /** What the buckets of the two tables give a pass of the timeout handler. */
  ghost predicate IsPass(c: T.Clock, p: Proposer, iids1: seq<nat>, iids2: seq<nat>) {
    && c.acceptors == p.acceptors
    && IsScan(iids1, T.OverdueKeys(c, p.prepares)) && Listed(iids1, p.prepares)
    && IsScan(iids2, T.OverdueKeys(c, p.accepts)) && Listed(iids2, p.accepts)
    && AllHaveValues(T.Fetched(p.accepts, iids2))
  }

  ghost predicate OnlyStamped(t: map<nat, Instance>, t': map<nat, Instance>, acceptors: nat, now: int, timeout: int) {
    && t'.Keys == t.Keys
    && forall i :: i in t ==>
         t'[i] == if WaitsTooLong(t[i], acceptors, now, timeout) then t[i].(createdAt := now) else t[i]
  }

  ghost predicate EachOnce(sent: seq<Message>) {
    forall j, k :: 0 <= j < k < |sent| ==> sent[j] != sent[k]
  }

  lemma AsksExactly(c: T.Clock, p: Proposer, iids: seq<nat>)
    requires TablesOk(p) && c.acceptors == p.acceptors
    requires IsScan(iids, T.OverdueKeys(c, p.prepares)) && Listed(iids, p.prepares)
    ensures var sent := AskAgain(T.Fetched(p.prepares, iids));
            && (forall i :: i in p.prepares ==>
                  (Prepare(i, p.prepares[i].ballot) in sent <==> WaitsTooLong(p.prepares[i], p.acceptors, c.now, c.timeout)))
            && (forall j :: 0 <= j < |sent| ==>
                  sent[j].Prepare? && sent[j].iid in p.prepares && sent[j].ballot == p.prepares[sent[j].iid].ballot)
            && EachOnce(sent)
    ensures OnlyStamped(p.prepares, T.Stamped(c, p.prepares, iids), p.acceptors, c.now, c.timeout)
  {
    var sent := AskAgain(T.Fetched(p.prepares, iids));
    forall i | i in p.prepares && WaitsTooLong(p.prepares[i], p.acceptors, c.now, c.timeout)
      ensures Prepare(i, p.prepares[i].ballot) in sent
    {
      assert i in iids;
      var j :| 0 <= j < |iids| && iids[j] == i;
      assert sent[j] == Prepare(i, p.prepares[i].ballot);
    }
    assert forall j :: 0 <= j < |sent| ==> iids[j] in iids && sent[j] == Prepare(iids[j], p.prepares[iids[j]].ballot);
  }

  lemma OffersExactly(c: T.Clock, p: Proposer, iids: seq<nat>)
    requires TablesOk(p) && c.acceptors == p.acceptors
    requires IsScan(iids, T.OverdueKeys(c, p.accepts)) && Listed(iids, p.accepts) && AllHaveValues(T.Fetched(p.accepts, iids))
    ensures var sent := OfferAgain(T.Fetched(p.accepts, iids));
            && (forall i :: i in p.accepts ==>
                  (ToAccept(p.accepts[i]) in sent <==> WaitsTooLong(p.accepts[i], p.acceptors, c.now, c.timeout)))
            && (forall j :: 0 <= j < |sent| ==>
                  sent[j].Accept? && sent[j].iid in p.accepts && sent[j] == ToAccept(p.accepts[sent[j].iid]))
            && EachOnce(sent)
    ensures OnlyStamped(p.accepts, T.Stamped(c, p.accepts, iids), p.acceptors, c.now, c.timeout)
  {
    var sent := OfferAgain(T.Fetched(p.accepts, iids));
    forall i | i in p.accepts && WaitsTooLong(p.accepts[i], p.acceptors, c.now, c.timeout)
      ensures ToAccept(p.accepts[i]) in sent
    {
      assert i in iids;
      var j :| 0 <= j < |iids| && iids[j] == i;
      assert sent[j] == ToAccept(p.accepts[i]);
    }
    assert forall j :: 0 <= j < |sent| ==> iids[j] in iids && sent[j] == ToAccept(p.accepts[iids[j]]);
  }

  /** A pass sends the Prepare or Accept of a pending instance again, as it is pending, if and only if it lacks a
      majority and has waited for the timeout; each once, nothing else, and nothing changes but their time stamps. */
  lemma ResendsExactly(c: T.Clock, p: Proposer, iids1: seq<nat>, iids2: seq<nat>)
    requires TablesOk(p) && IsPass(c, p, iids1, iids2)
    ensures var (q, sent) := ResendAll(c, p, iids1, iids2);
            && (forall i :: i in p.prepares ==>
                  (Prepare(i, p.prepares[i].ballot) in sent <==> WaitsTooLong(p.prepares[i], p.acceptors, c.now, c.timeout)))
            && (forall i :: i in p.accepts ==>
                  (ToAccept(p.accepts[i]) in sent <==> WaitsTooLong(p.accepts[i], p.acceptors, c.now, c.timeout)))
            && (forall m :: m in sent ==>
                  || (m.Prepare? && m.iid in p.prepares && m.ballot == p.prepares[m.iid].ballot)
                  || (m.Accept? && m.iid in p.accepts && m == ToAccept(p.accepts[m.iid])))
            && EachOnce(sent)
            && q == p.(prepares := q.prepares, accepts := q.accepts)
            && OnlyStamped(p.prepares, q.prepares, p.acceptors, c.now, c.timeout)
            && OnlyStamped(p.accepts, q.accepts, p.acceptors, c.now, c.timeout)
  {
    AsksExactly(c, p, iids1);
    OffersExactly(c, p, iids2);
    hide WaitsTooLong, OnlyStamped, IsScan, Listed, AskAgain, OfferAgain, T.Fetched, T.Stamped, T.OverdueKeys;
  }

  /** An instance sent again by one pass and still without a majority is sent again by a later one exactly if that
      comes at least a timeout after it. */
  lemma NotAgainTooSoon(c: T.Clock, p: Proposer, iids1: seq<nat>, iids2: seq<nat>,
                        later: T.Clock, iids3: seq<nat>, iids4: seq<nat>, i: nat)
    requires TablesOk(p) && IsPass(c, p, iids1, iids2) && later.timeout == c.timeout
    requires var q := ResendAll(c, p, iids1, iids2).0; IsPass(later, q, iids3, iids4)
    requires i in p.prepares && Prepare(i, p.prepares[i].ballot) in ResendAll(c, p, iids1, iids2).1
    ensures var q := ResendAll(c, p, iids1, iids2).0;
            Prepare(i, p.prepares[i].ballot) in ResendAll(later, q, iids3, iids4).1 <==> later.now >= c.now + c.timeout
  {
    var q := ResendAll(c, p, iids1, iids2).0;
    ResendsExactly(c, p, iids1, iids2);
    T.StampKeepsTables(c, p, iids1, iids2);
    ResendsExactly(later, q, iids3, iids4);
    hide ResendAll, IsPass, EachOnce;
    assert q.prepares[i] == p.prepares[i].(createdAt := c.now);
  }
}
