/** The proposer's two tables stay well formed under every operation, so its asserts never fail. */
module ProposerTables {
  import opened PaxosTypes
  import opened ProposerSpec

  ghost predicate Keyed(m: map<nat, Instance>) {
    forall i :: i in m ==> m[i].iid == i
  }

  /** Instances a proposer is working on. */
  function Pending(p: Proposer): nat {
    |p.prepares| + |p.accepts|
  }

  lemma OneMoreKey<T>(t: map<nat, T>, k: nat, v: T)
    ensures |t[k := v]| == |t| + if k in t then 0 else 1
  {
    assert t[k := v].Keys == t.Keys + {k};
  }

  lemma OneKeyLess<T>(t: map<nat, T>, k: nat)
    requires k in t
    ensures |t - {k}| == |t| - 1
  {
    assert (t - {k}).Keys == t.Keys - {k};
  }

  lemma TablesKeyed(p: Proposer)
    requires TablesOk(p)
    ensures Keyed(p.prepares) && Keyed(p.accepts)
    ensures forall i :: i in p.prepares ==> i !in p.accepts
  {
  }

  lemma OpenKeepsTables(p: Proposer, now: int)
    requires TablesOk(p)
    ensures TablesOk(OpenInstance(p, now).0)
    ensures p.nextPrepareIid + 1 !in p.prepares && p.nextPrepareIid + 1 !in p.accepts
  {
  }

  lemma PromiseKeepsTables(p: Proposer, m: Message, from: nat, now: int)
    requires TablesOk(p) && m.Promise?
    ensures TablesOk(ReceivePromise(p, m, from, now).0)
  {
  }

  lemma AcceptKeepsTables(p: Proposer)
    requires TablesOk(p)
    ensures TablesOk(TryAccept(p).0)
  {
  }

  lemma AcceptedKeepsTables(p: Proposer, m: Message, from: nat)
    requires TablesOk(p) && m.Accepted?
    ensures TablesOk(ReceiveAccepted(p, m, from).0)
  {
  }

  lemma PreemptedKeepsTables(p: Proposer, m: Message, now: int)
    requires TablesOk(p) && m.Preempted?
    ensures TablesOk(ReceivePreempted(p, m, now).0)
  {
  }

  // ---- How many instances are pending ----

  lemma OpenAddsPrepared(p: Proposer, now: int)
    requires TablesOk(p)
    ensures |OpenInstance(p, now).0.prepares| == |p.prepares| + 1
  {
    OneMoreKey(p.prepares, p.nextPrepareIid + 1, NewInstance(p, now));
  }

  lemma ProposeKeepsPending(p: Proposer, v: Value)
    ensures Pending(Propose(p, v)) == Pending(p)
  {
  }

  lemma PromiseKeepsPending(p: Proposer, m: Message, from: nat, now: int)
    requires m.Promise?
    ensures Pending(ReceivePromise(p, m, from, now).0) == Pending(p)
  {
    assert ReceivePromise(p, m, from, now).0.prepares.Keys == p.prepares.Keys;
  }

  lemma AcceptKeepsPending(p: Proposer)
    requires TablesOk(p)
    ensures Pending(TryAccept(p).0) == Pending(p)
  {
    if TryAccept(p).1.Some? {
      var iid := Smallest(p.prepares.Keys);
      OneKeyLess(p.prepares, iid);
      OneMoreKey(p.accepts, iid, TryAccept(p).0.accepts[iid]);
    }
  }

  lemma AcceptedKeepsPending(p: Proposer, m: Message, from: nat)
    requires m.Accepted?
    ensures Pending(ReceiveAccepted(p, m, from).0) <= Pending(p)
  {
    if m.iid in p.accepts {
      OneKeyLess(p.accepts, m.iid);
      OneMoreKey(p.accepts, m.iid, p.accepts[m.iid].(quorum := p.accepts[m.iid].quorum + {from}));
    }
  }

  lemma PreemptedKeepsPending(p: Proposer, m: Message, now: int)
    requires TablesOk(p) && m.Preempted?
    ensures Pending(ReceivePreempted(p, m, now).0) == Pending(p)
  {
    if m.iid in p.accepts {
      OneKeyLess(p.accepts, m.iid);
      OneMoreKey(p.prepares, m.iid, Preempt(p.id, p.accepts[m.iid], now));
    }
  }

  /** Something being prepared leaves room among the accepts. */
  lemma AcceptsFewer(p: Proposer)
    requires p.prepares != map[]
    ensures |p.accepts| < Pending(p)
  {
    var k :| k in p.prepares;
    OneKeyLess(p.prepares, k);
  }

  lemma PreparesFewer(p: Proposer)
    requires p.accepts != map[]
    ensures |p.prepares| < Pending(p)
  {
    var k :| k in p.accepts;
    OneKeyLess(p.accepts, k);
  }

  ghost predicate NothingAtOrBelow(p: Proposer, iid: nat) {
    forall k :: k in p.prepares || k in p.accepts ==> k > iid
  }

  /** A report that is not older than the last one leaves no instance at or below its trim point. */
  lemma StateKeepsTables(p: Proposer, trimIid: nat, order1: seq<nat>, order2: seq<nat>)
    requires TablesOk(p)
    requires IsScan(order1, Trimmed(p.prepares, trimIid).Keys) && IsScan(order2, Trimmed(p.accepts, trimIid).Keys)
    ensures var p' := ReceiveAcceptorState(p, trimIid, order1, order2);
            && TablesOk(p')
            && (p.maxTrimIid <= trimIid ==> NothingAtOrBelow(p', trimIid) && p'.nextPrepareIid >= trimIid)
            && (p.maxTrimIid > trimIid ==> p' == p)
  {
  }

  lemma {:induction false} ValuesOfOneMore(t: map<nat, Instance>, order: seq<nat>, i: nat)
    requires i in t && Listed(order, t)
    ensures Listed(order + [i], t)
    ensures ValuesOf(t, order + [i]) ==
            ValuesOf(t, order) + if t[i].value.Some? then [t[i].value.value] else []
  {
    if order == [] {
      assert [i][1..] == [];
    } else {
      assert (order + [i])[1..] == order[1..] + [i];
      ValuesOfOneMore(t, order[1..], i);
    }
  }

  /** Any finite set of keys can be scanned. */
  lemma {:induction false} ScanExists(keys: set<nat>) returns (order: seq<nat>)
    ensures IsScan(order, keys)
  {
    if keys == {} {
      order := [];
    } else {
      var k :| k in keys;
      var rest := ScanExists(keys - {k});
      order := [k] + rest;
    }
  }

  lemma ScanOf(t: map<nat, Instance>, iid: nat) returns (order: seq<nat>)
    ensures IsScan(order, Trimmed(t, iid).Keys) && Listed(order, t)
  {
    order := ScanExists(Trimmed(t, iid).Keys);
  }
}
