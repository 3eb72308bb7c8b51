/** No client value is lost: how often a proposer holds a value changes only when a client proposes it, and when
    an instance carrying it is closed by a majority of acks. */
module Conservation {
  import opened PaxosTypes
  import opened Protocol
  import P = ProposerSpec

  // ---- Counting one value ----

  function Occurs(s: seq<Value>, v: Value): nat {
    multiset(s)[v]
  }

  lemma OccursSum(s: seq<Value>, t: seq<Value>, v: Value)
    ensures Occurs(s + t, v) == Occurs(s, v) + Occurs(t, v)
  {
  }

  function One(o: Option<Value>, v: Value): nat {
    if o == Some(v) then 1 else 0
  }

  lemma OccursOne(w: Value, v: Value)
    ensures Occurs([w], v) == One(Some(w), v)
  {
  }

  function At(t: map<nat, P.Instance>, k: nat, v: Value): nat {
    if k in t then One(t[k].value, v) else 0
  }

  /** How many of the instances up to `n` carry `v` as their client value. */
  function Attached(t: map<nat, P.Instance>, n: nat, v: Value): nat {
    if n == 0 then 0 else Attached(t, n - 1, v) + At(t, n, v)
  }

  /** How often a proposer holds `v`, queued or attached to an instance. */
  function Held(p: P.Proposer, v: Value): nat {
    Occurs(p.values, v) + Attached(p.prepares, p.nextPrepareIid, v) + Attached(p.accepts, p.nextPrepareIid, v)
  }

  lemma {:induction false} SameValues(t: map<nat, P.Instance>, t': map<nat, P.Instance>, n: nat, v: Value)
    requires forall k: nat :: 0 < k <= n ==> At(t', k, v) == At(t, k, v)
    ensures Attached(t', n, v) == Attached(t, n, v)
  {
    if n > 0 { SameValues(t, t', n - 1, v); }
  }

  lemma {:induction false} OneChanged(t: map<nat, P.Instance>, t': map<nat, P.Instance>, k: nat, n: nat, v: Value)
    requires 0 < k <= n && forall j: nat :: 0 < j <= n && j != k ==> At(t', j, v) == At(t, j, v)
    ensures Attached(t', n, v) + At(t, k, v) == Attached(t, n, v) + At(t', k, v)
  {
    if k < n {
      OneChanged(t, t', k, n - 1, v);
    } else {
      SameValues(t, t', n - 1, v);
    }
  }

  lemma {:induction false} NothingHigher(t: map<nat, P.Instance>, n: nat, m: nat, v: Value)
    requires n <= m && forall k :: k in t ==> k <= n
    ensures Attached(t, m, v) == Attached(t, n, v)
  {
    if n < m { NothingHigher(t, n, m - 1, v); }
  }

  lemma {:induction false} SameListing(t: map<nat, P.Instance>, t': map<nat, P.Instance>, order: seq<nat>)
    requires P.Listed(order, t) && P.Listed(order, t') && forall i :: i in order ==> t'[i] == t[i]
    ensures P.ValuesOf(t', order) == P.ValuesOf(t, order)
  {
    if order != [] { SameListing(t, t', order[1..]); }
  }

  lemma ValuesOfFirst(t: map<nat, P.Instance>, order: seq<nat>, v: Value)
    requires order != [] && P.Listed(order, t)
    ensures P.Listed(order[1..], t)
    ensures Occurs(P.ValuesOf(t, order), v) == At(t, order[0], v) + Occurs(P.ValuesOf(t, order[1..]), v)
  {
    var first := if t[order[0]].value.Some? then [t[order[0]].value.value] else [];
    OccursSum(first, P.ValuesOf(t, order[1..]), v);
  }

  function Without(t: map<nat, P.Instance>, order: seq<nat>): map<nat, P.Instance> {
    map i | i in t && i !in order :: t[i]
  }

  lemma WithoutFirst(t: map<nat, P.Instance>, order: seq<nat>)
    requires order != [] && P.Listed(order, t)
    requires forall i, j :: 0 <= i < j < |order| ==> order[i] != order[j]
    ensures var t1 := Without(t, order[..1]);
            && Without(t, order) == Without(t1, order[1..])
            && P.Listed(order[1..], t1) && P.Listed(order[1..], t)
            && (forall i :: i in order[1..] ==> t1[i] == t[i])
            && (forall k :: k != order[0] ==> (k in t1 <==> k in t))
            && (forall k :: k in t1 ==> t1[k] == t[k]) && order[0] !in t1
  {
    assert order == order[..1] + order[1..];
  }

  /** Removing the instances listed moves exactly their values out. */
  lemma {:induction false} ScanMovesValues(t: map<nat, P.Instance>, order: seq<nat>, n: nat, v: Value)
    requires P.Listed(order, t) && forall k :: k in t ==> 0 < k <= n
    requires forall i, j :: 0 <= i < j < |order| ==> order[i] != order[j]
    ensures Attached(Without(t, order), n, v) + Occurs(P.ValuesOf(t, order), v) == Attached(t, n, v)
    decreases |order|
  {
    if order == [] {
      assert Without(t, order) == t && P.ValuesOf(t, order) == [];
    } else {
      WithoutFirst(t, order);
      hide Without, Occurs, P.ValuesOf, Attached;
      var t1 := Without(t, order[..1]);
      ValuesOfFirst(t, order, v);
      SameListing(t, t1, order[1..]);
      OneChanged(t, t1, order[0], n, v);
      ScanMovesValues(t1, order[1..], n, v);
    }
  }

  lemma TrimMovesValues(t: map<nat, P.Instance>, trimIid: nat, order: seq<nat>, n: nat, v: Value)
    requires P.IsScan(order, P.Trimmed(t, trimIid).Keys) && P.Listed(order, t)
    requires forall k :: k in t ==> 0 < k <= n
    ensures Attached(P.Above(t, trimIid), n, v) + Occurs(P.ValuesOf(t, order), v) == Attached(t, n, v)
  {
    ScanMovesValues(t, order, n, v);
    assert Without(t, order) == P.Above(t, trimIid);
  }

  // ---- Each operation ----

  lemma ProposeAdds(p: P.Proposer, w: Value, v: Value)
    ensures Held(P.Propose(p, w), v) == Held(p, v) + One(Some(w), v)
  {
    OccursSum(p.values, [w], v);
    OccursOne(w, v);
  }

  lemma OpenConserves(p: P.Proposer, now: int, v: Value)
    requires P.TablesOk(p)
    ensures Held(P.OpenInstance(p, now).0, v) == Held(p, v)
  {
    var q := P.OpenInstance(p, now).0;
    NothingHigher(p.prepares, p.nextPrepareIid, q.nextPrepareIid, v);
    NothingHigher(p.accepts, p.nextPrepareIid, q.nextPrepareIid, v);
    SameValues(p.prepares, q.prepares, q.nextPrepareIid, v);
  }

  lemma PromiseConserves(p: P.Proposer, m: Message, from: nat, now: int, v: Value)
    requires P.TablesOk(p) && m.Promise?
    ensures Held(P.ReceivePromise(p, m, from, now).0, v) == Held(p, v)
  {
    SameValues(p.prepares, P.ReceivePromise(p, m, from, now).0.prepares, p.nextPrepareIid, v);
  }

  /** An instance that changes tables takes its value along. */
  lemma MoveHolds(f: map<nat, P.Instance>, t: map<nat, P.Instance>, iid: nat, inst: P.Instance, n: nat, v: Value)
    requires iid in f && iid !in t && 0 < iid <= n
    ensures Attached(f - {iid}, n, v) + Attached(t[iid := inst], n, v) + One(f[iid].value, v)
         == Attached(f, n, v) + Attached(t, n, v) + One(inst.value, v)
  {
    OneChanged(f, f - {iid}, iid, n, v);
    OneChanged(t, t[iid := inst], iid, n, v);
  }

  lemma PreemptedConserves(p: P.Proposer, m: Message, now: int, v: Value)
    requires P.TablesOk(p) && m.Preempted?
    ensures Held(P.ReceivePreempted(p, m, now).0, v) == Held(p, v)
  {
    if m.iid in p.accepts && m.ballot > p.accepts[m.iid].ballot {
      MoveHolds(p.accepts, p.prepares, m.iid, P.Preempt(p.id, p.accepts[m.iid], now), p.nextPrepareIid, v);
    }
  }

  lemma AcceptConserves(p: P.Proposer, v: Value)
    requires P.TablesOk(p)
    ensures Held(P.TryAccept(p).0, v) == Held(p, v)
  {
    var q := P.TryAccept(p).0;
    if P.TryAccept(p).1.Some? {
      var iid := Smallest(p.prepares.Keys);
      MoveHolds(p.prepares, p.accepts, iid, q.accepts[iid], p.nextPrepareIid, v);
      if p.prepares[iid].value.None? && p.values != [] {
        assert p.values == [p.values[0]] + q.values;
        OccursSum([p.values[0]], q.values, v);
        OccursOne(p.values[0], v);
      }
    }
  }

  /** The value given up by counting this ack: it closes an instance whose own value is the accepted one. */
  function Dropped(p: P.Proposer, m: Message, from: nat): Option<Value>
    requires m.Accepted?
  {
    if m.iid !in p.accepts then None
    else
      var inst := p.accepts[m.iid];
      if m.ballot == inst.ballot && from !in inst.quorum
         && |inst.quorum + {from}| >= Majority(p.acceptors)
         && inst.value.Some? && P.AcceptValue(inst) == inst.value.value
      then inst.value
      else None
  }

  lemma AcceptedConserves(p: P.Proposer, m: Message, from: nat, v: Value)
    requires P.TablesOk(p) && m.Accepted?
    ensures Held(P.ReceiveAccepted(p, m, from).0, v) + One(Dropped(p, m, from), v) == Held(p, v)
  {
    var q := P.ReceiveAccepted(p, m, from).0;
    if m.iid in p.accepts {
      var inst := p.accepts[m.iid];
      OneChanged(p.accepts, q.accepts, m.iid, p.nextPrepareIid, v);
      if inst.value.Some? {
        OccursSum(p.values, [inst.value.value], v);
        OccursOne(inst.value.value, v);
      }
    }
  }

  lemma TrimConserves(p: P.Proposer, trimIid: nat, order1: seq<nat>, order2: seq<nat>, v: Value)
    requires P.TablesOk(p)
    requires P.IsScan(order1, P.Trimmed(p.prepares, trimIid).Keys) && P.IsScan(order2, P.Trimmed(p.accepts, trimIid).Keys)
    ensures Held(P.ReceiveAcceptorState(p, trimIid, order1, order2), v) == Held(p, v)
  {
    hide Attached, Occurs, P.ValuesOf;
    var q := P.ReceiveAcceptorState(p, trimIid, order1, order2);
    if p.maxTrimIid <= trimIid {
      var n := p.nextPrepareIid;
      TrimMovesValues(p.prepares, trimIid, order1, n, v);
      TrimMovesValues(p.accepts, trimIid, order2, n, v);
      NothingHigher(q.prepares, n, q.nextPrepareIid, v);
      NothingHigher(q.accepts, n, q.nextPrepareIid, v);
      OccursSum(p.values, P.ValuesOf(p.prepares, order1), v);
      OccursSum(p.values + P.ValuesOf(p.prepares, order1), P.ValuesOf(p.accepts, order2), v);
    }
  }

  lemma ResendConserves(p: P.Proposer, iid: nat, now: int, v: Value)
    requires P.TablesOk(p)
    ensures iid in p.prepares ==> Held(P.ResendPrepare(p, iid, now).0, v) == Held(p, v)
    ensures iid in p.accepts ==> Held(P.ResendAccept(p, iid, now).0, v) == Held(p, v)
  {
    if iid in p.prepares {
      SameValues(p.prepares, P.ResendPrepare(p, iid, now).0.prepares, p.nextPrepareIid, v);
    }
    if iid in p.accepts {
      SameValues(p.accepts, P.ResendAccept(p, iid, now).0.accepts, p.nextPrepareIid, v);
    }
  }
}
