/** The acceptor over its store (acceptor.c): every handler takes exactly the step of module AcceptorSpec, unless
    the memory store makes the process exit first. */
module Acceptors {
  import opened PaxosTypes
  import opened StorageMem
  import opened StorageBdb
  import A = AcceptorSpec

  /** The storage backends behind one interface (storage.c). */
  datatype Backend = Mem(mem: MemStore) | Bdb(bdb: BdbStore)

  /** `Exited`: the process is gone and answered nothing. */
  datatype Outcome = Exited | Answer(reply: Option<Message>)

  class Acceptor {
    var trimIid: nat
    const store: Backend

    ghost function Objects(): set<object> {
      {this} + match store
               case Mem(m) => {m, m.records}
               case Bdb(b) => {b}
    }

    ghost predicate Valid()
      reads this, Objects()
    {
      match store
      case Mem(m) => m.Valid()
      case Bdb(b) => b.Valid() && TrimOf(b.db) == trimIid && forall k :: k in Records(b.db) ==> k > trimIid
    }

    /** The acceptor with one record per instance that this one stands for. */
    ghost function State(): A.Acceptor
      requires Valid()
      reads this, Objects()
    {
      match store
      case Mem(m) => A.Acceptor(false, trimIid, m.M)
      case Bdb(b) => A.Acceptor(true, trimIid, Records(b.db))
    }

    /** A request for `iid` finds its slot taken by a newer instance. */
    ghost predicate WouldExit(iid: nat)
      requires Valid()
      reads this, Objects()
    {
      !State().durable && Evicted(State().records, iid)
    }

    /** The durable store has no record to read at the key of its trim point. */
    ghost predicate Readable(iid: nat)
      reads this, Objects()
    {
      iid > 0 || store.Mem? || 0 !in store.bdb.db
    }

    constructor InMemory()
      ensures Valid() && fresh(Objects()) && State() == A.Acceptor(false, 0, map[])
    {
      var m := new MemStore();
      trimIid := 0;
      store := Mem(m);
    }

    /** `acceptor_new` on a durable store: the trim point is read back, the records are simply there. */
    constructor Open(b: BdbStore)
      requires b.Valid() && forall k :: k in Records(b.db) ==> k > TrimOf(b.db)
      ensures Valid() && store == Bdb(b) && State() == A.Acceptor(true, TrimOf(b.db), Records(b.db))
    {
      var iid := b.GetTrimInstance();
      trimIid := iid;
      store := Bdb(b);
    }

    method GetRecord(iid: nat) returns (r: Lookup)
      requires Valid() && Readable(iid)
      ensures r.Halted? <==> WouldExit(iid)
      ensures !r.Halted? ==> r == if iid in State().records then Found(State().records[iid])
                                  else if iid == 0 && store.Mem? then Found(ZERO)
                                  else Missing
    {
      match store
      case Mem(m) => r := m.Get(iid);
      case Bdb(b) => r := b.Get(iid);
    }

    method PutRecord(acc: Record)
      requires Valid() && acc.iid > trimIid && !WouldExit(acc.iid)
      modifies Objects() - {this}
      ensures Valid()
      ensures State() == old(State()).(records := old(State()).records[acc.iid := acc])
    {
      match store
      case Mem(m) => m.Put(acc);
      case Bdb(b) => b.Put(acc);
    }

    method ReceivePrepare(iid: nat, ballot: nat) returns (out: Outcome)
      requires Valid()
      modifies Objects() - {this}
      ensures Valid()
      ensures out.Exited? <==> iid > old(trimIid) && old(WouldExit(iid))
      ensures out.Exited? ==> State() == old(State())
      ensures out.Answer? ==> (State(), out.reply) == A.ReceivePrepare(old(State()), iid, ballot)
    {
      if iid <= trimIid {
        return Answer(None);
      }
      var found := GetRecord(iid);
      if found.Halted? {
        return Exited;
      }
      var acc := if found.Found? then found.record else ZERO;
      if found.Missing? || acc.ballot <= ballot {
        acc := acc.(iid := iid, ballot := ballot);
        PutRecord(acc);
      }
      return Answer(Some(A.PromiseFrom(acc)));
    }

    method ReceiveAccept(iid: nat, ballot: nat, value: Value) returns (out: Outcome)
      requires Valid()
      modifies Objects() - {this}
      ensures Valid()
      ensures out.Exited? <==> iid > old(trimIid) && old(WouldExit(iid))
      ensures out.Exited? ==> State() == old(State())
      ensures out.Answer? ==> (State(), out.reply) == A.ReceiveAccept(old(State()), iid, ballot, value)
    {
      if iid <= trimIid {
        return Answer(None);
      }
      var found := GetRecord(iid);
      if found.Halted? {
        return Exited;
      }
      var acc := if found.Found? then found.record else ZERO;
      if found.Missing? || acc.ballot <= ballot {
        PutRecord(Record(iid, ballot, ballot, value));
        return Answer(Some(Accepted(iid, ballot, ballot, value)));
      } else {
        return Answer(Some(Preempted(acc.iid, acc.ballot)));
      }
    }

    method ReceiveRepeat(iid: nat) returns (out: Outcome)
      requires Valid() && Readable(iid)
      ensures out.Exited? <==> WouldExit(iid)
      ensures out.Answer? ==> out.reply == A.ReceiveRepeat(State(), iid)
    {
      var found := GetRecord(iid);
      if found.Halted? {
        return Exited;
      }
      if found.Found? && |found.record.value| > 0 {
        var r := found.record;
        return Answer(Some(Accepted(r.iid, r.ballot, r.valueBallot, r.value)));
      }
      return Answer(None);
    }

    method ReceiveTrim(iid: nat)
      requires Valid()
      modifies Objects()
      ensures Valid() && State() == A.ReceiveTrim(old(State()), iid)
    {
      if iid <= trimIid {
        return;
      }
      ghost var before := State();
      trimIid := iid;
      match store
      case Mem(m) =>
        m.Trim(iid);
      case Bdb(b) =>
        b.Trim(iid);
        assert Records(b.db) == A.ReceiveTrim(before, iid).records;
    }

    /** Restarting on durable storage is a stutter: a new acceptor opened on the store has the same state. */
    method Restart() returns (a: Acceptor)
      requires Valid() && store.Bdb?
      ensures a.Valid() && a.State() == State()
    {
      a := new Acceptor.Open(store.bdb);
    }
  }
}
