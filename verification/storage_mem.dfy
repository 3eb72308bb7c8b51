/** The in-memory record store: 4096 slots indexed by instance, newest instance of a class wins (storage_mem.c). */
module StorageMem {
  import opened PaxosTypes

  const MAX_RECORDS: nat := 4 * 1024

  /** What a lookup does; `Halted` is the process exiting because the slot already holds a newer instance. */
  datatype Lookup = Halted | Missing | Found(record: Record)

  const ZERO := Record(0, 0, 0, NO_VALUE)

  function Slot(iid: nat): nat {
    iid % MAX_RECORDS
  }

  /** Some instance newer than `iid` was written to its slot. */
  ghost predicate Evicted(m: map<nat, Record>, iid: nat) {
    exists k :: k in m && Slot(k) == Slot(iid) && k > iid
  }

  /** The slot holds the record of the largest instance of its class in `m`. */
  ghost predicate SlotHolds(m: map<nat, Record>, s: nat, r: Record) {
    && (forall k :: k in m && Slot(k) == s ==> k <= r.iid)
    && (r == ZERO || (r.iid > 0 && r.iid in m && m[r.iid] == r && Slot(r.iid) == s))
  }

  class MemStore {
    const records: array<Record>
    ghost var M: map<nat, Record>  // everything ever put, the store an unbounded memory would be

    ghost predicate Valid()
      reads this, records
    {
      && records.Length == MAX_RECORDS
      && (forall k :: k in M ==> k > 0 && M[k].iid == k)
      && forall s :: 0 <= s < MAX_RECORDS ==> SlotHolds(M, s, records[s])
    }

    constructor ()
      ensures Valid() && M == map[] && fresh(records)
    {
      records := new Record[MAX_RECORDS](_ => ZERO);
      M := map[];
    }

    /** Instance 0 is never put; asking for it finds the empty record of a slot not written yet. */
    method Get(iid: nat) returns (r: Lookup)
      requires Valid()
      ensures r.Halted? <==> Evicted(M, iid)
      ensures !r.Halted? ==> r == if iid in M then Found(M[iid]) else if iid == 0 then Found(ZERO) else Missing
    {
      var record := records[Slot(iid)];
      assert SlotHolds(M, Slot(iid), record);
      if iid < record.iid {
        return Halted;
      }
      if iid == record.iid {
        return Found(record);
      }
      return Missing;
    }

    /** Overwrites whatever the slot held. */
    method Put(acc: Record)
      requires Valid() && acc.iid > 0 && !Evicted(M, acc.iid)
      modifies this, records
      ensures Valid() && M == old(M)[acc.iid := acc]
    {
      ghost var m := M;
      M := M[acc.iid := acc];
      records[Slot(acc.iid)] := acc;
      forall s | 0 <= s < MAX_RECORDS
        ensures SlotHolds(M, s, records[s])
      {
        assert SlotHolds(m, s, old(records[s]));
      }
    }

    /** The memory store neither trims ... */
    method Trim(iid: nat)
      requires Valid()
      ensures Valid() && M == old(M)
    {
    }

    /** ... nor remembers a trim point. */
    method GetTrimInstance() returns (iid: nat)
      requires Valid()
      ensures iid == 0
    {
      iid := 0;
    }
  }
}
