/** The durable store: an ordered map in which key 0 is the trim point and key `i` the record of instance `i`
    (storage_bdb.c). */
module StorageBdb {
  import opened PaxosTypes
  import opened StorageMem

  datatype Entry = TrimPoint(iid: nat) | Stored(record: Record)

  /** The database as Berkeley DB orders it: keys compared as instance numbers. */
  type Database = map<nat, Entry>

  ghost predicate WellFormed(db: Database) {
    forall k :: k in db ==> if k == 0 then db[k].TrimPoint? else db[k].Stored? && db[k].record.iid == k
  }

  ghost function Records(db: Database): map<nat, Record>
    requires WellFormed(db)
  {
    map k | k in db && k > 0 :: db[k].record
  }

  function TrimOf(db: Database): nat {
    if 0 in db && db[0].TrimPoint? then db[0].iid else 0
  }

  /** `k` is the first key of the database after `last` (or of all, if the cursor has not moved yet). */
  ghost predicate IsNext(db: Database, last: Option<nat>, k: nat) {
    && k in db && (last.Some? ==> k > last.value)
    && forall j :: j in db && (last.Some? ==> j > last.value) ==> k <= j
  }

  class BdbStore {
    var db: Database
    var cursor: Option<nat>

    ghost predicate Valid()
      reads this
    {
      WellFormed(db)
    }

    constructor ()
      ensures Valid() && db == map[]
    {
      db, cursor := map[], None;
    }

    /** Key 0, once it is there, is no record. */
    method Get(iid: nat) returns (r: Lookup)
      requires Valid() && (iid > 0 || 0 !in db)
      ensures r == if iid in Records(db) then Found(Records(db)[iid]) else Missing
    {
      if iid in db {
        return Found(db[iid].record);
      }
      return Missing;
    }

    method Put(acc: Record)
      requires Valid() && acc.iid > 0
      modifies this`db
      ensures Valid() && Records(db) == Records(old(db))[acc.iid := acc] && TrimOf(db) == TrimOf(old(db))
    {
      db := db[acc.iid := Stored(acc)];
    }

    method GetTrimInstance() returns (iid: nat)
      requires Valid()
      ensures iid == TrimOf(db)
    {
      iid := if 0 in db then db[0].iid else 0;
    }

    /** `c_get(DB_NEXT)`: moves the cursor to the next key, also from a record just deleted. */
    method CursorNext() returns (k: Option<nat>)
      modifies this`cursor
      ensures k.Some? ==> IsNext(db, old(cursor), k.value) && cursor == k
      ensures k.None? ==> forall j :: j in db ==> old(cursor).Some? && j <= old(cursor).value
    {
      var last := cursor;
      var ahead := set j | j in db && (last.Some? ==> j > last.value);
      assert forall j :: j in db && (last.Some? ==> j > last.value) ==> j in ahead;
      if ahead == {} {
        return None;
      }
      SmallestExists(ahead);
      var next: nat :| next in ahead && forall j :: j in ahead ==> next <= j;
      k := Some(next);
      cursor := k;
    }

    /** Records the trim point, then walks the keys upwards deleting records until it has passed `iid`. */
    method Trim(iid: nat)
      requires Valid()
      modifies this
      ensures Valid()
      ensures iid == 0 ==> db == old(db)
      ensures iid > 0 ==> db.Keys == set k | k in old(db).Keys + {0} && (k == 0 || k > iid)
      ensures iid > 0 ==> db[0] == TrimPoint(iid) && forall k :: k in db && k > 0 ==> db[k] == old(db[k])
    {
      if iid == 0 {
        return;
      }
      db := db[0 := TrimPoint(iid)];
      ghost var start := db;
      cursor := None;
      var min := 0;
      while true
        invariant db.Keys <= start.Keys && 0 in db
        invariant forall k :: k in db ==> db[k] == start[k]
        invariant forall k :: k in start && (k == 0 || cursor.None? || k > cursor.value) ==> k in db
        invariant cursor.Some? ==> cursor.value == min <= iid
        invariant cursor.Some? ==> forall k :: k in db && 0 < k ==> k > cursor.value
        decreases if cursor.None? then 2 + iid else iid - min + 1
      {
        var k := CursorNext();
        if k.None? {
          break;
        }
        min := k.value;
        if min != 0 && min <= iid {
          db := db - {min};
        }
        if min > iid {
          break;
        }
      }
      assert forall k :: k in start ==> (k in db <==> k == 0 || k > iid);
    }
  }
}
