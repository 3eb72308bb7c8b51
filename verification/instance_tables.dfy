/** The proposer's tables of instances: what is done to them bucket by bucket (proposer.c). */
module InstanceTables {
  import opened PaxosTypes
  import opened CArrays
  import opened KHashMap
  import opened KHashTable
  import P = ProposerSpec
  import opened ProposerTables

  type Table = KHash<P.Instance>

  /** `kh_put` of a new key and `kh_value(h, k) = inst`. */
  method PutNew(h: Table, iid: nat, inst: P.Instance)
    requires h.Valid() && iid !in h.M && |h.M| < MAX_BUCKETS
    modifies h.Repr
    ensures h.Valid() && fresh(h.Repr - old(h.Repr)) && h.M == old(h.M)[iid := inst]
  {
    hide KHash.Valid;
    var k, rv := h.Put(iid);
    assert rv > 0;
    h.Arrays();
    h.SetValue(k, inst);
  }

  /** `kh_del` of a key that is there. */
  method Delete(h: Table, iid: nat)
    requires h.Valid() && iid in h.M
    modifies h.Repr
    ensures h.Valid() && h.Repr == old(h.Repr)
    ensures h.M == old(h.M) - {iid}
  {
    hide KHash.Valid;
    h.Arrays();
    var k := h.Get(iid);
    h.Del(k);
  }

  /** The instance a key leads to, and its bucket. */
  method Lookup(h: Table, iid: nat) returns (inst: Option<P.Instance>)
    requires h.Valid()
    ensures inst.Some? <==> iid in h.M
    ensures inst.Some? ==> inst.value == h.M[iid]
  {
    h.Arrays();
    var k := h.Get(iid);
    if k == h.nBuckets {
      return None;
    }
    return Some(h.vals[k]);
  }

  /** Updating the instance a key leads to. */
  method Write(h: Table, iid: nat, inst: P.Instance)
    requires h.Valid() && iid in h.M
    modifies h.Repr
    ensures h.Valid() && h.Repr == old(h.Repr)
    ensures h.M == old(h.M)[iid := inst]
  {
    hide KHash.Valid;
    h.Arrays();
    var k := h.Get(iid);
    h.SetValue(k, inst);
  }

  /** `proposer_move_instance`: neither assert can fail. */
  method MoveInstance(f: Table, t: Table, inst: P.Instance)
    requires f.Valid() && t.Valid() && f.Repr !! t.Repr
    requires inst.iid in f.M && inst.iid !in t.M && |t.M| < MAX_BUCKETS
    modifies f.Repr, t.Repr
    ensures f.Valid() && f.Repr == old(f.Repr)
    ensures t.Valid() && fresh(t.Repr - old(t.Repr))
    ensures f.M == old(f.M) - {inst.iid}
    ensures t.M == old(t.M)[inst.iid := inst.(quorum := {})]
  {
    hide KHash.Valid;
    Delete(f, inst.iid);
    PutNew(t, inst.iid, inst.(quorum := {}));
  }

  /** `inst` has the least key of the first `k` buckets. */
  ghost predicate LeastSoFar(f: seq<Flag>, ks: seq<nat>, m: map<nat, P.Instance>, k: nat, inst: Option<P.Instance>) {
    && k <= |f| <= |ks|
    && (inst.None? ==> forall x: nat :: x < k ==> f[x] != Live)
    && (inst.Some? ==>
          && inst.value.iid in m && m[inst.value.iid] == inst.value
          && forall x: nat :: x < k && f[x] == Live ==> inst.value.iid <= ks[x])
  }

  lemma LeastGrows(f: seq<Flag>, ks: seq<nat>, vs: seq<P.Instance>, m: map<nat, P.Instance>,
                   k: nat, inst: Option<P.Instance>)
    requires Represents(f, ks, vs, m) && Keyed(m) && LeastSoFar(f, ks, m, k, inst) && k < |f|
    ensures LeastSoFar(f, ks, m, k + 1,
                       if f[k] == Live && (inst.None? || inst.value.iid > vs[k].iid) then Some(vs[k]) else inst)
  {
  }

  lemma LeastIsSmallest(f: seq<Flag>, ks: seq<nat>, vs: seq<P.Instance>, m: map<nat, P.Instance>, inst: Option<P.Instance>)
    requires Represents(f, ks, vs, m) && LeastSoFar(f, ks, m, |f|, inst)
    ensures inst.None? <==> m == map[]
    ensures inst.Some? ==> inst.value == m[Smallest(m.Keys)]
  {
    forall i | i in m
      ensures inst.Some? && inst.value.iid <= i
    {
      assert Holds(f, ks, i);
      var x: nat :| KHashTable.At(f, ks, i, x);
    }
    if inst.Some? {
      assert IsSmallest(inst.value.iid, m.Keys);
    } else {
      assert m.Keys == {};
    }
  }

  /** `proposer_accept`'s scan of the prepare table for the smallest instance. */
  method SmallestIn(h: Table) returns (inst: Option<P.Instance>)
    requires h.Valid() && Keyed(h.M)
    ensures inst.None? <==> h.M == map[]
    ensures inst.Some? ==> h.M != map[] && inst.value == h.M[Smallest(h.M.Keys)]
  {
    h.Arrays();
    ghost var f, ks, vs := h.flags[..], h.keys[..], h.vals[..];
    h.Contents();
    hide KHash.Valid, KHash.Searchable, LeastSoFar, Represents, Distinct, Keyed;
    inst := None;
    LeastStarts(f, ks, h.M);
    for k := 0 to h.nBuckets
      invariant LeastSoFar(f, ks, h.M, k, inst)
    {
      LeastGrows(f, ks, vs, h.M, k, inst);
      if h.Exist(k) && (inst.None? || inst.value.iid > h.vals[k].iid) {
        inst := Some(h.vals[k]);
      }
    }
    LeastIsSmallest(f, ks, vs, h.M, inst);
  }

  lemma LeastStarts(f: seq<Flag>, ks: seq<nat>, m: map<nat, P.Instance>)
    requires |f| <= |ks|
    ensures LeastSoFar(f, ks, m, 0, None)
  {
  }

  /** After `k` buckets of a trim up to `iid`: `order` lists the instances removed so far, `m` what is left. */
  ghost predicate TrimmedSoFar(f: seq<Flag>, ks: seq<nat>, m0: map<nat, P.Instance>, iid: nat,
                               k: nat, order: seq<nat>, m: map<nat, P.Instance>) {
    && k <= |f| <= |ks|
    && (forall i :: i in order ==> i in m0 && i <= iid)
    && (forall x: nat :: x < k && f[x] == Live && ks[x] <= iid ==> ks[x] in order)
    && (forall x: nat :: k <= x < |f| && f[x] == Live ==> ks[x] !in order)
    && (forall i, j :: 0 <= i < j < |order| ==> order[i] != order[j])
    && m == map i | i in m0 && i !in order :: m0[i]
  }

  lemma TrimGoesOn(f: seq<Flag>, ks: seq<nat>, vs: seq<P.Instance>, m0: map<nat, P.Instance>, iid: nat,
                   k: nat, order: seq<nat>, m: map<nat, P.Instance>)
    requires Represents(f, ks, vs, m0) && Distinct(f, ks) && Keyed(m0)
    requires TrimmedSoFar(f, ks, m0, iid, k, order, m) && k < |f|
    ensures f[k] == Live ==> ks[k] in m && ks[k] in m0 && vs[k] == m0[ks[k]] && vs[k].iid == ks[k]
    ensures if f[k] == Live && vs[k].iid <= iid then
              TrimmedSoFar(f, ks, m0, iid, k + 1, order + [ks[k]], m - {ks[k]})
            else TrimmedSoFar(f, ks, m0, iid, k + 1, order, m)
  {
  }

  lemma TrimEnds(f: seq<Flag>, ks: seq<nat>, vs: seq<P.Instance>, m0: map<nat, P.Instance>, iid: nat,
                 order: seq<nat>, m: map<nat, P.Instance>)
    requires Represents(f, ks, vs, m0)
    requires TrimmedSoFar(f, ks, m0, iid, |f|, order, m)
    ensures P.IsScan(order, P.Trimmed(m0, iid).Keys) && m == P.Above(m0, iid)
  {
    forall i | i in m0 && i <= iid
      ensures i in order
    {
      assert Holds(f, ks, i);
      var x: nat :| KHashTable.At(f, ks, i, x);
    }
  }

  /** What a client value lost with its instance adds to the queue. */
  function Returned(inst: P.Instance): seq<Value> {
    if inst.value.Some? then [inst.value.value] else []
  }

  /** A table and a queue read as values, and as they were when a trim up to `iid` began. */
  datatype Trim = Trim(flags: seq<Flag>, keys: seq<nat>, vals: seq<P.Instance>, m: map<nat, P.Instance>, queue: seq<Value>)

  ghost predicate InTrim(t0: Trim, t: Trim, iid: nat, k: nat, order: seq<nat>) {
    && |t.flags| == |t0.flags| == |t.keys| == |t.vals|
    && t.keys == t0.keys && t.vals == t0.vals
    && Represents(t0.flags, t0.keys, t0.vals, t0.m) && Distinct(t0.flags, t0.keys) && Keyed(t0.m)
    && (forall x: nat :: k <= x < |t.flags| ==> t.flags[x] == t0.flags[x])
    && TrimmedSoFar(t0.flags, t0.keys, t0.m, iid, k, order, t.m)
    && P.Listed(order, t0.m) && t.queue == t0.queue + P.ValuesOf(t0.m, order)
  }

  ghost predicate Removes(t: Trim, iid: nat, k: nat)
    requires k < |t.flags| == |t.vals|
  {
    t.flags[k] == Live && t.vals[k].iid <= iid
  }

  ghost function Order(t: Trim, iid: nat, k: nat, order: seq<nat>): seq<nat>
    requires k < |t.flags| == |t.vals| == |t.keys|
  {
    if Removes(t, iid, k) then order + [t.keys[k]] else order
  }

  /** What `TrimBucket` does. */
  ghost function TrimOne(t: Trim, iid: nat, k: nat): Trim
    requires k < |t.flags| == |t.vals| == |t.keys|
  {
    if Removes(t, iid, k) then
      t.(flags := t.flags[k := Deleted], m := t.m - {t.keys[k]}, queue := t.queue + Returned(t.vals[k]))
    else t
  }

  lemma TrimStarts(t0: Trim, iid: nat)
    requires Represents(t0.flags, t0.keys, t0.vals, t0.m) && Distinct(t0.flags, t0.keys) && Keyed(t0.m)
    requires |t0.flags| == |t0.keys| == |t0.vals|
    ensures InTrim(t0, t0, iid, 0, [])
  {
  }

  lemma TrimStep(t0: Trim, t: Trim, iid: nat, k: nat, order: seq<nat>)
    requires InTrim(t0, t, iid, k, order) && k < |t.flags|
    ensures InTrim(t0, TrimOne(t, iid, k), iid, k + 1, Order(t, iid, k, order))
  {
    TrimGoesOn(t0.flags, t0.keys, t0.vals, t0.m, iid, k, order, t.m);
    if Removes(t, iid, k) {
      ValuesOfOneMore(t0.m, order, t.keys[k]);
    }
  }

  /** Reading the table and the queue. */
  ghost function Reading(values: CArray<Value>, h: Table): Trim
    requires values.Valid()
    reads values, values.Repr, h, h.flags, h.keys, h.vals
  {
    Trim(h.flags[..], h.keys[..], h.vals[..], h.M, values.Contents())
  }

  method GiveBack(values: CArray<Value>, inst: P.Instance)
    requires values.Valid()
    modifies values.Repr
    ensures values.Valid() && fresh(values.Repr - old(values.Repr))
    ensures values.Contents() == old(values.Contents()) + Returned(inst)
  {
    if inst.value.Some? {
      values.PushBack(inst.value.value);
    }
  }

  /** Bucket `k` of a trim: deletes an instance at or below `iid`, its client value goes back to the queue. */
  method TrimBucket(values: CArray<Value>, h: Table, k: nat, iid: nat)
    requires values.Valid() && h.Valid() && values.Repr !! h.Repr
    requires k < h.nBuckets == h.flags.Length == h.vals.Length == h.keys.Length
    modifies values.Repr, h`size, h`M, h.flags
    ensures values.Valid() && fresh(values.Repr - old(values.Repr)) && h.Valid()
    ensures Reading(values, h) == TrimOne(old(Reading(values, h)), iid, k)
  {
    h.Arrays();
    hide KHash.Valid, KHash.Searchable, CArray.Valid;
    if h.Exist(k) && h.vals[k].iid <= iid {
      GiveBack(values, h.vals[k]);
      assert Reading(values, h) == old(Reading(values, h)).(queue := values.Contents());
      h.Del(k);
    }
  }

  /** `proposer_trim_instances`: deletes while scanning. */
  method TrimInstances(values: CArray<Value>, h: Table, iid: nat) returns (ghost order: seq<nat>)
    requires values.Valid() && h.Valid() && values.Repr !! h.Repr && Keyed(h.M)
    modifies values.Repr, h.Repr
    ensures values.Valid() && fresh(values.Repr - old(values.Repr))
    ensures h.Valid() && h.Repr == old(h.Repr)
    ensures h.M == P.Above(old(h.M), iid)
    ensures P.IsScan(order, P.Trimmed(old(h.M), iid).Keys)
    ensures P.Listed(order, old(h.M)) && values.Contents() == old(values.Contents()) + P.ValuesOf(old(h.M), order)
  {
    hide KHash.Valid, KHash.Searchable, CArray.Valid, InTrim, TrimOne, Order, P.ValuesOf, P.Listed, Keyed,
         Represents, Distinct, P.IsScan;
    h.Arrays();
    h.Contents();
    ghost var t0 := Reading(values, h);
    order := [];
    TrimStarts(t0, iid);
    var k := 0;
    while k < h.nBuckets
      invariant k <= h.nBuckets
      invariant values.Valid() && fresh(values.Repr - old(values.Repr)) && h.Valid()
      invariant h.flags.Length == h.vals.Length == h.keys.Length == h.nBuckets
      invariant InTrim(t0, Reading(values, h), iid, k, order)
      modifies values.Repr, h`size, h`M, h.flags
    {
      ghost var t := Reading(values, h);
      TrimStep(t0, t, iid, k, order);
      TrimBucket(values, h, k, iid);
      order := Order(t, iid, k, order);
      k := k + 1;
    }
    TrimDone(t0, Reading(values, h), iid, order);
  }

  lemma TrimDone(t0: Trim, t: Trim, iid: nat, order: seq<nat>)
    requires InTrim(t0, t, iid, |t.flags|, order)
    ensures P.IsScan(order, P.Trimmed(t0.m, iid).Keys) && t.m == P.Above(t0.m, iid)
    ensures P.Listed(order, t0.m) && t.queue == t0.queue + P.ValuesOf(t0.m, order)
  {
    TrimEnds(t0.flags, t0.keys, t0.vals, t0.m, iid, order, t.m);
  }
}
