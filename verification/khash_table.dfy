/** An open-addressing table as plain sequences: what makes every key findable, and how entries move (khash.h). */
module KHashTable {
  import opened PaxosTypes
  import opened Probing

  datatype Flag = Empty | Live | Deleted

  /** Table sizes at which `kh_put` grows: the load factor 0.77, rounded. */
  function UpperBound(n: nat): nat {
    (77 * n + 50) / 100
  }

  lemma UpperBoundIsRounded(n: nat)
    ensures UpperBound(n) == (n as real * 0.77 + 0.5).Floor
  {
    var x := n as real * 0.77 + 0.5;
    assert x == (77 * n + 50) as real / 100.0;
    assert (77 * n + 50) == 100 * UpperBound(n) + (77 * n + 50) % 100;
  }

  // ---- Counting buckets ----

  function LiveSet(f: seq<Flag>): set<nat> {
    set i: nat | i < |f| && f[i] == Live
  }

  function UsedSet(f: seq<Flag>): set<nat> {
    set i: nat | i < |f| && f[i] != Empty
  }

  lemma LiveIsUsed(f: seq<Flag>)
    ensures LiveSet(f) <= UsedSet(f) && |LiveSet(f)| <= |UsedSet(f)| <= |f|
  {
    SubsetSize(LiveSet(f), UsedSet(f));
    SubsetSize(UsedSet(f), Upto(|f|));
  }

  lemma HasEmpty(f: seq<Flag>) returns (e: nat)
    requires |UsedSet(f)| < |f|
    ensures e < |f| && f[e] == Empty
  {
    var rest := Upto(|f|) - UsedSet(f);
    LiveIsUsed(f);
    assert UsedSet(f) <= Upto(|f|);
    assert rest != {};
    e :| e in rest;
  }

  lemma HasFree(f: seq<Flag>) returns (e: nat)
    requires |LiveSet(f)| < |f|
    ensures e < |f| && f[e] != Live
  {
    var rest := Upto(|f|) - LiveSet(f);
    assert LiveSet(f) <= Upto(|f|);
    assert rest != {};
    e :| e in rest;
  }

  lemma Marked(f: seq<Flag>, i: nat, g: Flag)
    requires i < |f|
    ensures LiveSet(f[i := g]) == if g == Live then LiveSet(f) + {i} else LiveSet(f) - {i}
    ensures UsedSet(f[i := g]) == if g == Empty then UsedSet(f) - {i} else UsedSet(f) + {i}
  {
  }

  lemma AllEmpty(f: seq<Flag>)
    requires forall i :: 0 <= i < |f| ==> f[i] == Empty
    ensures LiveSet(f) == {} && UsedSet(f) == {}
  {
  }

  // ---- Finding keys ----

  /** The first `s` buckets a search for `k` looks at are in use. */
  ghost predicate Path(f: seq<Flag>, k: nat, s: nat)
    requires |f| > 0
  {
    forall t: nat :: t < s ==> f[Probe(k, t, |f|)] != Empty
  }

  /** A search for `k` gets as far as bucket `i`. */
  ghost predicate Reaches(f: seq<Flag>, k: nat, i: nat) {
    PowerOfTwo(|f|) && i < |f| && Path(f, k, StepTo(k, i, |f|))
  }

  ghost predicate WellPlaced(f: seq<Flag>, keys: seq<nat>) {
    |f| <= |keys| && forall i: nat :: i < |f| && f[i] == Live ==> Reaches(f, keys[i], i)
  }

  ghost predicate Distinct(f: seq<Flag>, keys: seq<nat>) {
    |f| <= |keys| && forall i: nat, j: nat ::
      i < |f| && j < |f| && f[i] == Live && f[j] == Live && keys[i] == keys[j] ==> i == j
  }

  ghost predicate At(f: seq<Flag>, keys: seq<nat>, k: nat, i: nat) {
    i < |f| && i < |keys| && f[i] == Live && keys[i] == k
  }

  ghost predicate Holds(f: seq<Flag>, keys: seq<nat>, k: nat) {
    exists i: nat :: At(f, keys, k, i)
  }

  /** The live buckets hold exactly the map's entries. */
  ghost predicate Represents<V>(f: seq<Flag>, keys: seq<nat>, vals: seq<V>, m: map<nat, V>) {
    && |f| <= |keys| && |f| <= |vals|
    && (forall i: nat :: i < |f| && f[i] == Live ==> keys[i] in m && m[keys[i]] == vals[i])
    && (forall k :: k in m ==> Holds(f, keys, k))
  }

  ghost predicate TableOk<V>(f: seq<Flag>, keys: seq<nat>, vals: seq<V>, m: map<nat, V>) {
    && PowerOfTwo(|f|)
    && WellPlaced(f, keys) && Distinct(f, keys) && Represents(f, keys, vals, m)
  }

  /** None of the first `s` buckets on the way is free or holds `k`. */
  ghost predicate Missed(f: seq<Flag>, keys: seq<nat>, k: nat, s: nat)
    requires 0 < |f| <= |keys|
  {
    forall t: nat :: t < s ==> f[Probe(k, t, |f|)] != Empty && !At(f, keys, k, Probe(k, t, |f|))
  }

  /** A search that ends at an empty bucket, or has been everywhere, proves the key absent. */
  lemma SearchFails(f: seq<Flag>, keys: seq<nat>, k: nat, s: nat)
    requires PowerOfTwo(|f|) && WellPlaced(f, keys) && Missed(f, keys, k, s)
    requires s >= |f| || f[Probe(k, s, |f|)] == Empty
    ensures !Holds(f, keys, k)
  {
    if Holds(f, keys, k) {
      var i: nat :| At(f, keys, k, i);
      assert Reaches(f, keys[i], i);
      var _ := StepTo(k, i, |f|) >= s;
    }
  }

  /** One more bucket looked at in vain. */
  lemma MissedMore(f: seq<Flag>, keys: seq<nat>, k: nat, s: nat)
    requires 0 < |f| <= |keys| && Missed(f, keys, k, s)
    requires f[Probe(k, s, |f|)] != Empty && !At(f, keys, k, Probe(k, s, |f|))
    ensures Missed(f, keys, k, s + 1)
    ensures Path(f, k, s + 1)
  {
  }

  /** What a failed search means for the map, ... */
  lemma Absent<V>(f: seq<Flag>, keys: seq<nat>, vals: seq<V>, m: map<nat, V>, k: nat, s: nat)
    requires TableOk(f, keys, vals, m) && Missed(f, keys, k, s)
    requires s >= |f| || f[Probe(k, s, |f|)] == Empty
    ensures k !in m
  {
    SearchFails(f, keys, k, s);
  }

  /** ... and a successful one. */
  lemma Present<V>(f: seq<Flag>, keys: seq<nat>, vals: seq<V>, m: map<nat, V>, k: nat, i: nat)
    requires TableOk(f, keys, vals, m) && i < |f| && f[i] == Live && keys[i] == k
    ensures k in m && m[k] == vals[i]
  {
  }

  lemma VisitedAll(f: seq<Flag>, k: nat, s: nat, i: nat) returns (t: nat)
    requires PowerOfTwo(|f|) && s >= |f| && i < |f|
    ensures t < s && Probe(k, t, |f|) == i
  {
    t := StepTo(k, i, |f|);
  }

  /** A step's bucket is reached if everything before it is in use. */
  lemma StepReaches(f: seq<Flag>, k: nat, s: nat)
    requires PowerOfTwo(|f|) && Path(f, k, s)
    ensures Reaches(f, k, Probe(k, s, |f|))
  {
    var i := Probe(k, s, |f|);
    var t := StepTo(k, i, |f|);
    if s < t {
      NeverMeet(k, s, t, |f|);
    }
  }

  // ---- Single updates ----

  lemma MoreUsedReaches(f: seq<Flag>, f': seq<Flag>, k: nat, i: nat)
    requires Reaches(f, k, i) && |f'| == |f|
    requires forall j :: 0 <= j < |f| && f[j] != Empty ==> f'[j] != Empty
    ensures Reaches(f', k, i)
  {
  }

  /** Writing an absent key into a free bucket its search reaches. */
  lemma Inserted<V>(f: seq<Flag>, keys: seq<nat>, vals: seq<V>, m: map<nat, V>, x: nat, k: nat)
    requires TableOk(f, keys, vals, m)
    requires x < |f| && f[x] != Live && k !in m && Reaches(f, k, x)
    ensures TableOk(f[x := Live], keys[x := k], vals, m[k := vals[x]])
  {
    var f', keys', m' := f[x := Live], keys[x := k], m[k := vals[x]];
    forall i: nat | i < |f'| && f'[i] == Live
      ensures Reaches(f', keys'[i], i)
    {
      if i != x { assert Reaches(f, keys[i], i); }
      MoreUsedReaches(f, f', keys'[i], i);
    }
    forall q | q in m'
      ensures Holds(f', keys', q)
    {
      if q == k {
        assert At(f', keys', k, x);
      } else {
        var i: nat :| At(f, keys, q, i);
        assert At(f', keys', q, i);
      }
    }
  }

  lemma Erased<V>(f: seq<Flag>, keys: seq<nat>, vals: seq<V>, m: map<nat, V>, x: nat)
    requires TableOk(f, keys, vals, m) && x < |f| && f[x] == Live
    ensures TableOk(f[x := Deleted], keys, vals, m - {keys[x]})
  {
    var f', m' := f[x := Deleted], m - {keys[x]};
    forall i: nat | i < |f'| && f'[i] == Live
      ensures Reaches(f', keys[i], i)
    {
      assert Reaches(f, keys[i], i);
      MoreUsedReaches(f, f', keys[i], i);
    }
    forall q | q in m'
      ensures Holds(f', keys, q)
    {
      var i: nat :| At(f, keys, q, i);
      assert At(f', keys, q, i);
    }
  }

  lemma Stored<V>(f: seq<Flag>, keys: seq<nat>, vals: seq<V>, m: map<nat, V>, x: nat, v: V)
    requires TableOk(f, keys, vals, m) && x < |f| && f[x] == Live
    ensures TableOk(f, keys, vals[x := v], m[keys[x] := v])
  {
  }

  // ---- The in-place rehash ----

  /** Bucket `i` holds an entry not yet moved, or one already moved. */
  ghost predicate Occupied(f: seq<Flag>, g: seq<Flag>, i: nat) {
    (i < |f| && f[i] == Live) || (i < |g| && g[i] == Live)
  }

  ghost predicate OccupiedAt(f: seq<Flag>, g: seq<Flag>, keys: seq<nat>, k: nat, i: nat) {
    Occupied(f, g, i) && i < |keys| && keys[i] == k
  }

  ghost predicate Somewhere(f: seq<Flag>, g: seq<Flag>, keys: seq<nat>, k: nat) {
    exists i: nat :: OccupiedAt(f, g, keys, k, i)
  }

  function HandKeys<V>(hand: Option<(nat, V)>): set<nat> {
    if hand.Some? then {hand.value.0} else {}
  }

  /** No bucket holds both an unmoved and a moved entry. */
  ghost predicate Disjoint(f: seq<Flag>, g: seq<Flag>) {
    && (forall i: nat :: i < |g| ==> g[i] != Deleted)
    && (forall i: nat :: i < |f| && i < |g| ==> !(f[i] == Live && g[i] == Live))
  }

  ghost predicate EntriesTrue<V>(f: seq<Flag>, g: seq<Flag>, keys: seq<nat>, vals: seq<V>, m: map<nat, V>, hand: Option<(nat, V)>)
    requires |f| <= |keys| && |g| <= |keys| && |vals| == |keys|
  {
    && (forall i: nat :: Occupied(f, g, i) ==>
          keys[i] in m && m[keys[i]] == vals[i] && keys[i] !in HandKeys(hand))
    && (hand.Some? ==> hand.value.0 in m && m[hand.value.0] == hand.value.1)
  }

  ghost predicate KeysOnce(f: seq<Flag>, g: seq<Flag>, keys: seq<nat>)
    requires |f| <= |keys| && |g| <= |keys|
  {
    forall i: nat, j: nat :: Occupied(f, g, i) && Occupied(f, g, j) && keys[i] == keys[j] ==> i == j
  }

  ghost predicate NoKeyLost<V>(f: seq<Flag>, g: seq<Flag>, keys: seq<nat>, m: map<nat, V>, hand: Option<(nat, V)>) {
    forall k :: k in m ==> k in HandKeys(hand) || Somewhere(f, g, keys, k)
  }

  /** Old flags `f` and new flags `g` share the key and value arrays; the entry being moved is in `hand`. */
  ghost predicate InTransit<V>(f: seq<Flag>, g: seq<Flag>, keys: seq<nat>, vals: seq<V>, m: map<nat, V>, hand: Option<(nat, V)>) {
    && |f| <= |keys| && |g| <= |keys| && |vals| == |keys|
    && PowerOfTwo(|g|)
    && Disjoint(f, g)
    && EntriesTrue(f, g, keys, vals, m, hand)
    && KeysOnce(f, g, keys)
    && NoKeyLost(f, g, keys, m, hand)
    && WellPlaced(g, keys)
    && |LiveSet(f)| + |LiveSet(g)| + |HandKeys(hand)| == |m|
  }

  lemma TransitStarts<V>(f: seq<Flag>, g: seq<Flag>, keys: seq<nat>, vals: seq<V>, m: map<nat, V>)
    requires Distinct(f, keys) && Represents(f, keys, vals, m) && |LiveSet(f)| == |m|
    requires |g| <= |keys| == |vals| && PowerOfTwo(|g|)
    requires forall i :: 0 <= i < |g| ==> g[i] == Empty
    ensures InTransit(f, g, keys, vals, m, None)
  {
    AllEmpty(g);
    forall k | k in m
      ensures Somewhere(f, g, keys, k)
    {
      var i: nat :| At(f, keys, k, i);
      assert OccupiedAt(f, g, keys, k, i);
    }
  }

  /** Taking the live entry of bucket `j` in hand. */
  lemma PickedUp<V>(f: seq<Flag>, g: seq<Flag>, keys: seq<nat>, vals: seq<V>, m: map<nat, V>, j: nat)
    requires InTransit(f, g, keys, vals, m, None) && j < |f| && f[j] == Live
    ensures InTransit(f[j := Deleted], g, keys, vals, m, Some((keys[j], vals[j])))
  {
    var f' := f[j := Deleted];
    Marked(f, j, Deleted);
    assert Occupied(f, g, j);
    assert forall i: nat :: Occupied(f', g, i) ==> Occupied(f, g, i) && i != j;
    forall k | k in m && k != keys[j]
      ensures Somewhere(f', g, keys, k)
    {
      var i: nat :| OccupiedAt(f, g, keys, k, i);
      assert OccupiedAt(f', g, keys, k, i);
    }
  }

  ghost predicate FreeSlot(g: seq<Flag>, k: nat, i: nat) {
    i < |g| && g[i] == Empty && Reaches(g, k, i)
  }

  /** A search among buckets in use is cut short by a free one. */
  lemma PathBounded(g: seq<Flag>, k: nat, s: nat)
    requires PowerOfTwo(|g|) && |UsedSet(g)| < |g| && Path(g, k, s)
    ensures s < |g|
  {
    if s >= |g| {
      var e := HasEmpty(g);
      var _ := VisitedAll(g, k, s, e);
    }
  }

  lemma StillWellPlaced(g: seq<Flag>, keys: seq<nat>, k: nat, i: nat)
    requires WellPlaced(g, keys) && FreeSlot(g, k, i)
    ensures WellPlaced(g[i := Live], keys[i := k])
  {
    var g', keys' := g[i := Live], keys[i := k];
    forall j: nat | j < |g'| && g'[j] == Live
      ensures Reaches(g', keys'[j], j)
    {
      if j != i { assert Reaches(g, keys[j], j); }
      MoreUsedReaches(g, g', keys'[j], j);
    }
  }

  /** The old flags after bucket `i` is written: an unmoved entry there has been kicked out. */
  function Vacated(f: seq<Flag>, i: nat): seq<Flag> {
    if i < |f| && f[i] == Live then f[i := Deleted] else f
  }

  /** What is in hand after bucket `i` is written. */
  function Kicked<V>(f: seq<Flag>, keys: seq<nat>, vals: seq<V>, i: nat): Option<(nat, V)>
    requires |f| <= |keys| == |vals|
  {
    if i < |f| && f[i] == Live then Some((keys[i], vals[i])) else None
  }

  lemma WriteOccupies(f: seq<Flag>, g: seq<Flag>, i: nat)
    requires i < |g| && g[i] == Empty
    ensures forall j: nat :: Occupied(Vacated(f, i), g[i := Live], j) <==> j == i || Occupied(f, g, j)
  {
    var f', g' := Vacated(f, i), g[i := Live];
    forall j: nat
      ensures Occupied(f', g', j) <==> j == i || Occupied(f, g, j)
    {
      if j != i {
        assert j < |f| ==> f'[j] == f[j];
        assert j < |g| ==> g'[j] == g[j];
      } else {
        assert g'[j] == Live;
      }
    }
  }

  lemma WriteKeepsEntries<V>(f: seq<Flag>, g: seq<Flag>, keys: seq<nat>, vals: seq<V>, m: map<nat, V>, k: nat, v: V, i: nat)
    requires InTransit(f, g, keys, vals, m, Some((k, v))) && FreeSlot(g, k, i)
    ensures Disjoint(Vacated(f, i), g[i := Live])
    ensures EntriesTrue(Vacated(f, i), g[i := Live], keys[i := k], vals[i := v], m, Kicked(f, keys, vals, i))
    ensures KeysOnce(Vacated(f, i), g[i := Live], keys[i := k])
  {
    WriteOccupies(f, g, i);
    if i < |f| && f[i] == Live { assert Occupied(f, g, i); }
  }

  lemma WriteLosesNoKey<V>(f: seq<Flag>, g: seq<Flag>, keys: seq<nat>, vals: seq<V>, m: map<nat, V>, k: nat, v: V, i: nat)
    requires InTransit(f, g, keys, vals, m, Some((k, v))) && FreeSlot(g, k, i)
    ensures NoKeyLost(Vacated(f, i), g[i := Live], keys[i := k], m, Kicked(f, keys, vals, i))
  {
    var f', g', keys' := Vacated(f, i), g[i := Live], keys[i := k];
    WriteOccupies(f, g, i);
    forall q | q in m && q !in HandKeys(Kicked(f, keys, vals, i))
      ensures Somewhere(f', g', keys', q)
    {
      if q == k {
        assert OccupiedAt(f', g', keys', k, i);
      } else {
        assert q !in HandKeys(Some((k, v)));
        var j: nat :| OccupiedAt(f, g, keys, q, j);
        assert OccupiedAt(f', g', keys', q, j);
      }
    }
  }

  /** The entry in hand goes into free bucket `i`; an unmoved entry there, if any, comes to hand instead. */
  lemma Written<V>(f: seq<Flag>, g: seq<Flag>, keys: seq<nat>, vals: seq<V>, m: map<nat, V>, k: nat, v: V, i: nat)
    requires InTransit(f, g, keys, vals, m, Some((k, v))) && FreeSlot(g, k, i)
    ensures InTransit(Vacated(f, i), g[i := Live], keys[i := k], vals[i := v], m, Kicked(f, keys, vals, i))
    ensures |LiveSet(Vacated(f, i))| == |LiveSet(f)| - |HandKeys(Kicked(f, keys, vals, i))|
  {
    WriteKeepsEntries(f, g, keys, vals, m, k, v, i);
    WriteLosesNoKey(f, g, keys, vals, m, k, v, i);
    StillWellPlaced(g, keys, k, i);
    Marked(g, i, Live);
    if i < |f| && f[i] == Live { Marked(f, i, Deleted); }
  }

  lemma OnlyMoved(f: seq<Flag>, g: seq<Flag>)
    requires forall i :: 0 <= i < |f| ==> f[i] != Live
    ensures forall i: nat :: Occupied(f, g, i) <==> i < |g| && g[i] == Live
  {
  }

  lemma TransitDistinct(f: seq<Flag>, g: seq<Flag>, keys: seq<nat>, keys': seq<nat>)
    requires |f| <= |keys| && |g| <= |keys| && keys' == keys[..|g|] && KeysOnce(f, g, keys)
    requires forall i :: 0 <= i < |f| ==> f[i] != Live
    ensures Distinct(g, keys')
  {
    forall i: nat, j: nat | i < |g| && j < |g| && g[i] == Live && g[j] == Live && keys'[i] == keys'[j]
      ensures i == j
    {
      assert Occupied(f, g, i) && Occupied(f, g, j);
      assert keys[i] == keys'[i] && keys[j] == keys'[j];
    }
  }

  lemma TransitRepresents<V>(f: seq<Flag>, g: seq<Flag>, keys: seq<nat>, vals: seq<V>, m: map<nat, V>)
    requires InTransit(f, g, keys, vals, m, None)
    requires forall i :: 0 <= i < |f| ==> f[i] != Live
    ensures Represents(g, keys[..|g|], vals[..|g|], m)
  {
    var keys', vals' := keys[..|g|], vals[..|g|];
    OnlyMoved(f, g);
    forall i: nat | i < |g| && g[i] == Live
      ensures keys'[i] in m && m[keys'[i]] == vals'[i]
    {
      assert Occupied(f, g, i);
      assert keys[i] == keys'[i] && vals[i] == vals'[i];
    }
    forall k | k in m
      ensures Holds(g, keys', k)
    {
      assert k !in HandKeys<V>(None);
      var i: nat :| OccupiedAt(f, g, keys, k, i);
      assert keys[i] == keys'[i];
      assert At(g, keys', k, i);
    }
  }

  /** With nothing left to move, the new flags alone are a table for the same map, free of tombstones. */
  lemma TransitEnds<V>(f: seq<Flag>, g: seq<Flag>, keys: seq<nat>, vals: seq<V>, m: map<nat, V>)
    requires InTransit(f, g, keys, vals, m, None)
    requires forall i :: 0 <= i < |f| ==> f[i] != Live
    ensures TableOk(g, keys[..|g|], vals[..|g|], m)
    ensures |LiveSet(g)| == |m| && UsedSet(g) == LiveSet(g)
  {
    assert LiveSet(f) == {};
    TransitDistinct(f, g, keys, keys[..|g|]);
    TransitRepresents(f, g, keys, vals, m);
    forall i: nat | i < |g| && g[i] == Live
      ensures Reaches(g, keys[..|g|][i], i)
    {
      assert Reaches(g, keys[i], i);
    }
  }
}
