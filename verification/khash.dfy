/** The hash table behind the proposer's and the learner's instances (khash.h, integer keys). */
module KHashMap {
  import opened PaxosTypes
  import opened Probing
  import opened KHashTable
  import RoundUp

  /** The largest size `kroundup32` can yield; such a table cannot be doubled. */
  const MAX_BUCKETS: nat := 0x8000_0000

  /** The bucket count `kh_resize` actually uses. */
  function Rounded(n: nat): nat
    requires n < RoundUp.TWO_32
  {
    var r := RoundUp.KRoundUp32(n);
    if r < 4 then 4 else r
  }

  lemma {:induction false} PowersApart(r: nat, n: nat)
    requires PowerOfTwo(r) && PowerOfTwo(n) && r < n
    ensures 2 * r <= n
  {
    if r > 1 {
      PowersApart(r / 2, n / 2);
    }
  }

  lemma MaxIsPower()
    ensures PowerOfTwo(MAX_BUCKETS)
  {
    RoundUp.Pow2At32();
    RoundUp.Pow2Is(31);
  }

  lemma RoundedIsPower(n: nat)
    requires n < RoundUp.TWO_32
    ensures PowerOfTwo(Rounded(n)) && 4 <= Rounded(n) <= MAX_BUCKETS
  {
    assert PowerOfTwo(1) && PowerOfTwo(2) && PowerOfTwo(4);
    if n == 0 {
      RoundUp.ZeroWraps();
    } else if n <= MAX_BUCKETS {
      hide RoundUp.KRoundUp32;
      RoundUp.RoundsUpToPowerOfTwo(n);
      MaxIsPower();
      if RoundUp.KRoundUp32(n) > MAX_BUCKETS { PowersApart(MAX_BUCKETS, RoundUp.KRoundUp32(n)); }
    } else {
      RoundUp.RoundsUpWraps(n);
    }
  }

  /** The only power of two within the rounding range of `x` is the one next to it. */
  lemma SamePower(n: nat, r: nat)
    requires PowerOfTwo(n) && PowerOfTwo(r) && n - 1 <= r < 2 * n - 2 && n >= 4
    ensures r == n
  {
    if r < n { PowersApart(r, n); }
    if n < r { PowersApart(n, r); }
  }

  lemma NextPower(n: nat, r: nat)
    requires PowerOfTwo(n) && PowerOfTwo(r) && n + 1 <= r < 2 * n + 2
    ensures r == 2 * n
  {
    PowersApart(n, r);
    if 2 * n < r {
      TwiceIsPower(n, 2 * n);
      PowersApart(2 * n, r);
    }
  }

  /** One less than a table size rounds back to it, one more to its double, or to the minimum if there is none. */
  lemma RoundedNear(n: nat)
    requires n == 0 || (PowerOfTwo(n) && 4 <= n <= MAX_BUCKETS)
    ensures n > 0 ==> Rounded(n - 1) == n
    ensures Rounded(n + 1) == if n == 0 || n == MAX_BUCKETS then 4 else 2 * n
  {
    hide RoundUp.KRoundUp32;
    if n > 0 {
      RoundUp.RoundsUpToPowerOfTwo(n - 1);
      SamePower(n, RoundUp.KRoundUp32(n - 1));
    }
    if n == MAX_BUCKETS {
      RoundUp.RoundsUpWraps(n + 1);
    } else {
      if n > 0 {
        MaxIsPower();
        PowersApart(n, MAX_BUCKETS);
      }
      RoundUp.RoundsUpToPowerOfTwo(n + 1);
      if n > 0 { NextPower(n, RoundUp.KRoundUp32(n + 1)); }
    }
  }

  /** The size `kh_put` asks for when it finds no room. */
  function Wanted(n: nat, size: nat): nat
    requires size <= n <= MAX_BUCKETS
  {
    if n > RoundUp.Wrap(2 * size) then n - 1 else n + 1
  }

  /** That size has room, except for the largest table when it is half full or more. */
  lemma WantedHasRoom(n: nat, size: nat)
    requires size <= n && (n == 0 || (PowerOfTwo(n) && 4 <= n <= MAX_BUCKETS))
    ensures var target := Rounded(Wanted(n, size));
            && (size < UpperBound(target) <==> !(n == MAX_BUCKETS && 2 * size >= n))
            && (size < UpperBound(target) ==> target <= n || target <= 4 * size + 4)
  {
    RoundedNear(n);
    hide Rounded;
  }

  ghost predicate AllLive(f: seq<Flag>, k: nat, s: nat)
    requires |f| > 0
  {
    forall t: nat :: t < s ==> f[Probe(k, t, |f|)] == Live
  }

  /** A full turn looks at every bucket, so at one that is not live if there is one. */
  lemma TurnMeetsFree(f: seq<Flag>, k: nat, s: nat)
    requires PowerOfTwo(|f|) && s >= |f| && |LiveSet(f)| < |f|
    ensures !AllLive(f, k, s)
  {
    var i := HasFree(f);
    var t := VisitedAll(f, k, s, i);
    assert f[Probe(k, t, |f|)] != Live;
  }

  lemma StartTaken(f: seq<Flag>, keys: seq<nat>, k: nat, s: nat)
    requires 0 < |f| <= |keys| && s > 0 && AllLive(f, k, s) && Missed(f, keys, k, s)
    ensures f[Masked(k, |f|)] == Live && keys[Masked(k, |f|)] != k
  {
    assert f[Probe(k, 0, |f|)] == Live;
  }

  /** All the way round without a free bucket: the table is full, and the search is back at somebody else's. */
  lemma AllTaken(f: seq<Flag>, keys: seq<nat>, k: nat, s: nat)
    requires 0 < |f| <= |keys| && PowerOfTwo(|f|) && s == 2 * |f| - 1
    requires AllLive(f, k, s) && Missed(f, keys, k, s)
    ensures f[Masked(k, |f|)] == Live && keys[Masked(k, |f|)] != k && |LiveSet(f)| >= |f|
  {
    hide LiveSet;
    StartTaken(f, keys, k, s);
    if |LiveSet(f)| < |f| { TurnMeetsFree(f, k, s); }
  }

  lemma SearchStarts(f: seq<Flag>, keys: seq<nat>, k: nat)
    requires 0 < |f| <= |keys|
    ensures Missed(f, keys, k, 0) && Path(f, k, 0) && AllLive(f, k, 0)
    ensures Masked(k, |f|) == Probe(k, 0, |f|)
  {
  }

  /** What a search knows after one more bucket looked at in vain. */
  lemma SearchGoesOn(f: seq<Flag>, keys: seq<nat>, k: nat, s: nat)
    requires 0 < |f| <= |keys| && PowerOfTwo(|f|) && Missed(f, keys, k, s)
    requires var i := Probe(k, s, |f|); f[i] != Empty && (f[i] == Deleted || keys[i] != k)
    ensures Missed(f, keys, k, s + 1) && Path(f, k, s + 1)
    ensures AllLive(f, k, s) && f[Probe(k, s, |f|)] == Live ==> AllLive(f, k, s + 1)
    ensures Masked(Probe(k, s, |f|) + (s + 1), |f|) == Probe(k, s + 1, |f|)
    ensures s + 1 < 2 * |f| - 1 ==> Probe(k, s + 1, |f|) != Masked(k, |f|)
    ensures s + 1 == 2 * |f| - 1 ==> Probe(k, s + 1, |f|) == Masked(k, |f|)
  {
    MissedMore(f, keys, k, s);
    BackAtStart(k, s + 1, |f|);
  }

  /** A search of `kh_put` after `s` steps: nothing found yet, `site` the last tombstone passed, if any. */
  ghost predicate Sought(f: seq<Flag>, keys: seq<nat>, k: nat, s: nat, site: nat)
    requires 0 < |f| <= |keys|
  {
    && Missed(f, keys, k, s) && Path(f, k, s)
    && (site == |f| ==> AllLive(f, k, s))
    && (site != |f| ==> site < |f| && f[site] == Deleted && Reaches(f, k, site))
  }

  lemma SoughtStarts(f: seq<Flag>, keys: seq<nat>, k: nat)
    requires 0 < |f| <= |keys|
    ensures Sought(f, keys, k, 0, |f|) && Masked(k, |f|) == Probe(k, 0, |f|)
  {
    SearchStarts(f, keys, k);
  }

  lemma SoughtGoesOn(f: seq<Flag>, keys: seq<nat>, k: nat, s: nat, site: nat)
    requires 0 < |f| <= |keys| && PowerOfTwo(|f|) && s + 1 < 2 * |f| && Sought(f, keys, k, s, site)
    requires var i := Probe(k, s, |f|); f[i] != Empty && (f[i] == Deleted || keys[i] != k)
    ensures var i := Probe(k, s, |f|); Sought(f, keys, k, s + 1, if f[i] == Deleted then i else site)
    ensures Masked(Probe(k, s, |f|) + (s + 1), |f|) == Probe(k, s + 1, |f|)
    ensures Probe(k, s + 1, |f|) == Masked(k, |f|) <==> s + 1 == 2 * |f| - 1
  {
    hide Missed, Path, AllLive, Reaches, Probe, Masked, PowerOfTwo;
    SearchGoesOn(f, keys, k, s);
    StepReaches(f, k, s);
  }

  /** What a search for `k` by `kh_put` that ended at `i` has found: a way all round proves `k` absent, and so does
      an empty bucket; anything else is the bucket of `k`. */
  ghost predicate Settled<V>(f: seq<Flag>, keys: seq<nat>, m: map<nat, V>, k: nat, i: nat, site: nat, turned: bool)
    requires |f| <= |keys|
  {
    && i < |f| && site <= |f|
    && (site < |f| ==> f[site] == Deleted && Reaches(f, k, site))
    && (turned ==> k !in m && (site == |f| ==> f[i] == Live && keys[i] != k && |LiveSet(f)| >= |f|))
    && (!turned && f[i] == Empty ==> k !in m && Reaches(f, k, i))
    && (!turned && f[i] != Empty ==> k in m && f[i] == Live && keys[i] == k)
  }

  lemma SoughtAllRound<V>(f: seq<Flag>, keys: seq<nat>, vals: seq<V>, m: map<nat, V>, k: nat, s: nat, site: nat)
    requires 0 < |f| <= |keys| && TableOk(f, keys, vals, m) && s == 2 * |f| - 1 && Sought(f, keys, k, s, site)
    ensures Settled(f, keys, m, k, Masked(k, |f|), site, true)
  {
    hide Missed, Path, AllLive, Reaches, LiveSet;
    Absent(f, keys, vals, m, k, s);
    if site == |f| { AllTaken(f, keys, k, s); }
  }

  lemma SoughtEnds<V>(f: seq<Flag>, keys: seq<nat>, vals: seq<V>, m: map<nat, V>, k: nat, s: nat, site: nat)
    requires 0 < |f| <= |keys| && TableOk(f, keys, vals, m) && Sought(f, keys, k, s, site)
    requires var i := Probe(k, s, |f|); f[i] == Empty || (f[i] != Deleted && keys[i] == k)
    ensures Settled(f, keys, m, k, Probe(k, s, |f|), site, false)
  {
    hide Missed, Path, AllLive, Reaches, Probe;
    var i := Probe(k, s, |f|);
    if f[i] == Empty {
      Absent(f, keys, vals, m, k, s);
      StepReaches(f, k, s);
    } else {
      Present(f, keys, vals, m, k, i);
    }
  }

  lemma NoTombstones(f: seq<Flag>)
    requires |LiveSet(f)| == |UsedSet(f)|
    ensures forall i: nat :: i < |f| ==> f[i] != Deleted
  {
    SubsetSize(LiveSet(f), UsedSet(f));
    assert forall i: nat :: i < |f| && f[i] == Deleted ==> i in UsedSet(f) && i !in LiveSet(f);
  }

  lemma AllUsed(f: seq<Flag>)
    requires |UsedSet(f)| >= |f|
    ensures forall i: nat :: i < |f| ==> f[i] != Empty
  {
    SubsetSize(UsedSet(f), Upto(|f|));
    forall i: nat | i < |f|
      ensures f[i] != Empty
    {
      assert i in Upto(|f|);
    }
  }

  /** A bucket that is not live leaves the table short of full. */
  lemma NotFull(f: seq<Flag>, x: nat)
    requires x < |f| && f[x] != Live
    ensures |LiveSet(f)| < |f|
  {
    LiveIsUsed(f[x := Empty]);
    assert LiveSet(f) <= LiveSet(f[x := Live]) - {x};
    SubsetSize(LiveSet(f[x := Live]), Upto(|f|));
    SubsetSize(LiveSet(f), LiveSet(f[x := Live]) - {x});
  }

  lemma NotYetUsed(f: seq<Flag>, x: nat)
    requires x < |f| && f[x] != Live
    ensures |LiveSet(f[x := Live])| == |LiveSet(f)| + 1
    ensures |UsedSet(f[x := Live])| == |UsedSet(f)| + if f[x] == Empty then 1 else 0
  {
    Marked(f, x, Live);
    if f[x] != Empty { assert UsedSet(f) + {x} == UsedSet(f); }
  }

  lemma Tombstone(f: seq<Flag>, x: nat)
    requires x < |f| && f[x] == Live
    ensures |LiveSet(f[x := Deleted])| == |LiveSet(f)| - 1
    ensures |UsedSet(f[x := Deleted])| == |UsedSet(f)|
  {
    Marked(f, x, Deleted);
    assert UsedSet(f) + {x} == UsedSet(f);
  }

  lemma FreeStarts(g: seq<Flag>, k: nat)
    requires |g| > 0
    ensures Path(g, k, 0) && Masked(k, |g|) == Probe(k, 0, |g|)
  {
  }

  lemma FreeGoesOn(g: seq<Flag>, k: nat, s: nat)
    requires PowerOfTwo(|g|) && |UsedSet(g)| < |g| && Path(g, k, s) && g[Probe(k, s, |g|)] != Empty
    ensures Path(g, k, s + 1) && s + 1 < |g|
    ensures Masked(Probe(k, s, |g|) + (s + 1), |g|) == Probe(k, s + 1, |g|)
  {
    hide UsedSet;
    PathBounded(g, k, s + 1);
  }

  lemma FreeFound(g: seq<Flag>, k: nat, s: nat)
    requires PowerOfTwo(|g|) && s < |g| && Path(g, k, s) && g[Probe(k, s, |g|)] == Empty
    ensures FreeSlot(g, k, Probe(k, s, |g|))
  {
    StepReaches(g, k, s);
  }

  /** Fewer entries moved than the map has, so the new table never fills up. */
  lemma MovedIsUsed<V>(f: seq<Flag>, g: seq<Flag>, keys: seq<nat>, vals: seq<V>, m: map<nat, V>, hand: Option<(nat, V)>)
    requires InTransit(f, g, keys, vals, m, hand)
    ensures |UsedSet(g)| <= |m|
  {
    assert UsedSet(g) == LiveSet(g);
  }

  /** Reallocated arrays that keep the old buckets stand for the same map; an unused table for the empty one. */
  lemma StillThere<V>(f: seq<Flag>, keys: seq<nat>, vals: seq<V>, keys': seq<nat>, vals': seq<V>, m: map<nat, V>)
    requires |f| == |keys| == |vals| && |f| <= |keys'| && |f| <= |vals'|
    requires keys'[..|f|] == keys && vals'[..|f|] == vals
    requires if |f| == 0 then m == map[] else TableOk(f, keys, vals, m)
    ensures Distinct(f, keys') && Represents(f, keys', vals', m)
    ensures |f| == 0 ==> LiveSet(f) == {}
  {
    assert forall i: nat :: i < |f| ==> keys'[i] == keys[i] && vals'[i] == vals[i];
    forall k | k in m
      ensures Holds(f, keys', k)
    {
      var i: nat :| At(f, keys, k, i);
      assert At(f, keys', k, i);
    }
  }

  class KHash<V(0)> {
    var nBuckets: nat
    var size: nat
    var nOccupied: nat
    var upperBound: nat
    var flags: array<Flag>
    var keys: array<nat>
    var vals: array<V>
    ghost var M: map<nat, V>  // the finite map the table stands for
    ghost var Repr: set<object>

    /** All that searching needs; it says nothing about free buckets. */
    ghost predicate Searchable()
      reads this, Repr
    {
      && this in Repr && flags in Repr && keys in Repr && vals in Repr
      && (vals as object) != keys && (vals as object) != flags
      && flags.Length == keys.Length == vals.Length == nBuckets
      && (nBuckets == 0 ==> M == map[])
      && (nBuckets > 0 ==> TableOk(flags[..], keys[..], vals[..], M))
    }

    ghost predicate Valid()
      reads this, Repr
      ensures Valid() ==> this in Repr
    {
      && Searchable()
      && size == |M|
      && (nBuckets == 0 ==> nOccupied == 0 && upperBound == 0)
      && (nBuckets > 0 ==>
            && 4 <= nBuckets <= MAX_BUCKETS && upperBound == UpperBound(nBuckets)
            && nOccupied == |UsedSet(flags[..])|
            && (nBuckets < MAX_BUCKETS ==> nOccupied <= upperBound)
            && |LiveSet(flags[..])| == size)
    }

    /** `kh_exist`. */
    predicate Exist(x: nat)
      requires x < flags.Length
      reads this, flags
    {
      flags[x] == Live
    }

    lemma Arrays()
      requires Valid()
      ensures Searchable() && flags in Repr && keys in Repr && vals in Repr && this in Repr
      ensures flags.Length == keys.Length == vals.Length == nBuckets && size == |M|
      ensures (vals as object) != keys && (vals as object) != flags
    {
    }

    /** A scan over the live buckets meets every entry of the map exactly once. */
    lemma Contents()
      requires Valid()
      ensures Represents(flags[..], keys[..], vals[..], M) && Distinct(flags[..], keys[..])
    {
    }

    /** A table that has buckets and can still be doubled always has an empty one; the largest has one unless
        every bucket is in use. */
    lemma AlwaysAnEmptyBucket()
      requires Valid() && nBuckets > 0
      ensures (exists x: nat :: x < nBuckets && flags[x] == Empty) <==> nOccupied < nBuckets
      ensures nBuckets < MAX_BUCKETS ==> nOccupied < nBuckets
    {
      if nOccupied < nBuckets {
        var e := HasEmpty(flags[..]);
        assert flags[e] == Empty;
      } else {
        AllUsed(flags[..]);
      }
    }

    constructor ()
      ensures Valid() && fresh(Repr) && M == map[] && nBuckets == 0
    {
      nBuckets, size, nOccupied, upperBound := 0, 0, 0, 0;
      flags, keys, vals := new Flag[0], new nat[0], new V[0];
      M := map[];
      new;
      Repr := {this, flags, keys, vals};
    }

    /** The bucket of `key`, or `nBuckets` when the map has no such key. */
    method Get(key: nat) returns (x: nat)
      requires Searchable()
      ensures key in M ==> x < nBuckets && Exist(x) && keys[x] == key && vals[x] == M[key]
      ensures key !in M ==> x == nBuckets
    {
      if nBuckets == 0 {
        return 0;
      }
      ghost var f, ks, vs := flags[..], keys[..], vals[..];
      assert PowerOfTwo(nBuckets) && |f| <= |ks|;
      hide TableOk, Missed, Path, AllLive, Probe, Masked, PowerOfTwo;
      var i := Masked(key, nBuckets);
      var last, step := i, 0;
      SearchStarts(f, ks, key);
      while flags[i] != Empty && (flags[i] == Deleted || keys[i] != key)
        invariant step < 2 * nBuckets - 1 && i == Probe(key, step, nBuckets)
        invariant Missed(f, ks, key, step)
        decreases 2 * nBuckets - step
      {
        SearchGoesOn(f, ks, key, step);
        step := step + 1;
        i := Masked(i + step, nBuckets);
        if i == last {
          Absent(f, ks, vs, M, key, step);
          return nBuckets;
        }
      }
      if flags[i] == Empty {
        Absent(f, ks, vs, M, key, step);
      } else {
        Present(f, ks, vs, M, key, i);
      }
      return if flags[i] != Live then nBuckets else i;
    }

    /** `kh_put`'s search: where it ends, the last tombstone it passed (or `nBuckets`), and whether it came all
        the way round. */
    method Search(key: nat) returns (i: nat, site: nat, turned: bool)
      requires Searchable() && nBuckets > 0
      ensures Settled(flags[..], keys[..], M, key, i, site, turned)
    {
      ghost var f, ks, vs := flags[..], keys[..], vals[..];
      assert PowerOfTwo(nBuckets) && |f| <= |ks|;
      hide TableOk, LiveSet, Reaches, Missed, Sought, Settled, Probe, Masked, PowerOfTwo;
      site, turned := nBuckets, false;
      i := Masked(key, nBuckets);
      SoughtStarts(f, ks, key);
      var last, step := i, 0;
      while flags[i] != Empty && (flags[i] == Deleted || keys[i] != key)
        invariant step < 2 * nBuckets - 1 && i == Probe(key, step, nBuckets)
        invariant site <= nBuckets && Sought(f, ks, key, step, site)
        decreases 2 * nBuckets - step
      {
        SoughtGoesOn(f, ks, key, step, site);
        if flags[i] == Deleted {
          site := i;
        }
        step := step + 1;
        i := Masked(i + step, nBuckets);
        if i == last {
          SoughtAllRound(f, ks, vs, M, key, step, site);
          return i, site, true;
        }
      }
      SoughtEnds(f, ks, vs, M, key, step, site);
    }

    /** The bucket `kh_put` settles on: the key's own, or a free one its search reaches. If the key is absent and
        no bucket is free, it is the bucket of some other key. */
    method FindSlot(key: nat) returns (x: nat)
      requires Searchable() && nBuckets > 0
      ensures x < nBuckets
      ensures key in M ==> Exist(x) && keys[x] == key
      ensures key !in M && |LiveSet(flags[..])| < nBuckets ==> !Exist(x) && Reaches(flags[..], key, x)
      ensures key !in M && |LiveSet(flags[..])| >= nBuckets ==> Exist(x) && keys[x] != key
    {
      hide TableOk, LiveSet, Reaches;
      var i, site, turned := Search(key);
      x := if turned && site != nBuckets then site
           else if flags[i] == Empty && site != nBuckets then site
           else i;
      if !Exist(x) { NotFull(flags[..], x); }
    }

    /** Whether `kh_put` rehashes first; a table of the largest size that is half full or more cannot. */
    predicate Rehashes()
      reads this
    {
      nOccupied >= upperBound && !(nBuckets == MAX_BUCKETS && 2 * size >= nBuckets)
    }

    /** Makes room for `key`. As in the source, the value of a new key is whatever the bucket held. It fails, by
        reporting a key that is not there as present, exactly when all of the most buckets possible hold others. */
    method Put(key: nat) returns (x: nat, ret: nat)
      requires Valid()
      modifies Repr
      ensures Valid() && fresh(Repr - old(Repr))
      ensures x < nBuckets && Exist(x)
      ensures keys[x] == key <==> key in old(M) || |old(M)| < MAX_BUCKETS
      ensures ret == 0 <==> key in old(M) || |old(M)| >= MAX_BUCKETS
      ensures ret <= 2
      ensures ret == 2 <==> ret != 0 && x < old(nBuckets) && old(!Rehashes() && flags[x] == Deleted)
      ensures ret == 0 ==> M == old(M)
      ensures ret != 0 ==> M == old(M)[key := vals[x]]
      ensures nBuckets <= old(nBuckets) || nBuckets <= 4 * |old(M)| + 4
    {
      hide WellPlaced, Distinct, Represents, LiveSet, UsedSet;
      if nOccupied >= upperBound {
        MakeRoom();
      }
      LiveIsUsed(flags[..]);
      if nOccupied == size { NoTombstones(flags[..]); }
      x := FindSlot(key);
      ret := Claim(key, x);
    }

    /** Clears tombstones if that helps, else doubles the table; afterwards there is room, unless the table has
        the largest size and is half full or more: then nothing has changed. */
    method MakeRoom()
      requires Valid() && nOccupied >= upperBound
      modifies Repr
      ensures Valid() && fresh(Repr - old(Repr)) && M == old(M) && nBuckets > 0
      ensures old(Rehashes()) ==> nOccupied < upperBound && nOccupied == size
      ensures !old(Rehashes()) ==> nBuckets == MAX_BUCKETS && flags == old(flags) && flags[..] == old(flags[..])
      ensures nBuckets <= old(nBuckets) || nBuckets <= 4 * |M| + 4
    {
      LiveIsUsed(flags[..]);
      WantedHasRoom(nBuckets, size);
      hide TableOk, LiveSet, UsedSet, Rounded, UpperBound;
      Resize(Wanted(nBuckets, size));
    }

    /** The last part of `kh_put`: mark the slot found. */
    method Claim(key: nat, x: nat) returns (ret: nat)
      requires Valid() && nBuckets > 0 && x < nBuckets
      requires nOccupied < upperBound || nBuckets == MAX_BUCKETS
      requires key in M ==> Exist(x) && keys[x] == key
      requires key !in M && size < nBuckets ==> !Exist(x) && Reaches(flags[..], key, x)
      requires key !in M && size >= nBuckets ==> Exist(x) && keys[x] != key
      modifies this`size, this`nOccupied, this`M, flags, keys
      ensures Valid()
      ensures Exist(x) && (keys[x] == key <==> key in old(M) || old(size) < nBuckets)
      ensures ret == 0 <==> key in old(M) || old(size) >= nBuckets
      ensures ret <= 2 && (ret == 2 <==> old(flags[x]) == Deleted)
      ensures ret == 0 ==> M == old(M)
      ensures ret != 0 ==> M == old(M)[key := vals[x]]
    {
      hide Reaches, TableOk, LiveSet, UsedSet;
      if flags[x] == Empty {
        Fill(key, x);
        nOccupied := nOccupied + 1;
        ret := 1;
      } else if flags[x] == Deleted {
        Fill(key, x);
        ret := 2;
      } else {
        ret := 0;
      }
    }

    /** Puts a key into a bucket that is not live. */
    method Fill(key: nat, x: nat)
      requires Valid() && x < nBuckets && !Exist(x) && key !in M && Reaches(flags[..], key, x)
      modifies this`size, this`M, flags, keys
      ensures Searchable() && M == old(M)[key := vals[x]] && size == |M| == old(size) + 1
      ensures Exist(x) && keys[x] == key
      ensures |LiveSet(flags[..])| == size
      ensures |UsedSet(flags[..])| == old(nOccupied) + if old(flags[x]) == Empty then 1 else 0
    {
      hide WellPlaced, Distinct, Represents, LiveSet, UsedSet;
      ghost var f, ks, vs := flags[..], keys[..], vals[..];
      Marked(f, x, Live);
      Inserted(f, ks, vs, M, x, key);
      NotYetUsed(f, x);
      keys[x] := key;
      flags[x] := Live;
      size := size + 1;
      M := M[key := vals[x]];
      assert flags[..] == f[x := Live] && keys[..] == ks[x := key] && vals[..] == vs;
    }

    /** `kh_value(h, x) = v`. */
    method SetValue(x: nat, v: V)
      requires Valid() && x < nBuckets && Exist(x)
      modifies vals, this`M
      ensures Valid()
      ensures M == old(M)[keys[x] := v]
      ensures vals[x] == v && forall i :: 0 <= i < nBuckets && i != x ==> vals[i] == old(vals[i])
    {
      hide WellPlaced, Distinct, Represents, LiveSet, UsedSet;
      ghost var f, ks, vs := flags[..], keys[..], vals[..];
      KHashTable.Stored(f, ks, vs, M, x, v);
      Present(f, ks, vs, M, keys[x], x);
      assert M[keys[x] := v].Keys == M.Keys;
      vals[x] := v;
      M := M[keys[x] := v];
      assert flags[..] == f && keys[..] == ks && vals[..] == vs[x := v];
    }

    /** `kh_del`: leaves a tombstone, moves nothing. */
    method Del(x: nat)
      requires Valid() && x <= nBuckets
      modifies this`size, this`M, flags
      ensures Valid()
      ensures x < nBuckets && old(Exist(x)) ==> M == old(M) - {keys[x]}
      ensures !(x < nBuckets && old(Exist(x))) ==> M == old(M)
      ensures flags[..] == if x < nBuckets && old(Exist(x)) then old(flags[..])[x := Deleted] else old(flags[..])
    {
      hide WellPlaced, Distinct, Represents, LiveSet, UsedSet;
      if x != nBuckets && flags[x] == Live {
        ghost var f, ks, vs := flags[..], keys[..], vals[..];
        Erased(f, ks, vs, M, x);
        Tombstone(f, x);
        Present(f, ks, vs, M, keys[x], x);
        assert (M - {keys[x]}).Keys == M.Keys - {keys[x]};
        M := M - {keys[x]};
        flags[x] := Deleted;
        assert flags[..] == f[x := Deleted] && keys[..] == ks && vals[..] == vs;
        size := size - 1;
      }
    }

    /** First empty bucket on the way of `key` among the new flags. */
    method FreeBucket(newFlags: array<Flag>, key: nat) returns (i: nat)
      requires PowerOfTwo(newFlags.Length) && |UsedSet(newFlags[..])| < newFlags.Length
      ensures FreeSlot(newFlags[..], key, i)
    {
      hide UsedSet, Reaches, Path, Probe, Masked, PowerOfTwo, FreeSlot;
      ghost var g := newFlags[..];
      var step := 0;
      i := Masked(key, newFlags.Length);
      FreeStarts(g, key);
      while newFlags[i] != Empty
        invariant step < newFlags.Length && i == Probe(key, step, newFlags.Length)
        invariant Path(g, key, step)
        decreases newFlags.Length - step
      {
        FreeGoesOn(g, key, step);
        step := step + 1;
        i := Masked(i + step, newFlags.Length);
      }
      FreeFound(g, key, step);
    }

    /** The arrays of a table being rehashed into `newFlags`. */
    ghost predicate Moving(newFlags: array<Flag>)
      reads this
    {
      && newFlags != flags
      && (vals as object) != keys && (vals as object) != flags && (vals as object) != newFlags
      && flags.Length == nBuckets <= keys.Length == vals.Length
      && newFlags.Length <= keys.Length
      && |M| < newFlags.Length
    }

    /** Moves the entry of bucket `j` and everything it kicks out on the way. */
    method KickOut(newFlags: array<Flag>, j: nat)
      requires Moving(newFlags)
      requires InTransit(flags[..], newFlags[..], keys[..], vals[..], M, None)
      requires j < nBuckets && flags[j] == Live
      modifies flags, keys, vals, newFlags
      ensures InTransit(flags[..], newFlags[..], keys[..], vals[..], M, None)
      ensures flags[j] != Live
      ensures forall i :: 0 <= i < nBuckets && flags[i] == Live ==> old(flags[i]) == Live
    {
      hide Disjoint, EntriesTrue, KeysOnce, NoKeyLost, WellPlaced, LiveSet, UsedSet, Reaches;
      var key, val := keys[j], vals[j];
      PickedUp(flags[..], newFlags[..], keys[..], vals[..], M, j);
      ghost var f0 := flags[..];
      flags[j] := Deleted;
      assert flags[..] == f0[j := Deleted];
      while true
        invariant InTransit(flags[..], newFlags[..], keys[..], vals[..], M, Some((key, val)))
        invariant flags[j] != Live
        invariant forall i :: 0 <= i < nBuckets && flags[i] == Live ==> old(flags[i]) == Live
        decreases |LiveSet(flags[..])|
      {
        ghost var f, g, ks, vs := flags[..], newFlags[..], keys[..], vals[..];
        MovedIsUsed(f, g, ks, vs, M, Some((key, val)));
        var i := FreeBucket(newFlags, key);
        Written(f, g, ks, vs, M, key, val, i);
        newFlags[i] := Live;
        if i < nBuckets && flags[i] == Live {
          var tmpKey, tmpVal := keys[i], vals[i];
          keys[i], vals[i] := key, val;
          flags[i] := Deleted;
          assert flags[..] == Vacated(f, i) && newFlags[..] == g[i := Live];
          assert keys[..] == ks[i := key] && vals[..] == vs[i := val];
          key, val := tmpKey, tmpVal;
        } else {
          keys[i], vals[i] := key, val;
          assert flags[..] == Vacated(f, i) && newFlags[..] == g[i := Live];
          assert keys[..] == ks[i := key] && vals[..] == vs[i := val];
          break;
        }
      }
    }

    /** `realloc` to at least as many buckets; what the new ones hold does not matter. */
    method Grow(n: nat)
      requires Valid() && nBuckets <= n
      modifies this`keys, this`vals
      ensures fresh(keys) && fresh(vals) && (vals as object) != keys && keys.Length == vals.Length == n
      ensures keys[..nBuckets] == old(keys[..]) && vals[..nBuckets] == old(vals[..])
    {
      hide TableOk, LiveSet, UsedSet;
      var newKeys, newVals := new nat[n], new V[n];
      forall i | 0 <= i < nBuckets { newKeys[i] := keys[i]; }
      forall i | 0 <= i < nBuckets { newVals[i] := vals[i]; }
      keys, vals := newKeys, newVals;
    }

    method Shrink(n: nat)
      requires n <= keys.Length == vals.Length
      modifies this`keys, this`vals
      ensures fresh(keys) && fresh(vals) && (vals as object) != keys && keys.Length == vals.Length == n
      ensures keys[..] == old(keys[..n]) && vals[..] == old(vals[..n])
    {
      var newKeys, newVals := new nat[n], new V[n];
      forall i | 0 <= i < n { newKeys[i] := keys[i]; }
      forall i | 0 <= i < n { newVals[i] := vals[i]; }
      keys, vals := newKeys, newVals;
    }

    /** The outer loop of the rehash: every entry is moved in the end. */
    method MoveAll(newFlags: array<Flag>)
      requires Moving(newFlags)
      requires InTransit(flags[..], newFlags[..], keys[..], vals[..], M, None)
      modifies flags, keys, vals, newFlags
      ensures InTransit(flags[..], newFlags[..], keys[..], vals[..], M, None)
      ensures forall i :: 0 <= i < nBuckets ==> flags[i] != Live
    {
      hide InTransit;
      for j := 0 to nBuckets
        invariant Moving(newFlags)
        invariant InTransit(flags[..], newFlags[..], keys[..], vals[..], M, None)
        invariant forall i :: 0 <= i < j ==> flags[i] != Live
      {
        if flags[j] == Live {
          KickOut(newFlags, j);
        }
      }
    }

    /** Installs the new flags and cuts the arrays to size. */
    method Install(newFlags: array<Flag>)
      requires Moving(newFlags) && this !in {newFlags as object}
      requires InTransit(flags[..], newFlags[..], keys[..], vals[..], M, None)
      requires forall i :: 0 <= i < nBuckets ==> flags[i] != Live
      requires size == |M| && 4 <= newFlags.Length <= MAX_BUCKETS && size < UpperBound(newFlags.Length)
      requires nBuckets <= newFlags.Length ==> keys.Length == newFlags.Length
      requires nBuckets > newFlags.Length ==> keys.Length == nBuckets
      modifies this
      ensures Valid() && Repr == {this, flags, keys, vals} && flags == newFlags
      ensures (fresh(keys) && fresh(vals)) || (keys == old(keys) && vals == old(vals))
      ensures M == old(M) && size == old(size)
      ensures nBuckets == newFlags.Length && nOccupied == size && upperBound == UpperBound(nBuckets)
    {
      hide WellPlaced, Distinct, Represents, LiveSet, UsedSet;
      hide Disjoint, EntriesTrue, KeysOnce, NoKeyLost, Reaches;
      var n := newFlags.Length;
      TransitEnds(flags[..], newFlags[..], keys[..], vals[..], M);
      ghost var ks', vs' := keys[..n], vals[..n];
      if nBuckets > n {
        Shrink(n);
      }
      assert keys[..] == ks' && vals[..] == vs';
      flags := newFlags;
      nBuckets, nOccupied, upperBound := n, size, UpperBound(n);
      Repr := {this, flags, keys, vals};
    }

    /** Rehashes in place into `Rounded(newN)` buckets, unless that is too small: the map stays, tombstones go. */
    method Resize(newN: nat)
      requires Valid() && newN < RoundUp.TWO_32
      modifies Repr
      ensures Valid() && fresh(Repr - old(Repr))
      ensures M == old(M)
      ensures size == old(size)
      ensures size >= UpperBound(Rounded(newN)) ==> nBuckets == old(nBuckets) && nOccupied == old(nOccupied)
                                                    && flags == old(flags) && flags[..] == old(flags[..])
      ensures size < UpperBound(Rounded(newN)) ==>
                nBuckets == Rounded(newN) && nOccupied == size && upperBound == UpperBound(nBuckets)
    {
      hide WellPlaced, Distinct, Represents, LiveSet, UsedSet, Rounded, InTransit, Reaches;
      var n := Rounded(newN);
      RoundedIsPower(newN);
      if size >= UpperBound(n) {
        return;
      }
      var newFlags := new Flag[n](_ => Empty);
      ghost var f, ks, vs := flags[..], keys[..], vals[..];
      if nBuckets < n {
        Grow(n);
      }
      StillThere(f, ks, vs, keys[..], vals[..], M);
      TransitStarts(f, newFlags[..], keys[..], vals[..], M);
      MoveAll(newFlags);
      Install(newFlags);
    }
  }
}
