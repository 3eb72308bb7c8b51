/** The timeout iterator (proposer.c): one pass over a table finds what has waited too long. */
module Timeouts {
  import opened PaxosTypes
  import opened KHashMap
  import opened KHashTable
  import opened ProposerTables
  import opened InstanceTables
  import P = ProposerSpec

  /** What makes an instance overdue: the time of the pass and the configured timeout, in seconds. */
  datatype Clock = Clock(acceptors: nat, now: int, timeout: int)

  predicate Overdue(c: Clock, inst: P.Instance) {
    !P.QuorumReached(c.acceptors, inst) && c.now - inst.createdAt >= c.timeout
  }

  function Stamp(c: Clock, inst: P.Instance): P.Instance {
    inst.(createdAt := c.now)
  }

  predicate Due(c: Clock, f: seq<Flag>, vs: seq<P.Instance>, x: nat)
    requires x < |f| <= |vs|
  {
    f[x] == Live && Overdue(c, vs[x])
  }

  /** Where `next_timedout` stops when it starts at bucket `k`. */
  function FirstDue(c: Clock, f: seq<Flag>, vs: seq<P.Instance>, k: nat): (x: nat)
    requires k <= |f| <= |vs|
    ensures k <= x <= |f|
    ensures forall y: nat :: k <= y < x ==> !Due(c, f, vs, y)
    ensures x < |f| ==> Due(c, f, vs, x)
    decreases |f| - k
  {
    if k == |f| || Due(c, f, vs, k) then k else FirstDue(c, f, vs, k + 1)
  }

  /** The cursor stays on the bucket just returned, so the pass gets past it exactly when the timeout is positive. */
  lemma PassesOnIffPositive(c: Clock, f: seq<Flag>, vs: seq<P.Instance>, k: nat)
    requires k <= |f| <= |vs|
    ensures var x := FirstDue(c, f, vs, k);
            x < |f| ==> (FirstDue(c, f, vs[x := Stamp(c, vs[x])], x) > x <==> c.timeout > 0)
  {
  }

  // ---- One pass ----

  /** A table read as values. */
  datatype Buckets = Buckets(flags: seq<Flag>, keys: seq<nat>, vals: seq<P.Instance>, m: map<nat, P.Instance>)

  ghost predicate Readable(b: Buckets) {
    && |b.flags| == |b.keys| == |b.vals|
    && Represents(b.flags, b.keys, b.vals, b.m) && Distinct(b.flags, b.keys) && Keyed(b.m)
  }

  /** The keys a pass returns. */
  ghost function OverdueKeys(c: Clock, m: map<nat, P.Instance>): set<nat> {
    set i | i in m && Overdue(c, m[i])
  }

  function Stamped(c: Clock, m: map<nat, P.Instance>, iids: seq<nat>): map<nat, P.Instance> {
    map i | i in m :: if i in iids then Stamp(c, m[i]) else m[i]
  }

  /** With the cursor at `k`, the pass that began at `b0` has returned `iids`. */
  ghost predicate InPass(c: Clock, b0: Buckets, b: Buckets, k: nat, iids: seq<nat>) {
    && Readable(b0) && Readable(b) && b.flags == b0.flags && b.keys == b0.keys && k <= |b.flags|
    && (forall i :: i in iids ==> i in b0.m && Overdue(c, b0.m[i]))
    && (forall i, j :: 0 <= i < j < |iids| ==> iids[i] != iids[j])
    && b.m == Stamped(c, b0.m, iids)
    && (forall x: nat :: x < k && Due(c, b0.flags, b0.vals, x) ==> b.keys[x] in iids)
  }

  /** Storing the stamp at bucket `x`. */
  ghost function StampAt(c: Clock, b: Buckets, x: nat): Buckets
    requires x < |b.flags| == |b.vals| == |b.keys|
  {
    var inst := Stamp(c, b.vals[x]);
    b.(vals := b.vals[x := inst], m := b.m[b.keys[x] := inst])
  }

  lemma PassCovers(c: Clock, b0: Buckets, b: Buckets, k: nat, iids: seq<nat>, y: nat)
    requires InPass(c, b0, b, k, iids)
    requires y < FirstDue(c, b.flags, b.vals, k) && Due(c, b0.flags, b0.vals, y)
    ensures b.keys[y] in iids
  {
    if y >= k {
      assert !Due(c, b.flags, b.vals, y);
      assert b.vals[y] == b.m[b.keys[y]] && b0.vals[y] == b0.m[b.keys[y]];
    }
  }

  lemma StampReadable(c: Clock, b: Buckets, x: nat)
    requires Readable(b) && x < |b.flags| && b.flags[x] == Live
    ensures Readable(StampAt(c, b, x)) && Keyed(StampAt(c, b, x).m)
    ensures b.keys[x] in b.m && b.vals[x] == b.m[b.keys[x]]
  {
    var b' := StampAt(c, b, x);
    assert b'.m.Keys == b.m.Keys;
  }

  lemma StampedMore(c: Clock, m0: map<nat, P.Instance>, iids: seq<nat>, i: nat)
    requires i in m0 && i !in iids
    ensures Stamped(c, m0, iids)[i := Stamp(c, m0[i])] == Stamped(c, m0, iids + [i])
  {
  }

  /** What lets a pass end: each stamp takes an instance off the overdue ones, or there are none. */
  ghost predicate CanEnd(c: Clock, m: map<nat, P.Instance>) {
    c.timeout > 0 || OverdueKeys(c, m) == {}
  }

  lemma SomethingOverdue(c: Clock, b0: Buckets, b: Buckets, k: nat, iids: seq<nat>)
    requires InPass(c, b0, b, k, iids) && (iids != [] || FirstDue(c, b.flags, b.vals, k) < |b.flags|)
    ensures OverdueKeys(c, b0.m) != {}
  {
    if iids != [] {
      assert iids[0] in OverdueKeys(c, b0.m);
    } else {
      assert Stamped(c, b0.m, []) == b0.m;
      assert b.keys[FirstDue(c, b.flags, b.vals, k)] in OverdueKeys(c, b0.m);
    }
  }

  /** Each return is new to the pass. */
  lemma PassGoesOn(c: Clock, b0: Buckets, b: Buckets, k: nat, iids: seq<nat>)
    requires InPass(c, b0, b, k, iids) && CanEnd(c, b0.m)
    ensures var x := FirstDue(c, b.flags, b.vals, k);
            if x == |b.flags| then InPass(c, b0, b, x, iids)
            else b.keys[x] !in iids && InPass(c, b0, StampAt(c, b, x), x, iids + [b.keys[x]])
                 && b.keys[x] in b0.m && b.vals[x] == b0.m[b.keys[x]]
  {
    var x := FirstDue(c, b.flags, b.vals, k);
    forall y: nat | y < x && Due(c, b0.flags, b0.vals, y)
      ensures b.keys[y] in iids
    {
      PassCovers(c, b0, b, k, iids, y);
    }
    if x < |b.flags| {
      SomethingOverdue(c, b0, b, k, iids);
      StampReadable(c, b, x);
      StampedMore(c, b0.m, iids, b.keys[x]);
      hide Represents, Distinct, Stamped;
    }
  }

  lemma PassEnds(c: Clock, b0: Buckets, b: Buckets, iids: seq<nat>)
    requires |b.flags| == |b.keys| && InPass(c, b0, b, |b.flags|, iids)
    ensures P.IsScan(iids, OverdueKeys(c, b0.m)) && b.m == Stamped(c, b0.m, iids)
  {
    forall i | i in b0.m && Overdue(c, b0.m[i])
      ensures i in iids
    {
      assert Holds(b0.flags, b0.keys, i);
      var x: nat :| KHashTable.At(b0.flags, b0.keys, i, x);
      assert Due(c, b0.flags, b0.vals, x);
    }
  }

  lemma PassFits(c: Clock, b0: Buckets, b: Buckets, k: nat, iids: seq<nat>)
    requires InPass(c, b0, b, k, iids)
    ensures |iids| <= |b0.m|
  {
    ScanFits(iids, b0.m.Keys);
  }

  lemma {:induction false} ScanFits(iids: seq<nat>, keys: set<nat>)
    requires forall i :: i in iids ==> i in keys
    requires forall i, j :: 0 <= i < j < |iids| ==> iids[i] != iids[j]
    ensures |iids| <= |keys|
  {
    if iids != [] {
      ScanFits(iids[1..], keys - {iids[0]});
    }
  }

  /** At most `n` calls return something before one returns nothing. */
  ghost predicate EndsWithin(c: Clock, b: Buckets, k: nat, n: nat)
    requires k <= |b.flags| == |b.keys| == |b.vals|
    decreases n
  {
    var x := FirstDue(c, b.flags, b.vals, k);
    x == |b.flags| || (n > 0 && EndsWithin(c, StampAt(c, b, x), x, n - 1))
  }

  lemma {:induction false} EndsFrom(c: Clock, b0: Buckets, b: Buckets, k: nat, iids: seq<nat>)
    requires InPass(c, b0, b, k, iids) && CanEnd(c, b0.m)
    ensures |iids| <= |b0.m| && EndsWithin(c, b, k, |b0.m| - |iids|)
    decreases |b0.m| - |iids|
  {
    PassFits(c, b0, b, k, iids);
    PassGoesOn(c, b0, b, k, iids);
    var x := FirstDue(c, b.flags, b.vals, k);
    if x < |b.flags| {
      var iids' := iids + [b.keys[x]];
      PassFits(c, b0, StampAt(c, b, x), x, iids');
      hide InPass, CanEnd, FirstDue;
      EndsFrom(c, b0, StampAt(c, b, x), x, iids');
    }
  }

  /** Without a positive timeout the cursor stays on the first overdue bucket for ever. */
  lemma {:induction false} NeverEnds(c: Clock, b: Buckets, k: nat, n: nat)
    requires k <= |b.flags| == |b.keys| == |b.vals| && c.timeout <= 0
    requires FirstDue(c, b.flags, b.vals, k) < |b.flags|
    ensures !EndsWithin(c, b, k, n)
    decreases n
  {
    if n > 0 {
      var x := FirstDue(c, b.flags, b.vals, k);
      PassesOnIffPositive(c, b.flags, b.vals, k);
      NeverEnds(c, StampAt(c, b, x), x, n - 1);
    }
  }

  /** A pass over a table ends if and only if the timeout is positive or nothing is overdue. */
  lemma PassEndsIff(c: Clock, b: Buckets)
    requires Readable(b)
    ensures (exists n: nat :: EndsWithin(c, b, 0, n)) <==> c.timeout > 0 || OverdueKeys(c, b.m) == {}
  {
    if CanEnd(c, b.m) {
      assert Stamped(c, b.m, []) == b.m;
      EndsFrom(c, b, b, 0, []);
    } else {
      var i :| i in OverdueKeys(c, b.m);
      assert Holds(b.flags, b.keys, i);
      var x: nat :| KHashTable.At(b.flags, b.keys, i, x);
      assert Due(c, b.flags, b.vals, x);
      forall n: nat
        ensures !EndsWithin(c, b, 0, n)
      {
        NeverEnds(c, b, 0, n);
      }
    }
  }

  /** The instances listed, in that order. */
  function Fetched(m: map<nat, P.Instance>, iids: seq<nat>): (insts: seq<P.Instance>)
    requires P.Listed(iids, m)
    ensures |insts| == |iids|
  {
    seq(|iids|, j requires 0 <= j < |iids| => m[iids[j]])
  }

  /** Stamping changes no key, no ballot and no value. */
  lemma StampKeepsTables(c: Clock, p: P.Proposer, iids1: seq<nat>, iids2: seq<nat>)
    requires P.TablesOk(p)
    ensures P.TablesOk(p.(prepares := Stamped(c, p.prepares, iids1), accepts := Stamped(c, p.accepts, iids2)))
  {
  }

  lemma FetchedOneMore(m: map<nat, P.Instance>, iids: seq<nat>, i: nat)
    requires P.Listed(iids, m) && i in m
    ensures P.Listed(iids + [i], m) && Fetched(m, iids + [i]) == Fetched(m, iids) + [m[i]]
  {
  }

  // ---- The iterator ----

  ghost function Read(h: Table): Buckets
    reads h, h.flags, h.keys, h.vals
  {
    Buckets(h.flags[..], h.keys[..], h.vals[..], h.M)
  }

  ghost predicate Scannable(h: Table)
    reads h, h.Repr
  {
    h.Valid() && Keyed(h.M)
  }

  lemma ScannableReads(h: Table)
    requires Scannable(h)
    ensures Readable(Read(h)) && h.flags.Length == h.keys.Length == h.vals.Length == h.nBuckets
    ensures |Read(h).flags| == |Read(h).keys| == |Read(h).vals| == h.nBuckets
    ensures h in h.Repr && h.vals in h.Repr
  {
    h.Arrays();
    h.Contents();
  }

  /** `next_timedout`. */
  method NextTimedOut(c: Clock, h: Table, k: nat) returns (x: nat)
    requires k <= h.nBuckets == h.flags.Length == h.vals.Length
    ensures x == FirstDue(c, h.flags[..], h.vals[..], k)
  {
    x := k;
    while x < h.nBuckets && !(h.Exist(x) && Overdue(c, h.vals[x]))
      invariant k <= x <= h.nBuckets
      invariant FirstDue(c, h.flags[..], h.vals[..], x) == FirstDue(c, h.flags[..], h.vals[..], k)
    {
      x := x + 1;
    }
  }

  /** `inst->created_at = iter->timeout` for the instance in bucket `x`. */
  method StampBucket(c: Clock, h: Table, x: nat)
    requires Scannable(h) && x < h.nBuckets == h.flags.Length == h.vals.Length == h.keys.Length && h.Exist(x)
    modifies h.vals, h`M
    ensures Scannable(h) && Read(h) == StampAt(c, old(Read(h)), x)
  {
    ScannableReads(h);
    hide KHash.Valid, KHash.Searchable, Represents, Distinct, Keyed;
    ghost var b := Read(h);
    StampReadable(c, b, x);
    h.SetValue(x, Stamp(c, h.vals[x]));
    assert Read(h).vals == b.vals[x := Stamp(c, b.vals[x])];
  }

  /** The next overdue instance from bucket `k` on, stamped with the time of the pass. */
  method Next(c: Clock, h: Table, k: nat) returns (x: nat, inst: Option<P.Instance>)
    requires Scannable(h) && k <= h.nBuckets == h.flags.Length == h.vals.Length == h.keys.Length
    modifies h.vals, h`M
    ensures Scannable(h)
    ensures var b := old(Read(h));
            && x == FirstDue(c, b.flags, b.vals, k)
            && (if x == |b.flags| then inst.None? && Read(h) == b
                else inst == Some(b.vals[x]) && Read(h) == StampAt(c, b, x))
  {
    hide Scannable, StampAt;
    x := NextTimedOut(c, h, k);
    inst := None;
    if x < h.nBuckets {
      inst := Some(h.vals[x]);
      StampBucket(c, h, x);
    }
  }

  /** The pass that began at `b0` has its cursor at `k` and has returned the instances `returned` of `iids`. */
  ghost predicate Running(c: Clock, b0: Buckets, h: Table, k: nat, iids: seq<nat>, returned: seq<P.Instance>)
    reads h, h.Repr
  {
    && Scannable(h)
    && h in h.Repr && h.flags in h.Repr && h.keys in h.Repr && h.vals in h.Repr
    && h.flags.Length == h.keys.Length == h.vals.Length == h.nBuckets
    && k <= h.nBuckets
    && InPass(c, b0, Read(h), k, iids)
    && P.Listed(iids, b0.m) && returned == Fetched(b0.m, iids)
  }

  method Step(c: Clock, h: Table, k: nat, iids: seq<nat>, returned: seq<P.Instance>, ghost b0: Buckets)
    returns (k': nat, iids': seq<nat>, returned': seq<P.Instance>, more: bool)
    requires Running(c, b0, h, k, iids, returned) && CanEnd(c, b0.m)
    modifies h.vals, h`M
    ensures Running(c, b0, h, k', iids', returned')
    ensures more ==> |iids| < |iids'| <= |b0.m|
    ensures !more ==> k' == h.nBuckets && iids' == iids
  {
    hide Scannable, InPass, FirstDue, StampAt, P.Listed, Fetched, CanEnd;
    PassGoesOn(c, b0, Read(h), k, iids);
    var x, inst := Next(c, h, k);
    if inst.None? {
      return x, iids, returned, false;
    }
    FetchedOneMore(b0.m, iids, h.keys[x]);
    k', iids', returned', more := x, iids + [h.keys[x]], returned + [inst.value], true;
    PassFits(c, b0, Read(h), k', iids');
  }

  lemma PassBegins(c: Clock, h: Table)
    requires Scannable(h)
    ensures h in h.Repr && h.vals in h.Repr
    ensures Running(c, Read(h), h, 0, [], [])
  {
    h.Arrays();
    h.Contents();
  }

  lemma PassDone(c: Clock, b0: Buckets, h: Table, iids: seq<nat>, returned: seq<P.Instance>)
    requires Running(c, b0, h, h.nBuckets, iids, returned)
    ensures Scannable(h) && P.IsScan(iids, OverdueKeys(c, b0.m)) && h.M == Stamped(c, b0.m, iids)
    ensures P.Listed(iids, b0.m) && returned == Fetched(b0.m, iids)
  {
    PassEnds(c, b0, Read(h), iids);
  }

  /** Calling `Next` until it finds nothing: one pass returns every overdue instance exactly once. */
  method Pass(c: Clock, h: Table) returns (iids: seq<nat>, returned: seq<P.Instance>)
    requires Scannable(h) && CanEnd(c, h.M)
    modifies h.Repr
    ensures Scannable(h) && h.Repr == old(h.Repr)
    ensures P.IsScan(iids, OverdueKeys(c, old(h.M)))
    ensures h.M == Stamped(c, old(h.M), iids)
    ensures P.Listed(iids, old(h.M)) && returned == Fetched(old(h.M), iids)
  {
    hide Running, Scannable, CanEnd, P.IsScan, P.Listed, Fetched, OverdueKeys, Stamped;
    PassBegins(c, h);
    ghost var b0 := Read(h);
    iids, returned := [], [];
    var k, more := 0, true;
    while more
      invariant Running(c, b0, h, k, iids, returned)
      invariant |iids| <= |b0.m| && (!more ==> k == h.nBuckets)
      modifies h.vals, h`M
      decreases |b0.m| - |iids|, more
    {
      k, iids, returned, more := Step(c, h, k, iids, returned, b0);
    }
    PassDone(c, b0, h, iids, returned);
  }
}
