/** A run of the counter in which a trim that is due is not sent: everybody has checkpointed instance 100 and
    replica 0 knows it, but its own report came last. */
module CounterLag {
  import opened PaxosTypes
  import opened CounterSpec
  import CP = CounterProofs

  ghost predicate Reachable(c: Cluster) {
    exists run :: IsRun(run) && run[|run| - 1] == c
  }

  lemma ReachNext(c: Cluster, e: Event, c': Cluster)
    requires Reachable(c) && Step(c, e, c')
    ensures Reachable(c')
  {
    var run :| IsRun(run) && run[|run| - 1] == c;
    var run' := run + [c'];
    assert Next(c, c');
    hide Next, Init;
    forall i | 0 <= i < |run'| - 1
      ensures Next(run'[i], run'[i + 1])
    {
      if i < |run| - 1 { assert Next(run[i], run[i + 1]); }
    }
    assert IsRun(run') && run'[|run'| - 1] == c';
  }

  function Counts(n: nat): seq<Entry> {
    seq(n, i => Count)
  }

  function Zeros(): seq<nat> {
    seq(MAX_REPLICAS, i => 0)
  }

  /** Replica `i` of two after delivering `k` counting entries; at 100 it has checkpointed. */
  function After(i: nat, k: nat): Replica {
    Replica(i, 2, k, k, 0, Zeros(), if k == CHECKPOINT_INTERVAL then Some(Checkpoint(k, k)) else None)
  }

  function Report(i: nat, k: nat): set<Entry> {
    if k == CHECKPOINT_INTERVAL then {Trim(i, k)} else {}
  }

  /** `n` entries have been chosen and the two replicas have delivered `k0` and `k1` of them. */
  function Counting(n: nat, k0: nat, k1: nat): Cluster {
    Cluster([After(0, k0), After(1, k1)], [k0 + 1, k1 + 1], Counts(n), Report(0, k0) + Report(1, k1), {})
  }

  lemma {:induction false} ChoosesCounts(n: nat)
    ensures Reachable(Counting(n, 0, 0))
  {
    var c := Counting(n, 0, 0);
    if n == 0 {
      assert Init(c);
      assert IsRun([c]) && [c][|[c]| - 1] == c;
    } else {
      ChoosesCounts(n - 1);
      assert Counts(n) == Counts(n - 1) + [Count];
      ReachNext(Counting(n - 1, 0, 0), Choose(Count), c);
    }
  }

  lemma CountsOne(i: nat, k: nat)
    requires k < CHECKPOINT_INTERVAL
    ensures Deliver(After(i, k), k + 1, Count) ==
            Delivery(After(i, k + 1), None, if k + 1 == CHECKPOINT_INTERVAL then Some(Trim(i, k + 1)) else None)
  {
  }

  lemma FirstCounts(k0: nat, k1: nat)
    requires k0 < CHECKPOINT_INTERVAL && k1 <= CHECKPOINT_INTERVAL
    ensures Step(Counting(CHECKPOINT_INTERVAL, k0, k1), DeliverTo(0), Counting(CHECKPOINT_INTERVAL, k0 + 1, k1))
  {
    var n := CHECKPOINT_INTERVAL;
    var c, c' := Counting(n, k0, k1), Counting(n, k0 + 1, k1);
    CountsOne(0, k0);
    assert c.replicas[0].replicas <= |c.replicas[0].instances|;
    hide Deliver, After;
    assert c.log[c.next[0] - 1] == Count;
    assert c'.replicas == c.replicas[0 := After(0, k0 + 1)] && c'.next == c.next[0 := k0 + 2];
    assert Report(0, k0) == {};
  }

  lemma SecondCounts(k0: nat, k1: nat)
    requires k0 <= CHECKPOINT_INTERVAL && k1 < CHECKPOINT_INTERVAL
    ensures Step(Counting(CHECKPOINT_INTERVAL, k0, k1), DeliverTo(1), Counting(CHECKPOINT_INTERVAL, k0, k1 + 1))
  {
    var n := CHECKPOINT_INTERVAL;
    var c, c' := Counting(n, k0, k1), Counting(n, k0, k1 + 1);
    CountsOne(1, k1);
    assert c.replicas[1].replicas <= |c.replicas[1].instances|;
    hide Deliver, After;
    assert c.log[c.next[1] - 1] == Count;
    assert c'.replicas == c.replicas[1 := After(1, k1 + 1)] && c'.next == c.next[1 := k1 + 2];
    assert Report(1, k1) == {};
  }

  lemma {:induction false} DeliversCounts(k0: nat, k1: nat)
    requires k0 <= CHECKPOINT_INTERVAL && k1 <= CHECKPOINT_INTERVAL
    ensures Reachable(Counting(CHECKPOINT_INTERVAL, k0, k1))
    decreases k0 + k1
  {
    hide Reachable, Step, Counting;
    var n := CHECKPOINT_INTERVAL;
    if k1 > 0 {
      DeliversCounts(k0, k1 - 1);
      SecondCounts(k0, k1 - 1);
      ReachNext(Counting(n, k0, k1 - 1), DeliverTo(1), Counting(n, k0, k1));
    } else if k0 > 0 {
      DeliversCounts(k0 - 1, k1);
      FirstCounts(k0 - 1, k1);
      ReachNext(Counting(n, k0 - 1, k1), DeliverTo(0), Counting(n, k0, k1));
    } else {
      ChoosesCounts(n);
    }
  }

  /** Replica `i` knows that everybody is past the last trim, and has not sent one. */
  ghost predicate Lags(c: Cluster, i: nat) {
    && i < |c.replicas| && c.trims == {}
    && var r := c.replicas[i];
       0 < r.replicas <= |r.instances| && Least(r.instances[0], r.instances[..r.replicas]) > r.lastTrim
  }

  /** Replica 0 takes in the two reports, its own last. */
  lemma TakesReports()
    ensures var r := After(0, 100);
            && Deliver(r, 101, Trim(1, 100)) == Delivery(r.(instances := Zeros()[1 := 100]), None, None)
            && Deliver(r.(instances := Zeros()[1 := 100]), 102, Trim(0, 100)) ==
               Delivery(r.(instances := Zeros()[1 := 100][0 := 100]), None, None)
  {
    assert Zeros()[1 := 100][..2] == [0, 100];
    assert Zeros()[1 := 100][0 := 100][..2] == [100, 100];
    assert Least(0, [0, 100]) == 0 && Least(0, [100, 100]) == 0;
  }

  lemma LagIsReachable()
    ensures exists c :: Reachable(c) && Lags(c, 0)
  {
    DeliversCounts(100, 100);
    TakesReports();
    var c := Counting(100, 100, 100);
    hide Reachable, Deliver;
    var c1 := c.(log := c.log + [Trim(1, 100)]);
    ReachNext(c, Choose(Trim(1, 100)), c1);
    var c2 := c1.(log := c1.log + [Trim(0, 100)]);
    ReachNext(c1, Choose(Trim(0, 100)), c2);
    var r := After(0, 100);
    var r3, r4 := r.(instances := Zeros()[1 := 100]), r.(instances := Zeros()[1 := 100][0 := 100]);
    var c3 := c2.(replicas := c2.replicas[0 := r3], next := c2.next[0 := 102]);
    assert c3.submitted == c2.submitted + {} && c3.trims == c2.trims + {};
    ReachNext(c2, DeliverTo(0), c3);
    var c4 := c3.(replicas := c3.replicas[0 := r4], next := c3.next[0 := 103]);
    assert c4.submitted == c3.submitted + {} && c4.trims == c3.trims + {};
    ReachNext(c3, DeliverTo(0), c4);
    assert r4.instances[..2] == [100, 100] && Least(100, [100, 100]) == 100;
    assert Lags(c4, 0);
  }
}
