/** The counter never trims too far, and counts every entry of the log once. */
module CounterProofs {
  import opened PaxosTypes
  import opened CounterSpec

  /** The entries that count among the first `n`. */
  function Counted(log: seq<Entry>, n: nat): nat
    requires n <= |log|
  {
    if n == 0 then 0 else Counted(log, n - 1) + if log[n - 1].Count? then 1 else 0
  }

  lemma {:induction false} CountedLonger(log: seq<Entry>, e: Entry, n: nat)
    requires n <= |log|
    ensures Counted(log + [e], n) == Counted(log, n)
  {
    if n > 0 { CountedLonger(log, e, n - 1); }
  }

  lemma {:induction false} OnlyTrims(log: seq<Entry>, n: nat, m: nat)
    requires n <= m <= |log| && forall k :: n <= k < m ==> log[k].Trim?
    ensures Counted(log, m) == Counted(log, n)
  {
    if n < m { OnlyTrims(log, n, m - 1); }
  }

  /** What a replica and its file say about the log up to the instance it delivers next. */
  ghost predicate ReplicaOk(r: Replica, next: nat, log: seq<Entry>) {
    && Checkpointed(r) <= r.instanceId < next <= |log| + 1
    && r.count == Counted(log, r.instanceId)
    && (forall k :: r.instanceId <= k < next - 1 ==> log[k].Trim?)
    && (r.file.Some? ==> r.file.value.count == Counted(log, r.file.value.instanceId))
  }

  ghost predicate SubmittedOk(e: Entry, replicas: seq<Replica>) {
    e.Trim? && e.id < |replicas| && e.iid <= Checkpointed(replicas[e.id])
  }

  /** What a replica knows of the others is not ahead of their checkpoints. */
  ghost predicate KnowsOk(r: Replica, replicas: seq<Replica>) {
    |replicas| <= |r.instances| && forall j :: 0 <= j < |replicas| ==> r.instances[j] <= Checkpointed(replicas[j])
  }

  ghost predicate TrimOk(t: nat, replicas: seq<Replica>) {
    forall j :: 0 <= j < |replicas| ==> t <= Checkpointed(replicas[j])
  }

  /** No known or sent iid is ahead of the checkpoint it is about. */
  ghost predicate Behind(c: Cluster) {
    && (forall e :: e in c.submitted ==> SubmittedOk(e, c.replicas))
    && (forall k :: 0 <= k < |c.log| && c.log[k].Trim? ==> c.log[k] in c.submitted)
    && AllKnowOk(c.replicas)
    && (forall t :: t in c.trims ==> TrimOk(t, c.replicas))
  }

  ghost predicate Inv(c: Cluster) {
    && Sized(c)
    && (forall i :: 0 <= i < |c.replicas| ==> ReplicaOk(c.replicas[i], c.next[i], c.log))
    && Behind(c)
  }

  ghost predicate SameShape(r: Replica, r': Replica) {
    r'.id == r.id && r'.replicas == r.replicas && |r'.instances| == |r.instances|
  }

  lemma DeliverKeepsReplica(r: Replica, next: nat, log: seq<Entry>)
    requires ReplicaOk(r, next, log) && 0 < next <= |log| && |r.instances| == MAX_REPLICAS
    requires r.replicas <= MAX_REPLICAS && (log[next - 1].Trim? ==> log[next - 1].id < MAX_REPLICAS)
    ensures var d := Deliver(r, next, log[next - 1]);
            && ReplicaOk(d.replica, next + 1, log)
            && Checkpointed(r) <= Checkpointed(d.replica)
            && (d.message.Some? ==> d.message.value == Trim(r.id, Checkpointed(d.replica)))
            && SameShape(r, d.replica)
  {
    OnlyTrims(log, r.instanceId, next - 1);
  }

  /** What a replica learns and sends from a TRIM is no more than what it and its fellows were told. */
  lemma TrimIsCautious(r: Replica, id: nat, iid: nat)
    requires id < r.replicas <= |r.instances|
    ensures var (r', trim) := UpdateTrimInfo(r, id, iid);
            && |r'.instances| == |r.instances|
            && (forall j :: 0 <= j < r.replicas ==> r'.instances[j] == r.instances[j] || (j == id && r'.instances[j] == iid))
            && (trim.Some? ==> forall j :: 0 <= j < r.replicas ==> trim.value <= r'.instances[j])
            && (trim.Some? ==> trim.value > r.lastTrim && r'.lastTrim == trim.value)
  {
    var known := r.instances[id := iid][..r.replicas];
    assert forall j :: 0 <= j < r.replicas ==> known[j] == r.instances[id := iid][j];
  }

  lemma ChooseKeepsInv(c: Cluster, v: Entry, c': Cluster)
    requires Inv(c) && Step(c, Choose(v), c')
    ensures Inv(c')
  {
    forall i | 0 <= i < |c.replicas|
      ensures ReplicaOk(c'.replicas[i], c'.next[i], c'.log)
    {
      var r := c.replicas[i];
      assert ReplicaOk(r, c.next[i], c.log);
      CountedLonger(c.log, v, r.instanceId);
      CountedLonger(c.log, v, Checkpointed(r));
    }
  }

  lemma DeliverIsCautious(r: Replica, iid: nat, e: Entry)
    requires r.replicas <= |r.instances| && (e.Trim? ==> e.id < r.replicas)
    ensures var d := Deliver(r, iid, e);
            && |d.replica.instances| == |r.instances|
            && (forall j :: 0 <= j < r.replicas ==>
                  || d.replica.instances[j] == r.instances[j]
                  || (e.Trim? && j == e.id && d.replica.instances[j] == e.iid))
            && (d.trim.Some? ==> forall j :: 0 <= j < r.replicas ==> d.trim.value <= d.replica.instances[j])
  {
    if e.Trim? {
      TrimIsCautious(r, e.id, e.iid);
    }
  }

  /** Checkpoints only move forward, so what was behind them stays behind. */
  ghost predicate Forward(replicas: seq<Replica>, replicas': seq<Replica>) {
    |replicas'| == |replicas| &&
    forall j :: 0 <= j < |replicas| ==> Checkpointed(replicas[j]) <= Checkpointed(replicas'[j])
  }

  lemma TrimsStayBehind(trims: set<nat>, more: set<nat>, replicas: seq<Replica>, replicas': seq<Replica>)
    requires Forward(replicas, replicas') && forall t :: t in trims ==> TrimOk(t, replicas)
    requires forall t :: t in more ==> TrimOk(t, replicas')
    ensures forall t :: t in trims + more ==> TrimOk(t, replicas')
  {
    forall t | t in trims
      ensures TrimOk(t, replicas')
    {
      assert TrimOk(t, replicas);
    }
  }

  lemma SubmittedStaysBehind(sent: set<Entry>, more: set<Entry>, replicas: seq<Replica>, replicas': seq<Replica>)
    requires Forward(replicas, replicas') && forall e :: e in sent ==> SubmittedOk(e, replicas)
    requires forall e :: e in more ==> SubmittedOk(e, replicas')
    ensures forall e :: e in sent + more ==> SubmittedOk(e, replicas')
  {
    forall e | e in sent
      ensures SubmittedOk(e, replicas')
    {
      assert SubmittedOk(e, replicas);
    }
  }

  /** A replica that has delivered an entry which was behind still knows nothing that is ahead. */
  lemma KnowsStillBehind(r: Replica, iid: nat, v: Entry, replicas: seq<Replica>, replicas': seq<Replica>)
    requires KnowsOk(r, replicas) && Forward(replicas, replicas') && r.replicas == |replicas|
    requires v.Trim? ==> SubmittedOk(v, replicas)
    ensures var d := Deliver(r, iid, v);
            KnowsOk(d.replica, replicas') && forall t :: t in SetOf(d.trim) ==> TrimOk(t, replicas')
  {
    DeliverIsCautious(r, iid, v);
    hide Deliver;
  }

  ghost predicate AllKnowOk(replicas: seq<Replica>) {
    forall i :: 0 <= i < |replicas| ==> KnowsOk(replicas[i], replicas)
  }

  lemma OthersKnow(replicas: seq<Replica>, i: nat, r': Replica)
    requires i < |replicas| && Forward(replicas, replicas[i := r'])
    requires AllKnowOk(replicas) && KnowsOk(r', replicas[i := r'])
    ensures AllKnowOk(replicas[i := r'])
  {
    forall j | 0 <= j < |replicas| && j != i
      ensures KnowsOk(replicas[j], replicas[i := r'])
    {
      assert KnowsOk(replicas[j], replicas);
    }
  }

  lemma EntryBehind(c: Cluster, k: nat)
    requires Inv(c) && k < |c.log| && c.log[k].Trim?
    ensures SubmittedOk(c.log[k], c.replicas) && c.log[k].id < |c.replicas|
  {
  }

  lemma ReplicaFacts(c: Cluster, i: nat)
    requires Inv(c) && i < |c.replicas|
    ensures |c.next| == |c.replicas| <= MAX_REPLICAS
    ensures ReplicaOk(c.replicas[i], c.next[i], c.log) && KnowsOk(c.replicas[i], c.replicas)
    ensures c.replicas[i].id == i && c.replicas[i].replicas == |c.replicas| && |c.replicas[i].instances| == MAX_REPLICAS
  {
  }

  lemma StepDelivers(c: Cluster, i: nat, c': Cluster)
    requires Sized(c) && Step(c, DeliverTo(i), c')
    ensures i < |c.replicas| && 0 < c.next[i] <= |c.log|
    ensures var r, v := c.replicas[i], c.log[c.next[i] - 1];
            && (v.Trim? ==> v.id < |r.instances|)
            && var d := Deliver(r, c.next[i], v);
               c' == c.(replicas := c.replicas[i := d.replica], next := c.next[i := c.next[i] + 1],
                        submitted := c.submitted + SetOf(d.message), trims := c.trims + SetOf(d.trim))
  {
  }

  /** What one delivery does. */
  lemma Delivered(c: Cluster, i: nat, r: Replica, v: Entry)
    requires Inv(c) && i < |c.replicas| == |c.next| && 0 < c.next[i] <= |c.log|
    requires r == c.replicas[i] && v == c.log[c.next[i] - 1]
    ensures r.replicas == |c.replicas| <= |r.instances|
    ensures v.Trim? ==> SubmittedOk(v, c.replicas) && v.id < |c.replicas|
    ensures KnowsOk(r, c.replicas)
    ensures ReplicaOk(Deliver(r, c.next[i], v).replica, c.next[i] + 1, c.log)
    ensures Checkpointed(r) <= Checkpointed(Deliver(r, c.next[i], v).replica)
    ensures var d := Deliver(r, c.next[i], v);
            d.message.Some? ==> d.message.value == Trim(i, Checkpointed(d.replica))
    ensures SameShape(r, Deliver(r, c.next[i], v).replica)
  {
    hide Inv, Deliver, ReplicaOk, KnowsOk, SubmittedOk, SameShape, Checkpointed;
    ReplicaFacts(c, i);
    if v.Trim? { EntryBehind(c, c.next[i] - 1); }
    DeliverKeepsReplica(r, c.next[i], c.log);
  }

  lemma DeliverKeepsInv(c: Cluster, i: nat, c': Cluster)
    requires Inv(c) && Step(c, DeliverTo(i), c')
    ensures Inv(c')
  {
    hide Step, Deliver;
    StepDelivers(c, i, c');
    var v := c.log[c.next[i] - 1];
    Delivered(c, i, c.replicas[i], v);
    var d := Deliver(c.replicas[i], c.next[i], v);
    hide ReplicaOk, KnowsOk, TrimOk;
    assert Forward(c.replicas, c'.replicas);
    hide Forward;
    KnowsStillBehind(c.replicas[i], c.next[i], v, c.replicas, c'.replicas);
    OthersKnow(c.replicas, i, d.replica);
    TrimsStayBehind(c.trims, SetOf(d.trim), c.replicas, c'.replicas);
    assert forall e :: e in SetOf(d.message) ==> SubmittedOk(e, c'.replicas);
    SubmittedStaysBehind(c.submitted, SetOf(d.message), c.replicas, c'.replicas);
  }

  lemma RestartKeepsInv(c: Cluster, i: nat, c': Cluster)
    requires Inv(c) && Step(c, Restart(i), c')
    ensures Inv(c')
  {
    ReplicaFacts(c, i);
    var r' := Start(i, |c.replicas|, c.replicas[i].file);
    assert Checkpointed(r') == Checkpointed(c.replicas[i]);
    assert ReplicaOk(r', Checkpointed(r') + 1, c.log) && KnowsOk(r', c.replicas);
    hide ReplicaOk, Start;
  }

  lemma {:induction false} RunInv(run: seq<Cluster>, k: nat)
    requires IsRun(run) && k < |run|
    ensures Inv(run[k])
  {
    if k > 0 {
      RunInv(run, k - 1);
      assert Next(run[k - 1], run[k - 1 + 1]);
      hide Inv;
      var e :| Step(run[k - 1], e, run[k - 1 + 1]);
      match e
      case Choose(v) => ChooseKeepsInv(run[k - 1], v, run[k]);
      case DeliverTo(i) => DeliverKeepsInv(run[k - 1], i, run[k]);
      case Restart(i) => RestartKeepsInv(run[k - 1], i, run[k]);
    }
  }

  /** No trim ever sent reaches an instance some replica could still need: not the ones after any checkpoint,
      where a replica resumes, and not the next one any replica is about to deliver. */
  lemma NeverTrimsTooFar(run: seq<Cluster>, k: nat, t: nat, i: nat)
    requires IsRun(run) && k < |run| && t in run[k].trims && i < |run[k].replicas|
    ensures t <= Checkpointed(run[k].replicas[i])
    ensures i < |run[k].next| && t < run[k].next[i]
  {
    RunInv(run, k);
    hide IsRun;
    assert ReplicaOk(run[k].replicas[i], run[k].next[i], run[k].log);
  }

  /** However often a replica crashed and replayed, it has counted every entry up to its position exactly once. */
  lemma CountsExactlyOnce(run: seq<Cluster>, k: nat, i: nat)
    requires IsRun(run) && k < |run| && i < |run[k].replicas|
    ensures i < |run[k].next| && 0 < run[k].next[i] <= |run[k].log| + 1
    ensures run[k].replicas[i].count == Counted(run[k].log, run[k].next[i] - 1)
  {
    hide IsRun, Inv;
    RunInv(run, k);
    ReplicaFacts(run[k], i);
    var r := run[k].replicas[i];
    OnlyTrims(run[k].log, r.instanceId, run[k].next[i] - 1);
  }

  /** What a replica knows to have been checkpointed by all, once a report has been taken in. */
  function KnownByAll(r: Replica, id: nat, iid: nat): nat
    requires id < r.replicas <= |r.instances|
  {
    var known := if iid > r.instances[id] then r.instances[id := iid] else r.instances;
    Least(known[0], known[..r.replicas])
  }

  /** The trim a report calls for: what is known by all, if that is news. */
  function Due(r: Replica, id: nat, iid: nat): Option<nat>
    requires id < r.replicas <= |r.instances|
  {
    if KnownByAll(r, id, iid) > r.lastTrim then Some(KnownByAll(r, id, iid)) else None
  }

  /** The minimum starts from the first entry as it was before the update. So the trim that is due is not sent
      exactly when replica 0 reports while it alone was the lowest and everybody else is past the last trim, or
      when a report brings nothing new and such a trim is still waiting. */
  lemma TrimLagsExactlyThen(r: Replica, id: nat, iid: nat)
    requires id < r.replicas <= |r.instances|
    ensures UpdateTrimInfo(r, id, iid).1 != Due(r, id, iid) <==>
              if iid > r.instances[id] then FirstWasLowest(r, id, iid)
              else forall j :: 0 <= j < r.replicas ==> r.instances[j] > r.lastTrim
    ensures UpdateTrimInfo(r, id, iid).1.Some? ==>
              Due(r, id, iid).Some? && UpdateTrimInfo(r, id, iid).1.value <= Due(r, id, iid).value
  {
    if iid > r.instances[id] {
      FreshMinima(r, id, iid);
    } else {
      var front := r.instances[..r.replicas];
      LeastAbove(r.instances[0], front, r.lastTrim);
      assert forall j :: 0 <= j < r.replicas ==> front[j] == r.instances[j];
    }
    hide Least, FirstWasLowest;
  }

  /** Replica 0 alone was the lowest, and all are past the last trim once it has reported. */
  ghost predicate FirstWasLowest(r: Replica, id: nat, iid: nat)
    requires r.replicas <= |r.instances|
  {
    && id == 0 && iid > r.lastTrim
    && forall j :: 1 <= j < r.replicas ==> r.instances[j] > r.instances[0] && r.instances[j] > r.lastTrim
  }

  /** The minimum `update_trim_info` takes and the one that is due. */
  lemma FreshMinima(r: Replica, id: nat, iid: nat)
    requires id < r.replicas <= |r.instances| && iid > r.instances[id]
    ensures var known := r.instances[id := iid];
            var taken, due := Least(r.instances[0], known[..r.replicas]), Least(known[0], known[..r.replicas]);
            && taken <= due
            && (taken != due && due > r.lastTrim <==> FirstWasLowest(r, id, iid))
  {
    var known := r.instances[id := iid];
    var front := known[..r.replicas];
    LeastAbove(known[0], front, r.lastTrim);
    StartsLower(r.instances[0], known[0], front);
    hide Least;
    assert front[0] == known[0];
    if id == 0 {
      assert forall j :: 1 <= j < r.replicas ==> r.instances[j] == front[j];
    }
  }

  lemma LeastAbove(start: nat, s: seq<nat>, x: nat)
    ensures Least(start, s) > x <==> start > x && forall j :: 0 <= j < |s| ==> s[j] > x
  {
  }

  /** Starting lower than the first entry makes a difference exactly when the start is below every entry. */
  lemma StartsLower(start: nat, first: nat, s: seq<nat>)
    requires start <= first && s != [] && s[0] == first
    ensures Least(start, s) <= Least(first, s)
    ensures Least(start, s) != Least(first, s) <==> forall j :: 0 <= j < |s| ==> s[j] > start
  {
    if j :| 0 <= j < |s| && s[j] <= start {
      assert Least(start, s) <= s[j];
      assert Least(start, s) in s;
    } else {
      LeastAbove(first, s, start);
    }
  }

  /** Three replicas, all known to have checkpointed 200 once replica 0 reports 300: nothing is sent. */
  lemma TrimLagsWitness()
    ensures var r := Replica(1, 3, 0, 0, 0, [0, 200, 200] + seq(13, i => 0), None);
            UpdateTrimInfo(r, 0, 300).1 == None && Due(r, 0, 300) == Some(200)
  {
    var r := Replica(1, 3, 0, 0, 0, [0, 200, 200] + seq(13, i => 0), None);
    TrimLagsExactlyThen(r, 0, 300);
    var known := r.instances[0 := 300];
    assert known[..r.replicas] == [300, 200, 200];
    assert Least(300, [300, 200, 200]) == 200;
  }

  // ---- What a replica learns ----

  function Higher(a: nat, b: nat): nat {
    if a < b then b else a
  }

  /** A TRIM raises what is known of its sender to what it says, if that is news, and nothing else changes but the
      last trim, which is the one just sent. */
  lemma TrimIsRecorded(r: Replica, id: nat, iid: nat)
    requires id < |r.instances| && r.replicas <= |r.instances|
    ensures var (r', trim) := UpdateTrimInfo(r, id, iid);
            r' == r.(instances := r.instances[id := Higher(r.instances[id], iid)],
                     lastTrim := if trim.Some? then trim.value else r.lastTrim)
  {
    assert iid <= r.instances[id] ==> r.instances[id := r.instances[id]] == r.instances;
  }

  ghost predicate TrimsFit(log: seq<Entry>, size: nat) {
    forall k :: 0 <= k < |log| && log[k].Trim? ==> log[k].id < size
  }

  /** The replica after it has delivered the entries from `lo` up to `hi`. */
  function Replayed(r: Replica, log: seq<Entry>, lo: nat, hi: nat): (r': Replica)
    requires lo <= hi <= |log| && r.replicas <= |r.instances| && TrimsFit(log, |r.instances|)
    ensures |r'.instances| == |r.instances| && r'.replicas == r.replicas && r'.id == r.id
    decreases hi
  {
    if hi == lo then r
    else Deliver(Replayed(r, log, lo, hi - 1), hi, log[hi - 1]).replica
  }

  /** The highest instance that a TRIM of `j` from `lo` up to `hi` names, and at least `known`. */
  function Reported(log: seq<Entry>, lo: nat, hi: nat, j: nat, known: nat): nat
    requires lo <= hi <= |log|
    decreases hi
  {
    if hi == lo then known
    else
      var before := Reported(log, lo, hi - 1, j, known);
      if log[hi - 1].Trim? && log[hi - 1].id == j then Higher(before, log[hi - 1].iid) else before
  }

  lemma ReplayedLast(r: Replica, log: seq<Entry>, lo: nat, hi: nat)
    requires lo < hi <= |log| && r.replicas <= |r.instances| && TrimsFit(log, |r.instances|)
    ensures log[hi - 1].Trim? ==> log[hi - 1].id < |Replayed(r, log, lo, hi - 1).instances|
    ensures Replayed(r, log, lo, hi) == Deliver(Replayed(r, log, lo, hi - 1), hi, log[hi - 1]).replica
  {
  }

  lemma DeliveryIsRecorded(r: Replica, iid: nat, e: Entry, j: nat)
    requires r.replicas <= |r.instances| && (e.Trim? ==> e.id < |r.instances|) && j < |r.instances|
    ensures var r' := Deliver(r, iid, e).replica;
            && |r'.instances| == |r.instances| && r'.replicas == r.replicas && r'.id == r.id
            && r'.instances[j] == if e.Trim? && e.id == j then Higher(r.instances[j], e.iid) else r.instances[j]
  {
    if e.Trim? { TrimIsRecorded(r, e.id, e.iid); }
  }

  /** What a replica knows of the others is exactly the highest that the TRIMs it delivered say. */
  lemma {:induction false} KnowsWhatWasReported(r: Replica, log: seq<Entry>, lo: nat, hi: nat, j: nat)
    requires lo <= hi <= |log| && r.replicas <= |r.instances| && TrimsFit(log, |r.instances|) && j < |r.instances|
    ensures Replayed(r, log, lo, hi).instances[j] == Reported(log, lo, hi, j, r.instances[j])
    decreases hi
  {
    if lo < hi {
      ReplayedLast(r, log, lo, hi);
      assert log[hi - 1].Trim? ==> log[hi - 1].id < |r.instances|;
      hide Replayed, Deliver, Higher;
      KnowsWhatWasReported(r, log, lo, hi - 1, j);
      DeliveryIsRecorded(Replayed(r, log, lo, hi - 1), hi, log[hi - 1], j);
    }
  }

  // ---- How far behind a file can be ----

  function FileCount(r: Replica): nat {
    if r.file.Some? then r.file.value.count else 0
  }

  /** The file lacks no more than the entries since the last hundred, and what it says was submitted. */
  ghost predicate FileIsFresh(r: Replica, next: nat, submitted: set<Entry>) {
    && next > 0 && FileCount(r) <= r.count <= FileCount(r) + (next - 1) % CHECKPOINT_INTERVAL
    && (r.file.Some? ==> Trim(r.id, Checkpointed(r)) in submitted)
  }

  ghost predicate FilesFresh(c: Cluster) {
    |c.next| == |c.replicas| && forall i :: 0 <= i < |c.replicas| ==> FileIsFresh(c.replicas[i], c.next[i], c.submitted)
  }

  lemma DeliverKeepsFresh(r: Replica, next: nat, e: Entry, submitted: set<Entry>)
    requires FileIsFresh(r, next, submitted) && r.replicas <= |r.instances| && (e.Trim? ==> e.id < |r.instances|)
    ensures var d := Deliver(r, next, e); FileIsFresh(d.replica, next + 1, submitted + SetOf(d.message))
  {
    var d := Deliver(r, next, e);
    assert next % CHECKPOINT_INTERVAL == 0 || next % CHECKPOINT_INTERVAL == (next - 1) % CHECKPOINT_INTERVAL + 1;
    if e.Trim? { TrimIsRecorded(r, e.id, e.iid); }
  }

  lemma StepKeepsFresh(c: Cluster, e: Event, c': Cluster)
    requires FilesFresh(c) && Step(c, e, c')
    ensures FilesFresh(c')
  {
    if e.DeliverTo? {
      DeliverKeepsFresh(c.replicas[e.i], c.next[e.i], c.log[c.next[e.i] - 1], c.submitted);
    } else if e.Restart? {
      RestartIsFresh(c.replicas[e.i], c.next[e.i], c.submitted);
    }
    hide Deliver, Start, FileIsFresh;
    forall i | 0 <= i < |c'.replicas|
      ensures FileIsFresh(c'.replicas[i], c'.next[i], c'.submitted)
    {
      StaysFresh(c.replicas[i], c.next[i], c.submitted, c'.submitted);
    }
  }

  lemma RestartIsFresh(r: Replica, next: nat, submitted: set<Entry>)
    requires FileIsFresh(r, next, submitted)
    ensures FileIsFresh(Start(r.id, r.replicas, r.file), Checkpointed(r) + 1, submitted)
  {
  }

  lemma StaysFresh(r: Replica, next: nat, submitted: set<Entry>, more: set<Entry>)
    requires FileIsFresh(r, next, submitted) && submitted <= more
    ensures FileIsFresh(r, next, more)
  {
  }

  /** In every run, a crash makes a replica forget fewer entries than the checkpoint interval, and every checkpoint
      was announced to the others. */
  lemma {:induction false} CrashLosesLittle(run: seq<Cluster>, k: nat, i: nat)
    requires IsRun(run) && k < |run| && i < |run[k].replicas|
    ensures FilesFresh(run[k])
    ensures var r := run[k].replicas[i];
            && FileCount(r) <= r.count < FileCount(r) + CHECKPOINT_INTERVAL
            && Start(r.id, r.replicas, r.file).count == FileCount(r)
            && (r.file.Some? ==> Trim(r.id, Checkpointed(r)) in run[k].submitted)
  {
    FreshInRun(run, k);
    assert FileIsFresh(run[k].replicas[i], run[k].next[i], run[k].submitted);
  }

  lemma {:induction false} FreshInRun(run: seq<Cluster>, k: nat)
    requires IsRun(run) && k < |run|
    ensures FilesFresh(run[k])
  {
    if k > 0 {
      FreshInRun(run, k - 1);
      assert Next(run[k - 1], run[k - 1 + 1]);
      hide FilesFresh;
      var e :| Step(run[k - 1], e, run[k - 1 + 1]);
      StepKeepsFresh(run[k - 1], e, run[k]);
    }
  }
}
