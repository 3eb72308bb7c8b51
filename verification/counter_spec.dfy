/** The replicated counter (sample/counter.c): counting, checkpoints and the trimming rule, over one agreed log. */
module CounterSpec {
  import opened PaxosTypes

  /** A delivered value: a "TRIM id iid" message, or anything else, which counts. */
  datatype Entry = Count | Trim(id: nat, iid: nat)

  /** What a state file holds. */
  datatype Checkpoint = Checkpoint(count: nat, instanceId: nat)

  const MAX_REPLICAS: nat := 16
  const CHECKPOINT_INTERVAL: nat := 100

  /** `instances` is what each replica is known to have checkpointed; `file` survives a crash. */
  datatype Replica = Replica(
    id: nat,
    replicas: nat,
    count: nat,
    instanceId: nat,
    lastTrim: nat,
    instances: seq<nat>,
    file: Option<Checkpoint>)

  function Least(start: nat, s: seq<nat>): (m: nat)
    ensures m <= start && forall i :: 0 <= i < |s| ==> m <= s[i]
    ensures m == start || m in s
  {
    if s == [] then start
    else
      var m := Least(start, s[..|s| - 1]);
      if s[|s| - 1] < m then s[|s| - 1] else m
  }

  /** `update_trim_info`. The minimum starts from the first entry as it was before the update. */
  function UpdateTrimInfo(r: Replica, id: nat, iid: nat): (Replica, Option<nat>)
    requires id < |r.instances| && r.replicas <= |r.instances|
  {
    if iid <= r.instances[id] then (r, None)
    else
      var instances := r.instances[id := iid];
      var min := Least(r.instances[0], instances[..r.replicas]);
      if min > r.lastTrim
      then (r.(instances := instances, lastTrim := min), Some(min))
      else (r.(instances := instances), None)
  }

  /** What a delivery does: the new state, the trim sent to the acceptors and the TRIM submitted to the log. */
  datatype Delivery = Delivery(replica: Replica, trim: Option<nat>, message: Option<Entry>)

  /** `on_deliver`. */
  function Deliver(r: Replica, iid: nat, e: Entry): Delivery
    requires e.Trim? ==> e.id < |r.instances|
    requires r.replicas <= |r.instances|
  {
    var (r1, trim) := match e
                      case Trim(id, t) => UpdateTrimInfo(r, id, t)
                      case Count => (r.(count := r.count + 1, instanceId := iid), None);
    if iid % CHECKPOINT_INTERVAL == 0
    then Delivery(r1.(file := Some(Checkpoint(r1.count, r1.instanceId))), trim, Some(Trim(r1.id, r1.instanceId)))
    else Delivery(r1, trim, None)
  }

  /** A replica that starts, for the first time or again after a crash: it knows what its file says. */
  function Start(id: nat, replicas: nat, file: Option<Checkpoint>): Replica {
    Replica(id, replicas,
            if file.Some? then file.value.count else 0,
            if file.Some? then file.value.instanceId else 0,
            0, seq(MAX_REPLICAS, i => 0), file)
  }

  function Checkpointed(r: Replica): nat {
    if r.file.Some? then r.file.value.instanceId else 0
  }

  // ---- All replicas ----

  /** `next[i]` is the instance replica `i` delivers next; `submitted` and `trims` is all that was ever sent. */
  datatype Cluster = Cluster(
    replicas: seq<Replica>,
    next: seq<nat>,
    log: seq<Entry>,
    submitted: set<Entry>,
    trims: set<nat>)

  datatype Event = Choose(e: Entry) | DeliverTo(i: nat) | Restart(i: nat)

  ghost predicate Sized(c: Cluster) {
    && 0 < |c.replicas| <= MAX_REPLICAS && |c.next| == |c.replicas|
    && forall i :: 0 <= i < |c.replicas| ==>
         c.replicas[i].id == i && c.replicas[i].replicas == |c.replicas| && |c.replicas[i].instances| == MAX_REPLICAS
  }

  ghost predicate Init(c: Cluster) {
    && Sized(c)
    && (forall i :: 0 <= i < |c.replicas| ==> c.replicas[i] == Start(i, |c.replicas|, None) && c.next[i] == 1)
    && c.log == [] && c.submitted == {} && c.trims == {}
  }

  function SetOf<T>(o: Option<T>): set<T> {
    if o.Some? then {o.value} else {}
  }

  ghost predicate Step(c: Cluster, e: Event, c': Cluster) {
    match e
    case Choose(v) =>
      // a chosen TRIM was submitted by a replica
      && (v.Trim? ==> v in c.submitted) && c' == c.(log := c.log + [v])
    case DeliverTo(i) =>
      && i < |c.replicas| && i < |c.next| && 0 < c.next[i] <= |c.log|
      && var r, v := c.replicas[i], c.log[c.next[i] - 1];
         (v.Trim? ==> v.id < |r.instances|) && r.replicas <= |r.instances| &&
         var d := Deliver(r, c.next[i], v);
         c' == c.(replicas := c.replicas[i := d.replica], next := c.next[i := c.next[i] + 1],
                  submitted := c.submitted + SetOf(d.message), trims := c.trims + SetOf(d.trim))
    case Restart(i) =>
      && i < |c.replicas| && i < |c.next|
      && var r := c.replicas[i];
         c' == c.(replicas := c.replicas[i := Start(r.id, r.replicas, r.file)],
                  next := c.next[i := Checkpointed(r) + 1])
  }

  ghost predicate Next(c: Cluster, c': Cluster) {
    exists e :: Step(c, e, c')
  }

  ghost predicate IsRun(run: seq<Cluster>) {
    && |run| > 0 && Init(run[0])
    && forall i :: 0 <= i < |run| - 1 ==> Next(run[i], run[i + 1])
  }
}
