/** A replica of the counter (sample/counter.c), updated in place. */
module Counters {
  import opened PaxosTypes
  import C = CounterSpec

  class Replica {
    const id: nat
    const replicas: nat
    var count: nat
    var instanceId: nat
    var lastTrim: nat
    const instances: array<nat>
    var file: Option<C.Checkpoint>

    ghost predicate Valid() {
      instances.Length == C.MAX_REPLICAS && replicas <= C.MAX_REPLICAS
    }

    ghost function State(): C.Replica
      reads this, instances
    {
      C.Replica(id, replicas, count, instanceId, lastTrim, instances[..], file)
    }

    /** `start_replica` with `init_state`: what a state file says is where it resumes. */
    constructor (id: nat, replicas: nat, file: Option<C.Checkpoint>)
      requires replicas <= C.MAX_REPLICAS
      ensures Valid() && fresh(instances) && State() == C.Start(id, replicas, file)
    {
      this.id, this.replicas, this.file := id, replicas, file;
      count, instanceId, lastTrim := 0, 0, 0;
      if file.Some? {
        count, instanceId := file.value.count, file.value.instanceId;
      }
      instances := new nat[C.MAX_REPLICAS](_ => 0);
      new;
      assert instances[..] == C.Start(id, replicas, file).instances;
    }

    /** Returns the trim to send to the acceptors, if there is one. */
    method UpdateTrimInfo(replicaId: nat, trimId: nat) returns (trim: Option<nat>)
      requires Valid() && replicaId < C.MAX_REPLICAS
      modifies this`lastTrim, instances
      ensures (State(), trim) == C.UpdateTrimInfo(old(State()), replicaId, trimId)
    {
      ghost var before := State();
      if trimId <= instances[replicaId] {
        return None;
      }
      var min := instances[0];
      instances[replicaId] := trimId;
      ghost var known := before.instances[replicaId := trimId];
      assert instances[..] == known;
      for i := 0 to replicas
        invariant min == C.Least(before.instances[0], known[..i])
      {
        assert known[..i + 1][..i] == known[..i];
        if instances[i] < min {
          min := instances[i];
        }
      }
      if min > lastTrim {
        lastTrim := min;
        return Some(min);
      }
      return None;
    }

    /** Returns the trim sent and the TRIM message submitted. */
    method OnDeliver(iid: nat, e: C.Entry) returns (trim: Option<nat>, message: Option<C.Entry>)
      requires Valid() && (e.Trim? ==> e.id < C.MAX_REPLICAS)
      modifies this`count, this`instanceId, this`lastTrim, this`file, instances
      ensures C.Delivery(State(), trim, message) == C.Deliver(old(State()), iid, e)
    {
      trim, message := None, None;
      match e {
        case Trim(replicaId, trimId) =>
          trim := UpdateTrimInfo(replicaId, trimId);
        case Count =>
          count, instanceId := count + 1, iid;
      }
      if iid % C.CHECKPOINT_INTERVAL == 0 {
        file := Some(C.Checkpoint(count, instanceId));
        message := Some(C.Trim(id, instanceId));
      }
    }
  }
}
