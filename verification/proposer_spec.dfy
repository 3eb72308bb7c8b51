/** What each proposer operation does to the proposer's state, tables read as finite maps (proposer.c). */
module ProposerSpec {
  import opened PaxosTypes

  datatype Instance = Instance(
    iid: nat,
    ballot: nat,
    value: Option<Value>,
    promisedValue: Option<Value>,
    valueBallot: nat,
    quorum: set<nat>,
    createdAt: int)

  datatype Proposer = Proposer(
    id: nat,
    acceptors: nat,
    values: seq<Value>,
    maxTrimIid: nat,
    nextPrepareIid: nat,
    prepares: map<nat, Instance>,
    accepts: map<nat, Instance>)

  function NextBallot(id: nat, b: nat): nat {
    if b > 0 then MAX_N_OF_PROPOSERS + b else MAX_N_OF_PROPOSERS + id
  }

  function Preempt(id: nat, inst: Instance, now: int): Instance {
    inst.(ballot := NextBallot(id, inst.ballot), valueBallot := 0, promisedValue := None,
          quorum := {}, createdAt := now)
  }

  predicate QuorumReached(acceptors: nat, inst: Instance) {
    |inst.quorum| >= Majority(acceptors)
  }

  /** The value an Accept for this instance carries: a promised one wins over the client's. */
  function AcceptValue(inst: Instance): Value
    requires HasSomeValue(inst)
  {
    if inst.promisedValue.Some? then inst.promisedValue.value else inst.value.value
  }

  function ToAccept(inst: Instance): Message
    requires HasSomeValue(inst)
  {
    Accept(inst.iid, inst.ballot, AcceptValue(inst))
  }

  predicate HasSomeValue(inst: Instance) {
    inst.value.Some? || inst.promisedValue.Some?
  }

  /** Tables are disjoint, keyed by their instances and never ahead of `nextPrepareIid`; every instance
      being accepted has a value. With this none of the source's asserts can fail. */
  ghost predicate TablesOk(p: Proposer) {
    && p.prepares.Keys !! p.accepts.Keys
    && (forall iid :: iid in p.prepares ==> p.prepares[iid].iid == iid && 0 < iid <= p.nextPrepareIid)
    && (forall iid :: iid in p.accepts ==> p.accepts[iid].iid == iid && 0 < iid <= p.nextPrepareIid)
    && (forall iid :: iid in p.accepts ==> HasSomeValue(p.accepts[iid]))
  }

  function Propose(p: Proposer, v: Value): Proposer {
    p.(values := p.values + [v])
  }

  function NewInstance(p: Proposer, now: int): Instance {
    Instance(p.nextPrepareIid + 1, NextBallot(p.id, 0), None, None, 0, {}, now)
  }

  function OpenInstance(p: Proposer, now: int): (Proposer, Message) {
    var inst := NewInstance(p, now);
    (p.(nextPrepareIid := inst.iid, prepares := p.prepares[inst.iid := inst]),
     Prepare(inst.iid, inst.ballot))
  }

  /** Counting one promise at the instance's own ballot. */
  function CountPromise(inst: Instance, valueBallot: nat, value: Value, from: nat): Instance {
    var counted := inst.(quorum := inst.quorum + {from});
    if |value| > 0 && valueBallot > inst.valueBallot
    then counted.(valueBallot := valueBallot, promisedValue := Some(value))
    else counted
  }

  function ReceivePromise(p: Proposer, m: Message, from: nat, now: int): (Proposer, Option<Message>)
    requires m.Promise?
  {
    if m.iid !in p.prepares then (p, None)
    else
      var inst := p.prepares[m.iid];
      if m.ballot < inst.ballot then (p, None)
      else if m.ballot > inst.ballot then
        var inst' := Preempt(p.id, inst, now);
        (p.(prepares := p.prepares[m.iid := inst']), Some(Prepare(inst'.iid, inst'.ballot)))
      else if from in inst.quorum then (p, None)
      else (p.(prepares := p.prepares[m.iid := CountPromise(inst, m.valueBallot, m.value, from)]), None)
  }

  /** Accepting for `inst`, which has a quorum: it takes a client value if it has none of its own. */
  function AcceptWith(p: Proposer, iid: nat, inst: Instance): (Proposer, Option<Message>) {
    var pops := inst.value.None? && p.values != [];
    var inst' := if pops then inst.(value := Some(p.values[0])) else inst;
    var values' := if pops then p.values[1..] else p.values;
    if !HasSomeValue(inst') then (p, None)
    else
      (p.(values := values', prepares := p.prepares - {iid},
          accepts := p.accepts[iid := inst'.(quorum := {})]),
       Some(ToAccept(inst')))
  }

  /** One call of `proposer_accept`: only the smallest prepared instance is ever looked at. */
  ghost function TryAccept(p: Proposer): (Proposer, Option<Message>) {
    if p.prepares == map[] then (p, None)
    else
      var iid := Smallest(p.prepares.Keys);
      var inst := p.prepares[iid];
      if !QuorumReached(p.acceptors, inst) then (p, None) else AcceptWith(p, iid, inst)
  }

  /** Whether the instance's own client value lost to a different promised value. */
  predicate LostItsValue(inst: Instance) {
    inst.promisedValue.Some? && inst.value.Some? && inst.value != inst.promisedValue
  }

  function ReceiveAccepted(p: Proposer, m: Message, from: nat): (Proposer, bool)
    requires m.Accepted?
  {
    if m.iid !in p.accepts then (p, false)
    else
      var inst := p.accepts[m.iid];
      if m.ballot != inst.ballot || from in inst.quorum then (p, false)
      else
        var inst' := inst.(quorum := inst.quorum + {from});
        if QuorumReached(p.acceptors, inst') then
          (p.(accepts := p.accepts - {m.iid},
              values := if LostItsValue(inst) then p.values + [inst.value.value] else p.values), true)
        else (p.(accepts := p.accepts[m.iid := inst']), true)
  }

  function ReceivePreempted(p: Proposer, m: Message, now: int): (Proposer, Option<Message>)
    requires m.Preempted?
  {
    if m.iid !in p.accepts then (p, None)
    else
      var inst := p.accepts[m.iid];
      if m.ballot > inst.ballot then
        var inst' := Preempt(p.id, inst, now);
        (p.(accepts := p.accepts - {m.iid}, prepares := p.prepares[m.iid := inst']),
         Some(Prepare(inst'.iid, inst'.ballot)))
      else (p, None)
  }

  function Above(t: map<nat, Instance>, iid: nat): map<nat, Instance> {
    map i | i in t && i > iid :: t[i]
  }

  function Trimmed(t: map<nat, Instance>, iid: nat): map<nat, Instance> {
    map i | i in t && i <= iid :: t[i]
  }

  predicate Listed(order: seq<nat>, t: map<nat, Instance>) {
    forall i :: i in order ==> i in t
  }

  /** The client values of the instances listed, in that order. */
  function ValuesOf(t: map<nat, Instance>, order: seq<nat>): seq<Value>
    requires Listed(order, t)
  {
    if order == [] then []
    else (if t[order[0]].value.Some? then [t[order[0]].value.value] else []) + ValuesOf(t, order[1..])
  }

  /** `order` lists every key of the map exactly once: the order its buckets are scanned in. */
  ghost predicate IsScan(order: seq<nat>, keys: set<nat>) {
    && (forall i :: i in order <==> i in keys)
    && (forall i, j :: 0 <= i < j < |order| ==> order[i] != order[j])
  }

  /** `proposer_receive_acceptor_state`, for the bucket orders the two tables happen to have. */
  function ReceiveAcceptorState(p: Proposer, trimIid: nat, order1: seq<nat>, order2: seq<nat>): Proposer
    requires Listed(order1, p.prepares) && Listed(order2, p.accepts)
  {
    if p.maxTrimIid > trimIid then p
    else p.(maxTrimIid := trimIid,
            nextPrepareIid := if p.nextPrepareIid < trimIid then trimIid else p.nextPrepareIid,
            prepares := Above(p.prepares, trimIid),
            accepts := Above(p.accepts, trimIid),
            values := p.values + ValuesOf(p.prepares, order1) + ValuesOf(p.accepts, order2))
  }

  /** A timeout resend stamps the instance and repeats its message unchanged. */
  function ResendPrepare(p: Proposer, iid: nat, now: int): (Proposer, Message)
    requires iid in p.prepares
  {
    var inst := p.prepares[iid];
    (p.(prepares := p.prepares[iid := inst.(createdAt := now)]), Prepare(inst.iid, inst.ballot))
  }

  function ResendAccept(p: Proposer, iid: nat, now: int): (Proposer, Message)
    requires iid in p.accepts && HasSomeValue(p.accepts[iid])
  {
    var inst := p.accepts[iid];
    (p.(accepts := p.accepts[iid := inst.(createdAt := now)]), ToAccept(inst))
  }
}
