/** What each acceptor handler does to an acceptor that keeps one record per instance (acceptor.c). */
module AcceptorSpec {
  import opened PaxosTypes

  /** `durable` tells whether the store deletes records when it trims (Berkeley DB) or not (memory). */
  datatype Acceptor = Acceptor(durable: bool, trimIid: nat, records: map<nat, Record>)

  function Stored(a: Acceptor, iid: nat): Record {
    if iid in a.records then a.records[iid] else Record(0, 0, 0, NO_VALUE)
  }

  function PromiseFrom(r: Record): Message {
    Promise(r.iid, r.ballot, r.valueBallot, r.value)
  }

  function ReceivePrepare(a: Acceptor, iid: nat, ballot: nat): (Acceptor, Option<Message>) {
    if iid <= a.trimIid then (a, None)
    else if iid !in a.records || a.records[iid].ballot <= ballot then
      var acc := Stored(a, iid).(iid := iid, ballot := ballot);
      (a.(records := a.records[iid := acc]), Some(PromiseFrom(acc)))
    else (a, Some(PromiseFrom(a.records[iid])))
  }

  function ReceiveAccept(a: Acceptor, iid: nat, ballot: nat, value: Value): (Acceptor, Option<Message>) {
    if iid <= a.trimIid then (a, None)
    else if iid !in a.records || a.records[iid].ballot <= ballot then
      var acc := Record(iid, ballot, ballot, value);
      (a.(records := a.records[iid := acc]), Some(Accepted(iid, ballot, ballot, value)))
    else (a, Some(Preempted(a.records[iid].iid, a.records[iid].ballot)))
  }

  function ReceiveRepeat(a: Acceptor, iid: nat): Option<Message> {
    if iid in a.records && |a.records[iid].value| > 0 then
      var r := a.records[iid];
      Some(Accepted(r.iid, r.ballot, r.valueBallot, r.value))
    else None
  }

  function ReceiveTrim(a: Acceptor, iid: nat): Acceptor {
    if iid <= a.trimIid then a
    else a.(trimIid := iid,
            records := if a.durable then map i | i in a.records && i > iid :: a.records[i] else a.records)
  }
}
