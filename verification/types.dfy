/** The vocabulary shared by every role: values, records, messages and majorities. */
module PaxosTypes {
  datatype Option<+T> = None | Some(value: T)

  newtype Byte = x: int | 0 <= x < 256

  /** A `paxos_value`; the empty sequence is the value of length zero, which the code reads as "none". */
  type Value = seq<Byte>

  const NO_VALUE: Value := []

  /** Ballots of one proposer are this far apart. */
  const MAX_N_OF_PROPOSERS: nat := 10

  /** A `paxos_accepted` as an acceptor stores it. */
  datatype Record = Record(iid: nat, ballot: nat, valueBallot: nat, value: Value)

  datatype Message =
    | Prepare(iid: nat, ballot: nat)
    | Promise(iid: nat, ballot: nat, valueBallot: nat, value: Value)
    | Accept(iid: nat, ballot: nat, value: Value)
    | Accepted(iid: nat, ballot: nat, valueBallot: nat, value: Value)
    | Preempted(iid: nat, ballot: nat)
    | AcceptorState(trimIid: nat)

  /** A message together with the acceptor whose connection it arrived on. */
  datatype Reply = Reply(from: nat, msg: Message)

  function Majority(acceptors: nat): nat {
    acceptors / 2 + 1
  }

  ghost predicate IsQuorum(q: set<nat>, acceptors: nat) {
    && |q| >= Majority(acceptors)
    && forall a :: a in q ==> a < acceptors
  }

  /** It takes more than half of the acceptors, and not one more than that. */
  lemma MajorityIsLeast(k: nat, acceptors: nat)
    ensures k >= Majority(acceptors) <==> 2 * k > acceptors
  {
  }

  function Upto(n: nat): (s: set<nat>)
    ensures |s| == n
    ensures forall a: nat :: a in s <==> a < n
  {
    if n == 0 then {} else Upto(n - 1) + {n - 1}
  }

  /** Two majorities of the same acceptors share one. */
  lemma QuorumsIntersect(q: set<nat>, r: set<nat>, acceptors: nat) returns (a: nat)
    requires IsQuorum(q, acceptors) && IsQuorum(r, acceptors)
    ensures a in q && a in r
  {
    if q !! r {
      assert |q + r| == |q| + |r|;
      SubsetSize(q + r, Upto(acceptors));
      assert false;
    }
    a :| a in q && a in r;
  }

  lemma {:induction false} SubsetSize<T>(s: set<T>, t: set<T>)
    requires s <= t
    ensures |s| <= |t|
    ensures |s| == |t| ==> s == t
  {
    if s != {} {
      var x :| x in s;
      SubsetSize(s - {x}, t - {x});
    }
  }

  ghost predicate IsSmallest(k: nat, s: set<nat>) {
    k in s && forall j :: j in s ==> k <= j
  }

  lemma {:induction false} SmallestExists(s: set<nat>)
    requires s != {}
    ensures exists k :: IsSmallest(k, s)
  {
    var k :| k in s;
    if s != {k} {
      SmallestExists(s - {k});
      var j :| IsSmallest(j, s - {k});
      assert forall i :: i in s ==> i == k || i in s - {k};
      assert IsSmallest(if j < k then j else k, s);
    } else {
      assert IsSmallest(k, s);
    }
  }

  ghost function Smallest(s: set<nat>): (k: nat)
    requires s != {}
    ensures IsSmallest(k, s)
  {
    SmallestExists(s);
    var k :| IsSmallest(k, s);
    k
  }
}
