/** Counting each acceptor once (quorum.c). */
module Quorums {
  import opened PaxosTypes

  function Marked(ids: seq<int>): set<nat> {
    set i: nat | i < |ids| && ids[i] != 0
  }

  class Quorum {
    var count: nat
    var quorum: nat
    var acceptors: nat
    var acceptorIds: array<int>

    ghost predicate Valid()
      reads this, acceptorIds
    {
      && acceptorIds.Length == acceptors
      && quorum == Majority(acceptors)
      && count == |Marked(acceptorIds[..])|
    }

    /** The acceptors counted so far. */
    ghost function Ids(): set<nat>
      reads this, acceptorIds
    {
      Marked(acceptorIds[..])
    }

    constructor (n: nat)
      ensures Valid() && Ids() == {} && acceptors == n && fresh(acceptorIds)
    {
      acceptors, quorum, count := n, Majority(n), 0;
      acceptorIds := new int[n](_ => 0);
      new;
      assert Marked(acceptorIds[..]) == {};
    }

    method Clear()
      requires Valid()
      modifies this`count, acceptorIds
      ensures Valid() && Ids() == {}
    {
      count := 0;
      forall i | 0 <= i < acceptors { acceptorIds[i] := 0; }
      assert Marked(acceptorIds[..]) == {};
    }

    /** Whether `id` is counted for the first time. */
    method Add(id: nat) returns (added: bool)
      requires Valid() && id < acceptors
      modifies this`count, acceptorIds
      ensures Valid() && Ids() == old(Ids()) + {id}
      ensures added <==> id !in old(Ids())
    {
      ghost var ids := acceptorIds[..];
      if acceptorIds[id] == 0 {
        count := count + 1;
        acceptorIds[id] := 1;
        assert Marked(acceptorIds[..]) == Marked(ids) + {id};
        return true;
      }
      assert Marked(ids) + {id} == Marked(ids);
      return false;
    }

    /** A majority of distinct acceptors has been counted: a quorum in the protocol's sense. */
    method Reached() returns (b: bool)
      requires Valid()
      ensures b <==> IsQuorum(Ids(), acceptors)
    {
      b := count >= quorum;
    }
  }
}
