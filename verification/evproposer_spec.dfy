/** What the proposer's event handlers do (evproposer.c), as functions of the proposer's state. */
module EvProposerSpec {
  import opened PaxosTypes
  import opened ProposerSpec
  import opened ProposerTables
  import T = Timeouts

  lemma AcceptingShrinks(p: Proposer)
    requires TryAccept(p).1.Some?
    ensures |TryAccept(p).0.prepares| < |p.prepares|
  {
    var iid := Smallest(p.prepares.Keys);
    assert (p.prepares - {iid}).Keys == p.prepares.Keys - {iid};
  }

  /** The loop of `try_accept`: the state it ends in and the Accepts it sends. */
  ghost function AcceptAll(p: Proposer): (Proposer, seq<Message>)
    decreases |p.prepares|
  {
    var (q, out) := TryAccept(p);
    if out.None? then (q, [])
    else
      AcceptingShrinks(p);
      var (r, rest) := AcceptAll(q);
      (r, [out.value] + rest)
  }

  function OpenMany(p: Proposer, n: nat, now: int): (Proposer, seq<Message>)
    decreases n
  {
    if n == 0 then (p, [])
    else
      var (q, m) := OpenInstance(p, now);
      var (r, rest) := OpenMany(q, n - 1, now);
      (r, [m] + rest)
  }

  /** `proposer_preexecute`. */
  function PreExecute(p: Proposer, window: int, now: int): (Proposer, seq<Message>) {
    if window - |p.prepares| <= 0 then (p, []) else OpenMany(p, window - |p.prepares|, now)
  }

  ghost function TryAcceptThenOpen(p: Proposer, window: int, now: int): (Proposer, seq<Message>) {
    var (q, accepts) := AcceptAll(p);
    var (r, prepares) := PreExecute(q, window, now);
    (r, accepts + prepares)
  }

  function Listing(o: Option<Message>): seq<Message> {
    if o.Some? then [o.value] else []
  }

  ghost function HandlePromise(p: Proposer, m: Message, from: nat, window: int, now: int): (Proposer, seq<Message>)
    requires m.Promise?
  {
    var (q, prepare) := ReceivePromise(p, m, from, now);
    var (r, rest) := TryAcceptThenOpen(q, window, now);
    (r, Listing(prepare) + rest)
  }

  ghost function HandleAccepted(p: Proposer, m: Message, from: nat, window: int, now: int): (Proposer, seq<Message>)
    requires m.Accepted?
  {
    var (q, counted) := ReceiveAccepted(p, m, from);
    if counted then TryAcceptThenOpen(q, window, now) else (q, [])
  }

  ghost function HandlePreempted(p: Proposer, m: Message, window: int, now: int): (Proposer, seq<Message>)
    requires m.Preempted?
  {
    var (q, prepare) := ReceivePreempted(p, m, now);
    if prepare.None? then (q, [])
    else
      var (r, rest) := TryAcceptThenOpen(q, window, now);
      (r, Listing(prepare) + rest)
  }

  ghost function HandleClientValue(p: Proposer, v: Value, window: int, now: int): (Proposer, seq<Message>) {
    TryAcceptThenOpen(Propose(p, v), window, now)
  }

  function AskAgain(insts: seq<Instance>): seq<Message> {
    seq(|insts|, j requires 0 <= j < |insts| => Prepare(insts[j].iid, insts[j].ballot))
  }

  predicate AllHaveValues(insts: seq<Instance>) {
    forall j :: 0 <= j < |insts| ==> HasSomeValue(insts[j])
  }

  function OfferAgain(insts: seq<Instance>): seq<Message>
    requires AllHaveValues(insts)
  {
    seq(|insts|, j requires 0 <= j < |insts| => ToAccept(insts[j]))
  }

  /** A whole timeout pass over both tables, in bucket order. */
  function ResendAll(c: T.Clock, p: Proposer, iids1: seq<nat>, iids2: seq<nat>): (Proposer, seq<Message>)
    requires Listed(iids1, p.prepares) && Listed(iids2, p.accepts)
    requires AllHaveValues(T.Fetched(p.accepts, iids2))
  {
    (p.(prepares := T.Stamped(c, p.prepares, iids1), accepts := T.Stamped(c, p.accepts, iids2)),
     AskAgain(T.Fetched(p.prepares, iids1)) + OfferAgain(T.Fetched(p.accepts, iids2)))
  }

  lemma ResendsHaveValues(p: Proposer, iids: seq<nat>)
    requires TablesOk(p) && Listed(iids, p.accepts)
    ensures AllHaveValues(T.Fetched(p.accepts, iids))
  {
  }

  // ---- What the loop of `try_accept` sends ----

  ghost predicate Ascending(sent: seq<Message>) {
    && (forall j :: 0 <= j < |sent| ==> sent[j].Accept?)
    && (forall i, j :: 0 <= i < j < |sent| ==> sent[i].iid < sent[j].iid)
  }

  /** `m` is the Accept of an instance that was prepared with a quorum in `p` and is being accepted in `q`. */
  ghost predicate Moved(p: Proposer, q: Proposer, m: Message) {
    && m.Accept? && m.iid in p.prepares && QuorumReached(p.acceptors, p.prepares[m.iid])
    && m.iid !in q.prepares && m.iid in q.accepts
    && HasSomeValue(q.accepts[m.iid]) && m == ToAccept(q.accepts[m.iid])
    && q.accepts[m.iid] == p.prepares[m.iid].(value := q.accepts[m.iid].value, quorum := {})
    && (p.prepares[m.iid].value.Some? ==> q.accepts[m.iid].value == p.prepares[m.iid].value)
  }

  /** Instances nothing was sent for are where they were. */
  ghost predicate OthersStay(p: Proposer, q: Proposer, sent: seq<Message>) {
    && (forall i :: i in q.prepares ==> i in p.prepares && q.prepares[i] == p.prepares[i])
    && (forall i :: i in p.accepts && i !in p.prepares ==> i in q.accepts && q.accepts[i] == p.accepts[i])
    && (forall i :: i in p.prepares && i !in q.prepares ==>
          exists j :: 0 <= j < |sent| && sent[j].Accept? && sent[j].iid == i)
  }

  /** The client value an Accept's instance took from the queue. */
  ghost function Took(p: Proposer, q: Proposer, m: Message): seq<Value>
    requires Moved(p, q, m)
  {
    var inst := q.accepts[m.iid];
    if p.prepares[m.iid].value.None? && inst.value.Some? then [inst.value.value] else []
  }

  ghost function Taken(p: Proposer, q: Proposer, sent: seq<Message>): seq<Value>
    requires forall j :: 0 <= j < |sent| ==> Moved(p, q, sent[j])
  {
    if sent == [] then [] else Took(p, q, sent[0]) + Taken(p, q, sent[1..])
  }

  /** Why `try_accept` stops. */
  ghost predicate NothingToAccept(q: Proposer) {
    || q.prepares == map[]
    || !QuorumReached(q.acceptors, q.prepares[Smallest(q.prepares.Keys)])
    || (q.values == [] && !HasSomeValue(q.prepares[Smallest(q.prepares.Keys)]))
  }

  lemma StopsExactlyThen(q: Proposer)
    ensures TryAccept(q).1.None? <==> NothingToAccept(q)
    ensures TryAccept(q).1.None? ==> TryAccept(q).0 == q
  {
  }

  /** One Accept: the smallest prepared instance moves over, taking a client value if it had none. */
  ghost predicate OneMoves(p: Proposer, p1: Proposer, m: Message) {
    && Moved(p, p1, m)
    && (forall i :: i in p.prepares ==> m.iid <= i)
    && p1.prepares == p.prepares - {m.iid}
    && p1.accepts == p.accepts[m.iid := p1.accepts[m.iid]]
    && p.values == Took(p, p1, m) + p1.values
    && (p1.accepts[m.iid].value.None? ==> p.values == [])
    && p1.acceptors == p.acceptors && p1.nextPrepareIid == p.nextPrepareIid
  }

  lemma FirstMoves(p: Proposer)
    requires TablesOk(p) && TryAccept(p).1.Some?
    ensures OneMoves(p, TryAccept(p).0, TryAccept(p).1.value)
  {
  }

  /** Nothing is sent out of turn: what is left comes after everything sent. */
  ghost predicate InTurn(q: Proposer, sent: seq<Message>) {
    forall j, i :: 0 <= j < |sent| && i in q.prepares ==> sent[j].Accept? && sent[j].iid < i
  }

  /** Whoever could take a client value took one, promised value or not. */
  ghost predicate NobodySkips(q: Proposer, sent: seq<Message>) {
    forall j :: 0 <= j < |sent| ==>
      sent[j].Accept? && sent[j].iid in q.accepts && (q.accepts[sent[j].iid].value.None? ==> q.values == [])
  }

  /** All a run of Accepts does. */
  ghost predicate AllMove(p: Proposer, q: Proposer, sent: seq<Message>) {
    && (forall j :: 0 <= j < |sent| ==> Moved(p, q, sent[j]))
    && Ascending(sent) && InTurn(q, sent)
    && OthersStay(p, q, sent) && NobodySkips(q, sent)
    && p.values == Taken(p, q, sent) + q.values
    && q.acceptors == p.acceptors && q.nextPrepareIid == p.nextPrepareIid
  }

  ghost predicate SameInstance(p: Proposer, p1: Proposer, m: Message) {
    m.Accept? && m.iid in p.prepares && m.iid in p1.prepares && p.prepares[m.iid] == p1.prepares[m.iid]
  }

  lemma {:induction false} TakenLater(p: Proposer, p1: Proposer, q: Proposer, sent: seq<Message>)
    requires forall j :: 0 <= j < |sent| ==> Moved(p, q, sent[j]) && Moved(p1, q, sent[j])
    requires forall j :: 0 <= j < |sent| ==> SameInstance(p, p1, sent[j])
    ensures Taken(p, q, sent) == Taken(p1, q, sent)
  {
    if sent != [] {
      assert SameInstance(p, p1, sent[0]);
      TakenLater(p, p1, q, sent[1..]);
    }
  }

  lemma MovedEarlier(p: Proposer, p1: Proposer, out: Message, q: Proposer, m: Message)
    requires OneMoves(p, p1, out) && Moved(p1, q, m)
    ensures Moved(p, q, m) && m.Accept? && m.iid > out.iid && SameInstance(p, p1, m)
  {
  }

  lemma MovedStays(p: Proposer, p1: Proposer, out: Message, q: Proposer, rest: seq<Message>)
    requires OneMoves(p, p1, out) && OthersStay(p1, q, rest)
    ensures Moved(p, q, out) && Took(p, q, out) == Took(p, p1, out)
    ensures OthersStay(p, q, [out] + rest)
    ensures InTurn(q, rest) ==> InTurn(q, [out] + rest)
  {
    assert out.iid in p1.accepts && out.iid !in p1.prepares;
    var sent := [out] + rest;
    forall i | i in p.prepares && i !in q.prepares
      ensures exists j :: 0 <= j < |sent| && sent[j].Accept? && sent[j].iid == i
    {
      if i == out.iid {
        assert sent[0].iid == i;
      } else {
        assert i in p1.prepares;
        var j :| 0 <= j < |rest| && rest[j].Accept? && rest[j].iid == i;
        assert sent[j + 1].iid == i;
      }
    }
  }

  lemma AllMovedEarlier(p: Proposer, p1: Proposer, out: Message, q: Proposer, rest: seq<Message>)
    requires OneMoves(p, p1, out) && forall j :: 0 <= j < |rest| ==> Moved(p1, q, rest[j])
    ensures forall j :: 0 <= j < |rest| ==> Moved(p, q, rest[j]) && SameInstance(p, p1, rest[j])
    ensures forall j :: 0 <= j < |rest| ==> out.Accept? && rest[j].Accept? && rest[j].iid > out.iid
  {
    assert out.Accept?;
    hide Moved, SameInstance, OneMoves;
    forall j | 0 <= j < |rest|
      ensures Moved(p, q, rest[j]) && SameInstance(p, p1, rest[j]) && rest[j].Accept? && rest[j].iid > out.iid
    {
      MovedEarlier(p, p1, out, q, rest[j]);
    }
  }

  lemma TakenFirst(p: Proposer, q: Proposer, out: Message, rest: seq<Message>)
    requires Moved(p, q, out) && forall j :: 0 <= j < |rest| ==> Moved(p, q, rest[j])
    ensures forall j :: 0 <= j < |rest| + 1 ==> Moved(p, q, ([out] + rest)[j])
    ensures Taken(p, q, [out] + rest) == Took(p, q, out) + Taken(p, q, rest)
  {
    hide Moved, Took;
    assert ([out] + rest)[1..] == rest;
  }

  lemma TakenMore(p: Proposer, p1: Proposer, out: Message, q: Proposer, rest: seq<Message>)
    requires OneMoves(p, p1, out) && Moved(p, q, out) && Took(p, q, out) == Took(p, p1, out)
    requires forall j :: 0 <= j < |rest| ==> Moved(p, q, rest[j]) && Moved(p1, q, rest[j]) && SameInstance(p, p1, rest[j])
    requires p1.values == Taken(p1, q, rest) + q.values
    ensures forall j :: 0 <= j < |rest| + 1 ==> Moved(p, q, ([out] + rest)[j])
    ensures p.values == Taken(p, q, [out] + rest) + q.values
  {
    assert Moved(p, p1, out) && p.values == Took(p, p1, out) + p1.values;
    hide Moved, SameInstance, Took, OneMoves;
    TakenLater(p, p1, q, rest);
    TakenFirst(p, q, out, rest);
    hide Taken;
    Regroup(Took(p, q, out), Taken(p, q, rest), q.values);
  }

  lemma Regroup(a: seq<Value>, b: seq<Value>, c: seq<Value>)
    ensures a + (b + c) == a + b + c
  {
  }

  lemma OneMoreMoves(p: Proposer, p1: Proposer, out: Message, q: Proposer, rest: seq<Message>)
    requires OneMoves(p, p1, out) && AllMove(p1, q, rest)
    ensures AllMove(p, q, [out] + rest)
  {
    MovedStays(p, p1, out, q, rest);
    AllMovedEarlier(p, p1, out, q, rest);
    TakenMore(p, p1, out, q, rest);
    FirstSkipsNot(p, p1, out, q, rest);
    NobodySkipsFirst(q, out, rest);
    hide Moved, OthersStay, Taken, Took, NobodySkips, InTurn;
  }

  lemma FirstSkipsNot(p: Proposer, p1: Proposer, out: Message, q: Proposer, rest: seq<Message>)
    requires OneMoves(p, p1, out) && OthersStay(p1, q, rest)
    requires forall j :: 0 <= j < |rest| ==> Moved(p1, q, rest[j])
    requires p1.values == Taken(p1, q, rest) + q.values
    ensures out.Accept? && out.iid in q.accepts && (q.accepts[out.iid].value.None? ==> q.values == [])
  {
    hide Taken;
    assert out.iid in p1.accepts && out.iid !in p1.prepares;
    assert p1.accepts[out.iid].value.None? ==> p1.values == [];
  }

  lemma NobodySkipsFirst(q: Proposer, out: Message, rest: seq<Message>)
    requires NobodySkips(q, rest)
    requires out.Accept? && out.iid in q.accepts && (q.accepts[out.iid].value.None? ==> q.values == [])
    ensures NobodySkips(q, [out] + rest)
  {
  }

  /** Everything about one `try_accept` loop: strictly ascending instances, client values first come first served,
      and it stops only when there is nothing it could accept. */
  lemma {:induction false} AcceptAllDoes(p: Proposer)
    requires TablesOk(p)
    ensures var (q, sent) := AcceptAll(p);
            TablesOk(q) && NothingToAccept(q) && AllMove(p, q, sent)
    decreases |p.prepares|
  {
    StopsExactlyThen(p);
    hide NothingToAccept, AllMove, OneMoves, TablesOk;
    if TryAccept(p).1.Some? {
      AcceptingShrinks(p);
      FirstMoves(p);
      AcceptKeepsTables(p);
      hide TryAccept;
      var (p1, out) := TryAccept(p);
      AcceptAllDoes(p1);
      OneMoreMoves(p, p1, out.value, AcceptAll(p1).0, AcceptAll(p1).1);
    } else {
      NoneMove(p);
    }
  }

  lemma NoneMove(p: Proposer)
    ensures AllMove(p, p, [])
  {
  }

  /** `n` instances opened, each with the next iid. */
  ghost predicate Opens(p: Proposer, n: nat, q: Proposer, sent: seq<Message>) {
    && |q.prepares| == |p.prepares| + n && |sent| == n
    && q.nextPrepareIid == p.nextPrepareIid + n
    && q.id == p.id && q.accepts == p.accepts && q.values == p.values
    && (forall i :: i in p.prepares ==> i in q.prepares && q.prepares[i] == p.prepares[i])
    && (forall j :: 0 <= j < n ==> sent[j] == Prepare(p.nextPrepareIid + 1 + j, NextBallot(p.id, 0)))
  }

  lemma OneOpens(p: Proposer, now: int)
    requires TablesOk(p)
    ensures Opens(p, 1, OpenInstance(p, now).0, [OpenInstance(p, now).1])
  {
    OpenKeepsTables(p, now);
    var (q, m) := OpenInstance(p, now);
    assert q.prepares.Keys == p.prepares.Keys + {m.iid};
  }

  lemma OpensMore(p: Proposer, p1: Proposer, m: Message, n: nat, q: Proposer, rest: seq<Message>)
    requires Opens(p, 1, p1, [m]) && Opens(p1, n, q, rest)
    ensures Opens(p, n + 1, q, [m] + rest)
  {
    assert [m][0] == m;
  }

  lemma {:induction false} OpenManyDoes(p: Proposer, n: nat, now: int)
    requires TablesOk(p)
    ensures TablesOk(OpenMany(p, n, now).0)
    ensures Opens(p, n, OpenMany(p, n, now).0, OpenMany(p, n, now).1)
    decreases n
  {
    if n > 0 {
      OpenKeepsTables(p, now);
      OneOpens(p, now);
      hide Opens, TablesOk, OpenInstance;
      var (p1, m) := OpenInstance(p, now);
      OpenManyDoes(p1, n - 1, now);
      OpensMore(p, p1, m, n - 1, OpenMany(p1, n - 1, now).0, OpenMany(p1, n - 1, now).1);
    }
  }

  lemma AcceptAllKeeps(p: Proposer)
    requires TablesOk(p)
    ensures TablesOk(AcceptAll(p).0) && AcceptAll(p).0.nextPrepareIid == p.nextPrepareIid
  {
    AcceptAllDoes(p);
  }

  lemma OpenManyKeeps(p: Proposer, n: nat, now: int)
    requires TablesOk(p)
    ensures var q := OpenMany(p, n, now).0;
            TablesOk(q) && |q.prepares| == |p.prepares| + n && q.nextPrepareIid == p.nextPrepareIid + n
  {
    OpenManyDoes(p, n, now);
  }

  /** `try_accept` leaves at least `window` prepared instances. */
  lemma WindowFull(p: Proposer, window: int, now: int)
    requires TablesOk(p)
    ensures var r := TryAcceptThenOpen(p, window, now).0;
            TablesOk(r) && |r.prepares| >= window
            && r.nextPrepareIid <= p.nextPrepareIid + if window > 0 then window else 0
  {
    AcceptAllKeeps(p);
    hide TablesOk, AcceptAll, OpenMany;
    var q := AcceptAll(p).0;
    if window - |q.prepares| > 0 {
      OpenManyKeeps(q, window - |q.prepares|, now);
    }
  }

  // ---- The loops, part of the way ----

  /** A loop that opens `total` instances from `p0` on has sent `sent` and is at `p` with `n` still to open. */
  ghost predicate StillOpening(p0: Proposer, total: nat, now: int, p: Proposer, n: nat, sent: seq<Message>) {
    OpenMany(p0, total, now) == (OpenMany(p, n, now).0, sent + OpenMany(p, n, now).1)
  }

  lemma OpeningStarts(p: Proposer, n: nat, now: int)
    ensures StillOpening(p, n, now, p, n, [])
  {
    assert [] + OpenMany(p, n, now).1 == OpenMany(p, n, now).1;
  }

  lemma OpeningGoesOn(p0: Proposer, total: nat, now: int, p: Proposer, n: nat, sent: seq<Message>,
                      q: Proposer, m: Message)
    requires StillOpening(p0, total, now, p, n, sent) && n > 0
    requires q == OpenInstance(p, now).0 && m == OpenInstance(p, now).1
    ensures StillOpening(p0, total, now, q, n - 1, sent + [m])
  {
    var rest := OpenMany(q, n - 1, now).1;
    assert sent + ([m] + rest) == (sent + [m]) + rest;
  }

  lemma OpeningEnds(p0: Proposer, total: nat, now: int, p: Proposer, sent: seq<Message>)
    requires StillOpening(p0, total, now, p, 0, sent)
    ensures OpenMany(p0, total, now) == (p, sent)
  {
    assert sent + [] == sent;
  }

  ghost predicate StillAccepting(p0: Proposer, p: Proposer, sent: seq<Message>) {
    AcceptAll(p0) == (AcceptAll(p).0, sent + AcceptAll(p).1)
  }

  lemma AcceptingStarts(p: Proposer)
    ensures StillAccepting(p, p, [])
  {
    assert [] + AcceptAll(p).1 == AcceptAll(p).1;
  }

  lemma AcceptingGoesOn(p0: Proposer, p: Proposer, sent: seq<Message>)
    requires StillAccepting(p0, p, sent)
    ensures var (q, out) := TryAccept(p);
            if out.Some? then StillAccepting(p0, q, sent + [out.value]) && |q.prepares| < |p.prepares|
            else AcceptAll(p0) == (q, sent)
    ensures TryAccept(p).0.nextPrepareIid == p.nextPrepareIid
  {
    var (q, out) := TryAccept(p);
    if out.Some? {
      AcceptingShrinks(p);
      var rest := AcceptAll(q).1;
      assert sent + ([out.value] + rest) == (sent + [out.value]) + rest;
    } else {
      assert sent + [] == sent;
    }
  }
}
