/** The queues of the client as values: what it has yet to send, what it waits for, and
    what it was told. */
module Queues {
  import opened Aft
  import opened Engine
  import opened Sessions
  import opened Modify

  datatype Request = Request(ops: seq<Op>, electionID: Option<Uint128>, params: Option<SessionParameters>)

  datatype Response = Response(results: seq<Result>, electionID: Option<Uint128>, paramsResult: bool)

  /** An entry of the results queue. A result is expected when something was pending that
      it answers; op is the operation that it reports on. */
  datatype OpResult =
    | Programming(id: nat, status: Status, op: Option<Op>)
    | ElectionUpdate(current: Uint128, expected: bool)
    | ParamsUpdate(expected: bool)
    | NoResult

  /** outgoing is the channel to the server. */
  datatype Queues = Queues(
    pend: map<nat, Op>, pendElection: Option<Uint128>, pendParams: Option<SessionParameters>,
    sending: bool, sendq: seq<Request>, outgoing: seq<Request>,
    resultq: seq<OpResult>, sendErrs: nat)

  // ---------------------------------------------------------------- sending

  datatype Pended = Pended(pend: map<nat, Op>, err: bool)

  /** Marks operations as pending up to the first whose ID is pending already. */
  function AddOps(pend: map<nat, Op>, ops: seq<Op>): Pended
    decreases ops
  {
    if ops == [] then Pended(pend, false)
    else if ops[0].id in pend then Pended(pend, true)
    else AddOps(pend[ops[0].id := ops[0]], ops[1..])
  }

  function HandleRequest(q: Queues, m: Request): Queues {
    var p := AddOps(q.pend, m.ops);
    if p.err then q.(pend := p.pend, sendErrs := q.sendErrs + 1)
    else q.(
      pend := p.pend,
      pendElection := if m.electionID.Some? then m.electionID else q.pendElection,
      pendParams := if m.params.Some? then m.params else q.pendParams)
  }

  /** A message goes out, or waits until sending starts, even if it could not be recorded. */
  function Enqueue(q: Queues, m: Request): Queues {
    var h := HandleRequest(q, m);
    if h.sending then h.(outgoing := h.outgoing + [m]) else h.(sendq := h.sendq + [m])
  }

  /** The session's parameters and election ID go ahead of what was queued. */
  function Start(q: Queues, params: Option<SessionParameters>, electionID: Option<Uint128>): Queues {
    var q1 := q.(sending := true);
    var q2 := if params.Some? then Enqueue(q1, Request([], None, params)) else q1;
    var q3 := if electionID.Some? then Enqueue(q2, Request([], electionID, None)) else q2;
    q3.(outgoing := q3.outgoing + q3.sendq, sendq := [])
  }

  lemma DistinctCons(o: Op, rest: seq<Op>)
    ensures Ids([o] + rest) == {o.id} + Ids(rest)
    ensures DistinctIds([o] + rest) <==> DistinctIds(rest) && o.id !in Ids(rest)
  {
    var ops := [o] + rest;
    assert forall p :: p in ops <==> p == o || p in rest;
    if DistinctIds(ops) {
      forall p | p in rest ensures p.id != o.id {
        var j :| 0 <= j < |rest| && rest[j] == p;
        assert ops[j + 1] == p && ops[0] == o;
      }
      forall i, j | 0 <= i < j < |rest| ensures rest[i].id != rest[j].id {
        assert rest[i] == ops[i + 1] && rest[j] == ops[j + 1];
      }
    } else {
      var i, j :| 0 <= i < j < |ops| && ops[i].id == ops[j].id;
      assert ops[j] == rest[j - 1] && ops[j] in rest;
      if i > 0 { assert ops[i] == rest[i - 1]; }
    }
  }

  /** Adding fails exactly when an ID repeats; otherwise all of ops is pending. */
  lemma {:induction false} AddOpsIff(pend: map<nat, Op>, ops: seq<Op>)
    ensures AddOps(pend, ops).err <==> !(DistinctIds(ops) && Ids(ops) !! pend.Keys)
    ensures !AddOps(pend, ops).err ==> AddOps(pend, ops).pend.Keys == pend.Keys + Ids(ops)
    ensures !AddOps(pend, ops).err ==> forall o :: o in ops ==> At(AddOps(pend, ops).pend, o.id) == Some(o)
    ensures forall id :: id in pend ==> At(AddOps(pend, ops).pend, id) == Some(pend[id])
    decreases ops
  {
    if ops != [] {
      var o, rest := ops[0], ops[1..];
      assert ops == [o] + rest;
      DistinctCons(o, rest);
      if o.id !in pend {
        var pend' := pend[o.id := o];
        AddOpsIff(pend', rest);
        assert At(pend', o.id) == Some(o);
      }
    }
  }

  /** What is recorded of a message with a repeated ID is what comes before it. */
  lemma {:induction false} AddOpsStops(pend: map<nat, Op>, ops: seq<Op>) returns (k: nat)
    requires AddOps(pend, ops).err
    ensures k < |ops| && DistinctIds(ops[..k]) && Ids(ops[..k]) !! pend.Keys
    ensures ops[k].id in pend.Keys + Ids(ops[..k])
    ensures AddOps(pend, ops).pend.Keys == pend.Keys + Ids(ops[..k])
    decreases ops
  {
    if ops[0].id in pend {
      k := 0;
    } else {
      var o, rest := ops[0], ops[1..];
      var l := AddOpsStops(pend[o.id := o], rest);
      k := l + 1;
      assert ops[..k] == [o] + rest[..l];
      DistinctCons(o, rest[..l]);
    }
  }

  // ---------------------------------------------------------------- receiving

  /** Whether a result is the last one for its operation. */
  predicate Terminal(r: Result, fib: bool) {
    !r.status.RibProgrammed? || !fib
  }

  ghost function TermIds(rs: seq<Result>, fib: bool): set<nat> {
    set r | r in rs && Terminal(r, fib) :: r.id
  }

  datatype Cleared = Cleared(pend: map<nat, Op>, results: seq<OpResult>, err: bool)

  /** An unknown operation is an error, unless it is reported in the RIB after the FIB. */
  function ClearOp(pend: map<nat, Op>, r: Result, fib: bool): Cleared {
    if r.id in pend then
      Cleared(if Terminal(r, fib) then pend - {r.id} else pend, [Programming(r.id, r.status, Some(pend[r.id]))], false)
    else if fib && r.status.RibProgrammed? then
      Cleared(pend, [Programming(r.id, r.status, None)], false)
    else
      Cleared(pend, [NoResult], true)
  }

  /** Works off results up to the first error. */
  function ClearAll(pend: map<nat, Op>, rs: seq<Result>, fib: bool): Cleared {
    if rs == [] then Cleared(pend, [], false)
    else
      var c := ClearOp(pend, rs[0], fib);
      if c.err then c
      else
        var rest := ClearAll(c.pend, rs[1..], fib);
        Cleared(rest.pend, c.results + rest.results, rest.err)
  }

  function Onto(q: seq<OpResult>, c: Cleared): Cleared {
    Cleared(c.pend, q + c.results, c.err)
  }

  lemma Associative<T>(a: seq<T>, b: seq<T>, c: seq<T>)
    ensures a + (b + c) == a + b + c
  {
  }

  lemma OntoStep(q: seq<OpResult>, pend: map<nat, Op>, rs: seq<Result>, fib: bool)
    requires rs != []
    ensures var c := ClearOp(pend, rs[0], fib);
      Onto(q, ClearAll(pend, rs, fib)) ==
      if c.err then Onto(q, c) else Onto(q + c.results, ClearAll(c.pend, rs[1..], fib))
  {
    var c := ClearOp(pend, rs[0], fib);
    if !c.err {
      Associative(q, c.results, ClearAll(c.pend, rs[1..], fib).results);
    }
  }

  datatype Handled = Handled(q: Queues, err: bool)

  function Populated(m: Response): nat {
    (if m.results != [] then 1 else 0) + (if m.electionID.Some? then 1 else 0) + (if m.paramsResult then 1 else 0)
  }

  /** More than one of results, election ID and parameters is there. */
  predicate Overpopulated(m: Response) {
    || (m.results != [] && m.electionID.Some?)
    || (m.results != [] && m.paramsResult)
    || (m.electionID.Some? && m.paramsResult)
  }

  function HandleResponse(q: Queues, m: Response, fib: bool): Handled {
    if Populated(m) > 1 then Handled(q, true)
    else if m.electionID.Some? then
      var update := ElectionUpdate(m.electionID.value, q.pendElection.Some?);
      Handled(q.(resultq := q.resultq + [update], pendElection := None), false)
    else if m.paramsResult then
      Handled(q.(resultq := q.resultq + [ParamsUpdate(q.pendParams.Some?)], pendParams := None), false)
    else
      var c := ClearAll(q.pend, m.results, fib);
      Handled(q.(pend := c.pend, resultq := q.resultq + c.results), c.err)
  }

  /** Result i reports on an operation that is pending and that no result before it ended. */
  ghost predicate Live(pend: map<nat, Op>, rs: seq<Result>, fib: bool, i: nat)
    requires i < |rs|
  {
    rs[i].id in pend && rs[i].id !in TermIds(rs[..i], fib)
  }

  lemma LiveShifts(pend: map<nat, Op>, rs: seq<Result>, fib: bool, i: nat)
    requires 0 < i < |rs|
    ensures var pend' := if Terminal(rs[0], fib) then pend - {rs[0].id} else pend;
      Live(pend, rs, fib, i) <==> Live(pend', rs[1..], fib, i - 1)
  {
    var a, b := rs[..i], rs[1..][..i - 1];
    assert a == [rs[0]] + b;
    assert TermIds(a, fib) == TermIds(b, fib) + if Terminal(rs[0], fib) then {rs[0].id} else {};
  }

  /** The report of a result on the operation that has its ID. */
  function Matched(pend: map<nat, Op>, r: Result): OpResult {
    Programming(r.id, r.status, At(pend, r.id))
  }

  function MatchAll(pend: map<nat, Op>, rs: seq<Result>): seq<OpResult> {
    seq(|rs|, i requires 0 <= i < |rs| => Matched(pend, rs[i]))
  }

  /** Results that are all live are worked off without an error: each is matched with its
      operation, and those that end one take it off the queue. */
  lemma {:induction false} ClearLive(pend: map<nat, Op>, rs: seq<Result>, fib: bool)
    requires forall i :: 0 <= i < |rs| ==> Live(pend, rs, fib, i)
    ensures var c := ClearAll(pend, rs, fib);
      !c.err && c.pend == pend - TermIds(rs, fib) && c.results == MatchAll(pend, rs)
    ensures forall i :: 0 <= i < |rs| ==> rs[i].id in pend
  {
    if rs != [] {
      var c, rest := LiveRest(pend, rs, fib);
      ClearLive(c.pend, rest, fib);
      hide Live, TermIds;
      forall i | 0 <= i < |rs| ensures rs[i].id in pend { assert i > 0 ==> rest[i - 1].id in c.pend; }
      MatchRest(pend, rs, c.pend);
    }
  }

  /** After the first of live results the others are live. */
  lemma LiveRest(pend: map<nat, Op>, rs: seq<Result>, fib: bool) returns (c: Cleared, rest: seq<Result>)
    requires rs != [] && forall i :: 0 <= i < |rs| ==> Live(pend, rs, fib, i)
    ensures c == ClearOp(pend, rs[0], fib) && !c.err && rest == rs[1..] && rs[0].id in pend
    ensures forall i :: 0 <= i < |rest| ==> Live(c.pend, rest, fib, i)
    ensures pend - TermIds(rs, fib) == c.pend - TermIds(rest, fib)
  {
    assert Live(pend, rs, fib, 0);
    c, rest := ClearOp(pend, rs[0], fib), rs[1..];
    forall i | 0 <= i < |rest| ensures Live(c.pend, rest, fib, i) {
      assert Live(pend, rs, fib, i + 1);
      LiveShifts(pend, rs, fib, i + 1);
    }
    assert rs == [rs[0]] + rest;
    assert TermIds(rs, fib) == TermIds(rest, fib) + if Terminal(rs[0], fib) then {rs[0].id} else {};
  }

  lemma MatchRest(pend: map<nat, Op>, rs: seq<Result>, pend': map<nat, Op>)
    requires rs != [] && forall id :: id in pend' ==> At(pend', id) == At(pend, id)
    requires forall i :: 0 < i < |rs| ==> rs[i].id in pend'
    ensures MatchAll(pend, rs) == [Matched(pend, rs[0])] + MatchAll(pend', rs[1..])
  {
  }

  /** Working off results fails exactly when one of them is not live, and is not the
      report that is tolerated. */
  lemma {:induction false} ClearErrsIff(pend: map<nat, Op>, rs: seq<Result>, fib: bool)
    ensures ClearAll(pend, rs, fib).err <==>
            exists i :: 0 <= i < |rs| && Terminal(rs[i], fib) && !Live(pend, rs, fib, i)
  {
    if rs != [] {
      var c, rest := ClearOp(pend, rs[0], fib), rs[1..];
      assert Live(pend, rs, fib, 0) <==> rs[0].id in pend;
      if !c.err {
        ClearErrsIff(c.pend, rest, fib);
        forall i | 0 < i < |rs| ensures Live(pend, rs, fib, i) <==> Live(c.pend, rest, fib, i - 1) {
          LiveShifts(pend, rs, fib, i);
        }
        if i :| 0 <= i < |rest| && Terminal(rest[i], fib) && !Live(c.pend, rest, fib, i) {
          assert Terminal(rs[i + 1], fib) && !Live(pend, rs, fib, i + 1);
        }
      }
    }
  }

  /** Result i reports on an operation that is pending and that none before it has ended: a
      result ends its operation, unless it is one from the RIB and the FIB is to follow. */
  ghost predicate Open(pend: map<nat, Op>, rs: seq<Result>, fib: bool, i: nat)
    requires i < |rs|
  {
    && rs[i].id in pend
    && forall j :: 0 <= j < i && rs[j].id == rs[i].id ==> fib && rs[j].status == RibProgrammed
  }

  /** Each result is matched with the operation that it reports on, up to the first without
      one; a result from the RIB may come late if it is the FIB that counts. */
  ghost predicate MatchedUp(pend: map<nat, Op>, rs: seq<Result>, fib: bool, results: seq<OpResult>, err: bool) {
    var n := |results|;
    && n <= |rs| && (err || n == |rs|) && (err ==> n > 0)
    && forall i :: 0 <= i < n ==>
         var expected := Open(pend, rs, fib, i);
         if err && i == n - 1 then !expected && !(fib && rs[i].status == RibProgrammed) && results[i] == NoResult
         else
           && (expected || (fib && rs[i].status == RibProgrammed))
           && results[i] == Programming(rs[i].id, rs[i].status, if expected then Some(pend[rs[i].id]) else None)
  }

  /** What the results ended is no longer pending, and everything else is. */
  ghost predicate StillPending(pend: map<nat, Op>, rs: seq<Result>, fib: bool, pend': map<nat, Op>) {
    forall id :: At(pend', id) ==
      if exists i :: 0 <= i < |rs| && rs[i].id == id && !(fib && rs[i].status == RibProgrammed) then None
      else At(pend, id)
  }

  /** c is what working off rs comes to. */
  ghost predicate WorkedOff(pend: map<nat, Op>, rs: seq<Result>, fib: bool, c: Cleared) {
    && MatchedUp(pend, rs, fib, c.results, c.err)
    && StillPending(pend, rs[..|c.results|], fib, c.pend)
  }

  lemma {:induction false} ClearedIs(pend: map<nat, Op>, rs: seq<Result>, fib: bool)
    ensures WorkedOff(pend, rs, fib, ClearAll(pend, rs, fib))
  {
    if rs != [] {
      var c, rest := ClearOp(pend, rs[0], fib), rs[1..];
      assert Open(pend, rs, fib, 0) <==> rs[0].id in pend;
      if c.err {
        assert rs[..1] == [rs[0]];
      } else {
        hide Open, MatchedUp, StillPending;
        ClearedIs(c.pend, rest, fib);
        var more := ClearAll(c.pend, rest, fib);
        OneMoreMatched(pend, rs, fib, more.results, more.err);
        OneMorePending(pend, rs, fib, |more.results|, more.pend);
      }
    }
  }

  lemma OneMoreMatched(pend: map<nat, Op>, rs: seq<Result>, fib: bool, results: seq<OpResult>, err: bool)
    requires rs != []
    requires var c := ClearOp(pend, rs[0], fib);
      !c.err && MatchedUp(c.pend, rs[1..], fib, results, err)
    ensures MatchedUp(pend, rs, fib, ClearOp(pend, rs[0], fib).results + results, err) && |results| < |rs|
  {
    var c, tail := ClearOp(pend, rs[0], fib), rs[1..];
    forall i | 0 < i < |rs|
      ensures Open(pend, rs, fib, i) <==> Open(c.pend, tail, fib, i - 1)
      ensures Open(c.pend, tail, fib, i - 1) ==> pend[rs[i].id] == c.pend[rs[i].id]
    {
      OpenShifts(pend, rs, fib, i);
    }
    assert Open(pend, rs, fib, 0) <==> rs[0].id in pend;
    hide Open;
    var all := c.results + results;
    assert forall i :: 0 < i < |all| ==> all[i] == results[i - 1] && rs[i] == tail[i - 1];
  }

  lemma OpenShifts(pend: map<nat, Op>, rs: seq<Result>, fib: bool, i: nat)
    requires 0 < i < |rs| && !ClearOp(pend, rs[0], fib).err
    ensures var pend' := ClearOp(pend, rs[0], fib).pend;
      && (Open(pend, rs, fib, i) <==> Open(pend', rs[1..], fib, i - 1))
      && (rs[i].id in pend' ==> rs[i].id in pend && pend[rs[i].id] == pend'[rs[i].id])
  {
    var tail := rs[1..];
    assert forall j :: 0 < j <= i ==> rs[j] == tail[j - 1];
    if Open(ClearOp(pend, rs[0], fib).pend, tail, fib, i - 1) {
      forall j | 0 <= j < i && rs[j].id == rs[i].id ensures fib && rs[j].status == RibProgrammed {
        assert j > 0 ==> tail[j - 1].id == tail[i - 1].id;
      }
    }
  }

  lemma OneMorePending(pend: map<nat, Op>, rs: seq<Result>, fib: bool, n: nat, pend': map<nat, Op>)
    requires rs != [] && n < |rs|
    requires var c := ClearOp(pend, rs[0], fib);
      !c.err && StillPending(c.pend, rs[1..][..n], fib, pend')
    ensures StillPending(pend, rs[..1 + n], fib, pend')
  {
    var c, tail, head := ClearOp(pend, rs[0], fib), rs[1..][..n], rs[..1 + n];
    assert head == [rs[0]] + tail;
    forall id
      ensures At(pend', id) ==
              if exists i :: 0 <= i < |head| && head[i].id == id && !(fib && head[i].status == RibProgrammed) then None
              else At(pend, id)
    {
      if i :| 0 <= i < |tail| && tail[i].id == id && !(fib && tail[i].status == RibProgrammed) {
        assert head[i + 1] == tail[i];
      }
    }
  }

  predicate Converged(q: Queues) {
    q.sendq == [] && q.pend == map[] && q.pendElection.None? && q.pendParams.None?
  }
}
