/** One client and its server, with a FIFO channel each way: every operation that the
    client waits for is in exactly one place, and is answered for good exactly once. */
module Conservation {
  import opened Aft
  import opened Engine
  import opened Partition
  import opened Sessions
  import opened Election
  import opened Modify
  import opened Queues

  // ---------------------------------------------------------------- results

  /** Once a result has ended an operation, no further result mentions it. */
  ghost predicate Orderly(rs: seq<Result>, fib: bool) {
    forall i :: 0 <= i < |rs| ==> rs[i].id !in TermIds(rs[..i], fib)
  }

  ghost function Mentioned(rs: seq<Result>): set<nat> {
    set r | r in rs :: r.id
  }

  lemma TermIdsConcat(a: seq<Result>, b: seq<Result>, fib: bool)
    ensures TermIds(a + b, fib) == TermIds(a, fib) + TermIds(b, fib)
    ensures Mentioned(a + b) == Mentioned(a) + Mentioned(b)
  {
    assert forall r :: r in a + b <==> r in a || r in b;
  }

  lemma OrderlyConcat(a: seq<Result>, b: seq<Result>, fib: bool)
    requires Orderly(a, fib) && Orderly(b, fib) && Mentioned(b) !! TermIds(a, fib)
    ensures Orderly(a + b, fib)
  {
    forall i | 0 <= i < |a + b| ensures (a + b)[i].id !in TermIds((a + b)[..i], fib) {
      if i < |a| {
        assert (a + b)[..i] == a[..i];
      } else {
        assert (a + b)[..i] == a + b[..i - |a|];
        TermIdsConcat(a, b[..i - |a|], fib);
        assert b[i - |a|] in b && b[i - |a|].id in Mentioned(b);
      }
    }
  }

  /** The first results taken off an orderly sequence leave an orderly one that says
      nothing about the operations they ended. */
  lemma OrderlySplit(a: seq<Result>, b: seq<Result>, fib: bool)
    requires Orderly(a + b, fib)
    ensures Orderly(a, fib) && Orderly(b, fib) && Mentioned(b) !! TermIds(a, fib)
  {
    forall i | 0 <= i < |a| ensures a[i].id !in TermIds(a[..i], fib) {
      assert (a + b)[..i] == a[..i] && (a + b)[i] == a[i];
    }
    forall i | 0 <= i < |b| ensures b[i].id !in TermIds(b[..i], fib) && b[i].id !in TermIds(a, fib) {
      assert (a + b)[..|a| + i] == a + b[..i] && (a + b)[|a| + i] == b[i];
      TermIdsConcat(a, b[..i], fib);
    }
  }

  // ---------------------------------------------------------------- what the server answers

  lemma OneAck(id: nat, fib: bool)
    ensures TermIds(Acks(id, fib), fib) == {id} == Mentioned(Acks(id, fib)) && Orderly(Acks(id, fib), fib)
  {
    var rs := Acks(id, fib);
    assert rs[0] in rs && rs[|rs| - 1] in rs && Terminal(rs[|rs| - 1], fib);
    assert fib ==> rs[..1] == [Result(id, RibProgrammed)];
  }

  lemma OneFailure(id: nat, fib: bool)
    ensures TermIds([Result(id, OpFailed)], fib) == {id} == Mentioned([Result(id, OpFailed)])
    ensures Orderly([Result(id, OpFailed)], fib)
  {
    assert Result(id, OpFailed) in [Result(id, OpFailed)];
  }

  lemma {:induction false} AllAcks(oks: seq<Op>, fib: bool)
    requires DistinctIds(oks)
    ensures TermIds(AckAll(oks, fib), fib) == Ids(oks) == Mentioned(AckAll(oks, fib))
    ensures Orderly(AckAll(oks, fib), fib)
  {
    if oks != [] {
      var n := |oks| - 1;
      var before, last := AckAll(oks[..n], fib), Acks(oks[n].id, fib);
      AllAcks(oks[..n], fib);
      OneAck(oks[n].id, fib);
      TermIdsConcat(before, last, fib);
      assert oks == oks[..n] + [oks[n]];
      IdsConcat(oks[..n], [oks[n]]);
      assert Ids([oks[n]]) == {oks[n].id};
      OrderlyConcat(before, last, fib);
    }
  }

  ghost predicate NoneFickle(s: State) {
    forall id :: id in s.pending ==> !Fickle(s.pending[id])
  }

  /** The answer to operation id: it and the operations queued before are each either
      ended by a result or queued now, and results mention only those that they end. */
  ghost predicate Answers(s: State, id: nat, fib: bool, results: seq<Result>, s': State) {
    && s.pending.Keys + {id} == TermIds(results, fib) + s'.pending.Keys
    && TermIds(results, fib) !! s'.pending.Keys
    && Mentioned(results) == TermIds(results, fib) && Orderly(results, fib)
  }

  /** The results end exactly the operations of ids, in order. */
  ghost predicate Ends(results: seq<Result>, ids: set<nat>, fib: bool) {
    TermIds(results, fib) == ids == Mentioned(results) && Orderly(results, fib)
  }

  lemma AddEnds(oks: seq<Op>, fails: seq<Op>, op: Op, fib: bool)
    requires DistinctIds(oks) && (fails == [] || fails == [op]) && Ids(oks) !! Ids(fails)
    ensures Ends(AckAll(oks, fib) + FailAll(fails), Ids(oks) + Ids(fails), fib)
  {
    AllAcks(oks, fib);
    if fails == [] {
      assert AckAll(oks, fib) + FailAll(fails) == AckAll(oks, fib);
    } else {
      assert FailAll([op]) == [Result(op.id, OpFailed)];
      assert Ids([op]) == {op.id};
      OneFailure(op.id, fib);
      TermIdsConcat(AckAll(oks, fib), FailAll(fails), fib);
      OrderlyConcat(AckAll(oks, fib), FailAll(fails), fib);
    }
  }

  lemma ProgramsAnswers(s: State, fwd: bool, fib: bool, op: Op, results: seq<Result>, s': State)
    requires Programs(s, fwd, fib, op, results, s')
    requires PendingOK(s) && NoneFickle(s) && op.id !in s.pending
    ensures Answers(s, op.id, fib, results, s')
  {
    if op.kind.Delete? {
      OneFailure(op.id, fib);
      OneAck(op.id, fib);
    } else {
      var oks, fails :| AddStep(s, fwd, op, oks, fails, s') && results == AckAll(oks, fib) + FailAll(fails);
      AddPartition(s, fwd, op, oks, fails, s');
      AddEnds(oks, fails, op, fib);
    }
  }

  lemma ModifyAnswers(s: State, fwd: bool, fib: bool, d: Details, op: Op, results: seq<Result>, s': State)
    requires ModifyStep(s, fwd, fib, d, op, Reply(results), s')
    requires PendingOK(s) && NoneFickle(s) && op.id !in s.pending
    ensures Answers(s, op.id, fib, results, s')
  {
    if CheckElectionForModify(op.elec, d).Failed? {
      OneFailure(op.id, fib);
    } else {
      ProgramsAnswers(s, fwd, fib, op, results, s');
    }
  }

  /** Serving one operation accounts for it and for everything that it unlocks. */
  lemma ServeAnswers(s: State, fwd: bool, fib: bool, d: Details, op: Op, results: seq<Result>, s': State)
    requires ServeStep(s, fwd, fib, d, op, Reply(results), s')
    requires PendingOK(s) && NoneFickle(s) && op.id !in s.pending && op.ni != ""
    ensures Answers(s, op.id, fib, results, s')
  {
    if op.ni !in s.rib.nis {
      OneFailure(op.id, fib);
    } else {
      var r :| ModifyStep(s, fwd, fib, d, op, r, s') && Reply(results) == Prefix([], r);
      assert [] + r.results == r.results;
      ModifyAnswers(s, fwd, fib, d, op, results, s');
    }
  }

  /** What is queued after op was served was queued before, or is op. */
  ghost predicate QueuedFrom(s: State, op: Op, s': State) {
    && PendingOK(s')
    && forall id :: id in s'.pending ==>
         At(s.pending, id) == Some(s'.pending[id]) || (s'.pending[id] == op && !op.kind.Delete?)
  }

  lemma AddQueues(s: State, fwd: bool, op: Op, oks: seq<Op>, fails: seq<Op>, s': State)
    requires AddStep(s, fwd, op, oks, fails, s') && PendingOK(s) && ValidNI(s.rib, op.ni) && !op.kind.Delete?
    ensures QueuedFrom(s, op, s')
  {
    if Installable(s.rib, op) { RunKeepsKeys(s.rib, oks); }
  }

  lemma ServeQueues(s: State, fwd: bool, fib: bool, d: Details, op: Op, results: seq<Result>, s': State)
    requires ServeStep(s, fwd, fib, d, op, Reply(results), s') && PendingOK(s)
    ensures QueuedFrom(s, op, s')
  {
    if s'.pending != s.pending || s'.rib != s.rib {
      var early := if op.ni == "" then [Result(op.id, OpFailed)] else [];
      var r :| ModifyStep(s, fwd, fib, d, op, r, s') && Reply(results) == Prefix(early, r);
      if !op.kind.Delete? {
        var oks, fails :| AddStep(s, fwd, op, oks, fails, s') && r.results == AckAll(oks, fib) + FailAll(fails);
        AddQueues(s, fwd, op, oks, fails, s');
      }
    }
  }

  /** Both ends understand the session parameters p alike. Whatever the server answers, the
      client works it off without an error, and each operation that it mentions is pending
      until the last result that mentions it, and no longer. */
  lemma EndsAtLastResult(s: State, fwd: bool, p: SessionParameters, d: Details, op: Op, results: seq<Result>, s': State,
          pend: map<nat, Op>, id: nat, k: nat)
    requires ServeStep(s, fwd, ParamsOf(p).fibAck, d, op, Reply(results), s')
    requires PendingOK(s) && NoneFickle(s) && op.id !in s.pending && op.ni != ""
    requires s.pending.Keys + {op.id} <= pend.Keys && k <= |results| && id in Mentioned(results)
    ensures var c := ClearAll(pend, results[..k], p.ack == RibAndFibAck);
      !c.err && (id in c.pend <==> exists j :: k <= j < |results| && results[j].id == id)
  {
    var fib := p.ack == RibAndFibAck;
    hide ServeStep, PendingOK, NoneFickle, ClearAll, Orderly, Mentioned, TermIds;
    ServeAnswers(s, fwd, fib, d, op, results, s');
    WorksOff(results, fib, pend, id, k);
  }

  lemma WorksOff(results: seq<Result>, fib: bool, pend: map<nat, Op>, id: nat, k: nat)
    requires Orderly(results, fib) && Mentioned(results) == TermIds(results, fib)
    requires Mentioned(results) <= pend.Keys && k <= |results| && id in Mentioned(results)
    ensures var c := ClearAll(pend, results[..k], fib);
      !c.err && (id in c.pend <==> exists j :: k <= j < |results| && results[j].id == id)
  {
    hide ClearAll;
    var rs := results[..k];
    forall i | 0 <= i < k ensures Live(pend, rs, fib, i) {
      assert rs[..i] == results[..i] && results[i] in results && results[i].id in Mentioned(results);
    }
    hide Live, Orderly;
    ClearLive(pend, rs, fib);
    EndedBefore(results, fib, id, k);
  }

  lemma EndedBefore(results: seq<Result>, fib: bool, id: nat, k: nat)
    requires Orderly(results, fib) && k <= |results| && id in TermIds(results, fib)
    ensures id !in TermIds(results[..k], fib) <==> exists j :: k <= j < |results| && results[j].id == id
  {
    if j :| k <= j < |results| && results[j].id == id {
      assert forall r :: r in results[..k] ==> r in results[..j];
      assert TermIds(results[..k], fib) <= TermIds(results[..j], fib);
    } else {
      var r :| r in results && Terminal(r, fib) && r.id == id;
      var i :| 0 <= i < |results| && results[i] == r;
      assert results[..k][i] == r;
    }
  }

  // ---------------------------------------------------------------- the session

  /** Operations that some AddEntry or DeleteEntry answers for good: no replaces, whose
      failure leaves them queued, and no group with a next-hop of index zero. */
  ghost predicate Acceptable(op: Op) {
    op.ni != "" && op.kind != Replace && (op.kind == Add ==> NoZero(op))
  }

  /** The client with its channel to the server, the server's RIB, the responses on their
      way back, and, for the record, the results that the client has received and the IDs
      that it has ever used. */
  datatype Session = Session(
    client: Queues, server: State, down: seq<Response>, delivered: seq<Result>, used: set<nat>)

  datatype Step =
    | Enqueued(m: Request)
    | Started(params: Option<SessionParameters>, electionID: Option<Uint128>)
    | Stopped
    | Served(d: Details, results: seq<Result>, server: State)
    | Completed(responses: seq<Response>)
    | Elsewhere(server: State)
    | Received

  function OpsOf(ms: seq<Request>): seq<Op> {
    if ms == [] then [] else ms[0].ops + OpsOf(ms[1..])
  }

  function Flat(down: seq<Response>): seq<Result> {
    if down == [] then [] else down[0].results + Flat(down[1..])
  }

  /** The first request on the channel without its first operation. */
  function Served1(outgoing: seq<Request>): seq<Request>
    requires outgoing != [] && outgoing[0].ops != []
  {
    [outgoing[0].(ops := outgoing[0].ops[1..])] + outgoing[1..]
  }

  /** The client uses fresh IDs. The server takes requests off the channel one operation
      at a time, with whatever election it finds, and answers a request without operations
      at most once; meanwhile the RIB may change in ways that leave the queue alone. */
  ghost predicate Next(y: Session, fwd: bool, fib: bool, step: Step, y': Session) {
    match step
    case Enqueued(m) =>
      && DistinctIds(m.ops) && Ids(m.ops) !! y.used && (forall o :: o in m.ops ==> Acceptable(o))
      && y' == y.(client := Enqueue(y.client, m), used := y.used + Ids(m.ops))
    case Started(params, electionID) =>
      y' == y.(client := Start(y.client, params, electionID))
    case Stopped =>
      y' == y.(client := y.client.(sending := false))
    case Served(d, results, server) =>
      && y.client.outgoing != [] && y.client.outgoing[0].ops != []
      && ServeStep(y.server, fwd, fib, d, y.client.outgoing[0].ops[0], Reply(results), server)
      && y' == y.(client := y.client.(outgoing := Served1(y.client.outgoing)), server := server,
                  down := y.down + [Response(results, None, false)])
    case Completed(responses) =>
      && y.client.outgoing != [] && y.client.outgoing[0].ops == []
      && |responses| <= 1 && (forall r :: r in responses ==> r.results == [] && Populated(r) <= 1)
      && y' == y.(client := y.client.(outgoing := y.client.outgoing[1..]), down := y.down + responses)
    case Elsewhere(server) =>
      && server.pending == y.server.pending && PendingOK(server)
      && y' == y.(server := server)
    case Received =>
      && y.down != []
      && y' == y.(client := HandleResponse(y.client, y.down[0], fib).q, down := y.down[1..],
                  delivered := y.delivered + y.down[0].results)
  }

  /** What the client waits for is not sent, on its way, queued at the server, or answered
      on the way back: each operation in one of these places. */
  ghost predicate Books(y: Session, fib: bool) {
    var unsent, underway, queued, answered :=
      Ids(OpsOf(y.client.sendq)), Ids(OpsOf(y.client.outgoing)), y.server.pending.Keys, TermIds(Flat(y.down), fib);
    && y.client.pend.Keys == unsent + underway + queued + answered
    && unsent !! underway !! queued !! answered
  }

  /** What is underway or queued is what the client has on record. */
  ghost predicate Tracked(y: Session) {
    && DistinctIds(OpsOf(y.client.sendq)) && DistinctIds(OpsOf(y.client.outgoing))
    && (forall o :: o in OpsOf(y.client.sendq) || o in OpsOf(y.client.outgoing) ==>
          Acceptable(o) && At(y.client.pend, o.id) == Some(o))
    && PendingOK(y.server) && NoneFickle(y.server)
    && (forall id :: id in y.server.pending ==> At(y.client.pend, id) == Some(y.server.pending[id]))
  }

  /** Every ID ever used is pending or was answered for good, and not both. */
  ghost predicate Answered(y: Session, fib: bool) {
    && Orderly(y.delivered + Flat(y.down), fib)
    && Mentioned(Flat(y.down)) == TermIds(Flat(y.down), fib)
    && (forall r :: r in y.down ==> Populated(r) <= 1)
    && y.used == y.client.pend.Keys + TermIds(y.delivered, fib)
    && y.client.pend.Keys !! TermIds(y.delivered, fib)
  }

  ghost predicate Conserved(y: Session, fib: bool) {
    Books(y, fib) && Tracked(y) && Answered(y, fib)
  }

  // ---------------------------------------------------------------- every step conserves

  lemma {:induction false} OpsOfConcat(a: seq<Request>, b: seq<Request>)
    ensures OpsOf(a + b) == OpsOf(a) + OpsOf(b)
  {
    if a == [] {
      assert a + b == b;
    } else {
      OpsOfConcat(a[1..], b);
      assert (a + b)[1..] == a[1..] + b;
      Associative(a[0].ops, OpsOf(a[1..]), OpsOf(b));
    }
  }

  lemma OpsOfSnoc(a: seq<Request>, m: Request)
    ensures OpsOf(a + [m]) == OpsOf(a) + m.ops
  {
    OpsOfConcat(a, [m]);
    assert OpsOf([m]) == m.ops + OpsOf([]);
  }

  lemma {:induction false} FlatConcat(a: seq<Response>, b: seq<Response>)
    ensures Flat(a + b) == Flat(a) + Flat(b)
  {
    if a == [] {
      assert a + b == b;
    } else {
      FlatConcat(a[1..], b);
      assert (a + b)[1..] == a[1..] + b;
      Associative(a[0].results, Flat(a[1..]), Flat(b));
    }
  }

  /** Where the operations of m go when m is enqueued. */
  ghost predicate Joined(q: Queues, ops: seq<Op>, q': Queues) {
    && q'.pend.Keys == q.pend.Keys + Ids(ops)
    && (forall o :: o in ops ==> At(q'.pend, o.id) == Some(o))
    && (forall id :: id in q.pend ==> At(q'.pend, id) == Some(q.pend[id]))
    && (|| (OpsOf(q'.sendq) == OpsOf(q.sendq) + ops && OpsOf(q'.outgoing) == OpsOf(q.outgoing))
        || (OpsOf(q'.sendq) == OpsOf(q.sendq) && OpsOf(q'.outgoing) == OpsOf(q.outgoing) + ops))
  }

  lemma EnqueueJoins(q: Queues, m: Request)
    requires DistinctIds(m.ops) && Ids(m.ops) !! q.pend.Keys
    ensures Joined(q, m.ops, Enqueue(q, m))
  {
    AddOpsIff(q.pend, m.ops);
    OpsOfSnoc(q.sendq, m);
    OpsOfSnoc(q.outgoing, m);
  }

  /** y' is y with ops newly enqueued. */
  ghost predicate Joins(y: Session, ops: seq<Op>, y': Session) {
    && Joined(y.client, ops, y'.client)
    && y' == y.(client := y'.client, used := y.used + Ids(ops))
    && Ids(ops) !! y.used && DistinctIds(ops)
    && forall o :: o in ops ==> Acceptable(o)
  }

  lemma JoinsBooks(y: Session, fib: bool, ops: seq<Op>, y': Session)
    requires Books(y, fib) && Answered(y, fib) && Joins(y, ops, y')
    ensures Books(y', fib) && Answered(y', fib)
  {
    IdsConcat(OpsOf(y.client.sendq), ops);
    IdsConcat(OpsOf(y.client.outgoing), ops);
  }

  lemma JoinsTracked(y: Session, fib: bool, ops: seq<Op>, y': Session)
    requires Books(y, fib) && Answered(y, fib) && Tracked(y) && Joins(y, ops, y')
    ensures Tracked(y')
  {
    IdsConcat(OpsOf(y.client.sendq), ops);
    IdsConcat(OpsOf(y.client.outgoing), ops);
  }

  lemma EnqueueConserves(y: Session, fwd: bool, fib: bool, m: Request, y': Session)
    requires Conserved(y, fib) && Next(y, fwd, fib, Enqueued(m), y')
    ensures Conserved(y', fib)
  {
    assert Joins(y, m.ops, y') by { EnqueueJoins(y.client, m); }
    JoinsBooks(y, fib, m.ops, y');
    JoinsTracked(y, fib, m.ops, y');
  }

  /** Starting only moves requests, and adds some without operations. */
  lemma StartMoves(q: Queues, params: Option<SessionParameters>, electionID: Option<Uint128>)
    ensures var q' := Start(q, params, electionID);
      q'.pend == q.pend && OpsOf(q'.sendq) == [] && OpsOf(q'.outgoing) == OpsOf(q.outgoing) + OpsOf(q.sendq)
  {
    var q1 := q.(sending := true);
    var m2, m3 := Request([], None, params), Request([], electionID, None);
    OpsOfSnoc(q.outgoing, m2);
    var q2 := if params.Some? then Enqueue(q1, m2) else q1;
    OpsOfSnoc(q2.outgoing, m3);
    var q3 := if electionID.Some? then Enqueue(q2, m3) else q2;
    OpsOfConcat(q3.outgoing, q3.sendq);
  }

  lemma StartConserves(y: Session, fwd: bool, fib: bool, params: Option<SessionParameters>,
          electionID: Option<Uint128>, y': Session)
    requires Conserved(y, fib) && Next(y, fwd, fib, Started(params, electionID), y')
    ensures Conserved(y', fib)
  {
    StartMoves(y.client, params, electionID);
    IdsConcat(OpsOf(y.client.outgoing), OpsOf(y.client.sendq));
    assert Ids([]) == {};
  }

  /** The first operation on the channel, and the others. */
  lemma ServedFirst(outgoing: seq<Request>) returns (op: Op, rest: seq<Op>)
    requires outgoing != [] && outgoing[0].ops != []
    ensures op == outgoing[0].ops[0] && rest == OpsOf(Served1(outgoing))
    ensures OpsOf(outgoing) == [op] + rest
  {
    op, rest := outgoing[0].ops[0], OpsOf(Served1(outgoing));
    assert outgoing[0].ops == [op] + outgoing[0].ops[1..];
    assert Served1(outgoing)[1..] == outgoing[1..];
  }

  /** y' is y after op, the first on the channel, was answered with results. */
  ghost predicate Answering(y: Session, fib: bool, op: Op, rest: seq<Op>, results: seq<Result>, y': Session) {
    && OpsOf(y.client.outgoing) == [op] + rest && OpsOf(y'.client.outgoing) == rest
    && y'.client == y.client.(outgoing := y'.client.outgoing)
    && y'.delivered == y.delivered && y'.used == y.used
    && Answers(y.server, op.id, fib, results, y'.server)
    && y'.down == y.down + [Response(results, None, false)]
  }

  lemma ServedAnswers(y: Session, fwd: bool, fib: bool, d: Details, results: seq<Result>, server: State, y': Session)
    returns (op: Op, rest: seq<Op>)
    requires Conserved(y, fib) && Next(y, fwd, fib, Served(d, results, server), y')
    ensures Answering(y, fib, op, rest, results, y')
  {
    op, rest := ServedFirst(y.client.outgoing);
    DistinctCons(op, rest);
    ServeAnswers(y.server, fwd, fib, d, op, results, server);
  }

  lemma FlatSnoc(down: seq<Response>, r: Response)
    ensures Flat(down + [r]) == Flat(down) + r.results
  {
    FlatConcat(down, [r]);
    assert Flat([r]) == r.results + Flat([]);
  }

  lemma AnsweringBooks(y: Session, fib: bool, op: Op, rest: seq<Op>, results: seq<Result>, y': Session)
    requires Books(y, fib) && Tracked(y) && Answering(y, fib, op, rest, results, y')
    ensures Books(y', fib)
  {
    DistinctCons(op, rest);
    FlatSnoc(y.down, Response(results, None, false));
    TermIdsConcat(Flat(y.down), results, fib);
  }

  lemma AnsweringAnswered(y: Session, fib: bool, op: Op, rest: seq<Op>, results: seq<Result>, y': Session)
    requires Books(y, fib) && Tracked(y) && Answered(y, fib) && Answering(y, fib, op, rest, results, y')
    ensures Answered(y', fib)
  {
    DistinctCons(op, rest);
    FlatSnoc(y.down, Response(results, None, false));
    TermIdsConcat(Flat(y.down), results, fib);
    TermIdsConcat(y.delivered, Flat(y.down), fib);
    OrderlyConcat(y.delivered + Flat(y.down), results, fib);
    Associative(y.delivered, Flat(y.down), results);
  }

  lemma ServedTracked(y: Session, fwd: bool, fib: bool, d: Details, results: seq<Result>, server: State, y': Session)
    requires Conserved(y, fib) && Next(y, fwd, fib, Served(d, results, server), y')
    ensures Tracked(y')
  {
    hide ServeStep, Books, Answered, Waitable;
    var op, rest := ServedFirst(y.client.outgoing);
    DistinctCons(op, rest);
    ServeQueues(y.server, fwd, fib, d, op, results, server);
    assert op in OpsOf(y.client.outgoing);
  }

  lemma ServedConserves(y: Session, fwd: bool, fib: bool, d: Details, results: seq<Result>, server: State, y': Session)
    requires Conserved(y, fib) && Next(y, fwd, fib, Served(d, results, server), y')
    ensures Conserved(y', fib)
  {
    var op, rest := ServedAnswers(y, fwd, fib, d, results, server, y');
    AnsweringBooks(y, fib, op, rest, results, y');
    AnsweringAnswered(y, fib, op, rest, results, y');
    ServedTracked(y, fwd, fib, d, results, server, y');
  }

  lemma CompletedConserves(y: Session, fwd: bool, fib: bool, responses: seq<Response>, y': Session)
    requires Conserved(y, fib) && Next(y, fwd, fib, Completed(responses), y')
    ensures Conserved(y', fib)
  {
    assert OpsOf(y.client.outgoing) == OpsOf(y'.client.outgoing);
    FlatConcat(y.down, responses);
    assert responses != [] ==> responses == [responses[0]] && Flat(responses) == [] + Flat([]);
    assert Flat(y'.down) == Flat(y.down);
  }

  /** A response that arrives is matched, result by result, with operations that the
      client has on record, and is never an error. */
  lemma ReceivedIsExpected(y: Session, fib: bool)
    requires Conserved(y, fib) && y.down != []
    ensures !HandleResponse(y.client, y.down[0], fib).err
    ensures HandleResponse(y.client, y.down[0], fib).q.pend == y.client.pend - TermIds(y.down[0].results, fib)
    ensures var q, rs := y.client, y.down[0].results;
      rs != [] ==> HandleResponse(q, y.down[0], fib).q.resultq == q.resultq + MatchAll(q.pend, rs)
    ensures forall r :: r in y.down[0].results ==> r.id in y.client.pend
  {
    var q, rs, later := y.client, y.down[0].results, Flat(y.down[1..]);
    OrderlySplit(y.delivered, rs + later, fib);
    OrderlySplit(rs, later, fib);
    TermIdsConcat(rs, later, fib);
    forall i | 0 <= i < |rs| ensures Live(q.pend, rs, fib, i) {
      assert rs[i] in rs && rs[i].id in Mentioned(rs);
    }
    ClearLive(q.pend, rs, fib);
    if rs == [] { assert TermIds(rs, fib) == {}; }
  }

  /** y' is y with the results rs received, and later still to come. */
  ghost predicate Taken(y: Session, fib: bool, rs: seq<Result>, later: seq<Result>, y': Session) {
    && Flat(y.down) == rs + later && Flat(y'.down) == later
    && TermIds(Flat(y.down), fib) == TermIds(rs, fib) + TermIds(later, fib)
    && TermIds(rs, fib) !! TermIds(later, fib)
    && y'.client.pend == y.client.pend - TermIds(rs, fib)
    && y'.client.sendq == y.client.sendq && y'.client.outgoing == y.client.outgoing
    && y'.server == y.server
  }

  lemma ReceivedTakes(y: Session, fwd: bool, fib: bool, y': Session)
    requires Conserved(y, fib) && Next(y, fwd, fib, Received, y')
    ensures Taken(y, fib, y.down[0].results, Flat(y.down[1..]), y')
    ensures Mentioned(Flat(y'.down)) == TermIds(Flat(y'.down), fib)
  {
    var rs, later := y.down[0].results, Flat(y.down[1..]);
    ReceivedIsExpected(y, fib);
    OrderlySplit(y.delivered, rs + later, fib);
    OrderlySplit(rs, later, fib);
    TermIdsConcat(rs, later, fib);
    assert TermIds(later, fib) <= Mentioned(later);
  }

  lemma TakenKeeps(y: Session, fib: bool, rs: seq<Result>, later: seq<Result>, y': Session)
    requires Books(y, fib) && Tracked(y) && Taken(y, fib, rs, later, y')
    ensures Books(y', fib) && Tracked(y')
  {
    forall o | o in OpsOf(y.client.sendq) || o in OpsOf(y.client.outgoing) ensures o.id !in TermIds(rs, fib) {
      assert o.id in Ids(OpsOf(y.client.sendq)) + Ids(OpsOf(y.client.outgoing));
    }
  }

  lemma ReceivedConserves(y: Session, fwd: bool, fib: bool, y': Session)
    requires Conserved(y, fib) && Next(y, fwd, fib, Received, y')
    ensures Conserved(y', fib)
  {
    var rs, later := y.down[0].results, Flat(y.down[1..]);
    ReceivedTakes(y, fwd, fib, y');
    TakenKeeps(y, fib, rs, later, y');
    TermIdsConcat(y.delivered, rs, fib);
    Associative(y.delivered, rs, later);
  }

  lemma NextConserves(y: Session, fwd: bool, fib: bool, step: Step, y': Session)
    requires Conserved(y, fib) && Next(y, fwd, fib, step, y')
    ensures Conserved(y', fib)
  {
    match step
    case Enqueued(m) => EnqueueConserves(y, fwd, fib, m, y');
    case Started(params, electionID) => StartConserves(y, fwd, fib, params, electionID, y');
    case Stopped =>
    case Served(d, results, server) => ServedConserves(y, fwd, fib, d, results, server, y');
    case Completed(responses) => CompletedConserves(y, fwd, fib, responses, y');
    case Elsewhere(server) =>
    case Received => ReceivedConserves(y, fwd, fib, y');
  }

  // ---------------------------------------------------------------- whole sessions

  /** A new client, and a server whose queue is empty. */
  ghost predicate Initial(y: Session) {
    && y.client == Queues(map[], None, None, false, [], [], [], 0)
    && y.server.pending == map[] && y.down == [] && y.delivered == [] && y.used == {}
  }

  ghost predicate IsRun(fwd: bool, fib: bool, steps: seq<Step>, states: seq<Session>) {
    && |states| == |steps| + 1 && Initial(states[0])
    && forall i :: 0 <= i < |steps| ==> Next(states[i], fwd, fib, steps[i], states[i + 1])
  }

  lemma InitialConserves(y: Session, fib: bool)
    requires Initial(y)
    ensures Conserved(y, fib)
  {
    NoIds([]);
    NoneMentioned([]);
  }

  lemma {:induction false} RunConserves(fwd: bool, fib: bool, steps: seq<Step>, states: seq<Session>, k: nat)
    requires IsRun(fwd, fib, steps, states) && k <= |steps|
    ensures Conserved(states[k], fib)
  {
    if k > 0 {
      hide Conserved, Next;
      RunConserves(fwd, fib, steps, states, k - 1);
      assert Next(states[k - 1], fwd, fib, steps[k - 1], states[k]);
      NextConserves(states[k - 1], fwd, fib, steps[k - 1], states[k]);
    } else {
      InitialConserves(states[0], fib);
    }
  }

  /** Throughout a session, in either ACK mode: what the client waits for is the disjoint
      union of what is unsent, underway, queued at the server and answered on the way
      back; and no result that arrives is unexpected. */
  lemma SessionConserves(fwd: bool, fib: bool, steps: seq<Step>, states: seq<Session>, k: nat)
    requires IsRun(fwd, fib, steps, states) && k <= |steps|
    ensures Books(states[k], fib)
    ensures states[k].down != [] ==>
      var h := HandleResponse(states[k].client, states[k].down[0], fib);
      !h.err && h.q.pend == states[k].client.pend - TermIds(states[k].down[0].results, fib)
  {
    RunConserves(fwd, fib, steps, states, k);
    if states[k].down != [] { ReceivedIsExpected(states[k], fib); }
  }

  /** No operation is ever answered for good twice. */
  lemma AnsweredOnce(fwd: bool, fib: bool, steps: seq<Step>, states: seq<Session>, k: nat, i: nat, j: nat)
    requires IsRun(fwd, fib, steps, states) && k <= |steps|
    requires i < j < |states[k].delivered + Flat(states[k].down)|
    ensures var log := states[k].delivered + Flat(states[k].down);
      !(Terminal(log[i], fib) && log[i].id == log[j].id)
  {
    RunConserves(fwd, fib, steps, states, k);
    var log := states[k].delivered + Flat(states[k].down);
    assert log[..j][i] == log[i] && log[i] in log[..j];
  }

  /** The client has nothing pending exactly when nothing is unsent, underway, queued or
      on its way back; and then every operation ever enqueued was answered for good. */
  lemma NothingPendingIff(fwd: bool, fib: bool, steps: seq<Step>, states: seq<Session>, k: nat)
    requires IsRun(fwd, fib, steps, states) && k <= |steps|
    ensures var y := states[k];
      && (y.client.pend == map[] <==>
          && OpsOf(y.client.sendq) == [] && OpsOf(y.client.outgoing) == []
          && y.server.pending == map[] && Flat(y.down) == [])
      && (Converged(y.client) ==> y.server.pending == map[] && y.used == TermIds(y.delivered, fib))
  {
    var y := states[k];
    RunConserves(fwd, fib, steps, states, k);
    NoIds(OpsOf(y.client.sendq));
    NoIds(OpsOf(y.client.outgoing));
    NoneMentioned(Flat(y.down));
  }

  lemma NoIds(ops: seq<Op>)
    ensures Ids(ops) == {} <==> ops == []
  {
    if ops != [] { assert ops[0] in ops && ops[0].id in Ids(ops); }
  }

  lemma NoneMentioned(rs: seq<Result>)
    ensures Mentioned(rs) == {} <==> rs == []
  {
    if rs != [] { assert rs[0] in rs && rs[0].id in Mentioned(rs); }
  }

  /** The master of the current election, sending its current ID, never meets an error
      that ends its session. */
  lemma ElectedIsServed(s: State, fwd: bool, fib: bool, d: Details, op: Op, reply: Reply, s': State)
    requires ServeStep(s, fwd, fib, d, op, reply, s') && op.ni != ""
    requires d.master != "" && d.client == d.master && d.id.Some? && d.clientLatest == d.id && op.elec.Some?
    ensures reply.Reply?
  {
    GreaterNeeds(op.elec, d);
  }
}
