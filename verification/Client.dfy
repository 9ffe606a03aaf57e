/** The client as it runs: its queues, changed in place. */
module ClientImpl {
  import opened Aft
  import opened Engine
  import opened Sessions
  import opened Modify
  import opened Queues

  /** Of ops, those before the one at k were recorded; that one has an ID that is taken. */
  ghost predicate StoppedAt(taken: set<nat>, ops: seq<Op>, k: nat, taken': set<nat>) {
    && k < |ops| && DistinctIds(ops[..k]) && Ids(ops[..k]) !! taken
    && ops[k].id in taken + Ids(ops[..k]) && taken' == taken + Ids(ops[..k])
  }

  class Client {
    /** The session parameters and the election ID that the client was configured with. */
    const sessParams: Option<SessionParameters>
    const electionID: Option<Uint128>
    var pendOps: map<nat, Op>
    var pendElection: Option<Uint128>
    var pendParams: Option<SessionParameters>
    var sending: bool
    var sendq: seq<Request>
    /** The channel to the server. */
    var modifyCh: seq<Request>
    var resultq: seq<OpResult>
    var sendErrs: nat

    ghost function View(): Queues reads this {
      Queues(pendOps, pendElection, pendParams, sending, sendq, modifyCh, resultq, sendErrs)
    }

    /** Whether the session was asked to acknowledge in the FIB too. */
    predicate FibAck()
      ensures FibAck() <==> sessParams.Some? && sessParams.value.ack == RibAndFibAck
    {
      sessParams.Some? && sessParams.value.ack.RibAndFibAck?
    }

    constructor (sessParams: Option<SessionParameters>, electionID: Option<Uint128>)
      ensures this.sessParams == sessParams && this.electionID == electionID
      ensures View() == Queues(map[], None, None, false, [], [], [], 0)
    {
      this.sessParams, this.electionID := sessParams, electionID;
      pendOps, pendElection, pendParams := map[], None, None;
      sending, sendq, modifyCh := false, [], [];
      resultq, sendErrs := [], 0;
    }

    method AddPendingOp(op: Op) returns (err: bool)
      modifies `pendOps
      ensures err == (op.id in old(pendOps))
      ensures pendOps == if err then old(pendOps) else old(pendOps)[op.id := op]
    {
      if op.id in pendOps { return true; }
      pendOps := pendOps[op.id := op];
      return false;
    }

    /** Records what m makes pending. An operation whose ID is pending already is an error
        that leaves the rest of m unrecorded. */
    method HandleModifyRequest(m: Request) returns (err: bool)
      modifies `pendOps, `pendElection, `pendParams
      ensures err == AddOps(old(pendOps), m.ops).err
      ensures View() == HandleRequest(old(View()), m).(sendErrs := old(sendErrs))
      ensures err <==> !(DistinctIds(m.ops) && Ids(m.ops) !! old(pendOps.Keys))
      ensures !err ==> pendOps.Keys == old(pendOps.Keys) + Ids(m.ops)
      ensures !err ==> forall o :: o in m.ops ==> At(pendOps, o.id) == Some(o)
      ensures forall id :: id in old(pendOps) ==> At(pendOps, id) == Some(old(pendOps)[id])
      ensures err ==> exists k :: 0 <= k < |m.ops| && StoppedAt(old(pendOps.Keys), m.ops, k, pendOps.Keys)
      ensures err ==> pendElection == old(pendElection) && pendParams == old(pendParams)
      ensures !err ==> pendElection == if m.electionID.Some? then m.electionID else old(pendElection)
      ensures !err ==> pendParams == if m.params.Some? then m.params else old(pendParams)
    {
      AddOpsIff(pendOps, m.ops);
      if AddOps(pendOps, m.ops).err {
        ghost var k := AddOpsStops(pendOps, m.ops);
        assert StoppedAt(pendOps.Keys, m.ops, k, AddOps(pendOps, m.ops).pend.Keys);
      }
      for i := 0 to |m.ops|
        invariant AddOps(pendOps, m.ops[i..]) == AddOps(old(pendOps), m.ops)
        invariant pendElection == old(pendElection) && pendParams == old(pendParams)
      {
        assert m.ops[i..][0] == m.ops[i] && m.ops[i..][1..] == m.ops[i + 1..];
        err := AddPendingOp(m.ops[i]);
        if err { return true; }
      }
      if m.electionID.Some? { pendElection := m.electionID; }
      if m.params.Some? { pendParams := m.params; }
      return false;
    }

    method Q(m: Request)
      modifies this
      ensures View() == Enqueue(old(View()), m)
      ensures sending == old(sending)
      ensures sendErrs == old(sendErrs) + if DistinctIds(m.ops) && Ids(m.ops) !! old(pendOps.Keys) then 0 else 1
      ensures modifyCh == old(modifyCh) + if sending then [m] else []
      ensures sendq == old(sendq) + if sending then [] else [m]
    {
      var err := HandleModifyRequest(m);
      if err { sendErrs := sendErrs + 1; }
      if !sending {
        sendq := sendq + [m];
        return;
      }
      modifyCh := modifyCh + [m];
    }

    method StartSending()
      modifies this
      ensures View() == Start(old(View()), sessParams, electionID)
      ensures sending && sendq == []
      ensures modifyCh == old(modifyCh)
        + (if sessParams.Some? then [Request([], None, sessParams)] else [])
        + (if electionID.Some? then [Request([], electionID, None)] else [])
        + old(sendq)
    {
      sending := true;
      if sessParams.Some? { Q(Request([], None, sessParams)); }
      if electionID.Some? { Q(Request([], electionID, None)); }
      SendQueued();
    }

    /** Sends what was queued. */
    method SendQueued()
      modifies `modifyCh, `sendq
      ensures modifyCh == old(modifyCh) + old(sendq) && sendq == []
    {
      for i := 0 to |sendq|
        invariant sendq == old(sendq) && modifyCh == old(modifyCh) + sendq[..i]
      {
        modifyCh := modifyCh + [sendq[i]];
      }
      sendq := [];
    }

    method StopSending()
      modifies this
      ensures View() == old(View()).(sending := false)
    {
      sending := false;
    }

    method ClearPendingOp(r: Result) returns (res: OpResult, err: bool)
      modifies `pendOps
      ensures Cleared(pendOps, [res], err) == ClearOp(old(pendOps), r, FibAck())
      ensures
        var fib := sessParams.Some? && sessParams.value.ack == RibAndFibAck;
        && pendOps == (if r.status == RibProgrammed && fib then old(pendOps) else old(pendOps) - {r.id})
        && (r.id in old(pendOps) ==> !err && res == Programming(r.id, r.status, Some(old(pendOps)[r.id])))
        && (err <==> r.id !in old(pendOps) && !(r.status == RibProgrammed && fib))
    {
      if r.id !in pendOps {
        if r.status.RibProgrammed? && FibAck() { return Programming(r.id, r.status, None), false; }
        return NoResult, true;
      }
      res, err := Programming(r.id, r.status, Some(pendOps[r.id])), false;
      match r.status
      case FibProgrammed => pendOps := pendOps - {r.id};
      case RibProgrammed => if !FibAck() { pendOps := pendOps - {r.id}; }
      case OpFailed => pendOps := pendOps - {r.id};
    }

    method ClearPendingElection() returns (expected: bool)
      modifies `pendElection
      ensures expected == old(pendElection).Some? && pendElection == None
    {
      expected := pendElection.Some?;
      pendElection := None;
    }

    method ClearPendingSessionParams() returns (expected: bool)
      modifies `pendParams
      ensures expected == old(pendParams).Some? && pendParams == None
    {
      expected := pendParams.Some?;
      pendParams := None;
    }

    method HandleResults(rs: seq<Result>) returns (err: bool)
      modifies `pendOps, `resultq
      ensures Cleared(pendOps, resultq, err) == Onto(old(resultq), ClearAll(old(pendOps), rs, FibAck()))
      ensures var fib := sessParams.Some? && sessParams.value.ack == RibAndFibAck;
        && old(resultq) <= resultq
        && WorkedOff(old(pendOps), rs, fib, Cleared(pendOps, resultq[|old(resultq)|..], err))
    {
      ClearedIs(pendOps, rs, FibAck());
      hide WorkedOff;
      ghost var all := Onto(resultq, ClearAll(pendOps, rs, FibAck()));
      for i := 0 to |rs|
        invariant Onto(resultq, ClearAll(pendOps, rs[i..], FibAck())) == all
      {
        assert rs[i..][0] == rs[i] && rs[i..][1..] == rs[i + 1..];
        OntoStep(resultq, pendOps, rs[i..], FibAck());
        var res;
        res, err := ClearPendingOp(rs[i]);
        resultq := resultq + [res];
        if err { return true; }
      }
      err := false;
    }

    /** Takes what m answers off the queues and adds to the results. A message may only
        be populated in one way. */
    method HandleModifyResponse(m: Response) returns (err: bool)
      modifies `pendOps, `pendElection, `pendParams, `resultq
      ensures Handled(View(), err) == HandleResponse(old(View()), m, FibAck())
      ensures Overpopulated(m) ==> err && View() == old(View())
      ensures !Overpopulated(m) && m.electionID.Some? ==>
        && !err && pendElection == None && pendOps == old(pendOps) && pendParams == old(pendParams)
        && resultq == old(resultq) + [ElectionUpdate(m.electionID.value, old(pendElection).Some?)]
      ensures !Overpopulated(m) && m.paramsResult ==>
        && !err && pendParams == None && pendOps == old(pendOps) && pendElection == old(pendElection)
        && resultq == old(resultq) + [ParamsUpdate(old(pendParams).Some?)]
      ensures !Overpopulated(m) && m.electionID.None? && !m.paramsResult ==>
        var fib := sessParams.Some? && sessParams.value.ack == RibAndFibAck;
        && pendElection == old(pendElection) && pendParams == old(pendParams) && old(resultq) <= resultq
        && WorkedOff(old(pendOps), m.results, fib, Cleared(pendOps, resultq[|old(resultq)|..], err))
    {
      hide WorkedOff;
      if Populated(m) > 1 { return true; }
      if m.electionID.Some? {
        var expected := ClearPendingElection();
        resultq := resultq + [ElectionUpdate(m.electionID.value, expected)];
      }
      if m.paramsResult {
        var expected := ClearPendingSessionParams();
        resultq := resultq + [ParamsUpdate(expected)];
      }
      err := HandleResults(m.results);
    }

    method IsConverged() returns (b: bool)
      ensures b == Converged(View())
      ensures b <==> sendq == [] && pendOps == map[] && pendElection == None && pendParams == None
    {
      b := sendq == [] && PendingLen() == 0;
    }

    /** The number of pending requests of all kinds. */
    function PendingLen(): (n: nat)
      reads this
      ensures n == 0 <==> pendOps == map[] && pendElection.None? && pendParams.None?
    {
      (if pendParams.Some? then 1 else 0) + (if pendElection.Some? then 1 else 0) + |pendOps|
    }
  }
}
