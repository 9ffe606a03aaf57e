/** The server as it runs: client sessions, the election, and the RIB behind them. */
module ServerImpl {
  import opened Aft
  import opened Engine
  import opened Retry
  import opened RibImpl
  import opened Election
  import opened Sessions
  import opened Modify
  import opened Partition
  import opened Reporting
  import opened FlushErrors
  import opened Concrete
  import opened Payloads
  import opened Get

  class Server {
    var cs: Clients
    var curElecID: Option<Uint128>
    var curMaster: string
    const masterRIB: RIB

    constructor (masterRIB: RIB)
      ensures cs == map[] && curElecID == None && curMaster == "" && this.masterRIB == masterRIB
    {
      cs, curElecID, curMaster := map[], None, "";
      this.masterRIB := masterRIB;
    }

    method NewClient(id: string) returns (err: bool)
      modifies `cs
      ensures err == (id in old(cs))
      ensures cs == if err then old(cs) else old(cs)[id := ClientState(Params(false, false, false), false, None)]
    {
      if id in cs { return true; }
      cs := cs[id := ClientState(DEFAULTS, false, None)];
      return false;
    }

    method DeleteClient(id: string)
      modifies `cs
      ensures cs == old(cs) - {id}
    {
      cs := cs - {id};
    }

    /** Whether every other client has the parameters p. */
    method CheckClientsConsistent(id: string, p: Params) returns (consistent: bool)
      ensures consistent == ConsistentWith(cs, id, p)
    {
      var todo := cs.Keys;
      while todo != {}
        invariant todo <= cs.Keys
        invariant forall c :: c in cs && c !in todo && c != id ==> cs[c].params == p
      {
        var c :| c in todo;
        todo := todo - {c};
        if c != id && cs[c].params != p { return false; }
      }
      return true;
    }

    method SetClientParams(id: string, p: Params) returns (err: bool)
      modifies `cs
      ensures err == (id !in old(cs))
      ensures cs == if err then old(cs) else old(cs)[id := old(cs)[id].(params := p)]
    {
      if id !in cs { return true; }
      cs := cs[id := cs[id].(params := p)];
      return false;
    }

    /** The check of a client's parameters and, when they are fine, their update. */
    method CheckParams(id: string, p: SessionParameters, gotMsg: bool) returns (v: ParamsVerdict, err: bool)
      modifies `cs
      ensures v == Sessions.CheckParams(old(cs), id, p, gotMsg)
      ensures var supported, q := p.redundancy == SinglePrimary && p.persistence == Preserve, p.ack == RibAndFibAck;
        && (v == ModifyNotAllowed <==> gotMsg)
        && (v == UnsupportedParams <==> !gotMsg && !supported)
        && (v == ParamsDiffer <==>
              !gotMsg && supported && exists c :: c in old(cs) && c != id && old(cs)[c].params != Params(true, true, q))
        && (v == ParamsOK && !err ==> id in cs && cs[id].params == Params(true, true, q))
      ensures err == (v.ParamsOK? && id !in old(cs))
      ensures cs == if v.ParamsOK? && !err then old(cs)[id := old(cs)[id].(params := ParamsOf(p))] else old(cs)
    {
      if gotMsg { return ModifyNotAllowed, false; }
      if p.redundancy.AllPrimary? || p.persistence.DeleteOnExit? { return UnsupportedParams, false; }
      var consistent := CheckClientsConsistent(id, ParamsOf(p));
      if !consistent { return ParamsDiffer, false; }
      err := SetClientParams(id, ParamsOf(p));
      return ParamsOK, err;
    }

    method UpdateParams(id: string, p: SessionParameters) returns (err: bool)
      modifies `cs
      ensures err == (id !in old(cs) || old(cs)[id].setParams)
      ensures cs == if err then old(cs) else old(cs)[id := old(cs)[id].(params := ParamsOf(p), setParams := true)]
      ensures !err ==> cs[id].params.persist == (p.persistence == Preserve)
      ensures !err ==> cs[id].params.expectElecID == (p.redundancy == SinglePrimary)
      ensures !err ==> cs[id].params.fibAck == (p.ack == RibAndFibAck)
    {
      if id !in cs || cs[id].setParams { return true; }
      cs := cs[id := cs[id].(params := ParamsOf(p), setParams := true)];
      return false;
    }

    method StoreClientElectionID(id: string, elecID: Uint128) returns (ok: bool)
      modifies `cs
      ensures ok == (id in old(cs))
      ensures cs == if ok then old(cs)[id := old(cs)[id].(lastElecID := Some(elecID))] else old(cs)
    {
      if id !in cs { return false; }
      cs := cs[id := cs[id].(lastElecID := Some(elecID))];
      return true;
    }

    /** Stores the election ID and then decides upon it. The response is the current ID. */
    method RunElection(id: string, elecID: Uint128) returns (err: bool, current: Option<Uint128>)
      modifies `cs, `curElecID, `curMaster
      ensures err == (id !in old(cs) || !old(cs)[id].params.expectElecID || Value(elecID) == 0)
      ensures err ==> cs == old(cs) && Elected(curElecID, curMaster) == old(Elected(curElecID, curMaster))
      ensures !err ==> cs == old(cs)[id := old(cs)[id].(lastElecID := Some(elecID))]
      ensures !err ==> Elected(curElecID, curMaster) == Decide(old(Elected(curElecID, curMaster)), Vote(id, elecID))
      ensures !err ==> current == curElecID
      ensures !err ==>
        var e := old(curElecID);
        var wins := e.None? || Value(elecID) >= Value(e.value) || Undercuts(elecID, e.value);
        curElecID == (if wins then Some(elecID) else e) && curMaster == (if wins then id else old(curMaster))
    {
      IsNewMasterIff(elecID, curElecID);
      current := None;
      if id !in cs || !cs[id].params.expectElecID || Value(elecID) == 0 { return true, None; }
      var _ := StoreClientElectionID(id, elecID);
      if IsNewMaster(elecID, curElecID) {
        curElecID, curMaster := Some(elecID), id;
      }
      return false, curElecID;
    }

    method ProgramDelete(op: Op, fibAck: bool) returns (results: seq<Result>)
      requires masterRIB.Valid() && QueueOK(masterRIB.View(), masterRIB.fwd)
      requires ValidNI(masterRIB.rib, op.ni) && op.kind.Delete?
      modifies masterRIB`rib, masterRIB.niRIB.Values
      ensures masterRIB.Valid() && QueueOK(masterRIB.View(), masterRIB.fwd)
      ensures Programs(old(masterRIB.View()), masterRIB.fwd, fibAck, op, results, masterRIB.View())
      ensures results ==
        if !Deletable(old(masterRIB.rib), SlotOf(op)) then [Result(op.id, OpFailed)]
        else if fibAck then [Result(op.id, RibProgrammed), Result(op.id, FibProgrammed)]
        else [Result(op.id, RibProgrammed)]
    {
      ghost var s := masterRIB.View();
      var _, ok := masterRIB.DeleteEntry(op);
      results := if ok then Acks(op.id, fibAck) else [Result(op.id, OpFailed)];
      DeleteKeepsQueueOK(s, masterRIB.fwd, op, ok, masterRIB.View());
    }

    method ProgramAdd(op: Op, fibAck: bool) returns (results: seq<Result>)
      requires masterRIB.Valid() && QueueOK(masterRIB.View(), masterRIB.fwd)
      requires ValidNI(masterRIB.rib, op.ni) && !op.kind.Delete?
      modifies masterRIB`rib, masterRIB`pending, masterRIB.niRIB.Values
      ensures masterRIB.Valid() && QueueOK(masterRIB.View(), masterRIB.fwd)
      ensures Programs(old(masterRIB.View()), masterRIB.fwd, fibAck, op, results, masterRIB.View())
      ensures op.id !in old(masterRIB.pending) ==>
        (Result(op.id, RibProgrammed) in results <==> Installable(old(masterRIB.rib), op))
      ensures op.id !in old(masterRIB.pending) ==> forall id ::
        id in old(masterRIB.pending) && id !in masterRIB.pending ==> Result(id, RibProgrammed) in results
    {
      hide RIB.Valid, Programs, FibAfterRib, AddStep, Installable, Rejectable, AckAll, FailAll;
      ghost var s := masterRIB.View();
      var _, oks, fails, _ := masterRIB.AddEntry(op);
      AddPrograms(s, masterRIB.fwd, fibAck, op, oks, fails, masterRIB.View());
      results := Report(oks, fails, fibAck);
      if op.id !in s.pending { AddReported(s, masterRIB.fwd, fibAck, op, results, masterRIB.View()); }
    }

    method ModifyEntry(op: Op, fibAck: bool, d: Details) returns (reply: Reply)
      requires masterRIB.Valid() && QueueOK(masterRIB.View(), masterRIB.fwd)
      modifies masterRIB`rib, masterRIB`pending, masterRIB.niRIB.Values
      ensures masterRIB.Valid() && QueueOK(masterRIB.View(), masterRIB.fwd)
      ensures ModifyStep(old(masterRIB.View()), masterRIB.fwd, fibAck, d, op, reply, masterRIB.View())
    {
      var a := CheckElectionForModify(op.elec, d);
      if EndsSession(a) { return SessionError([]); }
      if a.Failed? { return Reply([Result(op.id, OpFailed)]); }
      if op.ni == "" || op.ni !in masterRIB.niRIB { return SessionError([]); }
      var results;
      if op.kind.Delete? {
        results := ProgramDelete(op, fibAck);
      } else {
        results := ProgramAdd(op, fibAck);
      }
      return Reply(results);
    }

    /** One operation of a batch. */
    method Serve(op: Op, fibAck: bool, d: Details) returns (reply: Reply)
      requires masterRIB.Valid() && QueueOK(masterRIB.View(), masterRIB.fwd)
      modifies masterRIB`rib, masterRIB`pending, masterRIB.niRIB.Values
      ensures masterRIB.Valid() && QueueOK(masterRIB.View(), masterRIB.fwd)
      ensures ServeStep(old(masterRIB.View()), masterRIB.fwd, fibAck, d, op, reply, masterRIB.View())
    {
      var early := [];
      if op.ni == "" { early := [Result(op.id, OpFailed)]; }
      if op.ni !in masterRIB.niRIB { return Reply(early + [Result(op.id, OpFailed)]); }
      var r := ModifyEntry(op, fibAck, d);
      return Prefix(early, r);
    }

    /** A batch of operations from client cid. The election is looked at once, before the
        first of them. An unknown client, or one whose parameters are not supported, is an
        error; so is an operation that ends the session. The operations behind it are still
        carried out until the handler waits to answer one, which is after of them. */
    method DoModify(cid: string, ops: seq<Op>, after: nat)
      returns (err: bool, results: seq<Result>, ghost states: seq<State>, ghost replies: seq<Reply>)
      requires masterRIB.Valid() && QueueOK(masterRIB.View(), masterRIB.fwd)
      modifies masterRIB`rib, masterRIB`pending, masterRIB.niRIB.Values
      ensures masterRIB.Valid() && QueueOK(masterRIB.View(), masterRIB.fwd)
      ensures var supported := cid in cs && cs[cid].params.expectElecID && cs[cid].params.persist;
        !supported ==> err && results == [] && masterRIB.View() == old(masterRIB.View())
      ensures cid in cs && cs[cid].params.expectElecID && cs[cid].params.persist ==>
        && Batch(masterRIB.fwd, cs[cid].params.fibAck, Details(curMaster, curElecID, cid, cs[cid].lastElecID),
                 ops, after, states, replies)
        && states[0] == old(masterRIB.View()) && states[|replies|] == masterRIB.View()
        && results == Sent(replies)
        && (err <==> Ended(replies))
    {
      results, states, replies := [], [masterRIB.View()], [];
      if !Supported(cs, cid) { return true, [], states, []; }
      var d := Details(curMaster, curElecID, cid, cs[cid].lastElecID);
      err, results, states, replies := ServeAll(cs[cid].params.fibAck, d, ops, after);
    }

    method ServeAll(fibAck: bool, d: Details, ops: seq<Op>, after: nat)
      returns (err: bool, results: seq<Result>, ghost states: seq<State>, ghost replies: seq<Reply>)
      requires masterRIB.Valid() && QueueOK(masterRIB.View(), masterRIB.fwd)
      modifies masterRIB`rib, masterRIB`pending, masterRIB.niRIB.Values
      ensures masterRIB.Valid() && QueueOK(masterRIB.View(), masterRIB.fwd)
      ensures Batch(masterRIB.fwd, fibAck, d, ops, after, states, replies)
      ensures states[0] == old(masterRIB.View()) && states[|replies|] == masterRIB.View()
      ensures results == Sent(replies) && (err <==> Ended(replies))
    {
      hide RIB.Valid, ServeStep, QueueOK;
      results, states, replies := [], [masterRIB.View()], [];
      err := false;
      var i, unheard := 0, 0;
      while i < |ops| && !(err && unheard == after)
        invariant masterRIB.Valid() && QueueOK(masterRIB.View(), masterRIB.fwd)
        invariant Serving(masterRIB.fwd, fibAck, d, ops, states, replies) && |replies| == i
        invariant states[0] == old(masterRIB.View()) && states[i] == masterRIB.View()
        invariant results == Sent(replies) && (err <==> Ended(replies)) && unheard == Unheard(replies) <= after
      {
        var r := Serve(ops[i], fibAck, d);
        ServingStep(masterRIB.fwd, fibAck, d, ops, states, replies, r, masterRIB.View());
        ReplySnoc(replies, r);
        states, replies := states + [masterRIB.View()], replies + [r];
        if err {
          unheard := unheard + 1;
        } else {
          results := results + r.results;
          err := r.SessionError?;
        }
        i := i + 1;
      }
    }

    /** Tells of what was installed, and then of what failed. */
    method Report(oks: seq<Op>, fails: seq<Op>, fibAck: bool) returns (results: seq<Result>)
      ensures results == AckAll(oks, fibAck) + FailAll(fails) && FibAfterRib(results)
      ensures forall id :: Result(id, RibProgrammed) in results <==> exists o :: o in oks && o.id == id
      ensures forall id :: Result(id, FibProgrammed) in results <==> fibAck && exists o :: o in oks && o.id == id
      ensures forall id :: Result(id, OpFailed) in results <==> exists f :: f in fails && f.id == id
    {
      hide FibAfterRib;
      results := [];
      for i := 0 to |oks|
        invariant results == AckAll(oks[..i], fibAck)
      {
        assert oks[..i + 1][..i] == oks[..i];
        results := results + [Result(oks[i].id, RibProgrammed)];
        if fibAck { results := results + [Result(oks[i].id, FibProgrammed)]; }
      }
      assert oks[..|oks|] == oks;
      for i := 0 to |fails|
        invariant results == AckAll(oks, fibAck) + FailAll(fails[..i])
      {
        assert fails[..i + 1][..i] == fails[..i];
        results := results + [Result(fails[i].id, OpFailed)];
      }
      assert fails[..|fails|] == fails;
      ReportInOrder(oks, fails, fibAck);
      ReportIs(oks, fails, fibAck);
    }

    // ---------------------------------------------------------------- flushing and reading

    /** The network instances, in the order of their names. */
    method KnownNetworkInstances() returns (nis: seq<string>)
      ensures forall ni :: ni in nis <==> ni in masterRIB.niRIB
      ensures forall i, j :: 0 <= i < j < |nis| ==> Precedes(nis[i], nis[j])
    {
      nis := [];
      var todo := masterRIB.niRIB.Keys;
      while todo != {}
        invariant todo <= masterRIB.niRIB.Keys && Ordered(nis)
        invariant forall ni :: ni in nis <==> ni in masterRIB.niRIB && ni !in todo
      {
        var ni :| ni in todo;
        InsertOrders(nis, ni);
        nis, todo := Insert(nis, ni), todo - {ni};
      }
      forall i, j | 0 <= i < j < |nis| ensures Precedes(nis[i], nis[j]) { AtMostIff(nis[i], nis[j]); }
    }

    /** The network instances of a scope that is given. An unknown one is an error. */
    method Select(scope: Scope) returns (err: bool, nis: seq<string>)
      requires masterRIB.Valid()
      ensures err <==> scope.Named? && scope.name !in masterRIB.niRIB
      ensures !err ==> forall ni :: ni in nis <==> ni in InScope(masterRIB.rib.nis, scope)
      ensures !err ==> forall ni :: ni in nis ==> ni in masterRIB.niRIB
      ensures forall i, j :: 0 <= i < j < |nis| ==> nis[i] != nis[j]
    {
      match scope
      case Named(name) => return name !in masterRIB.niRIB, [name];
      case Everything => nis := KnownNetworkInstances(); return false, nis;
      case Unspecified => return false, [];
    }

    /** Flushes what the request names, if the election lets it. errs counts the entries
        that could not be deleted. */
    method Flush(req: FlushRequest)
      returns (v: FlushVerdict, err: bool, errs: nat, ghost nis: seq<string>, ghost order: seq<Slot>)
      requires masterRIB.Valid()
      modifies masterRIB`rib, masterRIB.niRIB.Values
      ensures masterRIB.Valid()
      ensures v == CheckFlushRequest(req, curElecID)
      ensures err <==> !v.FlushAllowed? || (req.scope.Named? && req.scope.name !in old(masterRIB.rib.nis))
      ensures err ==> masterRIB.View() == old(masterRIB.View())
      ensures !err && req.scope.Named? ==> forall t: Slot ::
        At(masterRIB.rib.entries, t) == if t.ni == req.scope.name then None else At(old(masterRIB.rib.entries), t)
      ensures !err && req.scope.Everything? ==> forall t: Slot ::
        At(masterRIB.rib.entries, t) ==
        if t.ni in old(masterRIB.rib.nis) then None else At(old(masterRIB.rib.entries), t)
      ensures var scope := InScope(old(masterRIB.rib.nis), req.scope);
        !err ==> FlushStep(old(masterRIB.View()), scope, order, masterRIB.View())
      ensures !err ==> (set ni | ni in nis) == InScope(old(masterRIB.rib.nis), req.scope)
      ensures !err ==> errs == TotalErrors(old(masterRIB.rib.entries), nis)
    {
      errs, nis, order := 0, [], [];
      v := CheckFlushRequest(req, curElecID);
      if !v.FlushAllowed? { return v, true, 0, [], []; }
      var selected;
      err, selected := Select(req.scope);
      nis := selected;
      if err { return v, true, 0, [], []; }
      assert InScope(masterRIB.rib.nis, req.scope) == set ni | ni in nis;
      ghost var s := masterRIB.View();
      errs, order := masterRIB.Flush(selected);
      FlushLeaves(s, InScope(s.rib.nis, req.scope), order, masterRIB.View());
    }

    /** The entries that the filter selects in the scope of the request. */
    method DoGet(scope: Scope, aft: AftType) returns (err: bool, msgs: seq<AFTEntry>)
      requires masterRIB.Valid() && WellKept(masterRIB.rib)
      ensures err <==> scope.Named? && (scope.name == "" || scope.name !in masterRIB.rib.nis)
      ensures !err ==> Lists(masterRIB.rib.entries, Selected(masterRIB.rib, scope, aft), msgs)
      ensures !err && scope.Named? ==> Answers(masterRIB.rib.entries, {scope.name}, aft, msgs)
      ensures !err && scope.Everything? ==> Answers(masterRIB.rib.entries, masterRIB.rib.nis, aft, msgs)
    {
      if scope.Named? && scope.name == "" { return true, []; }
      var nis;
      err, nis := Select(scope);
      if err { return true, []; }
      msgs := [];
      ListsNothing(masterRIB.rib.entries);
      SelectedNothing(masterRIB.rib.entries, aft);
      assert nis[..0] == [];
      for i := 0 to |nis|
        invariant Lists(masterRIB.rib.entries, SelectedIn(masterRIB.rib.entries, nis[..i], aft), msgs)
      {
        var more := masterRIB.GetRIB(nis[i], map[aft := true]);
        SelectedStep(masterRIB.rib.entries, nis, i, aft);
        ghost var before := SelectedIn(masterRIB.rib.entries, nis[..i], aft);
        ghost var added := Wanted(masterRIB.rib.entries, nis[i], map[aft := true]);
        ListsConcat(masterRIB.rib.entries, before, msgs, added, more);
        msgs := msgs + more;
      }
      assert nis[..|nis|] == nis;
      SelectedAll(masterRIB.rib, scope, nis, aft);
      SelectedAnswers(masterRIB.rib, scope, aft, msgs);
    }
  }

  /** A known client with parameters that the server supports. */
  predicate Supported(cs: Clients, cid: string) {
    cid in cs && cs[cid].params.expectElecID && cs[cid].params.persist
  }

  /** The order of strings. */
  predicate AtMost(a: string, b: string) {
    a == [] || (b != [] && (a[0] < b[0] || (a[0] == b[0] && AtMost(a[1..], b[1..]))))
  }

  lemma {:induction false} AtMostTotal(a: string, b: string)
    ensures AtMost(a, b) || AtMost(b, a)
  {
    if a != [] && b != [] { AtMostTotal(a[1..], b[1..]); }
  }

  lemma {:induction false} AtMostTransitive(a: string, b: string, c: string)
    requires AtMost(a, b) && AtMost(b, c)
    ensures AtMost(a, c)
  {
    if a != [] && a[0] == b[0] == c[0] { AtMostTransitive(a[1..], b[1..], c[1..]); }
  }

  /** a is a proper prefix of b, or has the smaller character where they first differ. */
  ghost predicate Precedes(a: string, b: string) {
    exists k :: 0 <= k <= |a| && k < |b| && a[..k] == b[..k] && (k < |a| ==> a[k] < b[k])
  }

  lemma {:induction false} AtMostIff(a: string, b: string)
    ensures AtMost(a, b) <==> a == b || Precedes(a, b)
  {
    if a == [] {
      if b != [] { assert a[..0] == b[..0]; }
    } else if b != [] {
      AtMostIff(a[1..], b[1..]);
      assert a == [a[0]] + a[1..] && b == [b[0]] + b[1..];
      assert a[..0] == b[..0];
      if a[0] == b[0] { PrecedesCons(a, b); }
    }
  }

  lemma PrecedesCons(a: string, b: string)
    requires a != [] && b != [] && a[0] == b[0]
    ensures Precedes(a, b) <==> Precedes(a[1..], b[1..])
  {
    var c, d := a[1..], b[1..];
    if k :| 0 <= k <= |a| && k < |b| && a[..k] == b[..k] && (k < |a| ==> a[k] < b[k]) {
      assert k > 0;
      assert c[..k - 1] == a[..k][1..] && d[..k - 1] == b[..k][1..];
    }
    if k :| 0 <= k <= |c| && k < |d| && c[..k] == d[..k] && (k < |c| ==> c[k] < d[k]) {
      assert a[..k + 1] == [a[0]] + c[..k] && b[..k + 1] == [b[0]] + d[..k];
    }
  }

  predicate Ordered(q: seq<string>) {
    forall i, j :: 0 <= i < j < |q| ==> q[i] != q[j] && AtMost(q[i], q[j])
  }

  /** q with x in its place. */
  function Insert(q: seq<string>, x: string): seq<string> {
    if q == [] then [x]
    else if AtMost(x, q[0]) then [x] + q
    else [q[0]] + Insert(q[1..], x)
  }

  lemma {:induction false} InsertOrders(q: seq<string>, x: string)
    requires Ordered(q) && x !in q
    ensures forall y :: y in Insert(q, x) <==> y in q || y == x
    ensures Ordered(Insert(q, x))
  {
    if q != [] {
      if AtMost(x, q[0]) {
        forall i | 0 < i < |q| ensures AtMost(x, q[i]) { AtMostTransitive(x, q[0], q[i]); }
        OrderedCons(x, q);
      } else {
        assert q == [q[0]] + q[1..];
        InsertOrders(q[1..], x);
        AtMostTotal(x, q[0]);
        OrderedCons(q[0], Insert(q[1..], x));
      }
    }
  }

  lemma OrderedCons(x: string, q: seq<string>)
    requires Ordered(q) && forall y :: y in q ==> x != y && AtMost(x, y)
    ensures Ordered([x] + q)
  {
    hide AtMost;
    forall i, j | 0 <= i < j < |[x] + q| ensures ([x] + q)[i] != ([x] + q)[j] && AtMost(([x] + q)[i], ([x] + q)[j]) {
      assert ([x] + q)[j] == q[j - 1] && q[j - 1] in q;
    }
  }

  function InScope(nis: set<string>, scope: Scope): set<string> {
    match scope
    case Named(name) => if name in nis then {name} else {}
    case Everything => nis
    case Unspecified => {}
  }

  function Selected(r: Rib, scope: Scope, aft: AftType): set<Slot> {
    set t | t in r.entries && t.ni in InScope(r.nis, scope) && Wants(map[aft := true], AftOf(t))
  }

  ghost function SelectedIn(e: Entries, nis: seq<string>, aft: AftType): set<Slot> {
    set t | t in e && t.ni in nis && Wants(map[aft := true], AftOf(t))
  }

  lemma SelectedNothing(e: Entries, aft: AftType)
    ensures SelectedIn(e, [], aft) == {}
  {
  }

  lemma SelectedStep(e: Entries, nis: seq<string>, i: nat, aft: AftType)
    requires i < |nis| && nis[i] !in nis[..i]
    ensures SelectedIn(e, nis[..i + 1], aft) == SelectedIn(e, nis[..i], aft) + Wanted(e, nis[i], map[aft := true])
    ensures SelectedIn(e, nis[..i], aft) !! Wanted(e, nis[i], map[aft := true])
  {
    assert nis[..i + 1] == nis[..i] + [nis[i]];
  }

  lemma SelectedAll(r: Rib, scope: Scope, nis: seq<string>, aft: AftType)
    requires forall ni :: ni in nis <==> ni in InScope(r.nis, scope)
    ensures SelectedIn(r.entries, nis, aft) == Selected(r, scope, aft)
  {
  }

  /** msgs answer a Get of table a in the network instances of nis: each is an entry of one of
      them in that table, as it is stored, and none is missing. */
  ghost predicate Answers(e: Entries, nis: set<string>, a: AftType, msgs: seq<AFTEntry>) {
    && (forall m :: m in msgs ==>
          m.ni in nis && TableHas(a, Place(m)) && StoredAsSent(e, Op(0, Add, m.ni, m.entry, None)))
    && (forall t :: t in e && t.ni in nis && TableHas(a, t) ==> exists m :: m in msgs && Place(m) == t)
  }

  lemma SelectedAnswers(r: Rib, scope: Scope, aft: AftType, msgs: seq<AFTEntry>)
    requires Lists(r.entries, Selected(r, scope, aft), msgs)
    ensures scope.Named? && scope.name in r.nis ==> Answers(r.entries, {scope.name}, aft, msgs)
    ensures scope.Everything? ==> Answers(r.entries, r.nis, aft, msgs)
  {
    var ts := Selected(r, scope, aft);
    ListedAsStored(r.entries, ts, msgs);
    forall t: Slot
      ensures t in ts <==> t in r.entries && t.ni in InScope(r.nis, scope) && TableHas(aft, t)
    {
      OneTable(aft, t);
    }
    hide Selected, Lists, Place, StoredAsSent, TableHas;
  }

  /** A Get of everything, whatever the order in which its entries arrive, is enough to
      rebuild the entries of the RIB. */
  lemma GetAllRoundTrip(r: Rib, msgs: seq<AFTEntry>, arrived: seq<AFTEntry>, defaultName: string)
    requires WellKept(r) && Lists(r.entries, Selected(r, Everything, ALL), msgs)
    requires multiset(arrived) == multiset(msgs)
    ensures Rebuilt(defaultName, arrived).entries == r.entries
  {
    assert Selected(r, Everything, ALL) == r.entries.Keys;
    forall m ensures m in arrived <==> m in msgs {
      assert m in multiset(arrived) <==> m in multiset(msgs);
    }
    assert Places(arrived) == Places(msgs);
    CollectedListed(r.entries, arrived);
    EntriesEqual(Collected(arrived), r.entries);
  }
}
