/** What the client is told about its operations, next to what became of them. */
module Reporting {
  import opened Aft
  import opened RefCounts
  import opened Engine
  import opened Payloads
  import opened Partition
  import opened Election
  import opened Modify

  // ---------------------------------------------------------------- the results of one call

  lemma {:induction false} AckAllIs(oks: seq<Op>, fib: bool, id: nat)
    ensures Result(id, RibProgrammed) in AckAll(oks, fib) <==> id in Ids(oks)
    ensures Result(id, FibProgrammed) in AckAll(oks, fib) <==> fib && id in Ids(oks)
    ensures Result(id, OpFailed) !in AckAll(oks, fib)
  {
    if oks != [] {
      var n := |oks| - 1;
      AckAllIs(oks[..n], fib, id);
      assert oks == oks[..n] + [oks[n]];
      IdsConcat(oks[..n], [oks[n]]);
      assert Ids([oks[n]]) == {oks[n].id};
    }
  }

  lemma {:induction false} FailAllIs(fails: seq<Op>, id: nat)
    ensures Result(id, OpFailed) in FailAll(fails) <==> id in Ids(fails)
    ensures Result(id, RibProgrammed) !in FailAll(fails) && Result(id, FibProgrammed) !in FailAll(fails)
  {
    if fails != [] {
      var n := |fails| - 1;
      FailAllIs(fails[..n], id);
      assert fails == fails[..n] + [fails[n]];
      IdsConcat(fails[..n], [fails[n]]);
      assert Ids([fails[n]]) == {fails[n].id};
    }
  }

  /** An operation is reported as programmed in the RIB if and only if it was installed, in
      the FIB as well if and only if that was asked for, and as failed if and only if the RIB
      says so. */
  lemma ReportIs(oks: seq<Op>, fails: seq<Op>, fib: bool)
    ensures var results := AckAll(oks, fib) + FailAll(fails);
      && (forall id :: Result(id, RibProgrammed) in results <==> exists o :: o in oks && o.id == id)
      && (forall id :: Result(id, FibProgrammed) in results <==> fib && exists o :: o in oks && o.id == id)
      && (forall id :: Result(id, OpFailed) in results <==> exists f :: f in fails && f.id == id)
  {
    var results := AckAll(oks, fib) + FailAll(fails);
    forall id
      ensures Result(id, RibProgrammed) in results <==> exists o :: o in oks && o.id == id
      ensures Result(id, FibProgrammed) in results <==> fib && exists o :: o in oks && o.id == id
      ensures Result(id, OpFailed) in results <==> exists f :: f in fails && f.id == id
    {
      AckAllIs(oks, fib, id);
      FailAllIs(fails, id);
    }
  }

  /** The report from the FIB comes right after that from the RIB. */
  ghost predicate FibAfterRib(results: seq<Result>) {
    forall j :: 0 <= j < |results| && results[j].status == FibProgrammed ==>
      j > 0 && results[j - 1] == Result(results[j].id, RibProgrammed)
  }

  lemma ReportInOrder(oks: seq<Op>, fails: seq<Op>, fib: bool)
    ensures FibAfterRib(AckAll(oks, fib) + FailAll(fails))
  {
    AcksInOrder(oks, fib);
    var acks, all := AckAll(oks, fib), AckAll(oks, fib) + FailAll(fails);
    FailuresOnly(fails);
    assert forall j :: |acks| <= j < |all| ==> all[j].status == OpFailed;
    assert forall j :: 0 <= j < |acks| ==> all[j] == acks[j];
  }

  lemma {:induction false} FailuresOnly(fails: seq<Op>)
    ensures forall j :: 0 <= j < |FailAll(fails)| ==> FailAll(fails)[j].status == OpFailed
  {
    if fails != [] { FailuresOnly(fails[..|fails| - 1]); }
  }

  lemma {:induction false} AcksInOrder(oks: seq<Op>, fib: bool)
    ensures FibAfterRib(AckAll(oks, fib))
  {
    if oks != [] { AcksInOrder(oks[..|oks| - 1], fib); }
  }

  // ---------------------------------------------------------------- what it says

  /** Additions and replaces. The operation is acknowledged, once it is installed, and so is
      everything that it unlocked; otherwise it is refused, or waits without an answer. A
      queued operation is reported as failed only if it could be rejected. */
  lemma AddReported(s: State, fwd: bool, fib: bool, op: Op, results: seq<Result>, s': State)
    requires Programs(s, fwd, fib, op, results, s') && !op.kind.Delete?
    requires PendingOK(s) && op.id !in s.pending
    ensures Installable(s.rib, op) ==>
      && Result(op.id, RibProgrammed) in results && (Result(op.id, FibProgrammed) in results <==> fib)
      && Result(op.id, OpFailed) !in results
    ensures !Installable(s.rib, op) ==>
      || (results == [Result(op.id, OpFailed)] && s' == s)
      || (results == [] && s'.rib == s.rib && s'.pending == s.pending[op.id := op])
    ensures forall id :: id in s.pending && id !in s'.pending ==>
      Result(id, RibProgrammed) in results && (Result(id, FibProgrammed) in results <==> fib)
    ensures forall id :: Result(id, RibProgrammed) in results || Result(id, FibProgrammed) in results ==>
      (id == op.id && Installable(s.rib, op)) || (id in s.pending && id !in s'.pending)
    ensures forall id :: Result(id, OpFailed) in results ==>
      (id == op.id && !Installable(s.rib, op)) || (id in s.pending && Rejectable(s, op, s.pending[id]))
    ensures FibAfterRib(results)
  {
    var oks, fails :| AddStep(s, fwd, op, oks, fails, s') && results == AckAll(oks, fib) + FailAll(fails);
    ReportInOrder(oks, fails, fib);
    NothingLost(s, fwd, op, oks, fails, s');
    forall id
      ensures Result(id, RibProgrammed) in results <==> id in Ids(oks)
      ensures Result(id, FibProgrammed) in results <==> fib && id in Ids(oks)
      ensures Result(id, OpFailed) in results <==> id in Ids(fails)
    {
      AckAllIs(oks, fib, id);
      FailAllIs(fails, id);
    }
    if Installable(s.rib, op) {
      InstallReported(s, op, oks, fails, s');
    } else {
      RefusalReported(op, fails, fib);
    }
  }

  lemma InstallReported(s: State, op: Op, oks: seq<Op>, fails: seq<Op>, s': State)
    requires Installs(s, op, oks, fails, s') && PendingOK(s) && op.id !in s.pending
    ensures op.id in Ids(oks) && op.id !in Ids(fails)
    ensures forall id :: id in s.pending && id !in s'.pending ==> id in Ids(oks)
    ensures forall id :: id in Ids(oks) ==> id == op.id || (id in s.pending && id !in s'.pending)
    ensures forall id :: id in Ids(fails) ==> id in s.pending && Rejectable(s, op, s.pending[id])
  {
    InstalledAreQueued(s, op, oks, fails, s');
    hide Installable, InstallRun, Rejectable;
    forall f | f in fails ensures FromPending(s, f) && Rejectable(s, op, f) {
      assert Failing(s, oks, f);
      FailingIsRejectable(s, op, oks, f);
    }
  }

  lemma RefusalReported(op: Op, fails: seq<Op>, fib: bool)
    ensures AckAll([], fib) == [] && FailAll([]) == []
    ensures FailAll([op]) == [Result(op.id, OpFailed)]
  {
    assert [op][..0] == [];
  }

  /** Deletes. One that goes ahead is acknowledged; one that is refused fails and changes
      nothing. */
  lemma DeleteReported(s: State, fwd: bool, fib: bool, op: Op, results: seq<Result>, s': State)
    requires Programs(s, fwd, fib, op, results, s') && op.kind.Delete?
    ensures Deletable(s.rib, SlotOf(op)) ==>
      results == if fib then [Result(op.id, RibProgrammed), Result(op.id, FibProgrammed)]
                 else [Result(op.id, RibProgrammed)]
    ensures Deletable(s.rib, SlotOf(op)) ==> SlotOf(op) !in s'.rib.entries
    ensures !Deletable(s.rib, SlotOf(op)) ==> results == [Result(op.id, OpFailed)] && s' == s
  {
  }

  /** An operation that is admitted, in a known network instance, gets the answer of the RIB. */
  lemma AdmittedIsServed(s: State, fwd: bool, fib: bool, d: Details, op: Op, reply: Reply, s': State)
    requires ServeStep(s, fwd, fib, d, op, reply, s') && op.ni != "" && op.ni in s.rib.nis
    requires d.master != "" && d.client == d.master && op.elec.Some? && op.elec == d.clientLatest == d.id
    ensures reply.Reply? && Programs(s, fwd, fib, op, reply.results, s')
  {
    AdmittedIff(op.elec, d);
    var r :| ModifyStep(s, fwd, fib, d, op, r, s') && reply == Prefix([], r);
    assert [] + r.results == r.results;
  }

  /** An operation for an unknown network instance, and one that the election holds back,
      fail and change nothing. */
  lemma RefusedIsReported(s: State, fwd: bool, fib: bool, d: Details, op: Op, reply: Reply, s': State)
    requires ServeStep(s, fwd, fib, d, op, reply, s') && op.ni != ""
    requires op.ni in s.rib.nis ==>
      && op.elec.Some? && d.master != "" && d.id.Some? && d.clientLatest.Some?
      && (d.client != d.master || op.elec != d.clientLatest || Value(op.elec.value) < Value(d.id.value))
    ensures reply == Reply([Result(op.id, OpFailed)]) && s' == s
  {
    AdmissionTable(op.elec, d);
    if op.ni in s.rib.nis {
      var r :| ModifyStep(s, fwd, fib, d, op, r, s') && reply == Prefix([], r);
      assert [] + r.results == r.results;
    } else {
      assert [] + [Result(op.id, OpFailed)] == [Result(op.id, OpFailed)];
    }
  }

  /** One without an election ID, or before there was an election, or from a client that took no
      part in it, or with an ID above the current one, ends the session and changes nothing. */
  lemma FatalEndsSession(s: State, fwd: bool, fib: bool, d: Details, op: Op, reply: Reply, s': State)
    requires ServeStep(s, fwd, fib, d, op, reply, s') && op.ni != "" && op.ni in s.rib.nis
    requires
      || op.elec == None || d.master == "" || d.id == None || d.clientLatest == None
      || (d.client == d.master && op.elec == d.clientLatest && Value(op.elec.value) > Value(d.id.value))
    ensures reply == SessionError([]) && s' == s
  {
    AdmissionTable(op.elec, d);
    var r :| ModifyStep(s, fwd, fib, d, op, r, s') && reply == Prefix([], r);
    assert [] + r.results == r.results;
  }

  /** An operation without a network instance is told so before anything else, and told again
      that the network instance is not known. */
  lemma NamelessIsReported(s: State, fwd: bool, fib: bool, d: Details, op: Op, reply: Reply, s': State)
    requires ServeStep(s, fwd, fib, d, op, reply, s') && op.ni == ""
    ensures reply.results != [] && reply.results[0] == Result(op.id, OpFailed) && s' == s
    ensures "" !in s.rib.nis ==> reply == Reply([Result(op.id, OpFailed), Result(op.id, OpFailed)])
  {
    if "" in s.rib.nis {
      var r :| ModifyStep(s, fwd, fib, d, op, r, s') && reply == Prefix([Result(op.id, OpFailed)], r);
    }
  }

  // ---------------------------------------------------------------- failed and yet installed

  /** What is reported as failed is not installed, if no queued ADD fills the slot of a queued
      replace. */
  lemma FailedNotInstalled(s: State, fwd: bool, op: Op, oks: seq<Op>, fails: seq<Op>, s': State)
    requires AddStep(s, fwd, op, oks, fails, s') && PendingOK(s) && op.id !in s.pending && TargetsLeftAlone(s)
    ensures Ids(oks) !! Ids(fails)
  {
    if Installable(s.rib, op) {
      InstallReported(s, op, oks, fails, s');
      InstalledAreQueued(s, op, oks, fails, s');
      forall id | id in Ids(fails) ensures id !in Ids(oks) {
        var f := s.pending[id];
        if f in oks { RejectableNotInstalled(s, op, oks, f); assert false; }
      }
    }
  }

  lemma RejectableNotInstalled(s: State, op: Op, oks: seq<Op>, f: Op)
    requires oks != [] && oks[0] == op && InstallRun(s.rib, oks)
    requires forall i :: 1 <= i < |oks| ==> FromPending(s, oks[i])
    requires TargetsLeftAlone(s) && FromPending(s, f) && Rejectable(s, op, f) && f != op
    ensures f !in oks
  {
    forall i | 0 < i < |oks| ensures oks[i] != f {
      if oks[i] == f {
        RunPrefixInstalls(s.rib, oks, i);
        if NoZero(f) {
          assert oks[..i][0] == op;
          TargetStaysEmpty(s, op, oks[..i], f);
        }
        assert false;
      }
    }
  }

  lemma {:induction false} RunPrefixInstalls(r: Rib, ops: seq<Op>, i: nat)
    requires InstallRun(r, ops) && i < |ops|
    ensures InstallRun(r, ops[..i]) && Installable(ApplyAll(r, ops[..i]), ops[i])
  {
    var n := |ops| - 1;
    if i < n {
      RunPrefixInstalls(r, ops[..n], i);
      assert ops[..n][..i] == ops[..i];
    }
  }

  /** f can be installed in the wake of op, after others that are queued. */
  ghost predicate Unlocked(s: State, op: Op, f: Op) {
    exists run :: Chain(s, op, run) && Installable(ApplyAll(s.rib, run), f)
  }

  /** What can be installed after some of what was installed was installed itself. */
  lemma WasInstalled(s: State, op: Op, oks: seq<Op>, fails: seq<Op>, s': State, run: seq<Op>, f: Op)
    requires Installs(s, op, oks, fails, s') && Settled(s') && op.id !in s.pending && FromPending(s, f)
    requires (forall o :: o in run ==> o in oks) && Installable(ApplyAll(s.rib, run), f)
    ensures f in oks
  {
    RunKeepsKeys(s.rib, run);
    RunKeepsKeys(s.rib, oks);
    InstallableMonotone(ApplyAll(s.rib, run), s'.rib, f);
    InstalledAreQueued(s, op, oks, fails, s');
    hide Installable, InstallRun, ApplyAll;
    assert f.id in Ids(oks) || FromPending(s', f);
    var o :| o in oks && o.id == f.id;
  }

  lemma {:induction false} ChainInstalled(s: State, op: Op, oks: seq<Op>, fails: seq<Op>, s': State, run: seq<Op>)
    requires Installs(s, op, oks, fails, s') && Settled(s') && op.id !in s.pending && Chain(s, op, run)
    ensures forall o :: o in run ==> o in oks
  {
    var n := |run| - 1;
    if n > 0 {
      RunPrefixInstalls(s.rib, run, n);
      hide Installable, Installs, Settled, InstallRun;
      ChainInstalled(s, op, oks, fails, s', run[..n]);
      WasInstalled(s, op, oks, fails, s', run[..n], run[n]);
      assert run == run[..n] + [run[n]];
    }
  }

  /** What is reported as failed is not installed, in every order of the retries, if and only
      if op is not installed, or nothing queued can be rejected first and installed later. */
  lemma FailedNotInstalledIff(s: State, fwd: bool, op: Op)
    requires PendingOK(s) && op.id !in s.pending
    ensures (forall oks, fails, s' :: AddStep(s, fwd, op, oks, fails, s') ==> Ids(oks) !! Ids(fails)) <==>
            (Installable(s.rib, op) ==> forall f :: FromPending(s, f) && Rejectable(s, op, f) ==> !Unlocked(s, op, f))
  {
    if f :| Installable(s.rib, op) && FromPending(s, f) && Rejectable(s, op, f) && Unlocked(s, op, f) {
      var oks, fails, s' := RejectionPossible(s, fwd, op, f);
      var run :| Chain(s, op, run) && Installable(ApplyAll(s.rib, run), f);
      ChainInstalled(s, op, oks, fails, s', run);
      WasInstalled(s, op, oks, fails, s', run, f);
      assert f.id in Ids(oks) && f.id in Ids(fails);
    } else {
      forall oks, fails, s' | AddStep(s, fwd, op, oks, fails, s') ensures Ids(oks) !! Ids(fails) {
        if Installable(s.rib, op) { NoneInstalledLater(s, op, oks, fails, s'); }
      }
    }
  }

  lemma InstalledIsUnlocked(s: State, op: Op, oks: seq<Op>, i: nat)
    requires Chain(s, op, oks) && 0 < i < |oks|
    ensures Unlocked(s, op, oks[i])
  {
    RunPrefixInstalls(s.rib, oks, i);
    hide Installable, InstallRun, ApplyAll;
    assert Chain(s, op, oks[..i]);
  }

  lemma NoneInstalledLater(s: State, op: Op, oks: seq<Op>, fails: seq<Op>, s': State)
    requires Installs(s, op, oks, fails, s') && PendingOK(s) && op.id !in s.pending
    requires forall f :: FromPending(s, f) && Rejectable(s, op, f) ==> !Unlocked(s, op, f)
    ensures Ids(oks) !! Ids(fails)
  {
    InstallReported(s, op, oks, fails, s');
    hide Installable, InstallRun, Rejectable, Unlocked, ApplyAll, Failing, Waitable;
    forall id | id in Ids(fails) ensures id !in Ids(oks) {
      assert FromPending(s, s.pending[id]);
      if i :| 0 <= i < |oks| && oks[i].id == id {
        InstalledIsUnlocked(s, op, oks, i);
        assert false;
      }
    }
  }

  const HOP_2 := Op(1, Add, "DEFAULT", HopEntry(2, "192.0.2.2", ""), None)
  const ADD_7 := Op(2, Add, "DEFAULT", GroupEntry(7, [(2, 1)], None), None)
  const REPLACE_7 := Op(3, Replace, "DEFAULT", GroupEntry(7, [(2, 5)], None), None)

  /** Otherwise it can be both: next-hop 2 arrives while an ADD and a replace of group 7 wait
      for it. The replace is tried first and reported as failed; then the ADD goes in, and
      then the replace. */
  lemma FailedAndInstalled() returns (s: State, s': State)
    ensures s.pending == map[2 := ADD_7, 3 := REPLACE_7] && s.rib == Rib({"DEFAULT"}, map[], map[])
    ensures PendingOK(s) && Settled(s)
    ensures AddStep(s, true, HOP_2, [HOP_2, ADD_7, REPLACE_7], [REPLACE_7], s') && s'.pending == map[]
  {
    var r := Rib({"DEFAULT"}, map[], map[]);
    s := State(r, map[2 := ADD_7, 3 := REPLACE_7]);
    s' := State(ApplyAll(r, [HOP_2, ADD_7, REPLACE_7]), map[]);
    ThreeInstalls(r);
    hide Installable, MayReject, InstallRun, AddStep, ApplyAll;
    InTurn(r, HOP_2, ADD_7, REPLACE_7);
  }

  /** c is tried after a and rejected, and installed after b. */
  lemma InTurn(r: Rib, a: Op, b: Op, c: Op)
    requires InstallRun(r, [a, b, c]) && Installable(r, a) && a.id != b.id && a.id != c.id && b.id != c.id
    requires MayReject(Apply(r, a), c) && Fickle(c)
    ensures var s' := State(ApplyAll(r, [a, b, c]), map[]);
      AddStep(State(r, map[b.id := b, c.id := c]), true, a, [a, b, c], [c], s')
  {
    hide Installable, MayReject, InstallRun, Apply, ApplyAll, Fickle, Ids, DistinctIds, Rejected;
    var s, oks := State(r, map[b.id := b, c.id := c]), [a, b, c];
    ThreeIds(a, b, c);
    RejectedAfterFirst(r, oks, c);
    assert Failing(s, oks, c);
    assert s.pending - {a.id, b.id, c.id} == map[];
    assert Installs(s, a, oks, [c], State(ApplyAll(r, oks), map[]));
  }

  lemma ThreeIds(a: Op, b: Op, c: Op)
    requires a.id != b.id && a.id != c.id && b.id != c.id
    ensures Ids([a, b, c]) == {a.id, b.id, c.id} && DistinctIds([a, b, c])
  {
    assert a in [a, b, c] && b in [a, b, c] && c in [a, b, c];
  }

  lemma RejectedAfterFirst(r: Rib, oks: seq<Op>, f: Op)
    requires oks != [] && MayReject(Apply(r, oks[0]), f)
    ensures Rejected(r, oks, f)
  {
    hide MayReject, Apply;
    assert oks[..1] == [oks[0]] && [oks[0]][..0] == [];
    assert ApplyAll(r, oks[..1]) == Apply(r, oks[0]);
  }

  lemma ThreeInstalls(r: Rib)
    requires r == Rib({"DEFAULT"}, map[], map[])
    ensures !Installable(r, ADD_7) && !Installable(r, REPLACE_7)
    ensures InstallRun(r, [HOP_2, ADD_7, REPLACE_7]) && Installable(r, HOP_2)
    ensures MayReject(Apply(r, HOP_2), REPLACE_7)
  {
    var r1, r2 := Apply(r, HOP_2), Apply(Apply(r, HOP_2), ADD_7);
    assert r1.nis == r2.nis == r.nis;
    assert r1.entries.Keys == {Hop("DEFAULT", 2)} && r2.entries.Keys == {Hop("DEFAULT", 2), Group("DEFAULT", 7)};
    hide Installable, MayReject, Apply, InstallRun, ApplyAll;
    GroupInstallableIff(r, ADD_7);
    GroupInstallableIff(r, REPLACE_7);
    RejectIff(r1, REPLACE_7);
    HopInstallableIff(r, HOP_2);
    GroupInstallableIff(r1, ADD_7);
    GroupInstallableIff(r2, REPLACE_7);
    ThreeInARow(r, HOP_2, ADD_7, REPLACE_7);
  }

  lemma ThreeInARow(r: Rib, a: Op, b: Op, c: Op)
    requires Installable(r, a) && Installable(Apply(r, a), b) && Installable(Apply(Apply(r, a), b), c)
    ensures InstallRun(r, [a, b, c])
  {
    hide Installable, Apply;
    assert [a, b, c][..2] == [a, b] && [a, b][..1] == [a] && [a][..0] == [];
    assert InstallRun(r, [a]) && ApplyAll(r, [a]) == Apply(r, a);
    assert InstallRun(r, [a, b]) && ApplyAll(r, [a, b]) == Apply(Apply(r, a), b);
  }

  // ---------------------------------------------------------------- the results of a batch

  /** The session ended when one of the replies ended it. */
  lemma {:induction false} EndedIff(replies: seq<Reply>)
    ensures Ended(replies) <==> exists i :: 0 <= i < |replies| && replies[i].SessionError?
  {
    if replies != [] {
      var n := |replies| - 1;
      EndedIff(replies[..n]);
      if Ended(replies[..n]) {
        var i :| 0 <= i < n && replies[..n][i].SessionError?;
        assert replies[i].SessionError?;
      }
    }
  }

  /** r is in reply i, and none before it ended the session. */
  ghost predicate Heard(replies: seq<Reply>, i: nat, r: Result) {
    i < |replies| && r in replies[i].results && forall k :: 0 <= k < i ==> replies[k].Reply?
  }

  /** What goes out is what the replies say, up to the one that ends the session. */
  lemma {:induction false} SentIs(replies: seq<Reply>, r: Result)
    ensures r in Sent(replies) <==> exists i :: Heard(replies, i, r)
  {
    if replies != [] {
      var n := |replies| - 1;
      var init := replies[..n];
      SentIs(init, r);
      EndedIff(init);
      hide Ended;
      assert forall k :: 0 <= k < n ==> init[k] == replies[k];
      forall i: nat | i < n ensures Heard(init, i, r) <==> Heard(replies, i, r) { }
      assert Heard(replies, n, r) <==> r in replies[n].results && !Ended(init);
    }
  }

  /** Reply i is the first that ends the session. */
  ghost predicate FirstToEnd(replies: seq<Reply>, i: nat) {
    i < |replies| && replies[i].SessionError? && forall k :: 0 <= k < i ==> replies[k].Reply?
  }

  lemma {:induction false} UnheardIs(replies: seq<Reply>, i: nat)
    requires FirstToEnd(replies, i)
    ensures Unheard(replies) == |replies| - 1 - i
  {
    var n := |replies| - 1;
    EndedIff(replies[..n]);
    if i < n {
      assert replies[..n][i] == replies[i];
      UnheardIs(replies[..n], i);
    } else {
      assert forall k :: 0 <= k < n ==> replies[..n][k] == replies[k];
    }
  }

  /** A batch serves each of its operations, in order and from where the one before left off,
      unless one of them ends the session. Then it goes on for as many operations as it takes
      until the handler waits, or as there are. */
  lemma BatchServes(fwd: bool, fib: bool, d: Details, ops: seq<Op>, after: nat, states: seq<State>, replies: seq<Reply>)
    requires Batch(fwd, fib, d, ops, after, states, replies)
    ensures |states| == |replies| + 1 && |replies| <= |ops|
    ensures forall i :: 0 <= i < |replies| ==> ServeStep(states[i], fwd, fib, d, ops[i], replies[i], states[i + 1])
    ensures (forall i :: 0 <= i < |replies| ==> replies[i].Reply?) ==> |replies| == |ops|
    ensures forall i: nat :: FirstToEnd(replies, i) ==>
      |replies| == if i + 1 + after < |ops| then i + 1 + after else |ops|
  {
    EndedIff(replies);
    hide ServeStep, Ended, Unheard;
    forall i: nat | FirstToEnd(replies, i)
      ensures |replies| == if i + 1 + after < |ops| then i + 1 + after else |ops|
    {
      UnheardIs(replies, i);
    }
  }
}
