/** Where the operations end up that one AddEntry is answerable for: acknowledged, reported
    as failed, or queued; and when these places overlap. */
module Partition {
  import opened Aft
  import opened RefCounts
  import opened Engine

  /** Each ID is in exactly one place, and only the new operation is reported as failed. */
  ghost predicate Partitions(s: State, op: Op, oks: seq<Op>, fails: seq<Op>, s': State) {
    && s.pending.Keys + {op.id} == Ids(oks) + Ids(fails) + s'.pending.Keys
    && Ids(oks) !! Ids(fails) && Ids(oks) + Ids(fails) !! s'.pending.Keys
    && DistinctIds(oks) && (fails == [] || fails == [op])
  }

  /** f, queued when op is installed, can be rejected: it lists a member of index zero, or
      replaces a slot that is empty and that op does not fill. */
  ghost predicate Rejectable(s: State, op: Op, f: Op) {
    !NoZero(f) || (f.kind == Replace && SlotOf(f) !in s.rib.entries && SlotOf(f) != SlotOf(op))
  }

  ghost predicate NoneRejectable(s: State, op: Op) {
    forall id :: id in s.pending ==> !Rejectable(s, op, s.pending[id])
  }

  /** The slots that are filled at a time of the run after its first install. */
  lemma FilledAt(r: Rib, op: Op, oks: seq<Op>, k: nat)
    requires oks != [] && oks[0] == op && 0 < k <= |oks|
    ensures ApplyAll(r, oks[..k]).nis == r.nis
    ensures r.entries.Keys + {SlotOf(op)} <= ApplyAll(r, oks[..k]).entries.Keys <= ApplyAll(r, oks).entries.Keys
  {
    hide Apply;
    RunKeepsKeys(r, oks[..k]);
    RunKeepsKeys(r, oks);
    assert oks[..k][0] == op && op in oks[..k];
    assert forall o :: o in oks[..k] ==> o in oks;
  }

  /** What is rejected could be seen to be rejectable. */
  lemma FailingIsRejectable(s: State, op: Op, oks: seq<Op>, f: Op)
    requires oks != [] && oks[0] == op && PendingOK(s) && Failing(s, oks, f)
    ensures Rejectable(s, op, f)
  {
    var k :| 0 < k <= |oks| && MayReject(ApplyAll(s.rib, oks[..k]), f);
    FilledAt(s.rib, op, oks, k);
    assert Waitable(s.rib, f);
  }

  lemma NoneRejected(s: State, op: Op, oks: seq<Op>, fails: seq<Op>, s': State)
    requires Installs(s, op, oks, fails, s') && PendingOK(s) && NoneRejectable(s, op)
    ensures fails == []
  {
    hide Installable, InstallRun, Rejectable;
    forall f ensures f !in fails {
      if f in fails {
        FailingIsRejectable(s, op, oks, f);
        assert false;
      }
    }
    NoElements(fails);
  }

  lemma InstalledAreQueued(s: State, op: Op, oks: seq<Op>, fails: seq<Op>, s': State)
    requires Installs(s, op, oks, fails, s')
    ensures op in oks && forall o :: o in oks ==> o == op || FromPending(s, o)
  {
    hide Installable, Failing, InstallRun;
    forall o | o in oks ensures o == op || FromPending(s, o) {
      var i :| 0 <= i < |oks| && oks[i] == o;
    }
  }

  /** Whatever happens, no ID is lost, and what is acknowledged is not queued. */
  lemma NothingLost(s: State, fwd: bool, op: Op, oks: seq<Op>, fails: seq<Op>, s': State)
    requires AddStep(s, fwd, op, oks, fails, s') && PendingOK(s) && op.id !in s.pending
    ensures s.pending.Keys + {op.id} == Ids(oks) + Ids(fails) + s'.pending.Keys
    ensures Ids(oks) !! s'.pending.Keys
  {
    if Installable(s.rib, op) {
      InstalledAreQueued(s, op, oks, fails, s');
      hide Installable, InstallRun, Rejected, NonePassedOver;
      forall f | f in fails ensures FromPending(s, f) { assert Failing(s, oks, f); }
    }
  }

  /** Every ID ends up in exactly one place, provided that the new ID is fresh and that
      nothing queued can be rejected. */
  lemma AddPartition(s: State, fwd: bool, op: Op, oks: seq<Op>, fails: seq<Op>, s': State)
    requires AddStep(s, fwd, op, oks, fails, s') && PendingOK(s) && op.id !in s.pending
    requires Installable(s.rib, op) ==> NoneRejectable(s, op)
    ensures Partitions(s, op, oks, fails, s')
  {
    NothingLost(s, fwd, op, oks, fails, s');
    if Installable(s.rib, op) { NoneRejected(s, op, oks, fails, s'); }
  }

  // ---------------------------------------------------------------- what is rejected for certain

  /** A queued replace whose slot is empty even in the end is reported as failed, and stays
      queued all the same. */
  lemma MissingTargetReported(s: State, fwd: bool, op: Op, oks: seq<Op>, fails: seq<Op>, s': State, f: Op)
    requires AddStep(s, fwd, op, oks, fails, s') && PendingOK(s) && Installable(s.rib, op)
    requires FromPending(s, f) && f.id != op.id && f.kind == Replace && SlotOf(f) !in s'.rib.entries
    ensures f in fails && FromPending(s', f)
  {
    InstalledAreQueued(s, op, oks, fails, s');
    RunKeepsKeys(s.rib, oks);
    assert forall o :: o in oks ==> SlotOf(o) in s'.rib.entries.Keys;
    assert FromPending(s', f);
    if Waited(s.rib, oks, f) {
      var k :| 0 < k <= |oks| && MayWait(ApplyAll(s.rib, oks[..k]), f);
      FilledAt(s.rib, op, oks, k);
    }
  }

  /** No queued ADD fills the slot of a queued replace. */
  ghost predicate TargetsLeftAlone(s: State) {
    forall i, j :: i in s.pending && j in s.pending && s.pending[i].kind == Replace && s.pending[j].kind != Replace ==>
      SlotOf(s.pending[i]) != SlotOf(s.pending[j])
  }

  /** Then a slot that is empty once op is installed stays so: another replace of it
      cannot be installed either. */
  lemma {:induction false} TargetStaysEmpty(s: State, op: Op, oks: seq<Op>, f: Op)
    requires oks != [] && oks[0] == op && InstallRun(s.rib, oks)
    requires forall i :: 1 <= i < |oks| ==> FromPending(s, oks[i])
    requires TargetsLeftAlone(s) && FromPending(s, f) && f.kind == Replace
    requires SlotOf(f) !in s.rib.entries && SlotOf(f) != SlotOf(op)
    ensures SlotOf(f) !in ApplyAll(s.rib, oks).entries
  {
    var n := |oks| - 1;
    if n == 0 {
      assert oks[..0] == [];
    } else {
      TargetStaysEmpty(s, op, oks[..n], f);
      assert FromPending(s, oks[n]);
    }
  }

  /** Where no group with a zero member is queued, and no queued ADD fills the slot of a
      queued replace, one look at the queue and the RIB decides: the places are disjoint,
      whatever the order of the retries, if and only if op is not installed or no queued
      replace misses its slot. */
  lemma PartitionDecided(s: State, fwd: bool, op: Op, oks: seq<Op>, fails: seq<Op>, s': State)
    requires AddStep(s, fwd, op, oks, fails, s') && PendingOK(s) && op.id !in s.pending
    requires TargetsLeftAlone(s) && forall id :: id in s.pending ==> NoZero(s.pending[id])
    ensures Partitions(s, op, oks, fails, s') <==> (Installable(s.rib, op) ==> NoneRejectable(s, op))
  {
    if Installable(s.rib, op) ==> NoneRejectable(s, op) {
      AddPartition(s, fwd, op, oks, fails, s');
    } else {
      var id :| id in s.pending && Rejectable(s, op, s.pending[id]);
      var f := s.pending[id];
      TargetStaysEmpty(s, op, oks, f);
      MissingTargetReported(s, fwd, op, oks, fails, s', f);
      assert f.id in Ids(fails) && f.id in s'.pending;
    }
  }

  // ---------------------------------------------------------------- what can be rejected

  /** The installs of oks, in order, beginning with op. */
  ghost predicate Chain(s: State, op: Op, oks: seq<Op>) {
    && oks != [] && oks[0] == op && DistinctIds(oks)
    && (forall i :: 1 <= i < |oks| ==> FromPending(s, oks[i]))
    && InstallRun(s.rib, oks)
  }

  function Left(s: State, oks: seq<Op>): State {
    State(ApplyAll(s.rib, oks), s.pending - (set o | o in oks :: o.id))
  }

  lemma ChainMore(s: State, op: Op, oks: seq<Op>, e: Op)
    requires Chain(s, op, oks) && FromPending(Left(s, oks), e) && Installable(ApplyAll(s.rib, oks), e)
    ensures Chain(s, op, oks + [e]) && Left(s, oks + [e]).pending == Left(s, oks).pending - {e.id}
  {
    hide Installable;
    assert (oks + [e])[..|oks|] == oks;
    IdsConcat(oks, [e]);
    assert Ids([e]) == {e.id};
  }

  /** Installs can be carried on until nothing queued could be installed. */
  lemma {:induction false} Exhaust(s: State, op: Op, oks: seq<Op>) returns (all: seq<Op>)
    requires Chain(s, op, oks) && PendingOK(s)
    ensures Chain(s, op, all) && Settled(Left(s, all))
    decreases Left(s, oks).pending.Keys
  {
    if id :| id in Left(s, oks).pending && Installable(ApplyAll(s.rib, oks), s.pending[id]) {
      ChainMore(s, op, oks, s.pending[id]);
      all := Exhaust(s, op, oks + [s.pending[id]]);
    } else {
      all := oks;
    }
  }

  lemma {:induction false} ListOf(ops: set<Op>) returns (q: seq<Op>)
    ensures forall o :: o in q <==> o in ops
  {
    q := [];
    if ops != {} {
      var o :| o in ops;
      var rest := ListOf(ops - {o});
      q := [o] + rest;
    }
  }

  lemma RejectedInTheEnd(r: Rib, oks: seq<Op>, f: Op)
    requires oks != [] && MayReject(ApplyAll(r, oks), f)
    ensures Rejected(r, oks, f)
  {
    hide MayReject, ApplyAll;
    assert oks[..|oks|] == oks;
  }

  /** op is installed, f is tried first and rejected, and the rest is tried until nothing
      is left to install. */
  lemma RejectionPossible(s: State, fwd: bool, op: Op, f: Op) returns (oks: seq<Op>, fails: seq<Op>, s': State)
    requires PendingOK(s) && Installable(s.rib, op) && FromPending(s, f) && Rejectable(s, op, f)
    ensures AddStep(s, fwd, op, oks, fails, s') && f in fails
  {
    RunOne(s.rib, op);
    oks := Exhaust(s, op, [op]);
    s' := Left(s, oks);
    FirstTryRejected(s, op, oks, f);
    var end := s'.rib;
    var rejects := set id | id in s'.pending && MayReject(end, s'.pending[id]) :: s'.pending[id];
    var others := ListOf(rejects);
    fails := [f] + others;
    forall x | x in fails ensures Failing(s, oks, x) {
      if x != f { LeftAndRejected(s, op, oks, x); }
    }
    forall id | id in s'.pending ensures s'.pending[id] in fails || Waited(s.rib, oks, s'.pending[id]) {
      LeftIsJudged(s, op, oks, s'.pending[id]);
    }
    hide Installable, Failing, Waited;
    assert Installs(s, op, oks, fails, s');
  }

  lemma FirstTryRejected(s: State, op: Op, oks: seq<Op>, f: Op)
    requires Chain(s, op, oks) && PendingOK(s) && FromPending(s, f) && Rejectable(s, op, f)
    ensures Failing(s, oks, f)
  {
    assert oks[..1] == [op] && [op][..0] == [];
    assert ApplyAll(s.rib, oks[..1]) == Apply(s.rib, op);
    assert MayReject(Apply(s.rib, op), f);
  }

  lemma LeftAndRejected(s: State, op: Op, oks: seq<Op>, x: Op)
    requires Chain(s, op, oks) && PendingOK(s) && FromPending(Left(s, oks), x) && MayReject(Left(s, oks).rib, x)
    ensures Failing(s, oks, x)
  {
    RunKeepsKeys(s.rib, oks);
    assert Waitable(ApplyAll(s.rib, oks), x);
    FromPendingIsFickle(ApplyAll(s.rib, oks), x);
    RejectedInTheEnd(s.rib, oks, x);
  }

  lemma LeftIsJudged(s: State, op: Op, oks: seq<Op>, x: Op)
    requires Chain(s, op, oks) && PendingOK(s) && FromPending(Left(s, oks), x) && Settled(Left(s, oks))
    ensures MayReject(Left(s, oks).rib, x) || Waited(s.rib, oks, x)
  {
    RunKeepsKeys(s.rib, oks);
    OutcomesCover(ApplyAll(s.rib, oks), x);
    hide MayWait, ApplyAll;
    assert oks[..|oks|] == oks;
  }

  /** Indeed a replace of an empty slot that is the first to be retried after op has no other
      outcome: it is reported, and nothing changes. */
  lemma FirstTryFails(s: State, fwd: bool, op: Op, f: Op, oks: seq<Op>, fails: seq<Op>, s': State)
    requires Rejectable(s, op, f) && NoZero(f)
    requires var s1 := State(Apply(s.rib, op), s.pending - {op.id});
      AddStep(s1, fwd, f, oks, fails, s')
    ensures oks == [] && fails == [f] && s' == State(Apply(s.rib, op), s.pending - {op.id})
  {
    assert BadReplace(Apply(s.rib, op), f);
  }

  /** The places are disjoint in every outcome, whatever is queued, if and only if op is not
      installed or nothing queued can be rejected. */
  lemma PartitionIff(s: State, fwd: bool, op: Op)
    requires PendingOK(s) && op.id !in s.pending
    ensures (forall oks, fails, s' :: AddStep(s, fwd, op, oks, fails, s') ==> Partitions(s, op, oks, fails, s'))
       <==> (Installable(s.rib, op) ==> NoneRejectable(s, op))
  {
    if Installable(s.rib, op) ==> NoneRejectable(s, op) {
      forall oks, fails, s' | AddStep(s, fwd, op, oks, fails, s') ensures Partitions(s, op, oks, fails, s') {
        AddPartition(s, fwd, op, oks, fails, s');
      }
    } else {
      var id :| id in s.pending && Rejectable(s, op, s.pending[id]);
      var oks, fails, s' := RejectionPossible(s, fwd, op, s.pending[id]);
      assert s.pending[id].id == id && fails != [op];
      assert !Partitions(s, op, oks, fails, s');
    }
  }
}
