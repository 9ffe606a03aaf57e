/** Reconciling one RIB with another, from the difference to the last operation. */
module Reconciler {
  import opened Aft
  import opened RefCounts
  import opened Engine
  import opened Retry
  import opened Concrete
  import opened RibImpl
  import opened Reconcile
  import opened Replay
  import opened ReconcileImpl

  /** The operations that make target hold what intended holds. Replaces are implicit. */
  method ReconcileRIBs(intended: RIB, target: RIB, base: nat) returns (ops: ReconcileOps, id: nat)
    requires intended.Valid() && target.Valid() && WellKept(intended.rib) && WellKept(target.rib)
    ensures Filed(intended.rib.entries, target.rib.entries, map[], ops)
    ensures Complete(intended.rib.nis, intended.rib.entries, target.rib.entries, ops)
    ensures Covers(intended.rib, target.rib, map[], InOrder(ops)) && InPhases(intended.rib, target.rib, InOrder(ops))
    ensures id == base + |InOrder(ops)| && DistinctIds(InOrder(ops))
    ensures forall op :: op in InOrder(ops) ==> base < op.id <= id
  {
    var src := intended.RIBContents();
    var dst := target.RIBContents();
    ghost var log;
    ops, id, log := Diff(src, dst, map[], base);
    CountersDoNotMatter(intended.rib, src, target.rib, dst, map[], InOrder(ops));
  }

  /** The difference of two RIBs is that of their contents. */
  lemma CountersDoNotMatter(src: Rib, src': Rib, dst: Rib, dst': Rib, m: map<AftType, bool>, ops: seq<Op>)
    requires src'.nis == src.nis && src'.entries == src.entries && dst'.entries == dst.entries
    requires Covers(src', dst', m, ops) && InPhases(src', dst', ops)
    ensures Covers(src, dst, m, ops) && InPhases(src, dst, ops)
  {
    forall o | o in ops ensures Emitted(src, dst, m, o) { assert Emitted(src', dst', m, o); }
    forall t | Differs(src, dst, t) ensures t in SlotsOf(ops) { assert Differs(src', dst', t); }
    forall i, j | 0 <= i < j < |ops|
      ensures PhaseOf(src, dst, SlotOf(ops[i])) <= PhaseOf(src, dst, SlotOf(ops[j]))
    {
      assert CategoryOf(src', dst', SlotOf(ops[i])) == CategoryOf(src, dst, SlotOf(ops[i]));
      assert CategoryOf(src', dst', SlotOf(ops[j])) == CategoryOf(src, dst, SlotOf(ops[j]));
    }
  }

  /** Sends the operations, in order, to a RIB that does not allow forward references.
      Each is acknowledged, and the RIB ends up with the contents of src. */
  method Institute(target: RIB, ops: seq<Op>, ghost src: Rib, ghost m: map<AftType, bool>) returns (acks: seq<bool>)
    requires target.Valid() && !target.fwd && target.pending == map[]
    requires Reconcilable(src, target.rib) && Covers(src, target.rib, m, ops) && InPhases(src, target.rib, ops)
    modifies target`rib, target`pending, target.niRIB.Values
    ensures target.Valid() && target.pending == map[]
    ensures |acks| == |ops| && (forall i :: 0 <= i < |acks| ==> acks[i]) && target.rib.entries == src.entries
  {
    hide RIB.Kept, Reconcilable, Covers, InPhases, Succeeds, ReplayStep;
    acks := [];
    ghost var dst := target.rib;
    ghost var states := [target.View()];
    for i := 0 to |ops|
      invariant target.Valid() && QueueOK(target.View(), false)
      invariant |states| == i + 1 && states[i] == target.View() && Replays(dst, ops, states)
      invariant |acks| == i && forall j :: 0 <= j < i ==> acks[j]
    {
      NextIsValid(src, dst, m, ops, i, states);
      var ok := Send(target, ops[i]);
      states := states + [target.View()];
      ReplayInvariant(src, dst, m, ops, states, i + 1);
      acks := acks + [ok];
    }
    ReconcileEndToEnd(src, dst, m, ops, states);
  }

  lemma NextIsValid(src: Rib, dst: Rib, m: map<AftType, bool>, ops: seq<Op>, i: nat, states: seq<State>)
    requires Reconcilable(src, dst) && Covers(src, dst, m, ops) && InPhases(src, dst, ops)
    requires Replays(dst, ops, states) && i < |ops| && i < |states|
    ensures ValidNI(states[i].rib, ops[i].ni)
  {
    ReplayInvariant(src, dst, m, ops, states, i);
    hide InPhases, Replays, Closed, Exact;
    var t := SlotOf(ops[i]);
    assert ops[i] in ops && Emitted(src, dst, m, ops[i]);
    assert if ops[i].kind.Delete?
      then LegitEntry(dst.nis, t, dst.entries[t])
      else LegitEntry(src.nis, t, src.entries[t]);
  }

  /** One operation; ok tells whether its own ID is acknowledged. */
  method Send(target: RIB, op: Op) returns (ok: bool)
    requires target.Valid() && !target.fwd && QueueOK(target.View(), false) && ValidNI(target.rib, op.ni)
    modifies target`rib, target`pending, target.niRIB.Values
    ensures target.Valid() && QueueOK(target.View(), false)
    ensures ReplayStep(old(target.View()), op, target.View())
    ensures Succeeds(old(target.View()), op, target.View()) ==> ok
  {
    hide RIB.Kept;
    if op.kind.Delete? {
      var _, ok' := target.DeleteEntry(op);
      return ok';
    } else {
      var _, oks, _, _ := target.AddEntry(op);
      return oks != [];
    }
  }
}
