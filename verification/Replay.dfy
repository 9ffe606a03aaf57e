/** Replaying the difference of two RIBs through the engine. */
module Replay {
  import opened Aft
  import opened RefCounts
  import opened Engine
  import opened Reconcile

  // ---------------------------------------------------------------- the difference by itself

  /** Stores and removes entries, without any checks. */
  function Patch(e: Entries, ops: seq<Op>): Entries {
    if ops == [] then e
    else
      var n := |ops| - 1;
      var before := Patch(e, ops[..n]);
      if ops[n].kind.Delete? then before - {SlotOf(ops[n])} else before[SlotOf(ops[n]) := ItemOf(ops[n])]
  }

  /** Slot t after the slots of done were brought in line with src. */
  function PatchedAt(src: Rib, dst: Rib, done: set<Slot>, t: Slot): Option<Item> {
    if t in done then At(src.entries, t) else At(dst.entries, t)
  }

  lemma {:induction false} PatchEffect(src: Rib, dst: Rib, explicitReplace: map<AftType, bool>, ops: seq<Op>)
    requires forall o :: o in ops ==> Emitted(src, dst, explicitReplace, o)
    ensures forall t :: At(Patch(dst.entries, ops), t) == PatchedAt(src, dst, SlotsOf(ops), t)
  {
    if ops != [] {
      var n := |ops| - 1;
      PatchEffect(src, dst, explicitReplace, ops[..n]);
      assert ops == ops[..n] + [ops[n]];
      SlotsSnoc(ops[..n], ops[n]);
      assert ops[n] in ops;
      forall t ensures At(Patch(dst.entries, ops), t) == PatchedAt(src, dst, SlotsOf(ops), t) {
        assert At(Patch(dst.entries, ops[..n]), t) == PatchedAt(src, dst, SlotsOf(ops[..n]), t);
      }
    }
  }

  /** In whatever order they are applied, the operations make dst equal to src in the
      network instances of src and leave the others alone. */
  lemma DiffIsCorrect(src: Rib, dst: Rib, explicitReplace: map<AftType, bool>, ops: seq<Op>)
    requires Covers(src, dst, explicitReplace, ops)
    ensures forall t :: At(Patch(dst.entries, ops), t) == At(if t.ni in src.nis then src.entries else dst.entries, t)
  {
    PatchEffect(src, dst, explicitReplace, ops);
    forall t ensures At(Patch(dst.entries, ops), t) == At(if t.ni in src.nis then src.entries else dst.entries, t) {
      assert At(Patch(dst.entries, ops), t) == PatchedAt(src, dst, SlotsOf(ops), t);
      if t in SlotsOf(ops) {
        var o :| o in ops && SlotOf(o) == t;
        assert Emitted(src, dst, explicitReplace, o);
      }
    }
  }

  /** There is one operation per differing slot, so there is none once nothing differs. */
  lemma DiffIsMinimal(src: Rib, dst: Rib, explicitReplace: map<AftType, bool>, ops: seq<Op>)
    requires Covers(src, dst, explicitReplace, ops)
    ensures SlotsOf(ops) == (set t | t in src.entries.Keys + dst.entries.Keys && Differs(src, dst, t))
    ensures |ops| == |SlotsOf(ops)|
    ensures ops == [] <==> forall t: Slot :: t.ni in src.nis ==> At(src.entries, t) == At(dst.entries, t)
  {
    forall t | t in SlotsOf(ops) ensures Differs(src, dst, t) {
      var o :| o in ops && SlotOf(o) == t;
      assert Emitted(src, dst, explicitReplace, o);
    }
    CountSlots(ops);
    if ops != [] {
      assert ops[0] in ops && SlotOf(ops[0]) in SlotsOf(ops);
    } else {
      forall t: Slot | t.ni in src.nis ensures At(src.entries, t) == At(dst.entries, t) {
        assert Differs(src, dst, t) ==> t in SlotsOf(ops);
      }
    }
  }

  /** Once dst was brought in line with src, a second difference is empty. */
  lemma SecondDiffEmpty(src: Rib, dst: Rib, m: map<AftType, bool>, ops: seq<Op>,
          dst': Rib, m': map<AftType, bool>, ops': seq<Op>)
    requires Covers(src, dst, m, ops) && dst'.entries == Patch(dst.entries, ops)
    requires Covers(src, dst', m', ops')
    ensures ops' == []
  {
    DiffIsCorrect(src, dst, m, ops);
    DiffIsMinimal(src, dst', m', ops');
  }

  // ---------------------------------------------------------------- through the engine

  /** One operation, on a RIB that does not allow forward references. */
  ghost predicate ReplayStep(s: State, op: Op, s': State) {
    if op.kind.Delete? then exists ok :: DeleteStep(s, op, ok, s')
    else exists oks, fails :: AddStep(s, false, op, oks, fails, s')
  }

  ghost predicate Succeeds(s: State, op: Op, s': State) {
    if op.kind.Delete? then DeleteStep(s, op, true, s') else AddStep(s, false, op, [op], [], s')
  }

  /** What is asked of the two RIBs: all their references resolve, over the same network
      instances, and the counters of the one that changes count. */
  ghost predicate Reconcilable(src: Rib, dst: Rib) {
    Legit(src) && Closed(src) && Legit(dst) && Closed(dst) && Exact(dst) && src.nis == dst.nis
  }

  ghost predicate Sound(s: State, nis: set<string>) {
    s.pending == map[] && s.rib.nis == nis && Legit(s.rib) && Closed(s.rib) && Exact(s.rib)
  }

  /** The slots of done are as in src and the others as in dst. */
  ghost predicate Partway(src: Rib, dst: Rib, done: set<Slot>, s: State) {
    Sound(s, src.nis) && forall t :: At(s.rib.entries, t) == PatchedAt(src, dst, done, t)
  }

  /** What the order of the phases comes to when it is the turn of slot t: everything in
      earlier phases is done and nothing in later ones. */
  ghost predicate Turn(src: Rib, dst: Rib, done: set<Slot>, t: Slot) {
    && t !in done
    && (forall u :: Differs(src, dst, u) && PhaseOf(src, dst, u) < PhaseOf(src, dst, t) ==> u in done)
    && (forall u :: u in done ==> Differs(src, dst, u))
  }

  lemma TurnOf(src: Rib, dst: Rib, explicitReplace: map<AftType, bool>, ops: seq<Op>, k: nat)
    requires Covers(src, dst, explicitReplace, ops) && InPhases(src, dst, ops) && k < |ops|
    ensures Turn(src, dst, SlotsOf(ops[..k]), SlotOf(ops[k]))
  {
    var done, t := SlotsOf(ops[..k]), SlotOf(ops[k]);
    forall u | u in done ensures u != t && Differs(src, dst, u) {
      var o :| o in ops[..k] && SlotOf(o) == u;
      var i :| 0 <= i < k && ops[i] == o;
      assert Emitted(src, dst, explicitReplace, o);
    }
    forall u | Differs(src, dst, u) && PhaseOf(src, dst, u) < PhaseOf(src, dst, t) ensures u in done {
      assert u in SlotsOf(ops);
      var o :| o in ops && SlotOf(o) == u;
      var i :| 0 <= i < |ops| && ops[i] == o;
      assert i < k;
      assert ops[..k][i] == o;
    }
  }

  /** A slot of src that refers to nothing missing can be programmed. */
  lemma LegitIsSane(r: Rib, op: Op)
    requires LegitEntry(r.nis, SlotOf(op), ItemOf(op))
    ensures ValidNI(r, op.ni) && Sane(op) && NoZero(op) && KnownTarget(r.nis, op)
  {
    if op.entry.GroupEntry? {
      forall j | 0 <= j < |op.entry.members| ensures op.entry.members[j].0 != 0 {
        MentionsIsMembership(op.entry.members, op.entry.members[j].0);
      }
    }
  }

  /** Whatever an upsert refers to is there by its turn. */
  lemma UpsertInstallable(src: Rib, dst: Rib, explicitReplace: map<AftType, bool>, done: set<Slot>, s: State, op: Op)
    requires Reconcilable(src, dst) && Partway(src, dst, done, s)
    requires Emitted(src, dst, explicitReplace, op) && !op.kind.Delete? && Turn(src, dst, done, SlotOf(op))
    ensures Installable(s.rib, op)
  {
    var t := SlotOf(op);
    LegitIsSane(src, op);
    LegitIsSane(s.rib, op);
    forall u | u in Needs(t, ItemOf(op)) ensures u in s.rib.entries.Keys {
      assert u in src.entries.Keys && Rank(u) < Rank(t);
      assert At(s.rib.entries, u) == PatchedAt(src, dst, done, u);
      assert PhaseOf(src, dst, u) == Rank(u) && PhaseOf(src, dst, t) == Rank(t);
    }
    assert At(s.rib.entries, t) == PatchedAt(src, dst, done, t);
  }

  /** By the time that t is deleted, the tables above it are those of src. */
  lemma HigherIsAsInSource(src: Rib, dst: Rib, done: set<Slot>, s: State, t: Slot, u: Slot)
    requires Reconcilable(src, dst) && Partway(src, dst, done, s)
    requires t in dst.entries && t !in src.entries && Turn(src, dst, done, t)
    requires u in s.rib.entries && Rank(t) < Rank(u)
    ensures u in src.entries && src.entries[u] == s.rib.entries[u]
  {
    assert At(s.rib.entries, u) == PatchedAt(src, dst, done, u);
    assert PhaseOf(src, dst, u) < PhaseOf(src, dst, t);
  }

  /** Nothing refers to what is deleted by its turn. */
  lemma DeleteUnused(src: Rib, dst: Rib, explicitReplace: map<AftType, bool>, done: set<Slot>, s: State, op: Op)
    requires Reconcilable(src, dst) && Partway(src, dst, done, s)
    requires Emitted(src, dst, explicitReplace, op) && op.kind.Delete? && Turn(src, dst, done, SlotOf(op))
    ensures Deletable(s.rib, SlotOf(op)) && Users(s.rib.entries, SlotOf(op)) == {}
  {
    var t := SlotOf(op);
    assert t in dst.entries && t !in src.entries;
    forall u | u in s.rib.entries ensures t !in Needs(u, s.rib.entries[u]) {
      if Rank(t) < Rank(u) {
        HigherIsAsInSource(src, dst, done, s, t, u);
        assert Needs(u, src.entries[u]) <= src.entries.Keys;
      }
    }
    assert Users(s.rib.entries, t) == {};
  }

  lemma UpsertSucceeds(src: Rib, dst: Rib, explicitReplace: map<AftType, bool>, done: set<Slot>,
          s: State, op: Op, s': State)
    requires Reconcilable(src, dst) && Partway(src, dst, done, s) && ReplayStep(s, op, s')
    requires Emitted(src, dst, explicitReplace, op) && !op.kind.Delete? && Turn(src, dst, done, SlotOf(op))
    ensures Succeeds(s, op, s') && Partway(src, dst, done + {SlotOf(op)}, s')
  {
    UpsertInstallable(src, dst, explicitReplace, done, s, op);
    var oks, fails :| AddStep(s, false, op, oks, fails, s');
    OnlyItself(s, op, oks, fails, s');
    ApplyLegit(s.rib, op);
    ApplyClosed(s.rib, op);
    ApplyExactIff(s.rib, op);
    UpsertPatches(src, dst, done, s, op, s');
  }

  /** With nothing queued an install unlocks nothing. */
  lemma OnlyItself(s: State, op: Op, oks: seq<Op>, fails: seq<Op>, s': State)
    requires Installs(s, op, oks, fails, s') && s.pending == map[]
    ensures oks == [op] && fails == [] && s' == State(Apply(s.rib, op), map[])
  {
    var last := oks[|oks| - 1];
    assert last == op;
    NoElements(fails);
    RunOne(s.rib, op);
    assert oks == [op];
  }

  lemma UpsertPatches(src: Rib, dst: Rib, done: set<Slot>, s: State, op: Op, s': State)
    requires forall t :: At(s.rib.entries, t) == PatchedAt(src, dst, done, t)
    requires s'.rib == Apply(s.rib, op) && At(src.entries, SlotOf(op)) == Some(ItemOf(op))
    ensures forall t :: At(s'.rib.entries, t) == PatchedAt(src, dst, done + {SlotOf(op)}, t)
  {
    forall t ensures At(s'.rib.entries, t) == PatchedAt(src, dst, done + {SlotOf(op)}, t) {
      assert At(s.rib.entries, t) == PatchedAt(src, dst, done, t);
    }
  }

  lemma DeleteSucceeds(src: Rib, dst: Rib, explicitReplace: map<AftType, bool>, done: set<Slot>,
          s: State, op: Op, s': State)
    requires Reconcilable(src, dst) && Partway(src, dst, done, s) && ReplayStep(s, op, s')
    requires Emitted(src, dst, explicitReplace, op) && op.kind.Delete? && Turn(src, dst, done, SlotOf(op))
    ensures Succeeds(s, op, s') && Partway(src, dst, done + {SlotOf(op)}, s')
  {
    var t := SlotOf(op);
    DeleteUnused(src, dst, explicitReplace, done, s, op);
    assert s' == State(Remove(s.rib, t), s.pending);
    RemoveKeepsCounters(s.rib, t);
    forall u | u in s'.rib.entries ensures Needs(u, s'.rib.entries[u]) <= s'.rib.entries.Keys {
      assert u !in Users(s.rib.entries, t);
    }
    forall u ensures At(s'.rib.entries, u) == PatchedAt(src, dst, done + {t}, u) {
      assert At(s.rib.entries, u) == PatchedAt(src, dst, done, u);
    }
  }

  /** The states that replaying ops on dst has gone through so far. */
  ghost predicate Replays(dst: Rib, ops: seq<Op>, states: seq<State>) {
    && 0 < |states| <= |ops| + 1 && states[0] == State(dst, map[])
    && forall i :: 0 <= i < |states| - 1 ==> ReplayStep(states[i], ops[i], states[i + 1])
  }

  lemma {:induction false} ReplayInvariant(src: Rib, dst: Rib, explicitReplace: map<AftType, bool>, ops: seq<Op>,
          states: seq<State>, k: nat)
    requires Reconcilable(src, dst) && Covers(src, dst, explicitReplace, ops) && InPhases(src, dst, ops)
    requires Replays(dst, ops, states) && k < |states|
    ensures Partway(src, dst, SlotsOf(ops[..k]), states[k])
    ensures k > 0 ==> Succeeds(states[k - 1], ops[k - 1], states[k])
  {
    if k > 0 {
      hide Partway, Turn, Emitted, AddStep, InPhases, Reconcilable;
      var s, op, s' := states[k - 1], ops[k - 1], states[k];
      ReplayInvariant(src, dst, explicitReplace, ops, states, k - 1);
      TurnOf(src, dst, explicitReplace, ops, k - 1);
      assert ReplayStep(s, op, s') && op in ops;
      if op.kind.Delete? {
        DeleteSucceeds(src, dst, explicitReplace, SlotsOf(ops[..k - 1]), s, op, s');
      } else {
        UpsertSucceeds(src, dst, explicitReplace, SlotsOf(ops[..k - 1]), s, op, s');
      }
      assert ops[..k] == ops[..k - 1] + [op];
      SlotsSnoc(ops[..k - 1], op);
    } else {
      assert SlotsOf(ops[..0]) == {};
    }
  }

  /** The operations that reconcile dst with src, sent phase by phase to a RIB that does
      not allow forward references: none of them fails, and dst ends up with the contents
      of src. On the way no reference dangles, and what is in both RIBs never goes away. */
  lemma ReconcileEndToEnd(src: Rib, dst: Rib, explicitReplace: map<AftType, bool>, ops: seq<Op>, states: seq<State>)
    requires Reconcilable(src, dst) && Covers(src, dst, explicitReplace, ops) && InPhases(src, dst, ops)
    requires Replays(dst, ops, states) && |states| == |ops| + 1
    ensures forall i :: 0 <= i < |ops| ==> Succeeds(states[i], ops[i], states[i + 1])
    ensures forall i :: 0 <= i < |states| ==> Closed(states[i].rib) && Exact(states[i].rib)
    ensures forall i :: 0 <= i < |states| ==> states[i].pending == map[]
    ensures forall i, t :: 0 <= i < |states| && t in src.entries && t in dst.entries ==> t in states[i].rib.entries
    ensures states[|ops|].rib.entries == src.entries
  {
    forall i | 0 <= i < |ops| ensures Succeeds(states[i], ops[i], states[i + 1]) {
      ReplayInvariant(src, dst, explicitReplace, ops, states, i + 1);
    }
    forall i | 0 <= i < |states| ensures Partway(src, dst, SlotsOf(ops[..i]), states[i]) {
      ReplayInvariant(src, dst, explicitReplace, ops, states, i);
    }
    forall i, t | 0 <= i < |states| && t in src.entries && t in dst.entries ensures t in states[i].rib.entries {
      assert At(states[i].rib.entries, t) == PatchedAt(src, dst, SlotsOf(ops[..i]), t);
    }
    FullyPatched(src, dst, explicitReplace, ops, states[|ops|]);
  }

  lemma FullyPatched(src: Rib, dst: Rib, explicitReplace: map<AftType, bool>, ops: seq<Op>, s: State)
    requires Reconcilable(src, dst) && Covers(src, dst, explicitReplace, ops)
    requires Partway(src, dst, SlotsOf(ops[..|ops|]), s)
    ensures s.rib.entries == src.entries
  {
    assert ops[..|ops|] == ops;
    forall t ensures At(s.rib.entries, t) == At(src.entries, t) {
      assert At(s.rib.entries, t) == PatchedAt(src, dst, SlotsOf(ops), t);
    }
    forall t | t in src.entries || t in s.rib.entries
      ensures t in src.entries && t in s.rib.entries && s.rib.entries[t] == src.entries[t]
    {
      assert At(s.rib.entries, t) == At(src.entries, t);
    }
  }
}
