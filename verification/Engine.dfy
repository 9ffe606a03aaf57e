/** The RIB as a state machine: installing operations, queueing those whose references
    are missing, deleting, flushing, and what every step keeps. */
module Engine {
  import opened Aft
  import opened RefCounts

  /** The RIB and the operations that wait for their references, keyed by operation ID. */
  datatype State = State(rib: Rib, pending: map<nat, Op>)

  // ---------------------------------------------------------------- admission

  /** The payload names no zero key and a group has members. */
  predicate Sane(op: Op) {
    match op.entry
    case TopEntry(_, _, nhg, _) => nhg != 0
    case GroupEntry(id, members, _) => id != 0 && members != []
    case HopEntry(index, _, _) => index != 0
  }

  /** No member of a group has index zero. */
  ghost predicate NoZero(op: Op) {
    op.entry.GroupEntry? ==> forall j :: 0 <= j < |op.entry.members| ==> op.entry.members[j].0 != 0
  }

  /** The network instance that a route names for its group exists. */
  predicate KnownTarget(nis: set<string>, op: Op) {
    op.entry.TopEntry? && op.entry.nhgNI != "" ==> op.entry.nhgNI in nis
  }

  predicate ValidNI(r: Rib, ni: string) {
    ni != "" && ni in r.nis
  }

  predicate BadReplace(r: Rib, op: Op) {
    op.kind == Replace && SlotOf(op) !in r.entries
  }

  /** Everything op needs is there: adding it succeeds. */
  ghost predicate Installable(r: Rib, op: Op) {
    && ValidNI(r, op.ni) && !BadReplace(r, op)
    && Sane(op) && NoZero(op) && KnownTarget(r.nis, op)
    && Needs(SlotOf(op), ItemOf(op)) <= r.entries.Keys
  }

  /** Adding op can end in an error that no later change of the RIB is expected to cure. */
  ghost predicate MayReject(r: Rib, op: Op) {
    BadReplace(r, op) || !Sane(op) || !KnownTarget(r.nis, op) || !NoZero(op)
  }

  predicate ZeroSlot(t: Slot) {
    (t.Group? && t.id == 0) || (t.Hop? && t.index == 0)
  }

  /** Adding op can end in a reference that is missing for now. */
  ghost predicate MayWait(r: Rib, op: Op) {
    && !BadReplace(r, op) && Sane(op) && KnownTarget(r.nis, op)
    && exists t :: t in Needs(SlotOf(op), ItemOf(op)) && t !in r.entries && !ZeroSlot(t)
  }

  /** An operation that can be queued and yet rejected by a later attempt: a replace,
      whose target may go away, and a group with a zero member, whose members are
      visited in no fixed order. */
  ghost predicate Fickle(op: Op) {
    op.kind == Replace || !NoZero(op)
  }

  /** Three outcomes, at least one of them possible; only a Fickle operation has two. */
  lemma OutcomesCover(r: Rib, op: Op)
    requires ValidNI(r, op.ni)
    ensures Installable(r, op) ==> !MayReject(r, op) && !MayWait(r, op)
    ensures !Installable(r, op) ==> MayReject(r, op) || MayWait(r, op)
    ensures MayReject(r, op) && MayWait(r, op) ==> Fickle(op)
  {
    if !Installable(r, op) && !MayReject(r, op) {
      var t :| t in Needs(SlotOf(op), ItemOf(op)) && t !in r.entries;
      if op.entry.GroupEntry? { MentionsIsMembership(op.entry.members, t.index); }
    }
  }

  /** Installability only looks at which network instances and slots there are, and
      more of them never hurts. */
  lemma InstallableMonotone(r: Rib, r': Rib, op: Op)
    requires Installable(r, op) && r.nis <= r'.nis && r.entries.Keys <= r'.entries.Keys
    ensures Installable(r', op)
  {
  }

  // ---------------------------------------------------------------- traces of installs

  /** Each operation of ops is installable when its turn comes. */
  ghost predicate InstallRun(r: Rib, ops: seq<Op>) {
    ops != [] ==>
      var n := |ops| - 1;
      InstallRun(r, ops[..n]) && Installable(ApplyAll(r, ops[..n]), ops[n])
  }

  function ApplyAll(r: Rib, ops: seq<Op>): Rib {
    if ops == [] then r
    else
      var n := |ops| - 1;
      Apply(ApplyAll(r, ops[..n]), ops[n])
  }

  ghost function Ids(ops: seq<Op>): set<nat> {
    set o | o in ops :: o.id
  }

  ghost predicate DistinctIds(ops: seq<Op>) {
    forall i, j :: 0 <= i < j < |ops| ==> ops[i].id != ops[j].id
  }

  lemma {:induction false} RunConcat(r: Rib, a: seq<Op>, b: seq<Op>)
    requires InstallRun(r, a) && InstallRun(ApplyAll(r, a), b)
    ensures InstallRun(r, a + b) && ApplyAll(r, a + b) == ApplyAll(ApplyAll(r, a), b)
  {
    if b == [] {
      assert a + b == a;
    } else {
      var n := |b| - 1;
      RunConcat(r, a, b[..n]);
      assert (a + b)[..|a + b| - 1] == a + b[..n];
    }
  }

  lemma RunOne(r: Rib, op: Op)
    requires Installable(r, op)
    ensures InstallRun(r, [op]) && ApplyAll(r, [op]) == Apply(r, op)
  {
    assert [op][..0] == [];
  }

  lemma {:induction false} RunKeepsKeys(r: Rib, ops: seq<Op>)
    ensures ApplyAll(r, ops).nis == r.nis
    ensures ApplyAll(r, ops).entries.Keys == r.entries.Keys + set o | o in ops :: SlotOf(o)
  {
    if ops != [] {
      var n := |ops| - 1;
      RunKeepsKeys(r, ops[..n]);
      assert ops == ops[..n] + [ops[n]];
    }
  }

  // ---------------------------------------------------------------- one AddEntry

  /** No queued operation could be installed. */
  ghost predicate Settled(s: State) {
    forall id :: id in s.pending ==> !Installable(s.rib, s.pending[id])
  }

  /** op can be queued: nothing but a missing reference can stop it, unless it is Fickle. */
  ghost predicate Waitable(r: Rib, op: Op) {
    ValidNI(r, op.ni) && Sane(op) && KnownTarget(r.nis, op)
  }

  ghost predicate PendingOK(s: State) {
    forall id :: id in s.pending ==> s.pending[id].id == id && Waitable(s.rib, s.pending[id])
  }

  ghost predicate FromPending(s: State, op: Op) {
    op.id in s.pending && s.pending[op.id] == op
  }

  /** At some time after its first install the run oks comes by a RIB that can reject f. */
  ghost predicate Rejected(r: Rib, oks: seq<Op>, f: Op) {
    exists k :: 0 < k <= |oks| && MayReject(ApplyAll(r, oks[..k]), f)
  }

  /** At some time after its first install the run oks comes by a RIB where e can wait. */
  ghost predicate Waited(r: Rib, oks: seq<Op>, e: Op) {
    exists k :: 0 < k <= |oks| && MayWait(ApplyAll(r, oks[..k]), e)
  }

  /** What installing op, and then everything that it makes installable, does: oks is
      the order of the installs. */
  ghost predicate Installs(s: State, op: Op, oks: seq<Op>, fails: seq<Op>, s': State) {
    && oks != [] && oks[0] == op
    && DistinctIds(oks)
    && (forall i :: 1 <= i < |oks| ==> FromPending(s, oks[i]))
    && InstallRun(s.rib, oks)
    && s'.rib == ApplyAll(s.rib, oks)
    && s'.pending == s.pending - Ids(oks)
    && (forall f :: f in fails ==> Failing(s, oks, f))
  }

  /** f was queued, and was rejected in the course of the installs. */
  ghost predicate Failing(s: State, oks: seq<Op>, f: Op) {
    FromPending(s, f) && Fickle(f) && Rejected(s.rib, oks, f)
  }

  /** Nothing queued is passed over: what is still queued was found waiting, or was
      reported. */
  ghost predicate NonePassedOver(s: State, oks: seq<Op>, fails: seq<Op>, s': State) {
    forall id :: id in s'.pending ==> s'.pending[id] in fails || Waited(s.rib, oks, s'.pending[id])
  }

  lemma FromPendingIsFickle(r: Rib, op: Op)
    requires Waitable(r, op) && MayReject(r, op)
    ensures Fickle(op)
  {
  }

  lemma IdsConcat(a: seq<Op>, b: seq<Op>)
    ensures Ids(a + b) == Ids(a) + Ids(b)
    ensures DistinctIds(a) && DistinctIds(b) && Ids(a) !! Ids(b) ==> DistinctIds(a + b)
  {
    assert forall o :: o in a + b <==> o in a || o in b;
    if Ids(a) !! Ids(b) {
      forall i, j | 0 <= i < |a| <= j < |a + b| ensures (a + b)[i].id != (a + b)[j].id {
        assert a[i] in a && b[j - |a|] in b;
        assert a[i].id in Ids(a) && b[j - |a|].id in Ids(b);
      }
    }
  }

  lemma QueuedIdsApart(s0: State, oks: seq<Op>, s: State, o: seq<Op>)
    requires s.pending == s0.pending - Ids(oks)
    requires forall i :: 0 <= i < |o| ==> FromPending(s, o[i])
    ensures Ids(oks) !! Ids(o)
  {
    forall id | id in Ids(o) ensures id !in Ids(oks) {
      var i :| 0 <= i < |o| && o[i].id == id;
      assert FromPending(s, o[i]);
    }
  }

  lemma RejectedLater(r: Rib, oks: seq<Op>, o: seq<Op>, f: Op)
    requires Rejected(r, oks, f)
    ensures Rejected(r, oks + o, f)
  {
    var k :| 0 < k <= |oks| && MayReject(ApplyAll(r, oks[..k]), f);
    hide MayReject, ApplyAll;
    assert (oks + o)[..k] == oks[..k];
  }

  lemma WaitedLater(r: Rib, oks: seq<Op>, o: seq<Op>, e: Op)
    requires Waited(r, oks, e)
    ensures Waited(r, oks + o, e)
  {
    var k :| 0 < k <= |oks| && MayWait(ApplyAll(r, oks[..k]), e);
    hide MayWait, ApplyAll;
    assert (oks + o)[..k] == oks[..k];
  }

  lemma RejectedInTail(r: Rib, oks: seq<Op>, o: seq<Op>, f: Op)
    requires Rejected(ApplyAll(r, oks), o, f)
    ensures Rejected(r, oks + o, f)
  {
    var k :| 0 < k <= |o| && MayReject(ApplyAll(ApplyAll(r, oks), o[..k]), f);
    hide MayReject, ApplyAll;
    ApplyAllConcat(r, oks, o[..k]);
    assert (oks + o)[..|oks| + k] == oks + o[..k];
  }

  lemma FailingCompose(s0: State, oks: seq<Op>, s: State, o: seq<Op>, x: Op)
    requires s.rib == ApplyAll(s0.rib, oks) && s.pending == s0.pending - Ids(oks)
    requires Failing(s0, oks, x) || Failing(s, o, x)
    ensures Failing(s0, oks + o, x)
  {
    if Failing(s0, oks, x) { RejectedLater(s0.rib, oks, o, x); } else { RejectedInTail(s0.rib, oks, o, x); }
  }

  lemma {:induction false} ApplyAllConcat(r: Rib, a: seq<Op>, b: seq<Op>)
    ensures ApplyAll(r, a + b) == ApplyAll(ApplyAll(r, a), b)
  {
    if b == [] {
      assert a + b == a;
    } else {
      var n := |b| - 1;
      ApplyAllConcat(r, a, b[..n]);
      assert (a + b)[..|a + b| - 1] == a + b[..n];
    }
  }

  /** Installing op and its followers, and then one more queued operation with its own. */
  lemma InstallsCompose(s0: State, op: Op, oks: seq<Op>, fails: seq<Op>, s: State,
          e: Op, o: seq<Op>, f: seq<Op>, s': State)
    requires Installs(s0, op, oks, fails, s) && FromPending(s, e)
    requires Installs(s, e, o, f, s')
    ensures Installs(s0, op, oks + o, fails + f, s')
  {
    hide Installable, Failing, InstallRun, ApplyAll, Ids, DistinctIds;
    RunConcat(s0.rib, oks, o);
    QueuedIdsApart(s0, oks, s, o);
    IdsConcat(oks, o);
    forall x | x in fails + f ensures Failing(s0, oks + o, x) { FailingCompose(s0, oks, s, o, x); }
  }

  /** One retry out of the pass that follows an install: either nothing happens, or more
      is installed and nothing is left to install. */
  lemma RetryStep(s0: State, op: Op, oks: seq<Op>, fails: seq<Op>, s: State, e: Op, o: seq<Op>, f: seq<Op>, s': State)
    requires Installs(s0, op, oks, fails, s) && PendingOK(s) && FromPending(s, e)
    requires AddStep(s, true, e, o, f, s')
    ensures Installs(s0, op, oks + o, fails + f, s')
    ensures if Installable(s.rib, e) then o != [] && Settled(s') else o == [] && s' == s
  {
    if Installable(s.rib, e) {
      InstallsCompose(s0, op, oks, fails, s, e, o, f, s');
    } else {
      assert s.pending[e.id := e] == s.pending;
      assert oks + o == oks;
      if f == [e] {
        FromPendingIsFickle(s.rib, e);
        assert oks[..|oks|] == oks;
      }
    }
  }

  /** AddEntry on a valid network instance; fwd tells whether forward references are allowed. */
  ghost predicate AddStep(s: State, fwd: bool, op: Op, oks: seq<Op>, fails: seq<Op>, s': State) {
    if Installable(s.rib, op) then
      Installs(s, op, oks, fails, s') && Settled(s') && NonePassedOver(s, oks, fails, s')
    else
      && oks == [] && s'.rib == s.rib
      && (|| (fails == [] && fwd && MayWait(s.rib, op) && s'.pending == s.pending[op.id := op])
          || (fails == [op] && (MayReject(s.rib, op) || (!fwd && MayWait(s.rib, op))) && s'.pending == s.pending))
  }

  lemma NoElements<T>(q: seq<T>)
    requires forall x :: x !in q
    ensures q == []
  {
    if q != [] { HasElement(q); }
  }

  lemma HasElement<T>(q: seq<T>)
    requires q != []
    ensures exists x :: x in q
  {
    assert q[0] in q;
  }

  // ---------------------------------------------------------------- deleting and flushing

  /** A delete goes ahead unless the key is zero or the counter says that the entry is in use. */
  predicate Deletable(r: Rib, t: Slot) {
    !ZeroSlot(t) && (t.Top? || t !in r.entries || Cnt(r.refs, t) == 0)
  }

  /** The counter answers what a walk over every entry would. */
  lemma DeletableIffUnused(r: Rib, t: Slot)
    requires AtLeast(r) && !ZeroSlot(t) && !t.Top? && t in r.entries
    ensures Deletable(r, t) ==> Users(r.entries, t) == {}
    ensures Exact(r) ==> (Deletable(r, t) <==> forall s :: s in r.entries ==> t !in Needs(s, r.entries[s]))
  {
    assert Cnt(r.refs, t) >= |Users(r.entries, t)|;
    if forall s :: s in r.entries ==> t !in Needs(s, r.entries[s]) {
      assert Users(r.entries, t) == {};
    } else {
      var s :| s in r.entries && t in Needs(s, r.entries[s]);
      assert s in Users(r.entries, t);
    }
  }

  ghost predicate DeleteStep(s: State, op: Op, ok: bool, s': State) {
    && ok == Deletable(s.rib, SlotOf(op))
    && s' == if ok then State(Remove(s.rib, SlotOf(op)), s.pending) else s
  }

  function RemoveAll(r: Rib, ts: seq<Slot>): Rib {
    if ts == [] then r
    else
      var n := |ts| - 1;
      Remove(RemoveAll(r, ts[..n]), ts[n])
  }

  /** Flush empties the slots of the given network instances, in some order that may
      come across empty ones. */
  ghost predicate FlushStep(s: State, nis: set<string>, order: seq<Slot>, s': State) {
    && (forall t :: t in order ==> t.ni in nis)
    && (forall t :: t in s.rib.entries && t.ni in nis ==> t in order)
    && s' == State(RemoveAll(s.rib, order), s.pending)
  }

  lemma {:induction false} RemoveAllConcat(r: Rib, a: seq<Slot>, b: seq<Slot>)
    ensures RemoveAll(r, a + b) == RemoveAll(RemoveAll(r, a), b)
  {
    if b == [] {
      assert a + b == a;
    } else {
      var n := |b| - 1;
      RemoveAllConcat(r, a, b[..n]);
      assert (a + b)[..|a + b| - 1] == a + b[..n];
    }
  }

  lemma {:induction false} RemoveAllEffect(r: Rib, ts: seq<Slot>)
    ensures RemoveAll(r, ts).nis == r.nis
    ensures RemoveAll(r, ts).entries == map t | t in r.entries && t !in ts :: r.entries[t]
    ensures AtLeast(r) ==> AtLeast(RemoveAll(r, ts))
    ensures AtLeast(r) && Exact(r) ==> Exact(RemoveAll(r, ts))
  {
    if ts != [] {
      var n := |ts| - 1;
      RemoveAllEffect(r, ts[..n]);
      assert ts == ts[..n] + [ts[n]];
      if AtLeast(r) { RemoveKeepsCounters(RemoveAll(r, ts[..n]), ts[n]); }
    }
  }

  /** A flush empties the network instances it is given, and leaves the others as they are. */
  lemma FlushLeaves(s: State, nis: set<string>, order: seq<Slot>, s': State)
    requires FlushStep(s, nis, order, s')
    ensures forall t: Slot :: At(s'.rib.entries, t) == if t.ni in nis then None else At(s.rib.entries, t)
    ensures s'.rib.nis == s.rib.nis && s'.pending == s.pending
  {
    RemoveAllEffect(s.rib, order);
  }

  // ---------------------------------------------------------------- invariants

  /** Every reference resolves. */
  ghost predicate Closed(r: Rib) {
    forall t :: t in r.entries ==> Needs(t, r.entries[t]) <= r.entries.Keys
  }

  /** What every stored entry went through on its way in. */
  ghost predicate LegitEntry(nis: set<string>, t: Slot, x: Item) {
    && t.ni != "" && t.ni in nis && !ZeroSlot(t)
    && (match t
        case Top(ni, _) => x.Route? && x.nhg != 0 && Home(ni, x.nhgNI) in nis
        case Group(_, _) => x.NextHopGroup? && 0 !in x.weights && x.weights != map[]
        case Hop(_, _) => x.NextHop?)
  }

  ghost predicate Legit(r: Rib) {
    forall t :: t in r.entries ==> LegitEntry(r.nis, t, r.entries[t])
  }

  /** The invariant of every run. */
  ghost predicate Inv(s: State, fwd: bool) {
    && AtLeast(s.rib) && Legit(s.rib)
    && PendingOK(s) && Settled(s)
    && (!fwd ==> s.pending == map[])
  }

  lemma ApplyLegit(r: Rib, op: Op)
    requires Legit(r) && Installable(r, op)
    ensures LegitEntry(r.nis, SlotOf(op), ItemOf(op))
    ensures Legit(Apply(r, op))
  {
    if op.entry.GroupEntry? {
      MentionsIsMembership(op.entry.members, 0);
      MentionsIsMembership(op.entry.members, op.entry.members[0].0);
    }
  }

  lemma ApplyClosed(r: Rib, op: Op)
    requires Closed(r) && Installable(r, op)
    ensures Closed(Apply(r, op))
  {
    var r' := Apply(r, op);
    forall t | t in r'.entries ensures Needs(t, r'.entries[t]) <= r'.entries.Keys {
      if t != SlotOf(op) { assert t in r.entries; }
    }
  }

  lemma {:induction false} RunKeeps(r: Rib, ops: seq<Op>)
    requires InstallRun(r, ops)
    ensures AtLeast(r) ==> AtLeast(ApplyAll(r, ops))
    ensures Legit(r) ==> Legit(ApplyAll(r, ops))
    ensures Closed(r) ==> Closed(ApplyAll(r, ops))
    ensures Exact(r) && (forall o :: o in ops ==> DistinctMembers(o)) ==> Exact(ApplyAll(r, ops))
  {
    if ops != [] {
      var n := |ops| - 1;
      var r1 := ApplyAll(r, ops[..n]);
      RunKeeps(r, ops[..n]);
      if AtLeast(r) { ApplyKeepsAtLeast(r1, ops[n]); }
      if Legit(r) { ApplyLegit(r1, ops[n]); }
      if Closed(r) { ApplyClosed(r1, ops[n]); }
      if Exact(r) && (forall o :: o in ops ==> DistinctMembers(o)) {
        assert forall o :: o in ops[..n] ==> o in ops;
        ApplyExactIff(r1, ops[n]);
      }
    }
  }

  lemma AddKeepsInv(s: State, fwd: bool, op: Op, oks: seq<Op>, fails: seq<Op>, s': State)
    requires Inv(s, fwd) && ValidNI(s.rib, op.ni) && AddStep(s, fwd, op, oks, fails, s')
    ensures Inv(s', fwd)
    ensures Closed(s.rib) ==> Closed(s'.rib)
  {
    if Installable(s.rib, op) {
      RunKeeps(s.rib, oks);
      RunKeepsKeys(s.rib, oks);
    }
  }

  /** Removing slots cannot make a queued operation installable. */
  lemma ShrinkKeepsSettled(s: State, r: Rib)
    requires Settled(s) && r.nis == s.rib.nis && r.entries.Keys <= s.rib.entries.Keys
    ensures Settled(State(r, s.pending))
  {
    forall id | id in s.pending ensures !Installable(r, s.pending[id]) {
      if Installable(r, s.pending[id]) { InstallableMonotone(r, s.rib, s.pending[id]); }
    }
  }

  /** A delete keeps the invariant, and never leaves a reference dangling. */
  lemma DeleteKeepsInv(s: State, fwd: bool, op: Op, ok: bool, s': State)
    requires Inv(s, fwd) && DeleteStep(s, op, ok, s')
    ensures Inv(s', fwd)
    ensures Closed(s.rib) ==> Closed(s'.rib)
  {
    var t := SlotOf(op);
    if ok && t in s.rib.entries {
      RemoveKeepsCounters(s.rib, t);
      ShrinkKeepsSettled(s, s'.rib);
      if Closed(s.rib) {
        forall u | u in s'.rib.entries ensures t !in Needs(u, s.rib.entries[u]) {
          if !t.Top? { DeletableIffUnused(s.rib, t); assert u !in Users(s.rib.entries, t); }
        }
      }
    }
  }

  /** No entry outside the given network instances refers to a slot inside them. */
  ghost predicate NothingPointsInto(e: Entries, nis: set<string>) {
    forall u, t :: u in e && u.ni !in nis && t in Needs(u, e[u]) ==> t.ni !in nis
  }

  /** A flush keeps the invariant. It keeps every reference resolved exactly when no
      entry outside the flushed network instances refers to a slot inside them. */
  lemma FlushKeepsInv(s: State, fwd: bool, nis: set<string>, order: seq<Slot>, s': State)
    requires Inv(s, fwd) && FlushStep(s, nis, order, s')
    ensures Inv(s', fwd)
    ensures forall t :: t in s'.rib.entries <==> t in s.rib.entries && t.ni !in nis
    ensures Exact(s.rib) ==> Exact(s'.rib)
    ensures Closed(s.rib) ==> (Closed(s'.rib) <==> NothingPointsInto(s.rib.entries, nis))
  {
    RemoveAllEffect(s.rib, order);
    ShrinkKeepsSettled(s, s'.rib);
    if Closed(s.rib) && Closed(s'.rib) {
      forall u, t | u in s.rib.entries && u.ni !in nis && t in Needs(u, s.rib.entries[u]) ensures t.ni !in nis {
        assert u in s'.rib.entries && t in Needs(u, s'.rib.entries[u]);
      }
    }
  }
}
