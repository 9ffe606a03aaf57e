/** Whole runs of the RIB: what holds after any sequence of calls. */
module Runs {
  import opened Aft
  import opened RefCounts
  import opened Engine
  import opened Concrete

  /** One call on the RIB, with what it returned. */
  datatype Call =
    | AddNetworkInstance(name: string)
    | AddEntry(op: Op, oks: seq<Op>, fails: seq<Op>)
    | DeleteEntry(op: Op, ok: bool)
    | Flush(nis: set<string>, order: seq<Slot>)

  function New(name: string): State {
    State(Rib({name}, map[], map[]), map[])
  }

  ghost predicate Next(s: State, fwd: bool, c: Call, s': State) {
    match c
    case AddNetworkInstance(name) => s' == State(s.rib.(nis := s.rib.nis + {name}), s.pending)
    case AddEntry(op, oks, fails) => ValidNI(s.rib, op.ni) && AddStep(s, fwd, op, oks, fails, s')
    case DeleteEntry(op, ok) => ValidNI(s.rib, op.ni) && DeleteStep(s, op, ok, s')
    case Flush(nis, order) => nis <= s.rib.nis && FlushStep(s, nis, order, s')
  }

  /** The states that the calls take a new RIB through, one more than there are calls. */
  ghost predicate IsRun(name: string, fwd: bool, calls: seq<Call>, states: seq<State>) {
    && |states| == |calls| + 1 && states[0] == New(name)
    && forall i :: 0 <= i < |calls| ==> Next(states[i], fwd, calls[i], states[i + 1])
  }

  lemma AddNIKeepsInv(s: State, fwd: bool, name: string, s': State)
    requires Inv(s, fwd) && Next(s, fwd, AddNetworkInstance(name), s')
    ensures Inv(s', fwd)
    ensures Closed(s.rib) ==> Closed(s'.rib)
    ensures Exact(s.rib) ==> Exact(s'.rib)
  {
    forall id | id in s'.pending ensures !Installable(s'.rib, s'.pending[id]) {
      assert !Installable(s.rib, s.pending[id]) && Waitable(s.rib, s.pending[id]);
    }
  }

  /** In every reachable state no counter is too low, every entry is legitimate, and no
      queued operation is stranded: none could be installed. */
  lemma {:induction false} RunInvariant(name: string, fwd: bool, calls: seq<Call>, states: seq<State>, k: nat)
    requires IsRun(name, fwd, calls, states) && k <= |calls|
    ensures Inv(states[k], fwd)
  {
    if k > 0 {
      RunInvariant(name, fwd, calls, states, k - 1);
      var s, s' := states[k - 1], states[k];
      assert Next(s, fwd, calls[k - 1], s');
      match calls[k - 1] {
        case AddNetworkInstance(n) => AddNIKeepsInv(s, fwd, n, s');
        case AddEntry(op, oks, fails) => AddKeepsInv(s, fwd, op, oks, fails, s');
        case DeleteEntry(op, ok) => DeleteKeepsInv(s, fwd, op, ok, s');
        case Flush(nis, order) => FlushKeepsInv(s, fwd, nis, order, s');
      }
    } else {
      assert forall t :: Users(map[], t) == {};
    }
  }

  /** The contents of every reachable RIB are such that they can be read, compared and
      rebuilt. */
  lemma RunWellKept(name: string, fwd: bool, calls: seq<Call>, states: seq<State>, k: nat)
    requires IsRun(name, fwd, calls, states) && k <= |calls|
    ensures WellKept(states[k].rib)
  {
    RunInvariant(name, fwd, calls, states, k);
    LegitIsWellKept(states[k].rib);
  }

  /** A flush that leaves no entry behind whose group or next-hop it takes away. */
  ghost predicate CleanFlush(s: State, c: Call) {
    c.Flush? ==> NothingPointsInto(s.rib.entries, c.nis)
  }

  /** References resolve in every reachable state until the first flush that is not
      clean: adds, replaces and deletes never break one. */
  lemma {:induction false} RunClosed(name: string, fwd: bool, calls: seq<Call>, states: seq<State>, k: nat)
    requires IsRun(name, fwd, calls, states) && k <= |calls|
    requires forall i :: 0 <= i < k ==> CleanFlush(states[i], calls[i])
    ensures Closed(states[k].rib)
  {
    if k > 0 {
      RunClosed(name, fwd, calls, states, k - 1);
      RunInvariant(name, fwd, calls, states, k - 1);
      var s, s' := states[k - 1], states[k];
      assert Next(s, fwd, calls[k - 1], s') && CleanFlush(s, calls[k - 1]);
      match calls[k - 1] {
        case AddNetworkInstance(n) =>
        case AddEntry(op, oks, fails) => AddKeepsInv(s, fwd, op, oks, fails, s');
        case DeleteEntry(op, ok) => DeleteKeepsInv(s, fwd, op, ok, s');
        case Flush(nis, order) => FlushKeepsInv(s, fwd, nis, order, s');
      }
    }
  }

  ghost predicate ListsDistinct(c: Call) {
    c.AddEntry? ==> DistinctMembers(c.op)
  }

  ghost predicate PendingDistinct(s: State) {
    forall id :: id in s.pending ==> DistinctMembers(s.pending[id])
  }

  /** The counters are exact in every reachable state, flushes included, as long as no
      group was programmed with a member listed twice. */
  lemma {:induction false} RunExact(name: string, fwd: bool, calls: seq<Call>, states: seq<State>, k: nat)
    requires IsRun(name, fwd, calls, states) && k <= |calls|
    requires forall i :: 0 <= i < k ==> ListsDistinct(calls[i])
    ensures Exact(states[k].rib) && PendingDistinct(states[k])
  {
    if k > 0 {
      RunExact(name, fwd, calls, states, k - 1);
      RunInvariant(name, fwd, calls, states, k - 1);
      var s, s' := states[k - 1], states[k];
      assert Next(s, fwd, calls[k - 1], s') && ListsDistinct(calls[k - 1]);
      match calls[k - 1] {
        case AddNetworkInstance(n) => AddNIKeepsInv(s, fwd, n, s');
        case AddEntry(op, oks, fails) => AddKeepsExact(s, fwd, op, oks, fails, s');
        case DeleteEntry(op, ok) => RemoveKeepsCounters(s.rib, SlotOf(op));
        case Flush(nis, order) => FlushKeepsInv(s, fwd, nis, order, s');
      }
    } else {
      assert forall t :: Users(map[], t) == {};
    }
  }

  lemma AddKeepsExact(s: State, fwd: bool, op: Op, oks: seq<Op>, fails: seq<Op>, s': State)
    requires AddStep(s, fwd, op, oks, fails, s')
    requires Exact(s.rib) && PendingDistinct(s) && DistinctMembers(op)
    ensures Exact(s'.rib) && PendingDistinct(s')
  {
    if Installable(s.rib, op) {
      forall o | o in oks ensures DistinctMembers(o) {
        var i :| 0 <= i < |oks| && oks[i] == o;
        assert i > 0 ==> FromPending(s, o);
      }
      RunKeeps(s.rib, oks);
    }
  }

  /** Group 7 with next-hop 1 listed twice. */
  const TWICE := Op(2, Add, "DEFAULT", GroupEntry(7, [(1, 1), (1, 2)], None), None)

  lemma TwiceMentioned()
    ensures Needs(SlotOf(TWICE), ItemOf(TWICE)) == {Hop("DEFAULT", 1)} && NoZero(TWICE)
    ensures Added(TWICE, Hop("DEFAULT", 1)) == 2 && Added(TWICE, Group("DEFAULT", 7)) == 0
  {
    var ms := TWICE.entry.members;
    assert ms[..1] == [(1, 1)] && [(1, 1)][..0] == [];
    assert Mentions(ms[..1], 1) == 1 && WeightMap(ms[..1]) == map[1 := 1];
    assert WeightMap(ms) == map[1 := 2];
  }

  /** Without distinct members the counters drift: a group that lists next-hop 1 twice
      leaves that next-hop counted twice, and undeletable once the group is gone. */
  lemma CounterDrift()
    ensures var r := ApplyAll(New("DEFAULT").rib, [HOP_1, TWICE]);
      && InstallRun(New("DEFAULT").rib, [HOP_1, TWICE])
      && Deletable(r, Group("DEFAULT", 7))
      && Users(Remove(r, Group("DEFAULT", 7)).entries, Hop("DEFAULT", 1)) == {}
      && !Deletable(Remove(r, Group("DEFAULT", 7)), Hop("DEFAULT", 1))
  {
    var r0 := New("DEFAULT").rib;
    var r1 := Apply(r0, HOP_1);
    TwiceMentioned();
    RunOne(r0, HOP_1);
    RunOne(r1, TWICE);
    RunConcat(r0, [HOP_1], [TWICE]);
    assert [HOP_1] + [TWICE] == [HOP_1, TWICE];
    DriftAfter(r1);
  }

  lemma DriftAfter(r: Rib)
    requires r.refs == map[] && r.entries.Keys == {Hop("DEFAULT", 1)}
    ensures var r' := Remove(Apply(r, TWICE), Group("DEFAULT", 7));
      && Deletable(Apply(r, TWICE), Group("DEFAULT", 7))
      && Users(r'.entries, Hop("DEFAULT", 1)) == {} && !Deletable(r', Hop("DEFAULT", 1))
  {
    TwiceMentioned();
    CntAdded(r.refs, TWICE, Hop("DEFAULT", 1));
    CntAdded(r.refs, TWICE, Group("DEFAULT", 7));
    assert Cnt(Remove(Apply(r, TWICE), Group("DEFAULT", 7)).refs, Hop("DEFAULT", 1)) == 1;
  }

  const HOP_1 := Op(1, Add, "DEFAULT", HopEntry(1, "192.0.2.1", ""), None)
  const GROUP_7 := Op(2, Add, "DEFAULT", GroupEntry(7, [(1, 1)], None), None)
  const REPLACE_7 := Op(3, Replace, "DEFAULT", GroupEntry(7, [(2, 1)], None), None)
  const DELETE_7 := Op(4, Delete, "DEFAULT", GroupEntry(7, [], None), None)
  const HOP_3 := Op(5, Add, "DEFAULT", HopEntry(3, "192.0.2.3", ""), None)
  const HOP_4 := Op(6, Add, "DEFAULT", HopEntry(4, "192.0.2.4", ""), None)
  const ROUTE := Op(7, Add, "VRF", TopEntry(V4("203.0.113.0/24"), "DEFAULT", 7, ""), None)

  /** Next-hop 1, and group 7 that it is the only member of. */
  lemma GroupAdded() returns (s0: State, s1: State, s2: State)
    ensures s0 == New("DEFAULT") && Next(s0, true, AddEntry(HOP_1, [HOP_1], []), s1)
    ensures Next(s1, true, AddEntry(GROUP_7, [GROUP_7], []), s2)
    ensures s2.pending == map[] && s2.rib.nis == {"DEFAULT"}
    ensures s2.rib.entries.Keys == {Hop("DEFAULT", 1), Group("DEFAULT", 7)}
    ensures Cnt(s2.rib.refs, Group("DEFAULT", 7)) == 0 && Closed(s2.rib)
  {
    s0 := New("DEFAULT");
    s1 := State(Apply(s0.rib, HOP_1), map[]);
    s2 := State(Apply(s1.rib, GROUP_7), map[]);
    OneMember(1);
    AddAlone(s0, HOP_1);
    AddAlone(s1, GROUP_7);
    CntAdded(s1.rib.refs, GROUP_7, Group("DEFAULT", 7));
  }

  /** A replace of group 7 waits for its next-hop, and loses its group meanwhile. */
  lemma GroupLost(s2: State) returns (s3: State, s4: State)
    requires s2.pending == map[] && s2.rib.nis == {"DEFAULT"} && Cnt(s2.rib.refs, Group("DEFAULT", 7)) == 0
    requires Group("DEFAULT", 7) in s2.rib.entries && Hop("DEFAULT", 2) !in s2.rib.entries
    ensures Next(s2, true, AddEntry(REPLACE_7, [], []), s3) && Next(s3, true, DeleteEntry(DELETE_7, true), s4)
    ensures s4.pending == map[3 := REPLACE_7] && s4.rib.nis == {"DEFAULT"} && BadReplace(s4.rib, REPLACE_7)
  {
    s3 := State(s2.rib, map[3 := REPLACE_7]);
    s4 := State(Remove(s2.rib, Group("DEFAULT", 7)), map[3 := REPLACE_7]);
    OneMember(2);
    QueueAlone(s2, REPLACE_7, Hop("DEFAULT", 2));
    assert DeleteStep(s3, DELETE_7, true, s4);
  }

  /** A next-hop is added beside it. */
  lemma HopBesideStranded(s: State, hop: Op) returns (s': State)
    requires s.pending == map[3 := REPLACE_7] && s.rib.nis == {"DEFAULT"} && BadReplace(s.rib, REPLACE_7)
    requires hop == HOP_3 || hop == HOP_4
    ensures Next(s, true, AddEntry(hop, [hop], [REPLACE_7]), s')
    ensures s'.pending == map[3 := REPLACE_7] && s'.rib.nis == {"DEFAULT"} && BadReplace(s'.rib, REPLACE_7)
  {
    s' := State(Apply(s.rib, hop), s.pending);
    AddBesideStranded(s, hop, REPLACE_7);
  }

  lemma StartsRun(name: string, fwd: bool, calls: seq<Call>, states: seq<State>)
    requires |states| == |calls| + 1 && states[0] == New(name)
    requires forall i :: 0 <= i < |calls| ==> Next(states[i], fwd, calls[i], states[i + 1])
    ensures IsRun(name, fwd, calls, states)
  {
    hide Next, New;
  }

  /** A queued replace is answered more than once: a group is replaced by one whose
      next-hop is missing, and deleted while the replace waits; from then on each install
      of anything else reports the replace as failed and leaves it queued. */
  lemma StrandedReplace() returns (calls: seq<Call>, states: seq<State>)
    ensures IsRun("DEFAULT", true, calls, states) && |calls| == 6
    ensures calls[4] == AddEntry(HOP_3, [HOP_3], [REPLACE_7]) && calls[5] == AddEntry(HOP_4, [HOP_4], [REPLACE_7])
    ensures states[4].pending == states[5].pending == states[6].pending == map[3 := REPLACE_7]
  {
    hide *;
    var s0, s1, s2 := GroupAdded();
    var s3, s4 := GroupLost(s2);
    var s5 := HopBesideStranded(s4, HOP_3);
    var s6 := HopBesideStranded(s5, HOP_4);
    calls := [AddEntry(HOP_1, [HOP_1], []), AddEntry(GROUP_7, [GROUP_7], []), AddEntry(REPLACE_7, [], []),
              DeleteEntry(DELETE_7, true), AddEntry(HOP_3, [HOP_3], [REPLACE_7]),
              AddEntry(HOP_4, [HOP_4], [REPLACE_7])];
    states := [s0, s1, s2, s3, s4, s5, s6];
    StartsRun("DEFAULT", true, calls, states);
  }

  /** A route in another network instance that uses group 7. */
  lemma RouteAdded(s2: State) returns (s3: State, s4: State)
    requires s2.pending == map[] && s2.rib.nis == {"DEFAULT"} && Closed(s2.rib) && Group("DEFAULT", 7) in s2.rib.entries
    ensures Next(s2, true, AddNetworkInstance("VRF"), s3) && Next(s3, true, AddEntry(ROUTE, [ROUTE], []), s4)
    ensures s4.pending == map[] && s4.rib.nis == {"DEFAULT", "VRF"} && Closed(s4.rib)
    ensures s4.rib.entries.Keys == s2.rib.entries.Keys + {SlotOf(ROUTE)}
    ensures s4.rib.entries[SlotOf(ROUTE)] == ItemOf(ROUTE)
  {
    s3 := State(s2.rib.(nis := s2.rib.nis + {"VRF"}), map[]);
    s4 := State(Apply(s3.rib, ROUTE), map[]);
    AddAlone(s3, ROUTE);
    ApplyClosed(s3.rib, ROUTE);
  }

  /** Flushing one network instance can leave another's route pointing at nothing. */
  lemma DanglingFlush() returns (calls: seq<Call>, states: seq<State>)
    ensures IsRun("DEFAULT", true, calls, states) && |calls| == 5 && calls[4].Flush?
    ensures Closed(states[4].rib) && !Closed(states[5].rib)
  {
    hide *;
    var s0, s1, s2 := GroupAdded();
    var s3, s4 := RouteAdded(s2);
    var order, s5 := DefaultFlushed(s4);
    calls := [AddEntry(HOP_1, [HOP_1], []), AddEntry(GROUP_7, [GROUP_7], []), AddNetworkInstance("VRF"),
              AddEntry(ROUTE, [ROUTE], []), Flush({"DEFAULT"}, order)];
    states := [s0, s1, s2, s3, s4, s5];
    StartsRun("DEFAULT", true, calls, states);
  }

  lemma DefaultFlushed(s: State) returns (order: seq<Slot>, s': State)
    requires s.pending == map[] && s.rib.nis == {"DEFAULT", "VRF"}
    requires s.rib.entries.Keys == {Hop("DEFAULT", 1), Group("DEFAULT", 7), SlotOf(ROUTE)}
    requires s.rib.entries[SlotOf(ROUTE)] == ItemOf(ROUTE)
    ensures Next(s, true, Flush({"DEFAULT"}, order), s') && !Closed(s'.rib)
  {
    order := [Group("DEFAULT", 7), Hop("DEFAULT", 1)];
    s' := State(RemoveAll(s.rib, order), map[]);
    RemoveAllEffect(s.rib, order);
    var t := SlotOf(ROUTE);
    assert t in s'.rib.entries && Group("DEFAULT", 7) in Needs(t, s'.rib.entries[t]);
  }

  lemma QueueAlone(s: State, op: Op, t: Slot)
    requires s.pending == map[] && t in Needs(SlotOf(op), ItemOf(op)) && t !in s.rib.entries && !ZeroSlot(t)
    requires !BadReplace(s.rib, op) && Sane(op) && KnownTarget(s.rib.nis, op)
    ensures AddStep(s, true, op, [], [], State(s.rib, map[op.id := op]))
  {
  }

  lemma OneMember(i: nat)
    ensures WeightMap([(i, 1)]) == map[i := 1]
  {
    assert [(i, 1)][..0] == [];
  }

  lemma AddAlone(s: State, op: Op)
    requires Installable(s.rib, op) && s.pending == map[]
    ensures AddStep(s, true, op, [op], [], State(Apply(s.rib, op), map[]))
  {
    RunOne(s.rib, op);
  }

  /** An install beside a queued replace that has lost its target. */
  lemma AddBesideStranded(s: State, op: Op, f: Op)
    requires Installable(s.rib, op) && s.pending == map[f.id := f] && op.id != f.id
    requires BadReplace(Apply(s.rib, op), f)
    ensures AddStep(s, true, op, [op], [f], State(Apply(s.rib, op), s.pending))
  {
    RunOne(s.rib, op);
    assert [op][..1] == [op];
    assert Failing(s, [op], f);
  }
}
