/** Order independence: whatever order well-formed ADD operations arrive in, and in
    whatever order the queue is retried, the RIB ends up the same. */
module Confluence {
  import opened Aft
  import opened RefCounts
  import opened Engine

  /** An ADD that nothing but a missing reference can hold back. */
  ghost predicate WellFormed(r: Rib, op: Op) {
    op.kind == Add && Waitable(r, op) && NoZero(op)
  }

  /** Distinct operations have distinct IDs and program distinct slots. */
  ghost predicate Independent(ops: set<Op>) {
    forall a, b :: a in ops && b in ops && a != b ==> a.id != b.id && SlotOf(a) != SlotOf(b)
  }

  ghost function Elems(ops: seq<Op>): set<Op> {
    set o | o in ops
  }

  ghost function Slots(ops: set<Op>): set<Slot> {
    set o | o in ops :: SlotOf(o)
  }

  /** op's references are in e or are programmed by operations of ops that, in turn,
      resolve: all next-hops, then the groups whose next-hops there are, then the
      top-level entries whose group there is. */
  ghost predicate Resolved(e: Entries, ops: set<Op>, op: Op)
    decreases Rank(SlotOf(op))
  {
    forall t :: t in Needs(SlotOf(op), ItemOf(op)) ==>
      t in e || exists p :: p in ops && SlotOf(p) == t && Rank(SlotOf(p)) < Rank(SlotOf(op)) && Resolved(e, ops, p)
  }

  ghost function Closure(e: Entries, ops: set<Op>): set<Op> {
    set o | o in ops && Resolved(e, ops, o)
  }

  /** e' is e with the entries of ops stored over it. */
  ghost predicate Overlaid(e': Entries, e: Entries, ops: set<Op>) {
    && e'.Keys == e.Keys + Slots(ops)
    && (forall o :: o in ops ==> e'[SlotOf(o)] == ItemOf(o))
    && (forall t :: t in e && t !in Slots(ops) ==> e'[t] == e[t])
  }

  lemma NeedsAreLower(s: Slot, x: Item, t: Slot)
    requires t in Needs(s, x)
    ensures Rank(t) < Rank(s)
  {
  }

  lemma {:induction false} ResolvedGrows(e: Entries, ops: set<Op>, more: set<Op>, op: Op)
    requires Resolved(e, ops, op) && ops <= more
    ensures Resolved(e, more, op)
    decreases Rank(SlotOf(op))
  {
    forall t | t in Needs(SlotOf(op), ItemOf(op)) && t !in e
      ensures exists p :: p in more && SlotOf(p) == t && Rank(SlotOf(p)) < Rank(SlotOf(op)) && Resolved(e, more, p)
    {
      var p :| p in ops && SlotOf(p) == t && Rank(SlotOf(p)) < Rank(SlotOf(op)) && Resolved(e, ops, p);
      ResolvedGrows(e, ops, more, p);
    }
  }

  // ---------------------------------------------------------------- what a run has done so far

  /** On top of r0 the operations of done are stored, all of which resolve. */
  ghost predicate Built(r0: Rib, all: set<Op>, done: set<Op>, r: Rib) {
    && done <= all
    && r.nis == r0.nis
    && Overlaid(r.entries, r0.entries, done)
    && (forall o :: o in done ==> Resolved(r0.entries, all, o))
  }

  /** The queue holds exactly the operations of ops. */
  ghost predicate Waiting(s: State, ops: set<Op>) {
    && (forall o :: o in ops ==> FromPending(s, o))
    && (forall id :: id in s.pending ==> s.pending[id].id == id && s.pending[id] in ops)
  }

  /** After the operations of all have arrived on top of r0, those of done are installed
      and the others wait. */
  ghost predicate Progress(r0: Rib, all: set<Op>, done: set<Op>, s: State) {
    && Built(r0, all, done, s.rib)
    && Waiting(s, all - done)
  }

  /** An operation that can be installed now is one that resolves. */
  lemma InstallableIsResolved(r0: Rib, all: set<Op>, done: set<Op>, r: Rib, op: Op)
    requires Built(r0, all, done, r) && Installable(r, op)
    ensures Resolved(r0.entries, all, op)
  {
    forall t | t in Needs(SlotOf(op), ItemOf(op)) && t !in r0.entries
      ensures exists p ::
        p in all && SlotOf(p) == t && Rank(SlotOf(p)) < Rank(SlotOf(op)) && Resolved(r0.entries, all, p)
    {
      NeedsAreLower(SlotOf(op), ItemOf(op), t);
      assert t in r.entries.Keys;
      var p :| p in done && SlotOf(p) == t;
    }
  }

  lemma OverlayOne(r: Rib, e: Entries, done: set<Op>, op: Op, all: set<Op>)
    requires Overlaid(r.entries, e, done)
    requires Independent(all) && done <= all && op in all
    ensures Overlaid(Apply(r, op).entries, e, done + {op})
  {
    var done' := done + {op};
    assert Slots(done') == Slots(done) + {SlotOf(op)};
    forall o | o in done' ensures Apply(r, op).entries[SlotOf(o)] == ItemOf(o) {
      if o != op { assert SlotOf(o) != SlotOf(op); }
    }
  }

  lemma BuildOne(r0: Rib, all: set<Op>, done: set<Op>, r: Rib, op: Op)
    requires Built(r0, all, done, r) && Installable(r, op)
    requires Independent(all) && op in all
    ensures Built(r0, all, done + {op}, Apply(r, op))
  {
    InstallableIsResolved(r0, all, done, r, op);
    OverlayOne(r, r0.entries, done, op, all);
  }

  lemma ElemsSnoc(ops: seq<Op>)
    requires ops != []
    ensures Elems(ops) == Elems(ops[..|ops| - 1]) + {ops[|ops| - 1]}
  {
    var n := |ops| - 1;
    assert ops == ops[..n] + [ops[n]];
  }

  lemma RunNone(r: Rib)
    ensures ApplyAll(r, []) == r && Elems([]) == {}
  {
  }

  lemma RunSnoc(r: Rib, ops: seq<Op>)
    requires ops != [] && InstallRun(r, ops)
    ensures InstallRun(r, ops[..|ops| - 1]) && Installable(ApplyAll(r, ops[..|ops| - 1]), ops[|ops| - 1])
    ensures ApplyAll(r, ops) == Apply(ApplyAll(r, ops[..|ops| - 1]), ops[|ops| - 1])
  {
  }

  lemma {:induction false} BuildRun(r0: Rib, all: set<Op>, done: set<Op>, r: Rib, ops: seq<Op>)
    requires Built(r0, all, done, r) && InstallRun(r, ops)
    requires Independent(all) && Elems(ops) <= all
    ensures Built(r0, all, done + Elems(ops), ApplyAll(r, ops))
  {
    hide *;
    if ops == [] {
      RunNone(r);
      assert done + {} == done;
    } else {
      var n := |ops| - 1;
      ElemsSnoc(ops);
      RunSnoc(r, ops);
      BuildRun(r0, all, done, r, ops[..n]);
      BuildOne(r0, all, done + Elems(ops[..n]), ApplyAll(r, ops[..n]), ops[n]);
      assert done + Elems(ops[..n]) + {ops[n]} == done + Elems(ops);
    }
  }

  lemma InstalledFrom(s: State, op: Op, oks: seq<Op>, fails: seq<Op>, s': State)
    requires Installs(s, op, oks, fails, s')
    ensures op in oks && forall o :: o in oks ==> o == op || FromPending(s, o)
  {
    forall o | o in oks ensures o == op || FromPending(s, o) {
      var i :| 0 <= i < |oks| && oks[i] == o;
    }
  }

  lemma LeftWaiting(s: State, all: set<Op>, done: set<Op>, op: Op, oks: seq<Op>, fails: seq<Op>, s': State)
    requires Waiting(s, all - done) && Installs(s, op, oks, fails, s')
    requires Independent(all + {op}) && op !in all
    ensures Elems(oks) <= all + {op}
    ensures Waiting(s', (all + {op}) - (done + Elems(oks)))
  {
    InstalledFrom(s, op, oks, fails, s');
    forall o | o in (all + {op}) - (done + Elems(oks)) ensures FromPending(s', o) {
      assert FromPending(s, o);
      assert forall p :: p in oks ==> p in all + {op} && p != o;
    }
  }

  lemma JoinsQueue(s: State, all: set<Op>, done: set<Op>, op: Op, s': State)
    requires Waiting(s, all - done) && done <= all
    requires Independent(all + {op}) && op !in all
    requires s'.pending == s.pending[op.id := op]
    ensures Waiting(s', (all + {op}) - done)
  {
    forall o | o in all - done ensures FromPending(s', o) {
      assert o in all + {op} && op in all + {op} && FromPending(s, o);
    }
  }

  /** One more arrival. */
  lemma ProgressStep(r0: Rib, all: set<Op>, done: set<Op>, s: State, op: Op, oks: seq<Op>, fails: seq<Op>, s': State)
    requires Progress(r0, all, done, s)
    requires Independent(all + {op}) && op !in all
    requires WellFormed(s.rib, op) && AddStep(s, true, op, oks, fails, s')
    ensures Progress(r0, all + {op}, done + Elems(oks), s')
  {
    forall o | o in done ensures Resolved(r0.entries, all + {op}, o) { ResolvedGrows(r0.entries, all, all + {op}, o); }
    if Installable(s.rib, op) {
      LeftWaiting(s, all, done, op, oks, fails, s');
      BuildRun(r0, all + {op}, done, s.rib, oks);
    } else {
      assert !MayReject(s.rib, op);
      assert done + Elems(oks) == done;
      JoinsQueue(s, all, done, op, s');
    }
  }

  /** In a settled state everything that resolves is installed. */
  lemma {:induction false} SettledIsComplete(r0: Rib, all: set<Op>, done: set<Op>, s: State, op: Op)
    requires Progress(r0, all, done, s) && Settled(s)
    requires forall o :: o in all ==> WellFormed(r0, o)
    requires op in all && Resolved(r0.entries, all, op)
    ensures op in done
    decreases Rank(SlotOf(op))
  {
    forall t | t in Needs(SlotOf(op), ItemOf(op)) ensures t in s.rib.entries.Keys {
      if t !in r0.entries {
        var p :| p in all && SlotOf(p) == t && Rank(SlotOf(p)) < Rank(SlotOf(op)) && Resolved(r0.entries, all, p);
        SettledIsComplete(r0, all, done, s, p);
        assert t in Slots(done);
      }
    }
    assert WellFormed(r0, op);
    assert Installable(s.rib, op);
    assert op !in done ==> FromPending(s, op);
  }

  // ---------------------------------------------------------------- runs of arrivals

  datatype Outcome = Outcome(oks: seq<Op>, fails: seq<Op>, post: State)

  /** The state that arrival i finds. */
  ghost function Found(s0: State, outs: seq<Outcome>, i: nat): State
    requires i <= |outs|
  {
    if i == 0 then s0 else outs[i - 1].post
  }

  ghost function After(s0: State, outs: seq<Outcome>): State {
    Found(s0, outs, |outs|)
  }

  ghost predicate Arrival(s: State, op: Op, out: Outcome) {
    AddStep(s, true, op, out.oks, out.fails, out.post)
  }

  /** The operations of arrivals go through AddEntry one after the other. */
  ghost predicate Arrivals(s0: State, arrivals: seq<Op>, outs: seq<Outcome>) {
    && |outs| == |arrivals|
    && forall i :: 0 <= i < |outs| ==> Arrival(Found(s0, outs, i), arrivals[i], outs[i])
  }

  lemma ArrivalsPrefix(s0: State, arrivals: seq<Op>, outs: seq<Outcome>)
    requires Arrivals(s0, arrivals, outs) && outs != []
    ensures var n := |outs| - 1;
      && |arrivals| == |outs| && Arrivals(s0, arrivals[..n], outs[..n])
      && Arrival(After(s0, outs[..n]), arrivals[n], outs[n])
  {
    hide Arrival;
    var n := |outs| - 1;
    assert Found(s0, outs, n) == After(s0, outs[..n]);
    forall i | 0 <= i < n ensures Arrival(Found(s0, outs[..n], i), arrivals[..n][i], outs[..n][i]) {
      assert Arrival(Found(s0, outs, i), arrivals[i], outs[i]);
    }
  }

  /** All operations acknowledged along the way. */
  ghost function Acked(outs: seq<Outcome>): set<Op> {
    if outs == [] then {}
    else Acked(outs[..|outs| - 1]) + Elems(outs[|outs| - 1].oks)
  }

  ghost predicate NoRepeats(ops: seq<Op>) {
    forall i, j :: 0 <= i < j < |ops| ==> ops[i] != ops[j]
  }

  /** The arrivals are distinct well-formed ADDs with distinct IDs and distinct slots. */
  ghost predicate GoodArrivals(r0: Rib, arrivals: seq<Op>) {
    && NoRepeats(arrivals)
    && Independent(Elems(arrivals))
    && forall o :: o in arrivals ==> WellFormed(r0, o)
  }

  lemma GoodPrefix(r0: Rib, arrivals: seq<Op>)
    requires GoodArrivals(r0, arrivals) && arrivals != []
    ensures var n := |arrivals| - 1;
      GoodArrivals(r0, arrivals[..n]) && arrivals[n] !in arrivals[..n]
      && Elems(arrivals) == Elems(arrivals[..n]) + {arrivals[n]}
  {
    ElemsSnoc(arrivals);
    assert arrivals == arrivals[..|arrivals| - 1] + [arrivals[|arrivals| - 1]];
  }

  lemma {:induction false} ArrivalsProgress(s0: State, arrivals: seq<Op>, outs: seq<Outcome>)
    requires GoodArrivals(s0.rib, arrivals) && s0.pending == map[]
    requires Arrivals(s0, arrivals, outs)
    ensures Progress(s0.rib, Elems(arrivals), Acked(outs), After(s0, outs))
    ensures Settled(After(s0, outs))
  {
    if outs != [] {
      var n := |outs| - 1;
      GoodPrefix(s0.rib, arrivals);
      ArrivalsPrefix(s0, arrivals, outs);
      ArrivalsProgress(s0, arrivals[..n], outs[..n]);
      var s := After(s0, outs[..n]);
      assert WellFormed(s0.rib, arrivals[n]);
      var all, done := Elems(arrivals[..n]), Acked(outs[..n]);
      ProgressStep(s0.rib, all, done, s, arrivals[n], outs[n].oks, outs[n].fails, outs[n].post);
    }
  }

  lemma WaitingUnique(s1: State, s2: State, ops: set<Op>)
    requires Waiting(s1, ops) && Waiting(s2, ops)
    ensures s1.pending == s2.pending
  {
    forall id | id in s1.pending ensures id in s2.pending && s2.pending[id] == s1.pending[id] {
      assert FromPending(s2, s1.pending[id]);
    }
    forall id | id in s2.pending ensures id in s1.pending {
      assert FromPending(s1, s2.pending[id]);
    }
  }

  /** Exactly the operations that resolve are stored over r0; the others wait. */
  ghost predicate AtClosure(r0: Rib, all: set<Op>, acked: set<Op>, s: State) {
    && acked == Closure(r0.entries, all)
    && Overlaid(s.rib.entries, r0.entries, acked)
    && Waiting(s, all - acked)
  }

  lemma SettledIsClosure(r0: Rib, all: set<Op>, done: set<Op>, s: State)
    requires Progress(r0, all, done, s) && Settled(s)
    requires Independent(all) && forall o :: o in all ==> WellFormed(r0, o)
    ensures AtClosure(r0, all, done, s)
  {
    forall o | o in all && Resolved(r0.entries, all, o) ensures o in done {
      SettledIsComplete(r0, all, done, s, o);
    }
    assert done == Closure(r0.entries, all);
  }

  /** The final state is the one that the closure describes: its operations are those
      acknowledged, they are stored over what was there, and the others wait. */
  lemma ReachesClosure(s0: State, arrivals: seq<Op>, outs: seq<Outcome>)
    requires GoodArrivals(s0.rib, arrivals) && s0.pending == map[]
    requires Arrivals(s0, arrivals, outs)
    ensures AtClosure(s0.rib, Elems(arrivals), Acked(outs), After(s0, outs))
  {
    ArrivalsProgress(s0, arrivals, outs);
    SettledIsClosure(s0.rib, Elems(arrivals), Acked(outs), After(s0, outs));
  }

  lemma ClosureUnique(r0: Rib, all: set<Op>, acked1: set<Op>, s1: State, acked2: set<Op>, s2: State)
    requires AtClosure(r0, all, acked1, s1) && AtClosure(r0, all, acked2, s2)
    ensures acked1 == acked2 && s1.rib.entries == s2.rib.entries && s1.pending == s2.pending
  {
    OverlayUnique(s1.rib.entries, s2.rib.entries, r0.entries, acked1);
    WaitingUnique(s1, s2, all - acked1);
  }

  /** Two arrival orders of the same operations, each with its own retry orders, end in
      the same entries, queue and acknowledgements. */
  lemma OrderIndependent(s0: State, arrivals: seq<Op>, outs: seq<Outcome>, arrivals': seq<Op>, outs': seq<Outcome>)
    requires GoodArrivals(s0.rib, arrivals) && s0.pending == map[]
    requires multiset(arrivals) == multiset(arrivals')
    requires Arrivals(s0, arrivals, outs) && Arrivals(s0, arrivals', outs')
    ensures After(s0, outs).rib.entries == After(s0, outs').rib.entries
    ensures After(s0, outs).pending == After(s0, outs').pending
    ensures Acked(outs) == Acked(outs')
  {
    PermutedIsGood(s0.rib, arrivals, arrivals');
    ReachesClosure(s0, arrivals, outs);
    ReachesClosure(s0, arrivals', outs');
    ClosureUnique(s0.rib, Elems(arrivals), Acked(outs), After(s0, outs), Acked(outs'), After(s0, outs'));
  }

  /** And in the same counters, if none was too low to begin with. */
  lemma CountersOrderIndependent(s0: State, arrivals: seq<Op>, outs: seq<Outcome>,
          arrivals': seq<Op>, outs': seq<Outcome>, t: Slot)
    requires GoodArrivals(s0.rib, arrivals) && s0.pending == map[] && AtLeast(s0.rib)
    requires multiset(arrivals) == multiset(arrivals')
    requires Arrivals(s0, arrivals, outs) && Arrivals(s0, arrivals', outs')
    ensures Cnt(After(s0, outs).rib.refs, t) == Cnt(After(s0, outs').rib.refs, t)
  {
    PermutedIsGood(s0.rib, arrivals, arrivals');
    OrderIndependent(s0, arrivals, outs, arrivals', outs');
    ArrivalsCounted(s0, arrivals, outs, t);
    ArrivalsCounted(s0, arrivals', outs', t);
  }

  // ---------------------------------------------------------------- what the installs add to a counter

  /** What op, stored over what r0 has in its slot, does to the counter of t. */
  ghost function Delta(r0: Rib, op: Op, t: Slot): int {
    Gained(r0, op, t) - Lost(r0, op, t)
  }

  ghost function Sum(r0: Rib, ops: set<Op>, t: Slot): int {
    if ops == {} then 0
    else
      var o :| o in ops;
      Delta(r0, o, t) + Sum(r0, ops - {o}, t)
  }

  lemma {:induction false} SumWithout(r0: Rib, ops: set<Op>, t: Slot, op: Op)
    requires op in ops
    ensures Sum(r0, ops, t) == Delta(r0, op, t) + Sum(r0, ops - {op}, t)
    decreases ops
  {
    hide Delta;
    var o :| o in ops && Sum(r0, ops, t) == Delta(r0, o, t) + Sum(r0, ops - {o}, t);
    if o != op {
      SumWithout(r0, ops - {o}, t, op);
      SumWithout(r0, ops - {op}, t, o);
      assert ops - {o} - {op} == ops - {op} - {o};
    }
  }

  ghost predicate Counted(r0: Rib, done: set<Op>, r: Rib, t: Slot) {
    AtLeast(r) && Cnt(r.refs, t) == Cnt(r0.refs, t) + Sum(r0, done, t)
  }

  lemma CountOne(r0: Rib, all: set<Op>, done: set<Op>, r: Rib, op: Op, t: Slot)
    requires Built(r0, all, done, r) && Counted(r0, done, r, t)
    requires Independent(all) && op in all && op !in done
    ensures Counted(r0, done + {op}, Apply(r, op), t)
  {
    assert SlotOf(op) !in Slots(done);
    assert At(r.entries, SlotOf(op)) == At(r0.entries, SlotOf(op));
    CntAfter(r, op, t);
    ApplyKeepsAtLeast(r, op);
    SumWithout(r0, done + {op}, t, op);
    assert done + {op} - {op} == done;
  }

  lemma {:induction false} CountRun(r0: Rib, all: set<Op>, done: set<Op>, r: Rib, ops: seq<Op>, t: Slot)
    requires Built(r0, all, done, r) && InstallRun(r, ops) && Counted(r0, done, r, t)
    requires Independent(all) && Elems(ops) <= all && DistinctIds(ops) && Elems(ops) !! done
    ensures Counted(r0, done + Elems(ops), ApplyAll(r, ops), t)
  {
    hide *;
    if ops == [] {
      RunNone(r);
      assert done + {} == done;
    } else {
      var n := |ops| - 1;
      ElemsSnoc(ops);
      RunSnoc(r, ops);
      LastIsOther(ops);
      BuildRun(r0, all, done, r, ops[..n]);
      CountRun(r0, all, done, r, ops[..n], t);
      CountOne(r0, all, done + Elems(ops[..n]), ApplyAll(r, ops[..n]), ops[n], t);
      assert done + Elems(ops[..n]) + {ops[n]} == done + Elems(ops);
    }
  }

  lemma LastIsOther(ops: seq<Op>)
    requires ops != [] && DistinctIds(ops)
    ensures ops[|ops| - 1] !in Elems(ops[..|ops| - 1]) && DistinctIds(ops[..|ops| - 1])
  {
    var n := |ops| - 1;
    forall o | o in ops[..n] ensures o != ops[n] {
      var i :| 0 <= i < n && ops[i] == o;
    }
  }

  lemma {:induction false} ArrivalsCounted(s0: State, arrivals: seq<Op>, outs: seq<Outcome>, t: Slot)
    requires GoodArrivals(s0.rib, arrivals) && s0.pending == map[] && AtLeast(s0.rib)
    requires Arrivals(s0, arrivals, outs)
    ensures Counted(s0.rib, Acked(outs), After(s0, outs).rib, t)
  {
    if outs != [] {
      hide Counted, WellFormed, Installable;
      var n := |outs| - 1;
      GoodPrefix(s0.rib, arrivals);
      ArrivalsPrefix(s0, arrivals, outs);
      ArrivalsProgress(s0, arrivals[..n], outs[..n]);
      ArrivalsCounted(s0, arrivals[..n], outs[..n], t);
      CountArrival(s0.rib, Elems(arrivals[..n]), Acked(outs[..n]), After(s0, outs[..n]), arrivals[n], outs[n], t);
    }
  }

  lemma CountArrival(r0: Rib, all: set<Op>, done: set<Op>, s: State, op: Op, out: Outcome, t: Slot)
    requires Progress(r0, all, done, s) && Counted(r0, done, s.rib, t) && Arrival(s, op, out)
    requires Independent(all + {op}) && op !in all
    ensures Counted(r0, done + Elems(out.oks), out.post.rib, t)
  {
    if Installable(s.rib, op) {
      LeftWaiting(s, all, done, op, out.oks, out.fails, out.post);
      InstalledFrom(s, op, out.oks, out.fails, out.post);
      forall o | o in done ensures Resolved(r0.entries, all + {op}, o) {
        ResolvedGrows(r0.entries, all, all + {op}, o);
      }
      forall o | o in out.oks ensures o !in done { assert o == op || o in all - done; }
      CountRun(r0, all + {op}, done, s.rib, out.oks, t);
    } else {
      assert done + Elems(out.oks) == done;
    }
  }

  lemma OverlayUnique(e1: Entries, e2: Entries, e: Entries, ops: set<Op>)
    requires Overlaid(e1, e, ops) && Overlaid(e2, e, ops)
    ensures e1 == e2
  {
    forall t | t in e1 ensures e1[t] == e2[t] {
      if t in Slots(ops) { var o :| o in ops && SlotOf(o) == t; }
    }
  }

  lemma PermutedIsGood(r0: Rib, a: seq<Op>, b: seq<Op>)
    requires GoodArrivals(r0, a) && multiset(a) == multiset(b)
    ensures GoodArrivals(r0, b) && Elems(a) == Elems(b)
  {
    forall o ensures o in a <==> o in b {
      assert o in multiset(a) <==> o in multiset(b);
    }
    assert Elems(a) == Elems(b);
    forall i, j | 0 <= i < j < |b| ensures b[i] != b[j] {
      if b[i] == b[j] {
        RepeatCounted(b, i, j);
        OnceCounted(a, b[i]);
      }
    }
  }

  lemma RepeatCounted(q: seq<Op>, i: nat, j: nat)
    requires i < j < |q| && q[i] == q[j]
    ensures multiset(q)[q[i]] >= 2
  {
    assert q == q[..j] + q[j..];
    assert q[..j][i] in multiset(q[..j]) && q[j..][0] in multiset(q[j..]);
  }

  lemma {:induction false} OnceCounted(q: seq<Op>, x: Op)
    requires NoRepeats(q)
    ensures multiset(q)[x] <= 1
  {
    if q != [] {
      var n := |q| - 1;
      assert q == q[..n] + [q[n]];
      OnceCounted(q[..n], x);
      assert x == q[n] ==> x !in q[..n];
    }
  }
}
