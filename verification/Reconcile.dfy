/** The operations that turn one RIB into another. */
module Reconcile {
  import opened Aft
  import opened Concrete
  import opened Engine
  import opened Payloads

  datatype Ops = Ops(nh: seq<Op>, nhg: seq<Op>, top: seq<Op>)

  datatype ReconcileOps = ReconcileOps(add: Ops, replace: Ops, delete: Ops)

  const NO_OPS := ReconcileOps(Ops([], [], []), Ops([], [], []), Ops([], [], []))

  /** Whether replaces in table a are to be explicit. That ALL is mentioned is enough. */
  predicate Explicit(explicitReplace: map<AftType, bool>, a: AftType) {
    ALL in explicitReplace || (a in explicitReplace && explicitReplace[a])
  }

  predicate Differs(src: Rib, dst: Rib, t: Slot) {
    t.ni in src.nis && At(src.entries, t) != At(dst.entries, t)
  }

  function KindFor(src: Rib, dst: Rib, explicitReplace: map<AftType, bool>, t: Slot): OpKind {
    if t !in src.entries then Delete
    else if t in dst.entries && Explicit(explicitReplace, AftOf(t)) then Replace
    else Add
  }

  /** op makes its slot what it is in src, where it differs from what it is in dst. */
  ghost predicate Emitted(src: Rib, dst: Rib, explicitReplace: map<AftType, bool>, op: Op) {
    var t := SlotOf(op);
    && Differs(src, dst, t)
    && op.kind == KindFor(src, dst, explicitReplace, t)
    && At(if op.kind.Delete? then dst.entries else src.entries, t) == Some(ItemOf(op))
    && DistinctMembers(op)
  }

  ghost predicate DistinctSlots(ops: seq<Op>) {
    forall i, j :: 0 <= i < j < |ops| ==> SlotOf(ops[i]) != SlotOf(ops[j])
  }

  ghost function SlotsOf(ops: seq<Op>): set<Slot> {
    set o | o in ops :: SlotOf(o)
  }

  /** One operation for every slot that differs, and none for others. */
  ghost predicate Covers(src: Rib, dst: Rib, explicitReplace: map<AftType, bool>, ops: seq<Op>) {
    && DistinctSlots(ops)
    && (forall o :: o in ops ==> Emitted(src, dst, explicitReplace, o))
    && (forall t :: Differs(src, dst, t) ==> t in SlotsOf(ops))
  }

  /** log lists the operations emitted for the slots of done, with consecutive IDs after base. */
  ghost predicate Diffing(src: Rib, dst: Rib, explicitReplace: map<AftType, bool>, base: nat, id: nat, log: seq<Op>,
          done: set<Slot>) {
    && id == base + |log|
    && (forall i :: 0 <= i < |log| ==> log[i].id == base + 1 + i)
    && (forall o :: o in log ==> Emitted(src, dst, explicitReplace, o) && SlotOf(o) in done)
    && DistinctSlots(log)
    && (forall t :: t in done && Differs(src, dst, t) ==> t in SlotsOf(log))
  }

  lemma SlotsSnoc(ops: seq<Op>, op: Op)
    ensures SlotsOf(ops + [op]) == SlotsOf(ops) + {SlotOf(op)}
    ensures DistinctSlots(ops) && SlotOf(op) !in SlotsOf(ops) ==> DistinctSlots(ops + [op])
  {
    assert forall o :: o in ops + [op] <==> o in ops || o == op;
    if DistinctSlots(ops) && SlotOf(op) !in SlotsOf(ops) {
      forall i | 0 <= i < |ops| ensures SlotOf(ops[i]) != SlotOf(op) { assert ops[i] in ops; }
    }
  }

  lemma DiffingSame(src: Rib, dst: Rib, explicitReplace: map<AftType, bool>, base: nat, id: nat, log: seq<Op>,
          done: set<Slot>, t: Slot)
    requires Diffing(src, dst, explicitReplace, base, id, log, done) && !Differs(src, dst, t)
    ensures Diffing(src, dst, explicitReplace, base, id, log, done + {t})
  {
  }

  lemma DiffingEmits(src: Rib, dst: Rib, explicitReplace: map<AftType, bool>, base: nat, id: nat, log: seq<Op>,
          done: set<Slot>, op: Op)
    requires Diffing(src, dst, explicitReplace, base, id, log, done)
    requires Emitted(src, dst, explicitReplace, op) && op.id == id + 1 && SlotOf(op) !in done
    ensures Diffing(src, dst, explicitReplace, base, id + 1, log + [op], done + {SlotOf(op)})
  {
    forall t | t in SlotsOf(log) ensures t in done { var o :| o in log && SlotOf(o) == t; }
    SlotsSnoc(log, op);
  }

  // ---------------------------------------------------------------- sorting by category

  datatype Class = Added | Replaced | Deleted

  datatype Category = Category(class_: Class, rank: nat)

  function CategoryOf(src: Rib, dst: Rib, t: Slot): Category {
    Category(if t !in dst.entries then Added else if t in src.entries then Replaced else Deleted, Rank(t))
  }

  /** The operations of one category, in order. */
  function Pick(src: Rib, dst: Rib, log: seq<Op>, c: Category): seq<Op> {
    if log == [] then []
    else
      var n := |log| - 1;
      Pick(src, dst, log[..n], c) + if CategoryOf(src, dst, SlotOf(log[n])) == c then [log[n]] else []
  }

  function PickClass(src: Rib, dst: Rib, log: seq<Op>, k: Class): Ops {
    Ops(Pick(src, dst, log, Category(k, 0)), Pick(src, dst, log, Category(k, 1)), Pick(src, dst, log, Category(k, 2)))
  }

  function Sorted(src: Rib, dst: Rib, log: seq<Op>): ReconcileOps {
    ReconcileOps(PickClass(src, dst, log, Added), PickClass(src, dst, log, Replaced), PickClass(src, dst, log, Deleted))
  }

  function AppendOp(ops: Ops, op: Op): Ops {
    match op.entry
    case TopEntry(_, _, _, _) => ops.(top := ops.top + [op])
    case GroupEntry(_, _, _) => ops.(nhg := ops.nhg + [op])
    case HopEntry(_, _, _) => ops.(nh := ops.nh + [op])
  }

  lemma PickSnoc(src: Rib, dst: Rib, log: seq<Op>, op: Op, k: Class)
    ensures PickClass(src, dst, log + [op], k) ==
            if CategoryOf(src, dst, SlotOf(op)).class_ == k
            then AppendOp(PickClass(src, dst, log, k), op)
            else PickClass(src, dst, log, k)
  {
    assert (log + [op])[..|log|] == log;
    forall r
      ensures Pick(src, dst, log + [op], Category(k, r)) ==
              Pick(src, dst, log, Category(k, r))
              + if CategoryOf(src, dst, SlotOf(op)) == Category(k, r) then [op] else []
    {
    }
  }

  /** The operations in the order that a client sends them: next-hops, then groups, then
      top-level entries, each added before they are replaced; then deletes the other way
      around. */
  function InOrder(ops: ReconcileOps): seq<Op> {
    ops.add.nh + ops.replace.nh + ops.add.nhg + ops.replace.nhg + ops.add.top + ops.replace.top
    + ops.delete.top + ops.delete.nhg + ops.delete.nh
  }

  const ORDER: seq<Category> := [
    Category(Added, 0), Category(Replaced, 0), Category(Added, 1), Category(Replaced, 1),
    Category(Added, 2), Category(Replaced, 2),
    Category(Deleted, 2), Category(Deleted, 1), Category(Deleted, 0)]

  function Phase(c: Category): int {
    if c.class_.Deleted? then 5 - c.rank else c.rank
  }

  function PhaseOf(src: Rib, dst: Rib, t: Slot): int {
    Phase(CategoryOf(src, dst, t))
  }

  function Arranged(src: Rib, dst: Rib, log: seq<Op>, cs: seq<Category>): seq<Op> {
    if cs == [] then []
    else Arranged(src, dst, log, cs[..|cs| - 1]) + Pick(src, dst, log, cs[|cs| - 1])
  }

  ghost predicate InPhases(src: Rib, dst: Rib, ops: seq<Op>) {
    forall i, j :: 0 <= i < j < |ops| ==>
      PhaseOf(src, dst, SlotOf(ops[i])) <= PhaseOf(src, dst, SlotOf(ops[j]))
  }

  lemma {:induction false} PickElements(src: Rib, dst: Rib, log: seq<Op>, c: Category)
    requires DistinctSlots(log)
    ensures DistinctSlots(Pick(src, dst, log, c))
    ensures forall o :: o in Pick(src, dst, log, c) <==> o in log && CategoryOf(src, dst, SlotOf(o)) == c
  {
    if log != [] {
      var n := |log| - 1;
      var init := log[..n];
      PickElements(src, dst, init, c);
      assert log == init + [log[n]];
      forall t | t in SlotsOf(Pick(src, dst, init, c)) ensures t != SlotOf(log[n]) {
        var o :| o in init && SlotOf(o) == t;
      }
      SlotsSnoc(Pick(src, dst, init, c), log[n]);
      assert Pick(src, dst, init, c) + [] == Pick(src, dst, init, c);
    }
  }

  /** Arranging by category keeps the operations, each once, and puts them in the order
      of the categories. */
  lemma {:induction false} ArrangedElements(src: Rib, dst: Rib, log: seq<Op>, cs: seq<Category>)
    requires DistinctSlots(log)
    requires forall i, j :: 0 <= i < j < |cs| ==> cs[i] != cs[j] && Phase(cs[i]) <= Phase(cs[j])
    ensures DistinctSlots(Arranged(src, dst, log, cs)) && InPhases(src, dst, Arranged(src, dst, log, cs))
    ensures forall o :: o in Arranged(src, dst, log, cs) <==> o in log && CategoryOf(src, dst, SlotOf(o)) in cs
  {
    if cs != [] {
      var n := |cs| - 1;
      var before, last := Arranged(src, dst, log, cs[..n]), Pick(src, dst, log, cs[n]);
      ArrangedElements(src, dst, log, cs[..n]);
      PickElements(src, dst, log, cs[n]);
      assert cs == cs[..n] + [cs[n]];
      forall i, j | 0 <= i < |before| && 0 <= j < |last|
        ensures SlotOf(before[i]) != SlotOf(last[j])
        ensures PhaseOf(src, dst, SlotOf(before[i])) <= PhaseOf(src, dst, SlotOf(last[j]))
      {
        assert before[i] in before && last[j] in last;
      }
      PhasesConcat(src, dst, before, last, cs[n]);
    }
  }

  lemma PhasesConcat(src: Rib, dst: Rib, a: seq<Op>, b: seq<Op>, c: Category)
    requires InPhases(src, dst, a) && DistinctSlots(a) && DistinctSlots(b)
    requires forall o :: o in b ==> CategoryOf(src, dst, SlotOf(o)) == c
    requires forall i, j :: 0 <= i < |a| && 0 <= j < |b| ==>
      SlotOf(a[i]) != SlotOf(b[j]) && PhaseOf(src, dst, SlotOf(a[i])) <= PhaseOf(src, dst, SlotOf(b[j]))
    ensures InPhases(src, dst, a + b) && DistinctSlots(a + b)
  {
    forall i, j | 0 <= i < j < |a + b|
      ensures SlotOf((a + b)[i]) != SlotOf((a + b)[j])
      ensures PhaseOf(src, dst, SlotOf((a + b)[i])) <= PhaseOf(src, dst, SlotOf((a + b)[j]))
    {
      if i >= |a| { assert b[i - |a|] in b && b[j - |a|] in b; }
    }
  }

  /** Sending in order leaves no operation out and does not repeat one. */
  lemma InOrderCovers(src: Rib, dst: Rib, explicitReplace: map<AftType, bool>, log: seq<Op>)
    requires Covers(src, dst, explicitReplace, log)
    ensures Covers(src, dst, explicitReplace, InOrder(Sorted(src, dst, log)))
    ensures InPhases(src, dst, InOrder(Sorted(src, dst, log)))
  {
    ArrangedElements(src, dst, log, ORDER);
    InOrderArranges(src, dst, log);
    var o := InOrder(Sorted(src, dst, log));
    forall op | op in log ensures op in o {
      CategoryInOrder(src, dst, SlotOf(op));
    }
  }

  lemma CategoryInOrder(src: Rib, dst: Rib, t: Slot)
    ensures CategoryOf(src, dst, t) in ORDER
  {
    var c := CategoryOf(src, dst, t);
    assert ORDER[0] in ORDER && ORDER[1] in ORDER && ORDER[2] in ORDER && ORDER[3] in ORDER && ORDER[4] in ORDER
        && ORDER[5] in ORDER && ORDER[6] in ORDER && ORDER[7] in ORDER && ORDER[8] in ORDER;
  }

  lemma ArrangedStep(src: Rib, dst: Rib, log: seq<Op>, cs: seq<Category>, n: nat)
    requires n < |cs|
    ensures Arranged(src, dst, log, cs[..n + 1]) == Arranged(src, dst, log, cs[..n]) + Pick(src, dst, log, cs[n])
  {
    assert cs[..n + 1][..n] == cs[..n];
  }

  lemma ArrangedThree(src: Rib, dst: Rib, log: seq<Op>, cs: seq<Category>, n: nat)
    requires n + 3 <= |cs|
    ensures Arranged(src, dst, log, cs[..n + 3]) == Arranged(src, dst, log, cs[..n])
            + Pick(src, dst, log, cs[n]) + Pick(src, dst, log, cs[n + 1]) + Pick(src, dst, log, cs[n + 2])
  {
    ArrangedStep(src, dst, log, cs, n);
    ArrangedStep(src, dst, log, cs, n + 1);
    ArrangedStep(src, dst, log, cs, n + 2);
  }

  lemma InOrderArranges(src: Rib, dst: Rib, log: seq<Op>)
    ensures InOrder(Sorted(src, dst, log)) == Arranged(src, dst, log, ORDER)
  {
    hide Pick, CategoryOf;
    var cs := ORDER;
    ArrangedThree(src, dst, log, cs, 0);
    ArrangedThree(src, dst, log, cs, 3);
    ArrangedThree(src, dst, log, cs, 6);
    assert cs[..9] == cs && cs[..0] == [];
    assert [] + Pick(src, dst, log, cs[0]) == Pick(src, dst, log, cs[0]);
  }

  lemma InOrderElements(src: Rib, dst: Rib, log: seq<Op>)
    requires DistinctSlots(log)
    ensures DistinctSlots(InOrder(Sorted(src, dst, log)))
    ensures forall op :: op in InOrder(Sorted(src, dst, log)) <==> op in log
  {
    ArrangedElements(src, dst, log, ORDER);
    InOrderArranges(src, dst, log);
    hide InOrder, Sorted;
    forall op | op in log ensures CategoryOf(src, dst, SlotOf(op)) in ORDER { CategoryInOrder(src, dst, SlotOf(op)); }
  }

  /** IDs that are consecutive in one order are distinct, and as many, in any other. */
  lemma SameIds(log: seq<Op>, o: seq<Op>, base: nat)
    requires DistinctSlots(log) && forall i :: 0 <= i < |log| ==> log[i].id == base + 1 + i
    requires DistinctSlots(o) && forall op :: op in o <==> op in log
    ensures DistinctIds(o) && |o| == |log| && forall op :: op in o ==> base < op.id <= base + |log|
  {
    forall i, j | 0 <= i < j < |o| ensures o[i].id != o[j].id {
      assert o[i] in log && o[j] in log;
      var k :| 0 <= k < |log| && log[k] == o[i];
      var l :| 0 <= l < |log| && log[l] == o[j];
    }
    CountSlots(o);
    CountSlots(log);
    assert SlotsOf(o) == SlotsOf(log);
  }

  lemma InOrderIds(src: Rib, dst: Rib, log: seq<Op>, base: nat)
    requires DistinctSlots(log) && forall i :: 0 <= i < |log| ==> log[i].id == base + 1 + i
    ensures var o := InOrder(Sorted(src, dst, log));
      DistinctIds(o) && |o| == |log| && forall op :: op in o ==> base < op.id <= base + |log|
  {
    InOrderElements(src, dst, log);
    hide InOrder, Sorted;
    SameIds(log, InOrder(Sorted(src, dst, log)), base);
  }

  lemma {:induction false} CountSlots(ops: seq<Op>)
    requires DistinctSlots(ops)
    ensures |ops| == |SlotsOf(ops)|
  {
    if ops != [] {
      var n := |ops| - 1;
      CountSlots(ops[..n]);
      assert ops == ops[..n] + [ops[n]];
      SlotsSnoc(ops[..n], ops[n]);
      forall o | o in ops[..n] ensures SlotOf(o) != SlotOf(ops[n]) {
        var i :| 0 <= i < n && ops[i] == o;
      }
    }
  }

  // ---------------------------------------------------------------- which list is which

  ghost predicate Has(ops: Ops, o: Op) {
    o in ops.nh || o in ops.nhg || o in ops.top
  }

  /** Each list has the operations of its own tables. */
  ghost predicate ByTable(ops: Ops) {
    && (forall o :: o in ops.nh ==> o.entry.HopEntry?)
    && (forall o :: o in ops.nhg ==> o.entry.GroupEntry?)
    && (forall o :: o in ops.top ==> o.entry.TopEntry?)
  }

  /** Explicit replaces are asked for in a table of t: by its own name, mapped to true, or
      by ALL, mapped to anything. */
  ghost predicate AskedFor(m: map<AftType, bool>, t: Slot) {
    exists a :: a in m && TableHas(a, t) && (a == ALL || m[a])
  }

  /** What the lists hold, in terms of the two contents: additions are of what dst lacks,
      replaces of what it has with other contents, and deletes of what src lacks. */
  ghost predicate Filed(src: Entries, dst: Entries, m: map<AftType, bool>, ops: ReconcileOps) {
    && ByTable(ops.add) && ByTable(ops.replace) && ByTable(ops.delete)
    && (forall o :: Has(ops.add, o) ==> SlotOf(o) !in dst && o.kind == Add && StoredAsSent(src, o))
    && (forall o :: Has(ops.replace, o) ==>
          && SlotOf(o) in src && SlotOf(o) in dst && src[SlotOf(o)] != dst[SlotOf(o)]
          && o.kind == (if AskedFor(m, SlotOf(o)) then Replace else Add) && StoredAsSent(src, o))
    && (forall o :: Has(ops.delete, o) ==> SlotOf(o) !in src && o.kind == OpKind.Delete && StoredAsSent(dst, o))
  }

  /** No slot of nis is left out. */
  ghost predicate Complete(nis: set<string>, src: Entries, dst: Entries, ops: ReconcileOps) {
    && (forall t: Slot :: t.ni in nis && t in src && t !in dst ==> exists o :: Has(ops.add, o) && SlotOf(o) == t)
    && (forall t: Slot :: t.ni in nis && t in src && t in dst && src[t] != dst[t] ==>
          exists o :: Has(ops.replace, o) && SlotOf(o) == t)
    && (forall t: Slot :: t.ni in nis && t !in src && t in dst ==> exists o :: Has(ops.delete, o) && SlotOf(o) == t)
  }

  lemma ExplicitIff(m: map<AftType, bool>, t: Slot)
    ensures Explicit(m, AftOf(t)) <==> AskedFor(m, t)
  {
    if a :| a in m && TableHas(a, t) && (a == ALL || m[a]) { assert a == ALL || a == AftOf(t); }
    assert TableHas(AftOf(t), t) && TableHas(ALL, t);
  }

  lemma ClassElements(src: Rib, dst: Rib, log: seq<Op>, k: Class)
    requires DistinctSlots(log)
    ensures forall o :: Has(PickClass(src, dst, log, k), o) <==> o in log && CategoryOf(src, dst, SlotOf(o)).class_ == k
    ensures ByTable(PickClass(src, dst, log, k))
  {
    PickElements(src, dst, log, Category(k, 0));
    PickElements(src, dst, log, Category(k, 1));
    PickElements(src, dst, log, Category(k, 2));
    hide Pick;
    forall o | o in log && CategoryOf(src, dst, SlotOf(o)).class_ == k ensures Has(PickClass(src, dst, log, k), o) {
      var c := CategoryOf(src, dst, SlotOf(o));
      assert c == Category(k, 0) || c == Category(k, 1) || c == Category(k, 2);
    }
  }

  lemma FiledOne(src: Rib, dst: Rib, m: map<AftType, bool>, o: Op)
    requires Emitted(src, dst, m, o)
    ensures var t, k := SlotOf(o), CategoryOf(src, dst, SlotOf(o)).class_;
      && (k.Added? ==> t !in dst.entries && o.kind == Add && StoredAsSent(src.entries, o))
      && (k.Replaced? ==>
            && t in src.entries && t in dst.entries && src.entries[t] != dst.entries[t]
            && o.kind == (if AskedFor(m, t) then Replace else Add) && StoredAsSent(src.entries, o))
      && (k.Deleted? ==> t !in src.entries && o.kind == OpKind.Delete && StoredAsSent(dst.entries, o))
  {
    SlotStoredAsSent(if o.kind.Delete? then dst.entries else src.entries, o);
    ExplicitIff(m, SlotOf(o));
    hide StoredAsSent, SlotOf, ItemOf, AftOf, Explicit, AskedFor, DistinctMembers;
  }

  /** Sorting by category files each operation where it belongs. */
  lemma SortedFiled(src: Rib, dst: Rib, m: map<AftType, bool>, log: seq<Op>)
    requires DistinctSlots(log) && forall o :: o in log ==> Emitted(src, dst, m, o)
    ensures Filed(src.entries, dst.entries, m, Sorted(src, dst, log))
  {
    hide PickClass, Emitted, CategoryOf, ByTable, Has, AskedFor, StoredAsSent, SlotOf;
    ClassElements(src, dst, log, Added);
    ClassElements(src, dst, log, Replaced);
    ClassElements(src, dst, log, Deleted);
    forall o | o in log { FiledOne(src, dst, m, o); }
  }

  lemma SortedComplete(src: Rib, dst: Rib, m: map<AftType, bool>, log: seq<Op>)
    requires Covers(src, dst, m, log)
    ensures Complete(src.nis, src.entries, dst.entries, Sorted(src, dst, log))
  {
    ClassElements(src, dst, log, Added);
    ClassElements(src, dst, log, Replaced);
    ClassElements(src, dst, log, Deleted);
    hide PickClass, ByTable, Has, Emitted, SlotOf;
    forall t | Differs(src, dst, t)
      ensures exists o :: Has(PickClass(src, dst, log, CategoryOf(src, dst, t).class_), o) && SlotOf(o) == t
    {
      var o :| o in log && SlotOf(o) == t;
      assert Has(PickClass(src, dst, log, CategoryOf(src, dst, t).class_), o);
    }
    forall t: Slot | t.ni in src.nis && t in src.entries && t !in dst.entries ensures Differs(src, dst, t) { }
    forall t: Slot | t.ni in src.nis && t !in src.entries && t in dst.entries ensures Differs(src, dst, t) { }
    forall t: Slot | t.ni in src.nis && t in src.entries && t in dst.entries && src.entries[t] != dst.entries[t]
      ensures Differs(src, dst, t)
    {
    }
  }
}
