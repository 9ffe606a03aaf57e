/** Computing the operations that reconcile two RIBs. */
module ReconcileImpl {
  import opened Aft
  import opened Concrete
  import opened Engine
  import opened Reconcile

  /** One operation more, in the list that it belongs to. */
  function Append(ops: ReconcileOps, k: Class, op: Op): ReconcileOps {
    match k
    case Added => ops.(add := AppendOp(ops.add, op))
    case Replaced => ops.(replace := AppendOp(ops.replace, op))
    case Deleted => ops.(delete := AppendOp(ops.delete, op))
  }

  lemma AppendSorts(src: Rib, dst: Rib, log: seq<Op>, op: Op)
    ensures Sorted(src, dst, log + [op]) == Append(Sorted(src, dst, log), CategoryOf(src, dst, SlotOf(op)).class_, op)
  {
    PickSnoc(src, dst, log, op, Added);
    PickSnoc(src, dst, log, op, Replaced);
    PickSnoc(src, dst, log, op, Deleted);
  }

  /** The diff so far: log has the operations as they were emitted, for the slots of
      done, ops has them sorted into lists, and id is the last ID used. */
  ghost predicate Valid(src: Rib, dst: Rib, m: map<AftType, bool>, base: nat, ops: ReconcileOps, id: nat,
          log: seq<Op>, done: set<Slot>) {
    Diffing(src, dst, m, base, id, log, done) && ops == Sorted(src, dst, log)
  }

  lemma Emits(src: Rib, dst: Rib, m: map<AftType, bool>, base: nat, ops: ReconcileOps, id: nat, log: seq<Op>,
          done: set<Slot>, op: Op)
    requires Valid(src, dst, m, base, ops, id, log, done)
    requires Emitted(src, dst, m, op) && op.id == id + 1 && SlotOf(op) !in done
    ensures var k := CategoryOf(src, dst, SlotOf(op)).class_;
      Valid(src, dst, m, base, Append(ops, k, op), id + 1, log + [op], done + {SlotOf(op)})
  {
    DiffingEmits(src, dst, m, base, id, log, done, op);
    AppendSorts(src, dst, log, op);
  }

  lemma ValidFiled(src: Rib, dst: Rib, m: map<AftType, bool>, base: nat, ops: ReconcileOps, id: nat, log: seq<Op>,
          done: set<Slot>)
    requires Valid(src, dst, m, base, ops, id, log, done)
    ensures Filed(src.entries, dst.entries, m, ops)
  {
    SortedFiled(src, dst, m, log);
  }

  lemma OneLess<T>(done: set<T>, all: set<T>, todo: set<T>, t: T)
    requires t in todo && todo <= all
    ensures done + (all - (todo - {t})) == done + (all - todo) + {t}
  {
  }

  /** The entries of one table of src: additions for those that dst does not have, and
      replaces for those that it has with other contents. */
  method DiffUpserts(src: Rib, dst: Rib, ghost m: map<AftType, bool>, explicit: bool, ghost base: nat, ni: string,
          a: AftType,
                     ops: ReconcileOps, id: nat, ghost log: seq<Op>, ghost done: set<Slot>)
    returns (ops': ReconcileOps, id': nat, ghost log': seq<Op>)
    requires WellKept(src) && ni in src.nis && explicit == Explicit(m, a)
    requires Valid(src, dst, m, base, ops, id, log, done) && InTable(src.entries, ni, a) !! done
    ensures Valid(src, dst, m, base, ops', id', log', done + InTable(src.entries, ni, a))
    ensures Filed(src.entries, dst.entries, m, ops')
  {
    hide Valid, Filed;
    ops', id', log' := ops, id, log;
    var all := InTable(src.entries, ni, a);
    var todo := all;
    assert done + (all - todo) == done;
    while todo != {}
      invariant todo <= all && Valid(src, dst, m, base, ops', id', log', done + (all - todo))
    {
      var t :| t in todo;
      OneLess(done, all, todo, t);
      ops', id', log' := DiffUpsert(src, dst, m, explicit, base, t, ops', id', log', done + (all - todo));
      todo := todo - {t};
    }
    assert all - todo == all;
    ValidFiled(src, dst, m, base, ops', id', log', done + all);
  }

  method DiffUpsert(src: Rib, dst: Rib, ghost m: map<AftType, bool>, explicit: bool, ghost base: nat, t: Slot,
                    ops: ReconcileOps, id: nat, ghost log: seq<Op>, ghost done: set<Slot>)
    returns (ops': ReconcileOps, id': nat, ghost log': seq<Op>)
    requires WellKept(src) && t in src.entries && explicit == Explicit(m, AftOf(t))
    requires Valid(src, dst, m, base, ops, id, log, done) && t !in done
    ensures Valid(src, dst, m, base, ops', id', log', done + {t})
  {
    if t !in dst.entries || src.entries[t] != dst.entries[t] {
      var kind := if t in dst.entries && explicit then OpKind.Replace else OpKind.Add;
      var op := BuildOp(kind, id + 1, t, src.entries[t]);
      Emits(src, dst, m, base, ops, id, log, done, op);
      return Append(ops, if t in dst.entries then Replaced else Added, op), id + 1, log + [op];
    }
    DiffingSame(src, dst, m, base, id, log, done, t);
    return ops, id, log;
  }

  /** The entries of one table of dst that src does not have are deleted. */
  method DiffDeletes(src: Rib, dst: Rib, ghost m: map<AftType, bool>, ghost base: nat, ni: string, a: AftType,
                     ops: ReconcileOps, id: nat, ghost log: seq<Op>, ghost done: set<Slot>)
    returns (ops': ReconcileOps, id': nat, ghost log': seq<Op>)
    requires WellKept(dst) && ni in src.nis
    requires Valid(src, dst, m, base, ops, id, log, done)
    requires forall t :: t in InTable(dst.entries, ni, a) ==> (t in done <==> t in src.entries)
    ensures Valid(src, dst, m, base, ops', id', log', done + InTable(dst.entries, ni, a))
    ensures Filed(src.entries, dst.entries, m, ops')
  {
    hide Valid, Filed;
    ops', id', log' := ops, id, log;
    var all := InTable(dst.entries, ni, a);
    var todo := all;
    assert done + (all - todo) == done;
    while todo != {}
      invariant todo <= all && Valid(src, dst, m, base, ops', id', log', done + (all - todo))
    {
      var t :| t in todo;
      OneLess(done, all, todo, t);
      ops', id', log' := DiffDelete(src, dst, m, base, t, ops', id', log', done + (all - todo));
      todo := todo - {t};
    }
    assert all - todo == all;
    ValidFiled(src, dst, m, base, ops', id', log', done + all);
  }

  method DiffDelete(src: Rib, dst: Rib, ghost m: map<AftType, bool>, ghost base: nat, t: Slot,
                    ops: ReconcileOps, id: nat, ghost log: seq<Op>, ghost done: set<Slot>)
    returns (ops': ReconcileOps, id': nat, ghost log': seq<Op>)
    requires WellKept(dst) && t in dst.entries && t.ni in src.nis && (t in done <==> t in src.entries)
    requires Valid(src, dst, m, base, ops, id, log, done)
    ensures Valid(src, dst, m, base, ops', id', log', done + {t})
  {
    if t in src.entries {
      assert done + {t} == done;
      return ops, id, log;
    }
    var op := BuildOp(OpKind.Delete, id + 1, t, dst.entries[t]);
    Emits(src, dst, m, base, ops, id, log, done, op);
    return Append(ops, Deleted, op), id + 1, log + [op];
  }

  /** One network instance: all tables of src, and then all tables of dst. */
  method DiffInstance(src: Rib, dst: Rib, ghost m: map<AftType, bool>, explicit: map<AftType, bool>, ghost base: nat,
          ni: string,
                      ops: ReconcileOps, id: nat, ghost log: seq<Op>, ghost done: set<Slot>)
    returns (ops': ReconcileOps, id': nat, ghost log': seq<Op>)
    requires WellKept(src) && WellKept(dst) && ni in src.nis
    requires forall a :: a in TABLES ==> (a in explicit && explicit[a] <==> Explicit(m, a))
    requires Valid(src, dst, m, base, ops, id, log, done) && forall t :: t in done ==> t.ni != ni
    ensures Valid(src, dst, m, base, ops', id', log', done + UpTo(src.entries, ni, 5) + UpTo(dst.entries, ni, 5))
  {
    ops', id', log' := ops, id, log;
    UpToAll(src.entries, ni);
    UpToAll(dst.entries, ni);
    assert done + {} == done;
    for k := 0 to 5
      invariant Valid(src, dst, m, base, ops', id', log', done + UpTo(src.entries, ni, k))
    {
      UpToStep(src.entries, ni, k);
      var a := TABLES[k];
      Regroup(done, UpTo(src.entries, ni, k), InTable(src.entries, ni, a));
      var isExplicit := a in explicit && explicit[a];
      ghost var before := done + UpTo(src.entries, ni, k);
      ops', id', log' := DiffUpserts(src, dst, m, isExplicit, base, ni, a, ops', id', log', before);
    }
    ghost var upserted := done + UpTo(src.entries, ni, 5);
    assert upserted + {} == upserted;
    for k := 0 to 5
      invariant Valid(src, dst, m, base, ops', id', log', upserted + UpTo(dst.entries, ni, k))
    {
      UpToStep(dst.entries, ni, k);
      var a := TABLES[k];
      Regroup(upserted, UpTo(dst.entries, ni, k), InTable(dst.entries, ni, a));
      ops', id', log' := DiffDeletes(src, dst, m, base, ni, a, ops', id', log', upserted + UpTo(dst.entries, ni, k));
    }
  }

  lemma Regroup<T>(a: set<T>, b: set<T>, c: set<T>)
    ensures a + b + c == a + (b + c)
  {
  }

  /** The slots of the given network instances. */
  ghost function Within(src: Rib, dst: Rib, nis: set<string>): set<Slot> {
    set t | t in src.entries.Keys + dst.entries.Keys && t.ni in nis
  }

  lemma WithinStep(src: Rib, dst: Rib, nis: set<string>, ni: string)
    ensures Within(src, dst, nis + {ni}) == Within(src, dst, nis) + UpTo(src.entries, ni, 5) + UpTo(dst.entries, ni, 5)
  {
    UpToAll(src.entries, ni);
    UpToAll(dst.entries, ni);
  }

  /** The operations that turn dst into src in the network instances of src: one for every
      slot that differs, in the list of its category, with consecutive IDs after base. log
      has them in the order of their IDs. */
  method Diff(src: Rib, dst: Rib, explicitReplace: map<AftType, bool>, base: nat) returns (ops: ReconcileOps,
          id: nat, ghost log: seq<Op>)
    requires WellKept(src) && WellKept(dst)
    ensures Filed(src.entries, dst.entries, explicitReplace, ops)
    ensures Complete(src.nis, src.entries, dst.entries, ops)
    ensures Covers(src, dst, explicitReplace, InOrder(ops)) && InPhases(src, dst, InOrder(ops))
    ensures id == base + |InOrder(ops)| && DistinctIds(InOrder(ops))
    ensures forall op :: op in InOrder(ops) ==> base < op.id <= id
    ensures Covers(src, dst, explicitReplace, log) && ops == Sorted(src, dst, log)
    ensures forall i :: 0 <= i < |log| ==> log[i].id == base + 1 + i
  {
    var explicit := if ALL in explicitReplace
      then map[IPV4 := true, IPV6 := true, MPLS := true, NH := true, NHG := true]
      else explicitReplace;
    ops, id, log := NO_OPS, base, [];
    var todo := src.nis;
    while todo != {}
      invariant todo <= src.nis
      invariant Valid(src, dst, explicitReplace, base, ops, id, log, Within(src, dst, src.nis - todo))
    {
      var ni :| ni in todo;
      WithinStep(src, dst, src.nis - todo, ni);
      ghost var before := Within(src, dst, src.nis - todo);
      ops, id, log := DiffInstance(src, dst, explicitReplace, explicit, base, ni, ops, id, log, before);
      assert src.nis - (todo - {ni}) == src.nis - todo + {ni};
      todo := todo - {ni};
    }
    assert src.nis - todo == src.nis;
    DiffEnds(src, dst, explicitReplace, base, ops, id, log);
  }

  lemma DiffEnds(src: Rib, dst: Rib, m: map<AftType, bool>, base: nat, ops: ReconcileOps, id: nat, log: seq<Op>)
    requires Valid(src, dst, m, base, ops, id, log, Within(src, dst, src.nis))
    ensures Filed(src.entries, dst.entries, m, ops) && Complete(src.nis, src.entries, dst.entries, ops)
    ensures Covers(src, dst, m, log) && Covers(src, dst, m, InOrder(ops)) && InPhases(src, dst, InOrder(ops))
    ensures id == base + |InOrder(ops)| && DistinctIds(InOrder(ops))
    ensures forall op :: op in InOrder(ops) ==> base < op.id <= id
  {
    SortedFiled(src, dst, m, log);
    SortedComplete(src, dst, m, log);
    hide Filed, Complete;
    InOrderCovers(src, dst, m, log);
    InOrderIds(src, dst, log, base);
  }
}
