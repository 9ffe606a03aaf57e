/** The RIB as it is programmed: holders of tables and counters that calls change in
    place, proved to do what Engine describes. */
module RibImpl {
  import opened Aft
  import opened RefCounts
  import opened Engine
  import opened Payloads
  import opened Tables
  import opened Retry
  import opened FlushErrors
  import opened Concrete
  import opened Get

  /** The tables and reference counters of one network instance. */
  class RIBHolder {
    const name: string
    var top: map<TopKey, Item>
    var nhg: map<nat, Item>
    var nh: map<nat, Item>
    var nhgRefs: map<nat, nat>
    var nhRefs: map<nat, nat>
    /** Whether a change hook is set, and what it was called with since. */
    var hooked: bool
    var changes: seq<Change>
    /** The tables as they were when the hook was set. */
    ghost var base: Tables

    ghost function View(): Tables reads this {
      Tables(top, nhg, nh, nhgRefs, nhRefs)
    }

    /** Replaying what the hook was called with gives the tables. */
    ghost predicate Logged() reads `top, `nhg, `nh, `hooked, `changes, `base {
      hooked ==> Replay(base, changes) == Tables(top, nhg, nh, map[], map[])
    }

    constructor (name: string)
      ensures this.name == name && View() == EMPTY && Logged() && !hooked
    {
      this.name := name;
      hooked, changes, base := false, [], EMPTY;
      top, nhg, nh, nhgRefs, nhRefs := map[], map[], map[], map[], map[];
    }

    /** The entry in slot t, if there is one. */
    method Retrieve(t: Slot) returns (x: Option<Item>)
      ensures x == Find(View(), t)
    {
      match t
      case Top(_, key) => x := At(top, key);
      case Group(_, id) => x := At(nhg, id);
      case Hop(_, index) => x := At(nh, index);
    }

    method SetPostChangeHook()
      modifies `hooked, `changes, `base
      ensures Logged() && hooked && changes == [] && base == Contents(View())
    {
      hooked, changes, base := true, [], Contents(View());
    }

    method Insert(t: Slot, x: Item)
      modifies `top, `nhg, `nh
      ensures View() == Put(old(View()), t, x)
    {
      match t
      case Top(_, key) => top := (top - {key})[key := x]; assert top == old(top)[key := x];
      case Group(_, id) => nhg := (nhg - {id})[id := x]; assert nhg == old(nhg)[id := x];
      case Hop(_, index) => nh := (nh - {index})[index := x]; assert nh == old(nh)[index := x];
    }

    method Clear(t: Slot)
      modifies `top, `nhg, `nh
      ensures View() == Drop(old(View()), t)
    {
      match t
      case Top(_, key) => top := top - {key};
      case Group(_, id) => nhg := nhg - {id};
      case Hop(_, index) => nh := nh - {index};
    }

    /** Calls the hook, if there is one. */
    method PostChange(c: Change)
      requires hooked ==> Contents(View()) == Changed(Replay(base, changes), c)
      modifies `changes
      ensures Logged() && changes == old(changes) + if hooked then [c] else []
    {
      ReplaySnoc(base, changes, c);
      if hooked { changes := changes + [c]; }
    }

    /** Stores x in slot t and tells the hook. */
    method DoAdd(t: Slot, x: Item)
      requires Logged()
      modifies `top, `nhg, `nh, `changes
      ensures View() == Put(old(View()), t, x) && Logged()
      ensures changes == old(changes) + if hooked then [Stored(t, x)] else []
    {
      Insert(t, x);
      PostChange(Stored(t, x));
    }

    /** Empties slot t and tells the hook. */
    method DoDelete(t: Slot)
      requires Logged()
      modifies `top, `nhg, `nh, `changes
      ensures View() == Drop(old(View()), t) && Logged()
      ensures changes == old(changes) + if hooked then [Removed(t)] else []
    {
      Clear(t);
      PostChange(Removed(t));
    }

    /** Takes over the tables of v, and keeps the counters. */
    method Adopt(v: Tables)
      requires !hooked
      modifies `top, `nhg, `nh
      ensures Logged()
      ensures View() == v.(nhgRefs := old(nhgRefs), nhRefs := old(nhRefs))
    {
      top, nhg, nh := v.top, v.nhg, v.nh;
    }

    method IncNHGRefCount(i: nat)
      modifies `nhgRefs
      ensures View() == Incremented(old(View()), Group(name, i))
    {
      nhgRefs := nhgRefs[i := (if i in nhgRefs then nhgRefs[i] else 0) + 1];
    }

    method DecNHGRefCount(i: nat)
      modifies `nhgRefs
      ensures View() == Decremented(old(View()), Group(name, i))
    {
      if i !in nhgRefs || nhgRefs[i] == 0 { return; }
      nhgRefs := nhgRefs[i := nhgRefs[i] - 1];
    }

    method IncNHRefCount(i: nat)
      modifies `nhRefs
      ensures View() == Incremented(old(View()), Hop(name, i))
    {
      nhRefs := nhRefs[i := (if i in nhRefs then nhRefs[i] else 0) + 1];
    }

    method DecNHRefCount(i: nat)
      modifies `nhRefs
      ensures View() == Decremented(old(View()), Hop(name, i))
    {
      if i !in nhRefs || nhRefs[i] == 0 { return; }
      nhRefs := nhRefs[i := nhRefs[i] - 1];
    }

    method IncRefCount(t: Slot)
      requires t.ni == name && !t.Top?
      modifies `nhgRefs, `nhRefs
      ensures View() == Incremented(old(View()), t)
    {
      if t.Group? { IncNHGRefCount(t.id); } else { IncNHRefCount(t.index); }
    }

    method DecRefCount(t: Slot)
      requires t.ni == name && !t.Top?
      modifies `nhgRefs, `nhRefs
      ensures View() == Decremented(old(View()), t)
    {
      if t.Group? { DecNHGRefCount(t.id); } else { DecNHRefCount(t.index); }
    }

    method Referenced(t: Slot) returns (b: bool)
      ensures b <==> Counter(View(), t).Some? && Counter(View(), t).value > 0
    {
      match t
      case Top(_, _) => b := false;
      case Group(_, id) => b := id in nhgRefs && nhgRefs[id] > 0;
      case Hop(_, index) => b := index in nhRefs && nhRefs[index] > 0;
    }
  }

  /** What resolving the references of an entry came to. */
  datatype Verdict = Resolves | Missing | Fatal

  class RIB {
    const defaultName: string
    /** Whether forward references are allowed. */
    const fwd: bool
    var niRIB: map<string, RIBHolder>
    var pending: map<nat, Op>
    /** The contents of all holders under full slots. */
    ghost var rib: Rib
    /** The network instances that have a change hook, with their contents when it was set. */
    ghost var hooks: map<string, Tables>

    ghost function Instances(): Instances reads `niRIB, niRIB.Values {
      map n | n in niRIB :: niRIB[n].View()
    }

    /** Holders are filed under their names, and their hooks were told everything. */
    ghost predicate Kept() reads `niRIB, `hooks, niRIB.Values {
      && (forall n :: n in niRIB ==> niRIB[n].name == n && niRIB[n].Logged())
      && (forall n :: n in niRIB ==>
            if n in hooks then niRIB[n].hooked && niRIB[n].base == hooks[n] else !niRIB[n].hooked)
      && hooks.Keys <= niRIB.Keys
    }

    ghost predicate Valid() reads `niRIB, `rib, `hooks, niRIB.Values {
      Kept() && Flattens(rib, Instances())
    }

    ghost function View(): State reads `rib, `pending {
      State(rib, pending)
    }

    constructor (defaultName: string, disableForwardReferences: bool)
      ensures Valid() && View() == State(Rib({defaultName}, map[], map[]), map[])
      ensures this.defaultName == defaultName && fwd == !disableForwardReferences
      ensures fresh(niRIB.Values) && hooks == map[]
    {
      var h := new RIBHolder(defaultName);
      this.defaultName := defaultName;
      fwd := !disableForwardReferences;
      niRIB := map[defaultName := h];
      pending := map[];
      rib, hooks := Rib({defaultName}, map[], map[]), map[];
      new;
      forall t ensures Agree(rib, Instances(), t) { }
    }

    method AddNetworkInstance(name: string) returns (err: bool)
      requires Valid()
      modifies `niRIB, `rib
      ensures Valid()
      ensures err == (name in old(rib.nis))
      ensures rib == old(rib).(nis := old(rib.nis) + {name})
      ensures fresh(niRIB.Values - old(niRIB.Values))
    {
      if name in niRIB {
        assert rib.nis + {name} == rib.nis;
        return true;
      }
      AddHolder(name);
      return false;
    }

    method AddHolder(name: string)
      requires Valid() && name !in niRIB
      modifies `niRIB, `rib
      ensures Valid() && rib == old(rib).(nis := old(rib.nis) + {name})
      ensures fresh(niRIB.Values - old(niRIB.Values))
    {
      var h := new RIBHolder(name);
      FlatAdd(rib, Instances(), name);
      niRIB := niRIB[name := h];
      rib := rib.(nis := rib.nis + {name});
      OneAdded(name, h);
    }

    /** A new holder leaves the others as they are. */
    twostate lemma OneAdded(name: string, new h: RIBHolder)
      requires old(Kept()) && name !in old(niRIB) && niRIB == old(niRIB)[name := h] && hooks == old(hooks)
      requires h.name == name && h.Logged() && !h.hooked
      requires forall m :: m in old(niRIB) ==> unchanged(old(niRIB[m]))
      ensures Instances() == old(Instances())[name := h.View()] && Kept()
    {
    }

    /** Sets a change hook on every network instance that there is now. */
    method SetPostChangeHook()
      requires Valid()
      modifies `hooks, niRIB.Values
      ensures Valid() && Instances() == old(Instances()) && Hooked(hooks, Instances(), {})
    {
      assert hooks.Keys <= niRIB.Keys;
      hide Kept, Instances;
      ghost var all := Instances();
      var todo := niRIB.Keys;
      while todo != {}
        invariant todo <= niRIB.Keys && Valid() && Instances() == all && Hooked(hooks, all, todo)
      {
        var n :| n in todo;
        HookedMore(hooks, all, todo, n);
        HookOne(n);
        todo := todo - {n};
      }
    }

    method HookOne(n: string)
      requires Valid() && n in niRIB
      modifies `hooks, niRIB[n]
      ensures Valid() && Instances() == old(Instances())
      ensures hooks == old(hooks)[n := Contents(Instances()[n])] && niRIB[n].changes == []
    {
      niRIB[n].SetPostChangeHook();
      hooks := hooks[n := Contents(niRIB[n].View())];
      OneHooked(n);
    }

    twostate lemma OneHooked(n: string)
      requires old(Kept()) && niRIB == old(niRIB) && n in niRIB && hooks == old(hooks)[n := niRIB[n].base]
      requires niRIB[n].hooked && niRIB[n].Logged() && niRIB[n].View() == old(niRIB[n].View())
      requires forall m :: m in niRIB && m != n ==> unchanged(niRIB[m])
      ensures Instances() == old(Instances()) && Kept()
    {
    }

    /** At any time, a listener that replays the changes it was told of, on top of what
        there was when it started to listen, has what is in the network instance. */
    lemma HookMirrors(n: string, t: Slot)
      requires Valid() && n in hooks && t.ni == n
      ensures Find(Replay(hooks[n], niRIB[n].changes), t) == At(rib.entries, t)
    {
      assert Agree(rib, Instances(), t);
    }

    // ---------------------------------------------------------------- one table, one counter

    method Lookup(t: Slot) returns (x: Option<Item>)
      requires Valid()
      ensures x == At(rib.entries, t)
    {
      assert Agree(rib, Instances(), t);
      if t.ni !in niRIB { return None; }
      x := niRIB[t.ni].Retrieve(t);
    }

    method Store(t: Slot, x: Item)
      requires Valid() && t.ni in niRIB
      modifies `rib, niRIB.Values
      ensures Valid() && rib == old(rib).(entries := old(rib.entries)[t := x])
      ensures niRIB[t.ni].changes == old(niRIB[t.ni].changes) + if t.ni in hooks then [Stored(t, x)] else []
    {
      ghost var v := Put(Instances()[t.ni], t, x);
      FlatPut(rib, Instances(), t, x);
      niRIB[t.ni].DoAdd(t, x);
      rib := rib.(entries := rib.entries[t := x]);
      OneChanged(t.ni);
      assert Instances() == old(Instances())[t.ni := v];
    }

    method Erase(t: Slot)
      requires Valid() && t.ni in niRIB
      modifies `rib, niRIB.Values
      ensures Valid() && rib == old(rib).(entries := old(rib.entries) - {t})
      ensures niRIB[t.ni].changes == old(niRIB[t.ni].changes) + if t.ni in hooks then [Removed(t)] else []
    {
      ghost var v := Drop(Instances()[t.ni], t);
      FlatDrop(rib, Instances(), t);
      niRIB[t.ni].DoDelete(t);
      rib := rib.(entries := rib.entries - {t});
      OneChanged(t.ni);
      assert Instances() == old(Instances())[t.ni := v];
    }

    /** Changing the holder of n changes no other network instance. */
    twostate lemma OneChanged(n: string)
      requires niRIB == old(niRIB) && hooks == old(hooks) && n in niRIB && old(Kept())
      requires niRIB[n].Logged() && niRIB[n].hooked == old(niRIB[n].hooked) && niRIB[n].base == old(niRIB[n].base)
      requires forall m :: m in niRIB && m != n ==> unchanged(niRIB[m])
      ensures Instances() == old(Instances())[n := niRIB[n].View()] && Kept()
    {
    }

    method IncOne(t: Slot)
      requires Valid() && t.ni in niRIB && !t.Top?
      modifies `rib, niRIB.Values
      ensures Valid() && rib == old(rib).(refs := Inc(old(rib.refs), t))
    {
      FlatInc(rib, Instances(), t);
      ghost var v := Incremented(Instances()[t.ni], t);
      niRIB[t.ni].IncRefCount(t);
      rib := rib.(refs := Inc(rib.refs, t));
      OneChanged(t.ni);
      assert Instances() == old(Instances())[t.ni := v];
    }

    method DecOne(t: Slot)
      requires Valid() && t.ni in niRIB && !t.Top?
      modifies `rib, niRIB.Values
      ensures Valid() && rib == old(rib).(refs := DecAll(old(rib.refs), {t}))
    {
      FlatDec(rib, Instances(), t);
      ghost var v := Decremented(Instances()[t.ni], t);
      niRIB[t.ni].DecRefCount(t);
      rib := rib.(refs := DecAll(rib.refs, {t}));
      OneChanged(t.ni);
      assert Instances() == old(Instances())[t.ni := v];
    }

    // ---------------------------------------------------------------- references

    /** Drops the references of the item x that slot s held. */
    method DecRefs(s: Slot, x: Item)
      requires Valid() && s.ni in niRIB
      modifies `rib, niRIB.Values
      ensures Valid() && rib == old(rib).(refs := DecAll(old(rib.refs), Needs(s, x)))
    {
      hide Valid;
      DecNone(rib.refs);
      if s.Top? && x.Route? {
        DecGroup(Group(Home(s.ni, x.nhgNI), x.nhg));
      } else if s.Group? && x.NextHopGroup? {
        DecMembers(s, x);
      }
    }

    /** The group may be in a network instance that is not there, and then has no counter. */
    method DecGroup(t: Slot)
      requires Valid() && t.Group?
      modifies `rib, niRIB.Values
      ensures Valid() && rib == old(rib).(refs := DecAll(old(rib.refs), {t}))
    {
      assert Agree(rib, Instances(), t);
      if t.ni in niRIB { DecOne(t); }
    }

    method DecMembers(s: Slot, x: Item)
      requires Valid() && s.ni in niRIB && s.Group? && x.NextHopGroup?
      modifies `rib, niRIB.Values
      ensures Valid() && rib == old(rib).(refs := DecAll(old(rib.refs), Needs(s, x)))
    {
      hide Valid, DecAll, Hops;
      DecNone(rib.refs);
      HopsOf(s, x);
      var todo := x.weights.Keys;
      assert x.weights.Keys - todo == {};
      while todo != {}
        invariant Valid() && todo <= x.weights.Keys
        invariant rib == old(rib).(refs := DecAll(old(rib.refs), Hops(s.ni, x.weights.Keys - todo)))
      {
        var i :| i in todo;
        DecMember(old(rib.refs), s.ni, x.weights.Keys, todo, i);
        DecOne(Hop(s.ni, i));
        todo := todo - {i};
      }
      assert x.weights.Keys - todo == x.weights.Keys;
    }

    /** Takes up the references of op's entry, one for each member listed. */
    method IncRefs(op: Op)
      requires Valid() && op.ni in niRIB && KnownTarget(niRIB.Keys, op)
      modifies `rib, niRIB.Values
      ensures Valid() && rib == old(rib).(refs := AddedRefs(old(rib.refs), op))
    {
      hide Kept;
      match op.entry
      case TopEntry(_, nhgNI, nhg, _) =>
        IncOne(Group(Home(op.ni, nhgNI), nhg));
      case GroupEntry(_, members, _) =>
        for j := 0 to |members|
          invariant Valid()
          invariant rib == old(rib).(refs := IncMembers(old(rib.refs), op.ni, members[..j]))
        {
          assert members[..j + 1][..j] == members[..j];
          IncOne(Hop(op.ni, members[j].0));
        }
        assert members[..|members|] == members;
      case HopEntry(_, _, _) =>
    }

    method HandleReferences(was: Option<Item>, op: Op)
      requires Valid() && op.ni in niRIB && KnownTarget(niRIB.Keys, op) && op.entry.TopEntry?
      modifies `rib, niRIB.Values
      ensures Valid() && rib == old(rib).(refs := RefsOver(old(rib.refs), was, op))
    {
      if was.Some? {
        if SameGroup(op, was.value) { return; }
        DecRefs(SlotOf(op), was.value);
      }
      IncRefs(op);
    }

    method HandleNHGReferences(was: Option<Item>, op: Op)
      requires Valid() && op.ni in niRIB && op.entry.GroupEntry?
      modifies `rib, niRIB.Values
      ensures Valid() && rib == old(rib).(refs := RefsOver(old(rib.refs), was, op))
    {
      IncRefs(op);
      if was.Some? { DecRefs(SlotOf(op), was.value); }
    }

    // ---------------------------------------------------------------- adding

    /** Whether every reference of op's entry is there. The members of a group are
        visited in no fixed order. */
    method CanResolve(op: Op) returns (v: Verdict)
      requires Valid() && op.ni in niRIB
      ensures v.Resolves? ==> Sane(op) && NoZero(op) && KnownTarget(rib.nis, op)
      ensures v.Resolves? ==> Needs(SlotOf(op), ItemOf(op)) <= rib.entries.Keys
      ensures v.Missing? ==> Sane(op) && KnownTarget(rib.nis, op)
      ensures v.Missing? ==> exists t :: t in Needs(SlotOf(op), ItemOf(op)) && t !in rib.entries && !ZeroSlot(t)
      ensures v.Fatal? ==> !Sane(op) || !NoZero(op) || !KnownTarget(rib.nis, op)
    {
      match op.entry
      case HopEntry(index, _, _) =>
        v := if index == 0 then Fatal else Resolves;
      case TopEntry(_, nhgNI, nhg, _) =>
        if nhg == 0 || (nhgNI != "" && nhgNI !in niRIB) { return Fatal; }
        var t := Group(Home(op.ni, nhgNI), nhg);
        var x := Lookup(t);
        assert t in Needs(SlotOf(op), ItemOf(op));
        v := if x.None? then Missing else Resolves;
      case GroupEntry(id, members, _) =>
        if id == 0 || members == [] { return Fatal; }
        v := ResolveMembers(op);
    }

    method ResolveMembers(op: Op) returns (v: Verdict)
      requires Valid() && op.ni in niRIB && op.entry.GroupEntry?
      ensures v.Resolves? ==> NoZero(op) && Needs(SlotOf(op), ItemOf(op)) <= rib.entries.Keys
      ensures v.Missing? ==> exists t :: t in Needs(SlotOf(op), ItemOf(op)) && t !in rib.entries && !ZeroSlot(t)
      ensures v.Fatal? ==> !NoZero(op)
    {
      var weights := WeightMap(op.entry.members);
      var todo := weights.Keys;
      while todo != {}
        invariant todo <= weights.Keys
        invariant forall i :: i in weights && i !in todo ==> i != 0 && Hop(op.ni, i) in rib.entries
      {
        var i :| i in todo;
        MentionsIsMembership(op.entry.members, i);
        if i == 0 { return Fatal; }
        var x := Lookup(Hop(op.ni, i));
        if x.None? {
          assert Hop(op.ni, i) in Needs(SlotOf(op), ItemOf(op));
          return Missing;
        }
        todo := todo - {i};
      }
      forall j | 0 <= j < |op.entry.members| ensures op.entry.members[j].0 != 0 {
        MentionsIsMembership(op.entry.members, op.entry.members[j].0);
      }
      return Resolves;
    }

    /** Stores op's entry and adjusts the counters, if it can be installed. */
    method TryInstall(op: Op) returns (installed: bool, err: bool)
      requires Valid() && ValidNI(rib, op.ni)
      modifies `rib, niRIB.Values
      ensures Valid()
      ensures installed <==> Installable(old(rib), op)
      ensures installed ==> !err && rib == Apply(old(rib), op) && StoredAsSent(rib.entries, op)
      ensures !installed ==> rib == old(rib) && if err then MayReject(rib, op) else MayWait(rib, op)
    {
      hide Kept, StoredAsSent;
      var was := Lookup(SlotOf(op));
      if op.kind == Replace && was.None? { return false, true; }
      var v := CanResolve(op);
      OutcomesCover(rib, op);
      if !v.Resolves? { return false, v.Fatal?; }
      installed, err := true, false;
      ApplyStores(rib, op);
      Store(SlotOf(op), ItemOf(op));
      match op.entry
      case TopEntry(_, _, _, _) => HandleReferences(was, op);
      case GroupEntry(_, _, _) => HandleNHGReferences(was, op);
      case HopEntry(_, _, _) =>
    }

    /** The queued operations, in no fixed order. */
    method GetPending() returns (queue: seq<Op>)
      requires PendingOK(View())
      ensures Snapshot(View(), queue)
    {
      queue := [];
      var todo := pending.Keys;
      while todo != {}
        invariant todo <= pending.Keys && |queue| + |todo| == |pending.Keys|
        invariant forall i :: 0 <= i < |queue| ==> FromPending(View(), queue[i])
        invariant forall id :: id in pending && id !in todo ==> pending[id] in queue
      {
        var id :| id in todo;
        queue := queue + [pending[id]];
        todo := todo - {id};
      }
    }

    /** One attempt to add op: it is installed and leaves the queue, or it is queued, or
        it is reported in fails. */
    method Attempt(op: Op) returns (installed: bool, fails: seq<Op>)
      requires Valid() && ValidNI(rib, op.ni)
      modifies `rib, `pending, niRIB.Values
      ensures Valid()
      ensures installed <==> Installable(old(rib), op)
      ensures installed ==> View() == Installed(old(View()), op)
      ensures !installed ==> AddStep(old(View()), fwd, op, [], fails, View())
    {
      hide Kept;
      var err;
      installed, err := TryInstall(op);
      fails := [];
      if installed {
        pending := pending - {op.id};
      } else if err || !fwd {
        fails := [op];
      } else {
        pending := pending[op.id := op];
      }
    }

    /** One attempt to add op, and, if it goes in, one attempt at everything that is
        queued then. The result is what the call appends to the results, and the stack
        of IDs installed so far, which the attempts leave alone. */
    method AddEntryInternal(op: Op, stack: set<nat>) returns (a: Appended, ghost n: nat)
      requires Valid() && QueueOK(View(), fwd) && ValidNI(rib, op.ni) && stack !! pending.Keys
      modifies `rib, `pending, niRIB.Values
      ensures Valid() && AddCall(old(View()), fwd, op, stack, a, n, View())
      decreases pending.Keys + {op.id} - stack, 0
    {
      hide Kept;
      if op.id in stack {
        CallIgnored(View(), fwd, op, stack);
        return Appended([], [], stack), 1;
      }
      ghost var s := View();
      var installed, fails := Attempt(op);
      if !installed {
        CallNotInstalled(s, fwd, op, stack, fails, View());
        return Appended([], fails, stack), 1;
      }
      InstalledQueueOK(s, fwd, op, stack);
      a, n := RetryPending(op, stack + {op.id}, s);
      CallInstalled(s, fwd, op, stack, a, n, View());
      n := n + 1;
    }

    /** The attempts at the queue, now that op is installed on top of s0. */
    method RetryPending(op: Op, stack: set<nat>, ghost s0: State) returns (a: Appended, ghost n: nat)
      requires Valid() && QueueOK(View(), fwd) && stack !! pending.Keys && op.id in stack
      requires Installable(s0.rib, op) && View() == Installed(s0, op)
      modifies `rib, `pending, niRIB.Values
      ensures Valid() && Passed(s0, fwd, op, stack, a, n, View())
      decreases pending.Keys - stack, 3
    {
      hide Kept;
      var queue := GetPending();
      PassStarts(s0, fwd, op, stack, queue);
      a, n := RetryAll(op, stack, queue, s0);
      PassEnds(s0, fwd, op, stack, queue, a, n, View());
    }

    method RetryAll(op: Op, stack: set<nat>, queue: seq<Op>, ghost s0: State) returns (a: Appended, ghost n: nat)
      requires Valid() && Passing(s0, fwd, op, stack, queue, 0, Appended([op], [], stack), 0, View())
      requires QueueOK(Installed(s0, op), fwd) && Snapshot(Installed(s0, op), queue)
      requires op.id in stack && stack !! Installed(s0, op).pending.Keys
      modifies `rib, `pending, niRIB.Values
      ensures Valid() && Passing(s0, fwd, op, stack, queue, |queue|, a, n, View())
      decreases Installed(s0, op).pending.Keys - stack, 2
    {
      hide Valid, Passing;
      a, n := Appended([op], [], stack), 0;
      for i := 0 to |queue|
        invariant Valid() && Passing(s0, fwd, op, stack, queue, i, a, n, View())
      {
        a, n := RetryOne(op, stack, queue, i, a, n, s0);
      }
    }

    /** The attempt at queue[i], after those before it. */
    method RetryOne(op: Op, stack: set<nat>, queue: seq<Op>, i: nat, a: Appended, ghost n: nat, ghost s0: State)
      returns (a': Appended, ghost n': nat)
      requires Valid() && Passing(s0, fwd, op, stack, queue, i, a, n, View())
      requires QueueOK(Installed(s0, op), fwd) && Snapshot(Installed(s0, op), queue) && i < |queue|
      requires op.id in stack && stack !! Installed(s0, op).pending.Keys
      modifies `rib, `pending, niRIB.Values
      ensures Valid() && Passing(s0, fwd, op, stack, queue, i + 1, a', n', View())
      decreases Installed(s0, op).pending.Keys - stack, 1
    {
      ghost var s := View();
      AttemptIsSmaller(s0, fwd, op, stack, queue, i, a, n, s);
      var b, m := AddEntryInternal(queue[i], a.stack);
      PassStep(s0, fwd, op, stack, queue, i, a, n, s, b, m, View());
      a', n' := Join(a, b), n + m;
    }

    /** Adds op to its network instance. An unknown network instance is an error and
        changes nothing; otherwise n, the number of attempts made, is bounded by the
        number of operations that were queued. */
    method AddEntry(op: Op) returns (err: bool, oks: seq<Op>, fails: seq<Op>, ghost n: nat)
      requires Valid() && QueueOK(View(), fwd)
      modifies `rib, `pending, niRIB.Values
      ensures Valid() && QueueOK(View(), fwd)
      ensures err <==> op.ni == "" || op.ni !in old(rib.nis)
      ensures err ==> View() == old(View()) && oks == fails == []
      ensures !err ==> AddStep(old(View()), fwd, op, oks, fails, View())
      ensures forall i: nat :: LastInSlot(oks, i) ==> StoredAsSent(rib.entries, oks[i])
      ensures var q := |old(pending.Keys) - {op.id}|; n <= 1 + q * (q + 1) / 2
    {
      hide Kept;
      if op.ni == "" || op.ni !in niRIB { return true, [], [], 0; }
      ghost var s := View();
      var a;
      a, n := AddEntryInternal(op, {});
      CallIsStep(s, fwd, op, a, n, View());
      AcknowledgedIsStored(s, fwd, op, a.oks, a.fails, View());
      return false, a.oks, a.fails, n;
    }

    // ---------------------------------------------------------------- deleting

    /** Whether the entry in t may go: a group or next-hop may not while it is counted. */
    method CanDelete(t: Slot) returns (ok: bool)
      requires Valid() && t.ni in niRIB
      ensures ok == Deletable(rib, t)
    {
      if t.Top? { return true; }
      if ZeroSlot(t) { return false; }
      var x := Lookup(t);
      if x.None? { return true; }
      assert Agree(rib, Instances(), t);
      var used := niRIB[t.ni].Referenced(t);
      return !used;
    }

    /** Deletes the entry in op's slot, whatever its payload. Deleting what is not there
        succeeds; deleting what is in use fails. */
    method DeleteEntry(op: Op) returns (err: bool, ok: bool)
      requires Valid()
      modifies `rib, niRIB.Values
      ensures Valid()
      ensures err <==> op.ni == "" || op.ni !in old(rib.nis)
      ensures err ==> !ok && View() == old(View())
      ensures !err ==> DeleteStep(old(View()), op, ok, View())
    {
      hide Kept;
      if op.ni == "" || op.ni !in niRIB { return true, false; }
      var t := SlotOf(op);
      var was := Lookup(t);
      ok := CanDelete(t);
      if ok {
        if was.Some? {
          Erase(t);
          DecRefs(t, was.value);
        } else {
          ReportNothing(t.ni);
        }
      }
      return false, ok;
    }

    /** The hook hears of a delete that had nothing to delete. */
    method ReportNothing(n: string)
      requires Valid() && n in niRIB
      modifies niRIB[n]
      ensures Valid() && niRIB[n].View() == old(niRIB[n].View())
      ensures niRIB[n].changes == old(niRIB[n].changes) + if n in hooks then [RemovedNothing] else []
    {
      niRIB[n].PostChange(RemovedNothing);
      OneChanged(n);
      assert Instances() == old(Instances());
    }

    // ---------------------------------------------------------------- flushing

    /** Drops the references of the entry in t and then the entry, if there is one. */
    method LocklessDelete(t: Slot) returns (found: bool)
      requires Valid() && t.ni in niRIB
      modifies `rib, niRIB.Values
      ensures Valid() && rib == Remove(old(rib), t)
      ensures found == (t in old(rib.entries))
    {
      var x := Lookup(t);
      if x.None? { return false; }
      DecRefs(t, x.value);
      Erase(t);
      return true;
    }

    /** The slots of one table of ni. */
    method TableSlots(ni: string, rank: nat) returns (ts: set<Slot>)
      requires Valid() && ni in niRIB && rank <= 2
      ensures ts == TableOf(rib.entries, ni, rank)
    {
      var h := niRIB[ni];
      if rank == 2 {
        ts := set k | k in h.top :: Top(ni, k);
      } else if rank == 1 {
        ts := set i | i in h.nhg :: Group(ni, i);
      } else {
        ts := set i | i in h.nh :: Hop(ni, i);
      }
      forall t ensures t in ts <==> t in TableOf(rib.entries, ni, rank) {
        assert Agree(rib, Instances(), t);
      }
    }

    /** Deletes the slots of ts, in any order. */
    method DeleteSlots(ts: set<Slot>) returns (ghost order: seq<Slot>)
      requires Valid() && forall t :: t in ts ==> t.ni in niRIB
      modifies `rib, niRIB.Values
      ensures Valid() && rib == RemoveAll(old(rib), order)
      ensures forall t :: t in order <==> t in ts
    {
      order := [];
      var todo := ts;
      while todo != {}
        invariant Valid() && todo <= ts && rib == RemoveAll(old(rib), order)
        invariant forall t :: t in order <==> t in ts && t !in todo
      {
        var t :| t in todo;
        var _ := LocklessDelete(t);
        assert (order + [t])[..|order|] == order;
        order := order + [t];
        todo := todo - {t};
      }
    }

    /** The backups that the groups of ni name, one for each that names one. */
    method BackupList(ni: string) returns (bs: seq<Slot>)
      requires Valid() && ni in niRIB
      ensures |bs| == |WithBackup(rib.entries, ni)|
      ensures forall b :: b in bs ==> b.ni == ni
      ensures Present(rib.entries, bs) == Backups(rib.entries, WithBackup(rib.entries, ni))
    {
      bs := [];
      var todo := TableSlots(ni, 1);
      ListingStarts(rib.entries, ni);
      while todo != {}
        invariant Listing(rib.entries, ni, todo, bs)
      {
        var t :| t in todo;
        ListingStep(rib.entries, ni, todo, bs, t);
        var x := Lookup(t);
        todo := todo - {t};
        if x.value.NextHopGroup? && x.value.backup.Some? {
          bs := bs + [Group(ni, x.value.backup.value)];
        }
      }
      ListingEnds(rib.entries, ni, bs);
    }

    /** Deletes the listed slots in order, counting those that are not there. */
    method DeleteListed(bs: seq<Slot>) returns (errs: nat)
      requires Valid() && forall b :: b in bs ==> b.ni in niRIB
      modifies `rib, niRIB.Values
      ensures Valid() && rib == RemoveAll(old(rib), bs)
      ensures errs == |bs| - |Present(old(rib.entries), bs)|
    {
      errs := 0;
      assert bs[..0] == [];
      for i := 0 to |bs|
        invariant Valid() && rib == RemoveAll(old(rib), bs[..i])
        invariant errs == i - |Present(old(rib.entries), bs[..i])|
      {
        RemoveAllEffect(old(rib), bs[..i]);
        PresentStep(old(rib.entries), bs, i);
        assert bs[..i + 1][..i] == bs[..i];
        var found := LocklessDelete(bs[i]);
        if !found { errs := errs + 1; }
      }
      assert bs[..|bs|] == bs;
    }

    /** Empties every table of ni: top-level entries, then the groups that others name as
        their backup, then the remaining groups, then next-hops. */
    method FlushInstance(ni: string) returns (errs: nat, ghost order: seq<Slot>)
      requires Valid() && ni in niRIB
      modifies `rib, niRIB.Values
      ensures Valid() && rib == RemoveAll(old(rib), order)
      ensures forall t :: t in order ==> t.ni == ni
      ensures forall t :: t in old(rib.entries) && t.ni == ni ==> t in order
      ensures errs == ErrorCount(old(rib.entries), ni)
    {
      hide Kept;
      ghost var r0 := rib;
      var tops := TableSlots(ni, 2);
      var o2 := DeleteSlots(tops);
      TopsDoNotMatter(r0, ni, o2);
      var bs := BackupList(ni);
      errs := DeleteListed(bs);
      var groups := TableSlots(ni, 1);
      var o1 := DeleteSlots(groups);
      var hops := TableSlots(ni, 0);
      var o0 := DeleteSlots(hops);
      order := FlushOrder(r0, ni, o2, bs, o1, o0);
    }

    /** Flushes the given network instances, which are known and distinct, one by one.
        errs counts what could not be deleted; everything else goes all the same. */
    method Flush(networkInstances: seq<string>) returns (errs: nat, ghost order: seq<Slot>)
      requires Valid() && forall ni :: ni in networkInstances ==> ni in niRIB
      requires forall i, j :: 0 <= i < j < |networkInstances| ==> networkInstances[i] != networkInstances[j]
      modifies `rib, niRIB.Values
      ensures Valid() && FlushStep(old(View()), (set ni | ni in networkInstances), order, View())
      ensures errs == TotalErrors(old(rib.entries), networkInstances)
      ensures errs == 0 <==> forall ni :: ni in networkInstances ==> BackupsInOrder(old(rib.entries), ni)
    {
      hide Kept;
      errs, order := 0, [];
      SilentIff(rib.entries, networkInstances);
      assert networkInstances[..0] == [];
      for i := 0 to |networkInstances|
        invariant Valid() && Flushing(old(rib), networkInstances, i, order, rib)
        invariant errs == TotalErrors(old(rib.entries), networkInstances[..i])
      {
        FlushingKeepsErrors(old(rib), networkInstances, i, order, rib);
        ghost var r := rib;
        var e, o := FlushInstance(networkInstances[i]);
        FlushingStep(old(rib), networkInstances, i, order, r, o, rib);
        errs, order := errs + e, order + o;
        assert networkInstances[..i + 1][..i] == networkInstances[..i];
      }
      assert networkInstances[..|networkInstances|] == networkInstances;
    }

    // ---------------------------------------------------------------- reading and rebuilding

    /** The entries of one table of ni, in no fixed order. */
    method GetTable(ni: string, a: AftType) returns (msgs: seq<AFTEntry>)
      requires Valid() && ni in niRIB && !a.ALL? && WellKept(rib)
      ensures Lists(rib.entries, InTable(rib.entries, ni, a), msgs)
    {
      hide Valid, Lists;
      msgs := [];
      ListsNothing(rib.entries);
      var rows := TableSlots(ni, match a case NH => 0 case NHG => 1 case _ => 2);
      var todo := set t | t in rows && AftOf(t) == a;
      ghost var all := todo;
      assert all == InTable(rib.entries, ni, a) && all - todo == {};
      while todo != {}
        invariant todo <= all && Lists(rib.entries, all - todo, msgs)
      {
        var t :| t in todo;
        var m := GetEntry(t);
        ListsMore(rib.entries, all, todo, msgs, m);
        msgs, todo := msgs + [m], todo - {t};
      }
      assert all - todo == all;
    }

    method GetEntry(t: Slot) returns (m: AFTEntry)
      requires Valid() && t in rib.entries && WellKept(rib)
      ensures Place(m) == t && At(rib.entries, t) == Some(Content(m))
    {
      var x := Lookup(t);
      var op := BuildOp(Add, 0, t, x.value);
      m := AFTEntry(t.ni, op.entry);
    }

    /** The entries of ni in the tables that the filter selects, table by table. */
    method GetRIB(ni: string, filter: map<AftType, bool>) returns (msgs: seq<AFTEntry>)
      requires Valid() && ni in niRIB && WellKept(rib)
      ensures Lists(rib.entries, Wanted(rib.entries, ni, filter), msgs)
      ensures forall m :: m in msgs ==> m.ni == ni && StoredAsSent(rib.entries, Op(0, Add, m.ni, m.entry, None))
      ensures forall t, a :: t in rib.entries && t.ni == ni && a in filter && filter[a] && TableHas(a, t) ==>
        exists m :: m in msgs && Place(m) == t
      ensures forall m :: m in msgs ==> exists a :: a in filter && filter[a] && TableHas(a, Place(m))
    {
      var selected := if ALL in filter && filter[ALL]
        then map[IPV4 := true, MPLS := true, NH := true, NHG := true, IPV6 := true]
        else filter;
      msgs := [];
      ListsNothing(rib.entries);
      WantedUpTo(rib.entries, ni, filter);
      for k := 0 to 5
        invariant Lists(rib.entries, WantedIn(rib.entries, ni, filter, k), msgs)
      {
        WantedStep(rib.entries, ni, filter, k);
        var a := TABLES[k];
        if a in selected && selected[a] {
          var more := GetTable(ni, a);
          ListsConcat(rib.entries, WantedIn(rib.entries, ni, filter, k), msgs, InTable(rib.entries, ni, a), more);
          msgs := msgs + more;
        }
      }
      FilteredAsNamed(rib.entries, ni, filter, msgs);
    }

    /** A copy of the entries of ni. */
    method CopyInstance(ni: string) returns (e: Entries)
      requires Valid() && ni in niRIB
      ensures forall t :: At(e, t) == if t.ni == ni then At(rib.entries, t) else None
    {
      var h := niRIB[ni];
      var tops := map k | k in h.top :: Top(ni, k) := h.top[k];
      var groups := map i | i in h.nhg :: Group(ni, i) := h.nhg[i];
      var hops := map i | i in h.nh :: Hop(ni, i) := h.nh[i];
      e := tops + groups + hops;
      forall t ensures At(e, t) == if t.ni == ni then At(rib.entries, t) else None {
        assert Agree(rib, Instances(), t);
      }
    }

    /** A copy of the contents: the network instances and their entries, without counters. */
    method RIBContents() returns (c: Rib)
      requires Valid()
      ensures c == Rib(rib.nis, rib.entries, map[])
    {
      var e: Entries := map[];
      var todo := niRIB.Keys;
      while todo != {}
        invariant todo <= niRIB.Keys
        invariant Copied(e, rib.entries, niRIB.Keys - todo)
      {
        var ni :| ni in todo;
        var more := CopyInstance(ni);
        CopiedMore(e, rib.entries, niRIB.Keys - todo, ni, more);
        assert niRIB.Keys - (todo - {ni}) == niRIB.Keys - todo + {ni};
        e, todo := e + more, todo - {ni};
      }
      forall t | t in rib.entries ensures t.ni in niRIB.Keys { assert Agree(rib, Instances(), t); }
      CopiedAll(e, rib.entries, niRIB.Keys - todo);
      c := Rib(niRIB.Keys, e, map[]);
    }

    /** Replaces the tables of ni by those that es describe. The counters stay. */
    method Load(ni: string, es: seq<AFTEntry>)
      requires Valid() && ni in niRIB && ni !in hooks
      requires forall m :: m in es ==> m.ni == ni
      modifies `rib, niRIB.Values
      ensures Valid() && rib == old(rib).(entries := Loaded(old(rib.entries), ni, Collected(es)))
    {
      var v := Candidate(ni, es);
      ghost var v' := v.(nhgRefs := Instances()[ni].nhgRefs, nhRefs := Instances()[ni].nhRefs);
      FlatLoad(rib, Instances(), ni, v', Collected(es));
      niRIB[ni].Adopt(v);
      rib := rib.(entries := Loaded(rib.entries, ni, Collected(es)));
      OneChanged(ni);
      assert Instances() == old(Instances())[ni := v'];
    }
  }

  /** The tables that es describe. */
  method Candidate(ni: string, es: seq<AFTEntry>) returns (v: Tables)
    requires forall m :: m in es ==> m.ni == ni
    ensures Describes(v, ni, es)
  {
    v := EMPTY;
    for i := 0 to |es|
      invariant Describes(v, ni, es[..i])
    {
      DescribesMore(v, ni, es, i);
      v := Put(v, Place(es[i]), Content(es[i]));
    }
    assert es[..|es|] == es;
  }
}
