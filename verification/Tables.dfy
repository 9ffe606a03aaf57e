/** The tables and counters of one network instance, and how those of all network
    instances together make up a Rib. */
module Tables {
  import opened Aft
  import opened RefCounts

  /** The value of one RIBHolder. The IPv4, IPv6 and MPLS tables are one map, whose keys
      say which table they belong to. */
  datatype Tables = Tables(
    top: map<TopKey, Item>, nhg: map<nat, Item>, nh: map<nat, Item>,
    nhgRefs: map<nat, nat>, nhRefs: map<nat, nat>)

  type Instances = map<string, Tables>

  const EMPTY := Tables(map[], map[], map[], map[], map[])

  function Find(v: Tables, t: Slot): Option<Item> {
    match t
    case Top(_, key) => At(v.top, key)
    case Group(_, id) => At(v.nhg, id)
    case Hop(_, index) => At(v.nh, index)
  }

  function Put(v: Tables, t: Slot, x: Item): Tables {
    match t
    case Top(_, key) => v.(top := v.top[key := x])
    case Group(_, id) => v.(nhg := v.nhg[id := x])
    case Hop(_, index) => v.(nh := v.nh[index := x])
  }

  function Drop(v: Tables, t: Slot): Tables {
    match t
    case Top(_, key) => v.(top := v.top - {key})
    case Group(_, id) => v.(nhg := v.nhg - {id})
    case Hop(_, index) => v.(nh := v.nh - {index})
  }

  function Counter(v: Tables, t: Slot): Option<nat> {
    match t
    case Top(_, _) => None
    case Group(_, id) => At(v.nhgRefs, id)
    case Hop(_, index) => At(v.nhRefs, index)
  }

  function SetCounter(v: Tables, t: Slot, c: nat): Tables {
    match t
    case Top(_, _) => v
    case Group(_, id) => v.(nhgRefs := v.nhgRefs[id := c])
    case Hop(_, index) => v.(nhRefs := v.nhRefs[index := c])
  }

  function Incremented(v: Tables, t: Slot): Tables {
    SetCounter(v, t, match Counter(v, t) case None => 1 case Some(c) => c + 1)
  }

  /** A counter that is zero, or not there at all, stays as it is. */
  function Decremented(v: Tables, t: Slot): Tables {
    match Counter(v, t)
    case None => v
    case Some(c) => if c == 0 then v else SetCounter(v, t, c - 1)
  }

  // ---------------------------------------------------------------- the change log

  /** What a change hook is called with. Deleting what is not there calls it as well, with
      no entry. */
  datatype Change = Stored(slot: Slot, item: Item) | Removed(slot: Slot) | RemovedNothing

  /** The tables without the counters. */
  function Contents(v: Tables): Tables {
    v.(nhgRefs := map[], nhRefs := map[])
  }

  function Changed(v: Tables, c: Change): Tables {
    match c
    case Stored(t, x) => Put(v, t, x)
    case Removed(t) => Drop(v, t)
    case RemovedNothing => v
  }

  /** The tables of v after the changes, in order. */
  function Replay(v: Tables, changes: seq<Change>): Tables {
    if changes == [] then v
    else Changed(Replay(v, changes[..|changes| - 1]), changes[|changes| - 1])
  }

  lemma ReplaySnoc(v: Tables, changes: seq<Change>, c: Change)
    ensures Replay(v, changes + [c]) == Changed(Replay(v, changes), c)
  {
    assert (changes + [c])[..|changes|] == changes;
  }

  // ---------------------------------------------------------------- all network instances together

  /** r and all agree on what is in slot t, and on its counter. */
  ghost predicate Agree(r: Rib, all: Instances, t: Slot) {
    && At(r.entries, t) == (if t.ni in all then Find(all[t.ni], t) else None)
    && At(r.refs, t) == (if t.ni in all then Counter(all[t.ni], t) else None)
  }

  /** r holds the entries and counters of all, each under its full slot. */
  ghost predicate Flattens(r: Rib, all: Instances) {
    r.nis == all.Keys && forall t :: Agree(r, all, t)
  }

  /** Every network instance, but for those of todo, has a hook set upon what it has in all. */
  ghost predicate Hooked(hooks: map<string, Tables>, all: Instances, todo: set<string>) {
    hooks.Keys <= all.Keys && forall n :: n in all && n !in todo ==> n in hooks && hooks[n] == Contents(all[n])
  }

  lemma HookedMore(hooks: map<string, Tables>, all: Instances, todo: set<string>, n: string)
    requires Hooked(hooks, all, todo) && n in all
    ensures Hooked(hooks[n := Contents(all[n])], all, todo - {n})
  {
  }

  lemma FlatPut(r: Rib, all: Instances, t: Slot, x: Item)
    requires Flattens(r, all) && t.ni in all
    ensures Flattens(r.(entries := r.entries[t := x]), all[t.ni := Put(all[t.ni], t, x)])
  {
    var r', all' := r.(entries := r.entries[t := x]), all[t.ni := Put(all[t.ni], t, x)];
    forall u ensures Agree(r', all', u) { assert Agree(r, all, u); }
  }

  lemma FlatDrop(r: Rib, all: Instances, t: Slot)
    requires Flattens(r, all) && t.ni in all
    ensures Flattens(r.(entries := r.entries - {t}), all[t.ni := Drop(all[t.ni], t)])
  {
    var r', all' := r.(entries := r.entries - {t}), all[t.ni := Drop(all[t.ni], t)];
    forall u ensures Agree(r', all', u) { assert Agree(r, all, u); }
  }

  lemma FlatSetCounter(r: Rib, all: Instances, t: Slot, c: nat)
    requires Flattens(r, all) && t.ni in all && !t.Top?
    ensures Flattens(r.(refs := r.refs[t := c]), all[t.ni := SetCounter(all[t.ni], t, c)])
  {
    var r', all' := r.(refs := r.refs[t := c]), all[t.ni := SetCounter(all[t.ni], t, c)];
    forall u ensures Agree(r', all', u) { assert Agree(r, all, u); }
  }

  lemma FlatInc(r: Rib, all: Instances, t: Slot)
    requires Flattens(r, all) && t.ni in all && !t.Top?
    ensures Flattens(r.(refs := Inc(r.refs, t)), all[t.ni := Incremented(all[t.ni], t)])
  {
    assert Agree(r, all, t);
    FlatSetCounter(r, all, t, Cnt(r.refs, t) + 1);
  }

  lemma FlatDec(r: Rib, all: Instances, t: Slot)
    requires Flattens(r, all) && t.ni in all && !t.Top?
    ensures Flattens(r.(refs := DecAll(r.refs, {t})), all[t.ni := Decremented(all[t.ni], t)])
  {
    assert Agree(r, all, t);
    DecOne(r.refs, t);
    if Cnt(r.refs, t) == 0 {
      assert all[t.ni := all[t.ni]] == all;
    } else {
      FlatSetCounter(r, all, t, Cnt(r.refs, t) - 1);
    }
  }

  lemma FlatAdd(r: Rib, all: Instances, name: string)
    requires Flattens(r, all) && name !in all
    ensures Flattens(r.(nis := r.nis + {name}), all[name := EMPTY])
  {
    var r', all' := r.(nis := r.nis + {name}), all[name := EMPTY];
    forall u ensures Agree(r', all', u) { assert Agree(r, all, u); }
  }

  /** Replacing all entries of one network instance by c. */
  lemma FlatLoad(r: Rib, all: Instances, ni: string, v: Tables, c: Entries)
    requires Flattens(r, all) && ni in all
    requires v.nhgRefs == all[ni].nhgRefs && v.nhRefs == all[ni].nhRefs
    requires forall t :: At(c, t) == if t.ni == ni then Find(v, t) else None
    ensures Flattens(r.(entries := (map t | t in r.entries && t.ni != ni :: r.entries[t]) + c), all[ni := v])
  {
    var r', all' := r.(entries := (map t | t in r.entries && t.ni != ni :: r.entries[t]) + c), all[ni := v];
    forall u ensures Agree(r', all', u) {
      assert Agree(r, all, u);
      assert At(c, u) == if u.ni == ni then Find(v, u) else None;
    }
  }

  /** Decrementing one counter, held at zero. */
  lemma DecOne(refs: map<Slot, nat>, t: Slot)
    ensures DecAll(refs, {t}) == if Cnt(refs, t) == 0 then refs else refs[t := Cnt(refs, t) - 1]
  {
  }

  lemma DecMore(refs: map<Slot, nat>, ts: set<Slot>, t: Slot)
    requires t !in ts
    ensures DecAll(DecAll(refs, ts), {t}) == DecAll(refs, ts + {t})
  {
  }

  ghost function Hops(ni: string, indices: set<nat>): set<Slot> {
    set i | i in indices :: Hop(ni, i)
  }

  lemma DecNone(refs: map<Slot, nat>)
    ensures DecAll(refs, {}) == refs
  {
  }

  lemma HopsOf(s: Slot, x: Item)
    requires s.Group? && x.NextHopGroup?
    ensures Hops(s.ni, {}) == {} && Hops(s.ni, x.weights.Keys) == Needs(s, x)
  {
  }

  /** The members of all but todo are decremented, and then member i is. */
  lemma DecMember(refs: map<Slot, nat>, ni: string, all: set<nat>, todo: set<nat>, i: nat)
    requires todo <= all && i in todo
    ensures DecAll(DecAll(refs, Hops(ni, all - todo)), {Hop(ni, i)}) == DecAll(refs, Hops(ni, all - (todo - {i})))
  {
    DecMore(refs, Hops(ni, all - todo), Hop(ni, i));
    assert Hops(ni, all - (todo - {i})) == Hops(ni, all - todo) + {Hop(ni, i)};
  }
}
