/** One install and one removal on a RIB, with the reference counters each maintains,
    and the proof that the counters count. */
module RefCounts {
  import opened Aft

  function Inc(refs: map<Slot, nat>, t: Slot): map<Slot, nat> {
    refs[t := Cnt(refs, t) + 1]
  }

  /** Decrements every counter in ts, holding each at zero. */
  function DecAll(refs: map<Slot, nat>, ts: set<Slot>): map<Slot, nat> {
    map t | t in refs :: if t in ts && refs[t] > 0 then refs[t] - 1 else refs[t]
  }

  /** One increment for each member listed. */
  function IncMembers(refs: map<Slot, nat>, ni: string, members: seq<(nat, nat)>): map<Slot, nat> {
    if members == [] then refs
    else
      var n := |members| - 1;
      Inc(IncMembers(refs, ni, members[..n]), Hop(ni, members[n].0))
  }

  /** The next-hop-group of a route keeps its count when a replace names the same group. */
  predicate SameGroup(op: Op, was: Item) {
    op.entry.TopEntry? && was.Route? && op.entry.nhgNI == was.nhgNI && op.entry.nhg == was.nhg
  }

  function AddedRefs(refs: map<Slot, nat>, op: Op): map<Slot, nat> {
    match op.entry
    case TopEntry(_, nhgNI, nhg, _) => Inc(refs, Group(Home(op.ni, nhgNI), nhg))
    case GroupEntry(_, members, _) => IncMembers(refs, op.ni, members)
    case HopEntry(_, _, _) => refs
  }

  /** The counters after op is stored over what its slot held: a route drops its old
      reference first, a group drops its old members last. */
  function RefsOver(refs: map<Slot, nat>, was: Option<Item>, op: Op): map<Slot, nat> {
    match was
    case None => AddedRefs(refs, op)
    case Some(x) =>
      if SameGroup(op, x) then refs
      else if op.entry.TopEntry? then AddedRefs(DecAll(refs, Needs(SlotOf(op), x)), op)
      else DecAll(AddedRefs(refs, op), Needs(SlotOf(op), x))
  }

  function RefsAfter(r: Rib, op: Op): map<Slot, nat> {
    RefsOver(r.refs, At(r.entries, SlotOf(op)), op)
  }

  /** Stores op's entry, replacing whatever its slot held. */
  function Apply(r: Rib, op: Op): Rib {
    Rib(r.nis, r.entries[SlotOf(op) := ItemOf(op)], RefsAfter(r, op))
  }

  /** Empties slot s. */
  function Remove(r: Rib, s: Slot): Rib {
    if s in r.entries
    then Rib(r.nis, r.entries - {s}, DecAll(r.refs, Needs(s, r.entries[s])))
    else r
  }

  /** No counter is below the number of entries that refer to it. */
  ghost predicate AtLeast(r: Rib) {
    forall t :: Cnt(r.refs, t) >= |Users(r.entries, t)|
  }

  /** Every counter is the number of entries that refer to it. */
  ghost predicate Exact(r: Rib) {
    forall t :: Cnt(r.refs, t) == |Users(r.entries, t)|
  }

  // How one slot changes the users of t.

  ghost function One(b: bool): nat { if b then 1 else 0 }

  lemma UsersStored(e: Entries, s: Slot, x: Item, t: Slot)
    ensures |Users(e[s := x], t)| + One(s in e && t in Needs(s, e[s]))
         == |Users(e, t)| + One(t in Needs(s, x))
  {
    var rest := Users(e, t) - {s};
    assert Users(e, t) == if s in e && t in Needs(s, e[s]) then rest + {s} else rest;
    assert Users(e[s := x], t) == if t in Needs(s, x) then rest + {s} else rest;
  }

  lemma UsersRemoved(e: Entries, s: Slot, t: Slot)
    requires s in e
    ensures |Users(e - {s}, t)| + One(t in Needs(s, e[s])) == |Users(e, t)|
  {
    var rest := Users(e, t) - {s};
    assert Users(e, t) == if t in Needs(s, e[s]) then rest + {s} else rest;
    assert Users(e - {s}, t) == rest;
  }

  lemma {:induction false} CntIncMembers(refs: map<Slot, nat>, ni: string, members: seq<(nat, nat)>, t: Slot)
    ensures Cnt(IncMembers(refs, ni, members), t)
         == Cnt(refs, t) + if t.Hop? && t.ni == ni then Mentions(members, t.index) else 0
  {
    if members != [] {
      CntIncMembers(refs, ni, members[..|members| - 1], t);
    }
  }

  /** What op adds to the counter of t. */
  ghost function Added(op: Op, t: Slot): nat {
    match op.entry
    case TopEntry(_, nhgNI, nhg, _) => One(t == Group(Home(op.ni, nhgNI), nhg))
    case GroupEntry(_, members, _) => if t.Hop? && t.ni == op.ni then Mentions(members, t.index) else 0
    case HopEntry(_, _, _) => 0
  }

  lemma CntAdded(refs: map<Slot, nat>, op: Op, t: Slot)
    ensures Cnt(AddedRefs(refs, op), t) == Cnt(refs, t) + Added(op, t)
  {
    if op.entry.GroupEntry? {
      CntIncMembers(refs, op.ni, op.entry.members, t);
    }
  }

  /** An operation adds at least one count for every reference of its stored entry,
      and exactly one when its members are distinct. */
  lemma AddedCoversNeeds(op: Op, t: Slot)
    ensures Added(op, t) >= One(t in Needs(SlotOf(op), ItemOf(op)))
    ensures DistinctMembers(op) ==> Added(op, t) == One(t in Needs(SlotOf(op), ItemOf(op)))
  {
    if op.entry.GroupEntry? && t.Hop? && t.ni == op.ni {
      MentionsIsMembership(op.entry.members, t.index);
      MentionedTwice(op.entry.members, t.index);
    }
  }

  lemma UserCounted(r: Rib, s: Slot, t: Slot)
    requires AtLeast(r) && s in r.entries && t in Needs(s, r.entries[s])
    ensures Cnt(r.refs, t) >= 1
  {
    assert s in Users(r.entries, t);
    assert {s} <= Users(r.entries, t);
    SubsetSize({s}, Users(r.entries, t));
  }

  lemma {:induction false} SubsetSize<T>(a: set<T>, b: set<T>)
    requires a <= b
    ensures |a| <= |b|
    ensures |a| == |b| ==> a == b
    decreases a
  {
    if a != {} {
      var x :| x in a;
      SubsetSize(a - {x}, b - {x});
    }
  }

  /** Whether the entry that op replaces refers to t. */
  ghost function Lost(r: Rib, op: Op, t: Slot): nat {
    One(SlotOf(op) in r.entries && t in Needs(SlotOf(op), r.entries[SlotOf(op)]))
  }

  ghost function Gained(r: Rib, op: Op, t: Slot): nat {
    if SlotOf(op) in r.entries && SameGroup(op, r.entries[SlotOf(op)]) then Lost(r, op, t) else Added(op, t)
  }

  /** The clamp in DecAll is never what saves a counter of an AtLeast RIB: a replace
      really subtracts one for every reference that it drops. */
  lemma CntAfter(r: Rib, op: Op, t: Slot)
    requires AtLeast(r)
    ensures Cnt(RefsAfter(r, op), t) == Cnt(r.refs, t) + Gained(r, op, t) - Lost(r, op, t)
  {
    var s := SlotOf(op);
    CntAdded(r.refs, op, t);
    if s in r.entries {
      CntAdded(DecAll(r.refs, Needs(s, r.entries[s])), op, t);
      if t in Needs(s, r.entries[s]) { UserCounted(r, s, t); }
    }
  }

  lemma ApplyKeepsAtLeast(r: Rib, op: Op)
    requires AtLeast(r)
    ensures AtLeast(Apply(r, op))
  {
    forall t ensures Cnt(Apply(r, op).refs, t) >= |Users(Apply(r, op).entries, t)| {
      CntAfter(r, op, t);
      UsersStored(r.entries, SlotOf(op), ItemOf(op), t);
      AddedCoversNeeds(op, t);
    }
  }

  /** Storing op keeps the counters exact if and only if op lists no member twice. */
  lemma ApplyExactIff(r: Rib, op: Op)
    requires Exact(r)
    ensures Exact(Apply(r, op)) <==> DistinctMembers(op)
  {
    var r', s := Apply(r, op), SlotOf(op);
    forall t ensures Cnt(r'.refs, t) == |Users(r'.entries, t)| + Added(op, t) - One(t in Needs(s, ItemOf(op)))
    {
      CntAfter(r, op, t);
      UsersStored(r.entries, s, ItemOf(op), t);
      AddedCoversNeeds(op, t);
    }
    if DistinctMembers(op) {
      forall t ensures Cnt(r'.refs, t) == |Users(r'.entries, t)| { AddedCoversNeeds(op, t); }
    } else {
      var ms := op.entry.members;
      var i, j :| 0 <= i < j < |ms| && ms[i].0 == ms[j].0;
      var t := Hop(op.ni, ms[i].0);
      MentionedTwice(ms, ms[i].0);
      assert Cnt(r'.refs, t) > |Users(r'.entries, t)|;
    }
  }

  /** Removal keeps both counter invariants, whatever else refers to the slot. */
  lemma RemoveKeepsCounters(r: Rib, s: Slot)
    requires AtLeast(r)
    ensures AtLeast(Remove(r, s))
    ensures Exact(r) ==> Exact(Remove(r, s))
  {
    if s in r.entries {
      forall t
        ensures Cnt(Remove(r, s).refs, t) - |Users(Remove(r, s).entries, t)| == Cnt(r.refs, t) - |Users(r.entries, t)|
      {
        UsersRemoved(r.entries, s, t);
        if t in Needs(s, r.entries[s]) { UserCounted(r, s, t); }
      }
    }
  }
}
