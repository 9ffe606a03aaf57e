/** What the operations mean, read off their payloads: what an install needs, when it is
    refused, what it stores, and what counts as a reference. */
module Payloads {
  import opened Aft
  import opened RefCounts
  import opened Engine

  // ---------------------------------------------------------------- what is stored

  /** The weights are those of the members listed: of one listed twice, the last. */
  ghost predicate WeighedAs(weights: map<nat, nat>, members: seq<(nat, nat)>) {
    && (forall i :: i in weights <==> exists j :: 0 <= j < |members| && members[j].0 == i)
    && (forall j :: 0 <= j < |members| && (forall k :: j < k < |members| ==> members[k].0 != members[j].0) ==>
          At(weights, members[j].0) == Some(members[j].1))
  }

  /** The entry that op names is there with the contents that op gives. */
  ghost predicate StoredAsSent(e: Entries, op: Op) {
    match op.entry
    case HopEntry(index, addr, rest) =>
      var t := Hop(op.ni, index);
      t in e && e[t].NextHop? && e[t].addr == addr && e[t].rest == rest
    case GroupEntry(id, members, backup) =>
      var t := Group(op.ni, id);
      t in e && e[t].NextHopGroup? && e[t].backup == backup && WeighedAs(e[t].weights, members)
    case TopEntry(key, nhgNI, nhg, meta) =>
      var t := Top(op.ni, key);
      t in e && e[t].Route? && e[t].nhgNI == nhgNI && e[t].nhg == nhg && e[t].meta == meta
  }

  lemma {:induction false} LastWeight(members: seq<(nat, nat)>, j: nat)
    requires j < |members| && forall k :: j < k < |members| ==> members[k].0 != members[j].0
    ensures At(WeightMap(members), members[j].0) == Some(members[j].1)
  {
    var n := |members| - 1;
    if j < n {
      LastWeight(members[..n], j);
      assert members[n].0 != members[j].0;
    }
  }

  lemma WeightsOfMembers(members: seq<(nat, nat)>)
    ensures WeighedAs(WeightMap(members), members)
  {
    forall i ensures i in WeightMap(members) <==> exists j :: 0 <= j < |members| && members[j].0 == i {
      MentionsIsMembership(members, i);
    }
    hide WeightMap;
    forall j | 0 <= j < |members| && forall k :: j < k < |members| ==> members[k].0 != members[j].0
      ensures At(WeightMap(members), members[j].0) == Some(members[j].1)
    {
      LastWeight(members, j);
    }
  }

  /** op's entry is in its slot. */
  lemma SlotStoredAsSent(e: Entries, op: Op)
    requires At(e, SlotOf(op)) == Some(ItemOf(op))
    ensures StoredAsSent(e, op)
  {
    if op.entry.GroupEntry? { WeightsOfMembers(op.entry.members); }
  }

  lemma StoredStays(e: Entries, e': Entries, op: Op)
    requires StoredAsSent(e, op) && At(e', SlotOf(op)) == At(e, SlotOf(op))
    ensures StoredAsSent(e', op)
  {
  }

  /** An install stores what was sent, and touches no other slot. */
  lemma ApplyStores(r: Rib, op: Op)
    ensures StoredAsSent(Apply(r, op).entries, op) && Apply(r, op).nis == r.nis
    ensures forall t :: t != SlotOf(op) ==> At(Apply(r, op).entries, t) == At(r.entries, t)
  {
    SlotStoredAsSent(Apply(r, op).entries, op);
  }

  /** No operation of ops after i programs the slot of ops[i]. */
  ghost predicate LastInSlot(ops: seq<Op>, i: nat) {
    i < |ops| && forall j :: i < j < |ops| ==> SlotOf(ops[j]) != SlotOf(ops[i])
  }

  lemma {:induction false} RunStores(r: Rib, ops: seq<Op>, i: nat)
    requires LastInSlot(ops, i)
    ensures At(ApplyAll(r, ops).entries, SlotOf(ops[i])) == Some(ItemOf(ops[i]))
  {
    var n := |ops| - 1;
    hide SlotOf, ItemOf;
    ApplyStores(ApplyAll(r, ops[..n]), ops[n]);
    if i < n {
      RunStores(r, ops[..n], i);
      assert SlotOf(ops[n]) != SlotOf(ops[i]);
    }
  }

  lemma {:induction false} RunLeaves(r: Rib, ops: seq<Op>, t: Slot)
    requires forall o :: o in ops ==> SlotOf(o) != t
    ensures At(ApplyAll(r, ops).entries, t) == At(r.entries, t)
  {
    if ops != [] {
      hide SlotOf, ItemOf;
      RunLeaves(r, ops[..|ops| - 1], t);
      ApplyStores(ApplyAll(r, ops[..|ops| - 1]), ops[|ops| - 1]);
    }
  }

  /** After AddEntry whatever is acknowledged is stored as it was sent, but for what a later
      one of them stored in the same slot, and no other slot has changed. */
  lemma AcknowledgedIsStored(s: State, fwd: bool, op: Op, oks: seq<Op>, fails: seq<Op>, s': State)
    requires AddStep(s, fwd, op, oks, fails, s')
    ensures forall i: nat :: LastInSlot(oks, i) ==> StoredAsSent(s'.rib.entries, oks[i])
    ensures forall t :: (forall o :: o in oks ==> SlotOf(o) != t) ==> At(s'.rib.entries, t) == At(s.rib.entries, t)
  {
    if Installable(s.rib, op) {
      hide Installable, Settled, NonePassedOver, InstallRun, ApplyAll;
      forall i: nat | LastInSlot(oks, i) ensures StoredAsSent(s'.rib.entries, oks[i]) {
        RunStores(s.rib, oks, i);
        SlotStoredAsSent(s'.rib.entries, oks[i]);
      }
      forall t | forall o :: o in oks ==> SlotOf(o) != t ensures At(s'.rib.entries, t) == At(s.rib.entries, t) {
        RunLeaves(s.rib, oks, t);
      }
    }
  }

  // ---------------------------------------------------------------- what an install needs

  lemma GroupNeeds(op: Op, e: set<Slot>)
    requires op.entry.GroupEntry?
    ensures Needs(SlotOf(op), ItemOf(op)) <= e <==>
            forall j :: 0 <= j < |op.entry.members| ==> Hop(op.ni, op.entry.members[j].0) in e
  {
    var ms := op.entry.members;
    forall i ensures i in WeightMap(ms) <==> exists j :: 0 <= j < |ms| && ms[j].0 == i { MentionsIsMembership(ms, i); }
    if Needs(SlotOf(op), ItemOf(op)) <= e {
      forall j | 0 <= j < |ms| ensures Hop(op.ni, ms[j].0) in e {
        assert Hop(op.ni, ms[j].0) in Needs(SlotOf(op), ItemOf(op));
      }
    }
  }

  /** A next-hop needs an index. */
  lemma HopInstallableIff(r: Rib, op: Op)
    requires op.entry.HopEntry?
    ensures Installable(r, op) <==>
      && op.ni != "" && op.ni in r.nis && op.entry.index != 0
      && (op.kind == Replace ==> Hop(op.ni, op.entry.index) in r.entries)
  {
  }

  /** A group needs an ID and members, which are next-hops of its own network instance. */
  lemma GroupInstallableIff(r: Rib, op: Op)
    requires op.entry.GroupEntry?
    ensures Installable(r, op) <==>
      && op.ni != "" && op.ni in r.nis && op.entry.id != 0 && op.entry.members != []
      && (forall j :: 0 <= j < |op.entry.members| ==>
            op.entry.members[j].0 != 0 && Hop(op.ni, op.entry.members[j].0) in r.entries)
      && (op.kind == Replace ==> Group(op.ni, op.entry.id) in r.entries)
  {
    GroupNeeds(op, r.entries.Keys);
  }

  /** A route needs its group, in the network instance that it names or else in its own. */
  lemma RouteInstallableIff(r: Rib, op: Op)
    requires op.entry.TopEntry?
    ensures Installable(r, op) <==>
      && op.ni != "" && op.ni in r.nis && op.entry.nhg != 0
      && (if op.entry.nhgNI == "" then Group(op.ni, op.entry.nhg) in r.entries
          else op.entry.nhgNI in r.nis && Group(op.entry.nhgNI, op.entry.nhg) in r.entries)
      && (op.kind == Replace ==> Top(op.ni, op.entry.key) in r.entries)
  {
  }

  /** What can be refused: a replace of nothing, a zero key, a group without members or with
      a zero one, and a route that names an unknown network instance. */
  lemma RejectIff(r: Rib, op: Op)
    ensures MayReject(r, op) <==>
      || (op.kind == Replace && op.entry.HopEntry? && Hop(op.ni, op.entry.index) !in r.entries)
      || (op.kind == Replace && op.entry.GroupEntry? && Group(op.ni, op.entry.id) !in r.entries)
      || (op.kind == Replace && op.entry.TopEntry? && Top(op.ni, op.entry.key) !in r.entries)
      || (op.entry.HopEntry? && op.entry.index == 0)
      || (op.entry.GroupEntry? && (op.entry.id == 0 || op.entry.members == []))
      || (op.entry.GroupEntry? && exists j :: 0 <= j < |op.entry.members| && op.entry.members[j].0 == 0)
      || (op.entry.TopEntry? && (op.entry.nhg == 0 || (op.entry.nhgNI != "" && op.entry.nhgNI !in r.nis)))
  {
  }

  /** What can be queued: a route without its group, and a group without one of its
      next-hops, each otherwise in order; never a next-hop. */
  lemma WaitIff(r: Rib, op: Op)
    ensures MayWait(r, op) <==>
      || (&& op.entry.TopEntry? && op.entry.nhg != 0
          && (op.kind == Replace ==> Top(op.ni, op.entry.key) in r.entries)
          && (op.entry.nhgNI != "" ==> op.entry.nhgNI in r.nis)
          && Group(if op.entry.nhgNI == "" then op.ni else op.entry.nhgNI, op.entry.nhg) !in r.entries)
      || (&& op.entry.GroupEntry? && op.entry.id != 0
          && (op.kind == Replace ==> Group(op.ni, op.entry.id) in r.entries)
          && exists j :: 0 <= j < |op.entry.members| && op.entry.members[j].0 != 0
                         && Hop(op.ni, op.entry.members[j].0) !in r.entries)
  {
    if op.entry.GroupEntry? {
      var ms := op.entry.members;
      forall i ensures i in WeightMap(ms) <==> exists j :: 0 <= j < |ms| && ms[j].0 == i {
        MentionsIsMembership(ms, i);
      }
      if j :| 0 <= j < |ms| && ms[j].0 != 0 && Hop(op.ni, ms[j].0) !in r.entries {
        assert Hop(op.ni, ms[j].0) in Needs(SlotOf(op), ItemOf(op));
      }
    } else if op.entry.TopEntry? {
      var t := Group(if op.entry.nhgNI == "" then op.ni else op.entry.nhgNI, op.entry.nhg);
      assert t in Needs(SlotOf(op), ItemOf(op));
    }
  }

  // ---------------------------------------------------------------- what counts

  /** The routes, in any network instance, whose group is the one in NI n with the ID id. */
  ghost function RoutesTo(e: Entries, n: string, id: nat): set<Slot> {
    set u | u in e && u.Top? && e[u].Route? && e[u].nhg == id && (e[u].nhgNI == n || (e[u].nhgNI == "" && u.ni == n))
  }

  /** The groups of NI n that next-hop i is a member of. */
  ghost function GroupsWith(e: Entries, n: string, i: nat): set<Slot> {
    set u | u in e && u.Group? && u.ni == n && e[u].NextHopGroup? && i in e[u].weights
  }

  /** Exact counters: that of a group counts routes, that of a next-hop counts groups. */
  lemma ExactCounts(r: Rib, n: string, id: nat)
    requires Exact(r) && n != ""
    ensures Cnt(r.refs, Group(n, id)) == |RoutesTo(r.entries, n, id)|
    ensures Cnt(r.refs, Hop(n, id)) == |GroupsWith(r.entries, n, id)|
  {
    assert Users(r.entries, Group(n, id)) == RoutesTo(r.entries, n, id);
    assert Users(r.entries, Hop(n, id)) == GroupsWith(r.entries, n, id);
  }

  /** Closed references: the group of every route is there, and the members of every group. */
  lemma ClosedIff(r: Rib)
    requires Legit(r)
    ensures Closed(r) <==>
      && (forall u :: u in r.entries && u.Top? ==>
            Group(if r.entries[u].nhgNI == "" then u.ni else r.entries[u].nhgNI, r.entries[u].nhg) in r.entries)
      && (forall u, i :: u in r.entries && u.Group? && i in r.entries[u].weights ==> Hop(u.ni, i) in r.entries)
  {
    assert forall u :: u in r.entries ==> LegitEntry(r.nis, u, r.entries[u]);
    if Closed(r) {
      forall u | u in r.entries && u.Top?
        ensures Group(if r.entries[u].nhgNI == "" then u.ni else r.entries[u].nhgNI, r.entries[u].nhg) in r.entries
      {
        assert Group(Home(u.ni, r.entries[u].nhgNI), r.entries[u].nhg) in Needs(u, r.entries[u]);
      }
      forall u, i | u in r.entries && u.Group? && i in r.entries[u].weights ensures Hop(u.ni, i) in r.entries {
        assert Hop(u.ni, i) in Needs(u, r.entries[u]);
      }
    }
  }

  /** With exact counters: a top-level entry can always be deleted; a group exactly while no
      route uses it and a next-hop while no group does; and neither with a zero key. */
  lemma DeletableIff(r: Rib, n: string, id: nat, key: TopKey)
    requires Exact(r) && n != ""
    ensures Deletable(r, Top(n, key))
    ensures Deletable(r, Group(n, id)) <==> id != 0 && (Group(n, id) in r.entries ==> RoutesTo(r.entries, n, id) == {})
    ensures Deletable(r, Hop(n, id)) <==> id != 0 && (Hop(n, id) in r.entries ==> GroupsWith(r.entries, n, id) == {})
  {
    ExactCounts(r, n, id);
  }

  /** A delete that goes ahead empties the slot that its payload names, and no other. */
  lemma DeleteEmpties(s: State, op: Op, ok: bool, s': State)
    requires DeleteStep(s, op, ok, s')
    ensures ok && op.entry.HopEntry? ==> Hop(op.ni, op.entry.index) !in s'.rib.entries
    ensures ok && op.entry.GroupEntry? ==> Group(op.ni, op.entry.id) !in s'.rib.entries
    ensures ok && op.entry.TopEntry? ==> Top(op.ni, op.entry.key) !in s'.rib.entries
    ensures forall t :: t != SlotOf(op) ==> At(s'.rib.entries, t) == At(s.rib.entries, t)
    ensures !ok ==> s' == s
  {
  }
}
