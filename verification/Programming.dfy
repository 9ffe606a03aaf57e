/** From programming a next-hop, a group and a route to what the route's prefix resolves to. */
module Programming {
  import opened Aft
  import opened RefCounts
  import opened Engine
  import opened Payloads
  import opened Retry
  import opened Replay
  import opened RibImpl
  import opened AftHelper

  /** Adds op to a RIB where nothing is queued. */
  method AddOne(rib: RIB, op: Op)
    requires rib.Valid() && QueueOK(rib.View(), rib.fwd) && rib.pending == map[] && Installable(rib.rib, op)
    modifies rib`rib, rib`pending, rib.niRIB.Values
    ensures rib.Valid() && QueueOK(rib.View(), rib.fwd) && rib.pending == map[]
    ensures rib.rib == Apply(old(rib.rib), op)
  {
    hide RIB.Kept;
    ghost var s := rib.View();
    var err, oks, fails, _ := rib.AddEntry(op);
    hide Installable, Installs;
    assert AddStep(s, rib.fwd, op, oks, fails, rib.View());
    OnlyItself(s, op, oks, fails, rib.View());
  }

  /** A next-hop, a group that weighs it, and a route to the group: the prefix resolves to
      the address of the next-hop with that weight, and to nothing else. */
  method ProgramAndResolve(rib: RIB, hop: Op, group: Op, route: Op) returns (res: Resolution)
    requires rib.Valid() && QueueOK(rib.View(), rib.fwd) && rib.pending == map[]
    requires Linked(hop, group, route, 0) && |group.entry.members| == 1
    requires hop.kind == group.kind == route.kind == Add
    requires group.ni != "" && group.ni in rib.rib.nis && route.ni != "" && route.ni in rib.rib.nis
    requires hop.entry.index != 0 && group.entry.id != 0 && hop.entry.addr != "" && !route.entry.key.Label?
    modifies rib`rib, rib`pending, rib.niRIB.Values
    ensures var a := hop.entry.addr;
      res == Resolved(map[a := Summary(group.entry.members[0].1, a, group.ni, hop.entry.index)])
  {
    hide RIB.Valid, Apply, QueueOK, Installable;
    ghost var r0 := rib.rib;
    Prepared(r0, hop, group, route);
    AddOne(rib, hop);
    AddOne(rib, group);
    AddOne(rib, route);
    var contents := rib.RIBContents();
    res := NextHopAddrsForPrefix(contents, route.ni, Some(route.entry.key));
    OneAddress(contents, hop, group, route, res);
  }

  lemma Prepared(r: Rib, hop: Op, group: Op, route: Op)
    requires Linked(hop, group, route, 0) && |group.entry.members| == 1
    requires hop.kind == group.kind == route.kind == Add
    requires group.ni != "" && group.ni in r.nis && route.ni != "" && route.ni in r.nis
    requires hop.entry.index != 0 && group.entry.id != 0
    ensures Installable(r, hop) && Installable(Apply(r, hop), group)
    ensures Installable(Apply(Apply(r, hop), group), route)
    ensures var r' := Apply(Apply(Apply(r, hop), group), route);
      && r'.nis == r.nis
      && StoredAsSent(r'.entries, hop) && StoredAsSent(r'.entries, group) && StoredAsSent(r'.entries, route)
  {
    var r1, r2 := Apply(r, hop), Apply(Apply(r, hop), group);
    ApplyStores(r, hop);
    ApplyStores(r1, group);
    ApplyStores(r2, route);
    StoredStays(r1.entries, r2.entries, hop);
    StoredStays(r2.entries, Apply(r2, route).entries, hop);
    StoredStays(r2.entries, Apply(r2, route).entries, group);
    hide Installable, Apply, RefsAfter;
    HopInstallableIff(r, hop);
    GroupInstallableIff(r1, group);
    RouteInstallableIff(r2, route);
  }

  lemma OnlyWeight(weights: map<nat, nat>, members: seq<(nat, nat)>)
    requires WeighedAs(weights, members) && |members| == 1
    ensures weights == map[members[0].0 := members[0].1]
  {
  }

  lemma OnlyHop(r: Rib, ni: string, i: nat, weight: nat, res: Resolution)
    requires HopsOutcome(r, ni, map[i := weight], res) && Address(r, ni, i) != ""
    ensures var a := Address(r, ni, i);
      res == Resolved(map[a := Summary(weight, a, ni, i)])
  {
    var a := Address(r, ni, i);
    hide Address;
    assert res.hops.Keys == {a} && res.hops[a] == Summary(weight, a, ni, i);
  }

  lemma OneAddress(r: Rib, hop: Op, group: Op, route: Op, res: Resolution)
    requires Linked(hop, group, route, 0) && |group.entry.members| == 1 && group.ni in r.nis
    requires StoredAsSent(r.entries, hop) && StoredAsSent(r.entries, group) && StoredAsSent(r.entries, route)
    requires hop.entry.addr != "" && Outcome(r, route.ni, route.entry.key, res)
    ensures var a := hop.entry.addr;
      res == Resolved(map[a := Summary(group.entry.members[0].1, a, group.ni, hop.entry.index)])
  {
    OnlyWeight(r.entries[Group(group.ni, group.entry.id)].weights, group.entry.members);
    hide WeighedAs, HopsOutcome;
    OnlyHop(r, group.ni, hop.entry.index, group.entry.members[0].1, res);
  }
}
