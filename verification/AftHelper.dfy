/** Resolving a prefix, through its next-hop-group, to weighted next-hop addresses. */
module AftHelper {
  import opened Aft
  import opened Engine
  import opened Payloads

  datatype Summary = Summary(weight: nat, address: string, networkInstance: string, index: nat)

  datatype Unresolved =
    | UnknownInstance
    | InvalidPrefix
    | NoSuchPrefix
    | UnknownTarget
    | UnknownGroup
    | InvalidNextHop(index: nat)

  datatype Resolution = Resolved(hops: map<string, Summary>) | Failed(reason: Unresolved)

  /** The address of a next-hop; the empty string if there is no such next-hop. */
  function Address(r: Rib, ni: string, i: nat): string {
    if Hop(ni, i) in r.entries && r.entries[Hop(ni, i)].NextHop? then r.entries[Hop(ni, i)].addr else ""
  }

  /** s is the summary of one of the indices, which has address a. */
  ghost predicate Stands(r: Rib, ni: string, weights: map<nat, nat>, indices: set<nat>, a: string, s: Summary) {
    && s.index in indices && s.index in weights && Address(r, ni, s.index) == a
    && s == Summary(weights[s.index], a, ni, s.index)
  }

  /** hops has the summaries of the next-hops of indices, keyed by address. Where addresses
      collide it has one of them. */
  ghost predicate Summarises(r: Rib, ni: string, weights: map<nat, nat>, indices: set<nat>,
          hops: map<string, Summary>) {
    && indices <= weights.Keys
    && (forall i :: i in indices ==> Address(r, ni, i) != "" && Address(r, ni, i) in hops)
    && (forall a :: a in hops ==> Stands(r, ni, weights, indices, a, hops[a]))
  }

  /** The group that the prefix names, and where it is. */
  function GroupOf(r: Rib, netInst: string, key: TopKey): Option<Slot> {
    var x: Option<Item> := At(r.entries, Top(netInst, key));
    if x.Some? && x.value.Route? then Some(Group(Home(netInst, x.value.nhgNI), x.value.nhg)) else None
  }

  /** key is what the prefix parses to, if it is valid. */
  method NextHopAddrsForPrefix(r: Rib, netInst: string, key: Option<TopKey>) returns (res: Resolution)
    requires key.Some? ==> !key.value.Label?
    ensures res == Failed(UnknownInstance) <==> netInst !in r.nis
    ensures res == Failed(InvalidPrefix) <==> netInst in r.nis && key.None?
    ensures netInst in r.nis && key.Some? ==> Outcome(r, netInst, key.value, res)
  {
    if netInst !in r.nis { return Failed(UnknownInstance); }
    if key.None? { return Failed(InvalidPrefix); }
    var g := GroupOf(r, netInst, key.value);
    if g.None? { return Failed(NoSuchPrefix); }
    if g.value.ni !in r.nis { return Failed(UnknownTarget); }
    var group := At(r.entries, g.value);
    if group.None? || !group.value.NextHopGroup? { return Failed(UnknownGroup); }
    res := SummariseHops(r, g.value.ni, group.value.weights);
  }

  ghost predicate Outcome(r: Rib, netInst: string, key: TopKey, res: Resolution) {
    match GroupOf(r, netInst, key)
    case None => res == Failed(NoSuchPrefix)
    case Some(g) =>
      var x: Option<Item> := At(r.entries, g);
      if g.ni !in r.nis then res == Failed(UnknownTarget)
      else if x.None? || !x.value.NextHopGroup? then res == Failed(UnknownGroup)
      else HopsOutcome(r, g.ni, x.value.weights, res)
  }

  /** All next-hops have an address and are summarised, or one that does not is named. */
  ghost predicate HopsOutcome(r: Rib, ni: string, weights: map<nat, nat>, res: Resolution) {
    match res
    case Resolved(hops) => Summarises(r, ni, weights, weights.Keys, hops)
    case Failed(reason) => reason.InvalidNextHop? && reason.index in weights && Address(r, ni, reason.index) == ""
  }

  method SummariseHops(r: Rib, ni: string, weights: map<nat, nat>) returns (res: Resolution)
    ensures HopsOutcome(r, ni, weights, res)
  {
    var hops: map<string, Summary> := map[];
    var todo := weights.Keys;
    while todo != {}
      invariant todo <= weights.Keys && Summarises(r, ni, weights, weights.Keys - todo, hops)
    {
      var i :| i in todo;
      todo := todo - {i};
      var a := Address(r, ni, i);
      if a == "" { return Failed(InvalidNextHop(i)); }
      hops := hops[a := Summary(weights[i], a, ni, i)];
    }
    assert weights.Keys - todo == weights.Keys;
    return Resolved(hops);
  }

  /** Where every reference resolves, a prefix that is there can only fail to resolve
      because a next-hop of its group, which is there too, has no address. */
  lemma ClosedResolves(r: Rib, netInst: string, key: TopKey, res: Resolution)
    requires Legit(r) && Closed(r)
    requires Top(netInst, key) in r.entries && Outcome(r, netInst, key, res)
    ensures res.Failed? ==>
      var g := GroupOf(r, netInst, key).value;
      && res.reason.InvalidNextHop? && Hop(g.ni, res.reason.index) in r.entries
      && r.entries[Hop(g.ni, res.reason.index)].addr == ""
    ensures res.Resolved? ==>
      var g := GroupOf(r, netInst, key).value;
      && g in r.entries && res.hops.Keys == (set i | i in r.entries[g].weights :: Address(r, g.ni, i))
  {
    var t := Top(netInst, key);
    assert LegitEntry(r.nis, t, r.entries[t]);
    var g := GroupOf(r, netInst, key).value;
    assert g in Needs(t, r.entries[t]) && LegitEntry(r.nis, g, r.entries[g]);
    if res.Failed? {
      var h := Hop(g.ni, res.reason.index);
      assert h in Needs(g, r.entries[g]) && LegitEntry(r.nis, h, r.entries[h]);
    }
  }

  /** Member j of group is the next-hop that hop programs, and route names the group. */
  ghost predicate Linked(hop: Op, group: Op, route: Op, j: nat) {
    && hop.entry.HopEntry? && group.entry.GroupEntry? && route.entry.TopEntry?
    && hop.ni == group.ni && j < |group.entry.members| && group.entry.members[j].0 == hop.entry.index
    && (forall k :: j < k < |group.entry.members| ==> group.entry.members[k].0 != hop.entry.index)
    && route.entry.nhg == group.entry.id
    && group.ni == if route.entry.nhgNI == "" then route.ni else route.entry.nhgNI
  }

  /** What was sent is what a prefix resolves to: the address of each next-hop of its group,
      with the weight that the group gives it. It fails only for a next-hop of the group that
      is not there or has no address. */
  lemma SentIsResolved(r: Rib, hop: Op, group: Op, route: Op, j: nat, res: Resolution)
    requires Linked(hop, group, route, j) && group.ni in r.nis
    requires StoredAsSent(r.entries, hop) && StoredAsSent(r.entries, group) && StoredAsSent(r.entries, route)
    requires Outcome(r, route.ni, route.entry.key, res)
    ensures res.Resolved? ==> hop.entry.addr != "" && hop.entry.addr in res.hops
    ensures res.Resolved? && SoleAddress(r, hop, group) ==>
      res.hops[hop.entry.addr] == Summary(group.entry.members[j].1, hop.entry.addr, group.ni, hop.entry.index)
    ensures res.Failed? ==>
      && res.reason.InvalidNextHop?
      && (exists k :: 0 <= k < |group.entry.members| && group.entry.members[k].0 == res.reason.index)
      && (var t := Hop(group.ni, res.reason.index);
          t in r.entries && r.entries[t].NextHop? ==> r.entries[t].addr == "")
  {
  }

  /** No other member of group has the address of hop. */
  ghost predicate SoleAddress(r: Rib, hop: Op, group: Op)
    requires hop.entry.HopEntry? && group.entry.GroupEntry?
  {
    forall k :: 0 <= k < |group.entry.members| && group.entry.members[k].0 != hop.entry.index ==>
      var t := Hop(group.ni, group.entry.members[k].0);
      !(t in r.entries && r.entries[t].NextHop? && r.entries[t].addr == hop.entry.addr)
  }

  /** What comes of a prefix, in terms of the entries: a prefix that is not there, a group in
      a network instance that is not known, a group that is not there, and a next-hop that is
      not there or has no address are each an error of their own. Otherwise the addresses are
      those of the next-hops of the group, each with the weight of a next-hop that has it. */
  lemma OutcomeIs(r: Rib, netInst: string, key: TopKey, res: Resolution)
    requires Outcome(r, netInst, key, res)
    ensures var t := Top(netInst, key);
      if !(t in r.entries && r.entries[t].Route?) then res == Failed(NoSuchPrefix)
      else
        var n := if r.entries[t].nhgNI == "" then netInst else r.entries[t].nhgNI;
        var g := Group(n, r.entries[t].nhg);
        if n !in r.nis then res == Failed(UnknownTarget)
        else if !(g in r.entries && r.entries[g].NextHopGroup?) then res == Failed(UnknownGroup)
        else Summed(r.entries, n, r.entries[g].weights, res)
  {
  }

  /** Next-hop i of network instance n has address a, which is not empty. */
  ghost predicate HasAddress(e: Entries, n: string, i: nat, a: string) {
    a != "" && Hop(n, i) in e && e[Hop(n, i)].NextHop? && e[Hop(n, i)].addr == a
  }

  ghost predicate Summed(e: Entries, n: string, weights: map<nat, nat>, res: Resolution) {
    match res
    case Failed(InvalidNextHop(i)) => i in weights && forall a :: !HasAddress(e, n, i, a)
    case Failed(_) => false
    case Resolved(hops) =>
      && (forall i :: i in weights ==> exists a :: a in hops && HasAddress(e, n, i, a))
      && (forall a :: a in hops ==>
            var s := hops[a];
            && s.address == a && s.networkInstance == n && HasAddress(e, n, s.index, a)
            && s.index in weights && s.weight == weights[s.index])
  }

  // ---------------------------------------------------------------- weights

  ghost function Total<K>(m: map<K, nat>): nat {
    if m == map[] then 0
    else
      var k :| k in m;
      m[k] + Total(m - {k})
  }

  lemma {:induction false} TotalWithout<K>(m: map<K, nat>, k: K)
    requires k in m
    ensures Total(m) == m[k] + Total(m - {k})
    decreases m.Keys
  {
    var k0 :| k0 in m && Total(m) == m[k0] + Total(m - {k0});
    if k0 != k {
      TotalWithout(m - {k0}, k);
      TotalWithout(m - {k}, k0);
      assert m - {k0} - {k} == m - {k} - {k0};
    }
  }

  ghost function Weights(hops: map<string, Summary>): map<string, nat> {
    map a | a in hops :: hops[a].weight
  }

  ghost predicate DistinctAddresses(r: Rib, ni: string, indices: set<nat>) {
    forall i, j :: i in indices && j in indices && i != j ==> Address(r, ni, i) != Address(r, ni, j)
  }

  lemma WeightOf(hops: map<string, Summary>, a: string)
    requires a in hops
    ensures Total(Weights(hops)) == hops[a].weight + Total(Weights(hops - {a}))
    ensures |hops| == |hops - {a}| + 1
  {
    TotalWithout(Weights(hops), a);
    assert Weights(hops - {a}) == Weights(hops) - {a};
    assert (hops - {a}).Keys == hops.Keys - {a};
  }

  /** Without index i, which no other shares its address with. */
  lemma WithoutSole(r: Rib, ni: string, weights: map<nat, nat>, hops: map<string, Summary>, i: nat)
    requires Summarises(r, ni, weights, weights.Keys, hops)
    requires i in weights && forall j :: j in weights && j != i ==> Address(r, ni, j) != Address(r, ni, i)
    ensures Summarises(r, ni, weights - {i}, (weights - {i}).Keys, hops - {Address(r, ni, i)})
    ensures Address(r, ni, i) in hops && hops[Address(r, ni, i)].weight == weights[i]
  {
    var a, rest := Address(r, ni, i), weights - {i};
    assert Stands(r, ni, weights, weights.Keys, a, hops[a]);
    forall b | b in hops - {a} ensures Stands(r, ni, rest, rest.Keys, b, hops[b]) {
      assert Stands(r, ni, weights, weights.Keys, b, hops[b]);
    }
  }

  /** Without index i, whose address j has as well. */
  lemma WithoutShared(r: Rib, ni: string, weights: map<nat, nat>, hops: map<string, Summary>, i: nat, j: nat)
    returns (hops': map<string, Summary>)
    requires Summarises(r, ni, weights, weights.Keys, hops)
    requires i in weights && j in weights && i != j && Address(r, ni, i) == Address(r, ni, j)
    ensures Summarises(r, ni, weights - {i}, (weights - {i}).Keys, hops')
    ensures Total(Weights(hops)) <= weights[i] + Total(Weights(hops'))
  {
    var a, rest := Address(r, ni, i), weights - {i};
    assert Stands(r, ni, weights, weights.Keys, a, hops[a]);
    hops' := if hops[a].index == i then hops[a := Summary(weights[j], a, ni, j)] else hops;
    forall b | b in hops' ensures Stands(r, ni, rest, rest.Keys, b, hops'[b]) {
      assert Stands(r, ni, weights, weights.Keys, b, hops[b]);
    }
    WeightOf(hops, a);
    WeightOf(hops', a);
    assert hops' - {a} == hops - {a};
  }

  /** The summaries never weigh more than the group, and just as much when no two of its
      next-hops share an address. */
  lemma {:induction false} WeightPreserved(r: Rib, ni: string, weights: map<nat, nat>, hops: map<string, Summary>)
    requires Summarises(r, ni, weights, weights.Keys, hops)
    ensures Total(Weights(hops)) <= Total(weights)
    ensures DistinctAddresses(r, ni, weights.Keys) ==> Total(Weights(hops)) == Total(weights) && |hops| == |weights|
    decreases weights.Keys
  {
    if weights == map[] {
      NoSummaries(r, ni, hops);
    } else {
      var i :| i in weights;
      TotalWithout(weights, i);
      assert (weights - {i}).Keys == weights.Keys - {i};
      if j :| j in weights && j != i && Address(r, ni, j) == Address(r, ni, i) {
        var hops' := WithoutShared(r, ni, weights, hops, i, j);
        WeightPreserved(r, ni, weights - {i}, hops');
      } else {
        WithoutSole(r, ni, weights, hops, i);
        WeightOf(hops, Address(r, ni, i));
        WeightPreserved(r, ni, weights - {i}, hops - {Address(r, ni, i)});
      }
    }
  }

  lemma NoSummaries(r: Rib, ni: string, hops: map<string, Summary>)
    requires Summarises(r, ni, map[], {}, hops)
    ensures hops == map[] && Weights(hops) == map[]
  {
    assert forall a :: a in hops ==> Stands(r, ni, map[], {}, a, hops[a]);
    assert forall a :: a !in hops;
  }
}
