/** From what a table stores back to the payload that a message carries. */
module Concrete {
  import opened Aft
  import opened Engine
  import opened Payloads

  /** Whether x is the kind of item that slot t holds. */
  predicate Fits(t: Slot, x: Item) {
    match t
    case Top(_, _) => x.Route?
    case Group(_, _) => x.NextHopGroup?
    case Hop(_, _) => x.NextHop?
  }

  /** Every entry is of the kind that its slot holds, in a known network instance. */
  ghost predicate WellKept(r: Rib) {
    forall t :: t in r.entries ==> t.ni in r.nis && Fits(t, r.entries[t])
  }

  lemma LegitIsWellKept(r: Rib)
    requires Legit(r)
    ensures WellKept(r)
  {
    forall t | t in r.entries ensures t.ni in r.nis && Fits(t, r.entries[t]) {
      assert LegitEntry(r.nis, t, r.entries[t]);
    }
  }

  /** The slots of ni in table a. */
  function InTable(e: Entries, ni: string, a: AftType): set<Slot> {
    set t | t in e && t.ni == ni && AftOf(t) == a
  }

  /** The slots that a table has, by the name of the table. */
  predicate TableHas(a: AftType, t: Slot) {
    match a
    case ALL => true
    case IPV4 => t.Top? && t.key.V4?
    case IPV6 => t.Top? && t.key.V6?
    case MPLS => t.Top? && t.key.Label?
    case NHG => t.Group?
    case NH => t.Hop?
  }

  const TABLES := [IPV4, IPV6, MPLS, NHG, NH]

  /** The slots of ni in the first k tables. */
  function UpTo(e: Entries, ni: string, k: nat): set<Slot> {
    set t | t in e && t.ni == ni && AftOf(t) in TABLES[..if k < 5 then k else 5]
  }

  lemma UpToStep(e: Entries, ni: string, k: nat)
    requires k < 5
    ensures UpTo(e, ni, k + 1) == UpTo(e, ni, k) + InTable(e, ni, TABLES[k])
    ensures UpTo(e, ni, k) !! InTable(e, ni, TABLES[k])
  {
    assert TABLES[..k + 1] == TABLES[..k] + [TABLES[k]];
  }

  lemma UpToAll(e: Entries, ni: string)
    ensures UpTo(e, ni, 0) == {}
    ensures UpTo(e, ni, 5) == set t | t in e && t.ni == ni
  {
    forall t: Slot ensures AftOf(t) in TABLES[..5] {
      assert TABLES[0] == IPV4 && TABLES[1] == IPV6 && TABLES[2] == MPLS && TABLES[3] == NHG && TABLES[4] == NH;
    }
  }

  /** The members of a group as a list, in no fixed order. */
  method ListMembers(weights: map<nat, nat>) returns (members: seq<(nat, nat)>)
    ensures WeightMap(members) == weights && !MentionsTwice(members)
  {
    members := [];
    var todo := weights.Keys;
    while todo != {}
      invariant todo <= weights.Keys && !MentionsTwice(members)
      invariant WeightMap(members) == map i | i in weights && i !in todo :: weights[i]
      invariant forall j :: 0 <= j < |members| ==> members[j].0 !in todo
    {
      var i :| i in todo;
      todo := todo - {i};
      assert (members + [(i, weights[i])])[..|members|] == members;
      members := members + [(i, weights[i])];
    }
    assert weights == map i | i in weights && i !in todo :: weights[i];
  }

  /** The operation that does to slot t what kind says, with the contents x. */
  method BuildOp(kind: OpKind, id: nat, t: Slot, x: Item) returns (op: Op)
    requires Fits(t, x)
    ensures op.id == id && op.kind == kind && SlotOf(op) == t && ItemOf(op) == x && DistinctMembers(op)
    ensures op.ni == t.ni && StoredAsSent(map[t := x], op)
  {
    match t {
    case Top(ni, key) => op := Op(id, kind, ni, TopEntry(key, x.nhgNI, x.nhg, x.meta), None);
    case Group(ni, gid) =>
      var members := ListMembers(x.weights);
      op := Op(id, kind, ni, GroupEntry(gid, members, x.backup), None);
    case Hop(ni, index) => op := Op(id, kind, ni, HopEntry(index, x.addr, x.rest), None);
    }
    SlotStoredAsSent(map[t := x], op);
  }
}
