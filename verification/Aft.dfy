/** The contents of a RIB as a value: entries of the five tables under tagged keys,
    the references between them, and the operations that program them. */
module Aft {

  datatype Option<+T> = None | Some(value: T)

  const TWO_TO_THE_64 := 0x1_0000_0000_0000_0000

  type uint64 = x: int | 0 <= x < TWO_TO_THE_64

  /** An election ID, carried as two 64-bit words. */
  datatype Uint128 = Uint128(high: uint64, low: uint64)

  /** The key of a top-level entry: IPv4 prefix, IPv6 prefix or numeric MPLS label. */
  datatype TopKey = V4(prefix: string) | V6(prefix: string) | Label(value: nat)

  /** Where an entry lives: its network instance, its table and its key. */
  datatype Slot =
    | Top(ni: string, key: TopKey)
    | Group(ni: string, id: nat)
    | Hop(ni: string, index: nat)

  /** What is stored in a slot. */
  datatype Item =
    | Route(nhgNI: string, nhg: nat, meta: string)
    | NextHopGroup(weights: map<nat, nat>, backup: Option<nat>)
    | NextHop(addr: string, rest: string)

  type Entries = map<Slot, Item>

  /** The tables, by the name that requests give them. */
  datatype AftType = ALL | IPV4 | IPV6 | MPLS | NHG | NH

  function AftOf(t: Slot): AftType {
    match t
    case Top(_, V4(_)) => IPV4
    case Top(_, V6(_)) => IPV6
    case Top(_, Label(_)) => MPLS
    case Group(_, _) => NHG
    case Hop(_, _) => NH
  }

  /** The payload of an operation. A group lists its members, where the stored
      NextHopGroup maps them: only the list can mention a member twice. */
  datatype Entry =
    | TopEntry(key: TopKey, nhgNI: string, nhg: nat, meta: string)
    | GroupEntry(id: nat, members: seq<(nat, nat)>, backup: Option<nat>)
    | HopEntry(index: nat, addr: string, rest: string)

  datatype OpKind = Add | Replace | Delete

  datatype Op = Op(id: nat, kind: OpKind, ni: string, entry: Entry, elec: Option<Uint128>)

  /** The network instance a reference is resolved in: the entry's own when none is named. */
  function Home(ni: string, named: string): string {
    if named == "" then ni else named
  }

  function SlotOf(op: Op): Slot {
    match op.entry
    case TopEntry(key, _, _, _) => Top(op.ni, key)
    case GroupEntry(id, _, _) => Group(op.ni, id)
    case HopEntry(index, _, _) => Hop(op.ni, index)
  }

  function WeightMap(members: seq<(nat, nat)>): map<nat, nat> {
    if members == [] then map[]
    else
      var n := |members| - 1;
      WeightMap(members[..n])[members[n].0 := members[n].1]
  }

  function ItemOf(op: Op): Item {
    match op.entry
    case TopEntry(_, nhgNI, nhg, meta) => Route(nhgNI, nhg, meta)
    case GroupEntry(_, members, backup) => NextHopGroup(WeightMap(members), backup)
    case HopEntry(_, addr, rest) => NextHop(addr, rest)
  }

  /** The slots that the item x, stored in slot s, refers to. Backup groups are not
      among them: the RIB neither counts nor resolves those. */
  function Needs(s: Slot, x: Item): set<Slot> {
    if s.Top? && x.Route? then {Group(Home(s.ni, x.nhgNI), x.nhg)}
    else if s.Group? && x.NextHopGroup? then set i | i in x.weights :: Hop(s.ni, i)
    else {}
  }

  function Rank(s: Slot): nat {
    match s
    case Hop(_, _) => 0
    case Group(_, _) => 1
    case Top(_, _) => 2
  }

  /** Every slot of e whose entry refers to t. */
  ghost function Users(e: Entries, t: Slot): set<Slot> {
    set s | s in e && t in Needs(s, e[s])
  }

  /** Network instances, their entries, and the reference counters. A counter that
      is not in the map is zero. */
  datatype Rib = Rib(nis: set<string>, entries: Entries, refs: map<Slot, nat>)

  function At<K(==), V>(m: map<K, V>, k: K): Option<V> {
    if k in m then Some(m[k]) else None
  }

  function Cnt(refs: map<Slot, nat>, t: Slot): nat {
    if t in refs then refs[t] else 0
  }

  ghost predicate MentionsTwice(members: seq<(nat, nat)>) {
    exists i, j :: 0 <= i < j < |members| && members[i].0 == members[j].0
  }

  /** No member is listed twice. */
  ghost predicate DistinctMembers(op: Op) {
    op.entry.GroupEntry? ==> !MentionsTwice(op.entry.members)
  }

  /** How often a member list mentions index i. */
  function Mentions(members: seq<(nat, nat)>, i: nat): nat {
    if members == [] then 0
    else
      var n := |members| - 1;
      Mentions(members[..n], i) + if members[n].0 == i then 1 else 0
  }

  lemma {:induction false} MentionsIsMembership(members: seq<(nat, nat)>, i: nat)
    ensures Mentions(members, i) > 0 <==> i in WeightMap(members)
    ensures i in WeightMap(members) <==> exists j :: 0 <= j < |members| && members[j].0 == i
  {
    if members != [] {
      var n := |members| - 1;
      MentionsIsMembership(members[..n], i);
      assert members == members[..n] + [members[n]];
      if i in WeightMap(members[..n]) {
        var j :| 0 <= j < |members[..n]| && members[..n][j].0 == i;
        assert members[j].0 == i;
      } else if members[n].0 != i {
        forall j | 0 <= j < |members| ensures members[j].0 != i {
          if j < n { assert members[..n][j] == members[j]; }
        }
      }
    }
  }

  lemma {:induction false} MentionedTwice(members: seq<(nat, nat)>, i: nat)
    ensures Mentions(members, i) > 1 <==>
            exists j, k :: 0 <= j < k < |members| && members[j].0 == members[k].0 == i
  {
    if members != [] {
      var n := |members| - 1;
      var init := members[..n];
      MentionedTwice(init, i);
      MentionsIsMembership(init, i);
      if Mentions(init, i) > 1 {
        var j, k :| 0 <= j < k < |init| && init[j].0 == init[k].0 == i;
        assert members[j].0 == members[k].0 == i;
      } else if Mentions(members, i) > 1 {
        var j :| 0 <= j < |init| && init[j].0 == i;
        assert members[j].0 == members[n].0 == i;
      } else {
        forall j, k | 0 <= j < k < |members| ensures !(members[j].0 == members[k].0 == i) {
          assert init[j] == members[j];
          if k < n { assert init[k] == members[k]; }
        }
      }
    }
  }
}
