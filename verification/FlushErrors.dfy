/** What Flush reports: it deletes backup groups first, once for each group that names
    one, and reports those that it does not find. */
module FlushErrors {
  import opened Aft
  import opened RefCounts
  import opened Engine

  /** The groups of ni that name a backup. */
  ghost function WithBackup(e: Entries, ni: string): set<Slot> {
    set t | t in e && t.Group? && t.ni == ni && e[t].NextHopGroup? && e[t].backup.Some?
  }

  function BackupOf(e: Entries, t: Slot): Slot {
    if t in e && e[t].NextHopGroup? && e[t].backup.Some? then Group(t.ni, e[t].backup.value) else t
  }

  /** The backups of the groups of ts, as far as they exist. */
  ghost function Backups(e: Entries, ts: set<Slot>): set<Slot> {
    set t | t in ts && BackupOf(e, t) in e :: BackupOf(e, t)
  }

  /** The errors of flushing ni: how many groups name a backup, less how many distinct
      backups there are. */
  ghost function ErrorCount(e: Entries, ni: string): int {
    |WithBackup(e, ni)| - |Backups(e, WithBackup(e, ni))|
  }

  ghost predicate DistinctBackups(e: Entries, ts: set<Slot>) {
    && (forall t :: t in ts ==> BackupOf(e, t) in e)
    && (forall t, u :: t in ts && u in ts && t != u ==> BackupOf(e, t) != BackupOf(e, u))
  }

  lemma BackupsStep(e: Entries, ts: set<Slot>, t: Slot)
    requires t in ts
    ensures var b := BackupOf(e, t);
      Backups(e, ts) == if b in e then Backups(e, ts - {t}) + {b} else Backups(e, ts - {t})
  {
  }

  lemma {:induction false} BackupsAtMost(e: Entries, ts: set<Slot>)
    ensures |Backups(e, ts)| <= |ts|
    ensures |Backups(e, ts)| == |ts| <==> DistinctBackups(e, ts)
    decreases ts
  {
    if ts != {} {
      var t :| t in ts;
      var rest := ts - {t};
      BackupsAtMost(e, rest);
      var b := BackupOf(e, t);
      BackupsStep(e, ts, t);
      if b in Backups(e, rest) {
        var u :| u in rest && BackupOf(e, u) in e && BackupOf(e, u) == b;
      }
    }
  }

  /** Flushing ni reports nothing if and only if the backups named in it are distinct
      and exist. */
  lemma NoErrorsIff(e: Entries, ni: string)
    ensures ErrorCount(e, ni) >= 0
    ensures ErrorCount(e, ni) == 0 <==> DistinctBackups(e, WithBackup(e, ni))
  {
    BackupsAtMost(e, WithBackup(e, ni));
  }

  ghost function TotalErrors(e: Entries, nis: seq<string>): int {
    if nis == [] then 0
    else TotalErrors(e, nis[..|nis| - 1]) + ErrorCount(e, nis[|nis| - 1])
  }

  /** The slots of ni in the table of the given rank. */
  ghost function TableOf(e: Entries, ni: string, rank: nat): set<Slot> {
    set t | t in e && t.ni == ni && Rank(t) == rank
  }

  /** The members of bs that are in e. */
  ghost function Present(e: Entries, bs: seq<Slot>): set<Slot> {
    set b | b in bs && b in e
  }

  /** One more listed slot is one more that is present, unless it is not or was listed. */
  lemma PresentStep(e: Entries, bs: seq<Slot>, i: nat)
    requires i < |bs|
    ensures |Present(e, bs[..i + 1])| == |Present(e, bs[..i])| + if bs[i] in e && bs[i] !in bs[..i] then 1 else 0
  {
    var before, b := Present(e, bs[..i]), bs[i];
    assert bs[..i + 1] == bs[..i] + [b];
    assert Present(e, bs[..i + 1]) == if b in e then before + {b} else before;
    assert b in before <==> b in e && b in bs[..i];
  }

  /** The backups that the groups of ts name. */
  ghost function Named(e: Entries, ts: set<Slot>): set<Slot> {
    set t | t in ts :: BackupOf(e, t)
  }

  lemma NamedStep(e: Entries, ts: set<Slot>, t: Slot)
    ensures Named(e, ts + {t}) == Named(e, ts) + {BackupOf(e, t)}
  {
  }

  lemma NamedPresent(e: Entries, ts: set<Slot>, bs: seq<Slot>)
    requires (set b | b in bs) == Named(e, ts)
    ensures Present(e, bs) == Backups(e, ts)
  {
    forall b ensures b in Present(e, bs) <==> b in Backups(e, ts) {
      assert b in bs <==> b in Named(e, ts);
    }
  }

  /** bs lists the backups that the groups of ni name, todo being left to look at. */
  ghost predicate Listing(e: Entries, ni: string, todo: set<Slot>, bs: seq<Slot>) {
    && todo <= TableOf(e, ni, 1)
    && |bs| == |WithBackup(e, ni) - todo|
    && (set b | b in bs) == Named(e, WithBackup(e, ni) - todo)
  }

  lemma ListingStarts(e: Entries, ni: string)
    ensures Listing(e, ni, TableOf(e, ni, 1), [])
  {
    assert WithBackup(e, ni) - TableOf(e, ni, 1) == {};
  }

  lemma ListingStep(e: Entries, ni: string, todo: set<Slot>, bs: seq<Slot>, t: Slot)
    requires Listing(e, ni, todo, bs) && t in todo
    ensures Listing(e, ni, todo - {t}, if t in WithBackup(e, ni) then bs + [BackupOf(e, t)] else bs)
  {
    var seen := WithBackup(e, ni) - todo;
    if t in WithBackup(e, ni) {
      assert WithBackup(e, ni) - (todo - {t}) == seen + {t};
      NamedStep(e, seen, t);
      var bs' := bs + [BackupOf(e, t)];
      assert (set b | b in bs') == (set b | b in bs) + {BackupOf(e, t)};
    } else {
      assert WithBackup(e, ni) - (todo - {t}) == seen;
    }
  }

  lemma ListingEnds(e: Entries, ni: string, bs: seq<Slot>)
    requires Listing(e, ni, {}, bs)
    ensures |bs| == |WithBackup(e, ni)| && Present(e, bs) == Backups(e, WithBackup(e, ni))
    ensures forall b :: b in bs ==> b.ni == ni
  {
    assert WithBackup(e, ni) - {} == WithBackup(e, ni);
    NamedPresent(e, WithBackup(e, ni), bs);
    forall b | b in bs ensures b.ni == ni { assert b in Named(e, WithBackup(e, ni)); }
  }

  /** Entries outside a network instance do not affect its count. */
  lemma ErrorsAreLocal(e: Entries, e': Entries, ni: string)
    requires forall t: Slot :: t.ni == ni ==> At(e, t) == At(e', t)
    ensures ErrorCount(e, ni) == ErrorCount(e', ni)
  {
    forall t: Slot | t.ni == ni ensures t in e <==> t in e' ensures t in e ==> e[t] == e'[t] {
      assert At(e, t) == At(e', t);
    }
    assert WithBackup(e, ni) == WithBackup(e', ni);
    assert Backups(e, WithBackup(e, ni)) == Backups(e', WithBackup(e', ni));
  }

  /** Deleting the top-level entries of ni leaves its groups, and so its errors, alone. */
  lemma TopsDoNotMatter(r: Rib, ni: string, order: seq<Slot>)
    requires forall t :: t in order <==> t in TableOf(r.entries, ni, 2)
    ensures ErrorCount(RemoveAll(r, order).entries, ni) == ErrorCount(r.entries, ni)
  {
    RemoveAllEffect(r, order);
    var e := RemoveAll(r, order).entries;
    assert WithBackup(e, ni) == WithBackup(r.entries, ni);
    forall t | t in WithBackup(e, ni)
      ensures BackupOf(e, t) == BackupOf(r.entries, t)
      ensures BackupOf(e, t) in e <==> BackupOf(e, t) in r.entries
    {
      assert BackupOf(e, t).Group?;
    }
    assert Backups(e, WithBackup(e, ni)) == Backups(r.entries, WithBackup(r.entries, ni));
  }

  /** The four stages of flushing ni, put together. */
  lemma FlushOrder(r: Rib, ni: string, o2: seq<Slot>, bs: seq<Slot>, o1: seq<Slot>, o0: seq<Slot>)
    returns (order: seq<Slot>)
    requires forall t :: t in o2 <==> t in TableOf(r.entries, ni, 2)
    requires forall t :: t in bs ==> t.ni == ni
    requires forall t :: t in o1 <==> t in TableOf(RemoveAll(RemoveAll(r, o2), bs).entries, ni, 1)
    requires forall t :: t in o0 <==> t in TableOf(RemoveAll(RemoveAll(RemoveAll(r, o2), bs), o1).entries, ni, 0)
    ensures order == o2 + bs + o1 + o0
    ensures RemoveAll(r, order) == RemoveAll(RemoveAll(RemoveAll(RemoveAll(r, o2), bs), o1), o0)
    ensures forall t :: t in order ==> t.ni == ni
    ensures forall t :: t in r.entries && t.ni == ni ==> t in order
  {
    order := o2 + bs + o1 + o0;
    RemoveAllConcat(r, o2, bs);
    RemoveAllConcat(r, o2 + bs, o1);
    RemoveAllConcat(r, o2 + bs + o1, o0);
    RemoveAllEffect(r, o2 + bs);
    RemoveAllEffect(r, o2 + bs + o1);
  }

  /** r is r0 after its first i network instances were flushed in the given order. */
  ghost predicate Flushing(r0: Rib, nis: seq<string>, i: nat, order: seq<Slot>, r: Rib) {
    && i <= |nis|
    && r == RemoveAll(r0, order)
    && (forall t :: t in order ==> t.ni in nis[..i])
    && (forall t :: t in r0.entries && t.ni in nis[..i] ==> t in order)
  }

  /** What the next network instance will report is what it would have at the start. */
  lemma FlushingKeepsErrors(r0: Rib, nis: seq<string>, i: nat, order: seq<Slot>, r: Rib)
    requires Flushing(r0, nis, i, order, r) && i < |nis| && nis[i] !in nis[..i]
    ensures ErrorCount(r.entries, nis[i]) == ErrorCount(r0.entries, nis[i])
  {
    RemoveAllEffect(r0, order);
    ErrorsAreLocal(r0.entries, r.entries, nis[i]);
  }

  lemma FlushingStep(r0: Rib, nis: seq<string>, i: nat, order: seq<Slot>, r: Rib, o: seq<Slot>, r': Rib)
    requires Flushing(r0, nis, i, order, r) && i < |nis| && nis[i] !in nis[..i]
    requires r' == RemoveAll(r, o)
    requires forall t :: t in o ==> t.ni == nis[i]
    requires forall t :: t in r.entries && t.ni == nis[i] ==> t in o
    ensures Flushing(r0, nis, i + 1, order + o, r')
  {
    RemoveAllConcat(r0, order, o);
    RemoveAllEffect(r0, order);
    assert nis[..i + 1] == nis[..i] + [nis[i]];
    assert forall t :: t in order + o <==> t in order || t in o;
  }

  /** Flushing several network instances reports nothing if and only if the backups named
      in each of them are distinct and exist. */
  lemma {:induction false} NothingReportedIff(e: Entries, nis: seq<string>)
    ensures TotalErrors(e, nis) >= 0
    ensures TotalErrors(e, nis) == 0 <==> forall ni :: ni in nis ==> DistinctBackups(e, WithBackup(e, ni))
  {
    if nis != [] {
      var n := |nis| - 1;
      NothingReportedIff(e, nis[..n]);
      NoErrorsIff(e, nis[n]);
      assert nis == nis[..n] + [nis[n]];
    }
  }

  /** Group i of ni is there and names b as its backup. */
  ghost predicate Names(e: Entries, ni: string, i: nat, b: nat) {
    var t := Group(ni, i);
    t in e && e[t].NextHopGroup? && e[t].backup == Some(b)
  }

  /** The backups that groups of ni name are there, and no two groups name the same one. */
  ghost predicate BackupsInOrder(e: Entries, ni: string) {
    && (forall i, b :: Names(e, ni, i, b) ==> Group(ni, b) in e)
    && (forall i, j, b :: Names(e, ni, i, b) && Names(e, ni, j, b) ==> i == j)
  }

  lemma InOrderIff(e: Entries, ni: string)
    ensures DistinctBackups(e, WithBackup(e, ni)) <==> BackupsInOrder(e, ni)
  {
    var ts := WithBackup(e, ni);
    forall i, b ensures Names(e, ni, i, b) <==> Group(ni, i) in ts && BackupOf(e, Group(ni, i)) == Group(ni, b) { }
    if BackupsInOrder(e, ni) {
      forall t | t in ts ensures BackupOf(e, t) in e { assert Names(e, ni, t.id, e[t].backup.value); }
      forall t, u | t in ts && u in ts && t != u ensures BackupOf(e, t) != BackupOf(e, u) {
        assert t == Group(ni, t.id) && u == Group(ni, u.id);
        assert Names(e, ni, t.id, e[t].backup.value) && Names(e, ni, u.id, e[u].backup.value);
      }
    }
  }

  /** Which flushes report nothing, in terms of the entries. */
  lemma SilentIff(e: Entries, nis: seq<string>)
    ensures TotalErrors(e, nis) == 0 <==> forall ni :: ni in nis ==> BackupsInOrder(e, ni)
  {
    NothingReportedIff(e, nis);
    forall ni ensures DistinctBackups(e, WithBackup(e, ni)) <==> BackupsInOrder(e, ni) { InOrderIff(e, ni); }
  }

  /** The groups of ni that are there and that another, or the group itself, names. */
  ghost function NamedGroups(e: Entries, ni: string): set<Slot> {
    set t | t in e && t.Group? && t.ni == ni && exists i :: Names(e, ni, i, t.id)
  }

  /** The errors of ni are as many as its groups that name a backup, but for one for each
      group that is there and is named. */
  lemma ErrorCountIs(e: Entries, ni: string)
    ensures ErrorCount(e, ni) == |WithBackup(e, ni)| - |NamedGroups(e, ni)|
    ensures forall t :: t in WithBackup(e, ni) <==> t.Group? && t.ni == ni && exists b :: Names(e, ni, t.id, b)
  {
    forall t: Slot
      ensures t in WithBackup(e, ni) <==> t.Group? && t.ni == ni && exists b :: Names(e, ni, t.id, b)
    {
      if t in WithBackup(e, ni) { assert Names(e, ni, t.id, e[t].backup.value); }
    }
    forall t ensures t in NamedGroups(e, ni) <==> t in Backups(e, WithBackup(e, ni)) {
      if t in NamedGroups(e, ni) {
        var i :| Names(e, ni, i, t.id);
        assert BackupOf(e, Group(ni, i)) == t;
      }
      if t in Backups(e, WithBackup(e, ni)) {
        var u :| u in WithBackup(e, ni) && BackupOf(e, u) == t;
        assert Names(e, ni, u.id, t.id);
      }
    }
    assert NamedGroups(e, ni) == Backups(e, WithBackup(e, ni));
  }

  /** Flushing every network instance leaves nothing behind, not even a count. */
  lemma FlushEverything(s: State, fwd: bool, order: seq<Slot>, s': State)
    requires Inv(s, fwd) && Exact(s.rib) && FlushStep(s, s.rib.nis, order, s')
    ensures s'.rib.entries == map[] && forall t :: Cnt(s'.rib.refs, t) == 0
    ensures s'.pending == s.pending
  {
    FlushKeepsInv(s, fwd, s.rib.nis, order, s');
    assert forall t :: t in s.rib.entries ==> LegitEntry(s.rib.nis, t, s.rib.entries[t]);
    assert s'.rib.entries == map[];
    assert forall t :: Users(map[], t) == {};
  }
}
