/** What a Get returns, and the RIB that is rebuilt from it. */
module Get {
  import opened Aft
  import opened RefCounts
  import opened Engine
  import opened Payloads
  import opened Concrete
  import opened Tables

  datatype AFTEntry = AFTEntry(ni: string, entry: Entry)

  /** The operation that would add e. */
  function AsOp(e: AFTEntry): Op {
    Op(0, Add, e.ni, e.entry, None)
  }

  function Place(e: AFTEntry): Slot { SlotOf(AsOp(e)) }

  function Content(e: AFTEntry): Item { ItemOf(AsOp(e)) }

  ghost function Places(msgs: seq<AFTEntry>): set<Slot> {
    set m | m in msgs :: Place(m)
  }

  ghost predicate DistinctPlaces(msgs: seq<AFTEntry>) {
    forall i, j :: 0 <= i < j < |msgs| ==> Place(msgs[i]) != Place(msgs[j])
  }

  /** msgs has the entries of the slots ts, each once, and no others. */
  ghost predicate Lists(e: Entries, ts: set<Slot>, msgs: seq<AFTEntry>) {
    && DistinctPlaces(msgs) && Places(msgs) == ts
    && forall m :: m in msgs ==> At(e, Place(m)) == Some(Content(m))
  }

  lemma ListsNothing(e: Entries)
    ensures Lists(e, {}, [])
  {
    assert Places([]) == {};
  }

  lemma PlacesConcat(a: seq<AFTEntry>, b: seq<AFTEntry>)
    ensures Places(a + b) == Places(a) + Places(b)
  {
    assert forall m :: m in a + b <==> m in a || m in b;
  }

  lemma ListsConcat(e: Entries, ts: set<Slot>, a: seq<AFTEntry>, us: set<Slot>, b: seq<AFTEntry>)
    requires Lists(e, ts, a) && Lists(e, us, b) && ts !! us
    ensures Lists(e, ts + us, a + b)
  {
    PlacesConcat(a, b);
    forall i, j | 0 <= i < |a| && 0 <= j < |b| ensures Place(a[i]) != Place(b[j]) {
      assert a[i] in a && Place(a[i]) in Places(a) && b[j] in b && Place(b[j]) in Places(b);
    }
    forall i, j | 0 <= i < j < |a + b| ensures Place((a + b)[i]) != Place((a + b)[j]) {
      assert i >= |a| ==> Place(b[i - |a|]) != Place(b[j - |a|]);
    }
  }

  /** msgs lists the slots of all that are not left to do. */
  lemma ListsMore(e: Entries, all: set<Slot>, todo: set<Slot>, msgs: seq<AFTEntry>, m: AFTEntry)
    requires todo <= all && Lists(e, all - todo, msgs)
    requires Place(m) in todo && At(e, Place(m)) == Some(Content(m))
    ensures Lists(e, all - (todo - {Place(m)}), msgs + [m])
  {
    assert m in [m];
    ListsConcat(e, all - todo, msgs, {Place(m)}, [m]);
    assert all - (todo - {Place(m)}) == all - todo + {Place(m)};
  }

  predicate Wants(filter: map<AftType, bool>, a: AftType) {
    (ALL in filter && filter[ALL]) || (a in filter && filter[a])
  }

  /** The slots of ni in the tables that the filter selects. */
  function Wanted(e: Entries, ni: string, filter: map<AftType, bool>): set<Slot> {
    set t | t in e && t.ni == ni && Wants(filter, AftOf(t))
  }

  /** A filter selects the tables that it maps to true, and all of them if that is ALL. */
  lemma WantedIff(e: Entries, ni: string, filter: map<AftType, bool>, t: Slot)
    ensures t in Wanted(e, ni, filter) <==>
      t in e && t.ni == ni && exists a :: a in filter && filter[a] && TableHas(a, t)
  {
    if a :| a in filter && filter[a] && TableHas(a, t) { assert a == ALL || a == AftOf(t); }
    if Wants(filter, AftOf(t)) {
      assert TableHas(AftOf(t), t);
      assert ALL in filter && filter[ALL] ==> TableHas(ALL, t);
    }
  }

  lemma OneTable(a: AftType, t: Slot)
    ensures Wants(map[a := true], AftOf(t)) <==> TableHas(a, t)
  {
  }

  /** What a listing says about each entry that it lists. */
  lemma ListedAsStored(e: Entries, ts: set<Slot>, msgs: seq<AFTEntry>)
    requires Lists(e, ts, msgs)
    ensures forall m :: m in msgs ==>
      StoredAsSent(e, Op(0, Add, m.ni, m.entry, None)) && Place(m) in ts && m.ni == Place(m).ni
    ensures forall t :: t in ts ==> exists m :: m in msgs && Place(m) == t
  {
    forall m | m in msgs ensures StoredAsSent(e, AsOp(m)) { SlotStoredAsSent(e, AsOp(m)); }
  }

  lemma FilteredAsNamed(e: Entries, ni: string, filter: map<AftType, bool>, msgs: seq<AFTEntry>)
    requires Lists(e, Wanted(e, ni, filter), msgs)
    ensures forall m :: m in msgs ==> m.ni == ni && StoredAsSent(e, Op(0, Add, m.ni, m.entry, None))
    ensures forall t, a :: t in e && t.ni == ni && a in filter && filter[a] && TableHas(a, t) ==>
      exists m :: m in msgs && Place(m) == t
    ensures forall m :: m in msgs ==> exists a :: a in filter && filter[a] && TableHas(a, Place(m))
  {
    ListedAsStored(e, Wanted(e, ni, filter), msgs);
    forall t ensures t in Wanted(e, ni, filter) <==>
      t in e && t.ni == ni && exists a :: a in filter && filter[a] && TableHas(a, t)
    {
      WantedIff(e, ni, filter, t);
    }
  }

  /** Those in the first k tables. */
  function WantedIn(e: Entries, ni: string, filter: map<AftType, bool>, k: nat): set<Slot> {
    set t | t in UpTo(e, ni, k) && Wants(filter, AftOf(t))
  }

  lemma WantedStep(e: Entries, ni: string, filter: map<AftType, bool>, k: nat)
    requires k < 5
    ensures WantedIn(e, ni, filter, k + 1) ==
            WantedIn(e, ni, filter, k) + if Wants(filter, TABLES[k]) then InTable(e, ni, TABLES[k]) else {}
    ensures WantedIn(e, ni, filter, k) !! InTable(e, ni, TABLES[k])
  {
    UpToStep(e, ni, k);
  }

  lemma WantedUpTo(e: Entries, ni: string, filter: map<AftType, bool>)
    ensures WantedIn(e, ni, filter, 0) == {}
    ensures WantedIn(e, ni, filter, 5) == Wanted(e, ni, filter)
  {
    UpToAll(e, ni);
  }

  // ---------------------------------------------------------------- rebuilding

  /** The entries of msgs; a later one replaces an earlier one in the same slot. */
  function Collected(msgs: seq<AFTEntry>): Entries {
    if msgs == [] then map[]
    else
      var n := |msgs| - 1;
      Collected(msgs[..n])[Place(msgs[n]) := Content(msgs[n])]
  }

  function NIs(msgs: seq<AFTEntry>): set<string> {
    set m | m in msgs :: m.ni
  }

  /** The RIB that is built from msgs. Its counters are not filled in. */
  function Rebuilt(defaultName: string, msgs: seq<AFTEntry>): Rib {
    Rib({defaultName} + NIs(msgs), Collected(msgs), map[])
  }

  lemma {:induction false} CollectedListed(e: Entries, msgs: seq<AFTEntry>)
    requires forall m :: m in msgs ==> At(e, Place(m)) == Some(Content(m))
    ensures forall t :: At(Collected(msgs), t) == if t in Places(msgs) then At(e, t) else None
  {
    if msgs != [] {
      var n := |msgs| - 1;
      assert msgs == msgs[..n] + [msgs[n]];
      PlacesConcat(msgs[..n], [msgs[n]]);
      CollectedListed(e, msgs[..n]);
      assert Places([msgs[n]]) == {Place(msgs[n])};
    }
  }

  /** Whatever the order in which the entries of r come, rebuilding restores them all;
      what it does not restore are network instances without entries, other than the
      default one. */
  lemma RoundTrip(r: Rib, defaultName: string, msgs: seq<AFTEntry>)
    requires Lists(r.entries, r.entries.Keys, msgs)
    ensures Rebuilt(defaultName, msgs).entries == r.entries
    ensures Rebuilt(defaultName, msgs).nis == {defaultName} + set t | t in r.entries :: t.ni
    ensures |msgs| == |r.entries|
  {
    CollectedListed(r.entries, msgs);
    EntriesEqual(Collected(msgs), r.entries);
    NIsOfPlaces(msgs);
    PlacesCount(msgs);
  }

  lemma EntriesEqual(a: Entries, b: Entries)
    requires forall t :: At(a, t) == At(b, t)
    ensures a == b
  {
    forall t | t in a || t in b ensures t in a && t in b && a[t] == b[t] {
      assert At(a, t) == At(b, t);
    }
  }

  lemma NIsOfPlaces(msgs: seq<AFTEntry>)
    ensures NIs(msgs) == set t | t in Places(msgs) :: t.ni
  {
    forall m | m in msgs ensures m.ni in set t | t in Places(msgs) :: t.ni {
      assert Place(m) in Places(msgs) && Place(m).ni == m.ni;
    }
  }

  lemma {:induction false} PlacesCount(msgs: seq<AFTEntry>)
    requires DistinctPlaces(msgs)
    ensures |msgs| == |Places(msgs)|
  {
    if msgs != [] {
      var n := |msgs| - 1;
      PlacesCount(msgs[..n]);
      LastIsNew(msgs);
    }
  }

  lemma LastIsNew(msgs: seq<AFTEntry>)
    requires DistinctPlaces(msgs) && msgs != []
    ensures var n := |msgs| - 1;
      Places(msgs) == Places(msgs[..n]) + {Place(msgs[n])} && Place(msgs[n]) !in Places(msgs[..n])
  {
    var n := |msgs| - 1;
    assert msgs == msgs[..n] + [msgs[n]];
  }

  /** The rebuilt counters are right only if nothing refers to anything; in any other
      case what is referred to can be deleted all the same. */
  lemma RebuiltCounters(r: Rib, defaultName: string, msgs: seq<AFTEntry>)
    requires Lists(r.entries, r.entries.Keys, msgs)
    ensures Exact(Rebuilt(defaultName, msgs)) <==> forall t :: t in r.entries ==> Needs(t, r.entries[t]) == {}
    ensures forall t :: !ZeroSlot(t) ==> Deletable(Rebuilt(defaultName, msgs), t)
  {
    RoundTrip(r, defaultName, msgs);
    var r' := Rebuilt(defaultName, msgs);
    if Exact(r') {
      forall t | t in r.entries ensures Needs(t, r.entries[t]) == {} {
        forall u ensures u !in Needs(t, r.entries[t]) {
          assert Cnt(r'.refs, u) == |Users(r'.entries, u)|;
          assert t in Users(r'.entries, u) <==> u in Needs(t, r.entries[t]);
        }
      }
    } else {
      var u :| Cnt(r'.refs, u) != |Users(r'.entries, u)|;
      var t :| t in Users(r'.entries, u);
    }
  }

  // ---------------------------------------------------------------- by network instance

  /** The messages for one network instance, in order. */
  function For(msgs: seq<AFTEntry>, ni: string): seq<AFTEntry> {
    if msgs == [] then []
    else
      var n := |msgs| - 1;
      For(msgs[..n], ni) + if msgs[n].ni == ni then [msgs[n]] else []
  }

  lemma {:induction false} CollectedFor(msgs: seq<AFTEntry>, ni: string)
    ensures forall m :: m in For(msgs, ni) ==> m.ni == ni
    ensures forall t :: At(Collected(For(msgs, ni)), t) == if t.ni == ni then At(Collected(msgs), t) else None
  {
    if msgs != [] {
      var n := |msgs| - 1;
      CollectedFor(msgs[..n], ni);
      var before := For(msgs[..n], ni);
      if msgs[n].ni == ni {
        assert (before + [msgs[n]])[..|before|] == before;
        assert For(msgs, ni) == before + [msgs[n]];
      } else {
        assert For(msgs, ni) == before;
      }
      forall t ensures At(Collected(For(msgs, ni)), t) == if t.ni == ni then At(Collected(msgs), t) else None {
        assert At(Collected(before), t) == if t.ni == ni then At(Collected(msgs[..n]), t) else None;
      }
    }
  }

  /** The entries of all responses, in order. */
  function Joined(responses: seq<seq<AFTEntry>>): seq<AFTEntry> {
    if responses == [] then []
    else Joined(responses[..|responses| - 1]) + responses[|responses| - 1]
  }

  /** No response has an entry for the same slot after entry j of response k. */
  ghost predicate LastThere(responses: seq<seq<AFTEntry>>, k: nat, j: nat)
    requires k < |responses| && j < |responses[k]|
  {
    forall l, i :: k <= l < |responses| && 0 <= i < |responses[l]| && (l == k ==> j < i) ==>
      Place(responses[l][i]) != Place(responses[k][j])
  }

  /** Some response mentions network instance ni. */
  ghost predicate MentionsNI(responses: seq<seq<AFTEntry>>, ni: string) {
    exists k, m :: 0 <= k < |responses| && m in responses[k] && m.ni == ni
  }

  /** Some response has an entry for t. */
  ghost predicate HasEntryFor(responses: seq<seq<AFTEntry>>, t: Slot) {
    exists k, m :: 0 <= k < |responses| && m in responses[k] && Place(m) == t
  }

  lemma {:induction false} JoinedElements(responses: seq<seq<AFTEntry>>, m: AFTEntry)
    ensures m in Joined(responses) <==> exists k :: 0 <= k < |responses| && m in responses[k]
  {
    if responses != [] {
      var n := |responses| - 1;
      JoinedElements(responses[..n], m);
      if m in Joined(responses[..n]) {
        var k :| 0 <= k < n && m in responses[..n][k];
        assert m in responses[k];
      }
      if k :| 0 <= k < |responses| && m in responses[k] { assert k < n ==> responses[..n][k] == responses[k]; }
    }
  }

  lemma {:induction false} CollectedConcat(a: seq<AFTEntry>, b: seq<AFTEntry>, t: Slot)
    ensures At(Collected(a + b), t) == if t in Places(b) then At(Collected(b), t) else At(Collected(a), t)
  {
    hide Place, Content;
    if b == [] {
      assert a + b == a;
    } else {
      var n := |b| - 1;
      CollectedConcat(a, b[..n], t);
      assert (a + b)[..|a + b| - 1] == a + b[..n];
      assert b == b[..n] + [b[n]];
      PlacesConcat(b[..n], [b[n]]);
      assert Places([b[n]]) == {Place(b[n])};
    }
  }

  lemma {:induction false} CollectedLast(msgs: seq<AFTEntry>, j: nat)
    requires j < |msgs| && forall i :: j < i < |msgs| ==> Place(msgs[i]) != Place(msgs[j])
    ensures At(Collected(msgs), Place(msgs[j])) == Some(Content(msgs[j]))
  {
    var n := |msgs| - 1;
    if j < n {
      CollectedLast(msgs[..n], j);
      assert Place(msgs[n]) != Place(msgs[j]);
    }
  }

  lemma {:induction false} JoinedLast(responses: seq<seq<AFTEntry>>, k: nat, j: nat)
    requires k < |responses| && j < |responses[k]| && LastThere(responses, k, j)
    ensures At(Collected(Joined(responses)), Place(responses[k][j])) == Some(Content(responses[k][j]))
  {
    var n := |responses| - 1;
    var init, last, m := responses[..n], responses[n], responses[k][j];
    CollectedConcat(Joined(init), last, Place(m));
    if k == n {
      CollectedLast(last, j);
      assert m in last;
    } else {
      forall l, i | k <= l < n && 0 <= i < |init[l]| && (l == k ==> j < i) ensures Place(init[l][i]) != Place(m) {
        assert Place(responses[l][i]) != Place(m);
      }
      JoinedLast(init, k, j);
      forall i | 0 <= i < |last| ensures Place(last[i]) != Place(m) { assert Place(responses[n][i]) != Place(m); }
    }
  }

  lemma {:induction false} CollectedKeys(msgs: seq<AFTEntry>)
    ensures Collected(msgs).Keys == Places(msgs)
  {
    if msgs != [] {
      var n := |msgs| - 1;
      CollectedKeys(msgs[..n]);
      assert msgs == msgs[..n] + [msgs[n]];
      PlacesConcat(msgs[..n], [msgs[n]]);
      assert Places([msgs[n]]) == {Place(msgs[n])};
    }
  }

  lemma RebuiltKeys(defaultName: string, responses: seq<seq<AFTEntry>>)
    ensures var r := Rebuilt(defaultName, Joined(responses));
      && (forall ni :: ni in r.nis <==> ni == defaultName || MentionsNI(responses, ni))
      && (forall t :: t in r.entries <==> HasEntryFor(responses, t))
  {
    var msgs := Joined(responses);
    CollectedKeys(msgs);
    forall m ensures m in msgs <==> exists k :: 0 <= k < |responses| && m in responses[k] {
      JoinedElements(responses, m);
    }
    hide Joined, Collected, Place, Content;
    forall ni | MentionsNI(responses, ni) ensures ni in NIs(msgs) {
      var k, m :| 0 <= k < |responses| && m in responses[k] && m.ni == ni;
    }
    forall t | HasEntryFor(responses, t) ensures t in Places(msgs) {
      var k, m :| 0 <= k < |responses| && m in responses[k] && Place(m) == t;
    }
  }

  /** What rebuilding takes from the responses: every entry of every one of them, the last
      for each slot, and no other entries; and the network instances that they mention. */
  lemma RebuiltFrom(defaultName: string, responses: seq<seq<AFTEntry>>)
    ensures var r := Rebuilt(defaultName, Joined(responses));
      && (forall ni :: ni in r.nis <==> ni == defaultName || MentionsNI(responses, ni))
      && (forall t :: t in r.entries <==> HasEntryFor(responses, t))
      && (forall k, j :: 0 <= k < |responses| && 0 <= j < |responses[k]| && LastThere(responses, k, j) ==>
            StoredAsSent(r.entries, Op(0, Add, responses[k][j].ni, responses[k][j].entry, None)))
  {
    RebuiltKeys(defaultName, responses);
    hide Joined, Collected, StoredAsSent, LastThere, Place, Content, MentionsNI, HasEntryFor, NIs;
    forall k, j | 0 <= k < |responses| && 0 <= j < |responses[k]| && LastThere(responses, k, j)
      ensures StoredAsSent(Collected(Joined(responses)), Op(0, Add, responses[k][j].ni, responses[k][j].entry, None))
    {
      JoinedLast(responses, k, j);
      StoredMessage(Collected(Joined(responses)), responses[k][j]);
    }
  }

  lemma StoredMessage(e: Entries, m: AFTEntry)
    requires At(e, Place(m)) == Some(Content(m))
    ensures StoredAsSent(e, Op(0, Add, m.ni, m.entry, None))
  {
    SlotStoredAsSent(e, AsOp(m));
  }

  /** byNI has the entries of msgs, by network instance. */
  ghost predicate Gathered(byNI: map<string, seq<AFTEntry>>, msgs: seq<AFTEntry>) {
    byNI.Keys == NIs(msgs) && forall ni :: ni in byNI ==> byNI[ni] == For(msgs, ni)
  }

  lemma GatherOne(byNI: map<string, seq<AFTEntry>>, msgs: seq<AFTEntry>, m: AFTEntry)
    requires Gathered(byNI, msgs)
    ensures Gathered(byNI[m.ni := (if m.ni in byNI then byNI[m.ni] else []) + [m]], msgs + [m])
  {
    var all := msgs + [m];
    assert all[..|msgs|] == msgs;
    assert forall x :: x in all <==> x in msgs || x == m;
    if m.ni !in byNI { ForNone(msgs, m.ni); }
    forall ni | ni in NIs(msgs) && ni != m.ni ensures For(all, ni) == byNI[ni] {
      assert For(msgs, ni) + [] == For(msgs, ni);
    }
  }

  lemma {:induction false} ForNone(msgs: seq<AFTEntry>, ni: string)
    requires ni !in NIs(msgs)
    ensures For(msgs, ni) == []
  {
    if msgs != [] {
      var n := |msgs| - 1;
      assert msgs[n] in msgs;
      ForNone(msgs[..n], ni);
    }
  }

  /** v has the tables that es describe. */
  ghost predicate Describes(v: Tables, ni: string, es: seq<AFTEntry>) {
    forall t :: At(Collected(es), t) == if t.ni == ni then Find(v, t) else None
  }

  lemma DescribesMore(v: Tables, ni: string, es: seq<AFTEntry>, i: nat)
    requires i < |es| && es[i].ni == ni && Describes(v, ni, es[..i])
    ensures Describes(Put(v, Place(es[i]), Content(es[i])), ni, es[..i + 1])
  {
    assert es[..i + 1][..i] == es[..i];
    var v' := Put(v, Place(es[i]), Content(es[i]));
    forall t ensures At(Collected(es[..i + 1]), t) == if t.ni == ni then Find(v', t) else None {
      assert At(Collected(es[..i]), t) == if t.ni == ni then Find(v, t) else None;
    }
  }

  // ---------------------------------------------------------------- copying

  /** c has the entries of e in the network instances of done. */
  ghost predicate Copied(c: Entries, e: Entries, done: set<string>) {
    forall t :: At(c, t) == if t.ni in done then At(e, t) else None
  }

  lemma CopiedMore(c: Entries, e: Entries, done: set<string>, ni: string, more: Entries)
    requires Copied(c, e, done)
    requires forall t :: At(more, t) == if t.ni == ni then At(e, t) else None
    ensures Copied(c + more, e, done + {ni})
  {
    forall t ensures At(c + more, t) == if t.ni in done + {ni} then At(e, t) else None {
      assert At(c, t) == if t.ni in done then At(e, t) else None;
      assert At(more, t) == if t.ni == ni then At(e, t) else None;
    }
  }

  lemma CopiedAll(c: Entries, e: Entries, done: set<string>)
    requires Copied(c, e, done) && forall t :: t in e ==> t.ni in done
    ensures c == e
  {
    forall t ensures At(c, t) == At(e, t) { assert At(c, t) == if t.ni in done then At(e, t) else None; }
    EntriesEqual(c, e);
  }

  // ---------------------------------------------------------------- loading a network instance

  /** e with the contents of ni replaced by c. */
  function Loaded(e: Entries, ni: string, c: Entries): Entries {
    (map t | t in e && t.ni != ni :: e[t]) + c
  }

  /** e has what msgs say about the network instances of done, and nothing else. */
  ghost predicate Loading(e: Entries, msgs: seq<AFTEntry>, done: set<string>) {
    forall t :: At(e, t) == if t.ni in done then At(Collected(msgs), t) else None
  }

  lemma LoadOne(e: Entries, msgs: seq<AFTEntry>, done: set<string>, ni: string)
    requires Loading(e, msgs, done)
    ensures Loading(Loaded(e, ni, Collected(For(msgs, ni))), msgs, done + {ni})
  {
    CollectedFor(msgs, ni);
    var c := Collected(For(msgs, ni));
    forall t ensures At(Loaded(e, ni, c), t) == if t.ni in done + {ni} then At(Collected(msgs), t) else None {
      assert At(c, t) == if t.ni == ni then At(Collected(msgs), t) else None;
      assert At(e, t) == if t.ni in done then At(Collected(msgs), t) else None;
    }
  }

  lemma LoadedAll(e: Entries, msgs: seq<AFTEntry>)
    requires Loading(e, msgs, NIs(msgs))
    ensures e == Collected(msgs)
  {
    CollectedNIs(msgs);
    forall t ensures At(e, t) == At(Collected(msgs), t) { }
    EntriesEqual(e, Collected(msgs));
  }

  lemma {:induction false} CollectedNIs(msgs: seq<AFTEntry>)
    ensures forall t :: t in Collected(msgs) ==> t.ni in NIs(msgs)
  {
    if msgs != [] {
      var n := |msgs| - 1;
      CollectedNIs(msgs[..n]);
      assert msgs == msgs[..n] + [msgs[n]];
    }
  }
}
