/** Rebuilding a RIB from the responses to a Get. */
module RibHelpers {
  import opened Aft
  import opened Engine
  import opened Payloads
  import opened Get
  import opened RibImpl

  /** A new RIB with the entries of the responses. Network instances come into being as
      they are mentioned. */
  method FromGetResponses(defaultName: string, responses: seq<seq<AFTEntry>>,
          disableForwardReferences: bool) returns (r: RIB)
    ensures fresh(r) && fresh(r.niRIB.Values) && r.Valid()
    ensures r.View() == State(Rebuilt(defaultName, Joined(responses)), map[])
    ensures forall ni :: ni in r.rib.nis <==> ni == defaultName || MentionsNI(responses, ni)
    ensures forall t :: t in r.rib.entries <==> HasEntryFor(responses, t)
    ensures forall k, j :: 0 <= k < |responses| && 0 <= j < |responses[k]| && LastThere(responses, k, j) ==>
      StoredAsSent(r.rib.entries, Op(0, Add, responses[k][j].ni, responses[k][j].entry, None))
  {
    RebuiltFrom(defaultName, responses);
    hide RIB.Valid;
    r := new RIB(defaultName, disableForwardReferences);
    var byNI := Gather(responses);
    ghost var msgs := Joined(responses);
    var todo := byNI.Keys;
    while todo != {}
      invariant todo <= byNI.Keys && fresh(r) && fresh(r.niRIB.Values)
      invariant r.Valid() && r.defaultName == defaultName && r.pending == map[] && r.hooks == map[]
      invariant Built(r.rib, defaultName, msgs, byNI.Keys - todo)
    {
      var ni :| ni in todo;
      BuiltMore(msgs, byNI.Keys, todo, ni);
      LoadInstance(r, ni, byNI[ni], msgs, byNI.Keys - todo);
      todo := todo - {ni};
    }
    BuiltAll(r.rib, defaultName, msgs, byNI.Keys - todo);
  }

  /** r has the entries of msgs in the network instances of done. */
  ghost predicate Built(r: Rib, defaultName: string, msgs: seq<AFTEntry>, done: set<string>) {
    r.refs == map[] && r.nis == {defaultName} + done && Loading(r.entries, msgs, done)
  }

  lemma BuiltMore(msgs: seq<AFTEntry>, all: set<string>, todo: set<string>, ni: string)
    requires todo <= all && ni in todo
    ensures all - (todo - {ni}) == all - todo + {ni}
    ensures forall m :: m in For(msgs, ni) ==> m.ni == ni
  {
    CollectedFor(msgs, ni);
  }

  lemma BuiltAll(r: Rib, defaultName: string, msgs: seq<AFTEntry>, done: set<string>)
    requires Built(r, defaultName, msgs, done) && done == NIs(msgs)
    ensures r == Rebuilt(defaultName, msgs)
  {
    LoadedAll(r.entries, msgs);
  }

  lemma BuiltStep(r: Rib, defaultName: string, msgs: seq<AFTEntry>, done: set<string>, ni: string, r': Rib)
    requires Built(r, defaultName, msgs, done)
    requires r' == Rib(r.nis + {ni}, Loaded(r.entries, ni, Collected(For(msgs, ni))), r.refs)
    ensures Built(r', defaultName, msgs, done + {ni})
  {
    LoadOne(r.entries, msgs, done, ni);
  }

  method LoadInstance(r: RIB, ni: string, es: seq<AFTEntry>, ghost msgs: seq<AFTEntry>, ghost done: set<string>)
    requires r.Valid() && r.hooks == map[]
    requires es == For(msgs, ni) && forall m :: m in es ==> m.ni == ni
    requires Built(r.rib, r.defaultName, msgs, done) && ni !in done
    modifies r`niRIB, r`rib, r.niRIB.Values
    ensures r.Valid() && fresh(r.niRIB.Values - old(r.niRIB.Values))
    ensures Built(r.rib, r.defaultName, msgs, done + {ni})
  {
    hide RIB.Valid;
    ghost var before := r.rib;
    EnsureInstance(r, ni);
    r.Load(ni, es);
    BuiltStep(before, r.defaultName, msgs, done, ni, r.rib);
  }

  method EnsureInstance(r: RIB, ni: string)
    requires r.Valid() && r.defaultName in r.rib.nis
    modifies r`niRIB, r`rib
    ensures r.Valid() && ni in r.niRIB
    ensures r.rib == old(r.rib).(nis := old(r.rib.nis) + {ni})
    ensures fresh(r.niRIB.Values - old(r.niRIB.Values))
  {
    if ni != r.defaultName {
      var _ := r.AddNetworkInstance(ni);
    } else {
      assert r.rib.nis + {ni} == r.rib.nis;
    }
  }

  method Gather(responses: seq<seq<AFTEntry>>) returns (byNI: map<string, seq<AFTEntry>>)
    ensures Gathered(byNI, Joined(responses))
  {
    byNI := map[];
    assert NIs([]) == {};
    for i := 0 to |responses|
      invariant Gathered(byNI, Joined(responses[..i]))
    {
      ghost var before := Joined(responses[..i]);
      assert responses[..i + 1][..i] == responses[..i];
      assert before + responses[i][..0] == before;
      for j := 0 to |responses[i]|
        invariant Gathered(byNI, before + responses[i][..j])
      {
        var m := responses[i][j];
        GatherOne(byNI, before + responses[i][..j], m);
        assert before + responses[i][..j] + [m] == before + responses[i][..j + 1];
        byNI := byNI[m.ni := (if m.ni in byNI then byNI[m.ni] else []) + [m]];
      }
      assert responses[i][..|responses[i]|] == responses[i];
    }
    assert responses[..|responses|] == responses;
  }
}
