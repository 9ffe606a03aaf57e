/** Client sessions of the server as interleaved atomic steps: what each critical section
    of the server does, and what all interleavings keep. */
module Sessions {
  import opened Aft
  import opened Election

  datatype Params = Params(persist: bool, expectElecID: bool, fibAck: bool)

  /** The parameters of a client that has sent none. */
  const DEFAULTS := Params(false, false, false)

  datatype ClientState = ClientState(params: Params, setParams: bool, lastElecID: Option<Uint128>)

  type Clients = map<string, ClientState>

  datatype Redundancy = AllPrimary | SinglePrimary
  datatype Persistence = DeleteOnExit | Preserve
  datatype AckType = RibAck | RibAndFibAck

  datatype SessionParameters = SessionParameters(redundancy: Redundancy, persistence: Persistence, ack: AckType)

  function ParamsOf(p: SessionParameters): Params {
    Params(p.persistence.Preserve?, p.redundancy.SinglePrimary?, p.ack.RibAndFibAck?)
  }

  datatype ParamsVerdict = ParamsOK | ModifyNotAllowed | UnsupportedParams | ParamsDiffer

  /** All other clients have the parameters p. */
  predicate ConsistentWith(cs: Clients, id: string, p: Params) {
    forall c :: c in cs && c != id ==> cs[c].params == p
  }

  function CheckParams(cs: Clients, id: string, p: SessionParameters, gotMsg: bool): ParamsVerdict {
    if gotMsg then ModifyNotAllowed
    else if p.redundancy.AllPrimary? then UnsupportedParams
    else if p.persistence.DeleteOnExit? then UnsupportedParams
    else if !ConsistentWith(cs, id, ParamsOf(p)) then ParamsDiffer
    else ParamsOK
  }

  /** The server, and how far the handler of each client has got: parameters that passed
      the check and are not set yet, parameters that are set and not marked so yet, and
      election IDs that are stored and not decided yet. */
  datatype Server = Server(
    cs: Clients, elected: Elected,
    started: set<string>, checked: map<string, Params>, setting: map<string, Params>,
    deciding: map<string, Uint128>, everConnected: set<string>)

  const INITIAL := Server(map[], Elected(None, ""), {}, map[], map[], map[], {})

  datatype Step =
    | NewClient(id: string)
    | DeleteClient(id: string)
    | FirstMessage(id: string)
    | Check(id: string, params: SessionParameters)
    | SetParams(id: string)
    | UpdateParams(id: string)
    | StoreElectionID(id: string, elecID: Uint128)
    | RunDecision(id: string)

  /** The handler of a client goes on after the client is deleted, and only finds out
      when it next looks the client up. */
  ghost predicate Next(s: Server, step: Step, s': Server) {
    match step
    case NewClient(id) =>
      && id != "" && id !in s.everConnected
      && s' == s.(cs := s.cs[id := ClientState(DEFAULTS, false, None)], everConnected := s.everConnected + {id})
    case DeleteClient(id) =>
      s' == s.(cs := s.cs - {id})
    case FirstMessage(id) =>
      id in s.everConnected && s' == s.(started := s.started + {id})
    case Check(id, p) =>
      && id in s.everConnected && id !in s.started
      && CheckParams(s.cs, id, p, false).ParamsOK?
      && s' == s.(started := s.started + {id}, checked := s.checked[id := ParamsOf(p)])
    case SetParams(id) =>
      && id in s.checked && id in s.cs
      && s' == s.(cs := s.cs[id := s.cs[id].(params := s.checked[id])],
                  checked := s.checked - {id}, setting := s.setting[id := s.checked[id]])
    case UpdateParams(id) =>
      && id in s.setting && id in s.cs && !s.cs[id].setParams
      && s' == s.(cs := s.cs[id := s.cs[id].(params := s.setting[id], setParams := true)],
                  setting := s.setting - {id})
    case StoreElectionID(id, e) =>
      && id in s.cs && s.cs[id].params.expectElecID && Value(e) != 0
      && id !in s.checked && id !in s.setting && id !in s.deciding
      && s' == s.(cs := s.cs[id := s.cs[id].(lastElecID := Some(e))], deciding := s.deciding[id := e])
    case RunDecision(id) =>
      && id in s.deciding
      && s' == s.(elected := Decide(s.elected, Vote(id, s.deciding[id])), deciding := s.deciding - {id})
  }

  /** A client is accepted once its parameters are set. */
  predicate Accepted(s: Server, id: string) {
    id in s.cs && s.cs[id].params != DEFAULTS
  }

  /** Nothing is known about clients that never connected, and one that has sent nothing
      still has the default parameters. */
  ghost predicate Tidy(s: Server) {
    && s.cs.Keys <= s.everConnected && s.started <= s.everConnected && "" !in s.everConnected
    && s.checked.Keys <= s.started && s.setting.Keys <= s.started && s.checked.Keys !! s.setting.Keys
    && s.deciding.Keys <= s.everConnected
    && (s.elected.master != "" ==> s.elected.master in s.everConnected && s.elected.id.Some?)
    && (forall id :: id in s.cs && id !in s.started ==> s.cs[id].params == DEFAULTS)
    && (forall id :: id in s.checked && id in s.cs ==> s.cs[id].params == DEFAULTS)
    && (forall id :: id in s.checked ==> s.checked[id] != DEFAULTS)
    && (forall id :: id in s.setting ==> s.setting[id] != DEFAULTS)
    && (forall id :: id in s.setting && id in s.cs ==> s.cs[id].params == s.setting[id])
    && (forall id :: id in s.cs && s.cs[id].setParams ==> s.cs[id].params != DEFAULTS)
  }

  /** Accepted clients agree, with each other and with the one that may be about to be
      accepted; of these there is at most one. */
  ghost predicate Agreement(s: Server) {
    && (forall a, b :: Accepted(s, a) && Accepted(s, b) ==> s.cs[a].params == s.cs[b].params)
    && (forall a, b :: a in s.checked && a in s.cs && Accepted(s, b) ==> s.checked[a] == s.cs[b].params)
    && (forall a, b :: a in s.checked && b in s.checked && a in s.cs && b in s.cs ==> a == b)
  }

  /** The latest ID of a client that has a decision to come is the one to be decided. */
  ghost predicate StoredIsLatest(s: Server) {
    forall id :: id in s.deciding && id in s.cs ==> s.cs[id].lastElecID == Some(s.deciding[id])
  }

  /** A connected master that has no decision to come never has a latest ID above the
      current one. */
  ghost predicate MasterNotAbove(s: Server) {
    var m := s.elected.master;
    m in s.cs && m !in s.deciding && s.cs[m].lastElecID.Some? ==>
      s.elected.id.Some? && Value(s.cs[m].lastElecID.value) <= Value(s.elected.id.value)
  }

  lemma StepKeepsTidy(s: Server, step: Step, s': Server)
    requires Tidy(s) && Next(s, step, s')
    ensures Tidy(s')
  {
  }

  /** While one client is between a passed check and its update, its default parameters
      make the check of every other client fail. */
  lemma CheckKeepsAgreement(s: Server, id: string, p: SessionParameters, s': Server)
    requires Tidy(s) && Agreement(s) && Next(s, Check(id, p), s')
    ensures Agreement(s')
  {
    assert ConsistentWith(s.cs, id, ParamsOf(p)) && ParamsOf(p) != DEFAULTS && s'.cs == s.cs;
    assert !Accepted(s, id);
    assert forall a :: a in s.checked && a in s.cs ==> s.cs[a].params == DEFAULTS;
  }

  lemma SetKeepsAgreement(s: Server, id: string, s': Server)
    requires Tidy(s) && Agreement(s) && Next(s, SetParams(id), s')
    ensures Agreement(s')
  {
    assert forall a :: a in s.checked && a in s.cs ==> a == id;
    forall a | Accepted(s', a) ensures s'.cs[a].params == s.checked[id] {
      assert a != id ==> Accepted(s, a);
    }
  }

  lemma OthersKeepAgreement(s: Server, step: Step, s': Server)
    requires Tidy(s) && Agreement(s) && Next(s, step, s') && !step.Check? && !step.SetParams?
    ensures Agreement(s')
  {
    assert s'.checked == s.checked;
    assert forall a :: Accepted(s', a) ==> Accepted(s, a) && s.cs[a].params == s'.cs[a].params;
    assert forall a :: a in s.checked && a in s'.cs ==> a in s.cs;
  }

  lemma StepKeepsAgreement(s: Server, step: Step, s': Server)
    requires Tidy(s) && Agreement(s) && Next(s, step, s')
    ensures Agreement(s')
  {
    match step
    case Check(id, p) => CheckKeepsAgreement(s, id, p, s');
    case SetParams(id) => SetKeepsAgreement(s, id, s');
    case _ => OthersKeepAgreement(s, step, s');
  }

  lemma StepKeepsElection(s: Server, step: Step, s': Server)
    requires Tidy(s) && StoredIsLatest(s) && MasterNotAbove(s) && Next(s, step, s')
    ensures StoredIsLatest(s') && MasterNotAbove(s')
  {
    if step.RunDecision? {
      IsNewMasterIff(s.deciding[step.id], s.elected.id);
    }
  }

  /** The states that the steps take a new server through. */
  ghost predicate IsRun(steps: seq<Step>, states: seq<Server>) {
    && |states| == |steps| + 1 && states[0] == INITIAL
    && forall i :: 0 <= i < |steps| ==> Next(states[i], steps[i], states[i + 1])
  }

  lemma {:induction false} RunInvariant(steps: seq<Step>, states: seq<Server>, k: nat)
    requires IsRun(steps, states) && k <= |steps|
    ensures Tidy(states[k]) && Agreement(states[k]) && StoredIsLatest(states[k]) && MasterNotAbove(states[k])
  {
    if k > 0 {
      RunInvariant(steps, states, k - 1);
      var s, step, s' := states[k - 1], steps[k - 1], states[k];
      assert Next(s, step, s');
      StepKeepsTidy(s, step, s');
      StepKeepsAgreement(s, step, s');
      StepKeepsElection(s, step, s');
    }
  }

  /** At any time, any two connected clients whose parameters were accepted have equal
      parameters, however their checks and updates interleave. */
  lemma ParametersAgree(steps: seq<Step>, states: seq<Server>, k: nat, a: string, b: string)
    requires IsRun(steps, states) && k <= |steps|
    requires a in states[k].cs && states[k].cs[a].setParams
    requires b in states[k].cs && states[k].cs[b].setParams
    ensures states[k].cs[a].params == states[k].cs[b].params
  {
    RunInvariant(steps, states, k);
    assert Accepted(states[k], a) && Accepted(states[k], b);
  }

  /** What a batch of operations from client id is checked against. */
  function Snapshot(s: Server, id: string): Details
    requires id in s.cs
  {
    Details(s.elected.master, s.elected.id, id, s.cs[id].lastElecID)
  }

  /** A handler that is not in the middle of an election never meets an operation whose ID
      is above the current one, and lets an operation through exactly if its client is
      the master and its ID both the client's latest and the current one. */
  lemma AdmissionSafe(steps: seq<Step>, states: seq<Server>, k: nat, id: string, opElec: Option<Uint128>)
    requires IsRun(steps, states) && k <= |steps|
    requires id in states[k].cs && id !in states[k].deciding
    ensures var a := CheckElectionForModify(opElec, Snapshot(states[k], id));
      && !a.FatalGreater?
      && (a.Admitted? <==> id == states[k].elected.master
                           && opElec.Some? && opElec == states[k].cs[id].lastElecID == states[k].elected.id)
  {
    RunInvariant(steps, states, k);
    GreaterNeeds(opElec, Snapshot(states[k], id));
    AdmittedIff(opElec, Snapshot(states[k], id));
  }

  /** The IDs decided upon so far, in order. */
  ghost function Votes(steps: seq<Step>, states: seq<Server>): seq<Vote>
    requires |states| == |steps| + 1
  {
    if steps == [] then []
    else
      var n := |steps| - 1;
      Votes(steps[..n], states[..n + 1]) +
      if steps[n].RunDecision? && steps[n].id in states[n].deciding
      then [Vote(steps[n].id, states[n].deciding[steps[n].id])] else []
  }

  /** However the handlers interleave, the master and the current ID are those of the
      sequence of decisions. */
  lemma {:induction false} ElectedByVotes(steps: seq<Step>, states: seq<Server>)
    requires IsRun(steps, states)
    ensures states[|steps|].elected == Elect(Votes(steps, states))
  {
    if steps != [] {
      var n := |steps| - 1;
      assert Next(states[n], steps[n], states[n + 1]);
      ElectedByVotes(steps[..n], states[..n + 1]);
      var before := Votes(steps[..n], states[..n + 1]);
      if steps[n].RunDecision? {
        var v := Vote(steps[n].id, states[n].deciding[steps[n].id]);
        assert (before + [v])[..|before|] == before;
      } else {
        assert before + [] == before;
      }
    }
  }

  /** On every run: the greatest ID decided upon is the current one, and the client that sent
      it last the master, if and only if no later decision was on an ID with a smaller high
      word and a larger low word. */
  lemma {:induction false} RunElectsGreatestIff(steps: seq<Step>, states: seq<Server>, k: nat)
    requires IsRun(steps, states) && LastOfGreatest(Votes(steps, states), k)
    ensures var votes := Votes(steps, states);
      states[|steps|].elected == Elected(Some(votes[k].id), votes[k].client) <==>
      forall i :: k < i < |votes| ==> !Undercuts(votes[i].id, votes[k].id)
  {
    ElectedByVotes(steps, states);
    GreatestElectedIff(Votes(steps, states), k);
  }

  /** So it is on every run whose IDs share one high word. */
  lemma {:induction false} RunElectsGreatest(steps: seq<Step>, states: seq<Server>, k: nat)
    requires IsRun(steps, states) && LastOfGreatest(Votes(steps, states), k) && OneHighWord(Votes(steps, states))
    ensures var votes := Votes(steps, states);
      states[|steps|].elected == Elected(Some(votes[k].id), votes[k].client)
  {
    RunElectsGreatestIff(steps, states, k);
  }

  // ---------------------------------------------------------------- undisturbed handlers

  /** A handler that nobody interrupts: an election is stored and then decided. */
  lemma ElectionUndisturbed(s: Server, id: string, e: Uint128) returns (mid: Server, s': Server)
    requires id in s.cs && s.cs[id].params.expectElecID && Value(e) != 0
    requires id !in s.checked && id !in s.setting && id !in s.deciding
    ensures Next(s, StoreElectionID(id, e), mid) && Next(mid, RunDecision(id), s')
    ensures s' == s.(cs := s.cs[id := s.cs[id].(lastElecID := Some(e))], elected := Decide(s.elected, Vote(id, e)))
  {
    mid := s.(cs := s.cs[id := s.cs[id].(lastElecID := Some(e))], deciding := s.deciding[id := e]);
    s' := mid.(elected := Decide(s.elected, Vote(id, e)), deciding := mid.deciding - {id});
    assert mid.deciding - {id} == s.deciding;
  }

  /** Parameters are checked, set, and then marked as set. */
  lemma ParamsUndisturbed(s: Server, id: string, p: SessionParameters) returns (mid1: Server, mid2: Server, s': Server)
    requires id in s.cs && id in s.everConnected && id !in s.started && !s.cs[id].setParams
    requires id !in s.checked && id !in s.setting && CheckParams(s.cs, id, p, false).ParamsOK?
    ensures Next(s, Check(id, p), mid1) && Next(mid1, SetParams(id), mid2) && Next(mid2, UpdateParams(id), s')
    ensures s' == s.(started := s.started + {id}, cs := s.cs[id := s.cs[id].(params := ParamsOf(p), setParams := true)])
  {
    var q := ParamsOf(p);
    mid1 := s.(started := s.started + {id}, checked := s.checked[id := q]);
    mid2 := mid1.(
      cs := s.cs[id := s.cs[id].(params := q)], checked := mid1.checked - {id}, setting := s.setting[id := q]);
    s' := mid2.(cs := mid2.cs[id := mid2.cs[id].(params := q, setParams := true)], setting := mid2.setting - {id});
    assert mid1.checked - {id} == s.checked && mid2.setting - {id} == s.setting;
  }

  /** A batch goes by the election that it found. While it lasts another client can be
      elected, and it still admits what it did; the next batch of its client does not. */
  lemma BatchOutlivesElection(s: Server, a: string, b: string, opElec: Option<Uint128>, e: Uint128)
    returns (batch: Details, mid: Server, s': Server)
    requires a in s.cs && CheckElectionForModify(opElec, Snapshot(s, a)).Admitted?
    requires b in s.cs && b != a && b != "" && s.cs[b].params.expectElecID
    requires b !in s.checked && b !in s.setting && b !in s.deciding
    requires Value(e) != 0 && IsNewMaster(e, s.elected.id)
    ensures batch == Snapshot(s, a) && CheckElectionForModify(opElec, batch).Admitted?
    ensures Next(s, StoreElectionID(b, e), mid) && Next(mid, RunDecision(b), s')
    ensures s'.elected == Elected(Some(e), b)
    ensures a in s'.cs && CheckElectionForModify(opElec, Snapshot(s', a)).Failed?
  {
    batch := Snapshot(s, a);
    mid, s' := ElectionUndisturbed(s, b, e);
  }
}
