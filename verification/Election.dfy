/** Electing a master among clients, and admitting operations from it. */
module Election {
  import opened Aft

  /** The 128-bit number that the two words stand for. */
  function Value(u: Uint128): nat {
    u.high * TWO_TO_THE_64 + u.low
  }

  /** Whether the candidate becomes the master. The two words are compared one by one. */
  function IsNewMaster(cand: Uint128, exist: Option<Uint128>): bool {
    match exist
    case None => true
    case Some(e) => cand.high > e.high || cand.low > e.low || (cand.high == e.high && cand.low == e.low)
  }

  /** As an order on 128-bit numbers the comparison is "at least", except that it also
      favours a smaller number whose low word is larger. */
  lemma IsNewMasterIff(cand: Uint128, exist: Option<Uint128>)
    ensures IsNewMaster(cand, exist) <==>
      exist.None? || Value(cand) >= Value(exist.value) || (cand.high < exist.value.high && cand.low > exist.value.low)
  {
  }

  lemma ValueInjective(a: Uint128, b: Uint128)
    ensures Value(a) == Value(b) <==> a == b
  {
  }

  // ---------------------------------------------------------------- a history of elections

  /** One client's election ID as it is decided upon. */
  datatype Vote = Vote(client: string, id: Uint128)

  datatype Elected = Elected(id: Option<Uint128>, master: string)

  function Decide(e: Elected, v: Vote): Elected {
    if IsNewMaster(v.id, e.id) then Elected(Some(v.id), v.client) else e
  }

  function Elect(votes: seq<Vote>): Elected {
    if votes == [] then Elected(None, "")
    else Decide(Elect(votes[..|votes| - 1]), votes[|votes| - 1])
  }

  /** The vote at k is the most recent of those with the greatest ID. */
  ghost predicate LastOfGreatest(votes: seq<Vote>, k: nat) {
    && k < |votes|
    && (forall i :: 0 <= i < |votes| ==> Value(votes[i].id) <= Value(votes[k].id))
    && (forall i :: k < i < |votes| ==> Value(votes[i].id) < Value(votes[k].id))
  }

  /** A vote that takes the mastership from a greater ID e. */
  predicate Undercuts(id: Uint128, e: Uint128) {
    id.high < e.high && id.low > e.low
  }

  lemma BelowWinsIff(id: Uint128, e: Uint128)
    requires Value(id) < Value(e)
    ensures IsNewMaster(id, Some(e)) <==> Undercuts(id, e)
  {
    IsNewMasterIff(id, Some(e));
  }

  /** What the vote at k comes to: it holds until it is undercut, and then it is an ID
      below it that is elected. */
  ghost predicate Held(votes: seq<Vote>, k: nat)
    requires k < |votes|
  {
    if exists i :: k < i < |votes| && Undercuts(votes[i].id, votes[k].id)
    then Elect(votes).id.Some? && Value(Elect(votes).id.value) < Value(votes[k].id)
    else Elect(votes) == Elected(Some(votes[k].id), votes[k].client)
  }

  lemma {:induction false} GreatestHeld(votes: seq<Vote>, k: nat)
    requires LastOfGreatest(votes, k)
    ensures Held(votes, k)
  {
    var n := |votes| - 1;
    var before := votes[..n];
    assert forall i :: 0 <= i < n ==> before[i] == votes[i];
    if k == n {
      ElectedAmong(before);
      if before != [] { IsNewMasterIff(votes[n].id, Elect(before).id); }
    } else {
      GreatestHeld(before, k);
      HeldMore(before, k, votes[n]);
      assert before + [votes[n]] == votes;
    }
  }

  lemma HeldMore(votes: seq<Vote>, k: nat, v: Vote)
    requires k < |votes| && Held(votes, k) && Value(v.id) < Value(votes[k].id)
    ensures Held(votes + [v], k)
  {
    var all := votes + [v];
    assert all[..|votes|] == votes && all[|votes|] == v && all[k] == votes[k];
    BelowWinsIff(v.id, votes[k].id);
    if i :| k < i < |votes| && Undercuts(votes[i].id, votes[k].id) {
      assert Undercuts(all[i].id, all[k].id);
    } else if Undercuts(v.id, votes[k].id) {
      assert Undercuts(all[|votes|].id, all[k].id);
    }
  }

  lemma {:induction false} ElectedAmong(votes: seq<Vote>)
    ensures votes == [] <==> Elect(votes).id.None?
    ensures votes != [] ==> exists i :: 0 <= i < |votes| && Elect(votes) == Elected(Some(votes[i].id), votes[i].client)
  {
    if votes != [] {
      var n := |votes| - 1;
      ElectedAmong(votes[..n]);
      if !IsNewMaster(votes[n].id, Elect(votes[..n]).id) {
        var i :| 0 <= i < n && Elect(votes[..n]) == Elected(Some(votes[..n][i].id), votes[..n][i].client);
        assert votes[i] == votes[..n][i];
      }
    }
  }

  /** The greatest ID is the current one, and its most recent sender the master, if and
      only if no later vote has both a smaller high word and a larger low word. */
  lemma GreatestElectedIff(votes: seq<Vote>, k: nat)
    requires LastOfGreatest(votes, k)
    ensures Elect(votes) == Elected(Some(votes[k].id), votes[k].client) <==>
            forall i :: k < i < |votes| ==> !Undercuts(votes[i].id, votes[k].id)
  {
    GreatestHeld(votes, k);
  }

  ghost predicate OneHighWord(votes: seq<Vote>) {
    forall i, j :: 0 <= i < |votes| && 0 <= j < |votes| ==> votes[i].id.high == votes[j].id.high
  }

  lemma {:induction false} FindGreatest(votes: seq<Vote>) returns (k: nat)
    requires votes != []
    ensures LastOfGreatest(votes, k)
  {
    var n := |votes| - 1;
    if n == 0 {
      k := 0;
    } else {
      assert forall i :: 0 <= i < n ==> votes[..n][i] == votes[i];
      k := FindGreatest(votes[..n]);
      if Value(votes[n].id) >= Value(votes[k].id) { k := n; }
    }
  }

  /** In particular it is when all IDs have the same high word. */
  lemma GreatestIsElected(votes: seq<Vote>) returns (k: nat)
    requires votes != [] && OneHighWord(votes)
    ensures LastOfGreatest(votes, k)
    ensures Elect(votes) == Elected(Some(votes[k].id), votes[k].client)
  {
    k := FindGreatest(votes);
    GreatestElectedIff(votes, k);
  }

  /** Otherwise it need not be: 2^64 + 5 is the greatest ID seen, and 9 the
      current one. */
  lemma GreatestNeedNotBeElected()
    ensures var votes := [Vote("a", Uint128(1, 5)), Vote("b", Uint128(0, 9))];
      Elect(votes) == Elected(Some(Uint128(0, 9)), "b") && LastOfGreatest(votes, 0)
  {
    var votes := [Vote("a", Uint128(1, 5)), Vote("b", Uint128(0, 9))];
    assert votes[..1] == [votes[0]] && votes[..1][..0] == [];
    assert Elect(votes[..1]) == Elected(Some(votes[0].id), "a");
  }

  /** A later vote takes the mastership exactly when it is not below the current ID, or
      is below it with a larger low word. */
  lemma VoteWins(votes: seq<Vote>, v: Vote)
    ensures var cur := Elect(votes).id;
      var wins := cur.None? || Value(v.id) >= Value(cur.value) || Undercuts(v.id, cur.value);
      Elect(votes + [v]) == if wins then Elected(Some(v.id), v.client) else Elect(votes)
  {
    assert (votes + [v])[..|votes|] == votes;
    IsNewMasterIff(v.id, Elect(votes).id);
  }

  // ---------------------------------------------------------------- admitting an operation

  /** What a batch of operations knows about the election: the master and current ID when
      the batch arrived, and the sender and the latest ID that it sent. */
  datatype Details = Details(master: string, id: Option<Uint128>, client: string, clientLatest: Option<Uint128>)

  datatype Admission =
    | Admitted
    | Failed
    | FatalNoID
    | FatalNoElection
    | FatalNoClientID
    | FatalGreater

  /** The fatal outcomes end the session; a Failed operation is answered and ignored. */
  predicate EndsSession(a: Admission) {
    !a.Admitted? && !a.Failed?
  }

  function CheckElectionForModify(opElec: Option<Uint128>, d: Details): Admission {
    if opElec.None? then FatalNoID
    else if d.master == "" || d.id.None? then FatalNoElection
    else if d.clientLatest.None? then FatalNoClientID
    else if d.client != d.master then Failed
    else if Value(opElec.value) != Value(d.clientLatest.value) then Failed
    else if Value(opElec.value) > Value(d.id.value) then FatalGreater
    else if Value(opElec.value) < Value(d.id.value) then Failed
    else Admitted
  }

  /** Only the master is admitted, and only with the ID that is both its latest and the
      current one. */
  lemma AdmittedIff(opElec: Option<Uint128>, d: Details)
    ensures CheckElectionForModify(opElec, d).Admitted? <==>
      d.master != "" && d.client == d.master && opElec.Some? && opElec == d.clientLatest == d.id
  {
    if opElec.Some? && d.clientLatest.Some? && d.id.Some? {
      ValueInjective(opElec.value, d.clientLatest.value);
      ValueInjective(opElec.value, d.id.value);
    }
  }

  /** What is checked, in which order. An operation without an ID, or before there was an
      election, or from a client that took no part in it, ends the session; so does one with
      an ID above the current one. One that is not from the master, or not with the ID that
      it sent last, or with one that is no longer current, just fails. */
  lemma AdmissionTable(opElec: Option<Uint128>, d: Details)
    ensures var a := CheckElectionForModify(opElec, d);
      var elected := d.master != "" && d.id.Some?;
      && (a == FatalNoID <==> opElec == None)
      && (a == FatalNoElection <==> opElec != None && !elected)
      && (a == FatalNoClientID <==> opElec != None && elected && d.clientLatest == None)
      && (a == FatalGreater <==>
          && elected && opElec.Some? && opElec == d.clientLatest && d.client == d.master
          && Value(opElec.value) > Value(d.id.value))
      && (a == Failed <==>
          && elected && opElec.Some? && d.clientLatest.Some?
          && (d.client != d.master || opElec != d.clientLatest || Value(opElec.value) < Value(d.id.value)))
  {
    if opElec.Some? && d.clientLatest.Some? && d.id.Some? {
      ValueInjective(opElec.value, d.clientLatest.value);
    }
  }

  /** The belt-and-braces error for an ID above the current one needs a master whose
      latest ID is above it. */
  lemma GreaterNeeds(opElec: Option<Uint128>, d: Details)
    ensures CheckElectionForModify(opElec, d).FatalGreater? ==>
      d.client == d.master && d.clientLatest.Some? && d.id.Some? && Value(d.clientLatest.value) > Value(d.id.value)
  {
  }

  // ---------------------------------------------------------------- admitting a flush

  /** The network instances that a request names. */
  datatype Scope = Named(name: string) | Everything | Unspecified

  datatype FlushRequest = FlushRequest(scope: Scope, override: bool, id: Option<Uint128>)

  datatype FlushVerdict =
    | FlushAllowed
    | UnspecifiedInstance
    | UnspecifiedElection
    | ElectionIDInAllPrimary
    | InvalidElectionID
    | NotPrimary

  function CheckFlushRequest(req: FlushRequest, cur: Option<Uint128>): FlushVerdict {
    if req.scope.Unspecified? then UnspecifiedInstance
    else if req.override then FlushAllowed
    else if req.id.None? && cur.None? then FlushAllowed
    else if req.id.None? then UnspecifiedElection
    else if cur.None? then ElectionIDInAllPrimary
    else if Value(req.id.value) == 0 then InvalidElectionID
    else if Value(req.id.value) < Value(cur.value) then NotPrimary
    else FlushAllowed
  }

  /** An override makes every flush with a scope go ahead. Otherwise a missing ID, an ID where
      there was no election, the ID zero and an ID below the current one are each refused in
      their own way. */
  lemma FlushTable(req: FlushRequest, cur: Option<Uint128>)
    ensures var v := CheckFlushRequest(req, cur);
      var checked := !req.scope.Unspecified? && !req.override;
      && (v == UnspecifiedInstance <==> req.scope == Unspecified)
      && (req.override && req.scope != Unspecified ==> v == FlushAllowed)
      && (v == UnspecifiedElection <==> checked && req.id == None && cur != None)
      && (v == ElectionIDInAllPrimary <==> checked && req.id != None && cur == None)
      && (v == InvalidElectionID <==> checked && cur != None && req.id == Some(Uint128(0, 0)))
      && (v == NotPrimary <==>
          && checked && cur.Some? && req.id.Some? && req.id.value != Uint128(0, 0)
          && Value(req.id.value) < Value(cur.value))
  {
    if req.id.Some? { ValueInjective(req.id.value, Uint128(0, 0)); }
  }

  /** Without an override, a flush needs an ID that could take the mastership, as a number,
      exactly when there have been elections. */
  lemma FlushAllowedIff(req: FlushRequest, cur: Option<Uint128>)
    requires !req.scope.Unspecified? && !req.override
    ensures CheckFlushRequest(req, cur).FlushAllowed? <==>
      req.id.Some? == cur.Some? &&
      (req.id.Some? ==> Value(req.id.value) > 0 && Value(req.id.value) >= Value(cur.value))
    ensures CheckFlushRequest(req, cur).FlushAllowed? && req.id.Some? ==> IsNewMaster(req.id.value, cur)
  {
    if req.id.Some? { IsNewMasterIff(req.id.value, cur); }
  }
}
