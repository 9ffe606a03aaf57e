/** How the server answers the operations of a Modify request. */
module Modify {
  import opened Aft
  import opened Engine
  import opened Election
  import opened Retry

  datatype Status = RibProgrammed | FibProgrammed | OpFailed

  datatype Result = Result(id: nat, status: Status)

  /** The answer to one operation: results, or results and an error that ends the session. */
  datatype Reply = Reply(results: seq<Result>) | SessionError(results: seq<Result>)

  /** The results that report one installed operation. */
  function Acks(id: nat, fib: bool): seq<Result> {
    [Result(id, RibProgrammed)] + if fib then [Result(id, FibProgrammed)] else []
  }

  function AckAll(oks: seq<Op>, fib: bool): seq<Result> {
    if oks == [] then []
    else AckAll(oks[..|oks| - 1], fib) + Acks(oks[|oks| - 1].id, fib)
  }

  function FailAll(fails: seq<Op>): seq<Result> {
    if fails == [] then []
    else FailAll(fails[..|fails| - 1]) + [Result(fails[|fails| - 1].id, OpFailed)]
  }

  /** The RIB does what the operation asks for, and every outcome is reported. */
  ghost predicate Programs(s: State, fwd: bool, fib: bool, op: Op, results: seq<Result>, s': State) {
    if op.kind.Delete? then
      exists ok :: DeleteStep(s, op, ok, s') && results == if ok then Acks(op.id, fib) else [Result(op.id, OpFailed)]
    else
      exists oks, fails :: AddStep(s, fwd, op, oks, fails, s') && results == AckAll(oks, fib) + FailAll(fails)
  }

  lemma AddPrograms(s: State, fwd: bool, fib: bool, op: Op, oks: seq<Op>, fails: seq<Op>, s': State)
    requires !op.kind.Delete? && AddStep(s, fwd, op, oks, fails, s')
    ensures Programs(s, fwd, fib, op, AckAll(oks, fib) + FailAll(fails), s')
  {
  }

  lemma DeleteKeepsQueueOK(s: State, fwd: bool, op: Op, ok: bool, s': State)
    requires QueueOK(s, fwd) && DeleteStep(s, op, ok, s')
    ensures QueueOK(s', fwd)
  {
  }

  /** modifyEntry: the election first, then the network instance, then the RIB. */
  ghost predicate ModifyStep(s: State, fwd: bool, fib: bool, d: Details, op: Op, reply: Reply, s': State) {
    var a := CheckElectionForModify(op.elec, d);
    if EndsSession(a) then reply == SessionError([]) && s' == s
    else if a.Failed? then reply == Reply([Result(op.id, OpFailed)]) && s' == s
    else if !ValidNI(s.rib, op.ni) then reply == SessionError([]) && s' == s
    else reply.Reply? && Programs(s, fwd, fib, op, reply.results, s')
  }

  function Prefix(rs: seq<Result>, reply: Reply): Reply {
    match reply
    case Reply(results) => Reply(rs + results)
    case SessionError(results) => SessionError(rs + results)
  }

  /** One operation of a batch. An empty network instance is answered, and then goes on
      to be looked up like any other. */
  ghost predicate ServeStep(s: State, fwd: bool, fib: bool, d: Details, op: Op, reply: Reply, s': State) {
    var early := if op.ni == "" then [Result(op.id, OpFailed)] else [];
    if op.ni !in s.rib.nis then
      reply == Reply(early + [Result(op.id, OpFailed)]) && s' == s
    else
      exists r :: ModifyStep(s, fwd, fib, d, op, r, s') && reply == Prefix(early, r)
  }

  /** Only an admitted operation changes anything: one from the master of the batch's
      snapshot, with the ID that is both its latest and the current one. */
  lemma ChangedMeansAdmitted(s: State, fwd: bool, fib: bool, d: Details, op: Op, reply: Reply, s': State)
    requires ServeStep(s, fwd, fib, d, op, reply, s') && s' != s
    ensures d.master != "" && d.client == d.master && op.elec.Some? && op.elec == d.clientLatest == d.id
    ensures ValidNI(s.rib, op.ni)
  {
    var early := if op.ni == "" then [Result(op.id, OpFailed)] else [];
    var r :| ModifyStep(s, fwd, fib, d, op, r, s') && reply == Prefix(early, r);
    AdmittedIff(op.elec, d);
  }

  /** Whether one of the replies ended the session. */
  predicate Ended(replies: seq<Reply>) {
    replies != [] && (replies[|replies| - 1].SessionError? || Ended(replies[..|replies| - 1]))
  }

  /** The replies after the one that ended the session. */
  function Unheard(replies: seq<Reply>): nat {
    if replies == [] || !Ended(replies[..|replies| - 1]) then 0 else Unheard(replies[..|replies| - 1]) + 1
  }

  /** The results that go out, those that come with the error that ends the session included. */
  function Sent(replies: seq<Reply>): seq<Result> {
    if replies == [] then []
    else
      var init := replies[..|replies| - 1];
      Sent(init) + if Ended(init) then [] else replies[|replies| - 1].results
  }

  /** The operations of a batch, all checked against the same election d. Once the session
      has ended the handler is not stopped: it carries on with up to after further
      operations, until it waits to answer one. */
  ghost predicate Batch(fwd: bool, fib: bool, d: Details, ops: seq<Op>, after: nat,
          states: seq<State>, replies: seq<Reply>) {
    && Serving(fwd, fib, d, ops, states, replies)
    && (|replies| < |ops| ==> Ended(replies) && Unheard(replies) == after)
    && Unheard(replies) <= after
  }

  /** The batch so far. */
  ghost predicate Serving(fwd: bool, fib: bool, d: Details, ops: seq<Op>, states: seq<State>, replies: seq<Reply>) {
    && |states| == |replies| + 1 && |replies| <= |ops|
    && forall i :: 0 <= i < |replies| ==> ServeStep(states[i], fwd, fib, d, ops[i], replies[i], states[i + 1])
  }

  lemma ServingStep(fwd: bool, fib: bool, d: Details, ops: seq<Op>, states: seq<State>, replies: seq<Reply>,
          reply: Reply, s': State)
    requires Serving(fwd, fib, d, ops, states, replies) && |replies| < |ops|
    requires ServeStep(states[|replies|], fwd, fib, d, ops[|replies|], reply, s')
    ensures Serving(fwd, fib, d, ops, states + [s'], replies + [reply])
  {
    hide ServeStep;
  }

  lemma ReplySnoc(replies: seq<Reply>, reply: Reply)
    ensures Ended(replies + [reply]) <==> Ended(replies) || reply.SessionError?
    ensures Unheard(replies + [reply]) == if Ended(replies) then Unheard(replies) + 1 else 0
    ensures Sent(replies + [reply]) == if Ended(replies) then Sent(replies) else Sent(replies) + reply.results
  {
    assert (replies + [reply])[..|replies|] == replies;
  }

  /** A batch from anybody but the master, or from a master with an outdated ID, leaves the
      RIB and its queue as they are. */
  lemma {:induction false} OthersChangeNothing(fwd: bool, fib: bool, d: Details, ops: seq<Op>, after: nat,
          states: seq<State>, replies: seq<Reply>, k: nat)
    requires Batch(fwd, fib, d, ops, after, states, replies) && k <= |replies|
    requires d.client != d.master || d.clientLatest != d.id
    ensures states[k] == states[0]
  {
    if k > 0 {
      OthersChangeNothing(fwd, fib, d, ops, after, states, replies, k - 1);
      assert ServeStep(states[k - 1], fwd, fib, d, ops[k - 1], replies[k - 1], states[k]);
      if states[k] != states[k - 1] {
        ChangedMeansAdmitted(states[k - 1], fwd, fib, d, ops[k - 1], replies[k - 1], states[k]);
        assert false;
      }
    }
  }
}
