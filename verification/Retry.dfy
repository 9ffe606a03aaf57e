/** The recursion of AddEntry: each install is followed by an attempt at everything that
    is queued, and each of those may install again. */
module Retry {
  import opened Aft
  import opened RefCounts
  import opened Engine

  /** 1 + 2 + ... + n */
  function Tri(n: nat): nat {
    if n == 0 then 0 else n + Tri(n - 1)
  }

  lemma {:induction false} TriClosed(n: nat)
    ensures Tri(n) == n * (n + 1) / 2
  {
    if n > 0 { TriClosed(n - 1); }
  }

  /** Operations are queued only where forward references are allowed. */
  ghost predicate QueueOK(s: State, fwd: bool) {
    PendingOK(s) && (!fwd ==> s.pending == map[])
  }

  /** What a call of addEntryInternal appends to the results, and the stack of installed
      IDs that it leaves. */
  datatype Appended = Appended(oks: seq<Op>, fails: seq<Op>, stack: set<nat>)

  /** The outcome of one call, which makes n calls in all, itself included. */
  ghost predicate AddCall(s: State, fwd: bool, op: Op, stack: set<nat>, a: Appended, n: nat, s': State) {
    && QueueOK(s', fwd)
    && a.stack == stack + Ids(a.oks) && a.stack !! s'.pending.Keys
    && (if op.id in stack then a.oks == [] && a.fails == [] && s' == s
        else AddStep(s, fwd, op, a.oks, a.fails, s'))
    && n <= 1 + if a.oks == [] then 0 else Tri(|s.pending.Keys - {op.id}|)
  }

  lemma CallIgnored(s: State, fwd: bool, op: Op, stack: set<nat>)
    requires QueueOK(s, fwd) && stack !! s.pending.Keys && op.id in stack
    ensures AddCall(s, fwd, op, stack, Appended([], [], stack), 1, s)
  {
  }

  lemma CallNotInstalled(s: State, fwd: bool, op: Op, stack: set<nat>, fails: seq<Op>, s': State)
    requires QueueOK(s, fwd) && ValidNI(s.rib, op.ni) && stack !! s.pending.Keys && op.id !in stack
    requires !Installable(s.rib, op) && AddStep(s, fwd, op, [], fails, s')
    ensures AddCall(s, fwd, op, stack, Appended([], fails, stack), 1, s')
  {
  }

  lemma CallIsStep(s: State, fwd: bool, op: Op, a: Appended, n: nat, s': State)
    requires AddCall(s, fwd, op, {}, a, n, s')
    ensures AddStep(s, fwd, op, a.oks, a.fails, s') && QueueOK(s', fwd)
    ensures var q := |s.pending.Keys - {op.id}|; n <= 1 + q * (q + 1) / 2
  {
    TriClosed(|s.pending.Keys - {op.id}|);
  }

  /** The state right after op was installed. */
  function Installed(s: State, op: Op): State {
    State(Apply(s.rib, op), s.pending - {op.id})
  }

  lemma InstalledQueueOK(s: State, fwd: bool, op: Op, stack: set<nat>)
    requires QueueOK(s, fwd) && stack !! s.pending.Keys
    ensures QueueOK(Installed(s, op), fwd) && stack + {op.id} !! Installed(s, op).pending.Keys
  {
  }

  /** The outcome of a whole pass over the queue, which makes n calls. */
  ghost predicate Passed(s: State, fwd: bool, op: Op, stack: set<nat>, a: Appended, n: nat, s': State) {
    && QueueOK(s', fwd)
    && a.stack == stack + Ids(a.oks) && a.stack !! s'.pending.Keys
    && Installs(s, op, a.oks, a.fails, s') && Settled(s') && NonePassedOver(s, a.oks, a.fails, s')
    && n <= Tri(|Installed(s, op).pending.Keys|)
  }

  lemma FirstInstalled(s: State, op: Op, oks: seq<Op>, fails: seq<Op>, s': State)
    requires Installs(s, op, oks, fails, s')
    ensures oks != [] && op.id in Ids(oks)
  {
    hide Installable, Failing, InstallRun;
    assert op in oks;
  }

  lemma CallInstalled(s: State, fwd: bool, op: Op, stack: set<nat>, a: Appended, n: nat, s': State)
    requires Installable(s.rib, op) && op.id !in stack
    requires Passed(s, fwd, op, stack + {op.id}, a, n, s')
    ensures AddCall(s, fwd, op, stack, a, n + 1, s')
  {
    hide Installs, Settled, NonePassedOver, QueueOK, Tri, Ids;
    FirstInstalled(s, op, a.oks, a.fails, s');
    assert Installed(s, op).pending.Keys == s.pending.Keys - {op.id};
    assert stack + {op.id} + Ids(a.oks) == stack + Ids(a.oks);
  }

  // ---------------------------------------------------------------- the pass over the queue

  /** The queue as it was when the pass started. */
  ghost predicate Snapshot(s: State, queue: seq<Op>) {
    && |queue| == |s.pending.Keys|
    && (forall i :: 0 <= i < |queue| ==> FromPending(s, queue[i]))
    && (forall id :: id in s.pending ==> s.pending[id] in queue)
  }

  /** As long as the pass installs nothing it rules out one operation after the other;
      once it installs something there is nothing left to install. */
  ghost predicate Ruled(s1: State, queue: seq<Op>, i: nat, oks: seq<Op>, n: nat, s: State)
    requires i <= |queue|
  {
    if |oks| > 1 then
      Settled(s) && |queue| > 0 && n <= i + Tri(|queue| - 1)
    else
      s == s1 && n <= i && forall j :: 0 <= j < i ==> !Installable(s.rib, queue[j])
  }

  /** What came of the attempt at e. */
  ghost predicate Judged(r: Rib, a: Appended, e: Op) {
    e.id in Ids(a.oks) || e in a.fails || Waited(r, a.oks, e)
  }

  ghost predicate AllJudged(r: Rib, queue: seq<Op>, i: nat, a: Appended) {
    i <= |queue| && forall j :: 0 <= j < i ==> Judged(r, a, queue[j])
  }

  ghost predicate Installing(s0: State, fwd: bool, op: Op, stack: set<nat>, queue: seq<Op>, i: nat, a: Appended,
          n: nat, s: State) {
    && i <= |queue|
    && QueueOK(s, fwd)
    && a.stack == stack + Ids(a.oks) && a.stack !! s.pending.Keys
    && Installs(s0, op, a.oks, a.fails, s)
    && Ruled(Installed(s0, op), queue, i, a.oks, n, s)
  }

  /** The state s of the pass after i attempts and n calls; s0 is the state before op was
      installed. */
  ghost predicate Passing(s0: State, fwd: bool, op: Op, stack: set<nat>, queue: seq<Op>, i: nat, a: Appended, n: nat,
          s: State) {
    Installing(s0, fwd, op, stack, queue, i, a, n, s) && AllJudged(s0.rib, queue, i, a)
  }

  function Join(a: Appended, b: Appended): Appended {
    Appended(a.oks + b.oks, a.fails + b.fails, b.stack)
  }

  lemma PassStarts(s0: State, fwd: bool, op: Op, stack: set<nat>, queue: seq<Op>)
    requires Installable(s0.rib, op)
    requires QueueOK(Installed(s0, op), fwd) && op.id in stack && stack !! Installed(s0, op).pending.Keys
    ensures Passing(s0, fwd, op, stack, queue, 0, Appended([op], [], stack), 0, Installed(s0, op))
  {
    RunOne(s0.rib, op);
    assert Ids([op]) == {op.id};
  }

  /** An operation of the snapshot that was not installed meanwhile is still queued. */
  lemma StillQueued(s0: State, fwd: bool, op: Op, stack: set<nat>, queue: seq<Op>, i: nat,
          a: Appended, n: nat, s: State)
    requires Installing(s0, fwd, op, stack, queue, i, a, n, s)
    requires Snapshot(Installed(s0, op), queue) && i < |queue|
    requires queue[i].id !in a.stack
    ensures FromPending(s, queue[i])
  {
    assert FromPending(Installed(s0, op), queue[i]);
  }

  /** The attempt has fewer IDs left to install than the pass has. */
  lemma AttemptIsSmaller(s0: State, fwd: bool, op: Op, stack: set<nat>, queue: seq<Op>, i: nat, a: Appended, n: nat,
          s: State)
    requires Passing(s0, fwd, op, stack, queue, i, a, n, s)
    requires QueueOK(Installed(s0, op), fwd) && Snapshot(Installed(s0, op), queue) && i < |queue|
    requires op.id in stack
    ensures ValidNI(s.rib, queue[i].ni)
    ensures s.pending.Keys + {queue[i].id} - a.stack <= Installed(s0, op).pending.Keys - stack
  {
    assert FromPending(Installed(s0, op), queue[i]);
    RunKeepsKeys(s0.rib, a.oks);
    assert s.rib.nis == s0.rib.nis;
  }

  lemma RuledStep(s1: State, queue: seq<Op>, i: nat, oks: seq<Op>, n: nat, s: State, o: seq<Op>, m: nat, s': State)
    requires i < |queue| && Snapshot(s1, queue) && oks != [] && Ruled(s1, queue, i, oks, n, s)
    requires FromPending(s, queue[i])
    requires if Installable(s.rib, queue[i]) then o != [] && Settled(s') else o == [] && s' == s
    requires m <= 1 + if o == [] then 0 else Tri(|s.pending.Keys - {queue[i].id}|)
    ensures Ruled(s1, queue, i + 1, oks + o, n + m, s')
  {
    if o != [] {
      assert s == s1;
      assert |s.pending.Keys - {queue[i].id}| == |queue| - 1;
    } else {
      assert oks + o == oks;
    }
  }

  lemma InstallingStep(s0: State, fwd: bool, op: Op, stack: set<nat>, queue: seq<Op>, i: nat, a: Appended, n: nat,
          s: State, b: Appended, m: nat, s': State)
    requires Installing(s0, fwd, op, stack, queue, i, a, n, s)
    requires Snapshot(Installed(s0, op), queue) && i < |queue|
    requires AddCall(s, fwd, queue[i], a.stack, b, m, s')
    ensures Installing(s0, fwd, op, stack, queue, i + 1, Join(a, b), n + m, s')
  {
    hide Installable, Failing, NonePassedOver, InstallRun, ApplyAll;
    var e := queue[i];
    IdsConcat(a.oks, b.oks);
    if e.id in a.stack {
      assert a.oks + b.oks == a.oks && a.fails + b.fails == a.fails;
      assert FromPending(Installed(s0, op), e);
    } else {
      StillQueued(s0, fwd, op, stack, queue, i, a, n, s);
      assert fwd;
      RetryStep(s0, op, a.oks, a.fails, s, e, b.oks, b.fails, s');
      RuledStep(Installed(s0, op), queue, i, a.oks, n, s, b.oks, m, s');
    }
  }

  lemma JudgedLater(r: Rib, a: Appended, b: Appended, e: Op)
    requires Judged(r, a, e)
    ensures Judged(r, Join(a, b), e)
  {
    IdsConcat(a.oks, b.oks);
    if Waited(r, a.oks, e) { WaitedLater(r, a.oks, b.oks, e); }
  }

  lemma WaitedNow(r: Rib, oks: seq<Op>, e: Op)
    requires oks != [] && MayWait(ApplyAll(r, oks), e)
    ensures Waited(r, oks, e)
  {
    hide MayWait, ApplyAll;
    assert oks[..|oks|] == oks;
  }

  lemma JudgedNow(r: Rib, a: Appended, s: State, fwd: bool, e: Op, b: Appended, s': State)
    requires a.oks != [] && s.rib == ApplyAll(r, a.oks)
    requires if e.id in a.stack then e.id in Ids(a.oks) else AddStep(s, fwd, e, b.oks, b.fails, s')
    ensures Judged(r, Join(a, b), e)
  {
    IdsConcat(a.oks, b.oks);
    if e.id !in a.stack {
      hide ApplyAll, InstallRun, Waited;
      if Installable(s.rib, e) {
        assert e in b.oks;
      } else if b.fails == [] {
        WaitedNow(r, a.oks, e);
        WaitedLater(r, a.oks, b.oks, e);
      }
    }
  }

  lemma PassStep(s0: State, fwd: bool, op: Op, stack: set<nat>, queue: seq<Op>, i: nat, a: Appended, n: nat,
          s: State, b: Appended, m: nat, s': State)
    requires Passing(s0, fwd, op, stack, queue, i, a, n, s)
    requires Snapshot(Installed(s0, op), queue) && i < |queue| && stack !! Installed(s0, op).pending.Keys
    requires AddCall(s, fwd, queue[i], a.stack, b, m, s')
    ensures Passing(s0, fwd, op, stack, queue, i + 1, Join(a, b), n + m, s')
  {
    InstallingStep(s0, fwd, op, stack, queue, i, a, n, s, b, m, s');
    hide Installs, AddStep, AllJudged, Ruled, QueueOK;
    InStackIsInstalled(s0, fwd, op, stack, queue, i, a, n, s);
    JudgedStep(s0.rib, a, s, fwd, queue, i, b, s');
  }

  lemma InStackIsInstalled(s0: State, fwd: bool, op: Op, stack: set<nat>, queue: seq<Op>, i: nat, a: Appended,
          n: nat, s: State)
    requires Installing(s0, fwd, op, stack, queue, i, a, n, s)
    requires Snapshot(Installed(s0, op), queue) && i < |queue| && stack !! Installed(s0, op).pending.Keys
    ensures queue[i].id in a.stack ==> queue[i].id in Ids(a.oks)
    ensures a.oks != [] && s.rib == ApplyAll(s0.rib, a.oks)
  {
    hide Installable, Ruled, Rejected, InstallRun;
    assert FromPending(Installed(s0, op), queue[i]);
  }

  lemma JudgedStep(r: Rib, a: Appended, s: State, fwd: bool, queue: seq<Op>, i: nat, b: Appended, s': State)
    requires a.oks != [] && s.rib == ApplyAll(r, a.oks) && i < |queue| && AllJudged(r, queue, i, a)
    requires if queue[i].id in a.stack then queue[i].id in Ids(a.oks) else AddStep(s, fwd, queue[i], b.oks, b.fails, s')
    ensures AllJudged(r, queue, i + 1, Join(a, b))
  {
    hide AddStep, Judged;
    JudgedNow(r, a, s, fwd, queue[i], b, s');
    forall j | 0 <= j < i ensures Judged(r, Join(a, b), queue[j]) {
      JudgedLater(r, a, b, queue[j]);
    }
  }

  lemma InstallingEnds(s0: State, fwd: bool, op: Op, stack: set<nat>, queue: seq<Op>, a: Appended, n: nat, s: State)
    requires Installing(s0, fwd, op, stack, queue, |queue|, a, n, s) && Snapshot(Installed(s0, op), queue)
    ensures Settled(s) && n <= Tri(|queue|)
  {
    if |a.oks| <= 1 {
      forall id | id in s.pending ensures !Installable(s.rib, s.pending[id]) {
        var j :| 0 <= j < |queue| && queue[j] == s.pending[id];
      }
    }
  }

  lemma JudgedEnds(s0: State, fwd: bool, op: Op, stack: set<nat>, queue: seq<Op>, a: Appended, n: nat, s: State)
    requires Passing(s0, fwd, op, stack, queue, |queue|, a, n, s) && Snapshot(Installed(s0, op), queue)
    ensures NonePassedOver(s0, a.oks, a.fails, s)
  {
    hide Installable, Ruled, Waited, Rejected, InstallRun, ApplyAll;
    forall id | id in s.pending ensures s.pending[id] in a.fails || Waited(s0.rib, a.oks, s.pending[id]) {
      assert op in a.oks && id in Installed(s0, op).pending;
      assert s.pending[id] in queue;
      var j :| 0 <= j < |queue| && queue[j] == s.pending[id];
      assert Judged(s0.rib, a, queue[j]);
    }
  }

  /** What the pass comes to. */
  lemma PassEnds(s0: State, fwd: bool, op: Op, stack: set<nat>, queue: seq<Op>, a: Appended, n: nat, s: State)
    requires Passing(s0, fwd, op, stack, queue, |queue|, a, n, s) && Snapshot(Installed(s0, op), queue)
    ensures Passed(s0, fwd, op, stack, a, n, s)
  {
    InstallingEnds(s0, fwd, op, stack, queue, a, n, s);
    JudgedEnds(s0, fwd, op, stack, queue, a, n, s);
  }
}
