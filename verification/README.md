# gribigo in Dafny

gribigo is a gRIBI server, client and reconciler. A gRIBI client programs next-hops (NH),
next-hop-groups (NHG) and top-level entries (IPv4, IPv6, MPLS) into a server's RIB; a
top-level entry refers to an NHG, possibly in another network instance (NI), and an NHG
refers to NHs of its own NI. This project models the code that keeps these references in
order, and the protocols around it, and proves what the code promises about them.

`dafny verify dfyconfig.toml` checks everything.

## The layers

| files | what they model |
|---|---|
| `Aft`, `RefCounts`, `Engine`, `Payloads`, `Partition`, `Runs`, `Confluence` | the RIB as a state machine on values: installing, queueing, deleting, flushing, the reference counters, what all that means in terms of the payloads, and what holds over whole runs |
| `Tables`, `Retry`, `Rib`, `FlushErrors` | the RIB as the code has it: holders whose tables and counters calls change in place, the recursion of AddEntry, the change hook; proved to do what `Engine` says |
| `Election`, `Sessions`, `Modify`, `Reporting`, `Server` | elections, session parameters, operation admission, and what clients are told about their operations; `Sessions` interleaves the handlers of several clients at the granularity of their critical sections, `Server` is the server's own state and methods |
| `Queues`, `Client`, `Conservation` | the client's queues, and one client and one server joined by FIFO channels |
| `Reconcile`, `Replay`, `Concrete`, `Diff`, `Reconciler` | the difference of two RIBs, its replay through the engine, and both on RIBs as the code has them |
| `Get`, `Helpers`, `AftHelper`, `Programming` | reading a RIB, rebuilding it, and resolving prefixes to what was programmed |

`Engine.AddStep`, `DeleteStep` and `FlushStep` are relations between the state before and
after a call. They leave open what the code leaves open: the order in which Go visits its
maps. The methods of `RibImpl.RIB` are proved to stay within them, and all results about
runs are proved from the relations, so they hold for every order.

## Where the code and what is said about it differ

* `isNewMaster` compares the two words of an election ID one by one. As an order on 128-bit
  numbers that is "at least as great, or smaller with a larger low word"
  (`Election.IsNewMasterIff`). So the current ID need not be the maximum seen that
  client/gribiclient.go:664-668 speaks of (`Election.GreatestNeedNotBeElected`). It is if and
  only if no vote after the last of the maximum has a smaller high word and a larger low word
  (`Election.GreatestElectedIff`, over runs `Sessions.RunElectsGreatestIff`); in particular
  when all IDs share one high word.
* A comment at server/server.go:1029-1030 says that a client with an old election ID gets
  no answer. The code answers FAILED, and so does the model.
* A queued operation can be rejected later: a REPLACE whose target is gone, or a group that
  lists a next-hop of index zero. It is then reported as failed and yet stays queued, and is
  reported again (`Runs.StrandedReplace`). `Partition.PartitionIff` says for which queue and
  RIB, before the call, the acknowledged, the failed and the queued operations are sure to be
  disjoint; `Partition.PartitionDecided` says when the queue decides it either way.
* A REPLACE can be reported as failed and be programmed in the same answer: it is tried before
  the ADD that it replaces, and again after it (`Reporting.FailedAndInstalled`).
  `Reporting.FailedNotInstalledIff` says for which queue and RIB, before the call, that cannot
  happen; in particular not when no queued ADD fills the slot of a queued REPLACE
  (`Reporting.FailedNotInstalled`).
* An operation without a network instance is answered FAILED twice
  (`Reporting.NamelessIsReported`).
* The NH counter counts list elements, the stored NHG is a map. A list that mentions an
  index twice makes the counter drift (`Runs.CounterDrift`); it stays exact if and only if
  it does not (`RefCounts.ApplyExactIff`).
* Flush of one NI can leave entries of other NIs pointing at nothing (`Runs.DanglingFlush`).
  `Engine.FlushKeepsInv` says exactly when.
* A batch goes by one snapshot of the election. It still admits what it did after another
  client was elected; the next batch does not (`Sessions.BatchOutlivesElection`).
* The reconciler treats the mere presence of ALL in its map of explicit replaces as true;
  Get looks at the value of ALL. Both are modelled as they are.

## Model

| member | source | states |
|---|---|---|
| RefCounts.AddedCoversNeeds | rib/rib.go:693-697 | an operation counts each of its references at least once, and exactly once when no member is listed twice |
| RefCounts.CntAfter | rib/rib.go:1987-1997 | the clamp at zero is never what saves a counter: a replace really subtracts one per reference that it drops |
| RefCounts.ApplyKeepsAtLeast | rib/rib.go:652-705 | an install keeps every counter at or above the number of entries that refer to it |
| RefCounts.ApplyExactIff | rib/rib.go:693-705 | an install keeps the counters exact if and only if no member is listed twice |
| RefCounts.RemoveKeepsCounters | rib/rib.go:819-853 | a removal keeps both counter invariants, whatever still refers to the slot |
| Engine.OutcomesCover | rib/rib.go:924-1014 | an attempt is installed, rejected or queued; only a replace or a group with a zero member has two possible outcomes |
| Engine.InstallableMonotone | rib/rib.go:951-1009 | more entries and network instances never make an operation uninstallable |
| Engine.RunKeeps | rib/rib.go:557-602 | any sequence of installs keeps counters, legitimacy and closure |
| Engine.RetryStep | rib/rib.go:595-602 | a retry in the pass after an install does nothing, or installs more and leaves nothing to install |
| Partition.NothingLost | rib/rib.go:450-620 | whatever is queued, every queued ID and the new one end up in oks, in fails or in the queue, and none in both oks and the queue |
| Partition.AddPartition | rib/rib.go:450-620 | for a fresh ID, and nothing queued that can be rejected, each ID ends in exactly one of the three; oks has no ID twice and fails at most the new operation |
| Partition.FailingIsRejectable | rib/rib.go:551-556 | what a retry reports as failed lists a next-hop of index zero, or replaces a slot that was empty and that the new operation does not fill |
| Partition.MissingTargetReported | rib/rib.go:551-556 | a queued replace whose slot is empty even in the end is reported as failed and stays queued, whatever else is queued |
| Partition.PartitionDecided | rib/rib.go:551-617 | when no group with a zero member and no ADD of a queued replace's slot is queued: the three are disjoint if and only if the operation is not installed or every queued replace finds its slot filled |
| Partition.RejectionPossible | rib/rib.go:595-602 | what can be rejected is, in the order of retries that tries it first |
| Partition.FirstTryFails | rib/rib.go:551-556 | a replace of an empty slot that is retried first is reported and changes nothing |
| Partition.PartitionIff | rib/rib.go:551-617 | the three are disjoint in every order of retries if and only if, before the call, the operation cannot be installed or nothing queued can be rejected |
| Engine.DeletableIffUnused | rib/rib.go:1050-1080 | the counter answers what a walk over all entries would: an NHG or NH may go exactly when no entry refers to it |
| Engine.RemoveAllEffect | rib/rib.go:2437-2525 | what removing slots in any order leaves, and that it keeps the counters |
| Engine.AddKeepsInv | rib/rib.go:450-620 | AddEntry keeps the invariant (counters, legitimacy, no stranded queued operation) and closure |
| Engine.DeleteKeepsInv | rib/rib.go:767-873 | DeleteEntry keeps the invariant, strands no queued operation and never leaves a reference dangling |
| Engine.FlushKeepsInv | rib/rib.go:2437-2525 | Flush empties exactly the given NIs, keeps counters exact, and keeps closure if and only if no entry outside refers inside |
| Engine.FlushLeaves | rib/rib.go:2437-2525 | after a flush the given NIs have no entries, and the entries, NIs and queue are otherwise as they were |
| Payloads.ApplyStores | rib/rib.go:1203-1233 | an install leaves in the slot that the payload names what the payload says: the address of a next-hop, the weights and backup of a group, the group, NI and metadata of a route; no other slot changes |
| Payloads.AcknowledgedIsStored | rib/rib.go:450-620 | after AddEntry whatever is acknowledged is stored as it was sent, unless a later one stored something in its slot, and slots that nothing acknowledged names are as they were |
| Payloads.HopInstallableIff | rib/rib.go:934-940 | a next-hop goes in exactly with an index in a known NI, and to replace it must be there |
| Payloads.GroupInstallableIff | rib/rib.go:951-972 | a group goes in exactly with an ID and members that are all there in its own NI |
| Payloads.RouteInstallableIff | rib/rib.go:974-1009 | a route goes in exactly if its group is there, in the NI that it names or else in its own |
| Payloads.RejectIff | rib/rib.go:934-1009 | which operations can be refused |
| Payloads.WaitIff | rib/rib.go:965-984 | which operations can be queued: routes without their group and groups without a member, never next-hops |
| Payloads.ExactCounts | rib/rib.go:652-705 | exact counters: that of a group is the number of routes to it, from any NI, that of a next-hop the number of groups with it |
| Payloads.ClosedIff | rib/rib.go:951-1009 | references resolve exactly if every route has its group and every group its members |
| Payloads.DeletableIff | rib/rib.go:1048-1077 | top-level entries can always go, a group exactly while no route is to it, a next-hop exactly while no group has it, and neither with a zero key |
| Payloads.DeleteEmpties | rib/rib.go:767-873 | a delete empties the slot that its payload names and no other; one that is refused changes nothing |
| Runs.RunInvariant | rib/rib.go:470-620 | in every reachable state no counter is too low and no queued operation could be installed |
| Runs.RunClosed | rib/rib.go:924-1083 | every reference resolves in every reachable state until the first flush that is not clean |
| Runs.RunExact | rib/rib.go:652-705 | every counter is exact in every reachable state, flushes included, if no group was listed with a repeated member |
| Runs.CounterDrift | rib/rib.go:693-697 | a repeated member leaves a next-hop counted and undeletable after its group is gone |
| Runs.StrandedReplace | rib/rib.go:551-556 | a run in which one queued replace is reported as failed twice, and is still queued |
| Runs.DanglingFlush | rib/rib.go:2504-2510 | a run in which a flush of one NI leaves a route of another without its group |
| Runs.RunWellKept | rib/rib.go:1243-1303 | every reachable RIB holds entries of the right kind, in known NIs only |
| Confluence.ReachesClosure | rib/rib.go:924-1014 | after any arrivals of well-formed ADDs exactly those are installed and acknowledged whose references resolve in turn, and the others are queued |
| Confluence.OrderIndependent | rib/rib.go:470-620 | two arrival orders of the same well-formed ADDs, with any retry orders, end in the same entries, acknowledged operations and queue |
| Confluence.CountersOrderIndependent | rib/rib.go:652-705 | and in the same counters, repeated members included, if no counter was too low |
| Retry.CallIsStep | rib/rib.go:470-473 | a call with an empty stack makes at most 1 + q(q+1)/2 calls when q operations are queued |
| Retry.RuledStep | rib/rib.go:595-602 | as long as a pass installs nothing it rules out one queued operation after the other; once it installs something nothing is left |
| Retry.PassEnds | rib/rib.go:595-602 | a full pass leaves nothing that could be installed and passes over nothing that is queued |
| RibImpl.RIB.constructor | rib/rib.go:292-315 | a new RIB has the default NI, no entries, no counts and an empty queue |
| RibImpl.RIB.AddNetworkInstance | rib/rib.go:365-383 | a new NI is added empty, an existing one is an error, and nothing else changes |
| RibImpl.RIBHolder.DoAdd | rib/rib.go:1317-1340 | stores the entry in place of the old one and tells the hook |
| RibImpl.RIBHolder.DoDelete | rib/rib.go:1389-1393 | removes the entry and tells the hook |
| RibImpl.RIBHolder.Retrieve | rib/rib.go:1382-1386 | the entry in a slot, if there is one |
| RibImpl.RIBHolder.IncNHGRefCount | rib/rib.go:1980-1984 | counts up |
| RibImpl.RIBHolder.IncNHRefCount | rib/rib.go:2094-2098 | counts up |
| RibImpl.RIBHolder.DecNHGRefCount | rib/rib.go:1987-1997 | counts down, holding at zero |
| RibImpl.RIBHolder.DecNHRefCount | rib/rib.go:2101-2111 | counts down, holding at zero |
| RibImpl.RIBHolder.Referenced | rib/rib.go:1999-2003 | whether the counter is above zero |
| RibImpl.RIB.SetPostChangeHook | rib/rib.go:341-347 | sets the hook on the NIs that there are, upon what they hold |
| RibImpl.RIB.HookMirrors | rib/rib.go:1295-1302 | at any time, replaying what the hook was told gives the contents of the NI |
| RibImpl.RIB.ReportNothing | rib/rib.go:1371-1375 | a delete that finds nothing calls the hook without an entry, and changes nothing else |
| RibImpl.RIB.DecRefs | rib/rib.go:819-853 | every reference of a removed entry is counted down, in whatever NI it resolves |
| RibImpl.RIB.IncRefs | rib/rib.go:682-697 | every reference of a new entry is counted up, once per member listed |
| RibImpl.RIB.HandleReferences | rib/rib.go:652-691 | the counters after a top-level entry is stored over another |
| RibImpl.RIB.HandleNHGReferences | rib/rib.go:693-705 | the counters after a group is stored over another |
| RibImpl.RIB.CanResolve | rib/rib.go:924-1014 | resolves only if every reference is there; otherwise names an error or a missing reference, whichever is met first |
| RibImpl.RIB.TryInstall | rib/rib.go:493-548 | installs exactly the installable operations, stores what their payload says, and changes nothing otherwise |
| RibImpl.RIB.Attempt | rib/rib.go:550-617 | an attempt installs and takes off the queue, or queues, or reports a failure |
| RibImpl.RIB.GetPending | rib/rib.go:877-885 | each queued operation once |
| RibImpl.RIB.AddEntryInternal | rib/rib.go:470-620 | the recursion terminates on the IDs that are not yet on the stack, stays within AddStep, and is bounded in its number of calls |
| RibImpl.RIB.RetryAll | rib/rib.go:597-602 | the pass over the snapshot of the queue |
| RibImpl.RIB.AddEntry | rib/rib.go:450-463 | AddStep, what is acknowledged stored as it was sent, an error for unknown NIs that changes nothing, and the bound on calls |
| RibImpl.RIB.CanDelete | rib/rib.go:1024-1083 | deletable unless the key is zero or a counted entry is there |
| RibImpl.RIB.DeleteEntry | rib/rib.go:767-873 | DeleteStep, and an error for unknown NIs that changes nothing |
| RibImpl.RIB.LocklessDelete | rib/rib.go:1793-1809 | removes the entry with its references, or reports that it is not there |
| RibImpl.RIB.DeleteSlots | rib/rib.go:2508-2516 | deletes a set of slots in any order |
| RibImpl.RIB.BackupList | rib/rib.go:2491-2496 | one backup per group that names one |
| RibImpl.RIB.DeleteListed | rib/rib.go:2498-2506 | counts the listed groups that are not there, or no longer |
| RibImpl.RIB.FlushInstance | rib/rib.go:2451-2517 | every table of the NI ends up empty, and the number of errors is the closed form |
| RibImpl.RIB.Flush | rib/rib.go:2437-2525 | FlushStep for the given NIs, the exact number of errors, and when it is zero |
| FlushErrors.NoErrorsIff | rib/rib.go:2491-2506 | flushing an NI reports nothing if and only if the backups it names are distinct and exist |
| FlushErrors.NothingReportedIff | rib/rib.go:2519-2524 | Flush returns nil if and only if that holds in every flushed NI |
| FlushErrors.SilentIff | rib/rib.go:2491-2524 | in terms of the entries: nothing is reported exactly if every backup that a group names is there in its NI, and no two groups of an NI name the same one |
| FlushErrors.ErrorCountIs | rib/rib.go:2491-2506 | the errors of an NI are its groups that name a backup, less its groups that are named as one |
| FlushErrors.FlushEverything | rib/rib.go:2437-2525 | flushing every NI leaves no entry and no count |
| Election.IsNewMasterIff | server/server.go:663-685 | as an order on 128-bit numbers: at least as great, or smaller with a larger low word |
| Election.GreatestElectedIff | server/server.go:749-759 | after any votes the greatest ID is current and its last sender master if and only if no later vote has a smaller high word and a larger low word |
| Election.GreatestIsElected | server/server.go:749-759 | in particular when all IDs share one high word |
| Election.GreatestNeedNotBeElected | server/server.go:663-685 | otherwise it need not be |
| Election.VoteWins | server/server.go:749-759 | exactly when a vote takes the mastership after any history |
| Election.AdmittedIff | server/server.go:973-1042 | an operation is admitted exactly from the master with the ID that is both its latest and the current one |
| Election.AdmissionTable | server/server.go:973-1042 | exactly when each of the four fatal errors and when FAILED is the outcome |
| Election.GreaterNeeds | server/server.go:1018-1027 | the error for an ID above the current one needs a master whose latest ID is above it |
| Election.FlushAllowedIff | server/server.go:1106-1155 | when a flush without override is allowed, and that its ID could then take the mastership |
| Election.FlushTable | server/server.go:1106-1155 | exactly when each refusal is the outcome, and that an override beats all but a missing NI |
| Sessions.StepKeepsTidy | server/server.go:491-540 | what is known of clients that are new, in the middle of their first message, or gone |
| Sessions.StepKeepsAgreement | server/server.go:556-656 | accepted clients agree, with each other and with the one client that may be between a passed check and its set |
| Sessions.StepKeepsElection | server/server.go:724-764 | a master that has no decision to come has no latest ID above the current one |
| Sessions.RunInvariant | server/server.go:491-764 | these hold in every reachable state, for any number of clients and any interleaving |
| Sessions.ParametersAgree | server/server.go:625-656 | any two connected clients whose parameters were accepted have equal ones |
| Sessions.AdmissionSafe | server/server.go:779-797 | a batch never meets an ID above the current one, and admits an operation exactly if its sender is master and its ID both the latest and the current one |
| Sessions.ElectedByVotes | server/server.go:749-759 | however handlers interleave, master and current ID are those of the sequence of decisions |
| Sessions.ElectionUndisturbed | server/server.go:724-764 | the two steps of an uninterrupted election |
| Sessions.ParamsUndisturbed | server/server.go:519-656 | the three steps of uninterrupted session parameters |
| ServerImpl.Server.NewClient | server/server.go:491-503 | a new client has default parameters; a known one is an error |
| ServerImpl.Server.DeleteClient | server/server.go:508-512 | the client is gone and no other |
| ServerImpl.Server.SetClientParams | server/server.go:648-656 | sets the parameters of a client that is there |
| ServerImpl.Server.StoreClientElectionID | server/server.go:698-707 | stores the latest ID of a client that is there |
| Sessions.RunElectsGreatestIff | server/server.go:749-759 | the same over every run of interleaved handlers |
| Sessions.RunElectsGreatest | server/server.go:749-759 | in particular on every run whose IDs share one high word |
| Sessions.BatchOutlivesElection | server/server.go:795-797 | when another client is elected during a batch, the batch goes on admitting and the next one does not |
| Modify.ChangedMeansAdmitted | server/server.go:866-880 | only an operation from the master, with the ID that is its latest and the current one, changes the RIB or its queue |
| Modify.OthersChangeNothing | server/server.go:795-847 | a whole batch from anybody else changes nothing |
| Reporting.ReportIs | server/server.go:928-956 | RIB_PROGRAMMED exactly for what was installed, FIB_PROGRAMMED exactly for the same if it was asked for, FAILED exactly for what the RIB declared failed |
| Reporting.ReportInOrder | server/server.go:928-945 | every FIB_PROGRAMMED comes right after the RIB_PROGRAMMED of the same operation |
| Reporting.AddReported | server/server.go:896-956 | an installed operation is acknowledged and not failed, and so is whatever leaves the queue; nothing else is acknowledged; what is not installed is refused with FAILED or queued without an answer; what is queued is only failed if it could be rejected |
| Reporting.DeleteReported | server/server.go:902-956 | a delete that goes ahead is acknowledged and its slot is empty; one that is refused is FAILED and changes nothing |
| Reporting.AdmittedIsServed | server/server.go:866-961 | an operation of the master with its latest and current ID, for a known NI, gets the answer of the RIB |
| Reporting.RefusedIsReported | server/server.go:809-880 | one that the election holds back, or for an unknown NI, is FAILED and changes nothing |
| Reporting.FatalEndsSession | server/server.go:973-1027 | one without an election ID, before any election, from a client that took no part, or with an ID above the current one ends the session and changes nothing |
| Reporting.NamelessIsReported | server/server.go:799-830 | one without an NI is FAILED before anything else, and then once more, and changes nothing |
| Reporting.FailedNotInstalledIff | rib/rib.go:551-617 | no operation is both failed and programmed, in any order of retries, if and only if, before the call, the operation cannot be installed or nothing queued can be rejected and is unlocked as well |
| Reporting.FailedNotInstalled | rib/rib.go:551-617 | in particular when no queued ADD fills the slot of a queued REPLACE |
| Reporting.FailedAndInstalled | rib/rib.go:551-617 | a queue with which one is |
| Reporting.SentIs | server/server.go:799-846 | a result goes out exactly if it is in a reply up to the first that ends the session |
| Reporting.BatchServes | server/server.go:799-846 | the operations are served in order, each on what the one before left; all of them, unless one ends the session, and how many then |
| ServerImpl.Server.CheckClientsConsistent | server/server.go:625-645 | whether every other client has the same parameters |
| ServerImpl.Server.CheckParams | server/server.go:556-621 | when each verdict is given, and the parameters that are set when it is good |
| ServerImpl.Server.UpdateParams | server/server.go:519-540 | parameters are set at most once, and to what the request says |
| ServerImpl.Server.RunElection | server/server.go:724-764 | stores the ID even of a loser, decides, and returns the current ID; when it wins |
| ServerImpl.Server.ProgramAdd | server/server.go:896-956 | an ADD or REPLACE is AddStep, with every outcome reported: RIB_PROGRAMMED exactly if it is installed, and for what it unlocks |
| ServerImpl.Server.ProgramDelete | server/server.go:902-956 | a DELETE is DeleteStep; its results are the acknowledgements that were asked for, or FAILED |
| ServerImpl.Server.ModifyEntry | server/server.go:866-961 | election first, then the NI, then the RIB; the results report every outcome |
| ServerImpl.Server.Report | server/server.go:928-956 | acknowledgements exactly of what was installed, the FIB's right after the RIB's, and then the failures |
| ServerImpl.Server.Serve | server/server.go:799-846 | one operation of a batch, with what an empty NI is answered before anything else |
| ServerImpl.Server.DoModify | server/server.go:779-847 | a batch is checked against one snapshot of the election; results come operation by operation, up to an error; operations behind an error are still carried out |
| ServerImpl.Server.ServeAll | server/server.go:799-847 | the operations of the batch in order, and how many of them |
| ServerImpl.Server.KnownNetworkInstances | rib/rib.go:387-398 | every NI once, in lexicographic order |
| ServerImpl.Server.Flush | server/server.go:443-482 | a refused or unknown request changes nothing; an allowed one empties exactly the NI that it names, or all of them, with the exact number of errors |
| ServerImpl.Server.DoGet | server/server.go:1049-1092 | each selected entry once, as it is stored, and no other: of the NI that is named, or of all |
| ServerImpl.GetAllRoundTrip | server/server.go:1049-1092 | a Get of everything, in any order of arrival, is enough to rebuild the entries |
| ServerImpl.SelectedAnswers | server/server.go:1049-1092 | a Get of a named NI answers with entries of that NI only, as they are stored, and with all that are in the table; likewise for all NIs |
| Queues.AddOpsIff | client/gribiclient.go:1039-1050 | recording operations fails exactly when an ID repeats; otherwise all are pending |
| Queues.AddOpsStops | client/gribiclient.go:951-968 | when an ID repeats, exactly the operations before it are recorded |
| Queues.ClearLive | client/gribiclient.go:1054-1137 | results for operations that are pending are matched with them one by one, and the last ones end them, in both ACK modes |
| Queues.ClearErrsIff | client/gribiclient.go:1062-1083 | working off results fails exactly when a final one is for an operation that is not pending |
| Queues.ClearedIs | client/gribiclient.go:1010-1137 | what working off any results comes to, errors included: up to the first result that nothing pending expects, each is matched with its operation, and exactly the operations that they ended are no longer pending |
| ClientImpl.Client.constructor | client/gribiclient.go:142-170 | a new client has nothing queued and does not send |
| ClientImpl.Client.AddPendingOp | client/gribiclient.go:1039-1050 | records an operation; a pending ID is an error that changes nothing |
| ClientImpl.Client.HandleModifyRequest | client/gribiclient.go:951-968 | records all operations, election ID and parameters, or, if an ID repeats, the operations before it |
| ClientImpl.Client.Q | client/gribiclient.go:869-884 | a message is sent or queued even if it could not be recorded, which is counted as an error |
| ClientImpl.Client.StartSending | client/gribiclient.go:916-939 | parameters and election ID go ahead of what was queued |
| ClientImpl.Client.SendQueued | client/gribiclient.go:930-938 | everything queued goes out in order, and the queue is empty |
| ClientImpl.Client.StopSending | client/gribiclient.go:943-945 | from now on messages are queued |
| ClientImpl.Client.ClearPendingOp | client/gribiclient.go:1054-1137 | the fate of one result under the configured parameters, unknown operations included |
| ClientImpl.Client.ClearPendingElection | client/gribiclient.go:1154-1171 | one response clears the election, and tells whether there was one |
| ClientImpl.Client.ClearPendingSessionParams | client/gribiclient.go:1186-1204 | likewise for session parameters |
| ClientImpl.Client.HandleResults | client/gribiclient.go:1010-1016 | results are worked off in order under the configured parameters, up to the first error, and what they end leaves the queue |
| ClientImpl.Client.HandleModifyResponse | client/gribiclient.go:974-1019 | a response populated twice is an error that changes nothing; otherwise exactly what it answers leaves the queues and joins the results |
| ClientImpl.Client.IsConverged | client/gribiclient.go:1022-1030 | nothing unsent and nothing pending of any kind |
| Conservation.ServeAnswers | server/server.go:799-957 | serving an operation ends it or queues it, ends what it unlocks, and mentions nothing else |
| Conservation.EndsAtLastResult | client/gribiclient.go:1085-1106 | server and client read the session parameters alike: each operation in an answer is pending at the client until the last result that mentions it, and no longer, and no result is an error |
| Conservation.NextConserves | client/gribiclient.go:951-1137 | every step of client, channels and server keeps the books |
| Conservation.SessionConserves | client/gribiclient.go:951-1137 | the client's pending IDs are always the disjoint union of those unsent, underway, queued at the server and finally answered on the way back; no arriving result is an error |
| Conservation.ReceivedIsExpected | client/gribiclient.go:974-1019 | every result that arrives is matched with the operation it reports on |
| Conservation.AnsweredOnce | client/gribiclient.go:1054-1137 | no operation is answered for good twice |
| Conservation.NothingPendingIff | client/gribiclient.go:1022-1030 | the client has nothing pending exactly when nothing is anywhere; converged means that every operation ever enqueued was answered |
| Conservation.ElectedIsServed | server/server.go:973-1042 | the master with the current ID never meets an error that ends its session |
| Reconcile.InOrderCovers | rib/reconciler/reconcile.go:101-104 | sorting the operations into lists and sending the lists in order neither loses nor repeats one |
| Reconcile.ArrangedElements | rib/reconciler/reconcile.go:101-104 | arranging by category keeps every operation once and in phases |
| Reconcile.SortedFiled | rib/reconciler/reconcile.go:272-437 | which list is which, read off both contents: additions are of what dst lacks, replaces of what differs, deletes of what src lacks; each kind, each table, each payload; REPLACE exactly where it was asked for |
| Reconcile.SortedComplete | rib/reconciler/reconcile.go:272-437 | no slot of the NIs of src that calls for an operation is left out of its list |
| ReconcileImpl.DiffUpserts | rib/reconciler/reconcile.go:272-380 | additions and replaces for one table, each filed where it belongs |
| ReconcileImpl.DiffDeletes | rib/reconciler/reconcile.go:382-437 | deletes for one table, filed as such |
| ReconcileImpl.Diff | rib/reconciler/reconcile.go:234-440 | exactly one operation per differing slot, of the right kind and contents, with consecutive IDs, in the list that the two contents call for |
| RibImpl.RIB.RIBContents | rib/rib.go:404-406 | a copy of all network instances and entries |
| Reconciler.ReconcileRIBs | rib/reconciler/reconcile.go:105-125 | the difference of two RIBs as they are: every list in terms of their entries, every differing slot once, in phases, with distinct IDs |
| Reconciler.Institute | rib/reconciler/reconcile.go:101-104 | sending the operations to a RIB through AddEntry and DeleteEntry gets each acknowledged and leaves the RIB with the intended entries |
| Concrete.BuildOp | rib/reconciler/reconcile.go:445-530 | the operation for an entry says what that entry holds, and lists no member twice |
| Replay.DiffIsCorrect | rib/reconciler/reconcile.go:222-233 | applied in any order, the operations make dst equal to src in the NIs of src and leave the rest alone |
| Replay.DiffIsMinimal | rib/reconciler/reconcile.go:222-233 | there are as many operations as differing slots, and none if and only if nothing differs |
| Replay.SecondDiffEmpty | rib/reconciler/reconcile.go:222-233 | once the operations are applied, a second difference is empty |
| Replay.UpsertInstallable | rib/rib.go:924-1014 | whatever an upsert refers to is there by its turn |
| Replay.DeleteUnused | rib/rib.go:1024-1083 | nothing refers to what is deleted by its turn |
| Replay.ReconcileEndToEnd | rib/reconciler/reconcile.go:101-104 | replayed in order through AddEntry and DeleteEntry without forward references, no operation fails, no reference dangles on the way, what both RIBs have never goes away, and the result is src |
| RibImpl.RIB.GetRIB | rib/rib.go:2268-2409 | the entries in the tables that the filter names, each once and as it is stored, and no others |
| Get.RoundTrip | rib/helpers.go:27-73 | rebuilding from the entries in any order restores all of them, and all NIs that have any |
| Get.WantedIff | rib/rib.go:2268-2409 | a filter selects the tables that it maps to true, by name, and all of them if that is ALL |
| Get.FilteredAsNamed | rib/rib.go:2268-2409 | each entry listed is of the NI, in a selected table, and as it is stored; none is missing |
| Get.RebuiltCounters | rib/helpers.go:66-69 | the counters of a rebuilt RIB are right only if nothing refers to anything; otherwise what is in use can be deleted |
| Get.CollectedFor | rib/helpers.go:31-51 | splitting the entries by NI loses none |
| Get.RebuiltFrom | rib/helpers.go:27-73 | every entry of every response is used, the last one for each slot, and no other entries; the NIs are those mentioned and the default |
| RibHelpers.FromGetResponses | rib/helpers.go:27-73 | the rebuilt RIB: every entry of every response, the last for each slot, the NIs mentioned, and empty counters |
| AftHelper.NextHopAddrsForPrefix | afthelper/afthelper.go:42-106 | each error in its case; otherwise every next-hop's address is a key, and every summary is a next-hop of the group with its weight |
| AftHelper.ClosedResolves | afthelper/afthelper.go:75-103 | where references resolve, a present prefix can only fail for a next-hop without address |
| AftHelper.WeightPreserved | afthelper/afthelper.go:85-103 | the summaries never weigh more than the group, and as much when addresses are distinct |
| AftHelper.OutcomeIs | afthelper/afthelper.go:42-106 | in terms of the entries: which error in which case, and otherwise the addresses of all next-hops of the group, each with the weight of one that has it |
| AftHelper.SentIsResolved | afthelper/afthelper.go:75-103 | a stored next-hop, a group that lists it and a route to the group: the prefix resolves to the address that was sent with the weight that was sent, and fails only for a member without address |
| Programming.AddOne | rib/rib.go:450-463 | with an empty queue an installable operation is installed and nothing else happens |
| Programming.ProgramAndResolve | afthelper/afthelper.go:42-106 | programming a next-hop, a group with it and a route through AddEntry, and then resolving the prefix, gives that address with that weight and nothing else |

## Left out

- gRPC streams, goroutines, channels as such, locks, TLS and logging: a message is one atomic step, a channel a FIFO sequence; `Sessions` has the critical sections of election and session parameters as separate steps, RIB operations and the election decision are atomic.
- Timestamps, latencies, error texts, and `TreatRIBACKAsCompletedInFIBACKMode`, which is taken to be false.
- The resolved-entry hook, which gets a copy of the RIB on a goroutine of its own.
- Entry types other than IPv4, IPv6, MPLS with numeric labels, NHG and NH, and the schema validation of candidateRIB and the Concrete functions: entries are datatypes, and the fields that nothing here looks at are one string.
- RIBs with the check function disabled, which allow dangling references on purpose.
- Unsupported operation types (modifyEntry answers them with FAILED) and GetRequests for other tables.
- The IPv4, IPv6 and MPLS tables are one map whose keys say which table they belong to; the check closure that a holder calls is inlined into the RIB.
- Counters are unbounded, where the code has uint64; no run short of 2^64 references tells them apart.
- The pointers through which addEntryInternal appends its results are returned as what a call appends.
- AckResult, reconnecting, Reset and ReplaceStub of the client; a closed send channel, which drops messages.
- Ops.Merge, IsEmpty and DeepCopy of the reconciler.
- The stop channel of GetRIB.
- RibHelpers.FromGetResponses: takes the later of two entries for one slot, where the code merges them field by field; entries are well-formed.
- Aft.WeightMap: keeps the last weight of a next-hop that a group lists twice; the code fills the group from a Go map of paths and can keep either.
- RibImpl.RIB.AddEntry: the network instance argument is the operation's own, as all callers pass it.
- RibImpl.RIB.DeleteEntry: an entry that names an unknown network instance cannot be stored, and network instances are never removed, so the error of that case is not modelled.
- RibImpl.RIB.Flush: requires known and distinct network instances; the code dereferences nil for an unknown one and deadlocks on a repeated one.
- ServerImpl.Server.DoModify: after an error that ends the session the number of further operations that are carried out is a parameter, as it depends on when the handler waits for a channel that nobody reads; what still goes out of their results is not modelled.
- Conservation: operations are ADDs and DELETEs with a network instance and no zero next-hop index, with fresh IDs, from one client; a queued operation of another client would be answered to whoever unlocks it, and a queued REPLACE can be answered twice (`Runs.StrandedReplace`).
- AftHelper.NextHopAddrsForPrefix: parsing of the prefix is a parameter.
