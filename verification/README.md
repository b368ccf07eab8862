# MineManager: verified models

MineManager is a hub and a set of agents that keep game servers running on
remote nodes.  This project models the parts of it whose correctness is a matter
of runs and interleavings rather than of single functions, and proves what those
parts guarantee.  Where the code does not meet a guarantee one would expect, the
model keeps the code's behaviour, and what decides between success and failure is
proved for all inputs or runs: mostly as an if-and-only-if, once as a bound that
grows with the number of offending events and is reached (`RelaunchBound`,
`LateBoundIsMet`), once as safety under a discipline together with a losing
continuation for every breach of it (`SweepsAreSafe`, `OvertakingCanLose`).

`dafny verify dfyconfig.toml` checks everything.

## What is modelled

**Supervisor** (`supervisor*.dfy`, `relaunch_history.dfy`).  The agent's
bookkeeping for one instance and the monitor's restart policy, three times: as
whole calls (`SupervisorCalls`), cut at the awaits that matter (the others are
listed below) with the monitor's pass, any number of starts and all other calls
interleaved (`SupervisorInterleaving`), and
as an object whose methods update its fields (`Supervisors`).  The object is
proved against the whole calls, and the whole calls are proved to be
uninterrupted runs of the interleaved machine, so its bounds carry over.  What
single calls come to is stated once more on the bookkeeping they find, without the
functions they are built from (`SupervisorOutcomes`).  tmux, the file system and
the clock answer arbitrarily.

**Transfers** (`transfer_*.dfy`).  The byte-window queue between a producing and
a consuming hop, with its parked producer, end of stream and cancellation, what
holds in every state and that no uncancelled transfer gets stuck.

**Command calls and connections** (`agent_calls.dfy`, `agent_registry.dfy`,
`event_queue.dfy`).  Correlation of commands and answers over one socket, which
socket speaks for a node, and the bounded backlog of event subscribers.

**Hub and agents** (`node_protocol*.dfy`, `restore*.dfy`).  The distributed
protocol: a persistent database, a hub that forgets everything else when it
restarts, agent processes with session ids, redials, revocations, power requests
in flight, lost and late events, and the staggered restore of declared servers:
what it never does, and that a finished one has missed nobody.

**Files that must not be half-written** (`file_tree.dfy`, `archive_*.dfy`,
`updater.dfy`, `java_install.dfy`, `java_sweep.dfy`, `provision.dfy`).
Extraction, the jar updater, Java installs (one at a time with every step failing,
and several at once on threads) and server creation.

**Text and paths** (`texts.dfy`, `path_jail.dfy`, `roots.dfy`, `log_*.dfy`,
`java_versions.dfy`, `serverjar.dfy`).  The path jail under any symbolic links
and the hub's link-blind copy of it, the log follower, the log tail, Java version
requirements, and the start-command builder and resolver.

## Where the code falls short of its own promises

- A stop that lands while the monitor is past its `should_be_up` test is followed
  by exactly one launch (`LaunchAfterStopExactly`).
- A readiness line read between the monitor's decision to retry and the reset of
  the run erases the failure count.  Relaunches in any 60 s are at most 17, plus
  two for each relaunch whose count was so erased (`RelaunchBound`); k late lines
  and 17 + 2k relaunches do fit into one window (`LateBoundIsMet`, `BoundIsMet`),
  so late lines alone remove every fixed bound (`LateReadyUnbounded`).  A start
  that settles while the monitor has decided a relaunch but not made it clears the
  counters, and that relaunch comes on top: one more, and it is reached
  (`RelaunchBound`, `ExtraIsReached`).
- A start and an update can pass each other's tests (`UpdateAndStartCanOverlap`):
  how many launches an update in progress can still see is exact
  (`LaunchesDuringUpdate`).  A start can settle while a clean exit is still being
  reported (`StartCanOverlapCleanExit`); from which states it can is exact, wherever
  the monitor stands (`CleanExitOverlapsExactly`).
- A cancelled update leaves the instance shown as updating (`CancelUpdate`).
- After a failed upload the agent's download of it ends by itself only if
  something was queued (`FailedUploadConsumer`).  A consuming hop that is closed
  without a cancel leaves a parked producer waiting for good
  (`ParkedLeavesExactly`, `ParkedComesAbout`).
- When an agent dials again while its restore is running, the rest of the list is
  never sent: the running restore gives up and the new connection gets none
  (`RedialEndsRestores`, `OwedExactly`, `RestoreUnderWay`).  The comment in the
  restore loop says the new connection runs its own restore, which is so only for a
  restarted agent.
- A handshake of an older process handled after a newer one's asks for a second
  restore (`AsksExactly`, `StaleHelloRestoresTwice`).
- A start in flight when a stop completes arms the instance again
  (`RearmedExactly`, `StopOvertakesStart`).  The documentation of the power route
  says a killed server is meant to stay down; the code writes the flag when the
  agent answers.
- An update whose pruning of old backups raises is reported as failed with the new
  jar installed (`ApplyUpdate`); the module's own header says that on any failure
  the original stays.
- A failed extraction leaves the new files it cannot delete, and passes over that
  (`AllOrNothing`).
- A Java release whose downloaded archive cannot be deleted stays marked as being
  installed (`Install`, `StuckRelease`); a leftover file that cannot be deleted fails
  every install that sweeps (`Sweep`, `Attempt`); and a sweep can take files another
  install is using if that one enters between the sweep's test and its listing
  (`OvertakingCanLose`); the code's comment takes the test alone to be enough.
- A cancelled creation is not cleaned up and blocks its own retry (`Create`,
  `Retry`).  When a directory that was already there is emptied, one plain file
  that cannot be deleted keeps everything listed after it (`CleanUp`).
- Rename and delete act on the target of a link, not on the link
  (`ActsOnEntryExactly`); a temporary file of an extraction stands outside the jail
  when the member resolves to the root (`PartInsideExactly`, `DotMemberIsRoot`).
- With `/` as the node root the hub composes directories it then reports as
  stranded (`ServerDirUnderRootExactly`), and it strips white space at the end of
  the root that the agent keeps: exactly then it accepts what the agent refuses
  (`HubImpliesAgentExactly`, `SpacedRootDiffers`).
- A log tail whose window holds no newline returns a piece of a line as a line
  (`TailExactly`).

## Model

| member | source | states |
|---|---|---|
| RelaunchHistory.StretchBound | agent/minemanager_agent/supervisor.py:602-629 | in a history the policy allows, a stretch shorter than the crash window holds at most 5 crashes, at most 3 relaunches per crash and 2 more, plus 2 for every failure count erased late: 17 in all when none was |
| RelaunchHistory.WindowBound | agent/minemanager_agent/supervisor.py:602-629 | so are the relaunches of such a history in any half-open crash window: at most 17 plus two for each in it whose count was erased |
| RelaunchHistory.RecordExit | agent/minemanager_agent/supervisor.py:602-604 | pruning and appending keeps the crash counter equal to the exits of the last window, whatever it held before |
| RelaunchHistory.RecentExactly | agent/minemanager_agent/supervisor.py:603-603 | pruning keeps exactly the exits less than 60 s old |
| RelaunchHistory.EventuallyForgotten | agent/minemanager_agent/supervisor.py:603-603 | for any crash counter there is a clock reading at which pruning empties it |
| SupervisorCalls.DownStaysDown | agent/minemanager_agent/supervisor.py:558-661 | once should_be_up is false, no run without a start sets it, launches anything or reports the instance as supervised, under any restart policy |
| SupervisorCalls.StoppingLasts | agent/minemanager_agent/supervisor.py:279-309 | so whatever follows a stop, a kill or a shutdown short of a start, the instance stays down, is not launched and is not reported as supervised |
| SupervisorCalls.NoLaunchWhileUpdating | agent/minemanager_agent/supervisor.py:208-211 | with whole calls, no launch of any kind happens during an update |
| SupervisorCalls.CleanExitExactly | agent/minemanager_agent/supervisor.py:572-592 | a clean exit is reported iff the run had come up, ended with status 0 and the policy yields to the operator; the instance is already down and is not relaunched |
| SupervisorCalls.RetryStep | agent/minemanager_agent/supervisor.py:605-629 | each pass over a vanished never-ready run uses up one retry, whether the relaunch works, dies or raises, and nothing but a start gives one back |
| SupervisorCalls.RetryLoopEnds | agent/minemanager_agent/supervisor.py:605-661 | a server that never comes up is relaunched fewer times than it has retries left and is then down for good |
| SupervisorCalls.AtMostThreeLaunches | agent/minemanager_agent/supervisor.py:233-254 | one operator start of such a server, whatever it finds, costs at most three launches, and three passes over a vanished session end it |
| SupervisorOutcomes.RelaunchesExactly | agent/minemanager_agent/supervisor.py:558-661 | a pass of the monitor relaunches iff it is not held off, the session is gone, the instance should be up, the policy is not "never", nothing is wrong with directory or Java, the operator did not end it, and fewer than 5 crashes of the last minute (or 2 failures in a row, if it never came up) are on record; otherwise a gone instance is down, as stopped if the operator ended it and crashed if not; with its reports |
| SupervisorOutcomes.CountsExactly | agent/minemanager_agent/supervisor.py:582-653 | such a pass wipes both counters if the operator ended the server and otherwise puts the exit on the counter of its kind alone; a relaunch begins a run that has not come up |
| SupervisorOutcomes.GraceExactly | agent/minemanager_agent/supervisor.py:563-568 | a live silent instance is taken for up iff 300 s have passed since its launch; nothing else changes |
| SupervisorOutcomes.ReadyOnce | agent/minemanager_agent/supervisor.py:408-416 | a readiness line promotes a run once and gives back all its retries; a second one does nothing |
| SupervisorOutcomes.NeverIsNeverRelaunched | agent/minemanager_agent/supervisor.py:608-613 | while the policy stays "never", no run of whole calls relaunches anything |
| SupervisorOutcomes.NeverIsNeverRelaunchedBetween | agent/minemanager_agent/supervisor.py:608-613 | nor does any interleaved run, a relaunch already decided aside |
| SupervisorOutcomes.FlagsExactly | agent/minemanager_agent/supervisor.py:179-186 | which calls change the declared policy, the update and provisioning marks and the shutdown flag, and how |
| SupervisorOutcomes.StartsExactly | agent/minemanager_agent/supervisor.py:208-254 | a start launches iff no update holds the instance, no session is up and directory and Java are usable; puts it up iff it comes to a session; with states and reports |
| SupervisorOutcomes.StartClearsAccount | agent/minemanager_agent/supervisor.py:247-248 | after a start that came to a session the next vanishing is relaunched under any policy but "never", whatever happened before; only an adopted one keeps its crashes |
| SupervisorOutcomes.StopsExactly | agent/minemanager_agent/supervisor.py:279-309 | a stop or kill puts the instance down and stopped, reports stopping only for a live session asked to end, and changes nothing else |
| SupervisorOutcomes.ClaimsExactly | agent/minemanager_agent/supervisor.py:334-342 | an update claims the instance iff no session is up and none is in progress, and leaves only its policy otherwise |
| SupervisorOutcomes.UpdateRoundTrip | agent/minemanager_agent/supervisor.py:340-358 | from claim to end, over any passes of the monitor, an update leaves the instance stopped if it worked, in its earlier state if not, and otherwise unchanged |
| SupervisorInterleaving.AtMostOneLaunchAfterStop | agent/minemanager_agent/supervisor.py:569-653 | with the monitor cut at its awaits and no start in flight or arriving, a stopped instance stays down and is launched at most once, and only if the monitor was past its test |
| SupervisorInterleaving.LaunchAfterStopExactly | agent/minemanager_agent/supervisor.py:569-653 | some continuation without a start launches iff the monitor stands between its test and its launch |
| SupervisorInterleaving.StopCanLandBeyondTest | agent/minemanager_agent/supervisor.py:569-653 | a run that ends with a stop landed past the test |
| SupervisorRetries.RetriesExactly | agent/minemanager_agent/supervisor.py:605-661 | with the monitor cut at its awaits, wherever it stands and no start in flight or arriving, the most launches of a server that never comes up are exactly those its failure count leaves and one more if a relaunch was already decided; never more than three |
| SupervisorRetries.RetryingEnds | agent/minemanager_agent/supervisor.py:605-661 | whatever interleaves, every counted exit of such a server uses up a retry, and once they are used up should_be_up is false |
| SupervisorInterleaving.LaunchesDuringUpdate | agent/minemanager_agent/supervisor.py:328-358 | the most launches an update in progress can see is exactly the number of tasks past their test; an operator's launch is possible iff a start is before its launch, any launch iff so or the monitor may still come to one |
| SupervisorInterleaving.CleanExitsWithoutStarts | agent/minemanager_agent/supervisor.py:582-592 | from any point of the monitor's pass, with no start overlapping it, a clean exit is never reported for an instance the agent keeps up |
| SupervisorCleanExits.CleanExitOverlapsExactly | agent/minemanager_agent/supervisor.py:551-592 | from every state and with no further start call, a clean exit can be reported for an instance the agent keeps up iff: during the drain it is up again or a start is unfinished; at the reading of the exit status a start is unfinished; before, it is kept up and one start is unfinished, or two are, and a pass can still begin |
| SupervisorBound.RelaunchBound | agent/minemanager_agent/supervisor.py:594-661 | wherever the monitor stands once every start has settled and until the next, it relaunches at most 17 times in any half-open 60 s; one more iff a relaunch was already decided by then; and two more per later relaunch in them whose failure count a late readiness line erased, of which there are no more than late lines; its crash counter is exactly the exits of the last window |
| SupervisorBound.ExtraIsReached | agent/minemanager_agent/supervisor.py:233-254 | a start that settles while a relaunch is decided clears the account: for every k some run from there with exactly k late lines makes 18 + 2k relaunches at one clock reading |
| SupervisorBound.LateReadyUnbounded | agent/minemanager_agent/supervisor.py:403-416 | with late readiness lines it relaunches any number of times at one clock reading |
| SupervisorBound.LateBoundIsMet | agent/minemanager_agent/supervisor.py:594-661 | for every k some run with exactly k late lines makes 17 + 2k relaunches at one clock reading |
| SupervisorBound.CallRefines | agent/minemanager_agent/supervisor.py:208-358 | every whole call is the run of its own stretches between awaits, with the same bookkeeping, events and launches |
| SupervisorBound.CallsRefine | agent/minemanager_agent/supervisor.py:551-661 | so is every run of whole calls, and it never has a late readiness line |
| SupervisorBound.WholeCallBound | agent/minemanager_agent/supervisor.py:594-661 | with whole calls the bound of 17 holds from any bookkeeping and with no condition |
| SupervisorBound.BoundIsMet | agent/minemanager_agent/supervisor.py:594-661 | a flapping server reaches 17 |
| Supervisors.ManagedInstance.OnReady | agent/minemanager_agent/supervisor.py:408-416 | promotes a run once, clearing the failure count and reporting running only if it was not |
| Supervisors.ManagedInstance.StandStill | agent/minemanager_agent/supervisor.py:281-309 | down and stopped, with stopping reported first while a live session is asked to end |
| Supervisors.Supervisor.Lookup | agent/minemanager_agent/supervisor.py:179-186 | finds or creates the instance, takes the declared policy and leaves all others alone |
| Supervisors.Supervisor.Start | agent/minemanager_agent/supervisor.py:208-254 | does to its instance what the whole start call does, with its events and launches, and leaves all others alone; refused exactly during an update |
| Supervisors.Supervisor.StartSession | agent/minemanager_agent/supervisor.py:212-254 | adopts, refuses or launches, as the whole call does |
| Supervisors.Supervisor.Stop | agent/minemanager_agent/supervisor.py:279-297 | as the whole stop call |
| Supervisors.Supervisor.Kill | agent/minemanager_agent/supervisor.py:303-309 | as the whole kill call |
| Supervisors.Supervisor.CheckOne | agent/minemanager_agent/supervisor.py:558-661 | one monitor pass does to its instance what the whole check call does, in every branch |
| Supervisors.Supervisor.CountAndDecide | agent/minemanager_agent/supervisor.py:599-661 | counting, giving up and relaunching, as the policy functions say |
| Supervisors.Supervisor.BeginUpdate | agent/minemanager_agent/supervisor.py:334-342 | claims the instance iff no session is up and no update is in progress |
| Supervisors.Supervisor.EndUpdate | agent/minemanager_agent/supervisor.py:343-358 | falls back to the previous state on failure, never to updating |
| Supervisors.Supervisor.CancelUpdate | agent/minemanager_agent/supervisor.py:353-358 | a cancelled update is released with no fallback: the state stays what it was |
| Supervisors.Supervisor.ShutdownAll | agent/minemanager_agent/supervisor.py:683-686 | freezes the policy and clears should_be_up of every instance, changing nothing else |
| Supervisors.Supervisor.StopSession | agent/minemanager_agent/supervisor.py:703-719 | graceful iff a look before the deadline found the session gone; killed otherwise |
| TransferFlow.TransferGuarantees | hub/minemanager_hub/transfers.py:52-100 | in every reachable state the counter is the queued bytes and at most the window less one plus a chunk; delivered bytes are an in-order prefix of the accepted ones, all of them after a normal end; `sent` is exact |
| TransferEndings.EveryStreamCanFinish | hub/minemanager_hub/transfers.py:52-100 | from every state a run reaches without a cancel and with a consumer that reads, the stream can end, and reading on delivers every accepted byte and the one chunk held back, and finishes normally |
| TransferEndings.PutExactly | hub/minemanager_hub/transfers.py:59-83 | a put is refused iff cancelled, waits iff it is data behind a full window; the end marker never waits |
| TransferEndings.GetExactly | hub/minemanager_hub/transfers.py:85-100 | a get takes the first item and resolves the producer's future iff the backlog is then at 4 MiB or below or the transfer is cancelled |
| TransferFlow.ReleasedExactly | hub/minemanager_hub/transfers.py:85-100 | a parked producer is released by exactly the get that drains the backlog to the mark |
| TransferFlow.WaitingIsReleased | hub/minemanager_hub/transfers.py:85-100 | a parked, uncancelled producer faces a non-empty queue and is released within as many gets as it has items |
| TransferFlow.NothingAcceptedAfterCancel | hub/minemanager_hub/transfers.py:59-79 | after a cancel nothing more is accepted and a parked producer can leave at once |
| TransferEndings.CancelsExactly | hub/minemanager_hub/api/transfers.py:99-186 | what cancels a transfer, and what ends either hop |
| TransferEndings.CancelEndsConsumer | hub/minemanager_hub/api/transfers.py:175-186 | after a cancel request the consuming hop ends within the gets that queue and marker take |
| TransferEndings.CancelEndsProducer | hub/minemanager_hub/transfers.py:59-79 | once cancelled the producing hop ends at its next chunk or when its wait is over |
| TransferEndings.NothingCompletesAfterCancel | hub/minemanager_hub/api/transfers.py:99-112 | after a cancel no transfer finishes as complete, and an upload's agent gets no more bytes |
| TransferFlow.FailedUploadConsumer | hub/minemanager_hub/api/transfers.py:153-158 | the consuming hop of a failed upload can end by itself iff something is queued at that moment |
| TransferFlow.StrandedComesAbout | hub/minemanager_hub/api/transfers.py:153-158 | a run after which the consuming hop waits for good |
| TransferFlow.ParkedLeavesExactly | hub/minemanager_hub/api/transfers.py:99-112 | a parked producer can go on without a cancel, a failed command or an abort iff it was released or cancelled already or somebody still reads |
| TransferFlow.ParkedComesAbout | hub/minemanager_hub/transfers.py:59-79 | a run of three acts after which a parked producer waits for good |
| TransferContexts.TransferContext.PutBegin | hub/minemanager_hub/transfers.py:59-67 | put up to its wait: refused, queued, or parked on the one shared future |
| TransferContexts.TransferContext.PutWake | hub/minemanager_hub/transfers.py:75-83 | the rest of a put that waited |
| TransferContexts.TransferContext.MaybeResume | hub/minemanager_hub/transfers.py:93-100 | resolves and drops the future exactly at or below the mark or on cancel |
| TransferContexts.TransferContext.Get | hub/minemanager_hub/transfers.py:85-91 | takes the first item, gives its bytes back and wakes the producer exactly when the step says |
| TransferContexts.TransferContext.Finish | hub/minemanager_hub/transfers.py:102-106 | the first finish fixes the time; state and error are the latest |
| TransferContexts.TransferContext.WaitAndGet | hub/minemanager_hub/transfers.py:85-91 | a turn of a consuming hop takes the first of what was queued and what arrived while it waited |
| TransferContexts.SendAll | hub/minemanager_hub/api/transfers.py:99-112 | with chunks arriving and cancel requests coming between its turns the download loop sends on the data queued first, in order, up to the end marker if it is reached; `sent` is its length; it finishes as done iff the marker was reached and nobody had cancelled by then |
| TransferContexts.CancelIsMarked | hub/minemanager_hub/api/transfers.py:180-184 | what each turn queues arrives, a cancel request's end marker behind it |
| TransferContexts.TransferContext.CancelRequest | hub/minemanager_hub/api/transfers.py:175-184 | sets cancel and finishes as cancelled |
| TransferContexts.TransferRegistry.Sweep | hub/minemanager_hub/transfers.py:143-151 | removes exactly the contexts older than six hours or finished more than 90 s ago |
| TransferContexts.TransferRegistry.Create | hub/minemanager_hub/transfers.py:128-134 | refused iff a live transfer holds the id; otherwise a fresh context under it |
| AgentCalls.CallInv | hub/minemanager_hub/agents/registry.py:72-104 | over any run: only unfinished calls are pending, a call that is neither pending nor finished has a settled future, answers carry the call's own id |
| AgentCalls.OutcomeIsFinal | hub/minemanager_hub/agents/registry.py:85-97 | a finished call keeps its outcome whatever arrives later |
| AgentCalls.FirstAnswerWins | hub/minemanager_hub/agents/registry.py:93-104 | a call gets the first answer to its own id or the first loss of the connection, whichever came first; late, duplicate and foreign answers change nothing |
| AgentCalls.EndsExactly | hub/minemanager_hub/agents/registry.py:84-91 | an act ends a running call as failed write iff the write raised while it was being written, as timeout iff its wait expired, as cancelled iff its task was, as lost or answered iff it woke to such a future; nothing else ends it |
| AgentCalls.OutcomeBecause | hub/minemanager_hub/agents/registry.py:84-104 | over any run every outcome goes back to the act that gives it, at a moment when the call was running and in the phase that outcome needs |
| AgentCalls.PendingExactly | hub/minemanager_hub/agents/registry.py:84-104 | the table holds exactly the calls that began, are unfinished and saw no loss of the connection since |
| AgentCalls.NoCallIsStranded | hub/minemanager_hub/agents/registry.py:86-104 | after the connection is lost every unfinished call finishes when next scheduled |
| ConnectionLifecycle.NewestConnectionSpeaks | hub/minemanager_hub/agents/registry.py:115-136 | a connection speaks for a node iff it was registered last and neither torn down nor revoked since |
| ConnectionLifecycle.RejectedExactly | hub/minemanager_hub/agents/registry.py:115-136 | an act rejects the calls of exactly the connection it tears down, displaces or revokes; registering again the one that speaks rejects none |
| ConnectionLifecycle.DisplacedCallsRejected | hub/minemanager_hub/api/agent_ws.py:274-285 | a registered connection that no longer speaks had its calls in flight rejected after it registered |
| AgentRegistries.Reply.Offer | hub/minemanager_hub/agents/registry.py:96-97 | a future is settled once |
| AgentRegistries.AgentConnection.BeginCall | hub/minemanager_hub/agents/registry.py:81-84 | registers a new unsettled future under the command's id |
| AgentRegistries.AgentConnection.EndCall | hub/minemanager_hub/agents/registry.py:90-91 | removes exactly that id |
| AgentRegistries.AgentConnection.Resolve | hub/minemanager_hub/agents/registry.py:93-97 | settles the future of the answer's id and no other |
| AgentRegistries.AgentConnection.FailAll | hub/minemanager_hub/agents/registry.py:99-104 | breaks every unsettled future, keeps the settled ones, empties the table |
| AgentRegistries.AgentConnection.Close | hub/minemanager_hub/agents/registry.py:60-66 | marks the connection closed and rejects its calls |
| AgentRegistries.AgentRegistry.Register | hub/minemanager_hub/agents/registry.py:115-125 | newest wins; the displaced connection is rejected and handed back for closing |
| AgentRegistries.AgentRegistry.Teardown | hub/minemanager_hub/api/agent_ws.py:278-285 | removes the entry only if it is still this connection's, and rejects its own calls either way |
| AgentRegistries.AgentRegistry.Disconnect | hub/minemanager_hub/agents/registry.py:132-136 | removes and closes the node's connection |
| AgentRegistries.AgentRegistry.Subscribe | hub/minemanager_hub/agents/registry.py:165-165 | adds the sink to its node's set |
| AgentRegistries.AgentRegistry.Unsubscribe | hub/minemanager_hub/agents/registry.py:168-173 | removes that sink of that node only, leaving no empty entry |
| AgentRegistries.AgentRegistry.Publish | hub/minemanager_hub/agents/registry.py:156-161 | every sink of the node gets the event once, whichever of the others raise; no other sink sees it |
| AgentRegistries.Subscriber.Sink | hub/minemanager_hub/agents/registry.py:179-187 | drops the oldest event only when full; never blocks, never exceeds the bound |
| EventQueues.BacklogIsSuffix | hub/minemanager_hub/agents/registry.py:175-191 | over any run the backlog is a suffix of what was published since the subscription and what was delivered is an in-order selection of the rest |
| EventQueues.EventsConserved | hub/minemanager_hub/agents/registry.py:179-187 | published less delivered less queued is exactly the number of publications that found the queue full |
| EventQueues.LosslessExactly | hub/minemanager_hub/agents/registry.py:179-187 | delivered followed by backlog is all that was published iff none did |
| NodeProtocolSafety.StepKeepsInv | hub/minemanager_hub/api/agent_ws.py:127-285 | every act of hub, agents and operator, late handshakes included, keeps the invariants of sockets, ownership and restores |
| NodeProtocolSafety.RunKeepsInv | hub/minemanager_hub/api/reconcile.py:81-146 | so does every run |
| NodeProtocolSafety.RunKeepsHoused | hub/minemanager_hub/db/models.py:62-83 | over every run each declared instance lives on a declared node |
| NodeProtocolSafety.StepKeepsProcesses | hub/minemanager_hub/api/agent_ws.py:127-145 | every act whose handshakes come from live processes keeps each process to one request for a restore |
| NodeProtocolSafety.HandshakeOnce | hub/minemanager_hub/api/agent_ws.py:127-145 | a live process's handshake asks for a restore only if it never asked before |
| NodeActs.SpeaksUntil | hub/minemanager_hub/api/agent_ws.py:226-285 | over any run a socket that speaks for its node goes on to exactly until a newer handshake on the node is handled, the node is revoked or deleted, its own socket ends or the hub restarts |
| NodeActs.AliveAfter | agent/minemanager_agent/connection.py:71-71 | the process alive on a node is the last one started there, with an id of its own for its whole life |
| NodeActs.OpenAfter | hub/minemanager_hub/api/agent_ws.py:226-285 | a socket is open from its handshake to its own end or the hub's |
| NodeActs.DeclaredAfter | hub/minemanager_hub/db/models.py:62-83 | which acts declare and remove an instance; it never changes node |
| NodeActs.NodesAfter | hub/minemanager_hub/db/models.py:62-83 | which acts declare and remove a node |
| NodeActs.ArmedAfter | hub/minemanager_hub/api/control.py:106-118 | what each act leaves of every declared flag: the operator's and an accepted request's own word, nothing after a clean exit of that instance from its own node, and otherwise what it was |
| NodeActs.InFlightAfter | hub/minemanager_hub/api/control.py:94-118 | a power request is in flight from the connection then registered until its flag is written, it fails or the hub restarts |
| RestoreGuarantees.AsksExactly | hub/minemanager_hub/api/agent_ws.py:127-145 | over any order of handling, a handshake on a declared node asks for a restore iff since each earlier one of its own session there another session was greeted on the node |
| RestoreProgress.HandshakeQueuesExactly | hub/minemanager_hub/api/agent_ws.py:226-241 | over every run, whatever socket the node had before, a handshake takes the node over and leaves a restore queued on its socket iff restores are switched on, the node is declared and the process is news there in the terms of AsksExactly |
| RestoreProgress.FinishedRestoreMissesNone | hub/minemanager_hub/api/reconcile.py:109-140 | in every run from a queued restore on, once it is over and its socket still speaks, every instance armed on the node all the time has been sent its start |
| RestoreProgress.QueuedRestoreCanFinish | hub/minemanager_hub/api/reconcile.py:109-140 | a queued restore on a speaking socket can finish by its own acts, with a start sent to every instance armed on the node |
| RestoreProgress.SwitchedOffStartsNothing | hub/minemanager_hub/api/reconcile.py:124-125 | with restores switched off no run sends a start |
| RestoreGuarantees.OneRestorePerProcess | hub/minemanager_hub/api/agent_ws.py:127-145 | if handshakes come from live processes, one that reached its declared node asked exactly once in its life, however often it redialled and the hub restarted; one that did not never asked |
| RestoreGuarantees.OneStartPerProcess | hub/minemanager_hub/api/reconcile.py:109-140 | a restore sends each instance's start at most once; over live handshakes so do all restores of one process together |
| RestoreGuarantees.EveryStartWasDue | hub/minemanager_hub/api/reconcile.py:81-140 | every start a restore ever sent was for an instance armed at that moment, on its own node, on the connection then registered |
| RestoreGuarantees.DisarmedIsNeverStarted | hub/minemanager_hub/api/reconcile.py:81-140 | a disarmed instance with no arming request in flight stays disarmed and is sent no start until the operator asks again |
| RestoreGuarantees.RearmedExactly | hub/minemanager_hub/api/control.py:106-118 | a disarmed instance can become armed with no new request iff it is declared and a start or restart of it is in flight that was already accepted or went out on the connection still registered |
| RestoreWitnesses.StopOvertakesStart | hub/minemanager_hub/api/control.py:106-118 | a run from the initial state that ends with a disarmed instance a start in flight can still arm |
| RestoreGuarantees.EventDisarmsExactly | hub/minemanager_hub/api/reconcile.py:39-58 | an event on an open socket disarms exactly the instance it names, iff it reports a clean exit and the instance is declared on that node; the ownership cache never matters |
| RestoreGuarantees.ReportDisarmsExactly | hub/minemanager_hub/api/reconcile.py:39-58 | a report disarms a row iff it is a clean exit of that instance coming from that row's node |
| Restores.HubDatabase.ClaimAgentSession | hub/minemanager_hub/api/agent_ws.py:127-145 | whether the process is new, and the session id stored with that answer |
| Restores.HubDatabase.NoteCleanExit | hub/minemanager_hub/api/reconcile.py:39-58 | disarms the instance of the reporting node on a clean exit, nothing else |
| Restores.HubDatabase.RecordPower | hub/minemanager_hub/api/control.py:115-118 | writes the declared flag of an instance that still exists |
| Restores.AgentSocket.Owns | hub/minemanager_hub/api/agent_ws.py:158-167 | cached or declared on the node; a yes is cached |
| Restores.AgentSocket.OnStateEvent | hub/minemanager_hub/api/agent_ws.py:259-265 | an event is applied iff its instance is owned |
| Restores.Restore | hub/minemanager_hub/api/reconcile.py:109-140 | sends, in order, the listed instances armed at their own pass, and ends exactly at the first pass that finds another connection |
| Restores.SentInOrder | hub/minemanager_hub/api/reconcile.py:132-140 | each armed instance of the list once, in list order, and nothing else |
| Restores.LoopIsTheRestore | hub/minemanager_hub/api/reconcile.py:109-146 | in every run of the whole system what a restore sends on its socket is what that loop sends for the views its passes found |
| RestoreCompleteness.StartedExactly | hub/minemanager_hub/api/reconcile.py:132-140 | in any run an instance of the list is sent a start iff its pass comes while the socket still speaks for the node and finds it armed |
| RestoreCompleteness.OwedExactly | hub/minemanager_hub/api/reconcile.py:132-140 | a restore can still come to start an instance ahead iff its socket speaks for the node and the instance is declared |
| RestoreCompleteness.RedialEndsRestores | hub/minemanager_hub/api/reconcile.py:135-139 | once a greeted live process dials again, no restore ever sends it another start |
| RestoreWitnesses.RestoreUnderWay | hub/minemanager_hub/api/reconcile.py:109-140 | a run from the initial state to one where the redial would end a restore with an armed instance ahead |
| Extraction.Disk.MakeDirs | agent/minemanager_agent/archive.py:132-134 | succeeds iff no file is in the way and it is not cut short, adding exactly the directories on the way |
| Extraction.Disk.WriteEntry | agent/minemanager_agent/archive.py:134-142 | the target holds the whole new content or is untouched; the temporary file is gone unless the entry failed and it cannot be deleted; succeeds iff no fault comes into play and no file or directory is in the way |
| Extraction.Disk.RollBack | agent/minemanager_agent/archive.py:146-152 | exactly the created files that can be deleted are absent again, directories stay |
| Extraction.Disk.Finish | agent/minemanager_agent/archive.py:120-153 | extracted iff no conflict was refused, no fault comes into play at any entry and nothing, old or just extracted, is in the way of any; a refused conflict changes nothing; a failure at any entry leaves what AllOrNothing says, success what LastEntryWins says; a temporary file remains only after a failure and if it cannot be deleted; no directory is lost |
| Extraction.ClashesExactly | agent/minemanager_agent/archive.py:122-126 | the conflicts reported are the names of exactly the file entries whose target exists, in plan order |
| Extraction.CountsFiles | agent/minemanager_agent/archive.py:144-153 | the count is the number of file entries |
| Extraction.DirectoriesAbove | agent/minemanager_agent/archive.py:130-133 | after success every directory above an extracted entry is there |
| Extraction.LastEntryWins | agent/minemanager_agent/archive.py:164-170 | after success every target holds the content of the last plan entry naming it, or is a directory if that is one |
| Extraction.AllOrNothing | agent/minemanager_agent/archive.py:146-152 | after a failure a planned file that did not exist is absent iff it can be deleted or no entry had written it, and is otherwise the whole content of an entry; one that did holds its whole old or whole new content; all else is unchanged |
| Extraction.LastWriteIsWhole | agent/minemanager_agent/archive.py:168-170 | what an entry wrote is the whole content of an entry for the same file |
| ArchiveSources.PlanArchive | agent/minemanager_agent/archive.py:156-170 | plans exactly the regular members, each once, in archive order, with its own target, name and bytes; refuses the whole archive iff one of them leaves the jail or together they exceed 20 GiB or the free space less 512 MiB |
| ArchiveSources.ExtractArchive | agent/minemanager_agent/archive.py:156-195 | from members to tree: extracted, every target holds exactly the bytes of the last regular member that goes there, or is a directory if that one is, in directories that exist, and no other file changes; refused iff a member, the budget or an existing target forbids it, and then nothing changes |
| ArchiveSources.SizeWithout | agent/minemanager_agent/archive.py:160-167 | the budget counts each regular member with its size and no other |
| ArchiveSources.ExtractGz | agent/minemanager_agent/archive.py:197-224 | the target holds the whole stream or nothing changed; done iff nothing raised and the stream fits |
| JavaInstalls.JavaDir.Sweep | agent/minemanager_agent/java.py:419-434 | alone and with a directory that can be listed it removes exactly the leftovers that can be deleted, otherwise none; raises iff it comes to a file that cannot |
| JavaInstalls.JavaDir.Attempt | agent/minemanager_agent/java.py:381-408 | installs iff no step raised, the sweep included, and the runtime starts and says it is exactly that release; the release path changes on failure only if the old one could not be put back |
| JavaInstalls.JavaDir.MoveIn | agent/minemanager_agent/java.py:400-408 | the verified runtime takes the release path, or the old one is back there, or both moves raised and it is empty |
| JavaInstalls.JavaDir.Install | agent/minemanager_agent/java.py:366-416 | installed iff no step raised, the runtime starts and is exactly the release asked for, and the archive could be deleted; the release path holds its previous item or such a runtime, is lost only if move and put-back both raised; staging is gone unless it cannot be deleted; the release is freed iff the archive is gone |
| JavaInstalls.StuckRelease | agent/minemanager_agent/java.py:411-416 | a later install of the release is refused iff the first came to write an archive that cannot be deleted |
| JavaSweeps.SweepsAreSafe | agent/minemanager_agent/java.py:419-434 | with several installs at once, no sweep takes a name in use while no install enters between another's test and its listing |
| JavaSweeps.OvertakingCanLose | agent/minemanager_agent/java.py:419-434 | whenever one does, some continuation loses a name in use |
| JavaSweeps.MaySweepExactly | agent/minemanager_agent/java.py:419-424 | with any installs on threads, one may sweep iff no other is active at its test |
| JavaSweeps.RunMarked | agent/minemanager_agent/java.py:372-375 | over any run the releases marked as being installed are exactly those of the active installs |
| JavaSweeps.SweepCanClear | agent/minemanager_agent/java.py:425-434 | one that may sweep can drop every leftover and go on |
| JavaSweeps.LeavingFrees | agent/minemanager_agent/java.py:411-416 | an install that ends takes exactly its own names and frees its release |
| Updater.Download | agent/minemanager_agent/updater.py:82-105 | succeeds iff the body ended in time, fits and has the expected digest; the file is then exactly the body |
| Updater.CompleteExactly | agent/minemanager_agent/updater.py:88-102 | a body is complete iff some read is its end and every read up to there succeeded in time; it is then the chunks before |
| Updater.InstanceRoot.PruneBackups | agent/minemanager_agent/updater.py:112-118 | keeps the newest five whatever happens and drops the rest unless they cannot be deleted |
| Updater.InstanceRoot.BackUp | agent/minemanager_agent/updater.py:160-163 | the copy is the whole jar iff it did not raise |
| Updater.InstanceRoot.ApplyUpdate | agent/minemanager_agent/updater.py:134-185 | the jar is replaced iff every step before and including the swap succeeded; updated is reported iff listing the backups did too; the temporary file is left only by an update that did not swap it in and could not delete it; the old jar's copy survives iff it is among the newest |
| Provisioning.GenerateConfig | agent/minemanager_agent/provision.py:142-178 | generated iff the launch did not fail with files missing, some look before the deadline found the run over, and every configuration file of the software is there at the end |
| Provisioning.Site.CleanUp | agent/minemanager_agent/provision.py:189-207 | the directory is removed if it was ours, emptied otherwise; exactly what cannot be deleted stays, and when emptying, all that is listed after a plain file that cannot |
| Provisioning.Site.Create | agent/minemanager_agent/provision.py:84-115 | a refused creation leaves the place as it was, a failed one iff all it wrote, a half-written eula.txt included, can be deleted, and the id free; a cancelled one leaves what was written |
| Provisioning.Site.Retry | agent/minemanager_agent/provision.py:96-115 | a failed creation blocks its retry iff something it wrote cannot be deleted, a cancelled one iff it had written something |
| PathJail.JailHolds | agent/minemanager_agent/files.py:56-68 | for any links an accepted path is in the real root, holds no link and is what opening it reaches; accepted iff the request leads inside |
| PathJail.OpeningResolvedReachesIt | agent/minemanager_agent/files.py:63-68 | resolving a resolved path again gives that path |
| PathJail.LinkIsFollowed | agent/minemanager_agent/files.py:63-65 | a link leads to the path it holds, a relative one below its own directory |
| PathJail.AllowanceIrrelevant | agent/minemanager_agent/files.py:65-65 | a larger allowance of links never changes an answer |
| PathJail.ChildInside | agent/minemanager_agent/files.py:232-243 | a plain new name below an accepted path is inside too |
| PathJail.ParentsInside | agent/minemanager_agent/files.py:232-243 | so is every directory that has to be made on the way: the others lie on the way to the root and exist |
| PathJail.ActsOnEntryExactly | agent/minemanager_agent/files.py:183-257 | a request acts on the entry it names iff that entry is not a link |
| PathJail.PartInsideExactly | agent/minemanager_agent/archive.py:134-138 | an extraction's temporary file is inside iff its target is not the root |
| PathJail.DotMemberIsRoot | agent/minemanager_agent/archive.py:84-91 | a member called "." targets the root |
| PathJail.NestedJails | agent/minemanager_agent/files.py:71-97 | a file request in an accepted instance stays strictly below the node root |
| PathJail.OuterJailHolds | agent/minemanager_agent/files.py:71-97 | for any links an accepted instance root is absolute, holds no link, is what opening it reaches and lies strictly inside the node root; accepted iff it leads there |
| PathJail.MemberLandsAtItsName | agent/minemanager_agent/archive.py:84-91 | without links a member lands below the archive's directory at its own name, backslashes read as slashes; refused iff the name is empty or goes up |
| PathJail.LStripExactly | agent/minemanager_agent/files.py:63-65 | slashes and backslashes at the front are dropped, all of them and nothing else |
| PathJail.SlashedExactly | agent/minemanager_agent/archive.py:86-86 | backslashes become slashes and nothing else changes |
| Roots.NormaliseMeaning | hub/minemanager_hub/roots.py:22-36 | a normalised path has the same components and no ".." |
| Roots.AcceptsExactly | hub/minemanager_hub/roots.py:22-36 | a path is taken iff, stripped, it is not empty, begins with a slash and has no NUL and no ".."; and which of these is reported |
| Roots.DoubleExactly | hub/minemanager_hub/roots.py:31-36 | exactly two slashes at the front are kept as two; three and more are one |
| Roots.StrandedExactly | hub/minemanager_hub/roots.py:44-70 | a usable path is stranded iff the node has a root and it is unusable or not strictly above the path |
| Texts.StripExactly | hub/minemanager_hub/roots.py:24-24 | stripping takes white space off both ends and nothing else |
| Texts.SpacesAre | hub/minemanager_hub/roots.py:24-24 | which characters count as white space |
| Roots.IdempotentExactly | hub/minemanager_hub/roots.py:22-36 | normalising again changes nothing iff the result does not end in white space |
| Roots.HubImpliesAgent | hub/minemanager_hub/roots.py:58-70 | on a tree without links the agent accepts what check_under returns |
| Roots.AgentImpliesHubExactly | hub/minemanager_hub/roots.py:58-70 | the converse holds iff root and path begin with equally many slashes |
| Roots.HubImpliesAgentExactly | hub/minemanager_hub/roots.py:22-70 | for an absolute root, on a tree without links, all the hub accepts the agent accepts iff the root does not end in white space or the hub refuses every instance |
| Roots.ServerDirMeaning | hub/minemanager_hub/roots.py:39-41 | a new server's directory is the root's components and the name |
| Roots.ServerDirInjective | hub/minemanager_hub/roots.py:39-41 | two valid names never share a directory |
| Roots.ServerDirUnderRootExactly | hub/minemanager_hub/roots.py:39-55 | the hub's own check passes it iff the root is not "/" |
| LogFollow.SplitAppend | agent/minemanager_agent/logtail.py:49-50 | splitting in two steps with the carried buffer is splitting at once |
| LogFollow.SplitExactly | agent/minemanager_agent/logtail.py:50-50 | lines, each with its newline, and the tail are the text, and none holds a newline |
| LogFollow.GrowingFile | agent/minemanager_agent/logtail.py:20-54 | while the file only grows the lines yielded are exactly the complete lines of the bytes consumed and the buffer is the rest |
| LogFollow.FollowsAppended | agent/minemanager_agent/logtail.py:20-54 | a follower that begins at the end of the file, as the supervisor starts it, yields exactly the complete lines of what is appended after that |
| LogFollow.SplitsLeaveNoTrace | agent/minemanager_agent/logtail.py:20-54 | two followers that read equally far yielded the same, whatever their polls |
| LogFollow.NewFileNewAccount | agent/minemanager_agent/logtail.py:29-38 | over any polls, from a replaced or truncated file on a follower yields what a follower of that file alone would, and drops the old unfinished rest |
| LogFollow.LogFollower.PollOnce | agent/minemanager_agent/logtail.py:20-54 | one turn of the loop is one poll, its lines stripped of carriage returns |
| LogFollow.ChompExactly | agent/minemanager_agent/logtail.py:51-54 | stripping takes all the carriage returns at the end of a line and nothing else |
| LogFollow.ChompedExactly | agent/minemanager_agent/logtail.py:51-54 | each line stripped, none added or dropped |
| LogTail.CutAfterLine | agent/minemanager_agent/files.py:226-228 | cutting a text after a whole line cuts its lines there |
| LogTail.CutInsideLine | agent/minemanager_agent/files.py:226-228 | cutting inside a line splits that line in two |
| LogTail.BreaksAre | agent/minemanager_agent/files.py:226-228 | the characters at which a line ends |
| LogTail.TailExactly | agent/minemanager_agent/files.py:204-229 | the result is the end of the file's own lines iff not: the window has no newline, begins inside a line, and that line is returned |
| LogTail.TailLength | agent/minemanager_agent/files.py:204-229 | how many lines come back: those asked for as far as they go, in a file larger than the window those after its first newline |
| LogTail.PieceOfALongLine | agent/minemanager_agent/files.py:204-229 | an instance where it is not |
| JavaVersions.ParsesExactly | shared/minemanager_shared/java.py:61-74 | a version is understood iff it is a dotted number up to its end or a suffix, and reads as the values of its parts |
| JavaVersions.RoundTrip | shared/minemanager_shared/java.py:65-74 | a written version reads back as itself |
| JavaVersions.OrderTotal | shared/minemanager_shared/java.py:92-94 | the version order is total and antisymmetric |
| JavaVersions.OrderTransitive | shared/minemanager_shared/java.py:92-94 | and transitive |
| JavaVersions.RulesExactly | shared/minemanager_shared/java.py:87-88 | which table a software uses |
| JavaVersions.RequirementFor | shared/minemanager_shared/java.py:91-97 | the row used is the greatest at or below the version, or the first when none is |
| JavaVersions.Require | shared/minemanager_shared/java.py:85-97 | None exactly for unknown software or an unreadable version, the row's requirement otherwise; the releases the agent manages always suffice and give the recommended one |
| JavaVersions.RequirementMonotone | shared/minemanager_shared/java.py:85-97 | a later version never needs less, and the row is unique |
| JavaVersions.PicksBest | shared/minemanager_shared/java.py:104-112 | None iff nothing offered suffices; otherwise the recommended release if offered, else the least that suffices |
| JavaVersions.PickIndependent | shared/minemanager_shared/java.py:109-112 | neither order nor repetition of the offers matters |
| JavaVersions.MajorOfNumber | agent/minemanager_agent/java.py:74-82 | a version that starts with n other than 1 is release n |
| JavaVersions.MajorOfOneDot | agent/minemanager_agent/java.py:74-82 | one that starts with 1.n is release n |
| JavaVersions.MajorExactly | agent/minemanager_agent/java.py:74-82 | a release is read iff the version begins with a digit: its first number, or the second after a leading 1 |
| ServerJar.MemorySizeIsPlain | hub/minemanager_hub/api/schemas.py:71-87 | every memory size the API admits is one plain word |
| ServerJar.BuilderRoundTrip | hub/minemanager_hub/serverjar.py:147-151 | the resolver finds, in every command the builder makes from a plain memory size, the jar installed for that software |
| ServerJar.QuotedPathSurvivesExactly | hub/minemanager_hub/serverjar.py:50-90 | a launch of any quoted path resolves to it iff the path does not begin with "@" |
| ServerJar.NeverGuesses | hub/minemanager_hub/serverjar.py:66-105 | a parsed path is one the command names, of a command that runs java and reads no argument file; only an operator's path may be created |
| ServerJar.LexExactly | hub/minemanager_hub/serverjar.py:50-57 | a command line can be read iff it is written in legal pieces (blanks, bare and backslashed characters, single and double quotes), and its tokens are the words those pieces make up, however it is taken apart |
| ServerJar.TokenizeExactly | hub/minemanager_hub/serverjar.py:50-59 | the tokens are those of such a reading if there is one, and the words between white space otherwise |
| ServerJar.BuiltExactly | hub/minemanager_hub/serverjar.py:125-151 | the start commands of new servers, in full |
| ServerJar.ResolvesExactly | hub/minemanager_hub/serverjar.py:66-105 | any tokens resolve to what the first token naming a jar names, else to the only jar of the first class path, and to nothing without java or with an argument file |
| ServerJar.JavaIs | hub/minemanager_hub/serverjar.py:62-63 | a token runs java iff it is java or a path that ends in /java |
| ServerJar.JarsExactly | hub/minemanager_hub/serverjar.py:98-103 | the jars of a class path are the entries ending in .jar with no wildcard, in order |
| ServerJar.SplitColonExactly | hub/minemanager_hub/serverjar.py:99-102 | a class path is its entries with colons between them |
| ServerJar.WordsExactly | hub/minemanager_hub/serverjar.py:50-59 | the fallback keeps every character but white space, in order, in words that are never empty |
| ServerJar.WordsCut | hub/minemanager_hub/serverjar.py:58-59 | and white space always ends a word |

## Left out

- SupervisorInterleaving: waits between setting flags and reporting the state are not steps of their own where the report alone comes later: stopping the pane mirror in readiness and adoption, replaying the pane after a start or a relaunch that died, and the kill of a session. A report that comes later is an act of its own (Reported). The probe before an update's claim is part of the claim, since nothing read before it is used after it.
- SupervisorBound.WholeCallBound: real time is not used; with the monitor's pause of three seconds between passes and the settle window fewer than 17 relaunches fit into a minute.
- Supervisors.Supervisor.Stop: the wait for the session to end is StopSession, and the states reported before and after it are one method here.
- The supervisor's `forget`, the console commands, the pane mirror, its replay and trimming, and the wording of details and logs.
- AgentCalls: waiting for the send lock is part of writing the frame. When an answer and the timeout race, either outcome is possible.
- NodeProtocol: a restore's start counts as sent when the call begins, before its frame has the send lock. The list of a restore is any duplicate-free listing of the armed instances; ordering it by name is the query's.
- NodeProtocol: an agent process belongs to one node; one that enrols for another node keeps its session id, which the model does not follow. Authentication of handshakes is not modelled.
- Heartbeats and their ownership filter, decoding of frames, last-seen times, enrolment and credentials.
- Reconnect backoff of the agent, and the cancelling of its commands in flight when a socket ends.
- TransferContexts.SendAll: what arrives and who cancels while it waits is given; the producer that queues it, and is parked and woken by it, is TransferFlow.
- TransferFlow: the request handlers around the two hops (headers, status codes, progress) and several producers on one context.
- Extraction.Disk.Finish: directories made for a failed extraction stay, as they do in the source. RAR archives share this path but are not planned here.
- JavaInstalls.JavaDir.Install: download, unpacking and probing are outcomes; a directory that can only be deleted in part counts as one that cannot. Discovery, removal and the probe cache are not modelled.
- Updater.InstanceRoot.ApplyUpdate: the checks that the instance root exists and that the jar lies inside it come before what is modelled; the listing of backups is any enumeration called sorted; names with glob characters and two updates within one second are not distinguished. On cancellation the download thread may outlive the call.
- Provisioning.Site.Create: directories are sets of names; killing the session and forgetting the instance succeed; a directory that can only be deleted in part counts as one that cannot; the optional final start is not modelled.
- PathJail: names are compared as text and links do not change during a request; "." and empty names are dropped when a path is read, as pathlib does. A walk through more links than its allowance raises, where the source raises only on a cycle.
- Roots: white space is ASCII white space.
- LogFollow: decoding of bytes to text happens per complete line and is not modelled. LogTail works on characters, so a window boundary inside a multi-byte character is not.
- JavaVersions: digits and white space are ASCII; the tables hold versions already read.
- ServerJar: white space of the fallback split is ASCII.
- Web interface, provider catalogues, configuration, request guards, database migrations.
