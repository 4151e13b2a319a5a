# Benchmark evidence, verified

A Dafny model of the evidence pipeline in `scripts/benchmark_evidence/` and of the sampling oracle in
`bench/rand_sample/main.c`, with proofs of what they promise. `dafny verify dfyconfig.toml` checks it all.

The pipeline runs a fixed benchmark schedule under a host-wide lease, watches the host while it runs, binds
the result to raw Git objects, decides a verdict and publishes a signed report, failing closed at every step.

- **The exclusive run** (`Reservation`, `Protocol`, `Exclusion`, `LeaseObject`, `Cleanup`, `Schedule`,
  `ControllerRun`). Any number of processes interleave single system calls, each of which may fail; processes
  die and the host crashes. The protocol is a machine over these steps; `ExclusiveRun` and `Controller.run` are
  objects that act on it.
- **The monitor** (`Monitor*`). The incremental session, the from-scratch range checker and the replay, proved
  to agree with each other and with a grammar of traces.
- **The merge race** (`FirstParent`, `MergeRace`, `MergeRaceOutcomes`, `MergeRaceObjects`). A transaction against a remote that
  moves, replaces and loses objects between any two steps.
- **Raw Git and codecs** (`Text`, `Decimal`, `Order`, `Git*`, `Layout`, `Symlinks`, `CanonicalJson`, `Base64`,
  `SshSig`). Parsers as exact inverses of writers, the batch stream, tree closure, diff, chain, review, source layout.
- **Arithmetic and sets** (`Sampling`, `BoundedDraw`, `Shuffle`, `CpuSet`, `Verdict`). `Common` holds what several
  modules share.

## How the source is represented

- An object whose methods update fields is a class with the same fields, usually gathered in one record; a
  method that raises returns `false` or `None`. Each such method is proved to be a step of a function on values,
  and the properties are proved of that function over all runs.
- System calls, pipes and remote changes are nondeterministic; the hooks of one run are an arbitrary table of
  answers, since each is asked once, or once for each child. Hashes, UTF-8, case folding, JSON
  escapes and the text rules on names are function parameters: the theorems hold for all of them, or
  for all that meet a stated condition.
- Bytes are written as characters; where their size matters, a condition says they are below 256.
- Integers are unbounded, and every u32, u64 and 2^64 bound of the source is written out.

## What the proofs found

- `os.path.lexists` answers no on any `lstat` error. A run keeps one lease in force if and only if no probe under
  the lock errs that way while a reservation stands (`ExclusionIffHonest`); the first probe and the probe of a
  restore may err without harm to exclusion, and children never overlap even so.
- `create_reservation` refuses malformed arguments before writing, and the failure path then drops the lock:
  a fail-closed run leaves a guard if and only if its arguments meet the reservation grammar
  (`FailClosedIffWellFormed`). The command line admits directories outside it, such as `/out dir`
  (`SpacedDirectoryLosesGuard`).
- Acceptance of a merge binds the verified commit if and only if the stored artifact was not altered after
  staging (`AcceptanceBinds`, `AlteredArtifactIsAccepted`). `queue_merge` files its commit before it refuses a
  malformed response.
- A fixed review headed at the baseline is accepted by the binder and refused by the verifier
  (`ReviewsAgree`, `BaselineHeadParts`).
- Unreachable in the code: the fallback reservation in `_failure`, the refusal of a second preparation, the
  sort, overlap and coverage checks of the range checker, the recheck in `finish`, the file/directory check of
  the layout, and the closing re-encode comparisons of the Git object, SSHSIG binary and armor parsers.

## Model

| member | source | states |
|---|---|---|
| `Protocol.StepKeepsInv` | scripts/benchmark_evidence/exclusive_run.py:66-273 | every system call, controller move, death, write-back and crash keeps, for every process, what its program point says about lock, flags, entry and disk; any call may fail and any probe may err, as long as the probe under the lock does not miss a standing reservation |
| `Exclusion.RunKeepsInv` | scripts/benchmark_evidence/controller.py:443-549 | the invariant holds in every state of every run of any number of processes, up to the first probe under the lock that misses a standing reservation |
| `Exclusion.InvMeansOneInForce` | scripts/benchmark_evidence/exclusive_run.py:66-91 | at most one lease is in force: running after acquire, holding the lock, or with its reservation standing |
| `Exclusion.AcquireExclusion` | scripts/benchmark_evidence/exclusive_run.py:66-91 | when a second acquire succeeds, the first lease has ended and left neither lock nor reservation; only the probes under the lock must have seen a standing reservation |
| `Exclusion.ChildrenNeverOverlap` | scripts/benchmark_evidence/controller.py:458-481 | no two processes run children at the same time, in every run, even when probes err |
| `Exclusion.OnlyOwnReservation` | scripts/benchmark_evidence/exclusive_run.py:116-181 | no lease unlinks or overwrites a reservation another one made |
| `Exclusion.CreatesAreClearIff` | scripts/benchmark_evidence/exclusive_run.py:146-157 | no exclusive create ever meets an entry, in all states of a run, if and only if no probe of a restore has missed one |
| `Exclusion.LockLeavesAGuard` | scripts/benchmark_evidence/exclusive_run.py:183-273 | a lease gives up the flock only while its entry is synced, or after completing its own durable removal and returning |
| `Exclusion.AbandonedBlocks` | scripts/benchmark_evidence/exclusive_run.py:66-91 | an abandoned reservation blocks every later acquire, across crashes too once it is on disk |
| `Exclusion.FinishedRunGuards` | scripts/benchmark_evidence/exclusive_run.py:211-273 | accepted and rejected leases leave nothing behind; a fail-closed one with well-formed arguments leaves the lock or a durable reservation |
| `Exclusion.RemovalRejects` | scripts/benchmark_evidence/exclusive_run.py:235-273 | from every reachable state, a lease that fails without doubt and whose calls are granted unlinks, syncs and unlocks, and ends rejected with lock, entry and disk clear |
| `Exclusion.DoubtKeepsReservation` | scripts/benchmark_evidence/exclusive_run.py:235-273 | from every reachable state, a lease that fails in doubt and whose unlock is granted ends fail-closed with the lock free and the reservation on disk |
| `Exclusion.PublicationAccepts` | scripts/benchmark_evidence/exclusive_run.py:183-233 | from every reachable state, a publication whose calls are granted ends accepted with lock, entry and disk clear |
| `Exclusion.ReachRejected` | scripts/benchmark_evidence/controller.py:405-417 | a run that acquires, reserves, fails without doubt and is rejected with nothing left |
| `Exclusion.CrashForgetsUnsynced` | scripts/benchmark_evidence/exclusive_run.py:29-35 | a crash forgets an entry that was not synced and keeps one that was written back |
| `Exclusion.BlindProbesLoseReservation` | scripts/benchmark_evidence/exclusive_run.py:66-91 | a run in which `os.path.lexists` errs twice and a second lease unlinks the reservation of a publication in progress |
| `Exclusion.ExclusionIffHonest` | scripts/benchmark_evidence/exclusive_run.py:83-89 | for every run and every point of it: at most one lease was in force so far if and only if no probe under the lock has answered no while a reservation stood |
| `Exclusion.MalformedLosesGuard` | scripts/benchmark_evidence/exclusive_run.py:159-181 | for all arguments outside the grammar, a run with truthful probes that ends fail-closed with no guard |
| `Exclusion.FailClosedIffWellFormed` | scripts/benchmark_evidence/exclusive_run.py:159-181 | for all arguments: every fail-closed run with them leaves a guard if and only if the run ID is 64-hex and the directory meets the path grammar |
| `Exclusion.SpacedDirectoryLosesGuard` | scripts/benchmark_evidence/cli.py:97-101 | the output directory `/out dir` passes the command line and ends such an unguarded run |
| `Reservation.ValidIffSpelled` | scripts/benchmark_evidence/exclusive_run.py:19-26 | the checks on a path accept exactly a slash and components joined by slashes: allowed characters, none empty, `.` or `..` |
| `Reservation.ReservableIsAdmitted` | scripts/benchmark_evidence/cli.py:85-88 | every directory a reservation accepts is admitted by the command line |
| `Reservation.SpacedIsRefused` | scripts/benchmark_evidence/cli.py:85-88 | the command line admits a directory that no reservation accepts |
| `Reservation.RawDetermines` | scripts/benchmark_evidence/exclusive_run.py:165-165 | the reservation text tells the run ID and the directory |
| `LeaseObject.ExclusiveRun.Acquire` | scripts/benchmark_evidence/exclusive_run.py:66-91 | succeeds exactly when probe, open, lock and probe are all answered as hoped for, and makes just these calls, with other processes acting between them; on failure nothing is held |
| `LeaseObject.ExclusiveRun.WriteAll` | scripts/benchmark_evidence/exclusive_run.py:116-144 | the short-write loop ends and leaves the whole text written or the file to be dropped |
| `LeaseObject.ExclusiveRun.WriteReservationFile` | scripts/benchmark_evidence/exclusive_run.py:116-144 | succeeds exactly when the create, every write and the file sync are granted, in this order; failure marks the path uncertain |
| `LeaseObject.ExclusiveRun.RestoreReservation` | scripts/benchmark_evidence/exclusive_run.py:146-157 | probes first; the reservation is certain again exactly when every call after the probe is granted, else it stays uncertain |
| `LeaseObject.ExclusiveRun.CreateReservation` | scripts/benchmark_evidence/exclusive_run.py:159-181 | succeeds exactly for well-formed arguments with all calls granted, the directory sync last; failure stands where abort begins |
| `LeaseObject.ExclusiveRun.ReleaseLockForPublication` | scripts/benchmark_evidence/exclusive_run.py:183-189 | success gives the lock up under a durable reservation; failure keeps the flags |
| `LeaseObject.ExclusiveRun.MarkPublished` | scripts/benchmark_evidence/exclusive_run.py:191-194 | the published flag, with the reservation still held |
| `LeaseObject.ExclusiveRun.AcquireFinalizationLock` | scripts/benchmark_evidence/exclusive_run.py:93-114 | the lock taken again, or nothing changed |
| `LeaseObject.ExclusiveRun.RemoveReservation` | scripts/benchmark_evidence/exclusive_run.py:211-262 | succeeds exactly when unlink and directory sync are granted; after a failure a restore follows |
| `LeaseObject.ExclusiveRun.FinalizePublication` | scripts/benchmark_evidence/exclusive_run.py:211-233 | accepted exactly when its five calls are granted in order; a failure under the lock is followed by a restore |
| `LeaseObject.ExclusiveRun.Abort` | scripts/benchmark_evidence/exclusive_run.py:235-273 | a requested removal ends rejected if and only if unlink, sync and unlock were made and granted, and a restore follows any failure; without one the lock is given up exactly when the path is certain and the unlock granted |
| `Cleanup.CleanupTransaction.Attach` | scripts/benchmark_evidence/cleanup.py:55-61 | exactly a live transaction without staging takes a named resource |
| `Cleanup.CleanupTransaction.Remove` | scripts/benchmark_evidence/cleanup.py:63-67 | exactly a held resource goes, and only it |
| `Cleanup.CleanupTransaction.SetManifestState` | scripts/benchmark_evidence/cleanup.py:69-74 | a manifest once seen changed stays changed, and nothing else moves |
| `Cleanup.CleanupTransaction.StageReport` | scripts/benchmark_evidence/cleanup.py:90-97 | staging starts only with no resources and unchanged manifests |
| `Cleanup.CleanupTransaction.CreateReservation` | scripts/benchmark_evidence/cleanup.py:99-105 | reservation only after staging |
| `Cleanup.CleanupTransaction.ReleaseLock` | scripts/benchmark_evidence/cleanup.py:107-114 | unlock only under staging and reservation |
| `Cleanup.CleanupTransaction.PublishOutput` | scripts/benchmark_evidence/cleanup.py:116-123 | publication only after the unlock; staging is then cleared |
| `Cleanup.CleanupTransaction.RemoveReservation` | scripts/benchmark_evidence/cleanup.py:125-129 | the reservation goes only after publication |
| `Cleanup.CleanupTransaction.Accept` | scripts/benchmark_evidence/cleanup.py:131-137 | acceptance happens exactly at the end of the publication order with no resources left |
| `Cleanup.CleanupTransaction.Abort` | scripts/benchmark_evidence/cleanup.py:139-164 | a clean abort drops every guard it can; a failed cleanup keeps or installs the reservation before it drops the lock |
| `Schedule.MeasuredPlans` | scripts/benchmark_evidence/schedule.py:71-93 | the loops build warm-ups and alternating sample pairs as the closed form says |
| `Schedule.FullSchedule` | scripts/benchmark_evidence/schedule.py:95-111 | the fixed schedule is the closed form of all children |
| `Schedule.PreparedOnceAndFirst` | scripts/benchmark_evidence/schedule.py:95-111 | each product is prepared once, before any child that uses it |
| `Schedule.PairsAlternate` | scripts/benchmark_evidence/schedule.py:71-93 | measured pairs hold both revisions and alternate their order |
| `Schedule.SampledOnce` | scripts/benchmark_evidence/schedule.py:71-93 | each revision of each benchmark is sampled exactly once in each of the ten pairs |
| `Schedule.WarmedUpOnce` | scripts/benchmark_evidence/schedule.py:71-93 | each benchmark is warmed up once at the baseline, then once at the candidate |
| `Schedule.ScheduleState.Start` | scripts/benchmark_evidence/schedule.py:136-153 | exactly the next plan starts, with a well-formed fresh ID; the missing-manifest refusal is unreachable |
| `Schedule.ScheduleState.Finish` | scripts/benchmark_evidence/schedule.py:155-195 | a successful preparation seals its digest once; a measured child must repeat it |
| `Schedule.ScheduleState.FinishAll` | scripts/benchmark_evidence/schedule.py:197-204 | returns exactly when every child has finished |
| `ControllerRun.PreparationMap` | scripts/benchmark_evidence/controller.py:319-337 | the report's preparation digests as a dictionary, refused exactly when a product repeats |
| `ControllerRun.Run.AcquireAndReserve` | scripts/benchmark_evidence/controller.py:443-449 | acquire and reserve, or a failure whose uncertainty is recorded |
| `ControllerRun.Run.RunChild` | scripts/benchmark_evidence/controller.py:458-481 | one child runs its plan, its resources come and go, and its record is kept |
| `ControllerRun.Run.Children` | scripts/benchmark_evidence/controller.py:455-481 | the children run in order up to the first that does not start or end well; it passes exactly when none does, and a failure inside a child leaves it covered |
| `ControllerRun.Run.StageReport` | scripts/benchmark_evidence/controller.py:533-537 | staging and reservation in order |
| `ControllerRun.Run.Publish` | scripts/benchmark_evidence/controller.py:542-546 | publication happens under the reservation, without the lock |
| `ControllerRun.Run.Finalize` | scripts/benchmark_evidence/controller.py:547-550 | the reservation is removed before acceptance |
| `ControllerRun.Run.Failure` | scripts/benchmark_evidence/controller.py:367-417 | rejected exactly when the run never acquired, or nothing is in doubt, staging was discarded and every call of the abort was granted; the lease ends at the matching point |
| `ControllerRun.Run.Execute` | scripts/benchmark_evidence/controller.py:424-575 | the result is a function of the answers: rejected when acquire is refused, fail-closed when a later call is refused, else what the hooks say, a regression exactly when the verified verdict is one; with the phases, effects, transcript, cleanup result and guards each result promises; no probe under the lock may miss a standing reservation |
| `ControllerRun.TranscriptIsGood` | scripts/benchmark_evidence/controller.py:455-481 | the transcript of a run that gets past its children: every plan with its hook's result, acceptable, under distinct IDs, with the digest its product's preparation showed |
| `MonitorRanges.BlocksAreRanges` | scripts/benchmark_evidence/monitor.py:306-354 | a trace has at most one list of blocks, and it is the recomputed one |
| `MonitorRanges.PrefixPartition` | scripts/benchmark_evidence/monitor.py:477-493 | in every well-formed trace without an open child the recomputed ranges partition the child observations |
| `MonitorRanges.GroupByChild` | scripts/benchmark_evidence/monitor.py:306-354 | the insertion-ordered dictionary: each child's observations, children in order of first appearance |
| `MonitorRanges.CheckBlocks` | scripts/benchmark_evidence/monitor.py:306-354 | the per-child tests pass exactly when every child is one start/sample/end block |
| `MonitorRanges.ValidateChildRanges` | scripts/benchmark_evidence/monitor.py:306-354 | accepts exactly dense, labelled observations whose supplied ranges are the children's blocks |
| `MonitorReplay.CompareFinds` | scripts/benchmark_evidence/monitor.py:406-439 | a snapshot is quiet exactly when time advances within the gap, events and swaps stand still and pressure does not fall |
| `MonitorReplay.DoKeepsInv` | scripts/benchmark_evidence/monitor.py:441-517 | every operation keeps: observations, ranges, order, IDs and stage are what the trace alone determines |
| `MonitorReplay.LiveKeepsInv` | scripts/benchmark_evidence/monitor.py:357-531 | so after any sequence of operations |
| `MonitorReplay.LatchedNeverFinishes` | scripts/benchmark_evidence/monitor.py:392-404 | once a call has latched a violation or failed the session, no continuation of it can finish |
| `MonitorEvents.EventIsHeld` | scripts/benchmark_evidence/monitor.py:507-517 | an event is taken exactly when the session is open and its time fits; it is then held against the session, with the want of a child exactly when none is active |
| `MonitorEvents.FinishedTookNoEvent` | scripts/benchmark_evidence/monitor.py:507-531 | in a session that finishes no event was ever taken |
| `MonitorEvents.CompareExactly` | scripts/benchmark_evidence/monitor.py:406-439 | a snapshot adds exactly the violations it shows: delay, each grown counter, no child to charge, swap |
| `MonitorEvents.CompareFailsIff` | scripts/benchmark_evidence/monitor.py:406-439 | a snapshot raises exactly when time stands still or a counter or total falls |
| `MonitorReplay.RecheckNeverFails` | scripts/benchmark_evidence/monitor.py:519-531 | in every live session the incremental ranges equal those recomputed, so the recheck in finish never fails |
| `MonitorReplay.ReplayIffAccepted` | scripts/benchmark_evidence/monitor.py:270-303 | replay returns exactly for well-formed, closed, quiet traces with the expected children |
| `MonitorReplay.LiveSessionReplays` | scripts/benchmark_evidence/monitor.py:270-303 | replaying a finished live session with the same gap and order succeeds with the identical result |
| `MonitorShape.ClosedIffBlocks` | scripts/benchmark_evidence/monitor.py:441-517 | the neighbour rules describe exactly pre-build, start/sample/end blocks with one separator between them, an optional last separator, post-run |
| `MonitorShape.ReplayIffBlocks` | scripts/benchmark_evidence/monitor.py:270-303 | replay returns exactly for such traces with distinct well-formed IDs, in the expected order, and quiet |
| `MonitorLifecycleObject.MonitorLifecycle.ScanCounters` | scripts/benchmark_evidence/monitor.py:406-439 | the counter loop computes the scan of the five counters |
| `MonitorLifecycleObject.MonitorLifecycle.AppendSnapshot` | scripts/benchmark_evidence/monitor.py:406-439 | one append, or its error, as the session machine says |
| `MonitorLifecycleObject.MonitorLifecycle.OpenSession` | scripts/benchmark_evidence/monitor.py:441-444 | opening, once |
| `MonitorLifecycleObject.MonitorLifecycle.RecordPreBuild` | scripts/benchmark_evidence/monitor.py:446-449 | the first observation |
| `MonitorLifecycleObject.MonitorLifecycle.StartChild` | scripts/benchmark_evidence/monitor.py:451-470 | a fresh, expected child starts; anything else is refused |
| `MonitorLifecycleObject.MonitorLifecycle.SampleChild` | scripts/benchmark_evidence/monitor.py:472-475 | a sample of the active child |
| `MonitorLifecycleObject.MonitorLifecycle.FindStart` | scripts/benchmark_evidence/monitor.py:477-493 | the backward search finds the latest start of the child |
| `MonitorLifecycleObject.MonitorLifecycle.EndChild` | scripts/benchmark_evidence/monitor.py:477-493 | the child's range from its start to its end is appended |
| `MonitorLifecycleObject.MonitorLifecycle.RecordBetweenChildren` | scripts/benchmark_evidence/monitor.py:495-499 | the separator after a child |
| `MonitorLifecycleObject.MonitorLifecycle.RecordPostRun` | scripts/benchmark_evidence/monitor.py:501-505 | the last observation |
| `MonitorLifecycleObject.MonitorLifecycle.RecordEvent` | scripts/benchmark_evidence/monitor.py:507-517 | an outside event latches its violation |
| `MonitorLifecycleObject.MonitorLifecycle.Finish` | scripts/benchmark_evidence/monitor.py:519-531 | returns the result exactly for a closed session with the expected children and no violations |
| `MonitorLifecycleObject.ValidateReportObservations` | scripts/benchmark_evidence/monitor.py:270-303 | the replay loop returns exactly for accepted traces, with their ranges |
| `FirstParent.FirstParentContains` | scripts/benchmark_evidence/merge_race.py:296-306 | ends on every graph; found exactly when the commit is an iterate of first-parent, failed exactly when the chain breaks before it |
| `FirstParent.ObserveMerge` | scripts/benchmark_evidence/merge_verification.py:311-335 | ends on every graph; the merge is observed exactly when it is readable within the bound, and cycle, end, hole and overrun are told apart |
| `FirstParent.WalksAgree` | scripts/benchmark_evidence/merge_verification.py:311-335 | within the bound and with the merge readable, both walks find it or neither does |
| `MergeRace.MatchesIsBijective` | scripts/benchmark_evidence/merge_race.py:107-138 | an artifact matches one commit and a commit one artifact |
| `MergeRace.PayloadDetermines` | scripts/benchmark_evidence/merge_race.py:71-82 | the signed text covers the whole commit |
| `MergeRace.RunKeepsSafe` | scripts/benchmark_evidence/merge_race.py:377-488 | every interleaving of transaction steps and remote changes keeps the phase invariant, the bound base, candidate and tree, and the form of every object |
| `MergeRace.EveryInterleaving` | scripts/benchmark_evidence/merge_race.py:377-488 | lifecycle advanced iff accepted, artifact stored iff staged or accepted, blocked transaction implies blocked remote |
| `MergeRace.AcceptanceBinds` | scripts/benchmark_evidence/merge_race.py:461-488 | at acceptance the merge is on the first-parent chain and the refetched commit equals the verified one if and only if the stored artifact is the staged one |
| `MergeRace.AcceptedMergeIsVerified` | scripts/benchmark_evidence/merge_race.py:461-488 | in every run without tampering that ends accepted, the final call found the verified merge: parents (base, candidate), the candidate tree, unchanged on the remote, on the first-parent chain |
| `MergeRace.MergeAdoptsApplied` | scripts/benchmark_evidence/merge_race.py:411-433 | in every run whose transaction holds a merge, one earlier step was the merge call that applied it: the target stood at the base before, at the merge after, and the merge is the object the remote then held |
| `MergeRace.RevertRestoresBase` | scripts/benchmark_evidence/merge_race.py:381-395 | a transaction ends reverted exactly by moving the target from its merge back to the base |
| `MergeRaceOutcomes.PrecheckOutcome` | scripts/benchmark_evidence/merge_race.py:397-409 | passes exactly on the accepted ref with both targets at the base; otherwise the remote is left alone |
| `MergeRaceOutcomes.MergeOutcome` | scripts/benchmark_evidence/merge_race.py:411-433 | a moved ref or target is left alone; otherwise the applied merge is adopted exactly when the remote answers with it and can be read, and any doubt blocks both sides |
| `MergeRaceOutcomes.VerifyOutcome` | scripts/benchmark_evidence/merge_race.py:435-443 | a merge with other parents or another tree is taken off the target, exactly when it stands there and reverts work, and else blocks both sides |
| `MergeRaceOutcomes.StoreOutcome` | scripts/benchmark_evidence/merge_race.py:445-452 | so does an artifact that is not the merge's own |
| `MergeRaceOutcomes.TamperOutcome` | scripts/benchmark_evidence/merge_race.py:454-459 | so does a change that leaves no well-formed artifact |
| `MergeRaceOutcomes.FinalOutcome` | scripts/benchmark_evidence/merge_race.py:461-488 | left alone when the merge cannot be seen, accepted exactly when the seen object is the one the artifact signs, taken off otherwise |
| `MergeRaceOutcomes.RejectedHeldMergeWasUnseen` | scripts/benchmark_evidence/merge_race.py:381-488 | a transaction that holds a merge ends rejected only by a final call that cannot see the merge |
| `MergeRaceOutcomes.WalkFollowsFirstParent` | scripts/benchmark_evidence/merge_race.py:296-306 | the walk follows the first parent of each readable commit |
| `MergeRaceOutcomes.ObjectsStay` | scripts/benchmark_evidence/merge_race.py:205-226 | a filed identity changes only by its own replacement and goes only by its own removal, never as base or target |
| `MergeRaceOutcomes.TargetMoves` | scripts/benchmark_evidence/merge_race.py:228-291 | the target moves only by being set to a filed commit or none, by the queued merge, or back to the base |
| `MergeRaceOutcomes.ChangesAreMade` | scripts/benchmark_evidence/merge_race.py:205-294 | every change without a reason to refuse it is made |
| `MergeRaceOutcomes.BaseStays` | scripts/benchmark_evidence/merge_race.py:222-226 | the base commit stays filed through every run |
| `MergeRace.EndIsFinal` | scripts/benchmark_evidence/merge_race.py:377-395 | a finished transaction never changes again |
| `MergeRace.AlteredArtifactIsAccepted` | scripts/benchmark_evidence/merge_race.py:454-488 | for every digest function with 64-hex results, a run over well-formed commits and artifacts that accepts a commit with another tree after object and artifact are replaced together |
| `MergeRaceObjects.DisposableRemote.Create` | scripts/benchmark_evidence/merge_race.py:173-187 | refused unless both commits are well formed and the candidate is a direct child of the base |
| `MergeRaceObjects.DisposableRemote.AddCommit` | scripts/benchmark_evidence/merge_race.py:205-211 | an identity never gets different bytes |
| `MergeRaceObjects.DisposableRemote.ReplaceCommit` | scripts/benchmark_evidence/merge_race.py:213-220 | only a known object is replaced |
| `MergeRaceObjects.DisposableRemote.RemoveCommit` | scripts/benchmark_evidence/merge_race.py:222-226 | neither the base nor the target is removed |
| `MergeRaceObjects.DisposableRemote.SetTarget` | scripts/benchmark_evidence/merge_race.py:228-233 | the target is a known commit or none |
| `MergeRaceObjects.DisposableRemote.QueueMerge` | scripts/benchmark_evidence/merge_race.py:235-248 | the merge is filed and queued with its response; a malformed response is refused with the merge already filed |
| `MergeRaceObjects.DisposableRemote.Merge` | scripts/benchmark_evidence/merge_race.py:250-261 | applies the queued merge once, unless blocked |
| `MergeRaceObjects.DisposableRemote.SetFetchFailure` | scripts/benchmark_evidence/merge_race.py:272-280 | a well-formed identity starts or stops failing |
| `MergeRaceObjects.DisposableRemote.Revert` | scripts/benchmark_evidence/merge_race.py:286-291 | back to the base only from the named merge |
| `MergeRaceObjects.DisposableRemote.Contains` | scripts/benchmark_evidence/merge_race.py:296-306 | the walk over the objects held now |
| `MergeRaceObjects.MergeRaceTransaction.Create` | scripts/benchmark_evidence/merge_race.py:324-355 | formed exactly when the candidate is readable, a direct child of the base, with the bound tree |
| `MergeRaceObjects.MergeRaceTransaction.Fail` | scripts/benchmark_evidence/merge_race.py:381-395 | clears the artifact; blocks, reverts or rejects |
| `MergeRaceObjects.MergeRaceTransaction.Precheck` | scripts/benchmark_evidence/merge_race.py:397-409 | the step of the machine, and success exactly in turn |
| `MergeRaceObjects.MergeRaceTransaction.Merge` | scripts/benchmark_evidence/merge_race.py:411-433 | the step of the machine: applied, answered, refetched, or blocked |
| `MergeRaceObjects.MergeRaceTransaction.VerifyMerge` | scripts/benchmark_evidence/merge_race.py:435-443 | the step of the machine: parents and tree, or revert |
| `MergeRaceObjects.MergeRaceTransaction.StoreArtifact` | scripts/benchmark_evidence/merge_race.py:445-452 | the step of the machine: a matching artifact is staged |
| `MergeRaceObjects.MergeRaceTransaction.TamperArtifact` | scripts/benchmark_evidence/merge_race.py:454-459 | the step of the machine: the stored artifact is replaced, or revert |
| `MergeRaceObjects.MergeRaceTransaction.Finalize` | scripts/benchmark_evidence/merge_race.py:461-488 | the step of the machine: walk, refetch, match, accept |
| `MergeRaceObjects.MergeRaceTransaction.Drive` | scripts/benchmark_evidence/merge_race.py:377-488 | any list of calls and remote changes, each dispatched to its method: the objects end where the machine does, with lifecycle, artifact and block as the phase says, an untampered acceptance on the retained verified merge, and every held merge applied by the transaction's own call |
| `CanonicalJson.LoadsBack` | scripts/benchmark_evidence/canonical_json.py:90-125 | reading what was printed gives the value back |
| `CanonicalJson.DecodeIffEncoding` | scripts/benchmark_evidence/canonical_json.py:108-125 | bytes are accepted as a value if and only if the value is valid and the bytes are its encoding |
| `CanonicalJson.EncodeIsInjective` | scripts/benchmark_evidence/canonical_json.py:90-105 | different valid ordered values have different encodings |
| `CanonicalJson.PutIsPrefixFree` | scripts/benchmark_evidence/canonical_json.py:90-105 | no printed value continues into another one |
| `GitObjects.ParseIffEncoded` | scripts/benchmark_evidence/git_objects.py:69-102 | a record parses to an object if and only if it is that object's encoding |
| `GitObjects.FinalComparisonHolds` | scripts/benchmark_evidence/git_objects.py:100-101 | the closing comparison with the encoder never refuses a record |
| `GitObjects.VerifyIffGenuine` | scripts/benchmark_evidence/git_objects.py:112-127 | verified exactly when the record encodes a supported object and hashes to the ID |
| `GitObjects.FoundIffResponse` | scripts/benchmark_evidence/git_batch.py:33-81 | a batch response yields an object if and only if it is that object's response, byte for byte |
| `GitObjects.MissingIffResponse` | scripts/benchmark_evidence/git_batch.py:47-50 | missing if and only if the response says so for the requested ID and nothing follows |
| `GitStream.GaveExactly` | scripts/benchmark_evidence/git_revision.py:252-302 | a read gives an object if and only if the data starts with its response, within both bounds, and consumes just it |
| `GitStream.MissingExactly` | scripts/benchmark_evidence/git_revision.py:252-266 | a read reports a missing object if and only if the data starts with that report, and consumes just it |
| `GitStream.ReadsStayAligned` | scripts/benchmark_evidence/git_revision.py:252-310 | on any concatenation of well-formed responses the k-th read returns the k-th object |
| `GitStream.TalkIsAligned` | scripts/benchmark_evidence/git_revision.py:252-310 | on the responses to its requests a conversation gets every answer in its place, missing ones included, and consumes exactly them |
| `GitReader.ReadExact` | scripts/benchmark_evidence/git_revision.py:188-200 | exactly the asked bytes, for every way the pipe cuts them up |
| `GitReader.ReadLine` | scripts/benchmark_evidence/git_revision.py:203-210 | the first line, unless none ends within the header bound |
| `GitReader.WriteAll` | scripts/benchmark_evidence/git_revision.py:213-227 | through partial writes and a buffer all bytes are delivered by the closing flush, or the pipe failed and only a part is on its way |
| `GitReader.BatchReader.ReadPayload` | scripts/benchmark_evidence/git_revision.py:268-302 | the payload of the header, as the bytes alone say |
| `GitReader.BatchReader.ReadResponse` | scripts/benchmark_evidence/git_revision.py:252-302 | one response, as the bytes alone say |
| `GitReader.BatchReader.Response` | scripts/benchmark_evidence/git_revision.py:239-250 | a failure makes the reader unusable for good |
| `GitReader.BatchReader.ReadObject` | scripts/benchmark_evidence/git_revision.py:304-310 | one request sent, one response consumed, the object it holds; on a sound pipe it fails only without such a response |
| `GitReader.BatchReader.ReadAll` | scripts/benchmark_evidence/git_revision.py:304-310 | a list of requests on a sound pipe gets, for every way the data are cut up, what the bytes alone give, and sends just the request lines |
| `GitReader.BatchReader.ReadTarget` | scripts/benchmark_evidence/git_revision.py:312-321 | the target ref's object, if it is a commit |
| `GitTree.TreeEntries` | scripts/benchmark_evidence/git_revision.py:448-482 | the offset loop computes the entries of the whole payload, those of `EntriesIffWritten` |
| `GitTree.EntriesIffWritten` | scripts/benchmark_evidence/git_revision.py:448-482 | a payload yields entries if and only if it is their serialisation, all are well formed, and every two are in Git order: by name, a directory's with a slash at its end |
| `GitTree.KeysIncrease` | scripts/benchmark_evidence/git_revision.py:475-478 | all pairs of accepted entries are in Git order, told by names and modes |
| `GitTree.BeforeIffPaths` | scripts/benchmark_evidence/git_revision.py:475-478 | one entry is before another in Git order if and only if every path of or under it is before every path of or under the other |
| `GitWalk.ClosureIsExact` | scripts/benchmark_evidence/git_revision.py:493-542 | a completed closure lists exactly the reachable leaves, once each, under fold-distinct paths, and nothing reachable is deeper than the bound |
| `GitComplete.ClosureCompletesIff` | scripts/benchmark_evidence/git_revision.py:493-542 | the closure completes if and only if all reachable trees and blobs can be read, no tree repeats an entry, no tree is deeper than the bound, all reachable paths fold apart, directories included, and there are at most a million leaves |
| `GitClosure.TreeWalk.Tree` | scripts/benchmark_evidence/git_revision.py:493-542 | the recursion with its shared sets computes the closure and leaves the active set as it was; it ends on every source, cyclic ones included |
| `GitClosure.TreeWalk.AllEntries` | scripts/benchmark_evidence/git_revision.py:514-540 | the loop over a tree's entries |
| `GitClosure.TreeWalk.OneEntry` | scripts/benchmark_evidence/git_revision.py:514-540 | one entry: a folded key not seen before, a subtree or a blob row |
| `GitClosure.ByPathSize` | scripts/benchmark_evidence/git_revision.py:581-584 | the dictionary has as many keys as rows if and only if no path is repeated |
| `GitClosure.ChangedPaths` | scripts/benchmark_evidence/git_revision.py:580-597 | succeeds exactly without repeated paths, and yields the diff |
| `GitClosure.DiffApplies` | scripts/benchmark_evidence/git_revision.py:580-597 | applied to the old inventory the diff gives exactly the new one, and undone it gives back the old |
| `GitClosure.ChangedExactly` | scripts/benchmark_evidence/git_revision.py:586-590 | a path is listed if and only if the inventories differ at it |
| `GitClosure.StatusTells` | scripts/benchmark_evidence/git_revision.py:591-596 | added, deleted and modified say which inventories hold the path |
| `GitClosure.DiffIsUnique` | scripts/benchmark_evidence/git_revision.py:580-597 | two inventories have one diff |
| `GitClosure.SortedAndUnique` | scripts/benchmark_evidence/verifier.py:490-492 | the verifier's comparison with the sorted set accepts exactly strictly sorted lists |
| `GitClosure.DiffMeetsVerifier` | scripts/benchmark_evidence/verifier.py:490-492 | the hexadecimal paths of every diff are strictly sorted, so the verifier accepts them |
| `GitSnapshot.Snapshot` | scripts/benchmark_evidence/git_revision.py:559-577 | succeeds exactly for complete trees, with the sorted inventory of exactly the reachable leaves |
| `GitSnapshot.TreeAtIff` | scripts/benchmark_evidence/git_revision.py:448-513 | a tree is read exactly when its object is a tree under that identity whose payload is the canonical form of the entries |
| `GitSnapshot.LeafRowTells` | scripts/benchmark_evidence/git_revision.py:514-540 | a listed row tells path, mode, kind and identity of its entry and the size and digest of its blob |
| `GitSnapshot.PathTellsParts` | scripts/benchmark_evidence/git_revision.py:514-540 | a path split at its slashes gives back the names on the way |
| `GitSnapshot.DiffTrees` | scripts/benchmark_evidence/git_revision.py:681-693 | succeeds exactly when both trees are complete; the diff is strictly sorted in hexadecimal and turns the old leaves into exactly the new ones |
| `Order.HexPreservesOrder` | scripts/benchmark_evidence/git_revision.py:586-586 | sorting by hexadecimal path is sorting by path |
| `Order.LessIff` | scripts/benchmark_evidence/git_revision.py:586-586 | byte order: the first difference decides, or the end of the shorter |
| `GitChain.BindChain` | scripts/benchmark_evidence/git_revision.py:648-670 | with the local target at the baseline, finds the duplicate-free single-parent chain from baseline to candidate exactly when there is one within the bound, and it is the only one; any other target is refused |
| `GitChain.ChainPassesVerifier` | scripts/benchmark_evidence/verifier.py:346-371 | the verifier accepts every bound chain together with the candidate's parents, tree and digest as the reader returns them |
| `GitChain.VerifierIffChain` | scripts/benchmark_evidence/verifier.py:346-371 | the verifier accepts commits and candidate facts if and only if the commits are a single-parent chain from the baseline and the facts are those of its last commit |
| `GitChain.ReviewsAgree` | scripts/benchmark_evidence/verifier.py:373-394 | binder and verifier agree on every record for the baseline, except a fixed one headed at the baseline, which only the binder can accept |
| `GitChain.ReviewDividesChain` | scripts/benchmark_evidence/verifier.py:373-394 | a review is accepted if and only if the chain is the reviewed commits up to the head followed by the repairs, none for a clean one and some for a fixed one |
| `GitChain.BaselineHeadParts` | scripts/benchmark_evidence/git_revision.py:600-632 | for every chain, a record the binder accepts and the verifier refuses |
| `Layout.Build` | scripts/benchmark_evidence/git_source.py:234-264 | succeeds if and only if the paths are distinct, prefix-free and fold-injective on all prefixes; the tree is exactly their prefixes |
| `Layout.Children` | scripts/benchmark_evidence/git_source.py:258-263 | every directory's children with their kinds |
| `Layout.CompatibleIffClean` | scripts/benchmark_evidence/git_source.py:243-254 | one mark per folded key if and only if prefix-free and fold-injective |
| `Layout.OrderDoesNotMatter` | scripts/benchmark_evidence/git_source.py:234-264 | neither success nor the nodes depend on the input order |
| `Layout.OneTree` | scripts/benchmark_evidence/git_source.py:234-264 | inventories with the same paths have the same tree |
| `Symlinks.Target` | scripts/benchmark_evidence/git_source.py:302-326 | an accepted target is a node below the link's own directory |
| `Symlinks.TargetIff` | scripts/benchmark_evidence/git_source.py:302-326 | a target is accepted if and only if it is a node below the link's directory at the names the payload spells |
| `Symlinks.CheckFrom` | scripts/benchmark_evidence/git_source.py:345-351 | the walk from one link ends off the links, or shows a cycle |
| `Symlinks.CheckAll` | scripts/benchmark_evidence/git_source.py:344-351 | passes if and only if the link graph is acyclic |
| `Symlinks.AcyclicIffEnds` | scripts/benchmark_evidence/git_source.py:344-351 | acyclic if and only if every link ends within as many hops as there are links |
| `Symlinks.LinksLeadInside` | scripts/benchmark_evidence/git_source.py:329-352 | every link reaches a non-link node without leaving its own parent directory |
| `Symlinks.ValidateSymlinks` | scripts/benchmark_evidence/git_source.py:329-352 | both loops: succeeds if and only if all targets are accepted and the links they form are acyclic |
| `SshSig.TakeIffFramed` | scripts/benchmark_evidence/sshsig.py:54-68 | a length-prefixed string is read if and only if it is framed there |
| `SshSig.BinaryIffEncoded` | scripts/benchmark_evidence/sshsig.py:102-156 | a binary record decodes to a signature if and only if it is its encoding |
| `SshSig.BinaryComparisonHolds` | scripts/benchmark_evidence/sshsig.py:153-155 | the closing comparison with the encoder never refuses a record |
| `SshSig.ArmorIffEncoded` | scripts/benchmark_evidence/sshsig.py:159-204 | for every sound base64 codec, an armored text decodes to a signature if and only if it is its armor |
| `SshSig.StandardArmorIffEncoded` | scripts/benchmark_evidence/sshsig.py:159-204 | the same for the standard base64 alphabet, with nothing assumed |
| `Base64.StandardIsSound` | scripts/benchmark_evidence/sshsig.py:162-162 | standard base64 decodes what it encodes, in one line |
| `SshSig.ArmorComparisonHolds` | scripts/benchmark_evidence/sshsig.py:197-199 | the closing comparison with the armor never refuses a text |
| `Sampling.UniformDraws` | bench/rand_sample/main.c:20-27 | for every word size and range, each result is hit by exactly floor(w / range) accepted draws |
| `Sampling.UniformDraws64` | bench/rand_sample/main.c:20-27 | the same for 64-bit words and every range |
| `BoundedDraw.Generator.Bounded` | bench/rand_sample/main.c:20-27 | on every draw stream the guarded fast path returns the high half of the first accepted draw and consumes just the draws up to it |
| `Shuffle.SelectionIsDistinct` | bench/rand_sample/main.c:37-41 | the shuffle prefix holds distinct source positions |
| `Shuffle.SelectionIsInjective` | bench/rand_sample/main.c:37-41 | different choices give different ordered selections |
| `Shuffle.ChoicesFor` | bench/rand_sample/main.c:37-41 | every ordered selection is produced by some choices |
| `Shuffle.SamplesAreUniform` | bench/rand_sample/main.c:33-43 | every ordered k-selection is produced by the same number of accepted draw sequences |
| `Shuffle.Exchange` | bench/rand_sample/main.c:38-40 | the in-place swap and the copied element |
| `Shuffle.Oracle` | bench/rand_sample/main.c:33-43 | the sample is the source read at the selection the accepted draws make, and just those draws are consumed |
| `CpuSet.ParseCpuSet` | scripts/benchmark_evidence/native_host.py:851-864 | the loop over the items computes the intervals |
| `CpuSet.ParseIffShown` | scripts/benchmark_evidence/native_host.py:851-864 | a string is accepted as intervals if and only if they are ordered, apart and it is how they are written |
| `CpuSet.SubsetIsInclusion` | scripts/benchmark_evidence/native_host.py:867-871 | one interval inside one interval, for all, is set inclusion |
| `CpuSet.SameSetSameRanges` | scripts/benchmark_evidence/native_host.py:851-864 | equal sets have equal intervals |
| `CpuSet.AcceptedStrings` | scripts/benchmark_evidence/native_host.py:851-871 | on accepted strings the test is inclusion, and strings are equal if and only if the sets are |
| `CpuSet.Count` | scripts/benchmark_evidence/native_host.py:902-906 | the total is the cardinality, refused if and only if it exceeds u64 |
| `CpuSet.SelectedCpuFields` | scripts/benchmark_evidence/native_host.py:913-947 | passes if and only if every selected CPU has a record matching the profile; the result is the lowest CPU's record |
| `Verdict.CheckedIsExact` | scripts/benchmark_evidence/measurement_report.py:32-45 | refused if and only if the true value exceeds u64 |
| `Verdict.TokenIffSample` | scripts/benchmark_evidence/native_measurement.py:459-466 | a token is read as a sample if and only if it is how the sample is printed |
| `Verdict.ProducedExactly` | scripts/benchmark_evidence/measurement_report.py:141-172 | a field result exists if and only if nothing overflows, and passes exactly on the exact comparison |
| `Verdict.MiddleIsMedian` | scripts/benchmark_evidence/measurement_report.py:141-172 | the compared quantity is twice the median: the fifth and the sixth smallest sample together |
| `Verdict.ProducerMeetsVerifier` | scripts/benchmark_evidence/verifier.py:549-594 | the verifier accepts exactly the field the producer makes |
| `Verdict.PassesByMultiset` | scripts/benchmark_evidence/measurement_report.py:141-172 | `passed` and overflow depend on the two multisets alone |
| `Verdict.PassesIsMonotone` | scripts/benchmark_evidence/measurement_report.py:141-172 | `passed` never turns true when candidate samples grow, nor false when baseline samples grow |
| `Verdict.FieldResults` | scripts/benchmark_evidence/measurement_report.py:127-174 | the loop yields every field's result, or stops at the first refused |

## Left out

- `KeyboardInterrupt` and other non-`Exception` exits of `Controller.run` are the death of the process; `close` is assumed not to fail; opening and syncing the parent directory is one step.
- Wrong-type checks on hook results count as a failing hook; the contents of the report, the identities and the evidence expectations are not modelled.
- BoundedDraw.Generator.Bounded: assumes that the draw stream is not rejected for ever, because nothing in the loop bounds it; the xoshiro step behind the stream and its period are not modelled.
- Shuffle.Oracle: asks for k at most n, as the benchmark's callers pass it; allocation failure is not modelled.
- MergeRaceObjects.MergeRaceTransaction.Fail: the last error message is not kept.
- ControllerRun.Run.Execute: nothing is promised once a probe under the lock has missed a standing reservation, because exclusion is then lost.
- CanonicalJson.DecodeIffEncoding: the interpreter's recursion limit, which refuses deeply nested values, is not modelled; an `Object` mutated after construction is not modelled.
- GitReader.BatchReader.Response: closing the Git process after a failure is not modelled.
- FirstParent.ObserveMerge: the comparison of the report's target fields and the later parent and tree checks on the observed merge are not modelled.
- GitWalk.ClosureIsExact: object IDs are taken as given to the reader; the manifest digest of the inventory is not modelled.
- GitChain.BindChain: commit headers are not parsed; commits are what the reader returns, each under its own identity.
- GitChain.ReviewsAgree: review states other than clean and fixed, which the report schema refuses, and records with missing members are not modelled.
- Layout.Build: starts from paths that have passed the component, size, mode and digest checks of one identity.
- Symlinks.ValidateSymlinks: that a link is reviewed and that its blob matches its identity are not modelled.
- SshSig.StandardArmorIffEncoded: the optional expected key and namespace are plain comparisons after decoding and are not modelled; key handling and Ed25519 are not modelled.
- CpuSet.SelectedCpuFields: the grammar of `/proc/cpuinfo` and of the single identity fields is a function parameter.
- Verdict.FieldResults: the assembly of the records and the overall verdict from the field results are not modelled.
- Process spawning, Docker, `/proc` reading, memfd sealing, signals and timeouts: operating-system calls without a model-sized invariant.
- The grammar checks of profile, host, image, container, process boundary, command line and report schema: lists of one-branch checks that would only add easy members.
- `manifest.py`, `prepared_tree.py`, and writing and verifying the materialised source tree: comparisons of file metadata against a live filesystem.
- The benchmark programs other than the sampling oracle, their build scripts and their timing: measurement and fixed test data.
