# Model Forge: storage and authority protocols in Dafny

Model Forge is a research harness.  Its value rests on storage and authority protocols that must
survive races, crashes and tampering: sealed run profiles, state promotion with rollback, a
hash-chained authority log, compare-and-swap run progress, and the validators that decide what is
published.  This project models those protocols and proves what they promise.  Where the code and
its documentation disagree, the model follows the code and a lemma says exactly when the promise
holds.

`dafny verify dfyconfig.toml` checks everything.

## Components

| file | source component |
|---|---|
| `Jcs`, `JsonParser`, `JcsTheorems` | the restricted RFC 8785 canonicaliser, an independent JSON parser, and what relates them |
| `Instructions` | newline normalisation and guidance of rendered instructions |
| `StateLock` | fencing tokens and the role-state lease lock |
| `SealRegistry` | sealing an invocation: the idempotency check, exclusive directory creation, the unique insert, rollback |
| `Promotion` | promotion of a run's state with last-known-good rollback |
| `BackupNames`, `Retention`, `RunRetention` | timestamped backup names, the sweep over backups and over run directories |
| `RunLauncher` | the launch record of a sealed run |
| `RunStates`, `RunJournal` | the two transition tables and the journal validator |
| `RunLifecycle` | read-then-compare-and-swap writers of a run |
| `RunCoordinator`, `RunRecovery`, `RunRefinement` | the coordinator loop, its crash recovery, and its atomic writes against those of the repository |
| `PublicationHead`, `Authority`, `AuthorityHistory` | publication transactions and the authority log |
| `MethodCatalog`, `ProjectBriefs`, `ProjectCommands` | lifecycle and brief commands |
| `MethodIndex`, `MethodPublications` | the reducer of the method catalog, and what a Phase 2 run publishes |
| `CommandInterleavings`, `MethodAgreement` | commands, Phase 2 runs and other publications interleaved, and what that keeps of records and catalog |
| `AuthorityReplay` | the replay fold of authority events |
| `PublicationPlan`, `PhaseContract` | the publication-plan and phase-contract checkers |
| `BlastRadius` | the blast-radius check of corrections |
| `Sequences`, `Wrappers` | sorting, shared facts and datatypes |

Classes carry the source's mutable objects; each of their methods is specified by a function of the
state before, and the theorems are about those functions.  A database transaction is one atomic
step.  Concurrency is a state machine over the atomic steps of any number of participants, and its
theorems range over every schedule.  A hash is a function; where a result needs collision freedom,
injectivity is a hypothesis of that lemma.

## Where promise and code differ

- A rendered instruction that is blank keeps two newlines in front of the guidance; finishing is
  stable exactly for texts that are not blank (`Instructions.FinishedIsStable`).
- A state lock is meant to be held until its own release.  A handle loses its row before exactly when
  another handle of the same invocation acquires the profile, or any other once the lease has run out
  (`StateLock.RowLostExactlyWhenTaken`).  The nested promotion of a launch is such a handle: its release
  lets others in (`StateLock.NestedReleaseFreesOuter`), and the outer release is then harmless
  (`StateLock.SupersededReleaseIsNoop`).
- Later calls with the idempotency key of a seal are documented to return it.  A call that looked its key
  up before the seal and probes the run directory after it is told that the directory exists without a
  seal (`SealRegistry.ProbeIgnoresSeal`); that probe is the only step of an attempt that can fail
  although the key is sealed and nothing of its own failed (`SealRegistry.RaisesIff`).
- Staging refuses every memory tree with a file `state.db` at its root
  (`Promotion.StagingAcceptsUndisturbed`).
- Retention documents that an unvalidated run is never pruned; one failed validation of an earlier
  launch, or a recorded promotion, makes the code prune it (`RunRetention.UnvalidatedIsResolvedIff`).
- An aborted launch is documented to close its record as failed.  The record stays running exactly when
  the operation that should close it raises or an interrupt passes the handler
  (`RunLauncher.StaysRunningIff`, `RunLauncher.SucceededButRunning`, `RunLauncher.InterruptedAndRunning`),
  and an abort after the outcome was recorded leaves that outcome and is not recorded as failed
  (`RunLauncher.AbortedButSucceeded`).
- Cancelling a run checks the state on one read and swaps against another; between them the run can
  fail, and the failed run is then marked for cancellation.  The history is legal exactly when no applied
  cancellation read such a state (`RunLifecycle.HistoryIsLegalIff`, `RunLifecycle.CancelCanFollowFailure`).
- An exception while a committed publication is being marked makes the error path call the run
  failed or conflicted although it has a receipt (`RunRecovery.InvBrokenOnlyByMarkRaises`).
- The coordinator loop spends its fuel exactly on a run that is submitted before it is executed, whose
  preparation succeeds if it is still to come, and whose plan completes in every pass but the last; the
  last pass completes it or fails the run (`RunCoordinator.Coordinator.Run`).  The transition rules admit
  a running run with a submission (`RunLifecycle.SubmittedRunCanBeRunning`); whether the correction chain
  of a submitted run can have the gaps that lead there is not modelled.
- The contract of Phase 2 says that a retirement recommendation cannot change a method's lifecycle
  without a user action (architecture/contracts/phases/P2.json:402-405).  Its publications take the state
  from the records they publish, and neither the validators of the submission
  (harness/scientific_validators.py:150-310) nor the publication look at it; they leave a state as it was
  exactly when no record has another one (`MethodAgreement.RunKeepsLifecycleIff`,
  `MethodAgreement.RunCanRetire`).
- A list of pairs among the catalog's methods is not counted as naming a method, but a lifecycle command
  writes it as an object that does (`MethodCatalog.ChangeMeaning`, `MethodCatalog.PairsBreakAgreement`).
  The function admits such a catalog; neither writer of the catalog stores one
  (`MethodIndex.WritersStoreObjects`), and from an empty project on there is none
  (`MethodAgreement.FromNothing`).
- An update of a brief that makes the research question or the intended use null publishes it as the word
  `None`; each is as asked exactly when the request does not make it null
  (`ProjectBriefs.TextsAsAskedIff`, `ProjectBriefs.NullTextIsTheWordNone`).
- JSON pointers are joined without escaping, so a slash in a key widens a permission, exactly where the
  slashes of the keys on the way disagree (`BlastRadius.PermissionWidensExactlyBySlashes`,
  `BlastRadius.SlashInKeyWidensPermission`).

## Model

| member | source | states |
|---|---|---|
| JcsTheorems.ByteOrderIsUnitOrder | architecture/tools/jcs.py:34-36 | comparing UTF-16 big-endian bytes is comparing UTF-16 code units, the order of RFC 8785 section 3.2.3 |
| JcsTheorems.KeyTotal | architecture/tools/jcs.py:34-36 | two different keys always have different sort keys, so the sort of an object's keys is decided by the keys alone |
| JcsTheorems.CodePointOrderDiffers | architecture/tools/jcs.py:34-36 | the order is not that of code points: a concrete pair of keys sorts the other way |
| JcsTheorems.MembersInUnitOrder | architecture/tools/jcs.py:61-67 | the members of a serialised object are strictly ascending in UTF-16 code units |
| JcsTheorems.SerializesExactlySupported | architecture/tools/jcs.py:39-70 | serialisation succeeds exactly for the supported values of any nesting |
| JcsTheorems.ArrayFailsFirst | architecture/tools/jcs.py:59-60 | a failing array reports the error of its first failing item |
| JcsTheorems.ObjectFailsInOrder | architecture/tools/jcs.py:61-67 | a failing object reports a key that is not text, then a lone surrogate in a key, then its first failing value in key order |
| JcsTheorems.EscapeIsShortest | architecture/tools/jcs.py:46-48 | every character is written in its shortest JSON spelling, as section 3.2.2.2 of RFC 8785 asks |
| JcsTheorems.QuotedIsShortest | architecture/tools/jcs.py:46-48 | a serialised string is the shortest string literal with its meaning |
| JcsTheorems.ParseInvertsSerialize | architecture/tools/jcs.py:39-70 | an independent JSON parser recovers the meaning of every serialised value, whatever delimited text follows |
| JcsTheorems.SameMeaningSameText | architecture/tools/jcs.py:39-70 | values that differ only in the order of object members serialise to the same text |
| JcsTheorems.CanonicalFormIsMeaning | architecture/tools/jcs.py:73-75 | canonical bytes exist exactly for supported values, and are equal exactly for equal values up to member order |
| Instructions.CollapseNewlines | src/model_forge/application/default_instructions.py:188-189 | the loop of replace passes ends on every text with the capped form, in which no run of three newlines is left |
| Instructions.CappedRun | src/model_forge/application/default_instructions.py:188-189 | the capped form turns a maximal run of newlines into at most two and keeps everything else in order |
| Instructions.PassKeepsCapped | src/model_forge/application/default_instructions.py:188-189 | one leftmost pass keeps the capped form and shortens every text that still has a run of three |
| Instructions.FinishInstruction | src/model_forge/application/default_instructions.py:188-193 | collapsing, trimming and appending the guidance when it is missing |
| Instructions.FinishedIsStable | src/model_forge/application/default_instructions.py:188-193 | the result carries the guidance and has no run of three newlines; it is trimmed and stable exactly when the text is not blank |
| Instructions.FinishedKeepsText | src/model_forge/application/default_instructions.py:188-193 | the result is the collapsed text without the spaces around it, alone when the guidance occurs in it and otherwise followed by an empty line and the guidance |
| StateLock.RunSealStore.IssueFencingToken | src/model_forge/application/run_profile_assembler.py:782-822 | a new token is one above the invocation's last and is recorded |
| StateLock.RunSealStore.AcquireStateLock | src/model_forge/application/run_profile_assembler.py:844-897 | the lock is taken exactly when it is free, expired or held by the same invocation, and refused in the name of its holder |
| StateLock.RunSealStore.ReleaseStateLock | src/model_forge/application/run_profile_assembler.py:899-922 | only the row of the same invocation and token is removed |
| StateLock.RunSealStore.RenewStateLease | src/model_forge/application/run_profile_assembler.py:939-968 | only the current owner's lease is extended |
| StateLock.RunSealStore.WithStateLock | src/model_forge/application/run_profile_assembler.py:1025-1067 | issue and acquire, then any body on both tables, then the release of the row if it still carries this invocation and token |
| StateLock.TokensNeverReissued | src/model_forge/application/run_profile_assembler.py:782-822 | over every interleaving the tokens of an invocation are one, two, three and so on, and none is issued twice |
| StateLock.ReleaseFreesOnlyOwnLock | src/model_forge/application/run_profile_assembler.py:899-922 | a release frees the lock exactly when its handle is the latest acquirer and still holds it |
| StateLock.SupersededReleaseIsNoop | src/model_forge/application/run_launcher.py:470 | once another handle acquired the profile, an earlier handle's release changes nothing, for ever |
| StateLock.LeaseExcludesOthers | src/model_forge/application/run_profile_assembler.py:844-897 | while a lease is unexpired and not released no other invocation gets the lock |
| StateLock.LeaseLastsAsGranted | src/model_forge/application/run_profile_assembler.py:844-968 | over every schedule a lease lasts from the acquire or renewal that grants it for the time asked for: unless its handle releases or renews or another of its invocation acquires, another invocation is refused in its name at every earlier time and gets the profile at any later one |
| StateLock.HeldHasRowIffLatest | src/model_forge/application/run_profile_assembler.py:844-922 | over every schedule a handle that holds has its row exactly when it is the last that acquired the profile |
| StateLock.RowLostExactlyWhenTaken | src/model_forge/application/run_profile_assembler.py:844-922 | over every schedule a holding handle loses its row exactly when another handle of the same invocation acquires, or any other once the recorded lease has run out |
| StateLock.NestedReleaseFreesOuter | src/model_forge/application/state_promotion.py:701 | a nested release of the same invocation lets another invocation in while the outer handle is held |
| SealRegistry.RunProfileAssembler.CreateSeal | src/model_forge/application/run_profile_assembler.py:414-458 | insert or read back under the unique invocation and idempotency key |
| SealRegistry.RunProfileAssembler.SealInvocation | src/model_forge/application/run_profile_assembler.py:1071-1226 | a call with nobody else active is a run of the interleaved protocol; it returns exactly when its lookup works and its key is sealed, or its directory is new and every step works, and a failing call leaves no row and, unless the removal fails, no directory |
| SealRegistry.EverySealReconstructs | src/model_forge/application/run_profile_assembler.py:1101-1226 | in every reachable state every seal row's directory exists with a manifest of the recorded digest that names the seal, the invocation and the key |
| SealRegistry.NoForeignDeletion | src/model_forge/application/run_profile_assembler.py:1101-1226 | no attempt touches a directory another attempt created, nor that of a sealed row |
| SealRegistry.SameKeySameSeal | src/model_forge/application/run_profile_assembler.py:1101-1226 | all successful calls with one key return the same seal |
| SealRegistry.SamePathWinnerImpossible | src/model_forge/application/run_profile_assembler.py:1101-1226 | the loser of the key race never finds the winner in its own directory |
| SealRegistry.UnsealedLeavesNothing | src/model_forge/application/run_profile_assembler.py:1101-1226 | an attempt that ends unsealed leaves a directory of its own exactly when removing it failed |
| SealRegistry.SealIsPermanent | src/model_forge/application/run_profile_assembler.py:1471-1497 | whatever happens later, a seal is found under its key and reconstructs to the same manifest |
| SealRegistry.SealedKeyIsReturned | src/model_forge/application/run_profile_assembler.py:1191-1215 | once a key is sealed, an attempt at the lookup, one that lost the exclusive mkdir and one that lost the key race all return that row and the manifest in its directory |
| SealRegistry.RaisesIff | src/model_forge/application/run_profile_assembler.py:1101-1209 | an attempt fails exactly for a failed step of its own, a run directory that is there at the probe, or a lost mkdir while the key is not sealed; no constraint, digest or manifest error ever occurs |
| SealRegistry.AttemptsEnd | src/model_forge/application/run_profile_assembler.py:1071-1226 | whatever the others do, an attempt ends after at most seven steps of its own |
| SealRegistry.ProbeIgnoresSeal | src/model_forge/application/run_profile_assembler.py:1101-1112 | the schedule in which a call is told that the directory exists without a seal although its key is sealed by then |
| SealRegistry.LeftBehindIff | src/model_forge/application/run_profile_assembler.py:1182-1209 | a directory is left behind by exactly the step that should remove it and fails to |
| SealRegistry.AttemptIsItsCall | src/model_forge/application/run_profile_assembler.py:1071-1089 | an attempt keeps the key and the invocation it was called with |
| SealRegistry.TamperingIsFound | src/model_forge/application/run_profile_assembler.py:1471-1497 | whatever is done to the directories, a seal reconstructs to the manifest it was written with or is refused as unreadable or as another digest |
| Promotion.StagingAcceptsUndisturbed | src/model_forge/application/state_promotion.py:390-483 | an undisturbed run is staged exactly when it has no link or special file outside the secret names and no memory file state.db |
| Promotion.UndisturbedRunAccepted | src/model_forge/application/state_promotion.py:390-483 | an undisturbed run is accepted exactly when its memories are a folder without links or special files outside the secret names and without a file state.db, and its session store, if any, is a regular file |
| Promotion.StoreIsInventoried | src/model_forge/application/state_promotion.py:460-473 | an accepted session store has the digest it was inventoried with, or that of a memory file called state.db then |
| Promotion.StagedFilesAreInventoried | src/model_forge/application/state_promotion.py:390-483 | staged files are exactly the inventoried files without secrets, with the same digests |
| Promotion.PromotedMeaning | src/model_forge/application/state_promotion.py:588-673 | after a promotion each staged target is the run's state, each backup is the prior content, and every other name is untouched |
| Promotion.PromotedHoldsState | src/model_forge/application/state_promotion.py:460-473 | what is promoted is the state of the run: every entry of its memories outside the secret names, directories included, with the same bytes, and the session store exactly when there is one |
| Promotion.RestoreUndoes | src/model_forge/application/state_promotion.py:371-382 | restoring a target undoes each stage of its swap |
| Promotion.RecordDescribesSwap | src/model_forge/application/state_promotion.py:727-764 | the record gives for each target the digests before and after and the backup that holds the content before |
| Promotion.ProfileDirectory.StageAllowlisted | src/model_forge/application/state_promotion.py:390-483 | staging copies exactly the allowlisted state, the session store whenever the run has one, or fails for a fault or a refused tree |
| Promotion.ProfileDirectory.RestoreTarget | src/model_forge/application/state_promotion.py:371-382 | moves the backup back, or removes a target that had none |
| Promotion.ProfileDirectory.SwapTargets | src/model_forge/application/state_promotion.py:588-673 | all targets are swapped, each backed up under its own tag, or after any fault none is |
| Promotion.ProfileDirectory.PromoteRunState | src/model_forge/application/state_promotion.py:681-776 | a failure at any operation leaves profile and records as they were; success puts the run's memories without the secret names in place, and its session store if it has one, and records exactly those targets; without faults it succeeds exactly when gates, staging and targets allow it |
| BackupNames.ParsePrinted | src/model_forge/application/state_promotion.py:342-343 | the retention parser reads back the stamp the promotion prints |
| BackupNames.PrintParsed | src/model_forge/application/retention.py:147-156 | every name the parser reads is one the printer writes for that stamp |
| BackupNames.EarlierIsLess | src/model_forge/application/state_promotion.py:342-343 | the calendar order of stamps is the order of instants |
| BackupNames.NameOrderIsTimeOrder | src/model_forge/application/retention.py:269-320 | backup names sort by text exactly as by time |
| BackupNames.EarliestIsLeast | src/model_forge/application/retention.py:279-287 | no readable stamp is earlier than the sort key of an unreadable one |
| BackupNames.InstantsCountMicroseconds | src/model_forge/application/retention.py:135-156 | stamps with no valid stamp between them are one microsecond apart, over all months and leap years, so a difference of instants is an age |
| Retention.EvaluateBackups | src/model_forge/application/retention.py:269-320 | the two loops decide every backup of both targets |
| Retention.NewestIsGreatest | src/model_forge/application/retention.py:269-320 | the backup kept as newest is the one no other backup of its target exceeds |
| Retention.ExpiredDecisions | src/model_forge/application/retention.py:269-320 | exactly the readable backups older than the window that are not the newest of their target are marked for removal |
| Retention.ApplyRetention | src/model_forge/application/retention.py:323-375 | a dry run changes nothing; a sweep removes exactly the marked names whose removal works |
| Retention.LatestIsWhatWasReplaced | src/model_forge/application/state_promotion.py:625-626 | the backup recorded as latest is named for this promotion and holds the content in place just before |
| Retention.LatestReplacedStateSurvives | src/model_forge/application/retention.py:269-320 | over any sequence of promotions and sweeps the backup of the state most recently replaced is never removed, for any target |
| RunRetention.RunResolution | src/model_forge/application/retention.py:238-266 | resolved means a failed validation of any launch, a recorded promotion, or a passing last launch whose policy refuses promotion |
| RunRetention.EvaluateRunDir | src/model_forge/application/retention.py:166-235 | a run directory is pruned exactly when its seal verifies, no launch runs, its outcome is resolved and it is older than the window; the reasons to keep it are exact as well |
| RunRetention.UnvalidatedIsResolvedIff | src/model_forge/application/retention.py:14-19 | a run whose last launch is unvalidated is pruned exactly when its evidence is at rest, it is older than the window, and a promotion is recorded or an earlier launch failed validation |
| RunRetention.UnvalidatedRunIsPruned | src/model_forge/application/retention.py:248-251 | the input that breaks the promise never to prune an unvalidated run: it is pruned at every age beyond the window |
| RunRetention.UnpromotedIsPrunedIff | src/model_forge/application/retention.py:238-266 | a run whose last launch passed and which has no promotion is pruned exactly when it is old, at rest, and an earlier launch failed validation or its policy refuses a promotion |
| RunLauncher.SealedRunLauncher.Close | src/model_forge/application/run_launcher.py:440-468 | the launch record is closed in one attempt only, which fails exactly when one of its operations does; a requested cancel turns a failed outcome into cancelled |
| RunLauncher.SealedRunLauncher.Launch | src/model_forge/application/run_launcher.py:470-553 | the record ends running exactly when the operation that should close it raises or an interrupt passes the handler, and otherwise with the outcome, or as failed when there was none; an abort after that keeps the recorded outcome |
| RunLauncher.StaysRunningIff | src/model_forge/application/run_launcher.py:440-553 | a launch stays running for exactly these faults: everything up to the logs works and closing raises, or the abort is an interrupt, or the operation right after the abort raises as well |
| RunLauncher.ReturnsIff | src/model_forge/application/run_launcher.py:440-553 | a failed process is recorded as cancelled exactly when the user asked for it; a closed launch returns exactly when no interrupt meets the validation or the promotion of a success and the operation after them works |
| RunLauncher.SucceededButRunning | src/model_forge/application/run_launcher.py:440-445 | the one fault that leaves the record of a process that succeeded running |
| RunLauncher.AbortedButSucceeded | src/model_forge/application/run_launcher.py:533-553 | the one fault that aborts a launch whose record says succeeded |
| RunLauncher.InterruptedAndRunning | src/model_forge/application/run_launcher.py:545-552 | an interrupt while the process runs passes the handler and leaves the record running |
| RunStates.TablesDifferExactly | src/model_forge/domain/runs.py:51-100 | the validator's transitions are a subset of the application's, which allow exactly four more between journal states |
| RunJournal.ValidateRunStateJournal | architecture/tools/validate_package.py:1151-1189 | each message is reported exactly when what it claims is so, and none exactly for an accepted journal |
| RunJournal.RootFixesJournal | architecture/tools/validate_package.py:1151-1189 | two accepted journals with one root are identical event for event |
| RunJournal.AcceptedJournalsAreShortPaths | architecture/tools/validate_package.py:170-184 | an accepted journal is a legal path from created of at most eight events and never names cancellation_requested and submitted |
| RunJournal.TerminalEndsJournal | architecture/tools/validate_package.py:170-184 | nothing follows a terminal state |
| RunLifecycle.HubRepository.CompareAndSwapRun | src/model_forge/storage/repository.py:1523-1609 | the row and one event are written exactly when status and head are as expected and the event id is new |
| RunLifecycle.HubRepository.RequestCancellation | src/model_forge/storage/repository.py:481-541 | the run is fenced exactly when it has no submission, is not fenced and is unchanged since the read |
| RunLifecycle.HubRepository.SealSubmission | src/model_forge/storage/repository.py:601-663 | the submission is sealed exactly when there is none, the run is not fenced and unchanged since the read |
| RunLifecycle.Lifecycle.Transition | src/model_forge/application/run_lifecycle.py:20-39 | an illegal target raises; otherwise status, head and payload move together |
| RunLifecycle.Lifecycle.Progress | src/model_forge/application/run_lifecycle.py:41-56 | a note of progress moves head and payload and keeps the status |
| RunLifecycle.NoUpdateIsLost | src/model_forge/application/run_lifecycle.py:58-100 | with any number of writers the journal is contiguous, the status is its last event's, and the payload is the ordered fold of all committed updates |
| RunLifecycle.CommitMeaning | src/model_forge/application/run_lifecycle.py:58-100 | a committed write applies its writer's own edit to the current payload, moves to the status it was begun for, and adds one event under its id; a running run is submitted only with a stored submission |
| RunLifecycle.SwapFailsIffStale | src/model_forge/storage/repository.py:1566-1590 | a swap under a new event id fails exactly when somebody committed since the row was read |
| RunLifecycle.CancellationFencesSubmission | src/model_forge/storage/repository.py:481-541 | after cancellation_requested a run can only be cancelled, and a submitted run is never fenced |
| RunLifecycle.StoredIsSubmitted | src/model_forge/storage/repository.py:601-663 | a submission is stored only by the commit of its writer, when there is none, and it is the one submitted |
| RunLifecycle.SubmittedOnce | src/model_forge/storage/repository.py:601-663 | whatever happens later, the same submission is answered as already applied, any other and any new cancellation as already submitted, and nothing changes |
| RunLifecycle.CancelledOnce | src/model_forge/storage/repository.py:481-541 | over every schedule, after an applied cancellation the same command is answered as already applied, any other and any submission as fenced, and nothing changes |
| RunLifecycle.CommitIsLegalIff | src/model_forge/application/service.py:2187-2231 | a committed write is a legal step, except a cancellation whose second read no longer finds a cancellable state |
| RunLifecycle.FreshCancelsKeepHistoryLegal | src/model_forge/application/run_lifecycle.py:20-100 | when every cancellation's second read still finds a cancellable state the whole history is a legal path |
| RunLifecycle.HistoryIsLegalIff | src/model_forge/application/run_lifecycle.py:20-100 | over every schedule the history is a legal path exactly when every cancellation that was applied found a cancellable state on its second read |
| RunLifecycle.CancelCanFollowFailure | src/model_forge/application/service.py:2187-2231 | the schedule in which a failed run is marked for cancellation |
| RunLifecycle.AllowedPathHappens | src/model_forge/application/run_lifecycle.py:20-39 | every path that the writers' own checks allow is the outcome of some schedule |
| RunLifecycle.SubmittedRunCanBeRunning | src/model_forge/application/service.py:2864-2903 | the transition rules let a submitted run that was rejected and corrected run again with its submission |
| RunCoordinator.Coordinator.Transition | src/model_forge/application/run_lifecycle.py:20-39 | under concurrent cancellation a transition raises, moves the run up, or loses to the cancellation |
| RunCoordinator.Coordinator.HandleError | src/model_forge/application/run_coordinator.py:1214-1243 | afterwards the run has ended or waits for its cancellation to settle |
| RunCoordinator.Coordinator.Prepare | src/model_forge/application/run_coordinator.py:223-330 | the publication head is frozen once, and a prepared run has one |
| RunCoordinator.Coordinator.Execute | src/model_forge/application/run_coordinator.py:332-379 | execution leaves running upwards unless a submission was there before |
| RunCoordinator.Coordinator.SettleCancellation | src/model_forge/application/run_coordinator.py:381-406 | a requested cancellation ends as cancelled or stays requested |
| RunCoordinator.Coordinator.Validate | src/model_forge/application/run_coordinator.py:408-435 | validation promotes, rejects, or raises without moving the run |
| RunCoordinator.Coordinator.Promote | src/model_forge/application/run_coordinator.py:437-484 | a run is published exactly when it has a receipt and conflicted when it has none; a receipt found first is kept; undisturbed, the receipt leads from the frozen head to the next |
| RunCoordinator.Coordinator.MoveOn | src/model_forge/application/run_coordinator.py:118-159 | the passes that only move the run take it to its one successor or lose to a cancellation |
| RunCoordinator.Coordinator.Iterate | src/model_forge/application/run_coordinator.py:117-166 | for each status what one pass can make of the run |
| RunCoordinator.Coordinator.Pass | src/model_forge/application/run_coordinator.py:117-174 | a pass that goes round again has raised the rank of the status, also under concurrent cancellation, unless a submission was there before; then it goes round exactly when its work allows it |
| RunCoordinator.Coordinator.Run | src/model_forge/application/run_coordinator.py:111-174 | the fuel of 24 passes is spent exactly by a run submitted before it is executed whose preparation succeeds, whose plan completes in every pass but the last, and in the last completes or fails the run; every other call ends for a reason that holds of the run, and a new run that nothing disturbs is published with one receipt |
| RunRecovery.InvBrokenOnlyByMarkRaises | src/model_forge/application/run_coordinator.py:1137-1146 | the only step that can break the receipt rules is an exception while a committed publication is being marked |
| RunRecovery.AtMostOneReceipt | src/model_forge/application/run_coordinator.py:437-484 | under any schedule of crashes, restarts, cancellations and other publications a run has at most one receipt, published implies it, and any other end implies none |
| RunRecovery.CrashAfterCommitIsRecovered | src/model_forge/application/run_coordinator.py:437-441 | a crash after the commit is recovered to published with the same receipt |
| RunRecovery.CommitSucceedsIffHeadStood | src/model_forge/application/run_coordinator.py:453-484 | the frozen head still stands exactly when nothing was published since |
| RunRecovery.MarkRaisesFailsAPublishedRun | src/model_forge/application/run_coordinator.py:1214-1243 | the schedule in which a published run is called failed, or conflicted when the exception is a conflict |
| RunRecovery.PrepareAlone | src/model_forge/application/run_coordinator.py:223-330 | an undisturbed preparation, with the handler of its error, is a run of the crash machine: capture, freeze and move, or only move when the head was frozen before or the work fails |
| RunRecovery.PromoteAlone | src/model_forge/application/run_coordinator.py:437-484 | an undisturbed promotion, with the handler of its error, is a run of the crash machine: look up, commit or fail to plan, conclude |
| RunRefinement.CancelIsRepositorys | src/model_forge/storage/repository.py:481-541 | the cancellation the coordinator may meet is what the service and the repository make of a new command |
| RunRefinement.MoveIsRepositorys | src/model_forge/storage/repository.py:1523-1609 | a transition of the coordinator writes exactly when the swap of the repository still finds the status it read |
| RunRefinement.PublishIsRepositorys | src/model_forge/storage/repository.py:1472-1521 | the coordinator's publication is the repository's: accepted for the same head, with the same next head and receipt |
| Authority.PublicationUnitOfWork.AddFormalGeneration | src/model_forge/storage/repository.py:1879-1954 | a generation is added exactly when what it supersedes is known and the same id does not already have other content |
| Authority.PublicationUnitOfWork.ReplaceCurrentSlot | src/model_forge/storage/repository.py:1956-2027 | a slot is replaced exactly when it was not touched, the new generation exists and the current one is the expected one |
| Authority.PublicationUnitOfWork.AppendAuthorityEvent | src/model_forge/storage/repository.py:2099-2150 | an event is appended exactly when its root extends the current root by the given content digest and its id is new |
| Authority.PublicationUnitOfWork.RecordReceipt | src/model_forge/storage/repository.py:2152-2177 | a transaction takes exactly one receipt |
| Authority.PublicationUnitOfWork.Finish | src/model_forge/storage/repository.py:2179-2241 | only a transaction with a receipt and at least one event commits, and the receipt leads from the head before to the head after |
| Authority.NoReplay | src/model_forge/storage/repository.py:1921-1927 | with intact chains a publication never re-adds a generation that is already there |
| Authority.CommittedIsSound | src/model_forge/storage/repository.py:1472-1521 | every accepted publication keeps log, receipts and supersession chains intact |
| Authority.HubRepository.Publish | src/model_forge/storage/repository.py:1472-1521 | a transaction commits everything exactly when head, slots, identities and roots fit, and otherwise nothing |
| AuthorityHistory.AuthorityIsAuthentic | src/model_forge/storage/repository.py:1472-1521 | over every history the sequence is the log length, the root is the fold of the whole log from zero, and receipts are a gapless chain of heads |
| AuthorityHistory.SlotHistoryIsLinear | src/model_forge/storage/repository.py:1956-2027 | each slot's generations form one chain of supersessions without repetition that ends at the current one |
| AuthorityHistory.EqualHeadsEqualLogs | src/model_forge/storage/repository.py:2099-2150 | with injective digests equal heads imply equal logs |
| MethodCatalog.ChangeMeaning | src/model_forge/application/method_lifecycle.py:48-165 | a change moves one method legally, every other entry stays or becomes the object it turns into, both counts are recounts, and record and single entry agree afterwards exactly when no other entry turns into one naming the method |
| MethodCatalog.ChangeRefusedIff | src/model_forge/application/method_lifecycle.py:48-95 | a change is refused exactly when record and catalog disagree, the move is illegal, or an entry cannot be turned into an object |
| MethodCatalog.PairsBreakAgreement | src/model_forge/application/method_lifecycle.py:136-139 | the catalog, which the function admits and neither writer stores, whose list of pairs becomes a second entry of the method |
| MethodCatalog.ChangeLeavesOthersAgreeing | src/model_forge/application/method_lifecycle.py:136-145 | another method agrees with the catalog afterwards exactly when it did before and no entry turned into one naming it |
| MethodCatalog.ProjectedAt | src/model_forge/application/method_lifecycle.py:147-160 | projections keep their order and get the new state exactly where they name the method |
| MethodCatalog.ProjectedDropsTheRest | src/model_forge/application/method_lifecycle.py:147-160 | items of the projections that are not objects are dropped, and nothing else is |
| MethodIndex.Merge | src/model_forge/harness/index_reducers.py:171-173 | the merging loop maps each key to its last item |
| MethodIndex.Reduce | src/model_forge/harness/index_reducers.py:167-194 | the reducer as it runs computes the declared index |
| MethodIndex.IndexRefusedIff | src/model_forge/harness/index_reducers.py:215-239 | exactly an index of another format or without a list, and any item that is no object with a stable id, is refused |
| MethodIndex.IndexMeaning | src/model_forge/harness/index_reducers.py:167-194 | the next index has one entry for each key, in key order: the record of the run, else the prior entry; its counts are right and nothing in it is hidden |
| MethodIndex.ProjectionsMeaning | src/model_forge/harness/index_reducers.py:183-193 | the projections follow the entries: identity and state, proposed when there is none, the title or else the stable id, the summary or else nothing |
| MethodIndex.LastItemWins | src/model_forge/harness/index_reducers.py:171-173 | of the items with one key the last is kept |
| MethodIndex.WritersStoreObjects | src/model_forge/harness/index_reducers.py:167-194 | neither the reducer nor a lifecycle command stores anything but objects |
| MethodIndex.IndexAgrees | src/model_forge/harness/index_reducers.py:167-194 | a published record agrees with the next index, and a record outside the run agrees with it when it agreed before |
| MethodPublications.MethodsAfter | src/model_forge/harness/publication.py:964-1057 | a Phase 2 publication replaces the records of its methods and the catalog, and leaves every other method's record |
| MethodPublications.AcceptedInputIsCurrent | src/model_forge/application/run_coordinator.py:920-944 | a run whose publication is accepted reduced the catalog that is current at its commit, although it froze it in a read of its own |
| MethodPublications.MethodNewsMeaning | src/model_forge/harness/publication.py:964-1057 | a run publishes exactly when its index is accepted, its stable ids are safe keys and no two are the same; then every record in the slot of its id, the next index and the decision |
| MethodPublications.SafeKeyIff | src/model_forge/harness/publication.py:28 | the safe keys are words of lower-case letters and digits joined by single separators, from a letter on |
| ProjectCommands.ChainEntries | src/model_forge/application/project_commands.py:275-282 | the root loop of a command chains its documents to the prior root |
| ProjectBriefs.TextItemsMeaning | src/model_forge/application/project_commands.py:361-367 | a list is accepted exactly when no entry is blank and no two are the same text after trimming, and then it is its entries trimmed |
| ProjectBriefs.CreatedMeaning | src/model_forge/application/project_commands.py:60-76 | a brief is created exactly when criteria and constraints are acceptable lists; its texts are trimmed, the domains are taken as they are and a blank scope is null |
| ProjectBriefs.Revise | src/model_forge/application/project_commands.py:172-198 | the field-by-field replacement is the prior brief with the requested fields and the stamped ones, or the error of its first bad list |
| ProjectBriefs.RevisedMeaning | src/model_forge/application/project_commands.py:172-198 | an update is accepted exactly when its lists are and some scientific field changes, a missing one reading as null; then every unstamped field is the requested one, trimmed, or the prior one |
| ProjectBriefs.RequestedFields | src/model_forge/application/project_commands.py:172-185 | an accepted update leaves each field of the request as its text or list, trimmed; a blank scope and a null one are none, a null list is empty |
| ProjectBriefs.TextsAsAskedIff | src/model_forge/application/project_commands.py:172-198 | an accepted update leaves the research question and the intended use as asked exactly when the request does not make them null; a null is published as the word None |
| ProjectBriefs.NullTextIsTheWordNone | src/model_forge/application/project_commands.py:174-179 | either required text can be replaced by the word None with a request that makes it null and says nothing else |
| ProjectCommands.EveryWriteIsAnnounced | src/model_forge/application/method_lifecycle.py:188-226 | for every slot whose current generation a committed command changed the log gains exactly one document that the new one is published and, if it replaces one, exactly one that the old is superseded by the new; it says nothing of any other slot |
| ProjectCommands.RootsFit | src/model_forge/application/method_lifecycle.py:227-234 | the roots a command computes are those the repository expects for a current head |
| ProjectCommands.AcceptedReadsAreCurrent | src/model_forge/application/method_lifecycle.py:48-54 | an accepted command was computed from the records that are current at its commit |
| ProjectCommands.DocsAfterCommit | src/model_forge/storage/repository.py:1956-2027 | a committed publication replaces exactly the documents it writes |
| ProjectCommands.FreshCommandCommitsIff | src/model_forge/application/project_commands.py:116-137 | with new identities and nobody else writing a command that is not refused always commits, but for a creation in a project that is not empty |
| ProjectCommands.CommandService.Execute | src/model_forge/application/project_commands.py:154-351 | with nobody else writing a command replaces exactly the records of its effect and announces them, all at once, or changes nothing |
| CommandInterleavings.EveryInterleavingIsSerial | src/model_forge/application/project_commands.py:245-350 | over every interleaving of commands, Phase 2 runs and any other publications the current records are those of the committed ones executed one after the other; no update is lost |
| CommandInterleavings.CommitsAreAnnounced | src/model_forge/application/method_lifecycle.py:188-226 | at any moment of any interleaving a command that commits leaves in the log exactly the news of the slots it changed |
| CommandInterleavings.CommandAlone | src/model_forge/application/project_commands.py:154-351 | a command that nobody disturbs, reading its records and the head and then committing, does what its execution on the current records does |
| CommandInterleavings.MethodRunAlone | src/model_forge/application/run_coordinator.py:223-330 | a Phase 2 run that nobody disturbs publishes what it makes of the current catalog, and nothing when the catalog slot holds no catalog |
| MethodAgreement.MethodsAlwaysAgree | src/model_forge/application/method_lifecycle.py:272-325 | over every interleaving, between any two moments of it, the catalog mirrors the records, and a method keeps a record that agrees with its single entry, under one identity and never proposed again, unless a Phase 2 run in between published it again |
| MethodAgreement.FromNothing | src/model_forge/harness/index_reducers.py:167-194 | from an empty project on, every method with a current record has exactly one catalog entry, which agrees with it, and the catalog has no other entry and right counts |
| MethodAgreement.RunKeepsMethod | src/model_forge/application/method_lifecycle.py:272-325 | from any moment with anything pending, and over any catalog, a method that agrees with its single entry and is hidden in no other keeps agreeing |
| MethodAgreement.RunKeepsLifecycleIff | src/model_forge/harness/publication.py:964-1020 | a Phase 2 publication leaves a method's lifecycle state as it was exactly when no record it publishes of the method has another one |
| MethodAgreement.RunCanRetire | src/model_forge/harness/publication.py:964-1020 | the publication that retires an active method without a lifecycle command |
| AuthorityReplay.ValidateSubjectPriorStateBindings | architecture/tools/validate_package.py:1851-1871 | exactly the revisits of a subject without a prior state are reported |
| AuthorityReplay.SubjectsShareKeyIff | architecture/tools/validate_package.py:1839-1848 | two subjects are folded together exactly when they are the same generation of one record or the same evidence item |
| AuthorityReplay.FoldAuthorityEvents | architecture/tools/validate_package.py:1874-1917 | the fold of the events in sequence order, with a message exactly for each missing prior, changed identity and missing field |
| AuthorityReplay.FoldMeaning | architecture/tools/validate_package.py:1878-1909 | each field holds the value of the highest-sequence event that sets it; unset, a record's evidence eligibility is not applicable, an evidence item's record position is none, and any other field is missing; sources are in sequence order |
| AuthorityReplay.OrderDoesNotMatter | architecture/tools/validate_package.py:1878-1909 | for distinct sequences the result does not depend on the order of the input |
| AuthorityReplay.PrefixThenContinue | architecture/tools/validate_package.py:1878-1909 | folding an earlier batch and continuing with a later one is folding both |
| AuthorityReplay.PriorsContinue | architecture/tools/validate_package.py:1851-1871 | a later batch is checked as if the subjects of the earlier one were given as existing |
| PublicationPlan.CheckPair | architecture/tools/validate_package.py:3176-3254 | exactly the mismatches of a paired entry are reported |
| PublicationPlan.PairedIffNoIssue | architecture/tools/validate_package.py:3176-3254 | no mismatch means fields, output mappings as sets, source inputs and target all match |
| PublicationPlan.ApplicableMeaning | architecture/tools/validate_package.py:3151-3158 | for each id the binding that counts is the last of the contract with it, if it applies in the mode |
| PublicationPlan.PublicationBindingDiagnostics | architecture/tools/validate_package.py:3142-3255 | no diagnostics exactly when entries and applicable bindings correspond one to one and every pair matches |
| PublicationPlan.VerdictIgnoresOrder | architecture/tools/validate_package.py:3142-3255 | the verdict does not depend on the order of the plan |
| PhaseContract.CheckContract | architecture/tools/validate_package.py:2437-2495 | exactly the sequence gaps and read problems of every mode are reported |
| PhaseContract.StagesOfMode | architecture/tools/validate_package.py:2455-2462 | the stages checked in a mode are exactly those of the contract that apply in it, each as often as it is there, in ascending sequence |
| PhaseContract.CleanIff | architecture/tools/validate_package.py:2437-2495 | nothing is reported exactly when in every mode the stages of the contract that apply are numbered from one on without gap or repetition, are well shaped, and read only what is given or written before them |
| PhaseContract.CleanContractsReadSafely | architecture/tools/validate_package.py:2447-2495 | in every mode and every interleaving of the roles of the contract's stages a read of a clean contract is a formal input, a prepared context or an output already written by a strictly earlier stage |
| PhaseContract.ReportedReadsCanFail | architecture/tools/validate_package.py:2488-2494 | for a read that is not declared before its stage there is a schedule that makes it before any stage wrote it |
| PhaseContract.ReadIsSafeIff | architecture/tools/validate_package.py:2447-2495 | a read finds its id in every schedule exactly when it is declared before its stage |
| BlastRadius.ChangedPaths | src/model_forge/application/correction_execution.py:1059-1081 | the recursion with its loops computes the set of changed pointers |
| BlastRadius.NothingChangedIffEqual | src/model_forge/application/correction_execution.py:1059-1081 | no path is reported exactly for equal trees |
| BlastRadius.DifferencesAreCovered | src/model_forge/application/correction_execution.py:1059-1081 | at or above every place where two trees differ a path is reported |
| BlastRadius.ReportedPathsDiffer | src/model_forge/application/correction_execution.py:1059-1081 | every reported path is the pointer of a place where the trees differ |
| BlastRadius.VerifyCorrectionBlastRadius | src/model_forge/application/correction_execution.py:1084-1142 | exactly the changes outside scope and permitted pointers are reported |
| BlastRadius.CleanIsAFrame | src/model_forge/application/correction_execution.py:1084-1142 | a clean verdict leaves out-of-scope outputs equal and, for packaging, the same node at every location not at or below a permitted pointer |
| BlastRadius.CleanKeepsSubtrees | src/model_forge/application/correction_execution.py:1084-1142 | where nothing permitted lies at, above or below a location its whole subtree is unchanged |
| BlastRadius.PointersCompareSegments | src/model_forge/application/correction_execution.py:1128-1131 | for all keys, being at or below a pointer is having its segments first, where a key with slashes counts as several |
| BlastRadius.LocationsFromPointers | src/model_forge/application/correction_execution.py:1128-1131 | being at or below a location, step text by step text, is being at or below its pointer with the same number of slashes in every step on the way |
| BlastRadius.PermissionWidensExactlyBySlashes | src/model_forge/application/correction_execution.py:1128-1131 | a set of permitted pointers permits a location that is under none of theirs exactly when some pointer reaches it and for all that do the slashes disagree |
| BlastRadius.TextsNameOnePlace | src/model_forge/application/correction_execution.py:1059-1081 | the texts of a location do not tell a key from an index of the same text, but inside one document they name one place |
| BlastRadius.SlashInKeyWidensPermission | src/model_forge/application/correction_execution.py:1128-1131 | the correction that may only change `a`, changes the key `a/b`, and is found clean |

## Left out

- The HTTP API, settings, command line, user interface, SQLite itself, Hermes execution, Jinja and jsonschema: foreign or plumbing.
- Real SHA-256 and UTF-8 decoding: hashes are functions, and UTF-8 is modelled only as far as its injectivity.
- JSON numbers with a fraction or exponent, which the canonicaliser refuses; the parser reads a `\u` escape as one code unit and does not join surrogate pairs, which the canonicaliser never writes.
- JcsTheorems.ParseInvertsSerialize: the parsed text must be followed by nothing or by a delimiter, as in any JSON document.
- BackupNames.ParsePrinted: stamps with a year below 1000 are printed by `%Y` without leading zeros on some platforms; the model prints four digits. Other Unicode digits and a newline at the very end of a name, which the regular expression would accept, are not modelled.
- StateLock.RunSealStore.ReleaseStateLock: unconditional release is not modelled; `state_lock` never uses it. Renewal is modelled, the monitor that calls it is not.
- SealRegistry.UnsealedLeavesNothing: a failing `rmtree` is a choice of the schedule, since its errors are ignored by the code; a call whose lock release raises after the insert, and so fails although it sealed, is not modelled.
- Promotion.ProfileDirectory.PromoteRunState: renames either happen or have no effect, and restoring does not fail; interrupts between two Python statements and the session-database backup procedure are not modelled. Leftover staging directories, whose removal ignores errors, are not claimed to be gone.
- Retention.LatestReplacedStateSurvives: sweeps run between promotions, not inside them, and ages are exact microseconds instead of floats.
- Launch records hold no heartbeats, logs or process ids here; restart reconciliation of running records is not modelled.
- RunLifecycle.NoUpdateIsLost: one run and its own event ids; the event table of other runs is not modelled.
- RunRefinement.MoveIsRepositorys: a note of progress that another writer makes between the read and the swap, which moves the head and not the status, is not part of the coordinator's view.
- RunRecovery.PromoteAlone: other runs and cancellations act between the calls there, not inside them; inside a call they are covered by the contract of RunCoordinator.Coordinator.Promote.
- RunCoordinator.Coordinator.Run: role execution, planning and validation are an oracle; correction commands do not interleave with a pass.
- Authority.PublicationUnitOfWork.AddFormalGeneration: the checks that artifact and source run belong to the project are not modelled.
- RunRecovery.AtMostOneReceipt: it excludes the one step `MarkRaises` that RunRecovery.InvBrokenOnlyByMarkRaises shows to be the only exception.
- Authority.HubRepository.Publish: the order of the calls inside a transaction only decides which error is reported first; cumulative collection items and the ownership of artifacts, runs and commands are not modelled.
- AuthorityHistory.SlotHistoryIsLinear: a publication passes one slot as logical slot and as current slot, and one generation as superseded and as expected, as every caller does (harness/publication.py:373-389, application/project_commands.py:123-137 and 320-335, application/method_lifecycle.py:279-310); the unit of work alone would accept others.
- AuthorityHistory.EqualHeadsEqualLogs: a publication passes the digest of the event document as its content digest, as every caller does, while the unit of work takes any digest; the receipt ids in the log are not covered by the root, and the lemma does not claim them equal.
- MethodAgreement.MethodsAlwaysAgree: publications of other phases are assumed to write the slots of their contracts, all of which end in `.current` and none of which is the catalog; the validators of a Phase 2 submission, which look at identities and evaluations and not at lifecycle states, and the schema validation of a method record are not modelled.
- MethodPublications.AcceptedInputIsCurrent: the receipt, generation ids and events of a publication are arbitrary; attention items go to a collection and are not modelled.
- ProjectCommands.CommandService.Execute: the types of a request's fields are those its schema admits; creating the project row and storing the artifact are not modelled.
- PublicationPlan.PublicationBindingDiagnostics: the order of the diagnostics is not modelled.
- PhaseContract.CheckContract: the other contract checks (choices, links, writers, effects) are case tables and left out.
- BlastRadius.ChangedPaths: scalars are compared structurally; Python's equality of `True` and `1` is not modelled.
- Preflight, output-file checks, projections, shadow comparison, README-count and link checks: each is a list of independent checks of one document, with no state or order between them.
