# A verified model of the EXBanka core

This project models the parts of the EXBanka backend whose correctness depends on more than one
function, and proves what they promise.

* **The cron registry** (`contract/cronreg`). Every background job of every service runs behind an
  `Entry`: an unlocked pause check, a compare-and-swap guard, bookkeeping under a read/write lock, a
  late release, a coalescing trigger channel, a pause flag mirrored into a table and multi-field
  snapshots taken while runs are in flight. It is modelled three times, and the three are connected:
  * `CronProtocol` is the interleaving layer: any number of goroutines with program counters, one
    atomic access, mutex operation or protected field access per step, and a history no step reads.
    `CronInvariants` holds the inductive invariants, `CronTheorems` and `CronProgress` what follows
    for every reachable state and every run, `CronPause` the three pause fields and the persisted
    row, which are written without a common lock, `CronSnapshot` what a read or a trigger gets while
    others write, and `CronFleet` many entries behind one name table.
  * `RegistrySpec` is the registry as a sequence of whole calls with failing database accesses and
    restarts.
  * `CronRegistry` has the classes `Entry`, `Registry` and `PauseStore` with their time pointers as
    heap cells; each method is tied to the whole call it implements. `CronAtomicity` shows that a
    whole call is what the protocol's steps do when one goroutine takes them uninterrupted.
* **The saga executor** (`contract/shared/saga`), module `Saga`: forward execution with resume,
  rollback up to a pivot, and crash-recovery compensation, with the outcome of every recorder, step
  and context call as a parameter. `SagaRecovery` adds stock-service's choice of direction and any
  number of attempts that crash anywhere.
* **Client money** (`account-service`): `Reservations` has the transactions that change an existing
  account's balance, reserved or available amount as steps of one state, and what keeps the books
  balanced;
  `AccountLaws` what each call is accepted for and moves, and where money comes from and goes to;
  `Replays` how long the idempotency of settlements and holds lasts; `Ledger` reconciliation, the
  chain of entries and idempotency keys; `ReservationService` the transactions as they run, with roll
  back.
* **Revocation keys** (`contract/authredis`, and the reader in `api-gateway`): `AuthKeys`, over the
  decimal printing and parsing of `Decimal`.
* **Change tracking** (`contract/changelog`): `ChangeMetadata` and `Changelog`.
* **The per-bank compose generator** (`scripts/gen-bank-stacks.py`): `Compose`.

`dafny verify dfyconfig.toml` checks everything.

## What the code does not keep

Where a documented promise is false of the code, the code is modelled as it is; one lemma shows the
failure and another states exactly when the promise is kept.

* A saga that fails after a resume does not compensate the steps an earlier call completed: they are
  passed over (`contract/shared/saga/saga.go:383-386`) and never enter the list that is rolled back,
  although the comment at lines 347-349 promises it for every completed step. For the same reason
  rollback can go past a pivot that was passed over. `Saga.ResumedFailureForgets` shows it;
  `Saga.ResumePromiseExactly` gives the condition on the steps and the log before the call,
  `Saga.RollbackPromiseExactly` the one for a single run.
* A saga that was rolled back and is run again under its id commits without the steps the rollback
  undid: their forward rows stay completed (`credit-service/internal/repository/saga_log_repository.go:85-92`),
  so they are passed over, although the comment at `saga.go:380-382` calls retries idempotent.
  `Saga.RetrySkipsDebit` shows it; `Saga.RetryExactly` and `Saga.CommitExactly` say when it does not
  happen. Where recovery asks for compensation rows first, as stock-service's does, it cannot happen
  (`SagaRecovery.CrashesNeverMislead`).
* Recovery compensation skips a step whose `IsCompleted` query fails and then reports success
  (`saga.go:461-466`): `Saga.UnansweredQueryHidesStep`, `Saga.QueriesMatterExactly`. It also misses a
  step that ran but could not be marked completed (`saga.go:409-414`), although the comment at lines
  440-441 says that nothing is left to undo: `Saga.UnmarkedStepSurvives`, `Saga.CrashRestoresExactly`.
* The invariant of `account-service/internal/service/reservation_service.go:35`, available = balance -
  reserved, fails on the normal path of `ReserveOutgoing`, which lowers the available amount alone
  (`outgoing_reservation_service.go:116`). Taking the pending cross-bank holds into account, five
  kinds of call still break it: a retry of `ReserveFunds` that re-activates a finished reservation on
  another account than its own (lines 141-169), a credit of a negative amount or a bank debit checked
  against the balance only (`bank_account_repository.go:90-94`), a balance update that leaves the
  available amount behind (`account_repository.go:259-264`), a settlement or release of a cross-bank
  reservation that another call has finished since its status was read outside the transaction
  (`outgoing_reservation_service.go:153-168`, `220-231`), and the account row saved whole, as it was
  read without a lock, when only its category is to change (`account_service.go:415-420`).
  `Reservations.MistakesArePossible` shows all five, `Reservations.StepKeepsBooksExactly` and
  `Reservations.BooksBalanceExactly` that no other modelled call does, and
  `Reservations.DocumentedEquationExactly` when the equation of line 35 itself holds.
* The same save can undo a balance update that came in between: the ledger entry stays, and
  reconciliation (`ledger_service.go:106-107`) reports a mismatch from then on.
  `Ledger.SavedOverUpdate` shows it; `Ledger.ReconciliationExactly` and `Ledger.LedgerIsChained` say
  that nothing else can.
* A principal's revocation epoch is overwritten whatever it was
  (`auth-service/internal/cache/redis.go:82-85`), while one writer takes the time of writing and
  another the time in a message that may come late (`role_perm_change_consumer.go:43`). A late message
  readmits tokens that had been refused. `AuthKeys.LateEpochReadmits` shows it;
  `AuthKeys.ReadmitsExactly` and `AuthKeys.VerdictExactly` give the exact conditions.
* The comments at `reservation_service.go:94-96` and `284-285` call holds and settlements idempotent.
  They are only until the reservation is re-activated: then its settlements are deleted (line 156), the
  order is held a second time, and the same transaction id takes its money a second time.
  `Replays.SettlesTwice` shows it; `Replays.SettledOnceExactly` and `Replays.HeldOnceExactly` give the
  exact conditions over all histories. An immediate repeat of a settlement moves no money, but is
  reported as a failure unless the rest would cover it once more, because the limit check comes before
  the duplicate check (`Reservations.SettleReplay`).
* Overlapping `Pause` and `Resume` calls can leave a cron paused with no pause time
  (`CronPause.PauseRacesResume`). `CronPause.AgreementExactly` says which overlaps can,
  `CronPause.OwnFieldsExactly` which can mix the employee and time of different calls, and
  `CronPause.InStepExactly` which can leave memory and the persisted row apart.
* Memory changes before `Save`, so a failed save is lost by a restart (`RegistrySpec.FailedSaveIsLost`);
  `RegistrySpec.RestartExactly` says when a restart changes nothing.
* A forced trigger of a paused cron is accepted but does not run it (`RegistrySpec.PausedNeverRuns`).
* `changelog.Diff` with a repeated field name need not replay to the new record
  (`Changelog.RepeatedFieldBreaksReplay`, `Changelog.ReplayExactly`).

## Model

| member | source | states |
|---|---|---|
| `CronTheorems.MutualExclusion` | contract/cronreg/registry.go:70-107 | in every reachable state at most one goroutine is between winning the swap and releasing it, and isRunning is true exactly when there is one |
| `CronTheorems.Conservation` | contract/cronreg/registry.go:75-107 | swap wins equal runCount plus one exactly while the owner is uncounted; errorCount is the number of failed runs (plus one between the two counter updates) and never exceeds runCount while the write lock is free; win, start and finish number i are the same goroutine's |
| `CronTheorems.SnapshotIsPrefix` | contract/cronreg/registry.go:246-266 | every snapshot of every interleaving describes the first RunCount runs: error count, last error, last finish, and a start that is that run's or the next one's; the next schedule is the last finish plus the interval |
| `CronTheorems.RunsInOrder` | contract/cronreg/registry.go:78-106 | under a monotone clock no start is recorded before an earlier run's finish, and finishes never go backwards |
| `CronTheorems.NextNeverMovesBack` | contract/cronreg/registry.go:99-101 | nextScheduledAt never decreases along any run, and never changes without a positive interval |
| `CronTheorems.SnapshotsAscend` | contract/cronreg/registry.go:246-266 | snapshots in completion order never go back in runs, errors or next schedule |
| `CronSnapshot.SnapshotReadsInterval` | contract/cronreg/registry.go:246-266 | every one of the nine values a snapshot shows was held by its field at some state between its lock and its unlock, and the unlock hands over exactly these |
| `CronSnapshot.PauseFieldsRead` | contract/cronreg/registry.go:249-262 | in particular the three pause fields, which are stored without the lock |
| `CronSnapshot.UndisturbedSnapshot` | contract/cronreg/registry.go:249-262 | if no Pause or Resume stores anything in between, they are the ones at the lock |
| `CronSnapshot.TriggerOutcome` | contract/cronreg/registry.go:228-244 | a trigger among whatever other calls is accepted only if forced or the cron was unpaused at some state meanwhile, and refused only if not forced and it was paused at some state meanwhile |
| `CronSnapshot.UndisturbedTrigger` | contract/cronreg/registry.go:235-237 | while the pause flag does not change it is accepted exactly when forced or unpaused |
| `CronInvariants.InvStep` | contract/cronreg/registry.go:70-107 | every step of every goroutine keeps the guard, lock, bookkeeping, time, reader, snapshot and signal invariants together |
| `CronInvariants.ReachableInv` | contract/cronreg/registry.go:137-162 | those invariants hold in every state reachable from a registration, with or without a restored pause |
| `CronInvariants.SnapshotDescribes` | contract/cronreg/registry.go:246-266 | a completed field-by-field read describes the run history although runs are in flight |
| `CronProgress.PauseBound` | contract/cronreg/registry.go:187-197 | until a Resume stores false, the runs that start are at most the goroutines already past the pause check, whatever triggers arrive |
| `CronProgress.PauseBoundAttained` | contract/cronreg/registry.go:70-77 | from every reachable paused state some schedule starts exactly that many runs |
| `CronProgress.OwnerProgress` | contract/cronreg/registry.go:78-106 | each step of the owner decreases the distance to the release; nobody else's step moves the owner |
| `CronProgress.OwnerUnblocked` | contract/cronreg/registry.go:88-90 | the owner can be held up only by snapshots in progress or by its own job |
| `CronProgress.Settle` | contract/cronreg/registry.go:88-107 | from every invariant state the guard can be released without any admin call |
| `CronProgress.GuardNeverOrphaned` | contract/cronreg/registry.go:70-107 | from every reachable unpaused state any idle goroutine's BeginRun can still win |
| `CronProgress.TriggerCoalescing` | contract/cronreg/registry.go:228-244 | the channel holds a signal exactly when a trigger was accepted after the last receive; receives plus the pending signal equal the trigger groups |
| `CronPause.AgreementExactly` | contract/cronreg/registry.go:194-216 | from every state, after the flag store of a Pause or Resume the three fields end in agreement under every schedule exactly when no call of the other kind is between its stores |
| `CronPause.OwnFieldsExactly` | contract/cronreg/registry.go:194-216 | they end as that call's own flag, employee and time under every schedule exactly when the other calls between their stores have only the same values left to store |
| `CronPause.FieldsAreLastWritten` | contract/cronreg/registry.go:187-223 | from every registration, along every run without overlaps, or whose overlaps agree, the fields are those of the last Pause or Resume whenever no call is between its stores |
| `CronPause.PauseRacesResume` | contract/cronreg/registry.go:194-216 | from every registration a reachable state from which all calls finish and leave the cron paused without a pause time |
| `CronPause.InStepExactly` | contract/cronreg/registry.go:187-223 | after the flag store of a Pause or Resume memory and persisted row end in step under every schedule exactly when the calls under way have only the same values left to store and to save, and some save is going to succeed or the row holds those values already |
| `CronPause.SerialInStepExactly` | contract/cronreg/registry.go:187-223 | from every registration, along every run of such calls one at a time, the row is that of the last successful save, and in step with memory exactly when it restores what the last call set |
| `CronFleet.NamesAreForever` | contract/cronreg/registry.go:137-162 | along every run a name, once registered, resolves to the same entry |
| `CronFleet.SameNameExclusion` | contract/cronreg/registry.go:135-162 | loops that registered the same name share one entry, so at most one of them is inside a run |
| `CronFleet.OwnersAreRegistered` | contract/cronreg/registry.go:137-162 | whoever is inside a run got the entry from Register under the one name that entry has |
| `CronFleet.FleetRunInv` | contract/cronreg/registry.go:122-162 | the table of names stays injective and every entry stays reachable over all runs |
| `RegistrySpec.NonInterference` | contract/cronreg/registry.go:186-244 | a cron's entry and persisted row are the same if all calls on other names are dropped from the history |
| `RegistrySpec.EntriesAreDeclared` | contract/cronreg/registry.go:137-162 | exactly the registered names have an entry |
| `RegistrySpec.EntriesStay` | contract/cronreg/registry.go:140-142 | no history drops or replaces an entry or lowers its run count |
| `RegistrySpec.IdentityIsFirst` | contract/cronreg/registry.go:135-150 | after every history a cron has its own name, the registry's service, and the description and interval of the first call that registered it |
| `RegistrySpec.RowIsLastSaved` | contract/cronreg/pause_store_gorm.go:39-46 | the row of a cron is what the last successful save wrote, read off the history alone |
| `RegistrySpec.RestartRestores` | contract/cronreg/registry.go:151-159 | after any history with any failed saves, a new registry restores the fields of the last successful save, unpaused if none |
| `RegistrySpec.MemoryIsLastSet` | contract/cronreg/registry.go:137-223 | after every history memory holds the pause fields the last Register, Pause or Resume set, read off the history alone |
| `RegistrySpec.RestartExactly` | contract/cronreg/registry.go:151-223 | for every history and every outcome of the load, a restart changes no pause field exactly when what was set last is what was saved last |
| `RegistrySpec.InStepAgrees` | contract/cronreg/registry.go:187-223 | if the last pause-changing call reached the database, memory and row agree |
| `RegistrySpec.RestartRoundTrip` | contract/cronreg/registry.go:137-162 | if the last pause-changing call reached the database, a restart changes no pause field |
| `RegistrySpec.FailedSaveIsLost` | contract/cronreg/registry.go:195-202 | a pause whose save fails is in force until the restart and gone after it |
| `RegistrySpec.PausedNeverRuns` | contract/cronreg/registry.go:70-77 | a paused cron that is not running stays so over every history without a Resume, whatever triggers, forced or not, are accepted and received |
| `RegistrySpec.SignalIsPending` | contract/cronreg/registry.go:228-244 | after every history a signal waits exactly when, since the last receive, the cron was triggered by force or while what was set last left it unpaused |
| `CronRegistry.CopyTimePtr` | contract/cronreg/registry.go:268-274 | the copy has the same time in a fresh cell, nil for nil |
| `CronRegistry.PauseStore.Load` | contract/cronreg/pause_store_gorm.go:22-35 | the row's three values, the zero time for a missing one; a missing row is unpaused; what Register restores from it is what the row says |
| `CronRegistry.PauseStore.Save` | contract/cronreg/pause_store_gorm.go:39-46 | upserts exactly this row, without a time when unpaused; a failure changes nothing |
| `CronRegistry.Entry.BeginRun` | contract/cronreg/registry.go:70-83 | succeeds exactly when neither paused nor running, and then records the start; the new state, and no new alias |
| `CronRegistry.Entry.EndRun` | contract/cronreg/registry.go:88-107 | the whole new state of the entry |
| `CronRegistry.Entry.Snapshot` | contract/cronreg/registry.go:246-266 | every field of the entry, all times in fresh cells |
| `CronRegistry.Registry.Register` | contract/cronreg/registry.go:137-162 | a known name returns its entry and changes nothing; a new one gets a fresh entry with this name, description and interval, the registry's service and the stored pause |
| `CronRegistry.Registry.Get` | contract/cronreg/registry.go:176-184 | a detached snapshot with this name and the registry's service, or not found |
| `CronRegistry.Registry.List` | contract/cronreg/registry.go:165-173 | exactly one current, detached snapshot per registered name |
| `CronRegistry.Registry.Pause` | contract/cronreg/registry.go:187-204 | memory, row and result, for every outcome of the save |
| `CronRegistry.Registry.Resume` | contract/cronreg/registry.go:207-223 | memory, row and result, for every outcome of the save |
| `CronRegistry.Registry.Trigger` | contract/cronreg/registry.go:228-244 | refused exactly when the cron is paused and the trigger not forced, and then nothing changes; otherwise a signal waits |
| `CronRegistry.Registry.Execute` | contract/cronreg/registry.go:137-244 | a whole history of calls on the objects ends in the state of the abstract history, for every name |
| `CronRegistry.SnapshotOutlivesCalls` | contract/cronreg/registry.go:175-184 | no later history of calls changes a returned snapshot, and no entry comes to share its cells |
| `CronRegistry.SnapshotIsDetached` | contract/cronreg/registry.go:268-274 | overwriting a snapshot's times leaves the registry's state as it was |
| `CronAtomicity.BeginRunIsBegun` | contract/cronreg/registry.go:70-83 | the protocol steps of one uninterrupted BeginRun have the effect and result of the whole call |
| `CronAtomicity.EndRunIsEnded` | contract/cronreg/registry.go:88-107 | likewise for EndRun |
| `CronAtomicity.PauseIsWhole` | contract/cronreg/registry.go:187-204 | likewise for Pause, with its save |
| `CronAtomicity.ResumeIsWhole` | contract/cronreg/registry.go:207-223 | likewise for Resume, with its save |
| `CronAtomicity.TriggerIsWhole` | contract/cronreg/registry.go:235-243 | likewise for Trigger |
| `CronAtomicity.SnapshotIsWhole` | contract/cronreg/registry.go:246-266 | the protocol steps of one uninterrupted snapshot hand over every field of the entry and change nothing |
| `CronAtomicity.RestartIsReachable` | contract/cronreg/registry.go:137-162 | after any history with any failed saves, what a restart registers is a reachable state of the protocol, with the pause fields of the last successful save |
| `Saga.Rollback` | contract/shared/saga/saga.go:526-568 | the reverse loop compensates exactly the attempted steps that can be compensated, in order, and is stuck exactly when one could not |
| `Saga.WalkMeans` | contract/shared/saga/saga.go:520-538 | a step is attempted exactly when it is completed, has a Backward, and no completed pivot stands at or after it |
| `Saga.WalkDescends` | contract/shared/saga/saga.go:530-531 | the attempts are in strictly descending order and among the completed steps |
| `Saga.UnwindMeans` | contract/shared/saga/saga.go:530-562 | the recursive form of the walk reports the succeeding attempts and whether any failed |
| `Saga.Forward` | contract/shared/saga/saga.go:373-430 | the loop stops at the first failing step, having run exactly the steps not passed over |
| `Saga.Execute` | contract/shared/saga/saga.go:362-434 | result, effects and log are those of the specification, for every outcome of every call |
| `Saga.OutcomeExactly` | contract/shared/saga/saga.go:373-433 | a call commits exactly when no step is cancelled and each is reported completed, or else recorded and run; otherwise it stops at the first step of which that is not so |
| `Saga.AbortLeavesExactly` | contract/shared/saga/saga.go:373-568 | whatever fails on the way, an aborted call leaves an effect in force exactly when it was or its step was run, unless the step is undoable and its compensation was recorded and done |
| `Saga.Compensate` | contract/shared/saga/saga.go:453-480 | removes the effects of what the log reports completed, and succeeds exactly when every attempt did |
| `Saga.RowsStayTrue` | contract/shared/saga/saga.go:388-415 | wherever the forward phase is cut off, a completed row means its effect is in force |
| `Saga.CommitExactly` | contract/shared/saga/saga.go:380-434 | a committed call has every step in force exactly when each completed row it started from meant an effect in force |
| `Saga.ResumeExactly` | contract/shared/saga/saga.go:380-386 | a resumed call without faults always commits, with every step in force exactly when the rows told the truth |
| `Saga.RetryExactly` | contract/shared/saga/saga.go:380-386 | a retry that commits after a first run was rolled back has every step in force exactly when no compensated step had been marked |
| `Saga.RetrySkipsDebit` | credit-service/internal/service/loan_disbursement_saga.go:56-69 | a retry under a fixed id that commits with the credit and without the debit |
| `Saga.FaithfulExactly` | contract/shared/saga/saga.go:526-562 | rolling back some of the completed steps equals rolling back all of them exactly under a stated condition on the missing ones |
| `Saga.ResumePromiseExactly` | contract/shared/saga/saga.go:347-386 | whatever happens to a call, it keeps the promise to compensate every completed step up to the pivot, exactly when no logged step before the last could be undone and no unlogged one relies on a logged pivot |
| `Saga.RollbackPromiseExactly` | contract/shared/saga/saga.go:347-352 | the per-run form: the promise is kept exactly when the steps passed over make no difference to the rollback |
| `Saga.FirstFailureUndoes` | contract/shared/saga/saga.go:347-352 | a first run that fails leaves exactly those of its effects that a pivot shields or that have no Backward, and nothing else changed |
| `Saga.FailureLeavesNoTrace` | contract/shared/saga/saga.go:347-352 | a fully reversible saga that fails on its first run leaves the world as it was |
| `Saga.ResumedFailureForgets` | contract/shared/saga/saga.go:380-386 | a failing resumed saga that keeps an earlier step in force and reports nothing stuck |
| `Saga.QueriesMatterExactly` | contract/shared/saga/saga.go:453-471 | recovery attempts the same whatever queries go unanswered exactly when every completed step with a Backward is itself a pivot |
| `Saga.RecoveryExactly` | contract/shared/saga/saga.go:453-471 | the per-run form: what is attempted is the rollback of everything logged exactly when the unanswered queries make no difference |
| `Saga.CrashRecovery` | contract/shared/saga/saga.go:436-447 | a first run cut off at any step and then recovered keeps exactly the effects that are shielded, have no Backward, or were never marked |
| `Saga.CrashRestoresExactly` | contract/shared/saga/saga.go:436-447 | it leaves the world as it was exactly when every step that ran was marked and is reversible |
| `Saga.UnmarkedStepSurvives` | contract/shared/saga/saga.go:409-414 | a reversible step whose completion could not be recorded and that recovery leaves in force |
| `SagaRecovery.Recover` | stock-service/internal/service/otc_exercise_recovery.go:35-65 | an attempt that does not crash: finishes the rollback if compensation rows exist, resumes forward otherwise |
| `SagaRecovery.AlwaysTruthful` | stock-service/internal/repository/saga_log_repository.go:155-171 | over any number of attempts that crash anywhere, a completed row means its effect until a compensation row exists |
| `SagaRecovery.AbortingMeans` | stock-service/internal/repository/saga_log_repository.go:155-171 | a rollback begins only with the recorded compensation of an undoable step that was run |
| `SagaRecovery.AbortingIsFinal` | stock-service/internal/repository/saga_log_repository.go:155-171 | once one exists no attempt runs a step forward again |
| `SagaRecovery.CrashesNeverMislead` | stock-service/internal/service/otc_exercise_recovery.go:47-65 | after any number of such attempts one without a fault commits with every step in force, or leaves exactly the effects that are shielded, have no Backward or were never marked |
| `SagaRecovery.AllOrNothingExactly` | stock-service/internal/service/otc_exercise_recovery.go:47-65 | a reversible saga then has every step in force, or else none exactly when every effect in force had been marked |
| `SagaRecovery.AllOrNothing` | stock-service/internal/service/otc_exercise_recovery.go:47-65 | so it is atomic across any number of crashes as long as completions get recorded |
| `Saga.RecoveryUndoes` | contract/shared/saga/saga.go:436-447 | with working calls, recovery removes exactly the undoable completed effects |
| `Saga.UnansweredQueryHidesStep` | contract/shared/saga/saga.go:461-466 | recovery that reports success with a reversible effect still in force |
| `Reservations.StepKeepsBooksExactly` | account-service/internal/service/reservation_service.go:21-39 | every modelled call, committed or not, keeps available = balance - reserved - pending cross-bank holds, reserved = the open holds, and available >= 0, exactly unless it commits one of five mistakes |
| `Reservations.SaveExactly` | account-service/internal/service/account_service.go:408-427 | saving an account row as read earlier keeps the books exactly when its reserved amount and the distance of available from balance are still those read, and available is not negative |
| `Reservations.WrongGoesThrough` | account-service/internal/service/reservation_service.go:141-178 | none of the five is refused |
| `Reservations.MistakesArePossible` | account-service/internal/service/reservation_service.go:141-178 | all five, with both kinds of overdraft, on one balanced example |
| `Reservations.DocumentedEquationExactly` | account-service/internal/service/reservation_service.go:35-35 | while the books balance, available = balance - reserved holds for an account exactly while no cross-bank hold is pending on it |
| `Reservations.ReserveOutgoingKeeps` | account-service/internal/service/outgoing_reservation_service.go:65-147 | a cross-bank hold keeps the books |
| `Reservations.FinishExactly` | account-service/internal/service/outgoing_reservation_service.go:152-253 | settling or releasing it keeps the books exactly when it is still pending inside the transaction |
| `Reservations.UpdateExactly` | account-service/internal/repository/account_repository.go:209-312 | a balance update keeps the books exactly when it also updates the available amount, or changes nothing |
| `Reservations.BooksBalanceExactly` | account-service/internal/service/reservation_service.go:35-39 | the same over every history: the books balance throughout exactly when no call commits one of the five |
| `Reservations.ReactivateExactly` | account-service/internal/service/reservation_service.go:141-178 | a re-activation keeps the books exactly when the retry names the reservation's own account |
| `Reservations.MisdirectedReactivation` | account-service/internal/service/reservation_service.go:141-178 | balanced books after which a retry and a release put more at disposal than the balance |
| `Reservations.PostedExactly` | account-service/internal/repository/ledger_repository.go:64-134 | a posting keeps the books exactly when the available balance can bear it |
| `Reservations.TransferExactly` | account-service/internal/service/ledger_service.go:57-74 | a transfer keeps the books exactly when the target can bear the signed amount or is the source |
| `Reservations.ReleaseKeeps` | account-service/internal/service/reservation_service.go:220-280 | a release returns exactly the open hold: the books stay balanced |
| `Reservations.SettleKeeps` | account-service/internal/service/reservation_service.go:290-406 | a fill consumes hold and balance together, and the last one closes the reservation: the books stay balanced |
| `Reservations.ReserveNewKeeps` | account-service/internal/service/reservation_service.go:112-207 | a new hold is covered and counted: the books stay balanced |
| `Reservations.ClampsNeverFire` | account-service/internal/service/reservation_service.go:241-257 | while the books balance an active hold has a positive rest, which the reserved balance covers, so no clamp at zero takes effect |
| `Reservations.SettleReplay` | account-service/internal/service/reservation_service.go:305-337 | an immediate repeat of a settlement changes nothing; it is accepted exactly when the rest covers the amount once more |
| `Replays.SettledOnceExactly` | account-service/internal/service/reservation_service.go:282-337 | once a transaction is settled against a reservation, no later settlement of it, on any order and amount, changes anything, over any history, exactly until a committed call re-activates the reservation |
| `Replays.SettlesAgain` | account-service/internal/service/reservation_service.go:141-178 | right after a re-activation the same transaction takes the whole amount once more |
| `Replays.SettlementRecorded` | account-service/internal/service/reservation_service.go:312-325 | an accepted settlement leaves its transaction id recorded |
| `Replays.HeldOnceExactly` | account-service/internal/service/reservation_service.go:94-96 | no retry for an order, on any account and amount, changes anything, over any history, exactly while the reservation is never finished while some account can bear it |
| `Replays.ActiveExactly` | account-service/internal/service/reservation_service.go:216-406 | a hold stays active over any history exactly until a release or a filling settlement commits, and till then no retry matters |
| `Replays.SettlesTwice` | account-service/internal/service/reservation_service.go:141-178 | a settled order that is reserved again and settled with the same transaction id: two debits, and none of the five mistakes |
| `Replays.SoundRun` | account-service/internal/service/reservation_service.go:103-406 | the reservation tables stay well formed over every history, balanced books or not |
| `Reservations.ReserveReplay` | account-service/internal/service/reservation_service.go:180-186 | an immediate repeat of a reservation changes nothing, also of one that re-activated |
| `Reservations.ReserveReleaseRoundTrip` | account-service/internal/service/reservation_service.go:216-280 | a new hold released at once restores every account |
| `Reservations.WithoutMeans` | account-service/internal/repository/account_reservation_repository.go:115-118 | deleting a reservation's settlements zeroes its settled total and no other |
| `AccountLaws.ReserveNewExactly` | account-service/internal/service/reservation_service.go:103-207 | a new hold is accepted exactly for a positive amount on an existing account in its currency with that much available, with the error of each refusal; it moves exactly the amount and adds exactly its row |
| `AccountLaws.ReserveAgainExactly` | account-service/internal/service/reservation_service.go:133-186 | a retry for a taken key: when it is accepted, and what re-activation moves |
| `AccountLaws.ReleaseExactly` | account-service/internal/service/reservation_service.go:220-280 | on balanced books a release always succeeds, returns exactly the open rest and marks the row released |
| `AccountLaws.SettleAccepted` | account-service/internal/service/reservation_service.go:290-322 | a fill is accepted exactly for a positive amount within the rest of an active reservation, with the error of each refusal |
| `AccountLaws.SettleMoves` | account-service/internal/service/reservation_service.go:330-399 | it takes balance and hold together, adds its settlement and debit entry, and marks the row settled exactly when it is the last |
| `AccountLaws.ReserveOutgoingExactly` | account-service/internal/service/outgoing_reservation_service.go:65-147 | a cross-bank hold is accepted exactly for a positive amount on an active account in its currency with that much available, or a known key; errors, movement and row |
| `AccountLaws.SettleOutgoingExactly` | account-service/internal/service/outgoing_reservation_service.go:152-214 | by the status of the row: settled once, refused, or the balance debited, entered under its key and marked |
| `AccountLaws.ReleaseOutgoingExactly` | account-service/internal/service/outgoing_reservation_service.go:219-253 | by the status of the row: nothing, or the amount returned and the row marked |
| `AccountLaws.LateMoves` | account-service/internal/service/outgoing_reservation_service.go:152-253 | a call that comes late moves the money all the same and leaves the finished row as it is |
| `AccountLaws.CreditExactly` | account-service/internal/repository/ledger_repository.go:105-134 | accepted exactly on an existing account; balance, available and one credit entry |
| `AccountLaws.DebitExactly` | account-service/internal/repository/ledger_repository.go:64-100 | accepted exactly with that much available; balance, available and one debit entry |
| `AccountLaws.DebitBankExactly` | account-service/internal/repository/bank_account_repository.go:50-137 | accepted exactly for a positive amount within the balance; balance, available and one debit entry |
| `AccountLaws.TransferMoves` | account-service/internal/service/ledger_service.go:57-64 | accepted exactly between existing accounts with that much available at the source; lowers the source and raises the target by the amount, leaves every other account alone, and adds one debit and one credit entry |
| `AccountLaws.UpdateMoves` | account-service/internal/repository/account_repository.go:209-312 | moves the balance by the signed amount, once per key, with its entry; when it is accepted and the errors |
| `AccountLaws.StepConserves` | account-service/internal/service/ledger_service.go:53-64 | one call changes the total of all balances by exactly what flows in or out of the bank; a transfer, a hold or a release never does |
| `AccountLaws.MoneyIsConserved` | account-service/internal/service/ledger_service.go:53-101 | over every history the total of all balances is what it was plus what flowed in less what flowed out |
| `ReservationService.Bank.ReserveFunds` | account-service/internal/service/reservation_service.go:103-214 | refused for a wrong amount, account, currency or too little money, with the code of each, and otherwise a new hold succeeds and moves exactly the amount; the run equals its step or is rolled back; the result names the active reservation and the new balances |
| `ReservationService.Bank.ReleaseReservation` | account-service/internal/service/reservation_service.go:220-280 | equals its step or is rolled back; the released amount is what the available balance gains |
| `ReservationService.Bank.PartialSettle` | account-service/internal/service/reservation_service.go:290-406 | refused without an active reservation or beyond its rest, and otherwise succeeds; equals its step or is rolled back; the result shows the account afterwards and the id of the ledger entry, zero for a replay |
| `ReservationService.Bank.Existing` | account-service/internal/service/reservation_service.go:141-186 | an active reservation is replayed unchanged, a finished one re-activated or refused |
| `ReservationService.Bank.ReserveOutgoing` | account-service/internal/service/outgoing_reservation_service.go:65-147 | refused for a wrong amount, account, status, currency or too little money, and otherwise holds exactly the amount; equals its step or is rolled back; the result is the row of the key |
| `ReservationService.Bank.SettleOutgoing` | account-service/internal/service/outgoing_reservation_service.go:152-214 | equals its step or is rolled back, whatever has happened since the status was read; the result is the account afterwards |
| `ReservationService.Bank.ReleaseOutgoing` | account-service/internal/service/outgoing_reservation_service.go:219-253 | equals its step or is rolled back, whatever has happened since the status was read |
| `ReservationService.Bank.UpdateBalance` | account-service/internal/repository/account_repository.go:209-312 | moves exactly the amount, equals its step or is rolled back; the result is the ledger entry with the key |
| `ReservationService.Bank.DebitWithLock` | account-service/internal/repository/ledger_repository.go:64-100 | result, movement and entry, for every outcome of the save |
| `ReservationService.Bank.CreditWithLock` | account-service/internal/repository/ledger_repository.go:105-134 | result, movement and entry, for every outcome of the save |
| `ReservationService.Bank.Transfer` | account-service/internal/service/ledger_service.go:57-64 | both postings or neither: the source ends lower and the target higher by the amount |
| `ReservationService.Bank.SaveAccount` | account-service/internal/service/account_service.go:408-427 | equals its step, for whatever row the unlocked load returned |
| `Ledger.ReconciliationExactly` | account-service/internal/service/ledger_service.go:106-154 | over every history an account stays off from the ledger by the same amount throughout exactly when no call saves its row over a changed balance; without such a save the verdict never changes |
| `Ledger.SavedOverUpdate` | account-service/internal/service/account_service.go:408-427 | a balance update between load and save of a row: reconciliation and the chain fail, and the books still balance |
| `Ledger.StepUnposted` | account-service/internal/repository/ledger_repository.go:64-134 | one call, whatever its outcome, keeps the difference between balance and ledger exactly unless it is such a save |
| `Ledger.CheckAllBalances` | account-service/internal/service/reconciliation_service.go:24-46 | counts exactly the accounts whose queries fail or that do not reconcile, and none if the accounts cannot be loaded |
| `Ledger.KeyedOnce` | account-service/internal/repository/account_repository.go:212-224 | a used idempotency key never moves money again, over any history; nor does a cross-bank reservation settle twice, even by racing calls |
| `Ledger.KeysRun` | account-service/internal/model/ledger_entry.go:20-30 | over every history the ledger only grows and no two entries share a key |
| `Ledger.LedgerIsChained` | account-service/internal/repository/ledger_repository.go:74-133 | over every history each entry starts where the account's previous one ended and the last one ends at the balance, throughout exactly when no row of an account with entries is saved over a changed balance |
| `Decimal.PrintParse` | contract/changelog/metadata.go:28-46 | parsing a printed integer gives it back on int64 and a range error beyond |
| `Decimal.ParseExactly` | contract/changelog/metadata.go:43-46 | parsed are digits with an optional sign within int64, and nothing else |
| `Decimal.DigitByDigit` | contract/authredis/keys.go:25-25 | a number prints digit by digit in base ten, with a minus sign if negative |
| `Decimal.FormatInjective` | contract/authredis/keys.go:25-25 | different integers print differently |
| `Decimal.FormatCharset` | contract/authredis/keys.go:25-25 | a printed integer holds digits and a minus sign only |
| `AuthKeys.RevokedKeyInjective` | contract/authredis/keys.go:24-26 | equal epoch keys mean equal principals, for all type strings, also with colons |
| `AuthKeys.SessionKeysApart` | contract/authredis/keys.go:12-12 | one blacklist key per session, never an epoch key |
| `AuthKeys.KeyTexts` | contract/authredis/keys.go:12-26 | the texts of the keys both services rely on |
| `AuthKeys.EpochRefines` | contract/authredis/keys.go:14-26 | after any history a principal's key holds the last time written for that principal, and exists exactly if there was one |
| `AuthKeys.BlacklistRefines` | contract/authredis/keys.go:8-12 | a session's key exists exactly when the session was logged out |
| `AuthKeys.OneEpochIsEnough` | contract/authredis/keys.go:28-32 | for a non-decreasing log of positive times staleness against the last one is staleness against the log, and is never lost |
| `AuthKeys.OneEpochExactly` | contract/authredis/keys.go:28-32 | the last time stands for the log for all tokens exactly when it is a non-zero maximum or the log is empty |
| `AuthKeys.VerdictExactly` | api-gateway/internal/middleware/tokenverify.go:137-151 | for every history of logouts and revocations the gateway's verdict on every token of a principal is the one the full history calls for exactly when the last epoch written is a non-zero latest one, or there is none |
| `AuthKeys.VerdictFollowsHistory` | api-gateway/internal/middleware/tokenverify.go:137-151 | its corollary for positive epochs written in order |
| `AuthKeys.ReadmitsExactly` | auth-service/internal/cache/redis.go:82-85 | one more epoch readmits a refused token exactly when it is earlier than the one it overwrites, or zero |
| `AuthKeys.LateEpochReadmits` | auth-service/internal/consumer/role_perm_change_consumer.go:37-49 | a late message after which a refused token is accepted |
| `AuthKeys.CheckMeans` | api-gateway/internal/middleware/tokenverify.go:137-151 | the verdict, also on a token without an issue time, by the last epoch written |
| `AuthKeys.RevocationIsPrivate` | contract/authredis/keys.go:20-26 | revoking one principal changes no other principal's verdict |
| `ChangeMetadata.SetChangedBy` | contract/changelog/metadata.go:21-30 | a fresh copy with the printed id under x-changed-by; the given context's metadata is untouched |
| `ChangeMetadata.ExtractChangedBy` | contract/changelog/metadata.go:34-48 | the first value under x-changed-by if it parses; zero without metadata, without a value, and when it does not parse |
| `ChangeMetadata.StampedIdArrives` | contract/changelog/metadata.go:21-48 | every int64 id survives, and every other key is kept |
| `ChangeMetadata.LastStampWins` | contract/changelog/metadata.go:28-28 | after any number of sets only the last id is carried |
| `ChangeMetadata.CallCarriesId` | contract/changelog/metadata.go:13-48 | a whole call delivers the id it was given |
| `Changelog.Diff` | contract/changelog/changelog.go:41-63 | every entry is an update of this entity by this user at this time for this reason, and shows a real change; every real change is shown |
| `Changelog.ReplayGivesNew` | contract/changelog/changelog.go:41-63 | for distinct names, replaying the entries turns the old record into the new one |
| `Changelog.UndoGivesOld` | contract/changelog/changelog.go:41-63 | undoing them in reverse restores the old record |
| `Changelog.EntriesInOrder` | contract/changelog/changelog.go:44-61 | the entries are exactly the real changes, in order, each with its field, both encoded values and the arguments of the call |
| `Changelog.DiffIsMinimal` | contract/changelog/changelog.go:39-49 | no list of entries with the same effect is shorter |
| `Changelog.DiffsCompose` | contract/changelog/changelog.go:41-63 | consecutive diffs, whatever fields each lists, replay as the one diff of the merged changes, which has no more entries than the two |
| `Changelog.RepeatedFieldBreaksReplay` | contract/changelog/changelog.go:44-49 | a repeated name for which replay does not give the new record |
| `Changelog.ReplayExactly` | contract/changelog/changelog.go:44-49 | with repeated names, replay is right exactly when every field that changes is changed by its last listing |
| `Compose.RewriteCommon` | scripts/gen-bank-stacks.py:40-60 | the in-place rewriting of container name, profiles, image and build, with the write into the nested build mapping, equals its specification |
| `Compose.RewritePublished` | scripts/gen-bank-stacks.py:64-72 | likewise for ports and extra hosts, with the append to the nested list and the failing case |
| `Compose.CopyNode` | scripts/gen-bank-stacks.py:34-34 | the copy of a service has the same value and shares no object with it, at any depth the script writes to |
| `Compose.TransformCopy` | scripts/gen-bank-stacks.py:33-78 | rewriting copies in place yields the specified document and leaves the root, including its nested mappings and lists, as it was |
| `Compose.GenerateStacks` | scripts/gen-bank-stacks.py:81-84 | every bank's stack is the transformation of the original root, whatever was generated before |
| `Compose.ServiceIsNormal` | scripts/gen-bank-stacks.py:39-72 | every emitted service is in normal form |
| `Compose.NormalIsFixed` | scripts/gen-bank-stacks.py:39-72 | on a normal form the pass changes the gateway port list only |
| `Compose.BanksDifferInNameAndPort` | scripts/gen-bank-stacks.py:33-78 | two banks' stacks differ in the project name and the gateway port list only |
| `Compose.Absorption` | scripts/gen-bank-stacks.py:33-78 | transforming for one bank and then another equals transforming for the second |
| `Compose.Idempotence` | scripts/gen-bank-stacks.py:33-78 | transforming twice equals transforming once |
| `Compose.TransformDefined` | scripts/gen-bank-stacks.py:33-78 | the script raises exactly on documents it cannot process |
| `Compose.EmittedService` | scripts/gen-bank-stacks.py:39-72 | every key of an emitted service from the service in the root: image name, profiles, port list, and everything else as it was |
| `Compose.EmittedBuild` | scripts/gen-bank-stacks.py:53-60 | its build section: the old mapping with its context moved up from the root, or a new one for the service's Dockerfile |
| `Compose.EmittedHosts` | scripts/gen-bank-stacks.py:67-70 | the gateway's host list: the old one, with the entry for the host if it lacked it |
| `Compose.OtherHosts` | scripts/gen-bank-stacks.py:67-70 | any other value is kept if it contains the entry, and raises otherwise |
| `Compose.EmittedDocument` | scripts/gen-bank-stacks.py:36-78 | every top-level key of an emitted document |
| `Compose.EmittedOrder` | scripts/gen-bank-stacks.py:37-77 | and their order |
| `Compose.PublishesOnlyGateway` | scripts/gen-bank-stacks.py:62-72 | a stack publishes exactly the gateway's host port |
| `Compose.StacksDoNotCollide` | scripts/gen-bank-stacks.py:10-11 | stacks with different gateway ports share no published host port |

## Left out

* EndRun exactly once per successful BeginRun is a caller's obligation (`registry.go:85-87`); the protocol assumes it.
* Times are integers and the clock is monotone; run counters do not overflow; the memory model is sequentially consistent.
* A save to the pause store is one step that succeeds or not; a snapshot that races a `Pause` may show its fields half stored, and nothing is claimed of that.
* `cronExpression`, which nothing sets, and `contract/cronreg/grpc_server.go`, which maps status codes.
* GORM and Postgres: isolation, timestamp precision, optimistic-lock versions and connection errors are one success flag per access. A transaction that locks the account row is one step. Two reads before a transaction are modelled, the status of a cross-bank reservation and the account row of `SetAccountCategory`; that the latter's save overwrites a row whose version has moved on, as a bare `Save` does, is the case of a save that succeeds. Redis expiry is left out, and the epoch store keeps every key.
* The gateway's signature check, its gRPC fallback and unreachable Redis.
* `encoding/json` and `fmt` inside the changelog's encoder: any encoding function is allowed. The create, delete and status-change entries are record constructors.
* YAML parsing and dumping, file writing, and anchors that make two services share one mapping: each service is copied on its own. Only the nested objects the script writes to are objects; the rest of a service is a value.
* Saga: retries, the State bag, lifecycle publishing, fault-injection hooks, and the loop that schedules recovery and dead-letters. A Forward or Backward that fails is taken to have no effect, and one that succeeds to be idempotent. The log records forward completions and whether any compensation row exists.
* Amounts are reals, without the rounding of numeric(18,4). Accounts have one key instead of an id and a number; spending counters and limits (whose refusals are transactions that do not commit), cached accounts, memos and audit stamps are left out.
* `CommitIncoming` and `CreditBank` act on accounts and ledger as a balance update with a positive amount and its key, and as a credit; their own tables, the references that make bank operations idempotent, the voting of the inter-bank commit, and the opening of accounts are left out.
