# OneCloud Panel: a verified model of its stateful cores

OneCloud Panel manages servers: it runs background jobs on nodes, installs applications, limits
logins, registers agents, edits firewall rules and `/etc/fstab`, upgrades its own binary, migrates
its schema, and reports what goes on- and offline. This project models those parts in Dafny and
proves what they keep in every run, not only in a single call.

| files | what they model |
|---|---|
| `TaskTable`, `Runner`, `RunnerExclusion`, `RunnerLifecycle`, `Outcomes`, `DoubleClaim`, `WorkerCount` | background jobs: the table, and three or any number of workers, the boot-time reconciler, requests and crashes as interleaved steps |
| `Installations`, `InstallRuns`, `InstallInvariant`, `InstallSafety`, `HandlerEffects`, `Verdicts`, `UninstallCrash` | the installation records, and install and uninstall jobs running on that machine with crashes and node deletions anywhere |
| `TaskOutput` | the bounded output buffer in front of the bounded output column |
| `FailureLog`, `Eviction`, `Limiter`, `LimiterRuns` | the sliding-window login limiter against an unpruned log, what its eviction loop can do in any map order, and whole runs of it |
| `Login`, `LoginStory`, `LoginReach`, `LoginFlood` | overlapping logins that use it, what leads to each step of a request, the largest number of failures they reach, and when they keep the limiter within its cap |
| `Registration`, `RegistrationStory` | registration tokens, concurrent registrations that claim and release their uses, and what becomes of each |
| `Text`, `Fstab` | line editing of `/etc/fstab` |
| `Regex`, `FirewallRules`, `RuleSyntax`, `Iptables`, `Nftables`, `NftChain`, `Firewalld`, `Patterns`, `Listings` | port rules, the text each back end is given, the parsers of its listing on the text built here and on any text, and adding and removing rules with nft |
| `CanonicalQuery`, `CanonicalText` | percent-encoding and the signed query of the SMS gateway |
| `BinarySwap` | replacing the running binary with roll-back |
| `Migrate` | schema migration across crashes |
| `Probe` | the status probe and its events |
| `EnvMerge`, `EnvMeaning` | merging environment overrides |
| `Chart` | thinning and segmenting of the trend chart |
| `AuditExport` | paged queries of the audit log and the CSV export |

How concurrency is modelled: a state, a set of enabled steps, and runs as lists of steps. Each SQL
statement, each lock operation and each access to shared data is a step of its own; a crash may come
between any two. Where the code is sequential and updates something in place, the model is a class
or a loop with the same branches, proved against functions about which the lemmas speak.

`Wrappers.dfy`, `Text.dfy` and `Regex.dfy` hold the pieces of Go's library the rest relies on; most
need no rows of their own. Verify with `dafny verify dfyconfig.toml`.

## What turned out not to hold as intended

Each of these comes with an input or a run that shows it and with the exact condition, for all inputs.

* `ClaimQueuedTask` selects and then updates without reading the row count, so two workers can take
  the same job and the second outcome overwrites the first, hooks included
  (`DoubleClaim.TwoWorkersCanClaimOneTask`, `DoubleClaim.SuccessCanBeOverwritten`). The documented
  order of statuses holds on every run if and only if there is at most one worker
  (`WorkerCount.StatusOrderIffOneWorker`; the panel starts three), and for any number of them on every
  run whose claims follow their SELECT directly (`RunnerLifecycle.LifecycleWithAtomicClaim`). The
  claim is exclusive if and only if the UPDATE changed a row
  (`RunnerLifecycle.ClaimIsExclusiveIffUpdateHit`). Exclusion per node holds regardless.
* After a crash in the middle of an uninstall, reconciliation reports success as soon as the unit or
  the container is gone, and a run from an empty panel ends with that success and the record still in
  the table (`UninstallCrash.UninstallSuccessCanLeaveRecord`). On every run the record is there at such
  a success exactly if it was when the reconciler looked and the node was not deleted since
  (`InstallSafety.ReconciledUninstallKeepsTable`, `InstallSafety.ReconciledUninstallRecord`).
* The eviction loop of the limiter uses the empty key as "no victim yet". It evicts a least recently
  failing key in every map order if and only if the empty key is not tracked as strictly the oldest
  (`Eviction.EvictionIsLeastIff`; which keys a pass can end with is `Eviction.PassEndsIff`). The cap of
  4096 keys holds on every run if and only if nobody fails with the empty key
  (`LimiterRuns.CapIffNeverEmpty`, `LimiterRuns.FloodSize`). Through Login, which records each failure
  for the name and then for the address, it holds if and only if empty user names are not taken
  (`LoginFlood.LoginCapIff`); Login takes them, and then the table has no bound at all
  (`LoginFlood.LoginsUnbounded`).
* A login whose user name is its own address records two failures. For every limit and every number K
  of overlapping requests the bound maxFail + K - 1 of `Login.FailuresPerWindow` holds if and only if
  such names are ruled out (`LoginReach.BoundHoldsIffDistinct`); otherwise maxFail + 2K - 1 is the
  largest number, and it is reached (`LoginReach.SameTextExceedsLimit`).
* `RequeueTask` appends its note without the cap. The column is within the cap exactly when the last
  write was an append or a note that still fitted (`TaskOutput.StoredOutputFollowsStream`), exceeds it
  at most by the notes since the last append (`TaskOutput.ColumnBound`), and does exceed it by all of
  any note behind appends that fill it (`TaskOutput.NoteExceedsCap`).
* Enabling an fstab entry that is already there leaves other old lines for the same mount point or
  UUID in place, and only then (`Fstab.OldEntriesGoneIff`); `Fstab.OldEntryStays` is such a file, for
  every mount point.
* `migrate` reads the version once, so interrupted runs are exact if and only if the numbers of the
  pending files strictly ascend in file-name order (`Migrate.RestartsAreExactIff`,
  `Migrate.OutOfOrderLoses`).

## Model

| member | source | states |
|---|---|---|
| TaskTable.FirstIsLeast | internal/store/background_tasks.go:100-107 | the queued row selected is the one with the least id, and none is found only if none is queued |
| TaskTable.RunningIdsExact | internal/store/background_tasks.go:161-180 | the running rows listed are all of them, each once, in id order |
| TaskTable.TaskStore.CreateTask | internal/store/background_tasks.go:19-40 | a new row at the next id, every other row untouched |
| TaskTable.TaskStore.SelectQueued | internal/store/background_tasks.go:100-107 | the search returns the least queued id |
| TaskTable.TaskStore.UpdateClaimed | internal/store/background_tasks.go:111-115 | only a queued row is changed; the unread row count says whether it was |
| TaskTable.TaskStore.ClaimQueuedTask | internal/store/background_tasks.go:99-118 | taken as one step: the least queued row, and only it, becomes running |
| TaskTable.TaskStore.FinishTask | internal/store/background_tasks.go:146-152 | the row gets the terminal status whatever it was before |
| TaskTable.TaskStore.RequeueTask | internal/store/background_tasks.go:182-189 | the row is queued again whatever it was before |
| TaskTable.TaskStore.ListRunningTasks | internal/store/background_tasks.go:161-180 | exactly the ids of running rows |
| RunnerExclusion.StepKeepsInv | internal/runner/runner.go:80-261 | every step of workers, reconciler, requests and crashes keeps the ownership of r.mu, of the lock map and of the node locks |
| RunnerExclusion.OneHolderPerNode | internal/runner/runner.go:177-206 | in every reachable state, double claims included, at most one worker is past the lock of a node key (of a node: the next row) |
| RunnerExclusion.HoldersHaveDifferentNodes | internal/runner/runner.go:80-96 | said on the rows: two workers past the lock have tasks of different nodes, whatever their types; tasks without a node count as node 0 |
| RunnerExclusion.BlockedBySameNode | internal/runner/runner.go:80-96 | a worker that waits for a lock waits for a task of its own node, and can go on if nobody has it |
| RunnerExclusion.WaitersHoldNothing | internal/runner/runner.go:80-96 | a worker blocked on a node lock holds neither r.mu nor any node lock |
| RunnerExclusion.NeverStuck | internal/runner/runner.go:146-261 | from every reachable state some schedule without new work ends with workers up and all idle |
| RunnerLifecycle.ClaimIsExclusiveIffUpdateHit | internal/store/background_tasks.go:111-117 | the UPDATE hits exactly when no worker claimed that id since start, and then nobody else holds it |
| RunnerLifecycle.StatusesMoveForward | internal/runner/runner.go:146-261 | statuses go queued, running, success or failure; only a reconciler puts a row back, on runs without a missed UPDATE |
| RunnerLifecycle.OneStepClaimsNeverMiss | internal/store/background_tasks.go:99-117 | when every SELECT is directly followed by its UPDATE, no UPDATE ever misses |
| RunnerLifecycle.ClaimsSoFarNeverMiss | internal/store/background_tasks.go:99-117 | the same for a run stopped in the middle of a claim, whatever step it stops at |
| RunnerLifecycle.LifecycleWithAtomicClaim | internal/runner/runner.go:161-206 | with the claim as one step the status order holds on every run, crashes included |
| Outcomes.OldestFirst | internal/store/background_tasks.go:100-115 | a worker has a task to take exactly if one is queued, and takes the one with the least id; the UPDATE makes it running only if it still is queued |
| Outcomes.FinishTellsOutcome | internal/runner/runner.go:177-206 | over every run: a worker writes success exactly if its last step was the handler's return without an error; without a handler for the type none is called and it writes failure; only that row changes |
| Outcomes.TaskIsKept | internal/runner/runner.go:161-206 | from its claim to its unlock a worker stays with one task |
| Outcomes.RecWriteTellsDecision | internal/runner/runner.go:220-261 | the reconciler's terminal status is its last decision, and failure for a type without one |
| Outcomes.PutBackTellsDecision | internal/runner/runner.go:220-261 | a row is queued again only on that decision, which only a type with a reconciler can make |
| Outcomes.ChangedRowWasWritten | internal/runner/runner.go:161-261 | a row that is another at the end of a run was written by a claim, a finish, the reconciler or a restart: crashes, listings and new rows change none |
| Outcomes.EnqueuedAsAsked | internal/store/background_tasks.go:19-40 | a task keeps the type and the node it was enqueued with, in every run from there |
| RunnerLifecycle.RunningRowsAreOwned | internal/runner/runner.go:209-261 | once workers run, a running row is in a live worker's hands or is a panel restart |
| RunnerLifecycle.FinalizeBootClosesRestarts | internal/self/service.go:128-147 | after FinalizeBoot no restart row of an earlier process is still running |
| Outcomes.FinalizeBootRecordsSuccess | internal/self/service.go:128-147 | it closes every running restart as a success, and touches no other row |
| Outcomes.FailedRestartIsFinal | internal/self/service.go:119-123 | a restart that could not be launched is a failure, through every later boot |
| Outcomes.RestartIsRunning | internal/self/service.go:103-125 | a restart is running from its request on until it fails, is judged by the reconciler or is closed by the next boot |
| Outcomes.RestartStaysOpen | internal/self/service.go:103-125 | a restart request can be launched or fail as long as it did neither and no crash came |
| Outcomes.LaunchedNeverFails | internal/self/service.go:119-125 | once launched, its request never turns it into a failure, on any run |
| RunnerLifecycle.EveryTerminalWriteFiresHooksOnce | internal/runner/runner.go:177-206 | the writer's next act after a terminal status is one hook round for the same id and status, unless a crash comes first |
| RunnerLifecycle.NoHooksWithoutWrite | internal/runner/runner.go:220-261 | every hook round answers a terminal write of the same actor, id and status |
| DoubleClaim.TwoWorkersCanClaimOneTask | internal/store/background_tasks.go:100-117 | a run from boot in which two workers hold the same id |
| DoubleClaim.SuccessCanBeOverwritten | internal/store/background_tasks.go:146-152 | a run in which a success already reported to hooks is turned into a failure |
| WorkerCount.StatusOrderIffOneWorker | internal/store/background_tasks.go:100-117 | for any number of workers: every status change of every run is an allowed one if and only if there is at most one worker |
| Installations.WithoutExact | internal/store/installations.go:107-111 | deleting removes the records of that node and application and no others, and keeps uniqueness |
| Installations.WithoutNodeExact | internal/store/migrations/001_init.sql:95-108 | deleting a node cascades to its records and no others |
| Installations.HasAfterInsert | internal/store/installations.go:4-22 | what an insert makes present, and that it keeps uniqueness if the pair was absent |
| Installations.InstallTable.GetInstallation | internal/store/installations.go:25-39 | a record is found exactly if one exists, and it is one of that node and application |
| Installations.InstallTable.CreateInstallation | internal/store/installations.go:4-22 | inserts exactly if the node exists and the pair is absent |
| Installations.InstallTable.UpsertInstallation | internal/store/installations.go:90-96 | an existing record stays, otherwise one is inserted if the node exists |
| Installations.InstallTable.DeleteInstallation | internal/store/installations.go:107-111 | no record of the pair is left, all others are kept |
| InstallInvariant.AppStepKeepsInv | internal/apps/tasks.go:129-292 | every step of handlers, reconcilers, runner and node changes keeps what each knows about its record |
| InstallSafety.AtMostOneRecord | internal/apps/native.go:30-84 | in every run with crashes and node deletions anywhere, one record at most per node and application |
| InstallSafety.InsertNeverCollides | internal/apps/docker.go:123-207 | between the duplicate guard and the insert nobody adds the record, so the UNIQUE constraint never fires |
| HandlerEffects.NewRecordWasPut | internal/apps/native.go:30-84 | a record that appears during any run was put there by an install of that application, with its method and the health found, or by reconciliation as installed |
| HandlerEffects.LostRecordWasTaken | internal/apps/native.go:90-128 | a record that disappears during any run was taken by an uninstall of its node and application or by the deletion of its node |
| HandlerEffects.NodeTakesItsRecords | internal/store/migrations/001_init.sql:95-108 | a node can be deleted in any state; exactly its records go with it |
| HandlerEffects.DeployIsRecorded | internal/apps/native.go:64-84 | from the health check of an install to its return, whatever comes in between: what is on record is its method and what the check found, exactly if the node is still there; sick or without a node it fails, healthy on a node that stays it succeeds |
| HandlerEffects.UninstallDeletesItsRecord | internal/apps/native.go:90-128 | when an uninstall deletes its record, that is there exactly if its node is |
| HandlerEffects.LastActDecides | internal/apps/native.go:90-128 | a handler that gives up fails; an uninstall that has removed the application from the node succeeds |
| InstallSafety.InstallSuccessHasRecord | internal/apps/tasks.go:129-141 | an install job ends in success with its record present, exactly if its node still exists |
| InstallSafety.ReconciledInstallHasRecord | internal/apps/tasks.go:192-292 | the same for a success written by reconciliation |
| Verdicts.DecisionFollowsLook | internal/apps/tasks.go:192-292 | over every run from what the reconciler saw to its decision: an uninstall is a success exactly if nothing was left and starts again exactly if the node could not be asked or the application is still there; an install starts again exactly if it could not be asked and succeeds only if it runs, and then unless its node was deleted |
| Verdicts.InsertDecides | internal/apps/tasks.go:217-231 | a running application without a record gets one as installed, and the job then succeeds, exactly if its node is still there; otherwise it fails |
| InstallSafety.UninstallSuccessHasNoRecord | internal/apps/native.go:87-129 | an uninstall job that ends in success has removed its record |
| InstallSafety.ReconciledUninstallKeepsTable | internal/apps/tasks.go:237-245 | in every reachable state in which a reconciled uninstall is about to report success, the record is there exactly if it was when the reconciler looked and the node still exists; the report changes no record |
| InstallSafety.ReconciledUninstallRecord | internal/apps/tasks.go:237-245 | from that look to that success, whatever steps come in between: the record is there exactly if it was and none of the steps deleted its node |
| InstallSafety.DeletedForGood | internal/apps/tasks.go:129-292 | over any steps a node stays exactly if it is not deleted: ids are not used again |
| UninstallCrash.UninstallSuccessCanLeaveRecord | internal/apps/tasks.go:237-245 | a run from an empty panel, with one crash, that ends with the uninstall a success and its record in the table |
| TaskOutput.AppendFits | internal/store/background_tasks.go:130-144 | the column never exceeds the cap after an append, and short output is stored unchanged |
| TaskOutput.AppendShows | internal/store/background_tasks.go:130-144 | appending keeps the column either the whole stream or a cut of it with one notice and a long true tail |
| TaskOutput.ColumnCut | internal/store/background_tasks.go:130-144 | the column is left whole up to 2^20 bytes, and otherwise keeps exactly its last 2^20 - 128 behind the notice |
| TaskOutput.ColumnShows | internal/store/background_tasks.go:130-189 | the same after any appends and requeue notes |
| TaskOutput.StoredOutputFollowsStream | internal/store/background_tasks.go:130-189 | equal to the stream while shorter than the cap, always ending in its last min(length, 2^20 - 128) bytes, and when the cap holds |
| TaskOutput.ColumnBound | internal/store/background_tasks.go:130-189 | after any writes the column exceeds the cap by no more than the requeue notes since the last append |
| TaskOutput.NoteExceedsCap | internal/store/background_tasks.go:182-189 | that bound is reached, for every note: writes after which the column is the cap plus the whole note |
| TaskOutput.BufferStep | internal/runner/writer.go:29-42 | the buffer is a function of the bytes since the last flush alone: notices never pile up |
| TaskOutput.BufferHolds | internal/runner/writer.go:29-42 | up to 2^20 bytes nothing is lost before a flush; beyond that the buffer is the notice and exactly the last 2^20 bytes |
| TaskOutput.FlushIsOneAppend | internal/runner/writer.go:67-77 | flushing the cut buffer stores what one append of all pending bytes would |
| TaskOutput.OutputColumn.AppendTaskOutput | internal/store/background_tasks.go:130-144 | the in-place cutting computes the specified column, within the cap |
| TaskOutput.TaskWriter.Write | internal/runner/writer.go:29-42 | bytes become pending, or are dropped after Close; the buffer stays the one for the pending bytes |
| TaskOutput.TaskWriter.Flush | internal/runner/writer.go:67-77 | everything pending reaches the column as one append |
| TaskOutput.TaskWriter.WriteAll | internal/runner/writer.go:44-49 | nothing is left pending and the text is in the flushed stream |
| TaskOutput.TaskWriter.Close | internal/runner/writer.go:80-92 | the last bytes are stored, a second Close does nothing |
| FailureLog.PrunedExact | internal/auth/ratelimit.go:27-41 | pruning keeps exactly the entries after the cut, in order |
| FailureLog.PrunedCounts | internal/auth/ratelimit.go:27-41 | failures in the same second are counted apart |
| FailureLog.PruneRefines | internal/auth/ratelimit.go:27-41 | pruning one key leaves the table a refinement of the unpruned log, and the count is the log's |
| FailureLog.FailRefines | internal/auth/ratelimit.go:81-91 | a failure with evictions is the same failure in the log |
| Eviction.ScanFindsLeast | internal/auth/ratelimit.go:45-58 | one pass over the map, in any order, finds a key with the least last failure unless the empty key is strictly oldest |
| Eviction.EvictionIsLeastIff | internal/auth/ratelimit.go:44-62 | the exact condition under which every map order evicts a least recently failing key |
| Eviction.PassEndsIff | internal/auth/ratelimit.go:45-58 | the keys one pass can end with, over all map orders: any tracked key when the empty key is strictly oldest, otherwise exactly the least ones |
| Eviction.EvictsFacts | internal/auth/ratelimit.go:44-62 | in any map orders the loop takes only tracked keys and none below the cap; without an empty key those gone failed no later than any kept, and it ends below the cap |
| Eviction.FailKeepsCap | internal/auth/ratelimit.go:81-91 | a failure without an empty key evicts only keys that failed longest ago and leaves at most 4096 keys |
| Eviction.NotLaterMeans | internal/auth/ratelimit.go:49-55 | the order used is that of the last failures: one key is not later than another exactly if each of its failures is no later than some failure of the other |
| Eviction.VictimFailedFirst | internal/auth/ratelimit.go:45-58 | on the entries: every failure of the key one pass evicts is no later than some failure of every other key |
| Eviction.GoneFailedFirst | internal/auth/ratelimit.go:44-62 | the same for every key the loop evicts and every key it keeps |
| Eviction.FailEvictsFirst | internal/auth/ratelimit.go:81-91 | the same for a failure recorded in any state of the limiter |
| Limiter.LoginLimiter.Prune | internal/auth/ratelimit.go:27-41 | the in-place filter and its count |
| Limiter.LoginLimiter.FindVictim | internal/auth/ratelimit.go:45-58 | the range loop computes the scan for the order the map was visited in |
| Limiter.LoginLimiter.EvictIfNeeded | internal/auth/ratelimit.go:44-62 | the loop removes just the keys gone, each the end of a pass over what was left, and stops below the cap or when a pass can end with none |
| Limiter.LoginLimiter.Allow | internal/auth/ratelimit.go:65-70 | allowed exactly if the log holds fewer than maxFail failures inside the window |
| Limiter.LoginLimiter.FailCount | internal/auth/ratelimit.go:73-78 | the count is the number of failures in the unpruned log with t > now - window |
| Limiter.LoginLimiter.Fail | internal/auth/ratelimit.go:81-91 | log and table take the same failure; a key with nothing left in the window makes room first, another evicts nothing, and evicted keys start anew |
| Limiter.LoginLimiter.Reset | internal/auth/ratelimit.go:94-98 | the key is forgotten in table and log, nothing else changes |
| LimiterRuns.CapOnEveryRun | internal/auth/ratelimit.go:44-98 | on every run of calls none of which fails with the empty key, at most 4096 keys are tracked |
| LimiterRuns.CapIffNeverEmpty | internal/auth/ratelimit.go:44-98 | the cap holds on every run the callers can make exactly if none of them fails with the empty key |
| LimiterRuns.FloodSize | internal/auth/ratelimit.go:45-61 | one failure of the empty key and n of other keys a second later can leave n + 1 keys, for every n |
| Login.FailuresPerWindow | internal/auth/handler.go:64-112 | with K overlapping requests, any window holds at most maxFail + K - 1 failures of a key, and 2K instead of K if user name and address may be the same text |
| Login.SequentialLogins | internal/auth/handler.go:64-112 | without overlap, at most maxFail |
| LoginStory.EveryStory | internal/auth/handler.go:64-112 | in every run every request in flight has a story that leads to where it stands: limits first, then the counts, a captcha if one is due, the password, and what follows a wrong or right answer |
| LoginStory.ResetNeedsPassword | internal/auth/handler.go:97-112 | nothing is reset, so no session issued, without the right password |
| LoginStory.CaptchaExactlyAfterTwo | internal/auth/handler.go:70-72 | the password is looked at after a right captcha exactly if the name or the address had two failures, otherwise without one |
| LoginStory.RefusedIff | internal/auth/handler.go:64-68 | a request is turned away exactly if its name or its address has reached the limit |
| LoginStory.FailNeedsWrongAnswer | internal/auth/handler.go:70-105 | a request records a failure only after a wrong captcha or a wrong password |
| LoginStory.WrongAnswerRecordsName | internal/auth/handler.go:70-105 | after a wrong answer its next step records one failure of its name, whatever others do in between |
| LoginStory.ThenRecordsAddress | internal/auth/handler.go:70-105 | and the step after that one of its address; then the request is over |
| LoginStory.EvictionsExact | internal/auth/ratelimit.go:81-91 | keys are evicted only by a failure of a key that had none in the window any more, and never that key |
| LoginStory.OnlyFailuresRecord | internal/auth/handler.go:64-112 | no other step of a request records anything |
| LoginStory.NoSessionClearsNothing | internal/auth/handler.go:107-110 | without a session nothing is cleared and the request is over |
| LoginStory.SuccessClearsBoth | internal/auth/handler.go:107-112 | with one, its next two steps clear name and address from table and log |
| LoginReach.BoundIsReached | internal/auth/handler.go:64-112 | for every limit, window and overlap K a run with maxFail + K - 1 failures of one key in a window, and maxFail + 2K - 1 where the two texts may agree |
| LoginReach.BoundHoldsIffDistinct | internal/auth/handler.go:64-112 | for every limit, window and overlap, maxFail + K - 1 bounds every run exactly if no user name equals the address as text |
| LoginReach.SameTextExceedsLimit | internal/auth/handler.go:64-112 | otherwise some run of any limit and overlap has maxFail + 2K - 1 failures in a window |
| LoginFlood.CapOnEveryPath | internal/auth/handler.go:64-112 | on every run of overlapping logins in which no name and no address is empty, at most 4096 keys are tracked, whatever the eviction loop picks |
| LoginFlood.LoginsUnbounded | internal/auth/handler.go:58-100 | one failed login without a name, and later ones of new names from new addresses, leave more keys than any bound |
| LoginFlood.LoginCapIff | internal/auth/handler.go:52-112 | for every limit, window and overlap, Login keeps the limiter within its cap on every run exactly if it takes no empty user name |
| Registration.TokenTable.CreateToken | internal/node/service.go:59-83 | a fresh token with no use and at least one to give |
| Registration.TokenTable.ClaimRegistrationToken | internal/store/registration_tokens.go:84-108 | claims exactly if a use is left and it has not expired; each error exactly in its case, with nothing changed |
| Registration.TokenTable.ReleaseRegistrationToken | internal/store/registration_tokens.go:111-116 | gives one use back, never below zero, and does nothing for a deleted token |
| Registration.TokenTable.DeleteRegistrationToken | internal/store/registration_tokens.go:76-79 | that token and no other is gone |
| Registration.UsesAreConserved | internal/node/service.go:97-158 | in every interleaving used_count is nodes created plus registrations in flight plus those lost to crashes, and at most max_uses |
| Registration.UsesWithoutCrash | internal/node/service.go:97-158 | without a crash nothing is lost |
| Registration.NeverMoreNodesThanUses | internal/node/service.go:97-158 | no token admits more nodes than its uses, not even one deleted meanwhile |
| Registration.ReleaseIsExact | internal/store/registration_tokens.go:111-116 | the clamp at zero never decides |
| RegistrationStory.ClaimTakesOneUse | internal/store/registration_tokens.go:84-108 | a claim takes one use of a token that is there, not past its expiry and not used up, and otherwise nothing changes |
| RegistrationStory.RegistrationEnds | internal/node/service.go:97-158 | from its claim to its end, whatever else happens short of a crash: it makes one node exactly if the token was still there when it looked and both its steps after that went well, and keeps its use then; otherwise it makes none and its last step gives the use back, unless the token is gone |
| RegistrationStory.TokenKeepsItsTerms | internal/store/registration_tokens.go:6-30 | a token stays until it is deleted, through crashes, with its expiry and number of uses |
| RegistrationStory.DeletedAdmitsNoMore | internal/store/registration_tokens.go:76-79 | after a token is deleted at most the registrations already in flight make a node, on any run |
| Fstab.UpdateFstab | internal/storage/storage.go:543-573 | the two loops compute the specified file and change flag |
| Fstab.KeptExact | internal/storage/storage.go:547-560 | a line is kept exactly if it is not an active line for the mount point or UUID |
| Fstab.HitExact | internal/storage/storage.go:549-558 | a line matches, however its words are laid out, exactly if it has two, does not begin with #, and its second is the mount point or its first the UUID |
| Text.LayOut | internal/storage/storage.go:551-552 | every line is some words laid out with white space |
| Fstab.EntryFields | internal/storage/storage.go:544 | the six fields of the entry written |
| Fstab.KeptConcat | internal/storage/storage.go:547-560 | kept lines keep their order and number: what is kept of two parts is kept of the whole |
| Fstab.EnableKeepsOtherLines | internal/storage/storage.go:543-573 | the file becomes every non-matching line in order, comments included, then the entry |
| Fstab.EnableIsIdempotent | internal/storage/storage.go:543-573 | enabling twice equals enabling once, the second time without a change |
| Fstab.DisableRemovesExactlyMatches | internal/storage/storage.go:561-563 | no active line matches afterwards, all others stay, and a change is reported exactly if one matched |
| Fstab.DisableUndoesEnable | internal/storage/storage.go:543-581 | if nothing matched before, disabling after enabling restores the file up to trailing blank lines |
| Fstab.OldEntriesGoneIff | internal/storage/storage.go:564-566 | when enabling leaves only the new entry, and when old ones remain |
| Fstab.OldEntryStays | internal/storage/storage.go:564-566 | for every device and mount point a file with the entry and an older line for that mount point, which enabling returns unchanged |
| FirewallRules.ExpandIsReady | internal/firewall/parse.go:73-81 | a rule for both protocols becomes one valid rule for each, otherwise itself |
| RuleSyntax.PortsExact | internal/firewall/parse.go:17-36 | a port is accepted exactly if it is a numeral of a number from 1 to 65535, leading zeros allowed up to five digits, or two of them in order with a colon between |
| RuleSyntax.SourcesExact | internal/firewall/parse.go:46-54 | a source is accepted exactly if it is empty, an address text, or one with a prefix length of up to three digits |
| RuleSyntax.RulesExact | internal/firewall/parse.go:56-70 | what a rule must be to be accepted |
| RuleSyntax.FamilyFollowsColon | internal/firewall/firewall.go:271-277 | the nft words are those of IPv6 exactly if the source has a colon |
| RuleSyntax.RichFamilyFollowsColon | internal/firewall/firewall.go:239-246 | the same for the rich rules of firewalld |
| FirewallRules.HyphenColon | internal/firewall/parse.go:83-87 | on valid ports the two conversions undo each other |
| FirewallRules.CommandWords | internal/firewall/firewall.go:265-319 | the nft and iptables arguments of a valid rule are words without white space |
| Iptables.ParseIptables | internal/firewall/parse.go:199-244 | the line loop computes the specified listing |
| Iptables.LineParses | internal/firewall/firewall.go:300-319 | the `-A INPUT` arguments built for a rule are read back as that rule |
| Iptables.IptablesRoundTrip | internal/firewall/parse.go:199-244 | any list of rules written as such lines is read back as exactly those rules, in order, and the chain counts as active if there are any |
| Iptables.IptablesRoundTripOne | internal/firewall/firewall.go:78-106 | a rule for both protocols is read back as its two halves |
| Listings.IptablesLineExact | internal/firewall/parse.go:192-243 | for every text: the line shows a rule exactly if it is in the INPUT chain with a port, tcp or udp and a known target; which rule that is, ACCEPT allowing and DROP and REJECT denying |
| Listings.IptablesNext | internal/firewall/parse.go:199-243 | line by line: a policy sets whether the chain is active, a rule shown is added, any other line changes nothing |
| Listings.IptablesEnds | internal/firewall/parse.go:199-244 | nothing is read from no line, and at the end any rule makes the chain active |
| Patterns.FlagExact | internal/firewall/parse.go:192-197 | the value of a flag is all up to the next space after the first place where the flag stands alone before white space |
| Nftables.ParseNftables | internal/firewall/parse.go:253-283 | the line loop with its chain state computes the specified listing |
| Nftables.BodyMatches | internal/firewall/firewall.go:265-283 | the rule body built for a rule matches the rule pattern at its start, whatever follows it, with all four parts |
| Nftables.NftRoundTrip | internal/firewall/parse.go:253-283 | bodies listed in the INPUT chain, with any indentation and any other chains around, are read back as those rules in order |
| Patterns.NftExact | internal/firewall/parse.go:248-251 | for every text: what is read is what the pattern matches at the first place where it matches, and nothing exactly if it matches nowhere |
| Listings.NftLineExact | internal/firewall/parse.go:270-280 | which rule any line shows |
| Listings.NftNext | internal/firewall/parse.go:256-281 | line by line: what opens and closes the chain and what is added inside it |
| Nftables.MatchNftHandle | internal/firewall/parse.go:287-310 | the loop returns the handle of the first line that shows the rule and has one |
| Nftables.HandleIsFirstEqual | internal/firewall/parse.go:287-310 | on a listing with handles that is the handle of the first rule equal to the one asked for |
| Nftables.NoHandleIff | internal/firewall/parse.go:287-310 | nothing is found exactly if no equal rule is listed |
| Patterns.HandleExact | internal/firewall/parse.go:248-251 | the handle read is the digits after the first handle mark that has any |
| Listings.HandleOfFirstLine | internal/firewall/parse.go:287-310 | on any text: the handle is that of the first line that shows the rule and has one, and empty exactly if there is none |
| NftChain.DeletesTheFirst | internal/firewall/firewall.go:286-298 | deleting by the handle found removes the first line that shows the rule and nothing else |
| NftChain.Chain.NftRemove | internal/firewall/firewall.go:286-298 | an equal rule must be listed; then the first is removed, otherwise, or when nft fails, the chain stays |
| NftChain.Chain.MutateRule | internal/firewall/firewall.go:78-106 | an invalid rule changes nothing; success changes every half in turn; a failure leaves the chain as it was after the halves before the one that failed, so unchanged for a rule with one protocol |
| NftChain.RemoveUndoesAdd | internal/firewall/firewall.go:69-106 | adding a rule and removing it leaves the same rules, as many times each |
| NftChain.RemoveRestoresChainIff | internal/firewall/firewall.go:265-298 | the very same chain, order included, comes back exactly if the rule was not there before |
| Firewalld.ParseFirewalld | internal/firewall/parse.go:154-188 | the two loops compute the specified rules |
| Firewalld.PlainParses | internal/firewall/firewall.go:221-227 | a port spec built for an allowed port is read back as that rule |
| Firewalld.PlainIff | internal/firewall/firewall.go:221-227 | a port spec is used for exactly the rules it can express, those allowed from anywhere |
| Firewalld.RichParses | internal/firewall/firewall.go:228-250 | a rich rule built for any rule is read back as that rule |
| Firewalld.FirewalldRoundTrip | internal/firewall/parse.go:154-188 | any port specs and rich rules together are read back as exactly those rules, in order |
| Patterns.QuotedExact | internal/firewall/parse.go:147-152 | a quoted value is that of the first place where the lead is closed by a quote |
| Patterns.ActionExact | internal/firewall/parse.go:147-152 | the action is the first accept, reject or drop with only white space up to the end |
| Listings.PlainExact | internal/firewall/parse.go:157-164 | any port spec shows an allowing rule exactly if text stands before its first slash |
| Listings.RichExact | internal/firewall/parse.go:166-185 | any rich rule shows a rule exactly if it has a port; reject and drop deny, all else allows |
| Listings.FirewalldNext | internal/firewall/parse.go:154-188 | specs and rich rules are read one by one, in order, and what shows no rule is passed over |
| CanonicalQuery.PercentEncode | internal/notify/sms.go:213-226 | the loop computes the encoding of RFC 3986, section 2.1 |
| CanonicalQuery.EncodeIsEscaped | internal/notify/sms.go:213-226 | only unreserved bytes (RFC 3986, section 2.3) and `%HH` triples in upper case come out |
| CanonicalQuery.DecodeEncode | internal/notify/sms.go:213-226 | decoding gives the bytes back |
| CanonicalText.ByteAsText | internal/notify/sms.go:213-226 | letters, digits, -, _, . and ~ stand for themselves; any other byte becomes a percent sign and two upper-case hexadecimal digits |
| CanonicalText.EncodeJoins | internal/notify/sms.go:213-226 | and a text is encoded byte by byte |
| CanonicalQuery.SortedIsUnique | internal/notify/sms.go:199-204 | a set of keys has one enumeration in byte order |
| CanonicalQuery.CollectKeys | internal/notify/sms.go:199-203 | every key once, in any map order |
| CanonicalQuery.Canonical | internal/notify/sms.go:199-210 | the result is a query for the map, whatever order the map was visited in |
| CanonicalQuery.QueryIsUnique | internal/notify/sms.go:199-210 | a map has only one query |
| CanonicalText.LessIsBefore | internal/notify/sms.go:204 | keys are in byte order: at the first difference the smaller byte, or the end, comes first |
| CanonicalText.QueryHasEntries | internal/notify/sms.go:205-209 | a query is every key once, in that order, each as key=value |
| CanonicalText.EntriesAreQuery | internal/notify/sms.go:205-209 | and the only query, as any such entries are one |
| CanonicalText.JoinsWithAmpersand | internal/notify/sms.go:209 | one ampersand between any two entries and nothing else |
| CanonicalQuery.QueryDecodes | internal/notify/sms.go:199-210 | the query decodes to the map it was built from |
| CanonicalQuery.SigningIsInjective | internal/notify/sms.go:160-161 | the doubly encoded strings to sign of two maps agree exactly if the maps do |
| CanonicalQuery.FormDecodes | internal/notify/sms.go:160-166 | the posted form decodes to the parameters and the signature |
| CanonicalText.WireTexts | internal/notify/sms.go:160-166 | the exact texts that are signed and posted |
| BinarySwap.Disk.SwapExecutable | internal/agent/upgrade.go:191-210 | after every operation the old binary is at the target or its backup, or the new one at the target; success means the new one, an error the old one unless the roll-back itself failed |
| BinarySwap.Disk.SwapAside | internal/agent/upgrade.go:195-209 | the second way: it fails only if the old binary could not be moved aside or putting it back was tried |
| BinarySwap.Disk.ReplaceBinary | internal/update/update.go:412-428 | the same for the panel, with an executable mode on success |
| BinarySwap.Disk.FetchImage | internal/agent/upgrade.go:143-163 | until the swap nothing that existed changes, and only a checked and tried image is swapped in |
| BinarySwap.Disk.ApplyUpgrade | internal/agent/upgrade.go:143-165 | over the whole upgrade: the target is touched only after download and verification, and every state is safe |
| BinarySwap.Disk.Apply | internal/update/update.go:361-408 | the same for the panel's update |
| Migrate.Store.Migrate | internal/store/store.go:54-101 | one call applies the pending files in order up to where it is cut, and stores the last number; it succeeds exactly if it was not cut |
| Migrate.PendingExact | internal/store/store.go:72-79 | pending are the numbered files above the version read at the start |
| Migrate.AscendingIsEnough | internal/store/store.go:54-101 | with ascending numbers any interruptions and restarts apply each pending file once, in order, ending at the highest number |
| Migrate.OutOfOrderLoses | internal/store/store.go:72-79 | two neighbours out of order and one interruption between them lose the second file |
| Migrate.RestartsAreExactIff | internal/store/store.go:54-101 | the exact condition for all interruptions |
| Migrate.AscendingIffInOrder | internal/store/store.go:69-79 | that condition on the files themselves: any two with numbers above the stored version come in rising order |
| Migrate.RestartsApplyEachOnce | internal/store/store.go:54-101 | then any interruptions end with exactly the files numbered above the version at the start, in strictly rising order, and a stored version that no number exceeds |
| Probe.Snapshot.Observe | internal/api/notify_probe.go:44-69 | one round turns the snapshot into the list and reports exactly the changes of known items |
| Probe.Snapshot.Forget | internal/api/notify_probe.go:64-69 | what is no longer listed is dropped, the rest is kept |
| Probe.Prober.ProbeOnce | internal/api/notify_probe.go:36-98 | a round whose node list fails changes and reports nothing |
| Probe.NotifyProbeLoop | internal/api/notify_probe.go:18-33 | the loop reports in each round the changes against the last list that could be read; the first-round flag makes no difference |
| Probe.FirstListIsSilent | internal/api/notify_probe.go:18-52 | the first list that can be read reports nothing, even after failed rounds |
| Probe.SnapshotIsListed | internal/api/notify_probe.go:64-98 | after a successful round the snapshot has exactly the listed items and their statuses |
| Probe.EventsReplay | internal/api/notify_probe.go:45-98 | while an item stays listed its events alternate, and replaying them from its first status gives the snapshot |
| Probe.EventMeans | internal/api/notify_probe.go:44-98 | a round reports an item exactly if it lists it with this status and the last list read before it had it with the other one |
| EnvMerge.SplitJoins | internal/apps/override.go:107-125 | a valid entry is its key, an equals sign and its value |
| EnvMerge.MergeEnv | internal/apps/override.go:128-152 | the loops with their index map give the list with the specified keys, order and entries |
| EnvMerge.ListIsUnique | internal/apps/override.go:128-152 | that specification determines the list |
| EnvMerge.ListMeans | internal/apps/override.go:128-152 | read as an environment the result has distinct keys and stands for the base, first entry winning, updated by the valid overrides, last winning |
| EnvMerge.MergeIsIdempotent | internal/apps/override.go:128-152 | applying the same overrides again changes nothing |
| EnvMerge.BaseOrderKept | internal/apps/override.go:128-152 | base keys come first in the base's order; without a valid override only duplicates go |
| EnvMeaning.EntriesExact | internal/apps/override.go:107-125 | an override counts exactly if it is a name, an equals sign and a value without control characters |
| EnvMeaning.KeyExact | internal/apps/override.go:131-135 | the key of any entry is the text before its first equals sign, or all of it |
| EnvMeaning.MergedEntries | internal/apps/override.go:128-152 | the merged list has exactly each key's last counting override, or else its first entry of the base, and no key twice |
| EnvMeaning.MergedOrder | internal/apps/override.go:128-152 | its keys come in the order in which the base and then the counting overrides first have them |
| Chart.Downsample | web/src/chartScale.js:17-26 | strictly increasing from 0 to n - 1, gaps at most ceil(n / maxPoints), at most maxPoints + 1 indices, and which they are |
| Chart.CeilIsLeast | web/src/chartScale.js:20 | the stride is the least that covers all samples with the points allowed |
| Chart.BuildSegments | web/src/chartScale.js:39-56 | exactly the maximal runs of at least two finite samples, in order, each value clamped |
| Chart.SegmentsAreUnique | web/src/chartScale.js:39-56 | the samples, the indices and the maximum determine the segments |
| Chart.NeighboursAreJoined | web/src/chartScale.js:39-56 | two finite samples next to each other are drawn in one segment |
| Chart.SegmentsShow | web/src/chartScale.js:39-56 | each segment is a stretch of at least two finite samples that goes on at neither end, each point at its sample held between 0 and the maximum; a later one begins past a gap |
| Chart.HoverIsNearest | web/src/chartScale.js:59-64 | no point is nearer to the mouse than the one hovered |
| Chart.HoveredIsNearestDrawn | web/src/components/MetricTrendChart.vue:133-136 | on the screen: no point is drawn nearer to the mouse than the one hovered |
| AuditExport.MatchingIsExact | internal/store/audit.go:36-66 | a row is in the result exactly if it is in the log and meets every condition set |
| AuditExport.MatchingIsNewestFirst | internal/store/audit.go:81-83 | results come in strictly falling id order |
| AuditExport.Conditions | internal/store/audit.go:36-66 | the WHERE clause that is put together holds of a row exactly if the filter does |
| AuditExport.QueryAuditLogs | internal/store/audit.go:35-101 | the clamped page of the matching rows and their total |
| AuditExport.PageExact | internal/store/audit.go:68-83 | row by row: which matching row stands where on the page asked for |
| AuditExport.WritePage | internal/audit/handler.go:92-104 | one page continues the file without a gap, and truncation is noticed exactly if more rows exist than the limit |
| AuditExport.ExportPages | internal/audit/handler.go:82-111 | the paging loop ends, and what it has written then |
| AuditExport.ExportCSV | internal/audit/handler.go:67-119 | the file is the first min(total, 100000) matching rows, newest first, with the note exactly if there are more; when a query fails, the rows of the pages before it |
| AuditExport.CompleteExact | internal/audit/handler.go:82-111 | the finished file line by line: the header, the newest 100000 rows, and a note only if there are more |
| AuditExport.CutExact | internal/audit/handler.go:82-91 | and a file cut short by a failed query: the header, the rows before it, and the failure |
| AuditExport.PageSizeMustPass | internal/store/audit.go:75-77 | a page size above 500 would be replaced by 20 and end the export early |

## Left out

- Runner: Go's preference for a waiting writer in RWMutex, so readers may overtake one here; goroutine scheduling is free, and `NeverStuck` assumes that handlers and reconcilers return.
- Runner: an orderly shutdown; a cancelled context is covered by the crash step.
- Store calls are taken to succeed unless a property says otherwise; SQLite's own atomicity of a statement and of a transaction is assumed.
- Overlapping flushes of one task writer: `flush` drops its mutex before the append, and the model lets no second flush start in between.
- TaskTable: payload, error text and time stamps of rows.
- InstallRuns: what is done on the node (steps, images, units, health checks) is a step that succeeds or fails.
- The Docker jobs of `internal/apps/tasks.go:49-110`, which install Docker Engine on a node and rewrite its daemon configuration.
- Limiter.LoginLimiter.EvictIfNeeded: promises room below the cap only when no tracked key is empty, because with the empty key strictly oldest a pass may find no victim (`LimiterRuns.FloodSize`).
- Login: JSON decoding, captcha and password checking and session storage are free choices.
- Registration: hashes of distinct tokens are taken to be distinct, and node creation succeeds or fails.
- Fstab: `validateMountpoint`, reading and writing the file.
- NftChain.Chain.MutateRule: the nft back end only, not firewalld, iptables or ufw; the handles of new rules are the kernel's choice and are passed in.
- TaskTable.TaskStore.ClaimQueuedTask: describes the claim taken as one step; its two statements as separate steps are in `Runner`, with `DoubleClaim` and `WorkerCount` about what that changes.
- FirewallRules: detecting the back end and running commands; the `ufw` parser and command.
- What nft, iptables and firewalld print: the round trips are about the text the panel builds, and `Listings` says what is read from any text.
- The `Detail` text of a firewall status.
- CanonicalQuery: the library sort is modelled as an insertion sort, HMAC and base64 are not part of this model.
- BinarySwap: a file system operation that fails half-way; a failed one has no effect, except a download, which may leave any content.
- Migrate: reading the number out of a file name, and a new binary with other files between two runs.
- Probe: event texts, display names, and the fact that applications of a node that went offline are not listed.
- EnvMerge: UTF-8 validity of a value (strings here are sequences of characters), and the other fields of `applyDockerOverride`.
- Chart: coordinate text, `niceMax` and `axisLabel`; samples are real numbers, so rounding is not modelled.
- AuditExport: CSV quoting and time formatting, and rows that arrive while an export runs.
- HTTP routing, views, SSH, Docker Engine, systemd, mail, SMS and GitHub calls, hashing, encryption, TLS and access control.
