# Verified model of the video generation service

The service accepts batches of video prompts, spreads them over pooled accounts with daily quotas, and drives
pooled browsers through pooled proxies. This project models the parts whose correctness is a matter of whole
runs rather than of single calls, and proves it with Dafny 4.11.

Run `dafny verify dfyconfig.toml` in this directory.

## What is modelled

| modules | source | content |
|---|---|---|
| `BatchModel`, `BatchRuns`, `BatchCalls`, `BatchService` | app/batch_jobs.py | the seven mutators of a batch job, revisions and delta answers, cancellation, cleanup |
| `OwnerScheduler` | app/batch_jobs.py | the fair rotation over owners, on the shared list and on the local cursor |
| `Ledger`, `LedgerRuns`, `LedgerCalls`, `AccountService` | app/accounts.py | both quota ledgers of an account, the remote credit, reconciliation |
| `Selection` | app/accounts.py, app/postgres.py | the account selection in memory and the SQL statement that replaces it |
| `Merge` | app/accounts.py | merging duplicate accounts |
| `BrowserPool`, `BrowserCalls`, `ApiProxyPool`, `ApiProxyRuns`, `ApiProxyCalls`, `ExitPool`, `ExitCalls`, `SlotTable` | app/browser_runtime.py, app/api_proxy_pool.py, app/proxy_manager.py | three bounded pools of slots |
| `NodeVerification`, `NodeCooldowns` | app/proxy_manager.py | strikes, windows and cooldowns of proxy nodes |
| `ReferenceCache` | app/automation.py | the cache of uploaded reference attachments |
| `PercentEncoding`, `ProxyUrl`, `ProxyHosts` | app/config.py, app/account_proxies.py | the proxy URL printer and parser |
| `AccountProxies`, `AccountProxyCalls` | app/account_proxies.py | the store of account proxies and its rotation |
| `Util` | | options, results, a stable sort, string trimming |

Each stateful component appears twice: as a transition function on values (`Step`, `Next`), about which the run
theorems are proved, and as a class with the fields and loops of the source, whose methods are proved to make
exactly that transition. A pool theorem speaks of a `World`: the pool together with the callers that hold its
leases, so that counters can be compared with what they count. Every section that the source runs under a lock
or in a transaction is one step. The modules that end in `Calls` say what each transition means in terms of the
fields of rows, charges, slots and entries, without the functions that compute it.

## What the proofs found

These are facts about the code, each proved below.

- Terminal rows are not final. `finish_row_creation` ignores the status of the row and `mark_row_assets_ready`
  does not look at it either; `BatchRuns.TerminalRowSurvives` says exactly which calls wake a terminal row.
- An empty task id given to `finish_row_creation` breaks the row invariant, and nothing else does
  (`BatchRuns.FinishNeedsTaskId`).
- The local owner cursor is fair while the owners in front of a waiting one stay the same and the number of
  eligible owners never falls (`OwnerScheduler.CursorServesSteadyOwner`). Without either half an owner can wait
  for ever (`OwnerScheduler.CursorCanStarve`, `OwnerScheduler.CursorCanStarveTheFirst`; from the cursor's first
  position in `OwnerScheduler.CursorStarvesFromTheStart`), unlike on the shared list (`OwnerScheduler.BypassIsBounded`).
- The SQL statement trims only spaces from a ticket cookie, Python trims all whitespace. A ticket of other
  whitespace passes the statement and fails the re-check (`Selection.FiltersAgreeExactly`,
  `Selection.WhitespaceTicketFailsRecheck`). An empty status or platform is a default for Python only
  (`Selection.FiltersAgreeExactly`), and only Python lowers the case of the account source and defaults an empty one
  (`Selection.RanksAgreeExactly`).
- The re-check reads the clock again, and a new day can refuse the row; `Selection.RecheckAcceptsExactly` says when.
- One pass of `reconcile_account_quotas` can leave the second ledger unrepaired (`LedgerRuns.OnePassRepairsExactly`).
- `reconcile_success_quota_charges` does not look at the studio ledger. `LedgerRuns.StudioSuccessIsPaidTwiceExactly`
  says when both ledgers then count one generation. The plain life of a studio claim ends so
  (`LedgerRuns.SettledStudioClaimIsPaidTwice`), from the first claim of a new account on
  (`LedgerRuns.FirstStudioClaimIsPaidTwice`).
- Merging duplicates combines only the first ledger: a studio charge is left exactly when the keeper of some group
  had it (`Merge.StudioChargeSurvivesExactly`), and a settled one can be lost (`Merge.StudioChargeCanBeLost`).
- The merge keeps the usage of a member with an opened ledger, and of an unopened one only up to what bases and
  charges add up to (`Merge.SurvivorCoversExactly`, with `Merge.UnopenedKeeperForgetsUsage` as a case that loses).
  Without any charge it keeps everybody's usage exactly when a member of the highest task count and current-task
  flag had used the most (`Merge.WithoutChargesUsageIsKeptExactly`).
- A cancelled refresh of the API proxy pool keeps its reservation for ever. A refresh can still begin, sooner or
  later, exactly when fewer refreshes were cancelled than may run at once
  (`ApiProxyRuns.LeakedPoolRefreshesExactly`); every pool can be brought to a stop so (`ApiProxyRuns.LeaksCanFillThePool`).
- A finished refresh that brings a listed endpoint leases it even while it cools down
  (`ApiProxyRuns.RefreshLeasesCoolingExactly`). That is possible exactly in pools that refresh more than one endpoint
  at a time (`ApiProxyRuns.CoolingLeaseIsPossibleExactly`), as the worker does by default.
- A shared exit is not compared with the excluded nodes of the caller: `ExitPool.LeasesExcludedExactly` says when an
  excluded node is leased, and `ExitPool.ExcludedNodeIsLeased` shows it in a run, with one context per exit.
- The launch path of authenticated SOCKS proxies does not look for duplicates. Exits stay isolated exactly while each
  such launch brings a new one (`ExitPool.ExitsStayIsolatedExactly`); `ExitPool.UncheckedLaunchBreaksIsolation` is a
  run in which they do not.
- An accepted proxy entry can print a URL that is too long to be accepted (`ProxyUrl.AcceptedUrlCanBeTooLong`).
- The attachment cache drops an entry within its time to live exactly when as many other keys as fit were stored since,
  in runs without invalidations and simultaneous stores (`ReferenceCache.CrowdedOutExactly`).

## Model

| member | source | states |
|---|---|---|
| BatchRuns.RunKeepsInv | app/batch_jobs.py:332-508 | After any interleaving of the seven mutators the job has rows with unique indices, a row with a task id is running or terminal, running and completed rows have a task id, completed rows have a video URL, no row is newer than the job, and the job status is completed or canceled exactly when every row is terminal |
| BatchRuns.StepKeepsInv | app/batch_jobs.py:373-508 | Each single mutator, followed by its revision stamp, keeps that invariant |
| BatchRuns.FinishNeedsTaskId | app/batch_jobs.py:449-457 | Recording a created task keeps the invariant if and only if the task id is not empty |
| BatchRuns.CanceledJobStaysClosed | app/batch_jobs.py:332-343 | Once canceled, in every later state no row is queued, awaiting assets or being created, and a claim finds nothing |
| BatchRuns.FinalReportClosesCanceledJob | app/batch_jobs.py:477-508 | In a canceled job, one reconciliation whose report settles every running task makes all rows and the job terminal |
| BatchRuns.TerminalRowSurvives | app/batch_jobs.py:416-457 | A terminal row keeps its content under a call if and only if the call is neither a recorded creation for its index nor an accepted asset upload for its index |
| BatchRuns.RunRevisions | app/batch_jobs.py:243-284 | Over any run revisions only grow, no row exceeds the job, and a row is newer than a past revision exactly when some step rewrote it since |
| BatchRuns.DeltaIsExact | app/batch_jobs.py:287-329 | A client that overlays the delta for its revision on the rows it holds has exactly the rows of the full view, after any run; a client that is ahead of the stored job is given everything |
| BatchRuns.DeltaIsMinimal | app/batch_jobs.py:287-329 | The delta carries a row if and only if the run rewrote it |
| BatchRuns.StepPaysForClaims | app/batch_jobs.py:346-474 | Every step pays for the claim it makes out of the potential of the row, which only a stale recovery or an upload refills |
| BatchRuns.RunPaysForClaims | app/batch_jobs.py:346-474 | Over any run, the claims of a row plus its remaining potential are at most its first potential plus recoveries and uploads |
| BatchRuns.CreationWorkIsBounded | app/batch_jobs.py:346-474 | A fresh row is claimed for creation at most 5 times, plus once per stale recovery and once per upload |
| BatchService.StoredJob.Create | app/batch_jobs.py:54-125 | The new job satisfies the invariant and holds, in order, one queued row per request with trimmed text and the asset flag the files call for |
| BatchService.StoredJob.CreateRetry | app/batch_jobs.py:128-186 | The rows are the retries that have a task id, numbered by position and running; the batch is refused exactly when no retry has one |
| BatchService.RetriedRowsAreSound | app/batch_jobs.py:128-164 | The rows of a retry batch satisfy the row invariant and have distinct indices although skipped retries leave gaps |
| BatchService.StoredJob.StampRevisions | app/batch_jobs.py:243-284 | The loop that compares rows by index gives exactly the changed rows, and the job, the next revision |
| BatchService.StoredJob.FinishIfTerminal | app/batch_jobs.py:500-508 | The status becomes completed or canceled exactly when all rows are terminal |
| BatchService.StoredJob.CancelJob | app/batch_jobs.py:332-343 | Cancels every open row without a task, keeps running ones, and refuses a foreign owner |
| BatchService.StoredJob.RecoverStaleRows | app/batch_jobs.py:346-370 | Sends back exactly the creating rows without a task whose claim is missing or not after the cutoff, and counts them |
| BatchService.StoredJob.ClaimNextRow | app/batch_jobs.py:373-413 | Takes the first due row that has its assets, else asks for the assets of the first due row that lacks them; the returned row is the one stored |
| BatchService.StoredJob.MarkRowAssetsReady | app/batch_jobs.py:416-446 | Reports the first failing check in source order and otherwise queues the row again with its files |
| BatchService.StoredJob.FinishRowCreation | app/batch_jobs.py:449-457 | Stores the task on the row with that index whatever its status, or reports that there is none |
| BatchService.StoredJob.FailOrRequeueRow | app/batch_jobs.py:460-474 | Counts the attempt and either schedules a retry or fails the row |
| BatchService.StoredJob.ReconcileJob | app/batch_jobs.py:477-497 | Copies the outcome of every reported task to its row and closes the job when all rows are terminal |
| BatchService.JobStore.CleanupHistory | app/batch_jobs.py:215-240 | Removes at most the limit of expired jobs, the oldest first, and never a job with a live row |
| BatchCalls.NewJobIsClaimed | app/batch_jobs.py:74-92 | The first claim on a new job starts the first request that needs no images or brought files, and asks for the files of the first request exactly when there is none |
| BatchCalls.ClaimPicks | app/batch_jobs.py:373-413 | Told from the fields of the rows: a claim takes the first queued row without a future retry time that needs no images or has them, asks for assets only when there is none and then for the first row, and finds nothing exactly when no row may run |
| BatchCalls.NothingClaimedMeansWaiting | app/batch_jobs.py:391-395 | An active job in which a claim finds nothing has only queued rows whose retry time is still to come |
| BatchCalls.ClaimMeans | app/batch_jobs.py:396-413 | The claimed row becomes creating with its claim time, or awaits its assets; the job is running exactly if some row may run; all other rows stay |
| BatchCalls.BackoffMeans | app/batch_jobs.py:466-470 | The pause before a retry is 2, 4, 8 and 16 seconds after one to four attempts and never more than 30 |
| BatchCalls.FailureMeans | app/batch_jobs.py:460-474 | A failure counts the attempt; a retry is queued for after the pause while fewer than five attempts were made and the job is not canceled, else the row fails with its error; terminal rows and all others stay |
| BatchCalls.RequeuedRowWaits | app/batch_jobs.py:391-395 | No claim takes a requeued row before its pause is over, and from then on the row may be claimed |
| BatchCalls.UploadMeans | app/batch_jobs.py:416-446 | The four refusals in source order, and else a row queued again with the given files and the names trimmed and cut |
| BatchCalls.CreationMeans | app/batch_jobs.py:449-457 | The row with the index runs under the task id and no other row changes |
| BatchCalls.CancelMeans | app/batch_jobs.py:332-343 | A foreign owner is refused; else every row without a task that has not ended is canceled with the reason, all others stay, and the job is canceling or canceled |
| BatchCalls.RecoveryMeans | app/batch_jobs.py:346-370 | Exactly the creating rows without a task whose claim is missing or not after the cutoff are queued again |
| BatchCalls.ReportMeans | app/batch_jobs.py:477-497 | A running row takes over the outcome that the report has for its task: completed with its video, failed or canceled with its error; all other rows stay |
| BatchCalls.StatusAfterReport | app/batch_jobs.py:500-508 | After a report the job is ended exactly when every row is, as canceled if it had been canceled and else as completed |
| BatchCalls.StatusAfterFailure | app/batch_jobs.py:500-508 | The same after a recorded failure |
| BatchCalls.ViewMeans | app/batch_jobs.py:287-329 | A row is shown as it is stored, and its assets are asked for exactly while it awaits them without having any |
| OwnerScheduler.RegisterKeepsInv | app/batch_jobs.py:520-524 | Registration keeps the known set equal to the list and the list free of duplicates, and only appends |
| OwnerScheduler.ServeRotatesEligible | app/batch_jobs.py:526-543 | One call serves the head of the eligible owners and rotates exactly them by one |
| OwnerScheduler.RoundServesEachOnce | app/batch_jobs.py:526-543 | For a fixed eligible set of n owners, n consecutive calls serve each exactly once |
| OwnerScheduler.PassingBringsCloser | app/batch_jobs.py:536-542 | A call that passes over an eligible owner moves it strictly towards the head |
| OwnerScheduler.BypassIsBounded | app/batch_jobs.py:526-543 | An owner at position k is passed over at most k times, whoever joins or becomes eligible meanwhile |
| OwnerScheduler.FallbackIsUnreachable | app/batch_jobs.py:536-543 | The search over the list always finds an eligible owner, so the last return is never reached |
| OwnerScheduler.CursorRoundServesEachOnce | app/batch_jobs.py:526-535 | The local cursor serves a fixed eligible list once per round, wherever it starts |
| OwnerScheduler.CursorServesSteadyOwner | app/batch_jobs.py:526-535 | While the owners in front of an owner stay the same and the number of eligible owners never falls, the local cursor serves it within as many calls as there ever are eligible owners |
| OwnerScheduler.CursorCanStarve | app/batch_jobs.py:526-535 | Without a steady front, an owner that is by turns first and second of two is eligible in every call and never served, however long the run |
| OwnerScheduler.CursorCanStarveTheFirst | app/batch_jobs.py:526-535 | With a steady front but owners leaving, even the first owner can be eligible in every call and never served |
| OwnerScheduler.CursorStarvesFromTheStart | app/batch_jobs.py:526-535 | From the first position of the cursor, owner 2 is eligible in every call with 1 or 3 and never served |
| OwnerScheduler.CursorStarvesTheFirstFromTheStart | app/batch_jobs.py:526-535 | From the first position of the cursor, owner 1, always first, is served once and then never again |
| OwnerScheduler.CursorAt | app/batch_jobs.py:526-535 | A call serves an owner exactly when the cursor, modulo the number of eligible owners, is the number of smaller ones |
| OwnerScheduler.BatchCoordinator.RegisterOwner | app/batch_jobs.py:520-524 | Appends an unknown owner and keeps the scheduler invariant |
| OwnerScheduler.BatchCoordinator.TurnUntilEligible | app/batch_jobs.py:538-542 | The turning loop returns the first eligible owner of the list and leaves the list rotated just past it |
| OwnerScheduler.BatchCoordinator.NextOwner | app/batch_jobs.py:526-543 | Registers the eligible owners in sorted order and serves as the rotation specifies |
| OwnerScheduler.BatchCoordinator.NextLocalOwner | app/batch_jobs.py:526-535 | Serves from the sorted eligible owners at the cursor and advances it |
| LedgerRuns.RunKeepsConsistent | app/accounts.py:1368-1858 | Any run of claims, refunds, settlements, time-outs, exhaustions, success records, resets and repairs keeps both cached values equal to base plus charged and settled units |
| LedgerRuns.StepKeepsConsistent | app/accounts.py:1368-1858 | The same for each single call |
| LedgerRuns.DriftIsHarmlessExactly | app/accounts.py:1477-1858 | A call that bypasses the ledger keeps consistency if and only if the ledger is unopened or the value it writes is already reached |
| LedgerRuns.ClaimAddsItsCost | app/accounts.py:1368-1436 | An admitted claim adds exactly its cost to one ledger, leaves the other alone, and stays within the limit or remote credit that admitted it |
| LedgerRuns.ChargeLifeCycle | app/accounts.py:1505-1799 | A refund gives back exactly the claim and only once, a settlement is final, and a time-out after a refund takes the claim again |
| LedgerRuns.RunOnlyExtends | app/accounts.py:1368-1799 | Between resets no charge is dropped or repriced, and a settled one stays settled |
| LedgerRuns.SyncShowsCreditLessPending | app/accounts.py:2007-2056 | Right after a synchronisation the remaining credit is what is available less the pending units |
| LedgerRuns.RunKeepsCreditLaw | app/accounts.py:89-98 | Until the next synchronisation or limit edit of the day, the remaining credit is the smaller of what was available and what the limit leaves |
| LedgerRuns.OnePassRepairsExactly | app/accounts.py:61-69 | One reconciliation pass repairs the studio ledger if and only if the first ledger needed no repair or the studio ledger was in order |
| LedgerRuns.TwoPassesReachFixpoint | app/accounts.py:1557-1575 | From any state of two opened ledgers two passes make both consistent and a third changes nothing |
| LedgerRuns.SuccessReconciliation | app/accounts.py:1578-1666 | Success records add one unit per missing charge to an opened ledger, raise an unopened one to the number missing, and add nothing the second time |
| LedgerRuns.SuccessChargesExactly | app/accounts.py:1607-1632 | A success record adds one unit to an opened ledger exactly when its id is not listed there in any status, and raises an unopened one to one unit at least |
| LedgerRuns.StudioSuccessIsPaidTwiceExactly | app/accounts.py:1578-1666 | A success record makes both ledgers count one id exactly when the first, opened or not, does not list it and the studio one has it charged or settled |
| LedgerRuns.SettledStudioClaimIsPaidTwice | app/accounts.py:1578-1666 | Claim, settlement and success record of a studio generation leave it counted on both ledgers, whether or not the first was opened |
| LedgerRuns.FirstStudioClaimIsPaidTwice | app/accounts.py:660-686 | It happens with the first studio generation of an unused account, whose first ledger is unopened: one unit is charged on it too |
| LedgerRuns.NewAccountIsUnused | app/accounts.py:669-686 | A new account of the studio platform is such an account |
| AccountService.SumActive | app/accounts.py:42-49 | The loop sums the units of charged and settled charges |
| AccountService.KeepNamed | app/accounts.py:35-39 | The loop keeps exactly the charges with an id, in order |
| AccountService.Locate | app/accounts.py:1522-1530 | The scan finds the first charge with the id, open or in any status as asked |
| AccountService.CollectMissing | app/accounts.py:1578-1615 | The scan collects each record that has no charge once, in order |
| AccountService.StoredAccount.constructor | app/accounts.py:660-686 | A new account is consistent, with no usage and its limit clamped at zero; of the ledgers only a qianwen account's studio ledger is open |
| AccountService.StoredAccount.ClaimForWorker | app/accounts.py:1368-1436 | Charges the chosen ledger exactly when the claim is admitted, else changes nothing |
| AccountService.StoredAccount.RefundQuota | app/accounts.py:1505-1554 | Refunds the open charge on whichever ledger holds it and reports whether there was one |
| AccountService.StoredAccount.SettleQuota | app/accounts.py:1669-1702 | Settles the open charge and reports whether there was one |
| AccountService.StoredAccount.ExhaustTimedOut | app/accounts.py:1754-1799 | Settles the charge of a timed-out generation even after a refund, recording it when it was never seen |
| AccountService.StoredAccount.ExhaustAccount | app/accounts.py:1802-1858 | Gives back the open charge, fills the ledger up to its limit and marks the day |
| AccountService.StoredAccount.ResetAccountQuota | app/accounts.py:1942-1975 | Empties both ledgers together with their charges |
| AccountService.StoredAccount.ReconcileQuotas | app/accounts.py:61-69 | Recomputes the first ledger and reaches the second only when the first was in order |
| AccountService.StoredAccount.ResetDailyIfNeeded | app/accounts.py:191-247 | Resets on a new day and otherwise reconciles, and reports whether anything changed |
| AccountService.StoredAccount.ReconcileSuccessCharges | app/accounts.py:1578-1666 | Adds the missing charges and reports how many |
| AccountService.StoredAccount.MarkAccountUsed | app/accounts.py:1477-1502 | Writes the cached value past the ledger |
| AccountService.StoredAccount.SyncStudio | app/accounts.py:2007-2056 | Takes over the remote credit with the usage at that moment, less the open charge of the running task |
| AccountService.ReconcileAll | app/accounts.py:1557-1575 | One pass over a document of distinct accounts repairs each as specified and counts none exactly when none changed |
| LedgerCalls.RefundGivesBack | app/accounts.py:1505-1554 | On the ledger that the prefix of the id names, a refund of an open charge marks that charge refunded, lowers the usage by exactly its units, answers true and changes nothing else |
| LedgerCalls.RefundOnlyOnce | app/accounts.py:1505-1554 | A second refund of the id answers false and changes nothing |
| LedgerCalls.RefundNeedsOpenCharge | app/accounts.py:1522-1530 | Without an open charge an opened ledger gives nothing back and the answer is false |
| LedgerCalls.UnopenedStudioRefundsNothing | app/accounts.py:1511-1513 | A studio refund leaves an unopened studio ledger alone |
| LedgerCalls.UnopenedRefundCountsOnce | app/accounts.py:1531-1540 | On an unopened first ledger a refund lowers the usage by one, never below zero, and once per id |
| LedgerCalls.ClaimMeans | app/accounts.py:1391-1431 | An admitted claim appends one open charge with its units and raises the usage by them; a refused one changes nothing |
| LedgerCalls.ClaimIsAdmittedExactly | app/accounts.py:1311-1333 | A claim is admitted exactly when the ledger is not exhausted today and the cost fits into what is left of the credit of the day, or else into the limit, if there is one |
| LedgerCalls.ClaimThenRefund | app/accounts.py:1368-1554 | A claim followed by its refund leaves the usage of both ledgers as it was |
| LedgerCalls.SettleIsFinal | app/accounts.py:1669-1702 | Settling an open charge changes its status alone, and a later refund of it answers false and changes nothing |
| LedgerCalls.SettleNeedsOpenCharge | app/accounts.py:1669-1702 | Without an open charge a settlement changes nothing |
| LedgerCalls.ExhaustionFillsQuota | app/accounts.py:1802-1858 | Exhaustion refunds the open charge, fills the first ledger to the limit, which is one at least, and marks the day |
| LedgerCalls.ExhaustionFillsStudio | app/accounts.py:1705-1751 | The same on the studio ledger, with its own limit and mark |
| LedgerCalls.ExhaustionWithoutCharge | app/accounts.py:1802-1858 | Without an id only the cached value is raised to the limit and the day is marked |
| LedgerCalls.TimeOutRecords | app/accounts.py:1754-1799 | A time-out of an unknown id appends a settled charge that counts as one unit |
| LedgerCalls.TimeOutSettlesCharge | app/accounts.py:1754-1799 | A time-out of a known id settles its first charge, and a refunded one counts again with its units |
| LedgerCalls.TimeOutSettles | app/accounts.py:1754-1799 | At account level a time-out acts on the ledger of the id alone and marks that ledger exhausted for the day |
| LedgerCalls.SyncMeans | app/accounts.py:2018-2045 | A synchronisation keeps the ledger; the limit becomes what is used less the first charge with the id, if open, plus the credit, and the exhausted mark goes exactly when the credit covers that charge |
| LedgerCalls.SyncWithoutCharge | app/accounts.py:2018-2045 | Without such a charge nothing is pending and the mark goes |
| LedgerCalls.ResetEmpties | app/accounts.py:1942-1975 | A reset leaves both ledgers opened at zero without charges, and no exhausted mark |
| LedgerCalls.DailyResetOncePerDay | app/accounts.py:191-247 | The first pass of a day empties the ledgers, a second one on the same day leaves sound ledgers alone |
| Selection.TicketsAgreeExactly | app/postgres.py:670-675 | The SQL ticket condition equals the Python one if and only if the only tickets are not made of whitespace that SQL does not trim |
| Selection.QuotaConditionsAgree | app/postgres.py:657-665 | On consistent ledgers the SQL quota condition admits exactly the accounts the in-memory one admits, on both ledgers |
| Selection.FiltersAgreeExactly | app/postgres.py:647-682 | The WHERE clause finds further accounts exactly for a whitespace ticket, and misses accounts the selection keeps exactly for an empty status or platform |
| Selection.RanksAgreeExactly | app/postgres.py:687-698 | Both rank the source alike exactly unless it is the preferred one only after defaulting and lowering its case |
| Selection.KeysAgreeExactly | app/postgres.py:687-700 | On admitted rows, although only Python clamps the remaining quota at zero, the ORDER BY key is the Python key exactly unless the source is spelled oddly |
| Selection.ChosenIsLeast | app/accounts.py:1282-1365 | The in-memory choice is a kept account with a least key, and there is none only if nothing is kept |
| Selection.SqlChosenIsLeast | app/postgres.py:701-709 | The row of the statement is an unlocked kept row that is least in the ORDER BY |
| Selection.SqlRefinesSelection | app/postgres.py:621-717 | The statement finds a row exactly when the selection finds an account among the unlocked ones, and with the same key |
| Selection.ChosenComesFirst | app/accounts.py:1337-1352 | Told from the fields of the accounts: no kept account comes before the chosen one by preferred source, then most quota left, then least used, then longest unused |
| Selection.ChosenIsFirstOfTies | app/accounts.py:1351-1352 | Every kept account listed before the chosen one comes strictly after it in that order |
| Selection.SqlChosenComesFirst | app/postgres.py:683-709 | The row of the statement comes first in that order among the unlocked kept accounts that both read alike, and has the smallest id of those that tie |
| Selection.KeptIsFit | app/accounts.py:1302-1333 | An account is kept exactly when it is enabled, normal, idle, of the platform, not excluded or cooling down, not exhausted today, and the cost fits into its credit or limit |
| Selection.ChosenIsFit | app/accounts.py:1282-1365 | The choice is such an account, and there is none only when no account is such |
| Selection.RecheckAcceptsExactly | app/accounts.py:1385-1388 | With the clock read again, the re-check accepts a kept account exactly when it is not marked exhausted for the new day and its studio quota suffices on that day |
| Selection.RecheckAcceptsRow | app/accounts.py:1385-1388 | On the day of the statement and at any later time of it, the re-check accepts the row, and the claim stays within the limit |
| Selection.WhitespaceTicketFailsRecheck | app/postgres.py:670-675 | A row admitted only for a whitespace ticket is picked by the statement and refused by the re-check |
| Merge.SurvivorHoldsEveryCharge | app/accounts.py:811-858 | The survivor holds the charge ids of its group, no others, each once, and its usage is the greatest base plus their active units |
| Merge.SurvivorCoversExactly | app/accounts.py:811-858 | In a group with agreeing charges and some charge, a sound member's usage is kept exactly when its ledger was opened or it had used no more than greatest base and merged charges make |
| Merge.WithoutChargesUsageIsKeptExactly | app/accounts.py:826-853 | A group without charges keeps the survivor's usage, which is nobody's loss exactly when a member of the highest task count and current-task flag had used the most |
| Merge.UnopenedKeeperForgetsUsage | app/accounts.py:849-853 | A case of the loss: an unopened keeper forgets any amount of usage when another member brings a charge |
| Merge.StudioChargeSurvivesExactly | app/accounts.py:811-868 | Over the whole document, a studio charge is on some account afterwards exactly when the keeper of some group had it |
| Merge.StudioChargeCanBeLost | app/accounts.py:811-868 | Any studio charge, a settled one included, is lost by the merge of some document |
| Merge.FingerprintsAreDistinct | app/accounts.py:811-868 | After the merge no two accounts have the same fingerprint |
| Merge.EveryGroupLeavesItsSurvivor | app/accounts.py:811-868 | The accounts that remain are exactly the survivors of the fingerprint groups |
| Merge.KeeperIsFirstBest | app/accounts.py:826-836 | The keeper is a member that nobody outscores, and the first such one in the document |
| Merge.KeeperComesFirst | app/accounts.py:826-836 | No member is ahead of the keeper by tasks, then a current task, number of charges, usage, last update and creation, and every member listed before it is behind it |
| Merge.SurvivorMeans | app/accounts.py:836-855 | The survivor keeps the identity, current task and studio ledger of the keeper and has the latest update time of its group |
| Merge.PickKeeper | app/accounts.py:826-836 | The scan picks the first member with the highest score |
| Merge.CollectCharges | app/accounts.py:838-847 | The loops collect the charges of the group, the keeper first, each id once |
| Merge.GroupByFingerprint | app/accounts.py:816-819 | The groups are exactly the non-empty sets of accounts with equal fingerprint, in order |
| Merge.RemovedLeaveNothing | app/accounts.py:840-857 | The removed ids are exactly those of the accounts that leave nothing behind |
| Merge.MergeDuplicates | app/accounts.py:811-868 | The loops return exactly the merged document and the removed ids, group by group |
| BrowserPool.NextKeepsInv | app/browser_runtime.py:148-275 | Each locked section keeps the joint invariant of slots, table and lease holders |
| BrowserPool.ReachablePoolIsSafe | app/browser_runtime.py:148-275 | In every reachable state active plus closing contexts of a slot fit its limit, processes fit theirs, retiring holds exactly when retirement is requested or contexts are closing, at most one slot per key launches, no finished slot stays listed, and the table accounts for every held context |
| BrowserPool.OneTurnDropsAtMostOne | app/browser_runtime.py:166-184 | A turn that removes a dead slot never evicts a second one |
| BrowserCalls.AcquireSelects | app/browser_runtime.py:171-175 | An acquire reuses a slot exactly when a listed one has the requested key, a connected browser, room, and is neither launching nor retiring, and takes the first such slot |
| BrowserCalls.AcquireWaits | app/browser_runtime.py:176-189 | It waits exactly when no listed slot serves the request and either one of the key is being launched or the table is full of slots in use; otherwise it launches |
| BrowserCalls.AcquireChangesSlots | app/browser_runtime.py:171-189 | A reused slot has one caller more; a launched one is new, has the requested key and one caller; every other slot stays |
| BrowserCalls.AcquireChangesTable | app/browser_runtime.py:166-189 | The first disconnected unused slot leaves the table; only if there is none, a launch on a full table drops the first unused one; nothing else leaves |
| BrowserCalls.ReleaseMeans | app/browser_runtime.py:243-257 | A release lowers the counter and asks for retirement exactly after a failure, a lost connection, 80 contexts or 30 minutes; the slot leaves exactly when it is to retire and nobody uses or closes it |
| BrowserCalls.FinishMeans | app/browser_runtime.py:221-232 | The end of a release lowers the closing count, retires after a failed close, and drops a retired unused slot |
| BrowserCalls.HoldersGetWhatTheyAsked | app/browser_runtime.py:146-217 | In every run, every slot that was handed out has, then and ever after, the key its caller asked for |
| BrowserCalls.RetiredIsNeverSelected | app/browser_runtime.py:171-175 | In every run, a slot that was told to retire is never handed out again |
| BrowserPool.ReusableBrowserPool.AcquireTurn | app/browser_runtime.py:159-190 | One turn first removes a dead slot; then it reuses a slot of the key, else waits for one being launched, else makes room by dropping an idle slot and reserves a launch, else waits |
| BrowserPool.ReusableBrowserPool.ReleaseSlot | app/browser_runtime.py:243-257 | Moves a context from active to closing, decides on retirement, and drops a retired unused slot |
| BrowserPool.ReusableBrowserPool.Settle | app/browser_runtime.py:253-257 | Recomputes the retiring flag and reports exactly whether the slot left the table |
| BrowserPool.ReusableBrowserPool.FinishClosing | app/browser_runtime.py:221-232 | A closed context frees its place; a failed close retires the slot |
| BrowserPool.ReusableBrowserPool.LaunchDone | app/browser_runtime.py:211-214 | The reserved slot becomes usable |
| BrowserPool.ReusableBrowserPool.constructor | app/browser_runtime.py:108-116 | A new pool is empty, with both limits at least one |
| ApiProxyPool.NextKeepsInv | app/api_proxy_pool.py:91-260 | Each locked section, a cancelled refresh included, keeps the joint invariant |
| ApiProxyPool.ReachablePoolIsSafe | app/api_proxy_pool.py:91-260 | In every reachable state slots plus reservations fit the pool, reservations fit the refresh limit and are the running plus the leaked refreshes, each counter equals the unreleased leases of its slot, and valid endpoints are distinct |
| ApiProxyRuns.GrantsRespectExclusions | app/api_proxy_pool.py:91-204 | Whatever the provider answers, no lease is granted on an excluded, invalid or full endpoint, and none by an acquire on a cooling one |
| ApiProxyPool.FetchedIsNotAvoided | app/api_proxy_pool.py:214-253 | A fetch yields a healthy endpoint among the answers that is neither excluded nor was listed when it began |
| ApiProxyCalls.AcquireLeases | app/api_proxy_pool.py:110-124 | An endpoint is leased exactly when one is valid, rested, not excluded and has room, and then a least loaded of them |
| ApiProxyCalls.AcquireRefreshes | app/api_proxy_pool.py:125-156 | With none ready, a refresh begins exactly when no backoff is on and both limits leave room; else the caller sleeps for a backoff or a cooldown, and waits otherwise |
| ApiProxyCalls.AcquirePurges | app/api_proxy_pool.py:109 | Every acquire drops exactly the invalid endpoints that nobody uses |
| ApiProxyCalls.FinishMeans | app/api_proxy_pool.py:166-191 | A fetched endpoint that is unknown is added with one lease, a known one is leased if it has room and is not excluded; a lease ends the backoff |
| ApiProxyCalls.FailMeans | app/api_proxy_pool.py:192-204 | The n-th failure in a row keeps the pool from refreshing for 2, 4 and then 8 seconds, and never shortens a pause |
| ApiProxyCalls.BackoffIsObserved | app/api_proxy_pool.py:135-143 | In no run does a refresh begin during the pause after a failure, unless another refresh has succeeded meanwhile |
| ApiProxyCalls.CooldownIsObserved | app/api_proxy_pool.py:110-118 | In no run does an acquire lease an endpoint before the seconds of its cooldown have passed |
| ApiProxyCalls.InvalidateMeans | app/api_proxy_pool.py:40-42 | An invalidated endpoint is marked and nothing else changes; the next acquire leases it to nobody, whoever asks |
| ApiProxyCalls.ReleaseMeans | app/api_proxy_pool.py:255-260 | A release lowers the counter and drops exactly an invalid endpoint that nobody uses any more |
| ApiProxyRuns.RefreshLeasesCoolingExactly | app/api_proxy_pool.py:164-188 | A finished refresh leases a cooling endpoint exactly when the first valid slot of the endpoint it brings is cooling and has room |
| ApiProxyRuns.CoolingEndpointIsLeased | app/api_proxy_pool.py:164-188 | In every pool that allows two refreshes such a lease happens in some run, also with one context per endpoint |
| ApiProxyRuns.SoleRefreshNeverLeasesCooling | app/api_proxy_pool.py:91-204 | With one refresh at a time no run leases a cooling endpoint |
| ApiProxyRuns.CoolingLeaseIsPossibleExactly | app/api_proxy_pool.py:57-82 | Some run of a pool leases a cooling endpoint exactly when the pool refreshes more than one endpoint at a time |
| ApiProxyRuns.InvalidIsNeverGranted | app/api_proxy_pool.py:40-41 | An invalid slot stays invalid in every run, and no later acquire or refresh grants it |
| ApiProxyRuns.LeakedPoolRefreshesExactly | app/api_proxy_pool.py:138-148 | From a state some continuation starts a refresh exactly when fewer refreshes were cancelled than may run at once; the continuation need not turn the clock back |
| ApiProxyRuns.LeaksCanFillThePool | app/api_proxy_pool.py:138-204 | In every pool a run of cancelled acquires reaches the state in which no refresh starts any more |
| ApiProxyPool.FetchAvailable | app/api_proxy_pool.py:214-253 | The retry loop returns the first acceptable answer within its three limits, and gives up only when one of them is used up |
| ApiProxyPool.ReusableApiProxyPool.Choose | app/api_proxy_pool.py:119-122 | Returns one of the least loaded candidates, the smallest node id unless drawn at random |
| ApiProxyPool.ReusableApiProxyPool.LeastActive | app/api_proxy_pool.py:109-121 | The scan keeps exactly the candidates with the fewest leases |
| ApiProxyPool.ReusableApiProxyPool.NoCandidateExactly | app/api_proxy_pool.py:109-119 | The scan is empty exactly when no listed slot may be leased |
| ApiProxyPool.ReusableApiProxyPool.AcquireTurn | app/api_proxy_pool.py:101-148 | One turn purges, leases a least loaded slot, reserves a refresh or waits |
| ApiProxyPool.ReusableApiProxyPool.EndRefresh | app/api_proxy_pool.py:164-191 | Gives the reservation back and shares an existing endpoint, adds a new one or turns the answer away |
| ApiProxyPool.ReusableApiProxyPool.EndFailedRefresh | app/api_proxy_pool.py:192-204 | Gives the reservation back and delays the next refresh |
| ApiProxyPool.ReusableApiProxyPool.ReleaseSlot | app/api_proxy_pool.py:255-260 | Lowers the counter and drops an invalid unused slot |
| ApiProxyPool.ApiProxyLease.Close | app/api_proxy_pool.py:49-53 | The first release of a lease reaches the pool, every later one changes nothing |
| ApiProxyPool.ApiProxyLease.MarkInvalid | app/api_proxy_pool.py:40-41 | Marks the slot of the lease invalid and changes nothing else |
| ApiProxyPool.ApiProxyLease.CoolDown | app/api_proxy_pool.py:43-47 | Keeps the later of the old and the new deadline, which acquires respect |
| ExitPool.NextKeeps | app/proxy_manager.py:888-1278 | Each step of acquires and releases keeps counters and limits, and each but the unchecked launch keeps isolation |
| ExitPool.ReachablePoolIsBounded | app/proxy_manager.py:888-1278 | In every run, SOCKS launches and cancellations included, the slot and sharing limits hold |
| ExitPool.ExitsStayIsolatedExactly | app/proxy_manager.py:888-1278 | In every run no two leasable slots ever have the same exit, although exits are learned after the launch, exactly when each SOCKS launch brings an exit that no leasable slot has; without SOCKS launches always |
| ExitPool.UncheckedLaunchIsolatesExactly | app/proxy_manager.py:1150-1278 | A launch without a duplicate check keeps isolation if and only if the slot is retiring or no leasable slot has its exit |
| ExitPool.UncheckedLaunchBreaksIsolation | app/proxy_manager.py:1150-1278 | In every pool with room for two exits some run of a subscription launch and a SOCKS launch leaves one exit leasable twice |
| ExitPool.LeasesExcludedExactly | app/proxy_manager.py:949-1126 | An exit leased as it stands is never of an excluded node; a launch leases one exactly when the first leasable slot with the exit it found is of an excluded node and has room, and every allowed node is busy, excluded or was tried |
| ExitPool.ExcludedNodeIsLeased | app/proxy_manager.py:1014-1045 | In every pool with room for two exits, also with one context each, a run of two tasks leases an idle exit of an excluded node |
| ExitCalls.SweepMeans | app/proxy_manager.py:934-947 | After a sweep exactly the listed slots are retiring that were before, or that have another source, a cooling or deselected node or a dead process; of these exactly the unused ones that are not being launched have left, and nothing else has changed |
| ExitCalls.LeasableAfterSweep | app/proxy_manager.py:934-959 | Right after a sweep exactly the listed slots in order, with room, neither launching nor retiring and of no excluded node may be leased |
| ExitCalls.NativeMeans | app/proxy_manager.py:1009-1069 | A native exit that a listed slot already has is treated as a duplicate; any other gets a slot with one lease |
| ExitCalls.ResolveMeans | app/proxy_manager.py:1070-1126 | A launched process whose exit another listed slot has loses its slot and is treated as a duplicate; any other keeps it |
| ExitCalls.ShareMeans | app/proxy_manager.py:1023-1045 | For a duplicate another node is tried while one is allowed, not busy, excluded or tried; else a full exit is waited for and any other gets one caller more |
| ExitCalls.ReleaseMeans | app/proxy_manager.py:1129-1147 | A release lowers the counter, retires the slot of a cooling node, and drops it exactly when it is retiring and unused |
| ExitPool.TaskExitPool.SweepSlots | app/proxy_manager.py:934-947 | The loop marks every unfit slot and drops exactly the retiring unused ones |
| ExitPool.TaskExitPool.LeaseReady | app/proxy_manager.py:949-1002 | Leases a least used leasable slot, and nothing only if there is none |
| ExitPool.TaskExitPool.ShareExit | app/proxy_manager.py:1023-1045 | Tries other nodes first, then waits for a full exit, else shares it |
| ExitPool.TaskExitPool.LaunchNative | app/proxy_manager.py:1009-1069 | Adds a slot for a new exit, else treats the duplicate |
| ExitPool.TaskExitPool.LaunchProcess | app/proxy_manager.py:1070-1126 | Keeps the launched slot only if its exit is new; a failed launch leaves no slot |
| ExitPool.TaskExitPool.ReleaseSlot | app/proxy_manager.py:1129-1147 | Lowers the counter, retires a cooling node and drops a retired unused slot |
| NodeVerification.VerificationMatchesHistory | app/proxy_manager.py:252-283 | After any run over all nodes a failure is answered with a cooldown exactly when the history has an unexpired strike or a second account in the window, and with the long one exactly for the strike |
| NodeVerification.RunAgrees | app/proxy_manager.py:252-298 | The pruned records of a node agree with its full history, now and at every later time |
| NodeVerification.RecentMeans | app/proxy_manager.py:258-263 | The recent accounts are those with a failure inside the window that no strike or success has followed |
| NodeVerification.LastStrikeMeans | app/proxy_manager.py:265-276 | The standing strike is the latest answered failure that no success has followed |
| NodeVerification.RecordsAnswerAsHistory | app/proxy_manager.py:252-283 | Whenever records and history agree, both give the same cooldown |
| NodeVerification.CooldownIsServed | app/proxy_manager.py:192-224 | Until its cooldown ends a node stays unavailable, whatever is recorded meanwhile, unless it succeeds |
| NodeVerification.SuccessRestoresNode | app/proxy_manager.py:286-298 | A success makes the node available at once and forgets its failures and strikes |
| NodeCooldowns.RetryAfterIsExact | app/proxy_manager.py:192-224 | After any run the answer is the time left of the latest cooldown since the last success of the node, and within 90 seconds of the call that took it out, what is left of those |
| NodeVerification.NodeHealth.MarkNodeUnavailable | app/proxy_manager.py:192-207 | A later deadline replaces an earlier one, never the other way round |
| NodeVerification.NodeHealth.PruneFailures | app/proxy_manager.py:258-262 | The loop keeps exactly the failures inside the window |
| NodeVerification.NodeHealth.RecordVerification | app/proxy_manager.py:252-283 | Records the failure and returns the cooldown of the specification |
| NodeVerification.NodeHealth.RecordNodeSuccess | app/proxy_manager.py:286-298 | Forgets the record and restores the last good delay |
| NodeVerification.NodeHealth.NodeRetryAfter | app/proxy_manager.py:210-224 | Returns the seconds left of the cooldown or of the failure pause and forgets an expired cooldown |
| ReferenceCache.LookupReadsTheLog | app/automation.py:391-398 | A lookup gives nothing or exactly the last attachment stored and not invalidated, within its time to live; it gives nothing only when that is missing, expired, or at least as many other keys as fit were stored since |
| ReferenceCache.UncrowdedCacheIsExact | app/automation.py:391-410 | While no more keys are stored than fit, the cache answers exactly as an unbounded one |
| ReferenceCache.CrowdedOutExactly | app/automation.py:401-410 | Without invalidations and simultaneous stores, an entry within its time to live is missing exactly when at least as many other keys as fit were stored since |
| ReferenceCache.StoredEntryIsFound | app/automation.py:401-410 | After any store the size is legal and the entry just stored is found until it expires |
| ReferenceCache.InvalidatedKeyIsGone | app/automation.py:413-416 | An invalidated key is not found |
| ReferenceCache.RunReflects | app/automation.py:391-422 | After any calls in time order the dictionary reflects the log |
| ReferenceCache.LatestSortsLast | app/automation.py:406-410 | Because the sort is stable, an entry appended last with the latest expiry is never the one evicted among equals |
| ReferenceCache.EvictedMembers | app/automation.py:407-410 | Exactly the first of the entries with the earliest expiry gives way |
| ReferenceCache.AttachmentCache.Cached | app/automation.py:391-398 | Drops the expired entries and returns the entry of the key |
| ReferenceCache.AttachmentCache.Cache | app/automation.py:401-410 | Ignores an empty key or a missing URI, else stores and evicts as specified |
| ReferenceCache.AttachmentCache.Invalidate | app/automation.py:413-416 | Removes exactly the given keys |
| PercentEncoding.UnquoteQuote | app/config.py:737 | Decoding undoes encoding, for every string of Unicode scalar values |
| PercentEncoding.Utf8Decodes | app/config.py:737 | Decoding the UTF-8 bytes of a string gives the string |
| PercentEncoding.QuoteIsInjective | app/config.py:737 | Different credentials print differently |
| PercentEncoding.UnquoteWithoutPercent | app/account_proxies.py:79-80 | A credential without a percent sign is taken as it is |
| ProxyUrl.PrintedUrlParsesBack | app/account_proxies.py:338-345 | For every accepted entry with an ASCII host, parsing the printed URL gives the same scheme, host, port, user name and password if the URL has at most 2000 characters, and the format error otherwise |
| ProxyUrl.AcceptedUrlCanBeTooLong | app/account_proxies.py:56-59 | Of accepted entries with a password of 1 to 500 wide characters, the printed URL is refused exactly from 166 characters on |
| ProxyUrl.ParsedIsWellFormed | app/account_proxies.py:56-106 | Whatever the parser accepts has a known scheme, a host that is its own validated normal form, a port in range and trimmed, bounded credentials |
| ProxyUrl.ValidatedHostIsNormal | app/config.py:307-322 | Validating a validated ASCII host returns it unchanged |
| ProxyUrl.HostCharsOnly | app/config.py:307-322 | A valid ASCII host consists of letters, digits, hyphens and dots |
| ProxyHosts.AddressesExactly | app/config.py:307-322 | A dotted address is refused exactly when it is a loopback or link-local address or 0.0.0.0, and accepted unchanged otherwise |
| ProxyHosts.LocalNamesAreRefused | app/config.py:307-322 | The name localhost and every name inside that domain is refused in any spelling |
| ProxyUrl.UrlOfWellFormed | app/config.py:732-738 | Printing a well-formed entry never fails and never comes out empty |
| ProxyUrl.NotationsAgree | app/account_proxies.py:56-106 | Where the notation with four fields can express an entry, it parses to the same entry as the printed URL |
| AccountProxies.RunKeepsInv | app/account_proxies.py:213-294 | After any operations ids are distinct, at most 300 proxies are stored, and every selected id is listed once and enabled |
| AccountProxies.DeleteFailsExactly | app/account_proxies.py:282-294 | The count check of a deletion refuses exactly an empty request or one with an id that is not there |
| AccountProxies.EverySelectedProxyIsOffered | app/account_proxies.py:320-335 | With rotation every selected proxy is offered, enabled, in the order of selection from the cursor on and around |
| AccountProxies.EachCandidateLeadsOnce | app/account_proxies.py:320-335 | As many consecutive calls as there are candidates put each of them first exactly once |
| AccountProxyCalls.DeleteMeans | app/account_proxies.py:282-294 | A deletion that names nothing or something missing is refused; else exactly the named proxies leave list and selection, and the rest keeps its order |
| AccountProxyCalls.SwitchMeans | app/account_proxies.py:263-279 | Switching refuses likewise; else exactly the named proxies get the new state, and when disabled leave the selection |
| AccountProxyCalls.SelectMeans | app/account_proxies.py:250-260 | A selection that names a missing or disabled proxy is refused; else it is exactly the named ids, each once, in the order of their first mention |
| AccountProxyCalls.ImportMeans | app/account_proxies.py:232-247 | An import is refused exactly when more than 300 proxies would result; else the first line of each new id is appended, enabled and selected |
| AccountProxyCalls.OfferMeans | app/account_proxies.py:320-335 | Without rotation only the first selected proxy is offered and the cursor stays; with it all are, from the cursor on and around, and the cursor advances by one |
| AccountProxies.AccountProxyStore.ImportProxies | app/account_proxies.py:232-247 | Adds the proxies with new ids at the end and selects them, or changes nothing when the list would overflow |
| AccountProxies.AccountProxyStore.SetProxiesEnabled | app/account_proxies.py:263-279 | Switches exactly the requested proxies and deselects disabled ones, or changes nothing when one is unknown |
| AccountProxies.AccountProxyStore.SelectProxies | app/account_proxies.py:250-260 | Selects the requested ids in order, or changes nothing when one is missing or disabled |
| AccountProxies.AccountProxyStore.DeleteProxies | app/account_proxies.py:282-294 | Removes and deselects the requested proxies or changes nothing |
| AccountProxies.AccountProxyStore.ProxyCandidates | app/account_proxies.py:320-335 | Offers the candidates from the cursor on and advances it |

## Left out

- Times are integers that never decrease inside a run; formatting and parsing of timestamps is not modelled.
- Identifiers of jobs, accounts and owners are opaque; hashing, random tokens and JSON are not modelled.
- Slot records of the pools live in a map keyed by identity, not in heap objects; the pool is the class. The identity
  of a new slot is a parameter that is not in use yet.
- Each mutator works on one stored job or account; the search over all jobs in `claim_next_row` and the lookup of the
  document or row are not modelled, and a transaction is one step.
- Fields of jobs and rows that no mutator reads (ratio, model, sheet position, references), list limits and the counts
  of the public view are not modelled.
- ReferenceCache.LookupReadsTheLog: the crowding clause is necessary, not sufficient, for a miss, because an
  invalidation in between can make room again; ReferenceCache.CrowdedOutExactly is the exact form without invalidations.
- ProxyUrl.PrintedUrlParsesBack: covers ASCII hosts. Lower case, letters and digits beyond ASCII, compatibility
  normalisation and the check of bracketed hosts belong to the language runtime and are parameters (`ProxyUrl.Tables`)
  that agree with ASCII on ASCII; the URL splitting follows the runtime named in the Dockerfile (Python 3.11).
- ProxyUrl.NotationsAgree: the derived country and the other display fields of an entry are not modelled.
- AccountProxies.RunKeepsInv: starts from a sound store; the file, its corruption check and latency updates are not modelled.
- ExitPool.LeasesExcludedExactly: supposes that a launch tries a node its caller did not exclude, as app/proxy_manager.py:1368 ensures.
- ExitPool.NextKeeps: choosing, measuring and probing nodes is network I/O and is not modelled; the plan of a launch is a
  parameter that must fit the swept table.
- AccountService.StoredAccount.ReconcileSuccessCharges: works on the records of one account; the dry run, the report about
  unknown accounts and the dropping of an id already met for another account are not modelled.
- AccountService.StoredAccount.ClaimForWorker: admits by exhaustion and quota; the other filters of the selection are in
  `Selection.Keeps`, and `Selection.RecheckAcceptsRow` connects the two.
- OwnerScheduler.CursorServesSteadyOwner: its condition is sufficient for a run; each half of it is needed for some run,
  as OwnerScheduler.CursorCanStarve and OwnerScheduler.CursorCanStarveTheFirst show.
- LedgerRuns.RunKeepsConsistent: leaves out the calls that bypass the ledger; LedgerRuns.DriftIsHarmlessExactly covers them.
- LedgerCalls.SyncMeans: speaks of an opened ledger whose charges have ids; LedgerRuns.SyncShowsCreditLessPending has
  the remaining credit for every ledger.
- LedgerCalls.TimeOutRecords: speaks of an opened ledger whose charges have ids, and so does LedgerCalls.TimeOutSettlesCharge;
  opening a ledger makes the value used so far its base.
- Selection.SqlRefinesSelection: supposes consistent ledgers and the agreement conditions of
  Selection.FiltersAgreeExactly and Selection.RanksAgreeExactly; random order is not modelled. Lower case is that of
  ASCII, which decides equality with the two sources.
- Merge.SurvivorCoversExactly: supposes that shared charges agree and that the member's own ids and the keeper's are unique.
- NodeVerification.VerificationMatchesHistory: trimming of node and account ids, gateway failures and the health mark of
  a node are not modelled.
- Behaviour after `stop`, single-flight uploads, catalogues, notifications, audit, sessions, page driving, captcha
  handling, task queues and workers are not part of this model.
