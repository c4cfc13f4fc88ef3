# Investment OS: verified models of the stateful core

Dafny models of the parts of Investment OS where money, quantities, approvals and histories are kept,
with machine-checked proofs about every input and every run. `dafny verify dfyconfig.toml` checks the
whole project.

What is modelled, file by file:

- **Budget ledger** (`Amounts`, `BudgetLedger`, `BudgetRuns`, `BudgetLocks`, `BudgetClashes`, `TaskRowClash`,
  `BudgetStore`, `BudgetService`, `Quotes`, `AgentRuntime`). Reserving and settling LLM calls against a daily
  and a task ledger: the effect of each transaction, whole runs, the lock-by-lock interleaving of any number of
  transactions, the store as an object, the service's worst-case quotes and what a call is charged in the end,
  and the repair loop that calls it.
- **Sizing** (`Rounding`, `Capacity`, `Sizing`, `SizingOutcomes`, `SizingRuns`). Exact decimal arithmetic with
  clamping, six headrooms and lot rounding; what every action comes to; unbounded sequences of purchases and
  reductions; comparisons of two requests.
- **Position book and CSV import** (`PortfolioCsv`, `CsvRows`, `PortfolioBook`, `VersionedWrites`, `Catalogue`,
  `Fingerprints`, `ImportProtocol`, `ImportRows`, `ImportCounterexamples`). Versioned writes; the unlocked
  preview and plan, other writers in between, the locked apply, the event log and the audit; the way of a row
  from the file to its position.
- **Jobs and schedule** (`JobExecutor`, `JobRules`, `Schedule`, `SessionJobs`, `ScheduledJobs`). Retries with a
  separate, unlocked failure recording; the calendar, the jobs of its sessions and its bounded replay window;
  polls that dispatch jobs to the executor.
- **Thesis** (`Thesis`, `ThesisPayload`, `ThesisDiff`, `Thresholds`, `Invalidation`, `InvalidationRules`,
  `PayloadOrder`, `ThesisHistory`, `ThesisWriters`, `OverlappingWriters`, `ThesisStore`, `WriteRules`).
  Canonical payloads and reading them back, the diff, invalidation, and the version chain under concurrent
  writers.
- **Approval** (`Approval`, `ApprovalGuards`, `ApprovalTimeline`). The decision state machine together with its
  append-only approval records.
- **Shared** (`Enums`, `Options`, `Orders`, `Texts`, `Maps`, `Sums`). The enumerations several parts use, and
  sorting, text and sum lemmas.

Code that updates state in place is a class or a method with loops, proved equal to a function of the old
state; the lemmas are about that function. Concurrent protocols are state machines over their single
statements or transactions. Amounts, quantities and weights are exact reals; counts are unbounded
integers. Hashing is injective, so a hash is represented by what it is computed from.

## What the proofs say about the code

Most of the promises hold as stated. These need a condition, which is exact in the lemma named, or do not hold:

- A failure recording takes the job lock again and checks nothing. A run keeps the executor's promises if
  and only if every recording finds its job still open (`JobExecutor.RunIsReliableIffRecordsOnlyOpenJobs`);
  overlapping calls can commit a handler's effects twice (`JobExecutor.OverlapCanRunTwice`).
- An import without the positions fingerprint conserves quantities if and only if what others wrote to the
  named positions in between cancels out (`ImportProtocol.ConservedIffNoNetDrift`); a run in which it does not
  is `ImportCounterexamples.UpdateCanBeLost`. With the fingerprint it always does, provided no two keys are
  spelled alike as market, bar and symbol. That is exactly when fingerprints can be trusted
  (`Fingerprints.FaithfulIffTextsDiffer`); any pair of instruments spelled alike defeats the check
  (`ImportCounterexamples.SpelledAlikeDefeatsFingerprint`). Markets without a bar are enough.
- An audit row of a written position always shows it as it was and as it becomes. That of a skipped one shows the
  planner's reading, which is true if and only if the position is still as it was read
  (`ImportProtocol.AuditIsTrueIff`); a run in which it is not is `ImportCounterexamples.SkippedAuditCanBeStale`.
  With the fingerprint every row is true (`ImportProtocol.ConfirmedAuditIsTrue`).
- The remainder in the day's usage report is clamped at zero. It tells exactly what the cap still admits, except
  that after a cap was lowered it seems to admit a demand of zero cost that the cap refuses
  (`BudgetStore.RemainingIsWhatStillFits`, `BudgetStore.RemainderCanOverstate`, `BudgetStore.OverTheCapIsReachable`).
- Writing a thesis that is already stored adds no version if and only if every claim lists its evidence in
  order (`ThesisDiff.RewriteIsImmaterialIffEvidenceSorted`). The writer's description
  (`src/investment_os/infrastructure/thesis_engine.py:170`) says that the content hash makes equal inputs
  idempotent; the code compares by the diff, which is order-sensitive here.
- As-of reads show the highest version that existed, throughout the history, if and only if creation times
  never decrease along the versions (`ThesisHistory.ReadsRightIffCreatedInOrder`). The clock is read before
  the transaction, so a reachable history can break this (`OverlappingWriters.StampOutOfOrder`).
- An expected content hash constrains a thesis write if and only if a current version exists
  (`ThesisWriters.ExpectedHashMattersIffCurrentExists`, `ThesisStore.ExpectedHashConstrainsIff`); a first
  write commits whatever it expected (`ThesisStore.FirstWriteIgnoresExpectedHash`).
- A poll covers every closed session if and only if no more sessions close between polls than the replay
  window holds (`Schedule.CoverageIffSmallGaps`), and a job that raises ends the poll
  (`Schedule.DispatchedIffUnobstructedOnce`). A poll reaches a job if and only if the executor blocks neither it
  nor one before it (`ScheduledJobs.ReachedIffNoneBlocked`). A job is blocked for good if and only if its
  attempts are used up without success or its key was used with other input
  (`ScheduledJobs.BlockedForGoodIffDoomed`). As many crashing polls as attempts are allowed lead there
  (`ScheduledJobs.CrashesDoom`), and from then on the jobs of later sessions starve in every poll in which the
  job is due (`ScheduledJobs.DoomedJobStarvesLaterSessions`).
- Sizing fails exactly when a purchase wants more than the whole portfolio, in request or in target
  (`Sizing.SizingFailsExactlyWhen`); nothing ties the position's weight to the capacity inputs.
- An approved decision can still move, given a reason, if and only if its latest record is an unexpired approval
  and neither inputs nor price have drifted, or revokes it (`Approval.ApprovedMovesIffExecutableOrRevoked`).
  After expiry, or after a drift, it has no move left at that instant, and there is no way back.
- Approval records are stored with whatever stamp they are given
  (`src/investment_os/infrastructure/decision_journal.py:265-290`). The complete log shows what every move saw
  if and only if no record is stamped at or before the instant of a move made before it was appended
  (`ApprovalTimeline.LogIsFaithfulIffNoBackdating`). A run that reaches execution and is rewritten by a revocation
  afterwards is `ApprovalTimeline.BackdatedRevocationRewrites`.
- Two first reservations of one task on two different days can clash on the task row's first insert; the
  later one fails without a trace (`TaskRowClash.TaskInsertCanClash`). A reserve fails if and only if such a
  rival commits while it has read the row as missing (`BudgetClashes.ReserveFailsIffRivalCommitted`), so never
  when the task row exists at its start, and never without such a rival open.

## Model

| member | source | states |
|---|---|---|
| BudgetLedger.ReserveKeepsAgreement | src/investment_os/infrastructure/llm_budget.py:93-121 | after any reserve, granted or refused, every day row and task row still equals the sums over its open reservations and its usage |
| BudgetLedger.ReconcileKeepsAgreement | src/investment_os/infrastructure/llm_budget.py:132-169 | the same after any reconciliation, settled or failed |
| BudgetLedger.ColumnTotals | src/investment_os/infrastructure/llm_budget.py:93-169 | either table's reserved column sums to all open reservations and its consumed column to all usage |
| BudgetLedger.DayAndTaskLedgersBalance | src/investment_os/infrastructure/llm_budget.py:93-169 | summed over days and summed over tasks, reserved and consumed are the same |
| BudgetLedger.LedgersNonnegative | src/investment_os/infrastructure/llm_budget.py:93-169 | no ledger column goes below zero |
| BudgetLedger.SettledOnce | src/investment_os/infrastructure/llm_budget.py:132-158 | a settlement adds exactly its own usage row, and an attempt right after it fails and changes nothing |
| BudgetLedger.ReconcileFailsOnlyForCause | src/investment_os/infrastructure/llm_budget.py:135-158 | in agreeing books a settlement succeeds if and only if the reservation exists, is unsettled and covers the actual amount |
| BudgetLedger.GrantedIff | src/investment_os/infrastructure/llm_budget.py:93-105 | in agreeing books a reserve is granted if and only if its id is new and, in its day as in its task, all usage, all open reservations and the demand together are within the limits of tokens and cost |
| BudgetLedger.SettledRow | src/investment_os/infrastructure/llm_budget.py:156-169 | a settlement stores exactly one usage row, with the reported input tokens, output tokens and cost, and closes its reservation |
| BudgetRuns.RunAgrees | src/investment_os/infrastructure/llm_budget.py:50-169 | agreement holds after every run of operations |
| BudgetRuns.UsedWithinLastGrant | src/investment_os/infrastructure/llm_budget.py:93-105 | in every run, through policy changes and refusals, a window's consumed plus reserved is within the limit of its last grant, and zero if there was none |
| BudgetRuns.FixedPolicyIsAHardCap | src/investment_os/infrastructure/llm_budget.py:93-105 | under one policy no day and no task ever exceeds its limit |
| BudgetRuns.RunLedgersSound | src/investment_os/infrastructure/llm_budget.py:93-169 | every reachable state agrees, balances and is non-negative |
| BudgetRuns.SettledAtMostOnce | src/investment_os/infrastructure/llm_budget.py:132-158 | of all settlements of one reservation in a run at most one succeeds |
| BudgetRuns.SettledRowsNeverChange | src/investment_os/infrastructure/llm_budget.py:132-169 | whatever the run, a reconciled reservation's row and its usage row never change again |
| BudgetLocks.InterleavingsAreSerial | src/investment_os/infrastructure/llm_budget.py:63-169 | every interleaving of lock, read, check, write and commit steps leaves the tables that its committed calls leave when run one at a time in commit order |
| BudgetLocks.InterleavingsAreWithinBudget | src/investment_os/infrastructure/llm_budget.py:63-169 | agreement and the caps hold at every point of every interleaving |
| BudgetLocks.CommitIsAtomicCall | src/investment_os/infrastructure/llm_budget.py:63-169 | what a transaction publishes at commit is the atomic call on the tables as they are then |
| BudgetLocks.DailyInsertNeverClashes | src/investment_os/infrastructure/llm_budget.py:63-79 | thanks to the advisory lock the first insert of a day row never meets another |
| BudgetClashes.FailedSettlementIsAtomicFailure | src/investment_os/infrastructure/llm_budget.py:132-158 | a settlement that fails inside an interleaving also fails as the atomic call at that point, unavailable or over its reservation, and changes nothing |
| BudgetClashes.ReserveFailsExactlyWhen | src/investment_os/infrastructure/llm_budget.py:84-92 | in every reachable state a reserve's next statement fails if and only if it inserts a task row that it read as missing and that is committed by now |
| BudgetClashes.ReserveFailsIffRivalCommitted | src/investment_os/infrastructure/llm_budget.py:84-92 | over every interleaving an open reserve fails if and only if, while it had read its task row as missing, a reserve of the same task on another day committed |
| BudgetClashes.KnownTaskNeverFails | src/investment_os/infrastructure/llm_budget.py:84-92 | a reserve whose task row exists when it begins never fails there |
| BudgetClashes.AloneNeverFails | src/investment_os/infrastructure/llm_budget.py:84-92 | nor does one during which no other reserve of its task on another day is open |
| TaskRowClash.TaskInsertCanClash | src/investment_os/infrastructure/llm_budget.py:84-92 | for any two reserves of one task on two days an interleaving from the empty start in which the second one fails and leaves no change |
| BudgetLocks.LocksAreTakenInOrder | src/investment_os/infrastructure/llm_budget.py:63-169 | every lock waited for comes after all locks held in one global order |
| BudgetLocks.NoWaitCycle | src/investment_os/infrastructure/llm_budget.py:63-169 | no chain of waiting transactions ever closes |
| BudgetLocks.SomeoneCanAdvance | src/investment_os/infrastructure/llm_budget.py:63-169 | while a transaction is open, some open transaction can take its next step |
| BudgetStore.Store.ReserveCapacity | src/investment_os/infrastructure/llm_budget.py:50-121 | the stepwise update of rows is the reserve operation on the whole store, zero rows of a refusal included |
| BudgetStore.Store.ReconcileUsage | src/investment_os/infrastructure/llm_budget.py:123-169 | the stepwise update of rows is the reconcile operation on the whole store |
| BudgetStore.Store.UsageOn | src/investment_os/infrastructure/llm_budget.py:171-187 | the day's report shows the day's row; what it shows as remaining covers every demand the cap still admits, and admits no other non-negative demand unless that asks for nothing of a component that is over its limit |
| BudgetStore.RemainingIsWhatStillFits | src/investment_os/infrastructure/llm_budget.py:183-184 | a fitting demand is at most the clamped remainder; a non-negative demand fits if and only if it is at most the remainder and, per component, positive or the use is within the limit |
| BudgetStore.RemainderCanOverstate | src/investment_os/infrastructure/llm_budget.py:183-184 | on a day over its cost cap a zero-cost demand is at most the remainder shown and yet refused |
| BudgetService.QuoteIsWorstCase | src/investment_os/application/llm_budget.py:100-127 | a quote covers what every answer within the byte and token bounds costs at the profile's prices, and its tokens |
| Quotes.QuotedIff | src/investment_os/application/llm_budget.py:100-115 | a call is quoted if and only if policy, prices, currency and prompt are in order, spelled out field by field; otherwise the first check that fails is reported |
| Quotes.QuoteIsThePrice | src/investment_os/application/llm_budget.py:107-127 | a quote has the profile's own version, currency, input price and output price, the prompt's bytes and 256 more as input, the smaller output limit, and costs what those tokens cost at those prices |
| Quotes.ReservedIff | src/investment_os/application/llm_budget.py:115-127 | a call is reserved if and only if it is quoted, its id is new and day and task have room for it; otherwise the error says which failed and nothing is held |
| Quotes.ChargedAtProfilePrices | src/investment_os/application/llm_budget.py:100-152 | from any reservation in any run to its settlement after any further transactions: it succeeds if and only if it is not settled and within the quoted bounds, and then returns and stores what the reported tokens cost at the profile's prices, input and output told apart |
| BudgetService.ReceiptIsBackedAndQuoted | src/investment_os/application/llm_budget.py:100-127 | a granted receipt is recorded as reserved, priced at its own quote |
| BudgetService.BackedForever | src/investment_os/application/llm_budget.py:100-152 | no later transaction removes or changes what a receipt is backed by |
| BudgetService.SettlementOutcome | src/investment_os/application/llm_budget.py:129-152 | settling succeeds exactly for unsettled receipts with usage within the reserved tokens, and then costs no more than was reserved |
| BudgetService.OverrunGuardNeverFires | src/investment_os/infrastructure/llm_budget.py:145-156 | whatever happens between a grant and its settlement, the store's overrun guard does not fire for calls from the service |
| BudgetService.ActionKeepsBacked | src/investment_os/infrastructure/llm_budget.py:63-169 | nor does any single statement of any interleaving change what a receipt is backed by |
| BudgetService.QuotedSettlementFailsOnlyAsSettled | src/investment_os/infrastructure/llm_budget.py:132-158 | inside every interleaving, a statement settling a backed, quoted receipt within its reserved tokens fails only because the reservation is settled already |
| AgentRuntime.Run | src/investment_os/application/agent_runtime.py:151-191 | the repair loop stops at the first answer that fails or validates, makes at most three calls, and its result satisfies the cross-field checks |
| Capacity.AllowedIsLargestPermitted | src/investment_os/domain/portfolio.py:118-166 | the allowed increase is the largest that respects the request and all six limits |
| Rounding.RoundsDownToLots | src/investment_os/domain/sizing.py:116-120 | a non-negative delta becomes whole lots, undershooting by less than one |
| Rounding.RoundsAwayFromHolding | src/investment_os/domain/sizing.py:116-120 | a negative delta removes the fewest lots that cover it, less than one lot more, or the whole holding if they are more |
| Rounding.RoundMonotone | src/investment_os/domain/sizing.py:116-120 | asking for more never books less |
| Sizing.SizePosition | src/investment_os/domain/sizing.py:186-253 | the step-by-step method computes the sizing function, errors included |
| Sizing.PlanPurchase | src/investment_os/domain/sizing.py:194-223 | the gates, scaling and cuts of BUY and ADD compute the planned target and reasons |
| SizingOutcomes.OtherActionsChangeNothing | src/investment_os/domain/sizing.py:230-232 | HOLD, WATCH and AVOID never fail, trade nothing, leave weight and quantity exactly as they are, and give NO_EXPOSURE_CHANGE alone as reason |
| SizingOutcomes.BlockedPurchases | src/investment_os/domain/sizing.py:194-205 | a BUY or ADD is stopped by an expired assessment, by one without flags, by a hard flag, by a broken thesis, in this order; it then changes nothing and gives that one reason |
| SizingOutcomes.PurchaseIsLargestPermitted | src/investment_os/domain/sizing.py:206-241 | an unblocked purchase aims at the intent's weight times target over actual or floor volatility, clamped; its increase is the largest that keeps that target and all six limits on top of what is held and pending, and it books the largest number of lots within it |
| SizingOutcomes.PurchaseErrors | src/investment_os/domain/sizing.py:206-241 | it fails if and only if the target is more than the whole portfolio above the held weight, or some permitted increase leads beyond the whole portfolio; which of the two is told |
| SizingOutcomes.SaleIsFewestLots | src/investment_os/domain/sizing.py:224-247 | REDUCE aims at the weight less the fraction, EXIT at zero; each sells the fewest lots that cover it, or the whole holding if they are more |
| SizingOutcomes.SaleReasons | src/investment_os/domain/sizing.py:224-229 | REDUCE and EXIT never fail and give one reason each |
| SizingOutcomes.CapacityIsShown | src/investment_os/domain/portfolio.py:113-166 | every result shows the six headrooms by name and value, and an allowance of nothing unless it is an unblocked purchase |
| Sizing.SizingFailsExactlyWhen | src/investment_os/domain/sizing.py:186-253 | sizing fails if and only if an unblocked purchase wants more than the whole portfolio |
| Sizing.ResultReconciles | src/investment_os/domain/sizing.py:93-97 | the result's weight and quantity reconcile, so it can feed the next request |
| Sizing.PurchaseIsWithinEveryLimit | src/investment_os/domain/sizing.py:194-241 | a purchase is whole lots, undershoots by less than one lot, and is within the request, every headroom and the gates |
| Sizing.ReasonsAreTheBindingLimits | src/investment_os/domain/sizing.py:218-223 | with an active PASS and an unbroken thesis the reason codes are exactly the limits below the request |
| Sizing.ReductionBounds | src/investment_os/domain/sizing.py:224-247 | REDUCE removes at least the fraction, less than a lot more, never below zero |
| Sizing.ExitEmptiesPosition | src/investment_os/domain/sizing.py:227-247 | EXIT lands on exactly zero, odd lots included |
| SizingRuns.PurchasesNeverPassCaps | src/investment_os/domain/sizing.py:194-241 | over any sequence of sized and booked purchases no instrument, sector, gross or cash total passes the larger of its cap and its start |
| SizingRuns.BoughtIsWithinHeadrooms | src/investment_os/domain/portfolio.py:118-166 | each booked delta is within all six headrooms at that moment |
| SizingRuns.ReductionsRemoveALotEach | src/investment_os/domain/sizing.py:224-247 | n reductions remove at least n lots or everything |
| SizingRuns.ReductionsTerminate | src/investment_os/domain/sizing.py:224-247 | repeated REDUCE with a positive fraction is at zero within as many steps as there are lots, a started one included |
| SizingRuns.SalesIgnoreRiskAndCapacity | src/investment_os/domain/sizing.py:224-247 | REDUCE and EXIT results do not depend on risk assessment, thesis state or capacity inputs |
| SizingRuns.DeltaNonIncreasingInVolatility | src/investment_os/domain/sizing.py:199-223 | a more volatile instrument is never bought in larger size |
| SizingRuns.DeltaNonDecreasingInHeadroom | src/investment_os/domain/portfolio.py:113-166 | widening headrooms never shrinks a purchase |
| PortfolioCsv.ParsePortfolioCsv | src/investment_os/application/portfolio_csv.py:238-329 | one pass with a table of seen keys gives every row the verdict it should have |
| PortfolioCsv.PickedExactly | src/investment_os/application/portfolio_csv.py:238-329 | the rows of each verdict are picked once each, in file order, and no others |
| PortfolioCsv.ListsAreTheirRows | src/investment_os/application/portfolio_csv.py:238-329 | each of the four lists is made, entry by entry, from the picked rows of its verdict |
| PortfolioCsv.PreviewCounts | src/investment_os/application/portfolio_csv.py:238-329 | the four lists account for every row |
| PortfolioCsv.AcceptedStands | src/investment_os/application/portfolio_csv.py:280-329 | an accepted entry is the first well-formed row of its key, a conflict if and only if the key is held |
| PortfolioCsv.AcceptedKeysDistinct | src/investment_os/application/portfolio_csv.py:280-329 | no key is accepted twice, within a list or across the two |
| PortfolioCsv.DuplicatesNameTheFirstLine | src/investment_os/application/portfolio_csv.py:280-329 | a duplicate names the earlier line with its key |
| CsvRows.PassesIffReadable | src/investment_os/application/portfolio_csv.py:238-282 | a row passes if and only if its four fields can be read, none of its three numbers is negative and a cost comes with a quantity; it then carries the row's own identity, quantities and cost; otherwise the first failure is the reason |
| CsvRows.VerdictIff | src/investment_os/application/portfolio_csv.py:238-329 | a readable row is a duplicate if and only if an earlier readable row has its key, and otherwise a conflict if and only if the key is held |
| CsvRows.AcceptedIff | src/investment_os/application/portfolio_csv.py:280-329 | an entry is listed as valid or as conflict if and only if its line holds a row that belongs there and it carries that row |
| CsvRows.RejectedIff | src/investment_os/application/portfolio_csv.py:320-329 | an entry is listed as invalid if and only if the row on its line is not readable, for that reason |
| CsvRows.DuplicateIff | src/investment_os/application/portfolio_csv.py:283-293 | an entry is listed as duplicate if and only if its line repeats the key that the line it names is the first to have |
| PortfolioBook.Adapter.UpsertPosition | src/investment_os/infrastructure/catalog_portfolio.py:247-366 | the branches are the write operation on the book; it goes through if and only if no version or the current one is expected, and changes nothing otherwise |
| VersionedWrites.WrittenIffVersionIsCurrent | src/investment_os/infrastructure/catalog_portfolio.py:281-366 | a write goes through if and only if it expects no version or the key's, 0 if not held; it then replaces the fields, adds one to the version and logs exactly itself |
| VersionedWrites.EntryGoesThroughIffUntouched | src/investment_os/infrastructure/catalog_portfolio.py:311-319 | in every run an entry that names the version its writer read goes through if and only if no step since then, manual or import, wrote the key |
| VersionedWrites.EntersOncePerVersion | src/investment_os/infrastructure/catalog_portfolio.py:311-319 | of all entries of a run for one key under one expected version at most one goes through |
| Catalogue.NamesAreKept | src/investment_os/infrastructure/catalog_portfolio.py:87-99 | over every run an instrument that has a name keeps it |
| PortfolioBook.Adapter.PositionsFingerprint | src/investment_os/infrastructure/catalog_portfolio.py:487-515 | the loop over rows builds a fingerprint of the current holdings, whatever the row order |
| PortfolioBook.Adapter.WriteItems | src/investment_os/infrastructure/catalog_portfolio.py:555-583 | the loop writes all items in order and records what each key held before and after |
| PortfolioBook.Adapter.ApplyImportBatch | src/investment_os/infrastructure/catalog_portfolio.py:517-640 | claim, fingerprint check, writes, rebuilt audit and commit are the batch operation on the book |
| PortfolioBook.WriteKeepsLog | src/investment_os/infrastructure/catalog_portfolio.py:275-422 | after a write, folding the events still rebuilds every position, and versions count events |
| PortfolioBook.LogExplainsEveryReachableBook | src/investment_os/infrastructure/catalog_portfolio.py:275-422 | the same in every reachable state, across manual writes, imports, conflicts and refusals |
| PortfolioBook.ImportedAtMostOnce | src/investment_os/infrastructure/catalog_portfolio.py:529-554 | of all batches with one import hash at most one is imported in any run |
| ImportProtocol.PlanImport | src/investment_os/application/portfolio_csv.py:435-574 | the stepwise plan, its loops and its refusals compute the plan function |
| ImportRows.RefusedIff | src/investment_os/application/portfolio_csv.py:399-414 | a confirmation is refused if and only if some row is not readable, or else some row names a held key and no policy is given |
| ImportRows.InputIsStored | src/investment_os/infrastructure/catalog_portfolio.py:263-274 | an input is stored as given; a bucket cost that is not given is the average cost if the bucket holds something, else zero |
| ImportRows.RowLands | src/investment_os/application/portfolio_csv.py:435-574 | whatever others wrote in between, the position that a row is the first to name becomes what the row says, field by field, is added to as it was read, or stays, as holdings and policy demand |
| ImportRows.RowIsAudited | src/investment_os/infrastructure/catalog_portfolio.py:584-612 | the audit has a row for it, with its line, key, action, and what the position was and became, or, if skipped, twice what the planner read |
| ImportRows.AuditIsFiled | src/investment_os/infrastructure/catalog_portfolio.py:614-628 | the audit is appended under the text and the policy's name, and the import's claim points to it |
| ImportProtocol.ImportedPlusSkipped | src/investment_os/application/portfolio_csv.py:576-583 | a confirmed file has imported + skipped = its rows |
| ImportProtocol.ImportKeyInjective | src/investment_os/application/portfolio_csv.py:422-433 | two imports share a key if and only if text and policy are the same |
| Fingerprints.FaithfulIffTextsDiffer | src/investment_os/infrastructure/catalog_portfolio.py:487-515 | for any set of keys: all holdings under them that share a fingerprint are equal, if and only if no two of the keys are spelled alike |
| Fingerprints.SpelledAlikeIffShifted | src/investment_os/infrastructure/catalog_portfolio.py:487-515 | two different keys are spelled alike if and only if one is the other with a part moved over a bar |
| Fingerprints.PlainMarketsDiffer | src/investment_os/application/portfolio_csv.py:332-340 | markets without a bar are enough for keys to be spelled differently |
| ImportCounterexamples.SpelledAlikeDefeatsFingerprint | src/investment_os/infrastructure/catalog_portfolio.py:540-554 | for any two instruments spelled alike a run in which the locked check passes on a moved book, in any row order if they have one name, and the import loses what was entered meanwhile |
| ImportProtocol.FingerprintPins | src/investment_os/infrastructure/catalog_portfolio.py:540-554 | if the check passes and no two keys are spelled alike, the batch starts from exactly the previewed positions |
| ImportProtocol.ImportAddsRowsPlusDrift | src/investment_os/application/portfolio_csv.py:485-574 | UPDATE or SKIP adds its rows plus whatever others wrote to those positions in between |
| ImportProtocol.ConservedIffNoNetDrift | src/investment_os/application/portfolio_csv.py:485-574 | so quantities are conserved if and only if those drifts cancel |
| ImportProtocol.ImportConserves | src/investment_os/application/portfolio_csv.py:485-574 | from unmoved positions core and tactical totals grow by all accepted rows under UPDATE, by the VALID rows otherwise |
| ImportProtocol.ConfirmedImportConserves | src/investment_os/application/portfolio_csv.py:332-574 | the same over a run with other writers between preview and apply, given the preview's fingerprint |
| ImportProtocol.ImportWritesItsRows | src/investment_os/infrastructure/catalog_portfolio.py:555-583 | written positions equal their plan, under REPLACE the CSV row |
| ImportProtocol.ImportLeavesOtherPositions | src/investment_os/infrastructure/catalog_portfolio.py:555-583 | positions that no written row names keep fields and version, also when nothing is written |
| ImportProtocol.AuditIsTrueIff | src/investment_os/infrastructure/catalog_portfolio.py:555-640 | whatever others wrote in between, an audit row shows its position before and after the whole batch if and only if the row was written or the planner's reading of it still holds; a skipped row shows that reading twice |
| ImportProtocol.ConfirmedAuditIsTrue | src/investment_os/infrastructure/catalog_portfolio.py:540-640 | over a run with other writers, given the preview's fingerprint, every audit row of an imported batch is true |
| ImportCounterexamples.UpdateCanBeLost | src/investment_os/application/portfolio_csv.py:485-574 | a run of a manual entry, a plan, another entry and an import without the fingerprint, in which the second entry is lost |
| ImportCounterexamples.SkippedAuditCanBeStale | src/investment_os/infrastructure/catalog_portfolio.py:600-612 | the same under SKIP: the audit shows the first entry's quantity before and after, while the book holds the second's |
| JobExecutor.Executor.Call | src/investment_os/infrastructure/persistence/jobs.py:54-107 | one locked call, with its reuse, conflict, exhaustion and rollback branches, is the execute operation |
| JobExecutor.Executor.Record | src/investment_os/infrastructure/persistence/jobs.py:119-148 | the separate recording fails one more attempt, whatever the row has become |
| JobExecutor.Executor.StartOrRetry | src/investment_os/infrastructure/persistence/repositories.py:483-515 | a missing row starts at attempt 1, an existing one gets one more attempt |
| JobRules.CallOutcome | src/investment_os/infrastructure/persistence/jobs.py:54-118 | a runnable job whose handler completes succeeds at its next attempt with one more effect; one that does not leaves no trace; any other job is answered from its row, by input, success and attempts, in this order; no other job changes |
| JobRules.RecordingOutcome | src/investment_os/infrastructure/persistence/jobs.py:119-148 | a recording fails the job's next attempt whatever its row is, and touches no other job |
| JobRules.RunIdsAreOwn | src/investment_os/infrastructure/persistence/repositories.py:483-515 | in every run, overlapping or not, no two jobs share a run id |
| JobExecutor.RecordingKeepsReliableIffStillOpen | src/investment_os/infrastructure/persistence/jobs.py:119-148 | one recording keeps the promises if and only if the job is still open |
| JobExecutor.RunIsReliableIffRecordsOnlyOpenJobs | src/investment_os/infrastructure/persistence/jobs.py:54-148 | a whole run keeps them if and only if every recording finds its job open |
| JobExecutor.SequentialRunsAreReliable | src/investment_os/infrastructure/persistence/jobs.py:54-148 | without overlap on a key effects are committed at most once, exactly when SUCCEEDED, and attempts = failures + successes, within the maximum |
| JobExecutor.SucceededIsFinal | src/investment_os/infrastructure/persistence/jobs.py:54-118 | a SUCCEEDED row never changes again |
| JobExecutor.LaterCallsReuse | src/investment_os/infrastructure/persistence/jobs.py:54-118 | later calls return the same run without running the handler |
| JobExecutor.OverlapCanRunTwice | src/investment_os/infrastructure/persistence/jobs.py:119-148 | with overlap a handler's effects can be committed twice |
| Schedule.JobsForSession | src/investment_os/application/schedule.py:174-192 | the appended definitions are the session's daily job and those of the cadences it ends |
| SessionJobs.JobsAreExactly | src/investment_os/application/schedule.py:174-192 | a job is among a session's if and only if it is as of and due at the session's close, and is daily or no later session shares its ISO week, its month, or its quarter; once each, in cadence order |
| SessionJobs.OneSessionPerPeriod | src/investment_os/application/schedule.py:90-112 | over a calendar, every week, month and quarter with a session has exactly one session with the job of that cadence, and every session a daily one |
| Schedule.DispatchDue | src/investment_os/infrastructure/runtime_scheduler.py:170-221 | the nested loops dispatch the due sessions' jobs in order up to the first that raises |
| Schedule.ExactlyOneFinalSession | src/investment_os/application/schedule.py:90-112 | every week, month and quarter with a session has exactly one final session, and that of a quarter is also that of its month |
| Schedule.ClosedIsPrefix | src/investment_os/infrastructure/runtime_scheduler.py:170-190 | what has closed is a prefix of the calendar in closing order |
| Schedule.DueIsWindow | src/investment_os/infrastructure/runtime_scheduler.py:170-190 | a poll looks at the last sessions of that prefix, as many as the replay window holds |
| Schedule.CoverageIffSmallGaps | src/investment_os/infrastructure/runtime_scheduler.py:170-221 | over polls at non-decreasing times every closed session is looked at if and only if no gap exceeds the window |
| Schedule.WideGapMisses | src/investment_os/infrastructure/runtime_scheduler.py:170-190 | what a wide gap misses is missed for good |
| Schedule.EveryClosedSessionIsDispatched | src/investment_os/infrastructure/runtime_scheduler.py:170-221 | with small gaps and no raising job all jobs of all closed sessions are dispatched |
| Schedule.JobDispatchedIff | src/investment_os/infrastructure/runtime_scheduler.py:190-221 | a job is dispatched if and only if no job up to it raises |
| Schedule.DispatchedIffUnobstructedOnce | src/investment_os/infrastructure/runtime_scheduler.py:190-221 | over polls with any raising jobs, a job is dispatched if and only if it is due in some poll in which nothing up to it raises |
| ScheduledJobs.ReplayedPollsAreReliable | src/investment_os/infrastructure/runtime_scheduler.py:190-221 | however often sessions are replayed, each job's effects are committed at most once, exactly when SUCCEEDED, within the attempt limit |
| ScheduledJobs.ReachedIffNoneBlocked | src/investment_os/infrastructure/runtime_scheduler.py:190-221 | from any state of the jobs, a poll over distinct keys dispatches a job if and only if the executor blocks neither it nor any job before it |
| ScheduledJobs.BlockedForGoodIffDoomed | src/investment_os/infrastructure/persistence/jobs.py:67-92 | a job is blocked after any further polls, however its handler fares, if and only if its key was used with other input or its attempts are used up without success |
| ScheduledJobs.DoomedStarvesForGood | src/investment_os/infrastructure/runtime_scheduler.py:190-221 | every later poll in which such a job is due ends at it at the latest |
| ScheduledJobs.DoomedJobStarvesLaterSessions | src/investment_os/infrastructure/runtime_scheduler.py:190-221 | so no job of a later due session is dispatched in such a poll |
| ScheduledJobs.CrashesDoom | src/investment_os/infrastructure/persistence/jobs.py:76-148 | from the empty start, as many polls as attempts are allowed, each with the first job crashing, doom it, and whatever is due behind it starves even once the handler is mended |
| Approval.LaterRecordsChangeNothing | src/investment_os/domain/approval.py:86-104 | records after an instant change no approval fact at that instant |
| Approval.LatestIsLast | src/investment_os/domain/approval.py:86-104 | the latest visible record is followed by no other visible one |
| Approval.ExactlyOneFact | src/investment_os/application/approval_gate.py:9-36 | approved, rejected, revoked and expired exclude each other, and one holds once a record is visible |
| Approval.RunsAreBounded | src/investment_os/domain/state_machines.py:197-317 | every run of a decision is at most as long as its state's rank |
| Approval.ExecutionWasAuthorized | src/investment_os/domain/state_machines.py:197-317 | every run that reaches execution passed an explicit risk gate, under VETO only as a recorded reduction, and at the execution step the latest visible record was an unexpired APPROVE |
| ApprovalTimeline.ShownIsSeenIff | src/investment_os/domain/approval.py:86-104 | for any sequence of appended records and moves: the complete log shows for a move's instant the record the move saw if and only if nothing appended later is visible at that instant, or the last such record is the same |
| ApprovalTimeline.LogIsFaithfulIffNoBackdating | src/investment_os/infrastructure/decision_journal.py:265-290 | with records named by ids, it does so for every move if and only if no record is stamped at or before the instant of a move made before it was appended |
| ApprovalTimeline.ExecutionStaysAuthorizedIff | src/investment_os/application/approval_gate.py:9-36 | every sequence that reaches execution passed the risk gate and saw an unexpired APPROVE at its approval and at its execution step; the complete log still shows one if and only if the last later record visible at that instant, if any, is one |
| ApprovalTimeline.TimelineExecutionWasAuthorized | src/investment_os/application/approval_gate.py:9-36 | so without backdated records the complete log shows an unexpired APPROVE at both steps |
| ApprovalTimeline.BackdatedRevocationRewrites | src/investment_os/infrastructure/decision_journal.py:265-290 | a purchase that is approved and executed, and a revocation appended afterwards with a stamp no later: the complete log, still in time order, shows the approval as revoked at the execution step |
| Approval.ApprovedMovesIffExecutableOrRevoked | src/investment_os/domain/state_machines.py:197-317 | an APPROVED decision can move if and only if a reason is given and either its approval is active and neither inputs nor price have drifted, or it was revoked |
| ApprovalGuards.PermittedIff | src/investment_os/domain/state_machines.py:197-317 | for every pair of states and every context: a transition is permitted if and only if reasons are given, the state machine has it, and the context says what its target asks for |
| ApprovalGuards.RefusedWith | src/investment_os/domain/state_machines.py:238-317 | and what it is refused with otherwise |
| ApprovalGuards.FactsOfLatest | src/investment_os/application/approval_gate.py:9-36 | the approval facts are those of the last record that occurred by the instant, an approval counting until its expiry and no longer |
| ApprovalGuards.ValidIff | src/investment_os/domain/approval.py:28-61 | a record is valid if and only if someone is named and it is an approval that stands when given, up to an expiry, or a rejection or revocation without one |
| ApprovalGuards.RecordsDecide | src/investment_os/domain/state_machines.py:263-303 | so approval, rejection, expiry, execution and cancellation are each permitted if and only if that record says so |
| Thesis.EvidenceIds | src/investment_os/domain/thesis.py:125-139 | the nested loops return all referenced evidence without repetitions |
| Thesis.DedupeKeepsFirstReferenceOrder | src/investment_os/domain/thesis.py:125-139 | the identifiers come in first-reference order |
| ThesisPayload.Parse | src/investment_os/infrastructure/thesis_engine.py:92-144 | whatever a row holds, what is read from it satisfies every content invariant, or the row is corrupt |
| ThesisPayload.ReadBack | src/investment_os/application/thesis.py:43-70 | reading a stored payload back yields exactly the canonical reordering of the content |
| ThesisPayload.CanonIsIdempotent | src/investment_os/application/thesis.py:28-70 | canonicalising twice is canonicalising once |
| ThesisPayload.PayloadOfCanon | src/investment_os/application/thesis.py:43-70 | the canonical arrangement is the same thesis and has the same payload |
| ThesisPayload.PayloadDecidesMeaning | src/investment_os/application/thesis.py:43-80 | two theses have equal payloads, hence equal hashes, if and only if they differ in the order of their lists only |
| ThesisPayload.PayloadDecidesCanon | src/investment_os/application/thesis.py:43-80 | equal payloads if and only if equal canonical arrangements |
| PayloadOrder.PayloadIsOrdered | src/investment_os/application/thesis.py:28-70 | a payload lists pillars by key, claims by description and then evidence, conditions by their four texts and monitoring by text, each the smaller first where they first differ |
| PayloadOrder.EvidenceIsOrdered | src/investment_os/application/thesis.py:28-70 | and each claim's evidence in ascending order, none lost or added |
| ThesisDiff.DiffLeadsFromPreviousToCurrent | src/investment_os/application/thesis.py:120-156 | previous minus removed plus added is current, changed pillars are exactly the shared keys that differ, and swapping the arguments swaps added with removed |
| ThesisDiff.ImmaterialIffSameSets | src/investment_os/application/thesis.py:99-156 | a diff is immaterial if and only if state, summary and all sets are equal |
| ThesisDiff.RewriteIsImmaterialIffEvidenceSorted | src/investment_os/infrastructure/thesis_engine.py:234-249 | writing a thesis whose payload is stored adds no version if and only if every claim's evidence is sorted |
| ThesisDiff.WritingBackIsImmaterial | src/investment_os/infrastructure/thesis_engine.py:234-249 | writing back what was read adds no version |
| ThesisDiff.UnsortedEvidenceAddsAVersion | src/investment_os/infrastructure/thesis_engine.py:234-249 | a thesis with evidence 2, 1 differs from its own stored copy |
| Thresholds.GrammarIsRead | src/investment_os/application/thesis.py:20-24 | every text of the threshold grammar is read as the comparison it denotes |
| Thresholds.OnlyTheGrammarIsRead | src/investment_os/application/thesis.py:242-262 | a text that is read is one of the grammar, up to surrounding space |
| Thresholds.HoldsIffInGrammar | src/investment_os/application/thesis.py:242-262 | a threshold text holds of a value if and only if, stripped, it is a comparison text and the value is below, at most, above or at least its bound, as the symbol or word says |
| Thresholds.DigitsDenote | src/investment_os/application/thesis.py:242-262 | digit texts are read in base ten |
| Thresholds.PointShiftsDigits | src/investment_os/application/thesis.py:242-262 | and digits behind the point as tenths of them |
| Invalidation.EvaluateInvalidation | src/investment_os/application/thesis.py:265-341 | the nested loops compute the evaluation function |
| InvalidationRules.HitIff | src/investment_os/application/thesis.py:276-300 | a pair is a hit if and only if the thesis has the condition, the observation was made, the window names a single observation in any case, the measurements are equal, and the value is on the threshold's side of the bound |
| InvalidationRules.HitsComeInOrder | src/investment_os/application/thesis.py:287-300 | the hits come in blocks, one for each time a condition on single observations is listed, in text order; within a block each breaching observation as often as it was made, by instant and then evidence |
| InvalidationRules.ProposedIff | src/investment_os/application/thesis.py:302-341 | a proposal and a review appear together, if and only if the thesis is not broken and some observation breaches a condition on single observations |
| InvalidationRules.ProposalIsTheHits | src/investment_os/application/thesis.py:311-341 | the proposal is the thesis, broken by an event, with one more risk for every hit, naming its condition and evidence; the review is for REDUCE or EXIT, on the new risks' evidence, once each where it first occurs |
| InvalidationRules.ReportIsTheHits | src/investment_os/application/thesis.py:276-310 | the triggered conditions are those of the hits, one for one; the unsupported ones are the thesis's with any other window, each as often as it is listed |
| Invalidation.TriggeredInOrder | src/investment_os/application/thesis.py:287-302 | triggered conditions come in the order of their texts, whatever order the thesis lists them in |
| Invalidation.HitsOfAreInOrder | src/investment_os/application/thesis.py:288-300 | within a condition the triggering observations come by instant, measurement and evidence |
| Invalidation.EvaluationIgnoresOrder | src/investment_os/application/thesis.py:286-341 | permuting the observations, ties included, changes nothing |
| Invalidation.ProposalIsWellFormed | src/investment_os/domain/thesis.py:98-123 | a proposal satisfies every content invariant and changes only state, reason and appended risks |
| Invalidation.ReviewEvidenceIsCovered | src/investment_os/application/thesis.py:311-341 | the review cites exactly the triggering evidence, once each, and the proposal rests on all of it |
| Invalidation.ProposalIsMaterial | src/investment_os/infrastructure/thesis_engine.py:398-417 | a proposal differs materially from its input and from whatever is stored under the input's hash, so a successful write adds a version |
| ThesisHistory.NoFork | src/investment_os/infrastructure/thesis_engine.py:250-270 | no two versions share a number, an id or a parent |
| ThesisHistory.ReadsRightIffCreatedInOrder | src/investment_os/infrastructure/persistence/repositories.py:217-227 | as-of reads return the highest version that existed, throughout the history, if and only if creation times never decrease |
| ThesisHistory.InOrderReadsHighest | src/investment_os/infrastructure/persistence/repositories.py:217-227 | with creation times in order an as-of read returns the highest version created by then |
| ThesisWriters.StepKeepsInvariant | src/investment_os/infrastructure/thesis_engine.py:194-284 | every statement of every writer keeps the chain, the pointer at its end, the counter one ahead, and at most one writer past its first insert |
| ThesisWriters.RunsKeepInvariant | src/investment_os/infrastructure/thesis_engine.py:194-284 | so does every interleaving, and the history only grows |
| ThesisWriters.ReachableLineage | src/investment_os/infrastructure/thesis_engine.py:194-284 | in every reachable state versions are 1..n, each the child of its predecessor and materially different from it |
| ThesisWriters.PointerUpdateNeverConflicts | src/investment_os/infrastructure/persistence/repositories.py:157-181 | a writer that could append its version always finds the counter it read |
| ThesisWriters.CommitBuildsOnWhatItExpected | src/investment_os/infrastructure/thesis_engine.py:225-252 | what commits on top of a version was compared with that version, whose hash is the expected one if given |
| ThesisWriters.ExpectedHashMattersIffCurrentExists | src/investment_os/infrastructure/thesis_engine.py:196-233 | some expected hash changes the decision if and only if there is a current version |
| ThesisStore.FirstWriteIgnoresExpectedHash | src/investment_os/infrastructure/thesis_engine.py:196-210 | whatever hash it expects, a first writer commits version 1, in the call and in a run from the empty start |
| ThesisStore.ExpectedHashConstrainsIff | src/investment_os/infrastructure/thesis_engine.py:185-233 | in the call some expected hash changes the result if and only if a current version exists and no evidence is missing |
| OverlappingWriters.StampOutOfOrder | src/investment_os/infrastructure/thesis_engine.py:175-179 | even under a clock that never goes back a reachable history can be stamped out of order |
| ThesisStore.Store.Write | src/investment_os/infrastructure/thesis_engine.py:159-284 | one call reports missing evidence, a stale hash, an unchanged thesis or a new version as it should, appends exactly that version, and never finds a corrupt or missing row |
| WriteRules.WriteReports | src/investment_os/infrastructure/thesis_engine.py:159-284 | a write reports, in this order: exactly the cited evidence that is not available; a current version that is not the expected one; that the current version, read back, says the same; or the next version's number |
| WriteRules.AddedVersion | src/investment_os/infrastructure/thesis_engine.py:250-270 | what it adds has the given id, stamp and content, the next number, and the last version as parent |
| WriteRules.ReferencesAreCited | src/investment_os/domain/thesis.py:125-139 | evidence is referenced if and only if some pillar, catalyst or risk cites it |
| ThesisStore.UninterruptedWriteIsTheCall | src/investment_os/infrastructure/thesis_engine.py:194-284 | a writer nobody interleaves leaves exactly the rows of that call |

## Left out

- HTTP routes and schemas, the pages, the worker bootstrap, HTTP clients, the secret store and onboarding: transport and plain storage.
- Migrations, mappings and SQL text: only the uniqueness, append-only, row-lock and advisory-lock facts the protocols rely on are kept.
- SHA-256, JSON encoding, time zones and daylight saving: hashing is injective and instants are integers; identifiers are numbers whose order is the order of their text.
- Decimal context rounding, Numeric(38,18) storage and the 32-bit width of version columns: arithmetic is exact and unbounded.
- CSV tokenising and the parsing of single fields, and all message texts: a field arrives as read or as unreadable.
- Average cost per bucket of an UPDATE import into an empty bucket: its intent is unclear.
- The `proposed` column of audit rows, and version and name inside audit snapshots.
- More than one portfolio, one thesis or one instrument per model, and the missing-portfolio error: they do not share rows.
- The instrument, strategy-proposal and thesis state machines: guarded tables like the decision's, without its approval history.
- The sizing input hash, the provider connection check, and saving a policy: a policy is an argument of each reserve because it is read in an earlier transaction.
- A call that finds the job lock busy has no effect and is not a step; a process that dies before recording a failure is the step `Abandoned`.
- Report rendering inside scheduled jobs, and job names and key texts: a job is its session and cadence.
- AgentRuntime.Run: takes the answers the gateway would give as a list with at least one answer per attempt; prompts and opinion contents are not modelled.
- Thresholds.GrammarIsRead: digits are the ASCII digits; the program's pattern also admits other Unicode decimal digits.
- ThesisDiff.DiffLeadsFromPreviousToCurrent: differences are sets; the sorted lists shown to users, whose order among claims that differ only in evidence order is not determined, are not modelled.
- ApprovalGuards.ValidIff: the optional comment of an approval record, which must not be blank, is not modelled.
- ApprovalTimeline.TimelineExecutionWasAuthorized: assumes that nothing is backdated; `ApprovalTimeline.ExecutionStaysAuthorizedIff` says what holds otherwise. A move is made on a log in time order, as the history demands (src/investment_os/domain/approval.py:71-89); the complete log, read afterwards, need not be in order here.
- ThesisWriters.ReachableLineage: a statement that has to wait is a step that is not yet possible; that a waiting writer eventually proceeds is not stated.
- Whether cited evidence is available is checked in `ThesisStore.Store.Write` against a given set; the evidence links of a version are not modelled.
