# Billing service: a verified model

The repository bills compute leases by calendar month. This project models its four working parts in Dafny and
proves what they do on every input, every run and every interleaving:

- **The biller** (`Decimals`, `Leases`, `LeaseTable`, `SpendStore`, `BillingRun`, `Biller`, and the `Billing*`
  modules of theorems). Three nested loops clip each lease to the month, multiply hours by price in a decimal
  context of 65 digits, add the product in place to the totals of its order, project and account, and upsert rows
  without a transaction. Only the multiplication and the addition to the order's total have their conditions
  checked.
- **Project requests** (`ProjectTransactions`, `ProjectSafety`, `ProjectAnswers`): the handlers as Read Committed transactions over
  PostgreSQL, interleaved statement by statement.
- **The background service** (`Scheduler`): the loop that runs the biller, as a timed state machine with a ticker
  whose channel holds one tick.
- **Identifiers** (`Identifiers`): the random identifier generator and the two recognisers, against the languages of
  their regular expressions.

`Powers` holds the arithmetic of powers of ten, `Wrappers` an option type, `RowOrder` the independence of the order
in which the database returns rows.

The imperative code is modelled by methods on objects (`Biller.Biller`, `Biller.DemandSpend`, the loops of
`LeaseTable` and `Identifiers.NewNanoID`); each is proved to leave exactly the state that a function of its inputs
and the old state describes, on success and on every error return, and the theorems are about those functions. The
project requests and the scheduler are state machines whose actions are single statements or events.

## How values are represented

- A number is `coeff * 10^exp`. Every number the context can hold is a whole number of units of 10^-82 (the smallest
  exponent the context allows), so values are integers in these units (`Decimals.Units`) and sums are exact.
- A stored amount is an integer in units of 10^-18, as NUMERIC(65,18) keeps it, below 10^65 in size.
- Multiplication and addition follow the "multiply" and "add and subtract" operations of the General Decimal
  Arithmetic Specification with rounding half up: compute exactly, then round, reporting conditions as flags.
- The number of hours of a duration is an arbitrary function; where it matters it is required to be non-negative and
  of at most 17 digits (`BillingAccuracy.HoursContract`), which is what printing a double guarantees.
- Everything a run reads from outside (query results, including failed queries, refused writes, the uid sent with
  each row) is a parameter, `BillingRun.Env`, so the theorems hold for any of it.

## Where the code does not do what its names and comments say

- The biller never sets the `uid` of the rows it writes, while `uid` is the primary key. A run therefore completes
  exactly when the old and new rows together are at most one per spend table
  (`BillingUids.ConstantUidCompletesExactlyWithOneRow`); with two accounts it never completes
  (`TwoAccountsNeverComplete`). With a new uid for each of its writes it completes exactly when nothing else is wrong
  (`FreshUidsCompleteExactlyWhenOk`). All other theorems about completed runs hold for either.
- `UpdateProject` never sets the id in its update parameters and compares the requested account with the project's
  id: no update is ever answered OK (`ProjectSafety.UpdatesNeverSucceed`).
- The task's `Run` returns no error when the calculation fails (`Biller.Biller.Run`).
- A project with orders under several accounts ends with the total of the last listed one; that is its whole total
  exactly when none of its leases under the others costs anything (`BillingProjects.ProjectRowIsWholeExactlyWhen`, and
  for the row itself `ProjectRowIsWholeInRange`; `BillingExamples.SplitProjectLosesHalf` is an input).
- The additions to the project and account totals can lose value without an error: exactly when the exact sum has
  digits other than zero after its first 65, or overflows (`Decimals.ValueIsKeptExactlyWhen`). If no partial sum does,
  the rows are exact (`BillingCompletion.AccountRowWhenKept`, `ProjectRowWhenKept`);
  `BillingExamples.ProjectAdditionsLoseValue` is an input on which a run completes with a row that is too small.
  `BillingAccuracy` bounds the loss for every completed run.
- The last nanosecond of every month is not billed (`Leases.ChargesTelescope`).
- The service's `Run` never reaches the code after its last error check (`Scheduler.ReturnsOnlyWithAnError`), and with
  both a sleep and an interval the interval loop is entered only when the service is told to stop.
- An identifier of one character is drawn from the alphabet of the last position, so it can be a digit
  (`Identifiers.GeneratedIdsAreValidExactlyFor`).

## Model

| member | source | states |
|---|---|---|
| Decimals.RoundIsQuietExactlyWhenItFits | svc/compute/billingaccount/biller.go:143-147 | rounding into the context raises no condition for exactly the numbers of at most 65 digits with adjusted exponent in -18..65 (and zeros with exponent in -82..65), and leaves those unchanged |
| Decimals.MulIsExactOrFlagged | svc/compute/billingaccount/biller.go:132-158 | a product of two numbers of at most 17 digits has at most 34 and is never rounded: it is exact, or flagged exactly when it leaves the exponent range |
| Decimals.AddIsQuietExactlyWhenTheSumFits | svc/compute/billingaccount/biller.go:160-175 | an addition raises no condition exactly when the exact sum is representable, and then gives it |
| Decimals.ValueIsKeptExactlyWhen | svc/compute/billingaccount/biller.go:165-169 | an unchecked addition keeps the sum of its operands exactly when that sum is below 10^66 and has only zeros after its first 65 digits; the inexact condition the code ignores tells exactly the other sums |
| Decimals.AccumulateIsExactExactlyWhen | svc/compute/billingaccount/biller.go:165-180 | a running total holds the exact sum after every addition exactly when every exact partial sum is such a value |
| Decimals.RoundError | svc/compute/billingaccount/biller.go:165-180 | rounding moves a value by at most half a unit in the last of 65 places |
| Decimals.RoundKeepsMagnitude | svc/compute/billingaccount/biller.go:165-180 | rounding never takes a value below a power of ten it had reached |
| Decimals.CheckedTotalIsExact | svc/compute/billingaccount/biller.go:160-175 | checked additions give a total exactly when every exact partial sum is representable, and the total is the exact sum |
| Decimals.AccumulateError | svc/compute/billingaccount/biller.go:165-180 | n unchecked additions of non-negative amounts ending below 10^(e+65) units were below it all along and are off by at most n/2 times 10^e units |
| Decimals.NoConditionInRange | svc/compute/billingaccount/biller.go:143-180 | at most 10^k amounts below 10^m with at most e decimal places, m+k+e at most 65: no addition raises a condition and the total is exact |
| Leases.RunsShareWindowsWithinAMonth | svc/compute/billingaccount/biller.go:39-44 | the window of a run contains its start; two runs have the same window exactly when they start in the same month, and windows that do not overlap otherwise |
| Leases.ClippedDurationCountsInstants | svc/compute/billingaccount/biller.go:112-129 | the clipped duration of a returned lease is the number of nanoseconds of the window but its last in which the lease runs; a lease the query leaves out runs in none; it is negative exactly for a lease that ends before it starts |
| Leases.NoInstantBilledTwice | svc/compute/billingaccount/biller.go:43-44 | different months never bill the same nanosecond |
| Leases.ChargesTelescope | svc/compute/billingaccount/biller.go:117-129 | over consecutive months a lease is charged for every nanosecond it runs less one per month end it runs through |
| Leases.ChargeOfAFinishedLease | svc/compute/billingaccount/biller.go:117-129 | a finished lease is charged end minus create, less one nanosecond for each month end E with create < E <= end |
| LeaseTable.ListLeasesForTimeRangeByOrderId | svc/compute/store/lease.sql.go:257-298 | returns every lease of the order that overlaps the window as often as it is stored, and no other, in table order |
| LeaseTable.ListOrdersByBillingAccountId | svc/compute/store/lease.sql.go:300-334 | returns exactly the stored orders of the account |
| LeaseTable.EndSetsTheEnd | svc/compute/store/lease.sql.go:114-120 | ending a lease gives every row of that id the current time as end, and changes nothing else of it and no other row |
| LeaseTable.CreateAddsOneOpenLease | svc/compute/store/lease.sql.go:12-27 | creating a lease adds one open row that starts now with its order and price, or nothing if the id is taken |
| LeaseTable.EventsKeepLeasesDistinct | svc/compute/store/lease.sql.go:12-27 | lease ids stay unique over any sequence of events |
| LeaseTable.LateEndKeepsCharge | svc/compute/store/lease.sql.go:114-120 | ending a lease after a window leaves the window's charge alone exactly for leases created after it, open, or already running to its last nanosecond |
| LeaseTable.LateEventsKeepCharges | svc/compute/store/lease.sql.go:12-27 | any sequence of such late endings and of creations after the window leaves every order's charges in it alone |
| Biller.DemandSpend.constructor | svc/compute/billingaccount/biller.go:72-76 | an account starts with a zero total and no projects |
| Biller.DemandSpend.OpenOrder | svc/compute/billingaccount/biller.go:85-95 | an order starts at zero, its project at its total so far or zero; every other order and project keeps its totals |
| Biller.DemandSpend.AddLease | svc/compute/billingaccount/biller.go:160-180 | a spend is added to order and project, and to the account unless the order's addition raised a condition, which is reported; every other order and project keeps its totals |
| Biller.BillLease | svc/compute/billingaccount/biller.go:110-181 | one lease: clip, multiply, add, or stop with the right error |
| Biller.BillLeases | svc/compute/billingaccount/biller.go:110-181 | the lease loop leaves the checked total in the order and the running totals in project and account, or the error of the first failure |
| Biller.Biller.CreateOrderSpend | svc/compute/store/spend.sql.go:55-93 | succeeds exactly when the database does not refuse the write, the column can hold the amount and a new row finds its uid free; then the order's row has the stored amount, keeps or gets its uid, and every other row of the three tables is as before; on failure nothing changes, and valid tables stay valid |
| Biller.Biller.CreateProjectSpend | svc/compute/store/spend.sql.go:96-134 | the same for the project's row |
| Biller.Biller.CreateBillingAccountSpend | svc/compute/store/spend.sql.go:14-52 | the same for the account's row |
| Biller.Biller.BillOneOrder | svc/compute/billingaccount/biller.go:84-202 | the body of the order loop does what the run description says for an order, in tables, totals and error |
| Biller.Biller.BillOneAccount | svc/compute/billingaccount/biller.go:71-213 | the body of the account loop does what the run description says for an account |
| Biller.Biller.CalculateDemandSpend | svc/compute/billingaccount/biller.go:70-215 | the three nested loops leave exactly the tables and error of the run description, for any number of accounts, orders and leases |
| Biller.Biller.Run | svc/compute/billingaccount/biller.go:31-49 | bills the month the current time is in; reports only whether the accounts could be listed, an error of the calculation is dropped |
| SpendStore.UpsertKeepsTableValid | svc/compute/store/spend.sql.go:14-26 | an upsert keeps one row per key and one key per uid, sets the amount of its key, and keeps the uid of existing rows |
| SpendStore.ConstantUidAllowsOneRow | svc/compute/store/migrations/0001_initial.up.sql:47-78 | with one uid a table has at most one row, and an upsert works exactly if there is no other row |
| SpendStore.StoredFormError | svc/compute/store/migrations/0003_spend_decimal.up.sql:1-5 | a stored amount is within half a unit of 10^-18, and below 10^47 |
| BillingRows.CompletedRunOverlaysItsRows | svc/compute/billingaccount/biller.go:70-214 | a completed run lays rows that depend only on what it read over the amounts that were there |
| BillingRows.OrdersEffect | svc/compute/billingaccount/biller.go:84-202 | after some orders, memory holds the running totals of the account and of each project, and the tables the rows of these orders |
| BillingLaws.OrderRow | svc/compute/billingaccount/biller.go:183-188 | after a completed run an order's row is the stored exact sum of its leases' spends |
| BillingLaws.ProjectRow | svc/compute/billingaccount/biller.go:193-198 | after a completed run a project's row is its total in the last listed account that has orders of it |
| BillingLaws.AccountRow | svc/compute/billingaccount/biller.go:204-209 | after a completed run an account's row is the stored total over its orders |
| BillingLaws.ProjectRowOfAccount | svc/compute/billingaccount/biller.go:85-91 | within an account a project's row, written after each of its orders, ends as the total over all of them |
| BillingLaws.LastListedAccountDecides | svc/compute/store/billing_account.sql.go:88-92 | of the accounts that write a row, the one listed last decides it |
| BillingAccuracy.OrderRowAccuracy | svc/compute/billingaccount/biller.go:160-188 | an order's row is within half a unit of 10^-18 of the exact sum, whatever the prices |
| BillingAccuracy.ProjectRowAccuracy | svc/compute/billingaccount/biller.go:165-198 | a project's row is within (n+1)/2 units of 10^-18 of the exact sum of its n lease spends, with no bound on the amounts |
| BillingAccuracy.AccountRowAccuracy | svc/compute/billingaccount/biller.go:176-209 | the same for an account's row |
| BillingAccuracy.SoundAccountNonNegative | svc/compute/billingaccount/biller.go:117-158 | well-formed leases with non-negative prices give only representable, non-negative spends |
| BillingConservation.ExactConservation | svc/compute/billingaccount/biller.go:160-180 | the exact total of an account is the sum over its orders and the sum over its projects |
| BillingProducts.LeasesAreBilledExactlyWhen | svc/compute/billingaccount/biller.go:143-175 | an order's leases are billed exactly when every product of hours and price and every partial sum is representable, and then for exactly these products |
| BillingProducts.LeasesStopExactlyAt | svc/compute/billingaccount/biller.go:153-175 | the multiplication stops an order exactly at the first product that is not representable, the addition at the first such sum |
| BillingProducts.OrderIsBilledExactlyWhen | svc/compute/billingaccount/biller.go:132-175 | for printed doubles that are not negative: exactly when every product lies in the exponent range and the exact total is representable |
| BillingConservation.OrdersInRangeAreBilled | svc/compute/billingaccount/biller.go:143-175 | if the products of all listed leases fit, are non-negative, below 10^m, with at most e places, at most 10^k of them, m+k+e at most 65, every order is billed, for exactly its products |
| BillingConservation.ConservationInMemory | svc/compute/billingaccount/biller.go:143-180 | then no addition to any total raises a condition, and account = sum of projects = sum of orders = exact sum of the products, in memory |
| BillingSkew.StoredSkew | svc/compute/store/migrations/0003_spend_decimal.up.sql:1-5 | after a completed run, whatever the amounts, an account's row and the rows of its projects added up differ by at most (2n+p+1)/2 units of 10^-18 for n leases in p projects |
| BillingSkew.StoredSkewInRange | svc/compute/store/migrations/0003_spend_decimal.up.sql:1-5 | in range by at most (p+1)/2 units |
| BillingSkew.StoredProjectSkew | svc/compute/store/migrations/0003_spend_decimal.up.sql:1-5 | a project's row and the rows of its q orders added up differ by at most (n+q+1)/2 units, whatever the amounts |
| BillingSkew.StoredProjectSkewInRange | svc/compute/store/migrations/0003_spend_decimal.up.sql:1-5 | in range by at most (q+1)/2 units |
| BillingCompletion.RunInRangeCompletes | svc/compute/billingaccount/biller.go:70-214 | in range, with m+k at most 47, fresh uids, no refused write and nothing listed twice, a run completes |
| BillingCompletion.DatabaseListsOnce | svc/compute/store/lease.sql.go:300-334 | over stored orders with distinct ids and distinct accounts nothing is listed twice |
| BillingCompletion.RunOverDatabase | svc/compute/billingaccount/biller.go:70-214 | so a run over the database in range completes, and every account's row is the sum of hours times price over all leases of all its orders, rounded once |
| BillingCompletion.AccountRowInRange | svc/compute/billingaccount/biller.go:176-209 | in range the row of an account is the stored form of the exact sum of its products |
| BillingCompletion.ProjectRowInRange | svc/compute/billingaccount/biller.go:165-198 | in range the row of a project is that of the exact sum under the last listed account that has orders of it |
| BillingCompletion.AccountRowWhenKept | svc/compute/billingaccount/biller.go:176-209 | whatever the amounts, the row of an account is the exact sum, rounded once, if every partial sum is a value the context keeps |
| BillingCompletion.ProjectRowWhenKept | svc/compute/billingaccount/biller.go:165-198 | the same for a project under the last listed account that has orders of it |
| BillingDatabase.OrderRowIsTheSum | svc/compute/billingaccount/biller.go:97-188 | a completed run over the database stores for every order the sum of hours times price over its overlapping leases, rounded once |
| BillingDatabase.AccountRowIsTheSum | svc/compute/billingaccount/biller.go:70-212 | and for every account the sum over all leases of all its orders, within (n+1)/2 units |
| BillingDatabase.WindowIsFinal | svc/compute/billingaccount/biller.go:117-127 | once only late lease events follow, a run gives the same tables and outcome as before them |
| BillingReruns.LastRunDecides | svc/compute/store/spend.sql.go:14-26 | after any sequence of completed runs, each row of the last run in a window has that run's amount |
| BillingReruns.OtherWindowsUntouched | svc/compute/store/spend.sql.go:55-67 | runs in other windows never touch a window's rows |
| BillingReruns.RepeatedRunChangesNothing | svc/compute/store/spend.sql.go:96-108 | a completed run repeated on the same data, with any uids, completes and changes nothing, uids included |
| BillingOutcome.RunCompletesExactlyWhen | svc/compute/billingaccount/biller.go:70-214 | a run completes exactly when every order's leases are billed and every row is not refused, not too large and finds its uid free, and then leaves exactly the tables written down row by row, uids included |
| BillingOutcome.RunFailsExactlyWhen | svc/compute/billingaccount/biller.go:70-214 | it fails exactly when something of this is wrong in some account after some of its orders |
| BillingOutcome.RunStopsOnce | svc/compute/billingaccount/biller.go:70-214 | in one place only: the first |
| BillingOutcome.StoppedRunExactly | svc/compute/billingaccount/biller.go:80-212 | a run that stops there ends with exactly the error of that place and exactly the tables written until then |
| BillingFailure.FailedRunLeavesAPrefix | svc/compute/billingaccount/biller.go:80-212 | so the accounts before have all their rows, this account's orders before have their own and their projects' totals so far, the order it stopped in has its own row exactly if only its project's failed, and nothing else changes |
| BillingFailure.ProjectRowAfterFailure | svc/compute/billingaccount/biller.go:189-201 | in the failing account a project's row is the total over the orders already written |
| BillingFailure.UnreachedRowsAfterFailure | svc/compute/billingaccount/biller.go:153-175 | account rows of the failing and later accounts, and order rows the run did not reach, are as before |
| BillingFailure.RunStopsOnALeaseExactlyWhen | svc/compute/billingaccount/biller.go:153-175 | a run stops on a multiplication exactly when it reaches a lease whose product is not representable, on an addition exactly when it reaches one that makes its order's exact sum so |
| BillingUids.ConstantUidCompletesExactlyWithOneRow | svc/compute/billingaccount/biller.go:183-209 | as written, a run completes exactly when nothing else is wrong and old and new rows are at most one per table |
| BillingUids.TwoAccountsNeverComplete | svc/compute/billingaccount/biller.go:204-212 | as written, a run over two accounts never completes |
| BillingUids.FreshUidsCompleteExactlyWhenOk | svc/compute/store/migrations/0001_initial.up.sql:47-78 | with a new uid for each write it makes, a run that bills nothing twice completes exactly when nothing else is wrong |
| BillingProjects.ProjectRowIsTheSum | svc/compute/billingaccount/biller.go:72-91 | if all stored orders of a project belong to one account, its row is within (n+1)/2 units of the sum over all of them |
| BillingProjects.ProjectRowIsWholeExactlyWhen | svc/compute/billingaccount/biller.go:72-91 | in general its row is within (n+1)/2 units of the sum under the account listed last, which is the sum over all its stored orders exactly when no lease of it under another account costs anything |
| BillingProjects.ProjectRowIsWholeInRange | svc/compute/billingaccount/biller.go:193-198 | in range with at most 18 decimal places the row is that whole sum exactly under this condition; with more places it is the nearest to it under the condition, and less once the other leases cost 10^-18 |
| BillingExamples.SplitProjectLosesHalf | svc/compute/billingaccount/biller.go:72-91 | stored orders and leases, one project under two accounts, on which a run completes and the project's row is 1 where its leases cost 2 |
| BillingExamples.ProjectAdditionsLoseValue | svc/compute/billingaccount/biller.go:165-169 | stored leases of 10^46 and twice 1.4 times 10^-18 in one project, on which a run completes and the project's row is 10^-18 less than the stored form of the exact sum |
| RowOrder.CheckedTotalIgnoresOrder | svc/compute/store/lease.sql.go:257-264 | the unspecified order of returned leases changes neither an order's total nor whether it fails |
| ProjectAnswers.RequestIsOpened | svc/compute/project/project.go:33-43 | a request begins exactly when its arguments are acceptable, else it is answered InvalidArgument |
| ProjectAnswers.CreationIsAnswered | svc/compute/project/project.go:46-78 | from every reachable state in which no other transaction has written the id, a creation is answered NotFound, PermissionDenied or AlreadyExists exactly on these inputs, else OK, with the project there under the account |
| ProjectAnswers.DeletionIsAnswered | svc/compute/project/project.go:83-115 | a deletion while no other transaction holds the project is answered NoRows if it is absent, Internal if it has spend rows, else OK with the project gone |
| ProjectAnswers.UpdateIsAnswered | svc/compute/project/project.go:179-225 | an update is answered NoRows, NotFound or PermissionDenied exactly on these inputs, the account being looked at unless it equals the project's id, else Internal; nothing changes |
| ProjectAnswers.AccountCreationIsAnswered | svc/compute/billingaccount/billingaccount.go:29-61 | the creation of an account whose id is free is answered OK, with the account there and not enabled |
| ProjectAnswers.AccountsExactlyWhenCreated | svc/compute/billingaccount/billingaccount.go:29-61 | in every run the accounts are exactly those whose creation was answered OK |
| ProjectAnswers.EnabledExactlyWhen | svc/compute/store/migrations/0001_initial.up.sql:2-8 | in every run an account is there and enabled exactly when it was enabled at some time |
| ProjectAnswers.CreatedUnderEnabledAccounts | svc/compute/project/project.go:52-55 | no creation is answered OK under an account that was never enabled |
| ProjectAnswers.BilledExactlyWhen | svc/compute/store/migrations/0001_initial.up.sql:69-76 | a project has spend rows exactly when some were written, and is then never deleted |
| ProjectAnswers.AccountsAndProjectsGoOn | svc/compute/store/billing_account.sql.go:31-36 | an account that is there can be enabled, and a project that no transaction holds can get spend rows |
| ProjectAnswers.StaleRequestsFail | svc/compute/project/project.go:99-109 | a deletion or update waiting for a row that is then deleted never takes the row that replaced it |
| ProjectSafety.StepKeepsInvariant | svc/compute/project/project.go:46-115 | every statement of every transaction keeps the invariant of database, transactions and log |
| ProjectSafety.RunsAreSerializable | svc/compute/project/project.go:46-78 | in every interleaving the committed projects are those of carrying out the successful requests one by one in commit order, each legal there |
| ProjectSafety.OneCreateBetweenDeletes | svc/compute/store/project.sql.go:10-30 | between two successful creations of an id it was successfully deleted |
| ProjectSafety.OkAnswersCommitted | svc/compute/project/project.go:73-78 | an OK answer to a creation or deletion is backed by exactly one commit of it |
| ProjectSafety.LosersChangeNothing | svc/compute/project/project.go:57-77 | in every run, for a request not answered OK no commit is logged and none of its statements leaves the committed data changed |
| ProjectSafety.RaceLoser | svc/compute/project/project.go:57-71 | in every run, a creation still open when another of the same id is committed, and not followed by its removal, ends in AlreadyExists, Internal or a refusal of its account, never OK, commits nothing, and the winner's project stays with its account |
| ProjectSafety.RefusalsAreTruthful | svc/compute/billingaccount/billingaccount.go:126-138 | AlreadyExists is answered only for an id that was created, PermissionDenied only for an account that exists |
| ProjectSafety.ProjectsHaveEnabledAccounts | svc/compute/project/project.go:52-71 | in every reachable state every project's account exists and is enabled for demand |
| ProjectSafety.AccountsStayEnabled | svc/compute/store/billing_account.sql.go:31-36 | an account seen enabled stays enabled |
| ProjectSafety.UpdatesNeverSucceed | svc/compute/project/project.go:199-215 | no update of a project is ever answered OK |
| ProjectSafety.UpdatesPassEnabledAccounts | svc/compute/project/project.go:199-211 | both branches of an update pass on an account that exists and is enabled |
| ProjectSafety.NoDeadlock | svc/compute/project/project.go:179-215 | an unfinished transaction can go on or waits for transactions every one of which can go on and waits for none |
| Scheduler.ExecutionsNeverOverlap | lib/service/background.go:106-131 | executions never overlap, across both loops, and the previous context is cancelled before the next is made |
| Scheduler.ExecutionsAreSpaced | lib/service/background.go:82-123 | in the sleep loop the first execution starts at once and each other at least the sleep after the end of the one before it |
| Scheduler.SleepLoopStartsAreBounded | lib/service/background.go:82-123 | by time T there are at most T/sleep + 1 starts |
| Scheduler.NextExecutionStarts | lib/service/background.go:106-131 | from every reachable wait the service can go on to the next start, exactly after the sleep, at once for a tick in the channel, or at the next tick |
| Scheduler.ToldExactlyWhen | lib/service/background.go:67-74 | the service is told to stop exactly by a signal or the end of the metrics server |
| Scheduler.StopsWhenTold | lib/service/background.go:78-131 | told to stop while waiting it can return at once with the matching error from its last loop; from a sleep loop before an interval loop it executes the task once more |
| Scheduler.ReturnsOnlyFromTheLastLoop | lib/service/background.go:78-95 | no service returns without an execution in each of its loops |
| Scheduler.ReturnsOnlyWithAnError | lib/service/background.go:76-102 | the service returns only unconfigured, on a signal or on the end of the metrics server, and always with the matching error |
| Scheduler.IntervalLoopAfterSleepLoopOnlyWhenStopping | lib/service/background.go:78-91 | with both a sleep and an interval the interval loop starts only when stopping |
| Scheduler.EveryTaskHasItsDeadline | lib/service/background.go:78-110 | every execution has the configured timeout, the interval without one, or ten minutes once the sleep loop set it |
| Scheduler.TaskErrorsDoNotMatter | lib/service/background.go:112-118 | courses of events that differ only in which executions fail are all runs, and lead to the same state |
| Scheduler.EveryRunIsAccounted | lib/service/background.go:84-91 | starts, the tick in the channel and dropped ticks add up to the ticks fired plus one, in every run |
| Scheduler.StartsAreBounded | lib/service/background.go:106-131 | by time T there are at most T/interval + 1 starts |
| Scheduler.PromptRunsStartOncePerInterval | lib/service/background_test.go:37-78 | and exactly that many if every task finishes within the interval and nothing stops the service |
| Scheduler.OneCatchUpRun | lib/service/background.go:104-131 | a task that runs through m ticks is followed by exactly one catch-up start, the other m-1 ticks are lost |
| Identifiers.ValidResourceIDExactlyWhen | lib/resource/resource.go:9-13 | a resource identifier has 1 to 63 characters, all of a-z, 0-9 and hyphen, the first a letter, the last no hyphen |
| Identifiers.ValidNanoIDExactlyWhen | lib/resource/resource.go:15-19 | a nano identifier the same with twelve |
| Identifiers.ResourceIdLanguage | lib/resource/resource.go:9-13 | the resource recogniser accepts exactly the language of its regular expression |
| Identifiers.NanoIdLanguage | lib/resource/resource.go:15-19 | the nano recogniser accepts exactly the language of its regular expression |
| Identifiers.AlphabetsAreClasses | lib/resource/resource.go:22-24 | the generator's three alphabets have exactly the characters of the classes in the regular expressions |
| Identifiers.NewNanoID | lib/resource/resource.go:28-47 | fills every position from its alphabet by the little-endian word there; size 12 gives nano identifiers, sizes 2 to 63 resource identifiers |
| Identifiers.GeneratedExactlyTheLanguage | lib/resource/resource.go:28-47 | the strings generated from some 48 bytes are exactly the language of the nano expression |
| Identifiers.GeneratedIdsAreValidExactlyFor | lib/resource/resource.go:35-44 | generated identifiers are valid resource identifiers for all bytes exactly for sizes 2 to 63, hence pass the check of the account table |
| Identifiers.SymbolIsNearlyUniform | lib/resource/resource.go:43-44 | at every position each character of the alphabet is given by 2^32 / length of the 32-bit words, rounded down or up, and no other character by any |
| Identifiers.DecodeEncode | lib/resource/resource.go:43 | every 32-bit value has four bytes that decode to it |
| Identifiers.EncodeDecode | lib/resource/resource.go:43 | and only those four |

## Left out

- Prices that are NaN or infinite: a price is a finite decimal. Negative prices are modelled; the accuracy of project and account rows is stated for non-negative ones.
- The printing of doubles and `Duration.Hours`: the number of hours is an arbitrary function with the contract stated above; that whole hours are exact is not needed by any theorem.
- The conversion in `lib/conv`: for finite doubles it never fails, so it has no error of its own here.
- The limits of the decimal library beyond the context (exponents of 100000) and the sign of zero: no number here comes near the one, and no amount depends on the other.
- BillingDatabase.WindowIsFinal: compares two runs that start from the same tables and answer lease queries from one state each; lease events during a run are not modelled.
- Table order: the queries return rows in table order, and ending a lease keeps its place; `RowOrder.CheckedTotalIgnoresOrder` says why the order does not matter for orders.
- Calendars: months are strictly increasing boundaries in nanoseconds, or functions from an instant to the first of its month and of the month after; the current time is a parameter, and dates, time zones and daylight saving are not modelled.
- The statements of a project request that fail for a reason of their own (a lost connection, a failed commit) end it with Internal; a commit whose outcome is unknown is not modelled.
- ProjectTransactions.Apply: the read-only handlers, listing and spend history are left out; they change nothing.
- The project handlers and the service loop are state machines over values rather than methods on objects: each action is one statement or event, and the order of the statements within a handler is in the stages.
- Scheduler.PromptRunsStartOncePerInterval: the processing time of the loop itself is taken to be zero; in `StartsAreBounded` any delay is allowed.
- gRPC, HTTP and metrics servers, configuration, logging and the connection to the database.
- The entropy source: the generator takes its bytes as a parameter, and its error return is left out.
