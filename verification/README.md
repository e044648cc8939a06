# Verified models of the trading platform's core services

A Dafny model of the parts of the platform where correctness is hard to see from reading one
function: the order matching engine, escrow, cron scheduling, rate limiting, the CSV and PDF report
writers, the least-squares forecast, the wallet login challenge with its clean-up, and the metric
roll-ups. `dafny verify dfyconfig.toml` checks everything.

Each area has a specification in functions and datatypes, the service itself as methods that change
fields, arrays of orders or maps the way the source does, proved against those functions, and the
theorems about the specification.

| Area | Modules |
|---|---|
| Matching engine | `StableSort`, `OrderBook`, `BestExecution`, `Trading` (the state machine), `BookInvariant`, `Placement`, `Restart`, `Runs`, `Conservation`, `AssetConservation`, `OrderHistory` (what becomes of an order), `TradingEngine` (the class) |
| Escrow | `Stroops` (the amount codec), `Escrow` (the status machine), `EscrowLaws` (its rules, told on the fields), `EscrowAccounts` (all escrows), `EscrowService` (the class, with amounts as text), `ConcurrentRelease` (interleavings with a conditional write), `ConcurrentApproval` (interleaved signatures) |
| Scheduled reports | `Calendar`, `MonthNumbers`, `Cron` (matching and search), `CronSyntax` (the parser), `CronText` (written expressions), `Frequency` (direct next run) |
| Rate limiting | `SlidingWindow`, `FixedWindow`, `RateLimiter` (the class) |
| Report writers | `Csv`, `Latin1` (the encoding), `PdfText`, `Pdf`, `PdfReader` (an independent reader), `PdfRoundTrip` |
| Forecast | `MonthLabels`, `Forecast` |
| Wallet login | `Challenge`, `CredentialStore` (the class), `ConcurrentLogin` (interleavings) |
| Metrics | `Metrics` |
| Shared | `Options`, `Text` |

## Conventions

Quantities and prices of orders and escrow amounts are integers in units of 1e-7, the scale of the
`numeric(30,7)` columns; forecast and metric values are exact reals. Times are milliseconds of a
local time without daylight saving. Order and challenge ids are numbered in order of creation. An
order price of 0 is a missing one, since the code tests `!price` on a number. Random values
(nonces, the salt of a sorted-set member), clocks and signature checks are parameters, and so are the
square root, of which only its defining property is used, and the distance of local from universal
time. Escrow theorems assume `requiredSignatures` of at least 1; requests are validated to ask for 2 to 10,
and the examples have two signatories or more. A text is a sequence of Unicode characters; where its
length or its bytes matter, a character beyond the basic plane counts as two code units.

## Where the code differs from what one would expect

- A maker that is filled in part keeps status OPEN; only the taker becomes PARTIALLY_FILLED
  (`src/modules/trading-engine/trading-engine.service.ts:206-212`).
- The sell order is always recorded as maker and the buy order as taker, whichever came first
  (`src/modules/trading-engine/trading-engine.service.ts:168-172`).
- Neither the sign of an order's quantity nor the fate of an unfilled market order is checked: both
  can end up resting on the book. `BookInvariant.PlaceKeepsInvIffSound` says when that happens.
- The key of a book joins asset code and issuer with a dash, and a code may contain dashes: `X-Y` without
  issuer shares a book with `X` issued by `Y`, and their orders fill each other
  (`AssetConservation.FairPerAssetIff`).
- A restart reads the open orders without an order of listing, so time priority can be lost at equal
  prices (`Restart.ReopenArrivesIff`); everything else survives it (`Runs.RunKeepsInv`).
- An administrator's forced release skips the status check and can leave a final status
  (`Escrow.FinalChangesIff`); a time lock can settle a negative amount (`Escrow.ReleasedGrowsIff`).
- The conditional write of a release compares the released amount and not the status, so a release that
  was let in before a dispute still pays out after the dispute was resolved as a refund
  (`ConcurrentRelease.OverridesFinalIff`).
- An approval reads the signatories before its transaction. Two that read before either signs leave the
  escrow waiting for signatures it has (`ConcurrentApproval.MissedIff`), and the late save of an approval
  can make a refunded escrow approved (`ConcurrentApproval.OverridesFinalIff`) or set the released amount
  back to nothing, so that more is paid out than the escrow holds (`ConcurrentApproval.ForgetsReleasesIff`).
- A user listed twice as signatory passes the bound on the number of signatures; the unique index of the
  signatories then fails the creation (`src/modules/escrow/entities/escrow-signatory.entity.ts:7`).
- `setMonth` carries the day of the month along, so the monthly and quarterly next run is a month late
  when the target month is too short (`Frequency.ClosedFormAgreesIff`).
- Classifying a cron expression looks at the sets only, so `0 0 1-31 * 0` counts as weekly although it
  runs every day (`Frequency.ClassifiedRunsIff`).
- Whatever follows a second slash or dash of a cron entry is ignored, and `5/2` means 5 only
  (`src/modules/analytics/services/scheduled-report.service.ts:47-77`).
- Refused requests count against the sliding window too. Clearing a key does not clear the counters of
  the fixed strategy (`src/modules/rate-limiting/rate-limit.service.ts:306-313`).
- A last CSV record of one empty cell cannot be told from a final line break; a table without columns
  cannot be told from one with an empty column.
- A carriage return in a title or column name is shown as a line feed by a PDF reader.
- The PDF text is escaped before it is encoded as Latin-1, which keeps the low byte of a code unit: a title
  of U+0128 becomes an opening parenthesis that nothing closes, and U+0141 is shown as an A
  (`PdfRoundTrip.TableIsShownIff`).
- With exactly two values the standard error is 0 divided by 0.
- A forecast label is read in universal time, but months are added in local time: west of Greenwich
  March follows March (`MonthLabels.LabelIsRightIff`).
- Verification accepts a challenge in the millisecond it expires, the clean-up deletes it in that
  millisecond (`Challenge.CleanupIsUnobservableIff`); and the clean-up relies on later challenges
  expiring later (`Challenge.CleanupChangesNothingIff`).
- A metric that names an asset or user looks for a row that names the same, while the unique index allows
  one row for each metric, granularity and start: another asset's record is refused there, although the
  buckets of other granularities may take it (`Metrics.CoarseIsSumOfFineIff`). The issuer is not looked at.

## Model

| member | source | states |
|---|---|---|
| OrderBook.MatchTradesTheMinimum | src/modules/trading-engine/trading-engine.service.ts:139-216 | against any opposite side sorted by price, whatever the order within a price, a match trades exactly the smaller of what the taker asks for and the total remaining quantity of all makers its limit accepts |
| OrderBook.MatchRecords | src/modules/trading-engine/trading-engine.service.ts:139-216 | the makers filled are the front of the book, all but possibly the last one completely; each trade names both orders and their users, the sell side as maker and the buy side as taker, at the price of the resting order, which satisfies the taker; a taker filled in part is partially filled, a maker keeps its status; and what the taker still needs nobody at the front of the book offers at its price |
| OrderBook.MatchFillsTaker | src/modules/trading-engine/trading-engine.service.ts:190-216 | the taker carries the traded quantity and its status, and the loop stops only when nothing is needed, nothing is left or the price no longer crosses |
| BestExecution.MatchIsOptimal | src/modules/trading-engine/trading-engine.service.ts:139-216 | on any side sorted by price, among all ways of filling the taker within its limit the loop fills the most, and none that fills as much has a better total price |
| StableSort.SortIsStable | src/modules/trading-engine/trading-engine.service.ts:75-83 | the sort orders by price and keeps the order of equal prices |
| StableSort.PushThenSort | src/modules/trading-engine/trading-engine.service.ts:72-83 | on a side that is sorted, push and sort puts the new order behind the orders of its price and changes nothing else |
| StableSort.SortGivesIff | src/modules/trading-engine/trading-engine.service.ts:72-83 | a sort yields a given sorted side exactly when both list every price level in the same order |
| BookInvariant.PlaceKeepsInv | src/modules/trading-engine/trading-engine.service.ts:232-340 | placing a sound order keeps the whole invariant: both sides sorted by price, live orders only, no id twice, best bid below best ask, table and books in agreement, fills equal to trades |
| BookInvariant.PlaceKeepsArrival | src/modules/trading-engine/trading-engine.service.ts:72-83 | placing an order keeps equal prices in order of arrival |
| BookInvariant.PlaceKeepsInvIffSound | src/modules/trading-engine/trading-engine.service.ts:238-267 | an order that passes validation keeps the invariant exactly when its quantity is positive and, for a market order, the other side can fill it |
| BookInvariant.UnsoundOrders | src/modules/trading-engine/trading-engine.service.ts:238-267 | two concrete orders the validation accepts that break the invariant on an empty engine |
| BookInvariant.CloseSetKeepsInv | src/modules/trading-engine/trading-engine.service.ts:354-376 | taking any set of orders off the books with a final status keeps the invariant |
| BookInvariant.CloseIsCloseSet | src/modules/trading-engine/trading-engine.service.ts:87-97 | filtering one side by id removes the order from all books, since no order stands in two places |
| Runs.StepKeepsInv | src/modules/trading-engine/trading-engine.service.ts:47-500 | each create, cancel, clean-up and restart keeps the invariant |
| Runs.RunKeepsInv | src/modules/trading-engine/trading-engine.service.ts:47-500 | every run of sound steps from an empty engine, with restarts that list the open orders in any order, keeps the invariant |
| Runs.RunKeepsArrival | src/modules/trading-engine/trading-engine.service.ts:47-500 | it also keeps equal prices in order of arrival as long as restarts list them so |
| Runs.RunKeepsPlaced | src/modules/trading-engine/trading-engine.service.ts:47-500 | every run on any input, sound or not, leaves each stored order in at most one place on the books |
| Placement.CloseOneMore | src/modules/trading-engine/trading-engine.service.ts:483-498 | closing expired orders one by one, in any order, closes the set of them |
| Runs.BooksHoldTheOpenOrders | src/modules/trading-engine/trading-engine.service.ts:319-326 | after every sound run, restarts included, an order rests on its side exactly when it is stored as open or partially filled, with the same contents |
| Runs.RestartRebuilds | src/modules/trading-engine/trading-engine.service.ts:47-59 | however the database lists the open orders, a restart rebuilds the same orders, fills and price ladder |
| Restart.ReopenKeepsInv | src/modules/trading-engine/trading-engine.service.ts:47-59 | a restart keeps the whole invariant, however the open orders are listed |
| Restart.ReopenPlaces | src/modules/trading-engine/trading-engine.service.ts:47-59 | whatever the table holds, a restart puts each open order in one place |
| Restart.ReopenArrivesIff | src/modules/trading-engine/trading-engine.service.ts:47-59 | after a restart equal prices stand in order of arrival, on all books, exactly when the listing has them so |
| Runs.RestartKeepsTimePriorityIff | src/modules/trading-engine/trading-engine.service.ts:47-59 | after a run that has kept time priority a restart keeps the exact book exactly when the listing has every price level in arrival order |
| Runs.ReverseListingLosesPriority | src/modules/trading-engine/trading-engine.service.ts:47-59 | two sells of one price, listed in reverse, stand in reverse on the rebuilt book |
| Conservation.FillsMatchTrades | src/modules/trading-engine/trading-engine.service.ts:168-195 | an order's filled quantity is the sum of the trades naming it on its side, and every trade price lies within both parties' limits |
| Conservation.TradesRecordBothOrders | src/modules/trading-engine/trading-engine.service.ts:168-186 | in every sound run each trade records the user stored with its sell order as maker user and the one stored with its buy order as taker user, the price of the order that was there first, and the asset of the one that came later |
| Conservation.BuysEqualSells | src/modules/trading-engine/trading-engine.service.ts:168-195 | per book key, buy orders have filled in total what sell orders have filled, which is what was traded |
| AssetConservation.FairPerAssetIff | src/modules/trading-engine/trading-engine.service.ts:61-63 | for a set of assets, every sound run over it balances buys and sells of each asset and gives each trade the asset of both its orders, exactly when no two of them share a book key |
| AssetConservation.SharedKeyMixes | src/modules/trading-engine/trading-engine.service.ts:168-195 | for any two assets of equal key, a sound run that fills a buy of one by a sell of the other |
| AssetConservation.SharedKey | src/modules/trading-engine/trading-engine.service.ts:61-63 | two different assets of equal key |
| AssetConservation.NoDashTellsApart | src/modules/trading-engine/trading-engine.service.ts:61-63 | codes without a dash never share a key, whatever the issuers |
| OrderHistory.TakenIff | src/modules/trading-engine/trading-engine.service.ts:238-267 | an order is taken exactly when it is a market order or has a price, and has not expired before now; it is then stored under the next number with all that was asked for, and otherwise nothing changes |
| OrderHistory.StoredAsAsked | src/modules/trading-engine/trading-engine.service.ts:252-267 | in every sound run each stored order has the user and the terms of the request that created it |
| OrderHistory.CancelIff | src/modules/trading-engine/trading-engine.service.ts:342-376 | a cancel request does something exactly when the order is stored, open and owned by the user; it then marks this order cancelled, takes it off the books and changes nothing else |
| OrderHistory.CancelledByItsUser | src/modules/trading-engine/trading-engine.service.ts:342-376 | in every sound run a cancelled order was open when its own user cancelled it |
| OrderHistory.CleanupExpires | src/modules/trading-engine/trading-engine.service.ts:475-500 | a clean-up makes exactly the open orders expired whose time of expiry is earlier than now and takes exactly these off the books; no other row and no trade changes, and no overdue order rests afterwards |
| OrderHistory.ExpiredWhenOverdue | src/modules/trading-engine/trading-engine.service.ts:475-500 | in every sound run an expired order was open and overdue when a clean-up of the run found it |
| TradingEngine.TradingEngineService.AddToOrderBook | src/modules/trading-engine/trading-engine.service.ts:65-85 | on shared order objects: the new books are the state machine's books with the order pushed and sorted |
| TradingEngine.TradingEngineService.MatchLoop | src/modules/trading-engine/trading-engine.service.ts:139-216 | the mutating loop on order objects leaves the rows, trades and filled makers that the specification function gives |
| TradingEngine.TradingEngineService.MatchOrder | src/modules/trading-engine/trading-engine.service.ts:125-230 | matching a new order changes its row, the opposite side and nothing else, as specified |
| TradingEngine.TradingEngineService.CreateOrder | src/modules/trading-engine/trading-engine.service.ts:232-340 | validation, first save, match, transaction and resting together are one step of the state machine, on every input |
| TradingEngine.TradingEngineService.CancelOrder | src/modules/trading-engine/trading-engine.service.ts:342-376 | cancel refuses and acts as the state machine does |
| TradingEngine.TradingEngineService.CleanupExpiredOrders | src/modules/trading-engine/trading-engine.service.ts:475-500 | the clean-up loop is one step of the state machine whatever order the rows are listed in |
| TradingEngine.TradingEngineService.InitializeOrderBooks | src/modules/trading-engine/trading-engine.service.ts:47-59 | the start-up loop is the restart step of the state machine, and when the open orders are listed it leaves a service that all operations can work on |
| Stroops.ReadsWritten | src/modules/escrow/escrow.service.ts:111-128 | writing and reading back gives every integer, the ones between -1 and 0 units included |
| Stroops.WritesReadIffCanonical | src/modules/escrow/escrow.service.ts:111-128 | reading and writing back gives a text again exactly when it is a canonical numeral of seven decimals |
| Stroops.ReadsTruncated | src/modules/escrow/escrow.service.ts:111-119 | every decimal numeral is read as its value in units of 1e-7, cut off toward zero |
| Escrow.CreatedIsGood | src/modules/escrow/escrow.service.ts:132-270 | a created escrow has no approvals and nothing released, one row for each listed signatory and no fewer than signatures required, and its creator had less than fifty pending |
| EscrowLaws.CreatedIff | src/modules/escrow/escrow.service.ts:132-270 | an escrow is created exactly when enough different signatories are named, what its kind needs is there, the milestones miss the amount by one unit at most and the creator has fewer than fifty pending; it then says what was asked for, pending, unsigned and unmarked |
| Escrow.ThresholdIsReachable | src/modules/escrow/escrow.service.ts:350-415 | a created escrow, once funded, is approved by its signatories in the order listed, exactly from the required number of them on |
| EscrowAccounts.AtMostFiftyPending | src/modules/escrow/escrow.service.ts:171-182 | over every run of creations and operations on any escrows no creator has more than fifty pending ones |
| Escrow.RunKeepsInv | src/modules/escrow/escrow.service.ts:350-1066 | over every run without forced releases: FUNDED means too few approvals, APPROVED and PARTIALLY_RELEASED enough, PARTIALLY_RELEASED a released amount strictly between 0 and the total |
| Escrow.RunIsAllOrNothing | src/modules/escrow/escrow.service.ts:538-860 | without disputes and forced releases money is refunded whole or released whole |
| Escrow.RunStaysWithinAmount | src/modules/escrow/escrow.service.ts:589-614 | no run, forced releases included, releases more than the escrow holds |
| Escrow.ReleasedGrowsIff | src/modules/escrow/escrow.service.ts:350-1066 | after every run from creation, forced releases included, an operation lowers the released amount exactly when a due time lock settles a funded escrow of negative amount |
| Escrow.RunKeepsAccounted | src/modules/escrow/escrow.service.ts:350-1066 | after every such run the status tells the released amount: none while pending, funded or approved, strictly between 0 and the amount when partially released |
| Escrow.NegativeAmountShrinks | src/modules/escrow/escrow.service.ts:821-860 | a concrete escrow of negative amount whose released amount goes down |
| Escrow.FinalChangesIff | src/modules/escrow/escrow.service.ts:546-614 | a settled, refunded or cancelled escrow changes exactly by a forced release of a payable quantity |
| Escrow.FinalIsForever | src/modules/escrow/escrow.service.ts:350-1066 | final statuses are never left in runs without forced releases |
| Escrow.ForcedReleaseAfterRefund | src/modules/escrow/escrow.service.ts:551-557 | a concrete forced release that leaves a refunded escrow partially released |
| EscrowLaws.ReleasesTheRest | src/modules/escrow/escrow.service.ts:538-614 | a release without an amount that passes status, signatures and milestone pays all that is left, as long as something is, and settles the escrow; otherwise nothing changes |
| EscrowLaws.ReleasesTheAmount | src/modules/escrow/escrow.service.ts:538-614 | a release of an amount pays exactly that amount when it lies between one unit and what is left, and settles exactly when nothing is left after it; otherwise nothing changes |
| EscrowLaws.PermittedIff | src/modules/escrow/escrow.service.ts:350-1066 | each operation is done exactly when the fields permit it, a time-out exactly from the deadline on in the three open statuses, and leads to its status; a refused one changes nothing |
| EscrowLaws.StepIsAuthorised | src/modules/escrow/escrow.service.ts:350-1066 | no operation changes the terms of an escrow; signatures change only by their own signatory, marks only by signatories and administrators, the released amount only by releases and the time lock, and every status has its cause |
| EscrowLaws.StatusWasBroughtAbout | src/modules/escrow/escrow.service.ts:350-1066 | in every run the status is the first one or some operation of the run has brought it about: a refund the creator, an administrator, the deadline or a dispute |
| EscrowLaws.RunKeepsTerms | src/modules/escrow/escrow.service.ts:350-1066 | creator, kind, amount, deadlines, required number, signatories and milestones never change in any run |
| EscrowLaws.SignedInPerson | src/modules/escrow/escrow.service.ts:350-480 | in every run from creation whoever counts as having signed has signed in person and not withdrawn since |
| EscrowLaws.MarkedInTheRun | src/modules/escrow/escrow.service.ts:878-930 | in every run from creation a marked milestone was marked by a signatory or an administrator, and no administrator has unset it since |
| EscrowLaws.PaidWhenMarked | src/modules/escrow/escrow.service.ts:576-587 | in every run from creation, forced releases included, a release that names a milestone is paid only after it was marked and while it is not unset |
| EscrowService.EscrowAccount.ApproveEscrow | src/modules/escrow/escrow.service.ts:350-415 | updates the signature and the status in place as the specified operation, with its refusals in their order, and keeps the invariant |
| EscrowService.EscrowAccount.RevokeApproval | src/modules/escrow/escrow.service.ts:453-480 | withdraws a signature while the escrow is funded, as specified, and keeps the invariant |
| EscrowService.EscrowAccount.FundEscrow | src/modules/escrow/escrow.service.ts:495-516 | funds a pending escrow for its creator only, and keeps the invariant |
| EscrowService.TextsCompareAsAmounts | src/modules/escrow/escrow.service.ts:617-644 | two stored amounts are the same text exactly when they are the same amount, so the condition on the text is one on amounts |
| EscrowService.EscrowAccount.UpdateWhere | src/modules/escrow/escrow.service.ts:617-644 | the conditional update writes amount and status exactly when the stored text is the expected one |
| EscrowService.EscrowAccount.ReleaseFunds | src/modules/escrow/escrow.service.ts:538-649 | reads the stored texts, computes in units, writes the text of the new amount under the condition: together the specified release, forced or not, which alone never meets a conflict |
| EscrowService.EscrowAccount.RefundEscrow | src/modules/escrow/escrow.service.ts:702-736 | refunds an escrow whose stored amounts show that nothing was released, and keeps the invariant |
| EscrowService.EscrowAccount.HandleTimeout | src/modules/escrow/escrow.service.ts:757-800 | expires and refunds after the deadline, and keeps the invariant |
| EscrowService.EscrowAccount.HandleTimeLockSettlement | src/modules/escrow/escrow.service.ts:821-856 | settles the whole amount after the time lock by copying its text, and keeps the invariant |
| EscrowService.EscrowAccount.UpdateMilestone | src/modules/escrow/escrow.service.ts:878-930 | marks a milestone, or unmarks it for an administrator, and keeps the invariant |
| EscrowService.EscrowAccount.RaiseDispute | src/modules/escrow/escrow.service.ts:954-988 | a party disputes a running escrow, which keeps the invariant |
| EscrowService.EscrowAccount.SettleDispute | src/modules/escrow/escrow.service.ts:1008-1028 | ends a dispute in a refund or a settlement without touching the released amount, and keeps the invariant |
| EscrowService.EscrowAccount.CancelEscrow | src/modules/escrow/escrow.service.ts:1046-1062 | cancels a pending escrow, and keeps the invariant |
| ConcurrentRelease.CommitsIffFresh | src/modules/escrow/escrow.service.ts:617-644 | a conditional write takes effect exactly when no release was committed since its client read the row |
| ConcurrentRelease.AloneIsRelease | src/modules/escrow/escrow.service.ts:538-649 | reading, computing and writing with nobody in between is the release as one step, forced or not |
| ConcurrentRelease.RunKeepsWorld | src/modules/escrow/escrow.service.ts:589-649 | what every interleaving of reading, computing and writing clients with all other operations keeps |
| ConcurrentRelease.ReleasesAreExact | src/modules/escrow/escrow.service.ts:589-649 | in every interleaving, other operations included, the stored amount is the sum of the commits, grew with each, never passed the total, and only the last commit can settle |
| ConcurrentRelease.NothingAfterSettlement | src/modules/escrow/escrow.service.ts:589-649 | once the total is released no client can commit |
| ConcurrentRelease.OverridesFinalIff | src/modules/escrow/escrow.service.ts:589-649 | in every interleaving, a regular write changes a final escrow exactly when a dispute was resolved and no release was committed since its client read the row |
| ConcurrentRelease.FinalIsForeverBesideClients | src/modules/escrow/escrow.service.ts:350-1066 | in interleavings without forced releases and resolved disputes no final status is ever left |
| ConcurrentRelease.RefundIsOverridden | src/modules/escrow/escrow.service.ts:617-644 | a concrete interleaving in which a refunded escrow pays out |
| ConcurrentApproval.AloneIsApprove | src/modules/escrow/escrow.service.ts:350-446 | an approval that nothing interferes with does what the operation does in one step |
| ConcurrentApproval.MissedIff | src/modules/escrow/escrow.service.ts:372-431 | in a run of any interleaving a funded escrow comes to hold enough signatures exactly when some client completes them without having read enough of them |
| ConcurrentApproval.BlindMeansOverlap | src/modules/escrow/escrow.service.ts:372-403 | that takes a signature saved between the reading and the signing of the client |
| ConcurrentApproval.AllHaveSigned | src/modules/escrow/escrow.service.ts:350-480 | when all have signed such an escrow, nobody can approve any more, and revoking and signing again approves it |
| ConcurrentApproval.BothSignBlindly | src/modules/escrow/escrow.service.ts:350-446 | two signatories of an escrow that needs two read before either signs, and it stays funded |
| ConcurrentApproval.OverridesFinalIff | src/modules/escrow/escrow.service.ts:357-415 | in every interleaving a signature changes a final status exactly when its client read the escrow as funded and finds the threshold met |
| ConcurrentApproval.RefundIsApproved | src/modules/escrow/escrow.service.ts:357-415 | a concrete run in which a refunded escrow becomes approved |
| ConcurrentApproval.ForgetsReleasesIff | src/modules/escrow/escrow.service.ts:357-415 | in every interleaving a signature changes the released amount exactly when, besides, something was released since: the amount goes back to nothing |
| ConcurrentApproval.ReleasedTwice | src/modules/escrow/escrow.service.ts:357-415 | a concrete run in which 4 and then 10 are released of an escrow of 10 |
| Cron.FindNextRun | src/modules/analytics/services/scheduled-report.service.ts:155-167 | the minute-by-minute loop computes the search function |
| Cron.NextRunIsLeast | src/modules/analytics/services/scheduled-report.service.ts:155-167 | the result is the least whole minute later than the start that matches, inside 366 days |
| Cron.NoNextRunIff | src/modules/analytics/services/scheduled-report.service.ts:160-167 | the search throws exactly when no minute of the window matches |
| Cron.NeverThrowsIff | src/modules/analytics/services/scheduled-report.service.ts:126-167 | a schedule has a next run from every start exactly when it restricts the weekday or names a date that every year has |
| CronText.ParsedHasNextRun | src/modules/analytics/services/scheduled-report.service.ts:126-167 | a parsed expression that restricts the weekday or admits a day up to 28 has a next run from every start |
| CronSyntax.ParseCronField | src/modules/analytics/services/scheduled-report.service.ts:34-90 | the nested loops over entries and steps compute the denoted set, or the first error |
| CronSyntax.UnionOfEntries | src/modules/analytics/services/scheduled-report.service.ts:40-85 | a field denotes exactly the union of its entries' ranges at their steps, and fails exactly when an entry does |
| CronSyntax.ParseCronExpression | src/modules/analytics/services/scheduled-report.service.ts:93-124 | five fields, parsed in order, with weekday 7 turned into 0 |
| CronText.FieldInBounds | src/modules/analytics/services/scheduled-report.service.ts:79-89 | a parsed field is non-empty and in bounds, complete when unrestricted, and the error for an empty selection never comes up |
| CronText.ParsedIsWellFormed | src/modules/analytics/services/scheduled-report.service.ts:93-124 | every parsed schedule is well-formed |
| CronText.FieldOfItems | src/modules/analytics/services/scheduled-report.service.ts:34-90 | a written list of items is read as the union of what the items mean, and refused exactly when one of them is |
| CronText.ReadsWritten | src/modules/analytics/services/scheduled-report.service.ts:93-124 | every written expression is read as its meaning, and fails exactly when an item has none |
| Frequency.CronIsCanonical | src/modules/analytics/services/scheduled-report.service.ts:533-546 | the expression of each frequency is read as the schedule it stands for |
| Frequency.SetsEqual | src/modules/analytics/services/scheduled-report.service.ts:169-179 | comparing sizes and looking up each value decides whether two sets are equal |
| Frequency.FrequencyRoundTrip | src/modules/analytics/services/scheduled-report.service.ts:631-680 | a frequency is recovered from its own expression |
| Frequency.ClassifiedRunsIff | src/modules/analytics/services/scheduled-report.service.ts:631-680 | an expression classified as a frequency matches the same instants, unless both its day fields are restricted by spelling a full range out |
| Frequency.SpelledOutIsNotWeekly | src/modules/analytics/services/scheduled-report.service.ts:631-680 | `0 0 1-31 * 0` is classified as weekly and runs on a Monday |
| Frequency.CalculateNextRun | src/modules/analytics/services/scheduled-report.service.ts:560-600 | the mutated date ends where the closed form says, a month late when the day spills over; custom expressions go to the search |
| Frequency.SearchFindsTarget | src/modules/analytics/services/scheduled-report.service.ts:155-167 | the search on a frequency's schedule finds midnight of the next day, Sunday, first of the month or first of the quarter |
| Frequency.ClosedFormAgreesIff | src/modules/analytics/services/scheduled-report.service.ts:560-600 | the direct computation equals the search for daily and weekly from every start, and for monthly and quarterly exactly when the start's day exists in the target month |
| Frequency.JanuaryLastSkipsFebruary | src/modules/analytics/services/scheduled-report.service.ts:560-600 | from 31 January 2023 the search finds 1 February, the direct computation 1 March |
| SlidingWindow.StoreIsExact | src/modules/rate-limiting/rate-limit.service.ts:325-338 | whatever was checked, read or cleared before, the store knows exactly the requests in the window: reads and key expiry never change an answer |
| SlidingWindow.AllowedIffFewChecks | src/modules/rate-limiting/rate-limit.service.ts:325-343 | a check is allowed exactly when fewer than the maximum came before it in its window, refused ones included |
| SlidingWindow.AtMostMax | src/modules/rate-limiting/rate-limit.service.ts:319-361 | over every run any window holds at most the maximum of allowed requests |
| FixedWindow.CountIsExact | src/modules/rate-limiting/rate-limit.service.ts:374-381 | while an aligned window lasts its counter is the number of checks in it |
| FixedWindow.FirstMaxPass | src/modules/rate-limiting/rate-limit.service.ts:374-383 | of the checks in an aligned window exactly the first ones up to the maximum are allowed |
| FixedWindow.AtMostTwiceMax | src/modules/rate-limiting/rate-limit.service.ts:367-394 | any window holds at most twice the maximum of allowed requests |
| FixedWindow.TwiceMaxIsReached | src/modules/rate-limiting/rate-limit.service.ts:367-394 | twice the maximum is reached, for every maximum and every window of two milliseconds or more |
| RateLimiter.RateLimitService.CountRequest | src/modules/rate-limiting/rate-limit.service.ts:325-338 | the pipeline drops what has left the window, adds the request and counts, as specified |
| RateLimiter.RateLimitService.AnswerFrom | src/modules/rate-limiting/rate-limit.service.ts:340-361 | the later read of the oldest entry, whatever has expired meanwhile, decides the reset only; the verdict is that of the count |
| RateLimiter.RateLimitService.SlidingWindowCheck | src/modules/rate-limiting/rate-limit.service.ts:319-361 | both together: the sorted set is updated as specified, the answer goes by its size, and the reset is the first whole second at which an entry has left the window |
| RateLimiter.RateLimitService.FixedWindowCheck | src/modules/rate-limiting/rate-limit.service.ts:367-394 | updates the counter as specified, and the reset is the first whole second of the next window |
| RateLimiter.RateLimitService.GetUsage | src/modules/rate-limiting/rate-limit.service.ts:263-301 | reports the requests in the window and removes the others |
| RateLimiter.RateLimitService.ClearKey | src/modules/rate-limiting/rate-limit.service.ts:306-313 | forgets the sorted set of the key and leaves all counters |
| Csv.ToCsv | src/modules/audit/reporting/report-writers.ts:24-30 | the loop writes the specified text |
| Csv.RecoveredIff | src/modules/audit/reporting/report-writers.ts:15-30 | a reader for section 2 of RFC 4180 gets header and rows back exactly when no record is without cells and the last of several is not one empty cell |
| Csv.LastEmptyCellIsLost | src/modules/audit/reporting/report-writers.ts:15-30 | one column and one row of an empty cell are read as the column alone |
| Csv.TwoColumnsAreRecovered | src/modules/audit/reporting/report-writers.ts:15-30 | tables of two or more columns are recovered for every cell text |
| PdfText.ReadsEscaped | src/modules/audit/reporting/report-writers.ts:32-35 | a reader of PDF literal strings reads an escaped text back, with line breaks as line feeds, and stops where it ends |
| PdfText.EscapeRoundTripIff | src/modules/audit/reporting/report-writers.ts:32-35 | the text itself comes back exactly when it has no carriage return |
| Latin1.EncodeIff | src/modules/audit/reporting/report-writers.ts:122 | the encoding consists of bytes, and exactly the texts of characters below 256 are their own encoding |
| Latin1.SurrogatePair | src/modules/audit/reporting/report-writers.ts:122 | a character beyond the basic plane is encoded as the low bytes of its two UTF-16 code units |
| PdfText.EncodedRoundTripIff | src/modules/audit/reporting/report-writers.ts:32-122 | escaped and encoded, a text is read back exactly when it is Latin-1 and has no carriage return |
| PdfText.BeyondLatin1 | src/modules/audit/reporting/report-writers.ts:32-122 | two characters beyond Latin-1: one opens a parenthesis that nothing closes, the other is shown as a letter |
| Pdf.PagesHoldLines | src/modules/audit/reporting/report-writers.ts:62-66 | the pages concatenate to the lines, hold 1 to 50 lines each, and all but the last are full |
| Pdf.Paginate | src/modules/audit/reporting/report-writers.ts:62-69 | the chunking loop computes these pages |
| Pdf.WriteObjects | src/modules/audit/reporting/report-writers.ts:71-103 | object numbering is as specified, and each object text is encoded to the specified bytes, with the length of its stream in bytes |
| Pdf.WriteBody | src/modules/audit/reporting/report-writers.ts:105-113 | the recorded offsets are the numbers of bytes before each object |
| Pdf.ToPdf | src/modules/audit/reporting/report-writers.ts:43-123 | the whole writer, encoding at the end, produces the specified bytes |
| Pdf.LinesOfTable | src/modules/audit/reporting/report-writers.ts:50-60 | the lines of a table are its title, its date, an empty one, the column names, as many dashes up to 120, and one for each row, its cells joined by bars with their words one space apart |
| Pdf.SqueezeJoinsWords | src/modules/audit/reporting/report-writers.ts:59 | replacing runs of white space by a space is splitting at them and joining by spaces |
| PdfRoundTrip.FindsObject | src/modules/audit/reporting/report-writers.ts:108-119 | following the cross-reference line of object n leads to the text "n 0 obj" and then the object |
| PdfRoundTrip.FindsStart | src/modules/audit/reporting/report-writers.ts:115-120 | the number after startxref is where the xref keyword stands |
| PdfRoundTrip.TwentyBytesIff | src/modules/audit/reporting/report-writers.ts:116-119 | all cross-reference lines have twenty bytes exactly when the last offset has at most ten digits |
| PdfRoundTrip.FindsStream | src/modules/audit/reporting/report-writers.ts:95-102 | /Length leads to the end of a stream, and the stream sets its text in font F1 at 9 points, lines 12 points apart, from (40, 800) on, whatever the lines are |
| PdfRoundTrip.ReadsEntry | src/modules/audit/reporting/report-writers.ts:91-93 | every page names object 2 as its parent, 595 by 842 points as its size, object 3 as its font F1, and its own contents |
| PdfRoundTrip.ReadsStreamIff | src/modules/audit/reporting/report-writers.ts:95-102 | the stream shows exactly the lines of its page when, and only when, they are Latin-1 |
| PdfRoundTrip.FindsPages | src/modules/audit/reporting/report-writers.ts:78-85 | the trailer leads to the catalog, the catalog to the page tree, and the tree names exactly the page objects |
| PdfRoundTrip.FindsEveryPage | src/modules/audit/reporting/report-writers.ts:43-123 | a reader that follows only the references of the encoded file comes to every page in order, for every text, so all offsets, lengths and references are right; each page belongs to the tree that names it, is set in the typeface its font reference leads to, and has line k at (40, 800 - 12 k) |
| PdfRoundTrip.OnPaperIff | src/modules/audit/reporting/report-writers.ts:45-48 | with this layout all lines lie on the paper, none over another, exactly when a page has at most 67 of them |
| PdfRoundTrip.ReadsFileIff | src/modules/audit/reporting/report-writers.ts:43-123 | it gets exactly the lines of the pages when, and only when, all lines are Latin-1 |
| PdfRoundTrip.TableIsShownIff | src/modules/audit/reporting/report-writers.ts:43-123 | the file of a table shows the lines of the table in order, all of them on the paper, exactly when title, time and column names are Latin-1, and the cells but for their white space |
| PdfRoundTrip.RowsAreShownExactly | src/modules/audit/reporting/report-writers.ts:58-60 | rows are free of line breaks and come back exactly as put together |
| Forecast.DenominatorIsPositive | src/modules/analytics/services/financial-reporting.service.ts:614-624 | the regression denominator is n²(n²-1)/12 and positive for two values or more |
| Forecast.NormalEquations | src/modules/analytics/services/financial-reporting.service.ts:624-629 | the residuals sum to zero and are orthogonal to the index |
| Forecast.LeastSquares | src/modules/analytics/services/financial-reporting.service.ts:624-630 | every line has at least the squared error of this one, and no other line has the same |
| Forecast.LineIsRecovered | src/modules/analytics/services/financial-reporting.service.ts:624-625 | values on a line give that line back |
| Forecast.TwoValuesHaveNoError | src/modules/analytics/services/financial-reporting.service.ts:630-631 | with two values the standard error is a quotient of two zeros |
| Forecast.BoundsOfRows | src/modules/analytics/services/financial-reporting.service.ts:626-680 | for three values or more each row has its bounds around its forecast; the squared distance of the bounds times n - 2 is (2 · 1.96)² times the sum of (actual - forecast)² over the history, and for the month i ahead that times 1 + 1/n + (n + i - 1 - mean)² / Σ (index - mean)² |
| Forecast.ForecastsAreALine | src/modules/analytics/services/financial-reporting.service.ts:624-680 | the history rows carry the data and the rows ahead no value; all forecasts lie on one line, no line comes closer to the data, and with two values there are no bounds |
| Forecast.HistoryRows | src/modules/analytics/services/financial-reporting.service.ts:635-645 | the first loop pushes one row for each value, with line and bounds as specified |
| Forecast.FutureRows | src/modules/analytics/services/financial-reporting.service.ts:651-680 | the second loop pushes one row for each month, with its label, line and bounds as specified |
| Forecast.LinearForecast | src/modules/analytics/services/financial-reporting.service.ts:606-684 | no rows for less than two values; otherwise those of both loops in order, or the error of an unreadable last label when a month is to be forecast; for three values or more all bounds of the returned rows are as in `BoundsOfRows` |
| Forecast.FutureLabelIff | src/modules/analytics/services/financial-reporting.service.ts:648-661 | up to year 9999 the label of a forecast month names the month it stands for exactly when local time is not behind universal time, or the month before it is no longer than the month before the last label |
| MonthLabels.LabelIsRightIff | src/modules/analytics/services/financial-reporting.service.ts:648-661 | reading a month in universal time, adding months in local time and showing the result in universal time again gives the right month exactly in these cases |
| MonthLabels.MarchTwice | src/modules/analytics/services/financial-reporting.service.ts:648-661 | five hours west of Greenwich the month after March 2023 is March |
| Forecast.BandGrows | src/modules/analytics/services/financial-reporting.service.ts:635-680 | for three values or more with nonzero error, the bounds of every forecast month lie farther apart than around the history, and the farther ahead the farther |
| Challenge.VerifyIff | src/modules/auth/stellar-auth.service.ts:64-145 | a login succeeds exactly when it signs the one unused challenge of its key that is newest, in time, and it consumes that one |
| Challenge.SameLoginsIff | src/modules/auth/credential-cleanup.service.ts:113-119 | forgetting any rows leaves the logins of a key from a time on alone exactly when the same challenge is left to consume, or none is on either side |
| Challenge.CleanupChangesNothingIff | src/modules/auth/credential-cleanup.service.ts:113-119 | a clean-up changes no login of a key from that millisecond, or the next one, on exactly when the newest unused challenge outlives it, or no unused one does and the newest is out of time too |
| Challenge.SameOutcome | src/modules/auth/credential-cleanup.service.ts:113-119 | where later challenges expire later no clean-up changes any login from the next millisecond on |
| Challenge.OutcomeWithCleanups | src/modules/auth/credential-cleanup.service.ts:91-120 | after every timely run a login is answered as without clean-ups, unless what it would consume expires in this millisecond and a clean-up has run in it |
| Challenge.CleanupIsUnobservableIff | src/modules/auth/credential-cleanup.service.ts:91-120 | after every timely run the clean-ups are invisible to all logins of a key at a time exactly when none has run in this millisecond or the newest unused challenge does not expire in it |
| Challenge.SameInstantIsObservable | src/modules/auth/credential-cleanup.service.ts:117-118 | a clean-up in the millisecond of expiry removes what a login in that millisecond accepts |
| Challenge.UnalignedIsObservable | src/modules/auth/stellar-auth.service.ts:47-55 | when a challenge is stored before one that was drawn earlier, a clean-up between their expiries lets a superseded nonce in |
| CredentialStore.CredentialService.CreateChallenge | src/modules/auth/stellar-auth.service.ts:42-58 | stores a challenge that lives two minutes and is a newest one of its key, without deleting any |
| CredentialStore.CredentialService.VerifyChallenge | src/modules/auth/stellar-auth.service.ts:64-145 | answers as the specification with its rejections in their order; a rejection changes nothing |
| CredentialStore.CredentialService.CleanupExpiredCredentials | src/modules/auth/credential-cleanup.service.ts:91-126 | deletes exactly the stale rows of the three tables and reports how many |
| CredentialStore.RefreshSurvivesIff | src/modules/auth/credential-cleanup.service.ts:91-105 | a refresh token survives any clean-ups, unchanged, exactly when all of them ran before it expired and, if it was revoked at a known time, less than seven days after that |
| CredentialStore.ResetSurvivesIff | src/modules/auth/credential-cleanup.service.ts:106-112 | a reset token survives exactly when it is unused and all clean-ups ran before it expired |
| ConcurrentLogin.RunKeepsInv | src/modules/auth/stellar-auth.service.ts:64-145 | what every interleaving of the queries of any number of logins, creations and clean-ups keeps, without the row lock |
| ConcurrentLogin.NonceSucceedsOnce | src/modules/auth/stellar-auth.service.ts:85-143 | in every interleaving each nonce succeeds at most once, correctly signed for its key and unexpired at its second look |
| ConcurrentLogin.SuccessesHappened | src/modules/auth/stellar-auth.service.ts:92-118 | at actual earlier steps of its login, each success was unused and in time, and a newest unused challenge of its key |
| ConcurrentLogin.OnlySuccessChanges | src/modules/auth/stellar-auth.service.ts:64-145 | in every interleaving a login that has not succeeded leaves no trace: table, successes and other logins are as if none of its steps had been taken |
| ConcurrentLogin.AloneIsVerify | src/modules/auth/stellar-auth.service.ts:90-144 | a login nothing interferes with does what the login as one transaction does |
| Metrics.AggregationTimestamp | src/modules/analytics/services/metrics-collector.service.ts:150-178 | the mutated date ends at the start of the minute, hour, day, Sunday week or month |
| Metrics.StartIsLatestBoundary | src/modules/analytics/services/metrics-collector.service.ts:150-178 | the start of a bucket is the last full minute, full hour, midnight, Sunday or first of a month there was |
| Metrics.MetricsCollector.RecordMetric | src/modules/analytics/services/metrics-collector.service.ts:28-57 | one record upserts five buckets and fails exactly when one of them refuses it, the others holding it all the same; buckets that agreed with the records before agree after it |
| Metrics.BucketIsTotal | src/modules/analytics/services/metrics-collector.service.ts:59-127 | a bucket of a summed metric exists when a record belongs to it, names the asset and user of the first one, and holds the sum of exactly those records that name the same or none |
| Metrics.SummedIff | src/modules/analytics/services/metrics-collector.service.ts:120-127 | these six metrics add up |
| Metrics.HoldsAllIff | src/modules/analytics/services/metrics-collector.service.ts:70-109 | throughout a run a bucket holds the sum of all that belongs to it exactly when none of these records names another asset or user than the first |
| Metrics.LatestAndEarliest | src/modules/analytics/services/metrics-collector.service.ts:131-137 | an error rate, like a metric without a rule, is the last one its bucket took in, active users the first |
| Metrics.LatencyIsWeightedSum | src/modules/analytics/services/metrics-collector.service.ts:128-130 | a latency or settlement time is the weighted sum of the records its bucket took in: the last one weighs a half, each one before it half of what is left, and the first all that is left |
| Metrics.WeightsAddUpToOne | src/modules/analytics/services/metrics-collector.service.ts:128-130 | these weights add up to one |
| Metrics.HalvesStayBetween | src/modules/analytics/services/metrics-collector.service.ts:128-130 | a latency or settlement time, halved with every record, stays between the least and the greatest value recorded for its bucket |
| Metrics.CoarseIsSumOfFineIff | src/modules/analytics/services/metrics-collector.service.ts:59-178 | throughout a run every hour bucket is the sum of its minutes, every day of its hours, every week and month of its days, exactly when each record is taken in by both buckets or by neither |
| Metrics.CoarseIsSumOfFine | src/modules/analytics/services/metrics-collector.service.ts:59-178 | so it is for records that all name the same asset and user, or none |
| Metrics.OtherAssetIsMissing | src/modules/analytics/services/metrics-collector.service.ts:70-109 | of two records of one coarse bucket and two fine ones, the second naming another asset or user is missing in the coarse one |
| Metrics.HourMissesAMinute | src/modules/analytics/services/metrics-collector.service.ts:70-109 | two trades of different assets a minute apart, whose hour is not the sum of its minutes |

## Left out

- Interleaved `createOrder` calls, failed transactions and floating-point rounding in the matching engine: each operation is one step with a successful transaction, and quantities are exact.
- Resting market orders: the comparator subtracts prices that are not there, and its result on them is that of a price of 0 here; the book theorems stop where such an order would rest.
- Audit rows, notifications, events, logging and latency checks of all services, trade settlement on the blockchain, and the queries that only list rows.
- Stroops.ReadsTruncated: hexadecimal, octal and binary literals, which `BigInt` also accepts, are refused in the model.
- EscrowService.EscrowAccount.ReleaseFunds: the requested quantity is the text that `toFixed` gives; how it formats a floating-point number is not modelled.
- Requests of an escrow that overlap are not part of the class in `EscrowService`; releases and approvals that do are the subject of `ConcurrentRelease` and `ConcurrentApproval`, overlapping requests of the other kinds are left out.
- ConcurrentApproval.OverridesFinalIff: saving an entity writes every column back as it was read, which is how TypeORM saves; TypeORM is not part of this model.
- Escrow.RunKeepsInv: leaves out forced releases, because they skip the status check; what they can do is stated by `Escrow.FinalChangesIff`.
- Escrow.RunIsAllOrNothing: leaves out disputes, because resolving one does not touch the released amount.
- ConcurrentRelease.ReleasesAreExact: every operation but a release is one step beside the clients; what a late approval does to the released amount is stated by `ConcurrentApproval.ForgetsReleasesIff`.
- EscrowAccounts.AtMostFiftyPending: the count and the insertion of a creation are one step; two creations at the same time can both pass the count.
- The percentage shown with the approvals of an escrow.
- Daylight saving and time zones, except the fixed distance from universal time in the month labels of the forecast.
- `getStartDateForFrequency` and the delivery of scheduled reports.
- RateLimiter.RateLimitService.SlidingWindowCheck: other requests for the same key between the pipeline and the later read are not modelled; expiry between them is.
- SlidingWindow.AtMostMax: assumes that clocks do not run backwards, that two checks never draw the same member, and that the key is not cleared in between.
- Unlimited tiers, the choice of a limit by tier and endpoint, and the storage of rate limits; the window is at least one millisecond, as the validated configuration has it.
- Unpaired surrogates, which a JavaScript string can hold, are not part of a text here.
- PdfRoundTrip.TableIsShownIff: how far a line reaches to the right depends on the widths of the letters, which are not part of this model.
- PdfRoundTrip.FindsEveryPage: assumes that the offsets have at most ten digits; `PdfRoundTrip.TwentyBytesIff` says that the table is well-formed in no other case.
- Forecast.LinearForecast: a label that is not a year of four digits and a month is an invalid date, although some engines read further texts.
- Challenge.OutcomeWithCleanups: compares success and the challenge consumed; a deleted challenge is rejected with another message.
- ConcurrentLogin.NonceSucceedsOnce: assumes that a nonce is never drawn twice.
- The timer of the clean-up, the use of refresh and reset tokens, and key and signature formats.
- Metrics.BucketIsTotal: records come one at a time, without the removal of old metrics.
- Controllers, modules, guards, data transfer objects, migrations and configuration.
