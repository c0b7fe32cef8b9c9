# Price Watch: what its durable state machines guarantee

Price Watch observes product prices, keeps every observation in a SQLite log, announces price
drops, sends one discount digest a day, watches the health of its own cycles, and can move its
state to another installation. Its interesting guarantees are about histories: nothing is
announced twice, deleting old observations changes no decision, nobody waits forever in the
refresh queue, an interrupted import can be repeated. This project models those parts in Dafny and
proves the guarantees for every run.

## How it is built

Every component has two forms. Specification functions say what a call does to a value (a log, a
catalog, a table, a state). Where the program changes something step by step, a class with the same
fields has methods with the program's own loops, early returns and compensation, each proved equal
to its function. The theorems are about the functions, over any sequence of calls. Each operation also has
a characterization that speaks of rows, products and answers only, and leaves none of its branches open.

What the program cannot decide is an input: what a channel, a provider or a promotion source
answers, at which point an exception is raised, when a process stops, what time it is. Every writing
call on the database ends in one of three ways: it returns, it raises before its commit, or it raises
after its commit while the connection is closed (`Domain.Ending`). In the last case what it wrote stays.

- `Domain`, `Sequences`, `Ordering`: values, and the few laws of filters and stable sorts the rest needs.
- `ObservationLog`, `StateStores`: the append-only log, the JSON document, the dictionary, and their codec.
- `Retention`, `RetentionInvisible`, `Maintenance`: deleting old observations, why nobody can tell, and the
  operator's command.
- `DecimalContext`, `AmountText`: 28-digit half-even rounding, on numbers and digit by digit, and the text
  that keys an alert.
- `PriceRules`, `Synchronization`: reference prices, the price-drop rule, and the synchronization cycle.
- `DailyDigest`, `DigestRefresh`, `DigestWorkflow`: choosing, rechecking and delivering the digest.
- `RunningSystem`: cycles, digests, queries and retentions in any order over one database.
- `CatalogStore`, `CatalogMonitoring`: the refresh queue and its bounded wait; `IsoTime`: why ordering the
  stored texts orders the times.
- `OperationalHealth`, `OperationalMonitoring`, `WeeklySummary`, `WeeklyMonitoring`: health, its
  notifications, and the weekly report; `OperationalFaults`, `WeeklyFaults`: the same when saving raises.
- `Migration`: export and crash-retryable import.

## Main results

1. **Pruning is invisible.** Interleave synchronization cycles, digests, loads, listings and
   retentions in any way: dropping all the retentions changes no observation, no message, no
   reservation and no baseline (`RetentionInvisible.PruningIsInvisible`). The reason is exact: a
   deletion is invisible to latest rows and first maxima if and only if it spares the protected rows.
2. **Bounded wait.** With an advancing clock, a reference with k others ahead of it is refreshed
   within (k + D) / B + 1 cycles that record their attempt, as every completed cycle does, D being the references
   discovered meanwhile (`CatalogMonitoring.BoundedWait`). With a standing clock one entry can starve
   (`StandingClockStarves`).
3. **The delivered log is known exactly.** Which health notification each run delivers is said
   without mentioning the stored state, as an equivalence (`OperationalMonitoring.DeliveriesAreExactly`). With a
   store that raises, the same equivalence holds over the runs that took effect
   (`OperationalFaults.DeliveriesUnderFaults`).
4. **One digest a day, new since the last one.** Over runs in which cycles, queries and retentions happen
   between the digests and anything may raise: no date is accepted twice, and the reserved dates are the accepted
   ones and those the run lost, which are never accepted (`RunningSystem.EveryDateOnce`). Each digest marks as new
   exactly what the latest earlier one did not list (`RunningSystem.NewSinceLastDigest`), throughout a run if and only
   if no digest call leaves a staged baseline behind (`RunningSystem.RunsStaySound`). Which calls lose a date or leave
   a baseline is known exactly, before the call (`DigestWorkflow.SettledUnlessSomethingIsLeft`).
5. **No price is announced twice**, over the same runs, whatever raises (`RunningSystem.NoPriceAnnouncedTwice`); and
   the reserved alerts are the delivered ones and those the run stranded, which are never delivered
   (`RunningSystem.RunsDeliverEachIdentityOnce`, `RunningSystem.StrandedAlertIsNeverDelivered`).
6. **Weekly buckets are their weeks**, and each week is reported at most once, exactly when due
   (`WeeklyMonitoring.EachWeekReportedOnce`); at most once also when dates go back and anything raises
   (`WeeklyFaults.EachWeekReportedAtMostOnce`).
7. **An import may be stopped after any filesystem step, any number of times**
   (`Migration.InterruptedImportFinishesAlike`), and an export arrives exactly under stated limits
   (`Migration.ExportedStateArrives`).
8. **No observation is lost** by maintenance commands, whatever fails, and the rows gone are counted
   (`Maintenance.NoObservationIsLost`).
9. **Discounts obey their laws in the program's own context** of 28 digits, rounded half to even: they lie
   between 0 and 100 for every reference (`PriceRules.DiscountIsPercentage`), never grow with the price, and
   grow with the reference for prices of equally many places (`PriceRules.DiscountGrowsForPrices`). For other
   amounts they can fall (`PriceRules.DiscountCanFall`), by no more than rounding (`PriceRules.DiscountHardlyFalls`).

## Where the code and its documentation differ

- The docstring at `applications/operational_monitoring/workflow.py:17` speaks of retrying pending
  notifications. A pending failure is retried while the checks keep failing; a pending recovery is dropped
  by the next check of either kind (`core/operations/engine.py:131-141`, `157-161`). The model
  follows the code: `RecoveryIsNotRetried`.
- `docs/adr/ADR-0028-managed-home-assistant-distribution.md` calls a repeated import an
  idempotent no-op. It is one only until the first monitoring cycle changes the state file; after that the
  same import is refused (`RepeatedWhileStateUnchanged`).
- The state's constructor invariant (`core/operations/model.py:143-188`) is not inductive: it allows a
  recovery time without a last check, and the next check then raises (`ValidityIsNotInductive`). No such
  state is reachable (`StateIsFunctionOfHistory`).
- A promotion error raised after the baseline was staged releases the reservation but not the baseline
  (`applications/daily_digest/workflow.py:136-146`), so a later digest can be compared with one nobody
  received. `FirstDigestCanLeaveBaseline` is the smallest such run. The repository's own channel
  (`infrastructure/notifications/homeassistant/digest_channel.py:39-56`) raises no promotion error, so with
  it nothing is left behind (`ChannelsWithoutPromotionErrors`).
- A reservation whose database fails to close after the commit is neither used nor released
  (`applications/daily_digest/workflow.py:86-88`, `applications/synchronization/_alerts.py:121-130`): that day's digest
  is not sent, and that alert stays suppressed. `FirstDigestCanBeLost` and `ClosingSilencesAnAlert` are the smallest
  such runs. A release that fails has the same effect.
- A health failure that was sent and whose acknowledgement is not stored is sent again
  (`applications/operational_monitoring/workflow.py:76-89`, `UnacknowledgedIsSentAgain`).
- The discount need not grow with the reference (`core/rules/price_reference.py:50-53`): against a price of
  one half, the references 2 * 10^27 and 2 * 10^27 + 1 have differences that round to one number, and the
  higher reference gets the smaller discount.
- The export checks no size limit, the import does, so a large export cannot be imported.

## Model

| member | source | states |
|---|---|---|
| ObservationLog.LatestCharacterized | infrastructure/persistence/sqlite/state_store.py:35-41 | the answer of `load` is the product's row with the largest sequence, and only that row |
| ObservationLog.FirstMaximumCharacterized | infrastructure/persistence/sqlite/retention.py:130-137 | the tracked maximum is the earliest row with the highest price of a product in one currency, and only that row |
| ObservationLog.LoadIsLastOfHistory | infrastructure/persistence/sqlite/state_store.py:29-110 | `load` is the last element of `history`, and empty exactly when the history is |
| ObservationLog.LatestSnapshotsListsEachProductOnce | infrastructure/persistence/sqlite/state_store.py:112-132 | the listing holds each product's latest snapshot once, in identifier order, and nothing else |
| ObservationLog.SqliteStateStore.Load | infrastructure/persistence/sqlite/state_store.py:29-49 | the query answers the last observation of the unlimited history |
| ObservationLog.SqliteStateStore.History | infrastructure/persistence/sqlite/state_store.py:76-110 | a limited history is the suffix of the full one with as many observations as the limit allows |
| ObservationLog.SqliteStateStore.Save | infrastructure/persistence/sqlite/state_store.py:51-74 | a save appends one row with a fresh, larger sequence and keeps the log valid, also if closing the database then raises; a save that raises before its commit changes nothing |
| StateStores.DecimalTextIsLossless | infrastructure/persistence/snapshot_codec.py:103-104 | the text of a decimal, with or without exponent, reads back as the same coefficient and exponent |
| StateStores.SnapshotsSurvive | infrastructure/persistence/snapshot_codec.py:23-100 | a stored snapshot is decoded unchanged under its own key and refused under any other |
| StateStores.DecodingAccepts | infrastructure/persistence/snapshot_codec.py:48-100 | an entry is decoded if and only if its amounts are decimals, it meets the product's invariants and it is filed under its own identifier, and then to what it says |
| StateStores.ExponentIsWritten | infrastructure/persistence/snapshot_codec.py:103-104 | a decimal is written with an exponent if and only if its exponent is positive or its first digit lies more than six places behind the point |
| StateStores.StoresAgree | infrastructure/persistence/json/store.py:29-59 | after any saves the log, the document and the dictionary load the same snapshot, and the log's history is every save in order |
| StateStores.JsonStateStore.Load | infrastructure/persistence/json/store.py:29-46 | the answer is the decoded entry or a decoding error, and for a document the store itself saved always the last snapshot of the product |
| StateStores.JsonStateStore.Save | infrastructure/persistence/json/store.py:48-59 | a save creates the document if needed and replaces the product's entry alone |
| StateStores.InMemoryStateStore.Load | infrastructure/persistence/memory/store.py:14-18 | the dictionary's answer is the last snapshot saved for the product |
| Retention.ViewKeptIffProtectedKept | infrastructure/persistence/sqlite/retention.py:138-149 | a deletion leaves every latest row and first maximum as it was if and only if it spares every protected row |
| Retention.RetainKeepsView | infrastructure/persistence/sqlite/retention.py:110-149 | whatever the cutoff, latest rows and first maxima survive a retention |
| Retention.RetainedRows | infrastructure/persistence/sqlite/retention.py:130-149 | a row stays if and only if its time is at or after the cutoff, or it is its product's latest, or the earliest with the highest price of its product and currency |
| Retention.RetainTwice | infrastructure/persistence/sqlite/retention.py:118-149 | two cutoffs in either order leave the rows that the later cutoff alone leaves |
| Retention.PlanIsValid | core/state/retention.py:35-44 | the counts of every plan meet the plan's own invariant |
| Retention.PlanCounts | infrastructure/persistence/sqlite/retention.py:138-148 | the plan counts the rows that stay, those that go and the old ones that stay, said of the rows themselves |
| Retention.SelectRetention | infrastructure/persistence/sqlite/retention.py:110-149 | one pass with its two dictionaries selects exactly the rows older than the cutoff that are neither their product's latest nor the first of its highest in a currency, and counts them and the old ones that stay |
| Retention.RetentionManager.PlanRetention | infrastructure/persistence/sqlite/retention.py:50-70 | planning counts the rows that would stay, and the old ones among them, and changes nothing |
| Retention.RetentionManager.Apply | infrastructure/persistence/sqlite/retention.py:72-107 | applying first writes a new backup of the whole table; then exactly the rows stay that are no older than the cutoff, or latest, or first maxima; an error before the commit leaves the table alone, an error while closing comes after it; no backup is overwritten |
| RetentionInvisible.EnrichmentReadsFirstMaximum | core/rules/price_reference.py:28-37 | the reference price taken over the whole history is the price of the protected first maximum, ties included |
| RetentionInvisible.SameCycle | applications/synchronization/workflow.py:67-131 | a cycle on a pruned log saves, announces, suppresses and raises as on the full one |
| RetentionInvisible.PruningIsInvisible | infrastructure/persistence/sqlite/retention.py:110-149 | over any interleaving, removing all retentions changes no result, message, reservation, baseline or answer |
| Maintenance.MaintenanceCommandProcessor.Process | applications/homeassistant/maintenance_command.py:126-169 | a command plans, compares with the reviewed count and applies, with a result that meets its own invariant |
| Maintenance.CommandRemovesWhatWasReviewed | applications/homeassistant/maintenance_command.py:135-169 | rows go if and only if the reviewed count is the current positive one and backup and deletion succeed; then exactly that many go and the new backup holds every row there was; the command reports them unless closing fails; a stale plan and a plan of nothing are reported as such |
| Maintenance.CommandRemovesOldRows | applications/homeassistant/maintenance_command.py:137-138 | a command removes nothing, or exactly the rows older than the retention days that are neither latest nor first maxima |
| Maintenance.NoObservationIsLost | applications/homeassistant/command_listener.py:103-114 | however cycles and commands alternate, every saved observation is in the table or in a backup, and the rows gone are those reported plus those reviewed for commands that failed while closing |
| Maintenance.SavingBetweenChangesThePlan | applications/homeassistant/main.py:142-143 | without the lock a save between plan and apply can change the plan, so the lock is needed |
| PriceRules.DiscountFallsAsPriceRises | core/rules/price_reference.py:50-53 | in every rounding context the discount is non-negative and never grows with the current price |
| DecimalContext.RoundHalfEvenIsRounding | core/rules/price_reference.py:50-53 | rounding to 28 significant digits, half to even, fixes zero and keeps order, so what holds in every context holds in the program's |
| DecimalContext.AmountsRoundInContext | infrastructure/persistence/sqlite/notification_reservation_store.py:123-127 | rounding an amount digit by digit and rounding the number it denotes agree |
| PriceRules.DiscountIsPercentage | core/rules/price_reference.py:50-53 | in the program's context the discount lies between 0 and 100 for every reference, also those of more than 28 digits |
| PriceRules.EnrichmentRaisesOnlyForForeignHistory | core/rules/price_reference.py:13-47 | enrichment succeeds if and only if the history is the product's own |
| PriceRules.EnrichmentCarries | core/rules/price_reference.py:28-47 | the enriched product carries the advertised reference if there is one, else the earliest highest price of its history in its currency, else none and is unchanged; with the discount of that reference, and nothing else changed |
| PriceRules.DiscountFollowsReduction | core/rules/price_reference.py:50-53 | in every context and for all prices, a higher reference has a discount at least as large if its rounded reduction keeps pace with it, and at most as large if not |
| PriceRules.DiscountGrowsWithReference | core/rules/price_reference.py:50-53 | in every context that represents the two differences the discount grows with the reference |
| PriceRules.DiscountGrowsForPrices | core/rules/price_reference.py:50-53 | in the program's context the discount grows with the reference for all amounts of at most 28 digits with equally many places |
| PriceRules.DiscountCanFall | core/rules/price_reference.py:50-53 | with different numbers of places it can fall: three concrete amounts of at most 28 digits |
| PriceRules.DiscountHardlyFalls | core/rules/price_reference.py:50-53 | in the program's context, for all references and prices, a higher reference lowers the discount by at most 2 * 10^-25 percentage points |
| PriceRules.NoReferenceMeansForeignCurrency | core/rules/price_reference.py:28-37 | there is no historical reference exactly when every observation is in another currency |
| PriceRules.PriceDropVerdict | core/rules/evaluators/price_drop.py:22-61 | an enabled price-drop rule matches if and only if the price fell from the reference or else the previous price, in one currency, by no less than the fixed amount and the percentage; it raises if and only if it fell and the fixed amount is in another currency |
| PriceRules.OtherVerdicts | core/rules/evaluators/back_in_stock.py:14-34 | a back-in-stock rule matches if and only if the product was seen unavailable and is available; a disabled rule never matches |
| PriceRules.MatchIsQualificationOfADrop | core/rules/evaluators/price_drop.py:22-61 | for every threshold the catalog rule matches an enriched product exactly when the digest qualifies it and its price is below the reference |
| PriceRules.AlertAgreesWithDigest | core/notifications/daily_digest.py:105-110 | with a positive threshold the alert rule and the digest select the same products |
| PriceRules.ZeroThresholdDisagrees | core/rules/evaluators/price_drop.py:43-61 | at threshold zero they differ: a concrete listing qualifies and raises no alert |
| AmountText.EncodingReads | infrastructure/persistence/sqlite/notification_reservation_store.py:123-127 | parsing an encoded amount gives the amount rounded to the context precision |
| AmountText.EncodingIdentifies | infrastructure/persistence/sqlite/notification_reservation_store.py:123-127 | two amounts have one text if and only if they round to one number |
| AmountText.EncodingIdentifiesAmounts | infrastructure/persistence/sqlite/notification_reservation_store.py:112-127 | within 28 digits two amounts have one text if and only if they are equal numbers |
| AmountText.EncodingIsFixedPoint | infrastructure/persistence/sqlite/notification_reservation_store.py:141-144 | encoding a parsed text again gives the text, so no stored row is reported as non-canonical |
| AmountText.EncodingMergesLongAmounts | infrastructure/persistence/sqlite/notification_reservation_store.py:123-127 | beyond 28 digits two different amounts can share a text |
| Synchronization.RulesGiveVerdicts | core/rules/engine.py:17-32 | every rule's verdict on the product is recorded, in the order of the rules |
| Synchronization.JudgedThenSaved | applications/synchronization/workflow.py:91-118 | a product is saved as enriched from its history, only after every rule judged it against the observation before the cycle, and whenever nothing raises; if something raised and it is saved, the save raised after its commit |
| Synchronization.IdentityMeans | core/notifications/reservation_policy.py:11-34 | an alert is reserved exactly for an enabled price-drop rule that matched, under product, currency and the text of the price |
| Synchronization.NotifyExactly | applications/synchronization/_alerts.py:84-162 | when one alert is sent, suppressed, has nothing to say or raises, what exactly is delivered, and what stays reserved |
| Synchronization.NotifyKeepsReservations | applications/synchronization/_alerts.py:84-162 | one alert, whatever call raises before or after its commit, keeps the reservations equal to the delivered and the stranded identities, and is suppressed exactly for one of these |
| Synchronization.ReservedMeansNoPriceTwice | core/notifications/reservation_policy.py:11-34 | while reserved means delivered or stranded, no two price-drop deliveries share product, currency and price |
| Synchronization.CompletedCycleAccounts | applications/synchronization/workflow.py:81-122 | in a completed cycle matches are notifications plus suppressions, evaluations are products times rules, and every product is saved |
| Synchronization.CompletedCycleReports | applications/synchronization/workflow.py:81-131 | a completed cycle saved and reports one observation of every fetched product, in order and taken now, every answer, every provider error, and exactly the notifications delivered |
| Synchronization.CycleCompletes | applications/synchronization/workflow.py:81-86 | provider errors alone never stop a cycle: if nothing raises it completes |
| Synchronization.NotificationReservationStore.Reserve | infrastructure/persistence/sqlite/notification_reservation_store.py:29-69 | a reservation is new exactly when its identity was absent, and is then present; a call that raises may have inserted it or not |
| Synchronization.NotificationReservationStore.Release | infrastructure/persistence/sqlite/notification_reservation_store.py:71-93 | a release removes that identity and no other, unless it raises before its commit |
| Synchronization.SynchronizationWorkflow.NotifyOne | applications/synchronization/_alerts.py:84-162 | reserve, generate, send, with release on failure, does to table and channel what the specification says |
| Synchronization.SynchronizationWorkflow.Synchronize | applications/synchronization/workflow.py:67-131 | the nested loops over providers, products and rules reach the specified log, table, channel and result, also when a provider, the store, an alert or a rule raises |
| DailyDigest.DigestListsExactlyTheQualifying | core/notifications/daily_digest.py:45-102 | a digest lists every available product with a reference and a large enough discount, once, nothing else, in digest order |
| DailyDigest.DigestShows | core/notifications/daily_digest.py:66-79 | listed are the available products with a reference and at least the minimum discount; larger rounded discounts first, then names, then identifiers |
| DailyDigest.NewMeansAbsentFromBaseline | core/notifications/daily_digest.py:260-267 | new products are the listed ones absent from the baseline, none when there is no baseline |
| DailyDigest.CandidatesAreStaleQualifying | core/notifications/digest_freshness.py:39-50 | the candidates for a recheck are exactly the qualifying snapshots older than an hour or dated ahead |
| DailyDigest.CandidatesShow | core/notifications/digest_freshness.py:39-50 | candidates are the listed products observed more than an hour ago or after now |
| DailyDigest.SelectionIsOldestFirst | core/notifications/digest_freshness.py:39-52 | as many candidates as the budget allows are chosen, in order, and none left out precedes one chosen |
| DailyDigest.SelectionShows | core/notifications/digest_freshness.py:39-52 | the chosen ones stand by observation time and then identifier, and nobody left out comes before one of them |
| DigestRefresh.FirstByUrlKeepsFirsts | applications/homeassistant/digest_refresh.py:21-24 | one product per URL is rechecked, the first to carry it, in the order of the products |
| DigestRefresh.ChunksCutEverything | applications/homeassistant/digest_refresh.py:26-31 | the batches concatenate to the selected products and each has 1 to 25 of them |
| DigestRefresh.RefreshIsSilent | applications/homeassistant/digest_refresh.py:31-32 | a recheck announces nothing and reserves nothing |
| DigestRefresh.RecheckRecords | applications/homeassistant/digest_refresh.py:17-33 | a recheck that does not raise sends the n-th batch of deduplicated URLs as its n-th request, saves one observation of every product of every answer in order, and collects the errors in order |
| DigestRefresh.RecheckCompletes | applications/homeassistant/digest_refresh.py:26-33 | a recheck raises only if a provider or the store does |
| DigestRefresh.DigestRefresher.Deduplicate | applications/homeassistant/digest_refresh.py:21-24 | the dictionary loop keeps the first product of every URL, in order |
| DigestRefresh.DigestRefresher.RefreshProducts | applications/homeassistant/digest_refresh.py:17-33 | the batch loop reaches the specified log and collects the errors in order |
| DigestWorkflow.LatestBeforeCharacterized | infrastructure/persistence/sqlite/daily_digest_baseline_store.py:28-51 | the baseline compared with is the one of the greatest earlier date, and there is none only if no date is earlier |
| DigestWorkflow.RunAddsOrRestores | applications/daily_digest/workflow.py:80-153 | a run that loses no date and leaves no baseline either adds one digest for a new date to reservations, baselines and channel, or leaves all three as they were |
| DigestWorkflow.RunEnds | applications/daily_digest/workflow.py:80-153 | every run exactly: which exception the handlers meet, what they leave of reservation and baseline, and otherwise the digest that is added |
| DigestWorkflow.DeliveredDigestShowsTheLog | applications/daily_digest/workflow.py:92-134 | a delivered digest is of its call and lists exactly the qualifying products as the log has them last when the run is over; the log is what the recheck left, or unchanged without one |
| DigestWorkflow.RunRechecksStaleProducts | applications/daily_digest/workflow.py:96-109 | a run that comes to its recheck rechecks the 200 oldest stale products of its digest, as the log has them, at the time of the call; if the recheck raises nothing is delivered |
| DigestWorkflow.UndeliveredOutcomes | applications/daily_digest/workflow.py:84-153 | a run is not due, already sent, without promotion, or delivered, each exactly under its condition, and raises otherwise |
| DigestWorkflow.SettledUnlessSomethingIsLeft | applications/daily_digest/workflow.py:86-146 | one run breaks the agreement of tables and channel if and only if, on a due and free date, its reservation raises after its commit, or a handler cannot release date or baseline, or a promotion error comes after staging |
| DigestWorkflow.FirstDigestCanLeaveBaseline | applications/daily_digest/workflow.py:136-146 | the very first digest does so: its baseline stays although nothing was accepted or reserved |
| DigestWorkflow.FirstDigestCanBeLost | infrastructure/persistence/sqlite/daily_digest_reservation_store.py:36-51 | the very first digest can be lost: reserving commits and closing raises, and the retry with everything working is taken as already sent |
| DigestWorkflow.DailyDigestReservationStore.Reserve | infrastructure/persistence/sqlite/daily_digest_reservation_store.py:23-51 | a date is reserved exactly when it was free; a call that raises may have reserved it or not |
| DigestWorkflow.DailyDigestBaselineStore.Stage | infrastructure/persistence/sqlite/daily_digest_baseline_store.py:53-77 | the table then holds the staged baseline and those of all other dates, nothing else, unless the call raises before its commit |
| DigestWorkflow.DailyDigestBaselineStore.Release | infrastructure/persistence/sqlite/daily_digest_baseline_store.py:79-94 | the table then holds exactly the baselines of other dates, unless the call raises before its commit |
| DigestWorkflow.DailyDigestWorkflow.RunOnce | applications/daily_digest/workflow.py:80-153 | the method with its two exception handlers reaches the specified log, tables, channel and outcome for every fault, also of the handlers' own calls; a delivered digest shows the log as it is then |
| RunningSystem.RunsStaySound | applications/homeassistant/cycle.py:184 | over any run of cycles, digests, queries and retentions the baselines are those of the accepted digests throughout if and only if no digest call leaves a baseline; then every digest's new products are right, also if dates were lost |
| RunningSystem.OtherEvents | infrastructure/persistence/sqlite/state_store.py:29-132 | a retention removes the old rows that are neither latest nor first maxima; a load answers the latest row and a listing every latest snapshot, and they change nothing |
| RunningSystem.ChannelsWithoutPromotionErrors | infrastructure/notifications/homeassistant/digest_channel.py:39-56 | with a channel that raises no promotion error and a baseline store whose releases commit no digest call leaves a baseline |
| RunningSystem.RunsDeliverEachIdentityOnce | applications/synchronization/_alerts.py:121-162 | over any run, whatever raises, each identity is delivered at most once and the reserved ones are those delivered and those stranded; exactly the delivered ones if and only if none was stranded |
| RunningSystem.StrandedAlertIsNeverDelivered | applications/synchronization/_alerts.py:93-94 | an identity stranded at any point is not delivered by anything that follows |
| RunningSystem.ClosingSilencesAnAlert | infrastructure/persistence/sqlite/notification_reservation_store.py:38-69 | two equal cycles over one matching product on any log: the first commits its reservation and raises while closing, the second completes, suppresses the alert and sends nothing |
| RunningSystem.NoPriceAnnouncedTwice | core/notifications/reservation_policy.py:11-34 | over any run no two price-drop deliveries share product, currency and price |
| RunningSystem.EveryDateOnce | applications/daily_digest/workflow.py:80-153 | over any run, whatever raises, each date is accepted at most once and the reserved ones are those accepted and those lost; exactly the accepted ones if and only if none was lost |
| RunningSystem.NewSinceLatestEarlierDigest | infrastructure/persistence/sqlite/daily_digest_baseline_store.py:28-51 | over any run that leaves no baseline exactly the accepted digests have one, and new means not listed by the latest earlier digest |
| RunningSystem.NewSinceLastDigest | infrastructure/persistence/sqlite/daily_digest_baseline_store.py:28-51 | with digest dates that do not go back and anything in between, dates lost included, the first digest marks nothing and each later one marks exactly what its predecessor did not list |
| CatalogStore.DiscoveryKeepsQueue | infrastructure/persistence/sqlite/catalog_store.py:30-87 | a recorded discovery keeps the table valid and every old row's place in the queue; the rows that follow are unattempted |
| CatalogStore.DiscoveryRecordsExactly | infrastructure/persistence/sqlite/catalog_store.py:42-79 | known rows get the new URL and last-seen time, others stay, and behind them stands one row for each reported new reference, in order |
| CatalogStore.KeysMean | infrastructure/persistence/sqlite/catalog_store.py:44-48 | a reference is known by its provider and external identifier, whatever its URL |
| CatalogStore.DiscoveryRowByRow | infrastructure/persistence/sqlite/catalog_store.py:42-79 | a reported row takes the reference as reported and the time, an unreported one stays, and the new rows are the references without a row, first and last seen now and unattempted |
| CatalogStore.DiscoveryAccepts | infrastructure/persistence/sqlite/catalog_store.py:36-70 | a discovery is refused if and only if it names a reference twice or a reported row was seen later than now |
| CatalogStore.AttemptsStampTheBatch | infrastructure/persistence/sqlite/catalog_store.py:173-216 | recording a batch stamps exactly its own rows with the time |
| CatalogStore.AttemptsAccept | infrastructure/persistence/sqlite/catalog_store.py:179-204 | a batch is refused if and only if it names a reference twice, one without a row, or one attempted later than now |
| CatalogStore.QueueOrdersTexts | infrastructure/persistence/sqlite/catalog_store.py:114-140 | for attempts written in UTC, ordering their texts is ordering their instants |
| IsoTime.TextOrderIsTimeOrder | infrastructure/persistence/sqlite/catalog_store.py:205-210 | timestamps written with one offset compare as texts exactly as the instants do, with or without a fraction |
| IsoTime.DateTextOrder | infrastructure/persistence/sqlite/daily_digest_baseline_store.py:36-40 | dates compare as texts exactly as their day numbers do |
| IsoTime.MixedOffsetsDisagree | infrastructure/persistence/sqlite/catalog_store.py:125-131 | with two offsets texts and instants can be ordered differently |
| CatalogStore.SqliteCatalogStore.Record | infrastructure/persistence/sqlite/catalog_store.py:30-87 | the insert-or-update loop reaches the specified table; a refused discovery or an error before the commit rolls it back, an error while closing does not |
| CatalogStore.SqliteCatalogStore.RecordRefreshAttempt | infrastructure/persistence/sqlite/catalog_store.py:173-216 | the update loop reaches the specified table; a refused batch or an error before the commit rolls it back, an error while closing does not |
| CatalogMonitoring.RediscoveryKeepsOrder | infrastructure/persistence/sqlite/catalog_store.py:43-79 | rediscovering known references moves nobody in the queue |
| CatalogMonitoring.DiscoveryDelaysByNewReferences | infrastructure/persistence/sqlite/catalog_store.py:30-87 | a discovery puts at most its new references ahead of anyone |
| CatalogMonitoring.PassedOverForOthersAhead | infrastructure/persistence/sqlite/catalog_store.py:114-140 | a reference that is not selected had a full batch of references ahead of it |
| CatalogMonitoring.BatchServesInTurn | infrastructure/persistence/sqlite/catalog_store.py:114-140 | the batch holds as many of the provider's rows as the limit allows: unattempted ones first, then by attempt, then by insertion, and nobody outside comes before one inside |
| CatalogMonitoring.StampedGoBehind | infrastructure/persistence/sqlite/catalog_store.py:173-210 | a stamped batch no longer is ahead of a reference it preceded |
| CatalogMonitoring.CycleCompletes | applications/catalog_monitoring/workflow.py:77-115 | with an advancing clock a cycle completes whenever the discovery is not refused, the synchronizer returns and no writing call raises |
| CatalogMonitoring.CycleCompletesExactly | applications/catalog_monitoring/workflow.py:77-115 | a cycle completes if and only if the discovery was not refused, nothing raised and no row of the batch was attempted later than now |
| CatalogMonitoring.OnlyRefreshedAreStamped | applications/catalog_monitoring/workflow.py:97-115 | rows are stamped only if the discovery was recorded, the synchronizer returned and the stamping committed, and then exactly those of the batch; every other row keeps its attempt |
| CatalogMonitoring.RaisingSynchronizerStampsNothing | applications/catalog_monitoring/workflow.py:103-115 | if the synchronizer raises, old rows keep their attempt and new ones have none |
| CatalogMonitoring.CycleSelectsAfterDiscovery | applications/catalog_monitoring/workflow.py:77-101 | the batch is selected from the table as the discovery left it; a failing catalog leaves it as it was and does not stop the cycle; a discovery that is refused or raises does |
| CatalogMonitoring.CycleProgress | applications/catalog_monitoring/workflow.py:77-115 | a cycle that passes a reference over brings it a full batch closer if its attempt is committed, as in every completed cycle, and delays it by at most the references it inserts |
| CatalogMonitoring.BoundedWait | applications/catalog_monitoring/workflow.py:65-123 | a reference with k ahead of it is refreshed, and its attempt recorded, within (k + D) / B + 1 cycles whose attempt is committed |
| CatalogMonitoring.CompletedAreAttempted | applications/catalog_monitoring/workflow.py:94-115 | there are at least as many such cycles as completed ones, so the bound also holds for these |
| CatalogMonitoring.StandingClockStarves | infrastructure/persistence/sqlite/catalog_store.py:118-131 | while the clock stands still the later of two rows is never refreshed, however many cycles complete |
| CatalogMonitoring.CatalogMonitoringWorkflow.RunOnce | applications/catalog_monitoring/workflow.py:65-123 | discover, select, synchronize and record reach the specified catalog, batch and new references; if the synchronizer raises, no attempt changes |
| OperationalHealth.EvaluateAccepts | core/operations/engine.py:21-39 | from a valid state a chronological check is accepted if and only if the state has a last check or no recovery after the check |
| OperationalHealth.ValidityIsNotInductive | core/operations/model.py:143-188 | a valid state exists whose next chronological check raises |
| OperationalHealth.CheckTells | core/operations/engine.py:114-175 | a chronological check is accepted and the new state tells the longer history |
| OperationalHealth.BookkeepingTells | core/operations/engine.py:41-111 | acknowledging, suppressing and recording digests leave what the state tells of the checks, and say when a digest is refused |
| OperationalHealth.StateIsFunctionOfHistory | core/operations/engine.py:21-175 | after any events failure count, incident start, status, cause and recovery time are those read off the check history, and the state is valid |
| OperationalMonitoring.ResultKnows | applications/operational_monitoring/workflow.py:43-91 | one run never raises, keeps the state's knowledge of the history exact, the last digest included, delivers a FAILURE or RECOVERY exactly when due and possible, and reports a failed send exactly when one was due in vain |
| OperationalMonitoring.SavingReturns | applications/operational_monitoring/workflow.py:62-96 | a call returns its result if and only if none of the saves it makes raises |
| OperationalMonitoring.DeliveriesAreExactly | applications/operational_monitoring/workflow.py:58-91 | each run delivers FAILURE or RECOVERY if and only if the checks and send outcomes up to it say so |
| OperationalMonitoring.FailureOnlyPastThreshold | core/operations/engine.py:144-175 | a FAILURE is delivered only in a failing streak of at least the threshold |
| OperationalMonitoring.OneFailurePerStreak | applications/operational_monitoring/workflow.py:58-91 | between two delivered failures lies a healthy check |
| OperationalMonitoring.RecoveryFollowsItsFailure | core/operations/engine.py:114-141 | a delivered RECOVERY directly follows, in the delivered log, the FAILURE of the incident it ends |
| OperationalMonitoring.RecoveryIsNotRetried | core/operations/engine.py:131-141 | a recovery not delivered at the first healthy check is never delivered |
| OperationalMonitoring.OperationalMonitoringWorkflow.RunOnce | applications/operational_monitoring/workflow.py:43-91 | save, send, acknowledge or suppress leave the specified state stored and return the specified result, or raise, whichever save fails before or after its commit |
| OperationalFaults.StateIsEffective | applications/operational_monitoring/workflow.py:62-91 | a history in which saves raise leaves the state of a history without faults: uncommitted runs left out, unsettled ones tried in vain |
| OperationalFaults.DeliveriesUnderFaults | applications/operational_monitoring/workflow.py:62-91 | each run of such a history sends FAILURE or RECOVERY if and only if saving its transition returns and the history that took effect says so |
| OperationalFaults.AcknowledgedOncePerStreak | applications/operational_monitoring/workflow.py:76-91 | once an acknowledgement is stored no second FAILURE is sent before a healthy check, whatever raises |
| OperationalFaults.UnacknowledgedIsSentAgain | applications/operational_monitoring/workflow.py:76-91 | a FAILURE sent whose acknowledgement is not stored is sent again by the next failing run |
| WeeklySummary.UpdatedCountsAreCounts | core/operations/weekly.py:206-218 | the updated list holds the exact count of each cause that occurred, in enumeration order |
| WeeklySummary.FoldSummarizes | core/operations/weekly.py:114-152 | recording a week's checks one by one gives exact counts per cause, total, incidents, recoveries, longest and trailing failing run, and first and last failure time |
| WeeklySummary.SummaryIsValid | core/operations/weekly.py:42-82 | every bucket recorded in time order meets the constructor's invariant, so recording never raises |
| WeeklySummary.IncidentsBalance | core/operations/weekly.py:114-152 | unhealthy at the start plus incidents minus recoveries is unhealthy at the end |
| WeeklySummary.WeeksBeginOnMondays | applications/operational_monitoring/weekly_workflow.py:57 | a date's week begins on the last Monday up to it |
| WeeklySummary.BucketsAccept | core/operations/weekly.py:114-198 | a check is recorded only in its own week and for the state that represents it; a bucket is marked delivered if and only if it has failures and is not marked |
| WeeklyMonitoring.EachWeekReportedOnce | applications/operational_monitoring/weekly_workflow.py:57-87 | with dates that do not go back each bucket is the fold of all its week's checks, each week is accepted at most once and exactly when due, and a bucket is marked delivered exactly when its report was accepted |
| WeeklyMonitoring.DeliveringMeans | applications/operational_monitoring/weekly_workflow.py:66-87 | the cycles that deliver a week are those from the next Monday's delivery time to the Sunday after it |
| WeeklyMonitoring.ReportsSummarizeTheirWeeks | core/operations/weekly.py:114-152 | every accepted report and every bucket says exactly what the week's checks were |
| WeeklyMonitoring.BucketsBalance | core/operations/weekly.py:114-152 | in each stored bucket unhealthy at the start plus incidents minus recoveries is unhealthy at the end |
| WeeklyMonitoring.StoredBucketsTelescope | core/operations/weekly.py:114-152 | over all stored buckets incidents minus recoveries is one while the last check failed and zero otherwise |
| WeeklyMonitoring.WeeklyOperationalSummaryWorkflow.ReportPrecedingWeek | applications/operational_monitoring/weekly_workflow.py:69-87 | reserve, send and release leave the specified buckets and reports, whichever of them raises |
| WeeklyMonitoring.WeeklyOperationalSummaryWorkflow.RunOnce | applications/operational_monitoring/weekly_workflow.py:38-87 | recording and reporting leave the specified buckets and reports, whichever call raises before or after its commit |
| WeeklyFaults.EachWeekReportedAtMostOnce | applications/operational_monitoring/weekly_workflow.py:69-87 | over any cycles, whatever raises, in any order of dates: each week is reported at most once, a week is marked delivered exactly if it was reported or its report was lost, and a lost one is never reported |
| WeeklyMonitoring.TryingRaises | applications/operational_monitoring/weekly_workflow.py:57-87 | a cycle raises if and only if a save it makes or the channel raises |
| WeeklyMonitoring.TryingLeaves | applications/operational_monitoring/weekly_workflow.py:76-87 | a reportable week ends up reported and marked, marked but not reported, or as it was, each exactly under its condition |
| Migration.SameOptionsSameState | infrastructure/persistence/migration/_state.py:26-36 | installations that agree outside the import-only keys select the same state file |
| Migration.ReadsExactlyWhatHolds | infrastructure/persistence/migration/_format.py:82-105 | an archive is read if and only if it holds one valid manifest and the two payloads it describes, within the limits, and nothing else, in any order |
| Migration.RequestedExactly | infrastructure/persistence/migration/archive.py:107-126 | an import is carried out only for an archive with the given digest, within the limit, that holds what its manifest describes for the installation's own options |
| Migration.DecidesExactly | infrastructure/persistence/migration/archive.py:115-141 | a directory is accepted if and only if it has no state of the other kind and either this import's marker with its state unchanged, or no marker and no state but this one; and what is then left to do |
| Migration.RefusalsMean | infrastructure/persistence/migration/_state.py:111-137 | what each refusal says about the directory |
| Migration.StoppedInOneOfThreePlaces | infrastructure/persistence/migration/archive.py:107-144 | an import stopped after any step leaves the named files untouched, with the state installed, or finished |
| Migration.NeverOverwrites | infrastructure/persistence/migration/_state.py:89-108 | no import, stopped or not, changes or removes a named file that was there |
| Migration.InterruptedImportFinishesAlike | infrastructure/persistence/migration/archive.py:107-144 | after any number of interrupted attempts a full run leaves the same named files as an uninterrupted one, or fails with the same error |
| Migration.RepeatedWhileStateUnchanged | infrastructure/persistence/migration/_state.py:111-137 | a finished import can be repeated for nothing exactly while the state file has the imported digest; otherwise it is refused |
| Migration.AnotherArchiveIsRefused | infrastructure/persistence/migration/_state.py:111-137 | after one archive was imported every other is refused and nothing is written |
| Migration.ExportedStateArrives | infrastructure/persistence/migration/archive.py:44-144 | an export is accepted by an empty installation if and only if the options agree outside the import-only keys and the sizes are within the limits; the installation then holds exactly the exported state, under the name its options select |
| Migration.ExportsExactly | infrastructure/persistence/migration/archive.py:44-93 | when an export succeeds, and everything its archive holds |
| Migration.ImportMeans | infrastructure/persistence/migration/archive.py:95-144 | which imports are carried out, said of archive, digest, options and directory, and what one that is not stopped leaves |
| Migration.InstallState | infrastructure/persistence/migration/_state.py:89-108 | temporary file, link and unlink, stopped after any step, leave the specified directory |
| Migration.WriteMarker | infrastructure/persistence/migration/_state.py:140-173 | temporary file and rename, stopped after any step, leave the specified directory |
| Migration.ZipMigrationArchive.ExportState | infrastructure/persistence/migration/archive.py:44-93 | an export adds one archive under a new name and changes neither the data directory nor other archives |
| Migration.ZipMigrationArchive.ImportState | infrastructure/persistence/migration/archive.py:95-157 | an import is not refused if and only if the archive has the given digest, is not too large, holds what it describes for just these options, and the directory accepts it; a refused one changes nothing, a finished one has installed and marked that very state; stopped anywhere it leaves the specified directory |

## Left out

- DiscountGrowsWithReference: proved where the two differences are exact, in particular for prices of equally many places; elsewhere it is false (`DiscountCanFall`), and `DiscountHardlyFalls` bounds the fall.
- BoundedWait: assumes that every cycle's timestamp is later than all recorded attempts and that timestamps are UTC, because the queue orders by their text; `StandingClockStarves` and `MixedOffsetsDisagree` show that both are needed.
- NewSinceLastDigest: assumes that no digest call leaves a baseline behind and that the digests' calendar dates do not go back; without the second, `NewSinceLatestEarlierDigest` still compares with the latest earlier date.
- EachWeekReportedOnce: assumes that local dates and check times do not go back, that no save raises and that the channel fails only with an operational notification error; without any of this `EachWeekReportedAtMostOnce` still holds.
- DeliveriesAreExactly: assumes that no save raises; `DeliveriesUnderFaults` does not.
- PruningIsInvisible: is about decisions and the queries they use; the full or limited `history`, the observation statistics and the counts of a retention plan naturally show a deletion.
- EncodingIdentifies: the exponent limits of the decimal context (overflow and underflow) are not modelled.
- InterruptedImportFinishesAlike: a crash stops the process between two atomic steps; the durability of directory entries after a power failure is not modelled, and a step that fails with an error is covered as a stop there, with any of the temporary files removed.
- InstallState: does not validate the temporary copy again, which repeats the validation made when the archive was read.
- ExportState: takes the temporary directory, the copy and the final link as one step; an export that stops before the link leaves no archive.
- SnapshotsSurvive: identifiers, timestamps and the discount are values rather than texts, and brand, unfolded name, image URL and creation time are not part of the product.
- JsonStateStore.Load: a file that is unreadable or not a valid document is not modelled; an entry that cannot be decoded is.
- JsonStateStore.Save: replaces the document in one step; the temporary file and a failing write are not modelled.
- SqliteStateStore.Load: the errors of a damaged row or a failing query are not modelled here; a synchronization cycle meets them as raising calls.
- SqliteStateStore.History: the errors of a damaged row or a failing query are not modelled here; a synchronization cycle meets them as raising calls.
- NotificationReservationStore.Reserve: the reservation time and the check of an existing row's format are not modelled.
- Processes killed between two database calls are not separate events: a kill between reservation and delivery leaves what a release that raises before its commit leaves.
- A raising call that only reads the health state or a weekly bucket is not a separate fault: it leaves what a save next to it leaves that raises before or after its commit.
- Formats: SQL, JSON, ZIP, digests and the SQLite backup are abstracted to tables, records, members and arbitrary functions; schema upgrades are not modelled.
- Input checks of argument types, configuration and command-line parsing, logging and the wording of messages.
- Time zones: the local date, whether the delivery time has come, and a UTC instant are inputs.
- HTTP clients, Home Assistant publishers, sensors, signals, the scheduler and the provider's HTML scraping: they hold no durable state.
- The lock itself: cycles and commands are atomic events because one lock is held around each.
