# Verified model of the Froglet node's durable state

Froglet nodes publish services, admit paid deals, settle them and serve files. What survives a
restart is a set of SQLite tables that many tasks update through small transactions, plus one
generated WebAssembly program per HTTP operation. This project models those transactions and that
program and proves what every run of them keeps.

Each component has the same three layers:

* a pure transition function (`Next`, `Reserve`, `Stored`, `InsertAll`, `Allocated`) that says what one
  statement or transaction does, including its error replies;
* a class that updates its fields in place, statement by statement, in the order of the source, and is
  proved to do what the transition function says (a failing transaction restores its saved tables);
* theorems over whole runs: any number of steps, in any order, with any arguments, from empty tables.

| file | component |
|---|---|
| `Publications.dfy`, `PublicationStore.dfy`, `PublicationRuns.dfy`, `PublicationEffects.dfy` | publication lifecycle, activation tokens, transport grants, identity reconciliation |
| `Leases.dfy`, `LeaseRuns.dfy`, `LeaseEffects.dfy` | settlement materialization leases |
| `Deals.dfy`, `DealStore.dfy`, `DealRuns.dfy`, `DealEffects.dfy` | deal admission, quote reservations, deal status machine |
| `HttpModule.dfy`, `HttpSessions.dfy` | generated WebAssembly allocator and `run` |
| `Transfers.dfy` | file-transfer accounting |
| `Events.dfy` | event insertion and write coalescing |
| `Feed.dfy`, `FeedPages.dfy` | artifact documents, feed, pagination, public page |
| `Lightning.dfy` | Lightning invoice leg merging |
| `Common.dfy`, `Ordering.dfy`, `Histories.dfy` | wrapper types; total orders and `ORDER BY`; columns as their last writes |

A run is a record of steps, the tables before and after each, and the replies (`Run` and `IsRun` in
the modules whose name ends in `Runs`). `RunsExist` shows that every sequence of steps has one. The
modules whose name ends in `Effects` say what each operation answers and stores without the transition
function: in terms of the tables before it, its arguments, and the replies of the steps before.

## Assumptions

* Tables start empty and transactions are serialized (one writer connection, `BEGIN IMMEDIATE`).
* Random values are steps' arguments. Activation tokens are 64 hexadecimal characters and are never
  handed out twice in a run; where a theorem needs distinct claim tokens it says so.
* JSON decoding, hashing, signature verification and evidence rendering are arbitrary functions.
* A deal's `deal_artifact_hash` column is the hash of its signed artifact and its initial status is
  accepted or payment_pending, as the callers of the admission function pass them.
* Clock readings are arguments; no theorem assumes that they grow.

## Findings

* `file_download::reserve` keeps provider usage equal to the sum of per-key usage if and only if no
  reservation is granted to the key `provider`, the name of the provider's own scope
  (`Transfers.ConservationNeedsKey`, over a run `Transfers.ConservedExactlyWithProperKeys`; a granted
  one exists, `Transfers.ProviderKeyDoubleCharges`). Under that key usage also leaves the provider's
  limits unless there is room for two downloads (`Transfers.LimitsNeedKey`, with the input in
  `Transfers.ProviderKeyExceedsLimits`). The node's only caller passes `file:{service}:{digest}`
  (`src/api/http_files.rs`, line 174), which is never that key.
* The outcome of Lightning reports depends on their order if and only if they contain two different
  terminal states, whether or not reports may be repeated
  (`Lightning.PermutationMattersOnlyForTerminals`, `Lightning.OrderMattersOnlyForTerminals`).
* A mutation is answered with the row already stored exactly when it asks for what the row says
  (`PublicationRuns.RepeatedExactly`). It then changes nothing but the managed offers, and those exactly
  when it is a rollback, to the revision already active, whose offer is not yet stored with that
  definition and time (`PublicationRuns.RepeatChangesOnlyOffers`; a run in which it commits a rewritten
  offer is `PublicationRuns.RepeatedRollbackRewritesOffer`).
* A running or accepted deal can carry an error: startup recovery holds a running deal whose external
  outcome is unknown and records the reason (`src/api/mod.rs`, lines 20450-20454). Before an outcome is
  staged a deal has an error if and only if it was held (`DealRuns.ErrorOnlyWhenHeld`), and then that of
  its last hold (`DealRuns.ErrorIsLastHold`); `DealRuns.HeldDealCarriesError` is a run in which the error
  goes with the deal back to accepted.
* `renew` does not look at expiry: exclusion rests on the token alone
  (`LeaseRuns.GuardedWriteSucceedsIffHeld`), so a lease that ran out can still be renewed
  (`LeaseRuns.ExpiredLeaseIsRenewed`).

## Model

| member | source | states |
|---|---|---|
| `PublicationStores.PublicationStore.PublishRevision` | src/db.rs:2939-3025 | publishing in place, statement by statement, has exactly the effect and reply of the specification; any refusal leaves every table as it was |
| `PublicationStores.PublicationStore.PublishInTransaction` | src/db.rs:2939-3006 | the transaction body: refusals in source order, the token kept exactly when status and selected revision stay the same, grants withdrawn otherwise |
| `PublicationStores.PublicationStore.InsertOperation` | src/db.rs:2887-2903 | a publish entry is ignored when its service and revision are already logged as published; every other entry is appended |
| `PublicationStores.PublicationStore.UpsertOffer` | src/db.rs:2353-2373 | the managed offer is replaced but keeps its creation time |
| `PublicationStores.PublicationStore.DefineOffer` | src/api/mod.rs:12901-12908 | the control interface stores an offer on its own and touches no other table |
| `PublicationStores.PublicationStore.MutateLifecycle` | src/db.rs:3051-3215 | pause, exact pause, resume, unpublish and rollback in place have exactly the specified effect; a refusal undoes the offer that rollback wrote before its check |
| `PublicationStores.PublicationStore.PersistGrant` | src/db.rs:2644-2716 | a grant is stored only for the exact active revision and token, keeping the creation time of the grant it replaces |
| `PublicationStores.PublicationStore.WithdrawGrant` | src/db.rs:2721-2751 | removes a grant only when revision, token and both endpoints match |
| `PublicationStores.PublicationStore.ReconcileGrants` | src/db.rs:2767-2786 | deletes the grants that do not match an exact active lifecycle and lists the rest |
| `PublicationStores.PublicationStore.ReconcileRelay` | src/db.rs:972-1006 | startup also deletes relay grants whose endpoints are not the configured ones |
| `PublicationStores.PublicationStore.ScanIdentities` | src/db.rs:3228-3282 | the first pass fails exactly when some active revision's signed document is invalid, else lists the foreign services in order |
| `PublicationStores.PublicationStore.PauseForeign` | src/db.rs:3284-3317 | the guarded update misses exactly when the row is no longer active on the scanned revision, and then changes nothing |
| `PublicationStores.PublicationStore.PauseForIdentity` | src/db.rs:3221-3322 | both passes together have exactly the specified effect |
| `PublicationStores.ScanFindsForeign` | src/db.rs:3259-3300 | the scan lists exactly the foreign services in order, each still active on the scanned revision, so the "changed during identity reconciliation" error is unreachable |
| `PublicationRuns.RunsExist` | src/db.rs:259-268 | every sequence of transactions with fresh tokens is a run |
| `PublicationRuns.RunKeepsInv` | src/db.rs:2939-3322 | in every reachable state selected revisions belong to their service, grants are exact, active offers agree, tokens are distinct and were drawn before, and the log is sound |
| `PublicationRuns.ReconciliationDeletesNothing` | src/db.rs:2767-2786 | in every reachable state each grant names a service active on exactly its revision and token, so the base reconciliation changes nothing |
| `PublicationRuns.ListingDropsNothing` | src/db.rs:2603-2632 | in every reachable state the joined listing of a transport holds every one of its grants exactly once, with the offer of its revision, oldest first and then by service |
| `PublicationRuns.TokenNamesOneEpoch` | src/db.rs:2963-2995 | over a whole run a token belongs to one service and one revision, and under it the status only moves active, paused, unpublished |
| `PublicationRuns.EpochNeverReturns` | src/db.rs:3062-3203 | once a service has moved off a token no service ever has it again |
| `PublicationRuns.DelayedExactOperationsAreInert` | src/db.rs:2721-2751 | an exact pause or exact withdrawal carrying the token of an earlier epoch changes nothing in any later state, even after rollback to the same revision |
| `PublicationRuns.ActiveOffersAgree` | src/db.rs:2905-2934 | no reachable state has two active services that share an offer id but differ in offer hash |
| `PublicationRuns.PublishSucceedsExactly` | src/db.rs:2939-2959 | a publish is accepted if and only if it asks for active or paused, agrees with the stored revision of that hash, and clashes with no other active offer when it becomes active |
| `PublicationRuns.ResumeSucceedsExactly` | src/db.rs:3104-3170 | a resume succeeds if and only if the service is known and not unpublished, its revision decodes and no other active offer clashes; a missing revision is impossible |
| `PublicationRuns.RollbackSucceedsExactly` | src/db.rs:3125-3170 | a rollback succeeds if and only if the service is known, the revision is its own and decodes, and no other active offer clashes |
| `PublicationRuns.RepeatedExactly` | src/db.rs:3062-3173 | a mutation is answered with the stored row if and only if it asks for what the row says and an active revision decodes; the shared-offer check cannot fail it |
| `PublicationRuns.RepeatChangesOnlyOffers` | src/db.rs:3125-3173 | such a repeated mutation keeps every other table, and rewrites the managed offer if and only if it is a rollback whose offer is not yet stored with that definition and time |
| `PublicationRuns.RepeatedRollbackRewritesOffer` | src/db.rs:3137-3173 | a two-step run in which a rollback reports the stored row and commits a rewritten managed offer |
| `PublicationRuns.ManagedOfferIsLastStored` | src/db.rs:2353-2373 | a managed offer holds the definition and time of the latest accepted publish, rollback or offer definition that names it, and the creation time of the first |
| `PublicationRuns.ManagedOfferExistsExactly` | src/db.rs:2353-2373 | a managed offer exists if and only if some accepted step stored it |
| `PublicationRuns.HistoryIsAppendOnly` | src/db.rs:2828-2903 | stored revisions never change and the operation log only grows |
| `PublicationRuns.RefusalsChangeNothing` | src/db.rs:259-268 | every refused transaction of a run leaves every table as it was |
| `PublicationEffects.PublishIsExact` | src/db.rs:2939-3006 | a publish is refused for its status, other content under a stored hash or a clash; else the service has exactly the requested status on the published revision, under the new token unless it had both, and no other row, grant or revision is touched |
| `PublicationEffects.PauseIsExact` | src/db.rs:3064-3103 | a pause or exact pause is refused in the stated cases, changes nothing on a paused service, and else leaves it paused with the same selection and token, without grants and with one log entry |
| `PublicationEffects.UnpublishIsExact` | src/db.rs:3119-3124 | unpublishing ends unpublished under the same selection and token, or changes nothing if it was |
| `PublicationEffects.ResumeIsExact` | src/db.rs:3104-3118 | a resume is refused in the stated cases, changes nothing on an active service, and else ends active on the same selection under the new token |
| `PublicationEffects.RollbackIsExact` | src/db.rs:3125-3203 | a rollback is refused in the stated cases and else ends active on the named revision, under the new token unless it was active on it |
| `PublicationEffects.StatusIsLastGiven` | src/db.rs:2939-3322 | over a run a service has the status that the last accepted publish, mutation or identity pause naming it gave it |
| `PublicationEffects.SelectionIsLastGiven` | src/db.rs:2939-3215 | over a run a service selects the revision of the last accepted publish or rollback naming it |
| `PublicationEffects.GrantIsExact` | src/db.rs:2644-2716 | a grant is refused in the stated cases and else stored with the endpoints asked for, beside all other grants |
| `PublicationEffects.WithdrawalIsExact` | src/db.rs:2721-2751 | an exact withdrawal removes the matching grant, and only it, and says whether there was one |
| `PublicationEffects.RelayKeepsExactly` | src/db.rs:972-1006 | startup keeps every grant of another transport, and a relay grant exactly when the configured endpoints are its own |
| `PublicationEffects.IdentityWritesExactly` | src/db.rs:3284-3317 | identity reconciliation logs one entry per paused service, naming signer and provider, and withdraws exactly their grants |
| `PublicationRuns.PublishedOncePerRevision` | src/db.rs:2887-2903 | each revision is logged as published at most once, under the service it belongs to |
| `PublicationRuns.IdentityReconciliationIsExact` | src/db.rs:3221-3322 | on success only services of the current provider stay active, exactly the others are paused and returned in order, and revisions, selections, tokens and offers are untouched |
| `PublicationRuns.IdentityReconciliationIsIdempotent` | src/db.rs:3221-3322 | a second run with the same identity pauses and writes nothing |
| `PublicationRuns.IdentityReconciliationFailsExactly` | src/db.rs:3221-3282 | it fails if and only if the identity is malformed or some active revision is not validly signed for its hash, and then changes nothing |
| `Leases.MaterializationTable.InsertRow` | src/db.rs:1878-1901 | an insert for a deal that has a row is ignored |
| `Leases.MaterializationTable.ClaimRow` | src/db.rs:1947-2005 | claims exactly the specified rows, counting the attempt; a successful claim holds the row |
| `Leases.MaterializationTable.RenewClaim` | src/db.rs:2084-2103 | moves the expiry only under the stored token |
| `Leases.MaterializationTable.RescheduleIfToken` | src/db.rs:2105-2131 | releases the claim and schedules the retry only under the stored token |
| `Leases.MaterializationTable.SetResourceIfToken` | src/db.rs:2133-2164 | records phase and resource only under the stored token |
| `Leases.MaterializationTable.DeleteRow` | src/db.rs:2166-2177 | deletes the row and says whether there was one |
| `Leases.MaterializationTable.DeleteRowIfToken` | src/db.rs:2182-2199 | deletes the row only under the stored token |
| `Leases.MaterializationTable.ResetAllClaims` | src/db.rs:2069-2082 | releases every lease and counts the rows it changed |
| `Leases.DueExactlyWhenClaimable` | src/db.rs:2032-2064 | a deal is in the unlimited due list at `now` if and only if a claim at `now` succeeds |
| `Leases.DueIsOrdered` | src/db.rs:2032-2064 | the due list has each due deal once, by next attempt, then by last update, then by deal id |
| `Leases.LimitKeepsEarliest` | src/db.rs:2032-2064 | whatever the limit leaves out is due no earlier than anything listed |
| `LeaseRuns.TokenIsLiveClaim` | src/db.rs:1975-2005 | the stored token of a row is exactly that of the latest successful claim that nothing has ended |
| `LeaseRuns.GuardedWriteSucceedsIffHeld` | src/db.rs:2084-2199 | under any interleaving a token-guarded write succeeds if and only if its claim is the latest successful one on that row and has not been ended |
| `LeaseRuns.EndedClaimIsFencedOut` | src/db.rs:2069-2199 | with distinct tokens a superseded or ended claim never writes again, not even after re-insert or restart |
| `LeaseRuns.TakeoverOnlyAfterExpiry` | src/db.rs:1975-2005 | a takeover succeeds only at or after the expiry the holder last set |
| `LeaseRuns.HolderIsSafeUntilExpiry` | src/db.rs:1975-2103 | while nobody deletes, releases or renews the row and rivals come before the expiry, the holder's guarded writes succeed |
| `LeaseRuns.ExpiredLeaseIsRenewed` | src/db.rs:2084-2103 | a three-step run in which a lease that expired at 5 is renewed at 10 |
| `LeaseRuns.RowsKeepShape` | src/db.rs:1878-2164 | token and expiry are set together; the phase is pending exactly while no resource is recorded |
| `LeaseRuns.AttemptsCountClaims` | src/db.rs:1975-2005 | attempt_count equals the successful claims since the row was inserted |
| `LeaseRuns.ResourceSurvivesUntilDeleted` | src/db.rs:2069-2164 | a row carries a resource if and only if it was the last one recorded and the row was not deleted since |
| `LeaseEffects.ClaimSucceedsExactly` | src/db.rs:1975-2005 | a claim at `now` succeeds if and only if the row exists, the time of its last successful reschedule, else of its insert, is at or before `now`, and no unended lease on it expires after `now` |
| `LeaseEffects.ClaimReturnsRow` | src/db.rs:1947-2005 | a successful claim returns the stored row under the caller's token and expiry, with one more attempt |
| `LeaseEffects.ColumnIsLastWritten` | src/db.rs:1878-2199 | every column but the attempt count holds what the last statement that wrote it since the insert wrote |
| `LeaseEffects.RefusedExactly` | src/db.rs:2084-2199 | a guarded write is refused exactly for a blank token, error code or resource, or the pending phase |
| `LeaseEffects.RestartCountsHolders` | src/db.rs:2069-2082 | a restart reports how many rows had a live claim |
| `DealStores.DealStore.InsertOrGetDeal` | src/deals.rs:227-353 | admission in place has exactly the specified effect, and a refusal keeps nothing, not even the reservation |
| `DealStores.DealStore.AdmitInTransaction` | src/deals.rs:227-353 | the transaction body in source order; the lookups repeated after a failed insert find nothing |
| `DealStores.DealStore.ReserveQuoteUsage` | src/deals.rs:355-393 | a quote is reserved if free, accepted again for the same artifact, refused otherwise |
| `DealStores.DealStore.ReserveBeforeSideEffects` | src/deals.rs:399-440 | only the call that inserts the reservation is told to go ahead |
| `DealStores.DealStore.ReleaseForUnpersistedDeal` | src/deals.rs:442-459 | a reservation is dropped only while no deal with that artifact is stored |
| `DealStores.DealStore.TryMarkRunning` | src/deals.rs:581-592 | only an accepted deal becomes running, and only status and time change |
| `DealStores.DealStore.ResetRunningToAccepted` | src/deals.rs:594-609 | only a running deal goes back to accepted |
| `DealStores.DealStore.TryMarkAcceptedFromPaymentPending` | src/deals.rs:611-631 | only a payment_pending deal becomes accepted |
| `DealStores.DealStore.MaterializePayment` | src/deals.rs:633-669 | an unsupported status or an amount over the integer range is refused in that order; else payment is set on a payment_pending deal only |
| `DealStores.DealStore.CompleteSuccess` | src/deals.rs:681-720 | the unconditional success: result with explicit or computed hash, error and failure evidence cleared, evidence kept where none is given |
| `DealStores.DealStore.CompleteSuccessIfStatus` | src/deals.rs:733-774 | the same columns, only from the expected status |
| `DealStores.DealStore.StageResultReady` | src/deals.rs:776-815 | a running deal stages its result and hash, without receipt |
| `DealStores.DealStore.StageSettlementPendingFailure` | src/deals.rs:817-849 | a running deal stages a failure: result and receipt cleared |
| `DealStores.DealStore.CompleteRecoveryFailureIfStatus` | src/deals.rs:879-913 | the recovery failure from the expected status keeps or clears the result columns as asked |
| `DealStores.DealStore.RejectIfStatus` | src/deals.rs:915-946 | rejection from the expected status clears result evidence |
| `DealStores.DealStore.RejectAdmission` | src/deals.rs:948-969 | rejection of an accepted deal |
| `DealStores.DealStore.CompleteFailure` | src/deals.rs:971-1005 | the unconditional failure clears result evidence but not the result |
| `DealStores.DealStore.CancelUnadmitted` | src/deals.rs:1011-1033 | only a payment_pending deal without receipt columns is cancelled |
| `DealStores.DealStore.CompleteFailureIfStatus` | src/deals.rs:1035-1065 | failure from the expected status leaves result evidence alone |
| `DealStores.DealStore.HoldForReconciliation` | src/api/mod.rs:20450-20454 | startup recovery records an error on a running deal and changes no other column but the time |
| `DealRuns.RunKeepsInv` | src/deals.rs:227-459 | in every reachable state the indexes are exact and each stored deal's quote is reserved to exactly that deal's artifact |
| `DealRuns.StoredDealsAreDistinct` | src/deals.rs:227-353 | no two stored deals share a quote, an artifact hash or a non-null idempotency key |
| `DealRuns.ReservationHolds` | src/deals.rs:355-459 | a reservation stays as it is until a release of that quote succeeds |
| `DealRuns.PermittedOncePerRelease` | src/deals.rs:399-459 | two permissions for external side effects on one quote always have a successful release between them |
| `DealRuns.StoredDealBlocksPermission` | src/deals.rs:399-459 | while a deal for a quote is stored, no permission for the quote is given and no release of it succeeds |
| `DealRuns.PermissionBindsAdmission` | src/deals.rs:227-440 | after a permission, until release, only the artifact it was given to can be admitted under that quote |
| `DealRuns.DealsOnlyMoveForward` | src/deals.rs:581-1085 | over any mutations, guarded or not, deals are never lost, the status rank never drops, terminal statuses are never left, and payment is frozen once payment_pending is left |
| `DealRuns.StatusDeterminesShape` | src/deals.rs:681-1085 | in every reachable state the status determines which result, evidence and receipt columns are set, and, except for held deals, whether there is an error |
| `DealRuns.ErrorIsLastHold` | src/api/mod.rs:20450-20454 | before an outcome is staged, a deal carries an error exactly when that is the message of its last hold |
| `DealRuns.ErrorOnlyWhenHeld` | src/api/mod.rs:20450-20454 | before an outcome is staged, a deal has an error if and only if it was ever held |
| `DealRuns.HeldDealCarriesError` | src/api/mod.rs:20450-20465 | a run in which a held running deal has an error and keeps it back in accepted |
| `DealRuns.ResultHashIsOfResult` | src/deals.rs:681-815 | every stored result carries its own hash, given that callers who supply a hash supply the right one |
| `DealRuns.OutcomeIsFinal` | src/deals.rs:733-1085 | a terminal deal keeps every column until an unguarded completion or one that expects a terminal status comes |
| `DealRuns.InterruptedStaysFailed` | src/deals.rs:1067-1085 | a deal caught accepted or running by a restart stays failed with the restart message, its identity and no result or receipt, until an overriding mutation comes |
| `DealRuns.AdmissionReturnsRequestedArtifact` | src/deals.rs:227-353 | admission returns only a deal with the requested artifact hash; a key reused for another artifact is refused |
| `DealRuns.ReplayReturnsFirstDeal` | src/deals.rs:227-353 | repeating an admission with any deal id, key or quote changes nothing and returns the first deal in its current state |
| `DealEffects.AdmissionIsExact` | src/deals.rs:227-353 | an admission returns a known artifact as it stands, is refused in the stated cases and order, and else stores exactly the caller's columns without any outcome and reserves the quote |
| `DealEffects.ColumnIsLastWritten` | src/deals.rs:274-1085 | every column of every deal holds what its admission or the last update that assigned it wrote, from their arguments alone |
| `DealEffects.PaymentIsRecorded` | src/deals.rs:633-669 | a deal carries the token and amount of its last materialized payment |
| `DealEffects.UpdateIsAnsweredExactly` | src/deals.rs:581-1065 | a guarded update takes effect if and only if the deal is in the status it starts from; payments are refused for status and amount; the receipt test of a cancellation never decides |
| `DealEffects.NoUnpaidDealRuns` | src/deals.rs:581-669 | no deal is accepted, running or staged unless it was admitted as accepted or its payment was accepted before |
| `DealEffects.ReservationIsLastMade` | src/deals.rs:355-459 | a quote is reserved as the last permission or created admission reserved it, and free if none did or it was released since |
| `DealEffects.PermissionIsExact` | src/deals.rs:399-440 | the reply to a request for side effects follows from the steps before: go ahead if and only if quote and artifact are unreserved, else deal exists, admission under way, or refused |
| `DealEffects.ReleaseIsExact` | src/deals.rs:442-459 | a release succeeds if and only if the quote is reserved to the artifact and no deal was created for it |
| `HttpModule.LayoutFits` | src/http_operation.rs:280-294 | the heap starts 8 to 15 bytes past the prefix, 8-byte aligned, inside the initial pages, of which a valid operation needs at most two |
| `HttpModule.GrowthIsExact` | src/http_operation.rs:295-301 | the growth request in wrapping arithmetic asks for exactly the missing pages, and for an impossible number when the request exceeds the maximum or the sum wraps |
| `HttpModule.Instance.Alloc` | src/http_operation.rs:295-301 | the generated instructions allocate or trap exactly as bump allocation in unbounded arithmetic, including when sums wrap and when growth is refused |
| `HttpModule.Instance.Run` | src/http_operation.rs:302-308 | for every pointer and length, `run` traps exactly when the document does not fit or the input is outside memory, else writes and passes prefix, the input as the second copy reads it, and closing brace |
| `HttpModule.HandedBelowHeap` | src/http_operation.rs:302-308 | for an input below the heap pointer the document holds the input as it was before the call |
| `HttpModule.InputIsKept` | src/http_operation.rs:305-306 | copying the prefix leaves alone every input it does not overlap |
| `HttpModule.SpliceIsDocument` | src/http_operation.rs:304-308 | the two copies and the store write the document: no later one overwrites what an earlier one wrote |
| `HttpSessions.Perform` | src/http_operation.rs:295-308 | the instructions carry out every permitted call of a session exactly as the session model says, and the pointer they return is the start of the recorded region |
| `HttpSessions.Serve` | src/http_operation.rs:290-308 | a fresh instance serving any permitted list of calls goes through a session, with its memory, pointers and documents, up to the first trap |
| `HttpSessions.PointersNeverOverlap` | src/http_operation.rs:295-301 | every block whose pointer the instance returns lies past the embedded operation, inside the 128 pages, and after every block returned before |
| `HttpSessions.RegionsNeverOverlap` | src/http_operation.rs:295-301 | after any calls every region ever returned lies in memory, past the prefix and apart from all others, and the prefix is intact |
| `HttpSessions.TrapsExactlyWhenFull` | src/http_operation.rs:295-308 | after any calls a permitted call is answered unless it allocates more than the memory and the growth still allowed |
| `HttpSessions.BytesStay` | src/http_operation.rs:295-308 | memory below the heap pointer changes only where the host itself writes |
| `HttpSessions.WrittenInputIsPassed` | src/sandbox.rs:276-294 | what the host wrote is what the instance's later run hands back, between prefix and closing brace, whatever allocations, runs and other writes come between |
| `Transfers.TransferLedger.ReserveTransfer` | src/file_download.rs:189-219 | the two loops charge both scopes or neither, after the pause, metadata, expiry and allowance checks in source order |
| `Transfers.ConservationNeedsKey` | src/file_download.rs:200-217 | a granted reservation keeps provider usage equal to the per-key sum if and only if the key is not the provider's scope name |
| `Transfers.ProviderKeyDoubleCharges` | src/file_download.rs:200-217 | on any balanced books, a reservation under the provider's scope name is granted when both allowances have room, charges the provider twice and breaks conservation |
| `Transfers.LimitsNeedKey` | src/file_download.rs:200-217 | a granted reservation leaves the provider within its limits if and only if the key is not its scope name or there is room for two downloads |
| `Transfers.ProviderKeyExceedsLimits` | src/file_download.rs:200-217 | with limits of one download and five bytes, one such request leaves two downloads and ten bytes |
| `Transfers.ConservedExactlyWithProperKeys` | src/file_download.rs:189-219 | over a whole run the sums balance after every request if and only if no reservation was granted to the provider's scope name |
| `Transfers.AccountingIsConserved` | src/file_download.rs:165-219 | over any requests provider usage counts exactly the granted ones, equals the sum over keys and stays within the limits |
| `Transfers.CountersFitSqlite` | src/file_download.rs:165-219 | every stored counter is bounded by the provider limits and so fits an SQLite integer |
| `Transfers.KeysStayWithinOwnAllowance` | src/file_download.rs:200-215 | a key that always comes with the same metadata stays within the allowance published with the file |
| `Transfers.ReservationIsAnsweredExactly` | src/file_download.rs:189-219 | over a run a reservation is refused for pause, metadata, expiry or when what was granted before leaves no room, in that order, and else granted; the overflow test never decides |
| `Transfers.MetadataIsSafe` | froglet-protocol/src/file_download.rs:25-66 | valid metadata has a plain visible name, a type and a subtype, and limits that fit its size and the storage format |
| `Events.EventStore.InsertEvent` | src/db.rs:1110-1130 | the first event with an id wins and its sender alone is told it was new |
| `Events.EventStore.BatchInsert` | src/db.rs:1132-1166 | a batch gives the results of one-at-a-time insertion, or on a fault stores nothing |
| `Events.EventStore.FlushLoop` | src/db.rs:3565-3616 | for any arrival pattern and faults the loop splits the queue into batches of 1 to 64 in order and answers as flushing them one after the other |
| `Events.AddedExactly` | src/db.rs:1110-1130 | one-at-a-time insertion answers true exactly for an id neither stored nor sent before |
| `Events.BatchingRefinesSingleInserts` | src/db.rs:1132-1166 | without faults every split gives the replies and table of one-at-a-time insertion |
| `Events.FailedBatchesStoreNothing` | src/db.rs:1132-1166 | with faults the table is that of inserting only the batches that did not fail |
| `Events.ErrorsExactlyInFailedBatches` | src/db.rs:3598-3616 | a sender gets an error if and only if its batch failed |
| `Events.AtMostOneTrue` | src/db.rs:3565-3616 | per event id at most one sender is ever told true, whatever the split and the faults |
| `Events.StoredExactlyWhenTold` | src/db.rs:3565-3616 | an id ends up stored if and only if it was stored before or some sender was told true |
| `Events.StoredIsWhatWasSent` | src/db.rs:3565-3616 | the event stored under a new id is, body and all, the one of the sender told true |
| `Feed.ArtifactStore.InsertDocument` | src/db.rs:1482-1558 | storing a document in place has exactly the specified effect; the "ignored unexpectedly" error is unreachable |
| `Feed.RunKeepsInv` | src/db.rs:1482-1558 | in every reachable state documents and feed entries correspond one to one, sequences ascend and the content index is exact |
| `Feed.StoreOnlyGrows` | src/db.rs:1482-1558 | stored documents never change and the feed is only appended to |
| `Feed.FirstWriterWins` | src/db.rs:1482-1558 | once a hash or an (actor, kind, payload hash) triple is stored, every later insert of it leaves the store as it is |
| `Feed.DocumentIsFirstInserted` | src/db.rs:1482-1545 | the document stored under a hash is, body and all, that of the one insert that brought it |
| `Feed.FeedEntryIsOfFirst` | src/db.rs:1546-1558 | an insert that brings something new adds one feed entry, observed at the document's creation time and last in sequence; no other insert adds any |
| `Feed.ArtifactStore.ListArtifacts` | src/db.rs:1676-1716 | fetching one row too many yields the page and an exact has-more flag |
| `Feed.PastIsWhere` | src/db.rs:1676-1716 | the rows after the cut are exactly those with a larger sequence number |
| `Feed.PageIsExact` | src/db.rs:1676-1716 | a page has as many rows past the cursor as asked for, at least one and at most a hundred, and says exactly whether that leaves any |
| `FeedPages.WalkReturnsEveryEntry` | src/db.rs:1676-1716 | a cursor walk with any page limits and appends between pages returns every entry present at its start exactly once and in order once it finishes or has read one page per such entry, and has finished once it read more pages than there are entries |
| `FeedPages.ScanFeed` | src/api/mod.rs:4806-4852 | with any inserts committed between its raw pages, the scan loop ends and answers with a public page of the feed its last raw page was read from |
| `FeedPages.ListPublic` | src/api/mod.rs:4806-4852 | the page is the first public rows up to the limit, has-more says exactly whether a public row is left, and the returned cursor continues with exactly the public rows not yet returned |
| `FeedPages.AnswerIsExact` | src/api/mod.rs:4806-4852 | the same of any answer, and resuming from its cursor loses and repeats nothing in every longer feed |
| `FeedPages.PublicWalkIsExact` | src/api/mod.rs:4806-4852 | a walk over public pages, with appends between and within requests, has returned the first public rows once each and in order, all of them when a page says there is no more, which happens within as many pages as there are public rows |
| `FeedPages.PublicPageIsFull` | src/api/mod.rs:4806-4852 | a scan that stops only in front of a public row that does not fit is as full as it can be |
| `Lightning.BundleTable.UpdateStates` | src/db.rs:1844-1876 | both legs are merged and the caller is told whether the session exists |
| `Lightning.LegIsFirstTerminal` | src/db.rs:1844-1876 | from open, a leg ends in the first terminal state reported, else accepted if ever reported, else open |
| `Lightning.OrderMattersOnlyForTerminals` | src/db.rs:1844-1876 | the outcome is independent of order and duplication if and only if at most one distinct terminal state is reported |
| `Lightning.PermutationMattersOnlyForTerminals` | src/db.rs:1844-1876 | every permutation of the reports has the same outcome if and only if at most one distinct terminal state is reported |
| `Lightning.LegsMergeIndependently` | src/db.rs:1844-1876 | each leg of each bundle merges its own reports and no others |
| `Lightning.BundlesKeepTimes` | src/db.rs:1844-1876 | reports neither create nor drop bundles, and each was updated at the last report of its session |

## Left out

- Agreement of managed offers with the active revision: publishing a paused revision overwrites the offer, so the code does not keep it; `ManagedOfferIsLastStored` states what it does keep.
- Rebuilding the status from the operation log: a repeated publish of a known revision is not logged again.
- The `revision_count` and joined columns of the returned lifecycle record, and the texts of error messages; errors are told apart by kind, and which service an invalid signed revision is reported for is not modelled.
- The `validation_status` column, which is always `validated`.
- NULL and legacy values of columns (activation tokens, relay control URLs), migrations, backfills and schema creation: tables start empty and well formed.
- Foreign keys from materializations and other rows to deals.
- `set_deal_storage_refs`, `quarantine_invalid_deals` and the `INSERT OR REPLACE` of Lightning bundles: they rewrite keyed columns, remove rows or restart a session.
- Status and phase texts outside the enumerations, which the typed callers never pass.
- HttpSessions.Serve: covers calls up to the first trap; the host's own response is an ordinary later allocation and write.
- What the host answers to a generated `run`: the model of `run` stops at the host call.
- Transfers.TransferLedger.ReserveTransfer: the provider's pause state is an argument.
- FeedPages.PublicWalkIsExact: which artifacts are public is an arbitrary predicate, the same for all requests of a walk.
- Events.EventStore.FlushLoop: timing, channel capacity and dropped reply receivers; the linger is an arbitrary predicate on when the next item arrives.
- HTTP requests, TLS, workers, the WebAssembly engine's time and memory policies, configuration parsing, confidential execution, JSON Schema validation, canonical JSON, SHA-256 and signatures.
- Demos, packaging, scripts and documentation sites.
