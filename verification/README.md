# Verified model of the FazerCards to G2A bridge

The bridge keeps a marketplace account in step with a supplier's catalogue. It pulls the
catalogue, matches products, prices them, pushes offers to a store that answers
asynchronously, retries within rate limits, and guards purchases against being made twice.
This project models those parts in Dafny and proves what their documentation promises.

`dafny verify dfyconfig.toml` checks the whole project.

## How the model is built

Each part that updates objects in place has a module of values and functions, which is the
specification, and a module of classes whose methods are proved to do what the
specification says. The properties of whole runs are lemmas about the specification.

- `OfferSpec`, `OfferProofs`, `OfferBudget`, `OfferWindow`, `OfferQuiescence`,
  `OfferConvergence`, `OfferOutcomes`, `OfferOvertaking`, `OfferSync`: offer rows, the store with its queued
  jobs, and the price-change log. A `Cell` is everything that concerns one store product.
  What the store may answer is an `Env`: a call may be refused, accepted at once, or accepted
  with a job that later succeeds or fails; a lookup may fail; the listing of a product's
  offers may fail or hide the offer.
- `TokenBucket`, `RateLimit`: the request-rate ceiling, over real time.
- `Idempotency`, `IdempotencyGuard`, `IdempotencyRace`: the exactly-once guard, called in
  sequence with crashes, and by overlapping callers.
- `Catalog`, `CatalogSync`: the supplier catalogue upsert with its grace period.
- `Matching`, `MatchingGates`, `Claims`, `MatchingEngine`: scoring, candidate choice, and claimed products.
- `FxRates`, `FxProvider`: the cached exchange rate.
- `Retry`, `Pricing`, `Pagers`, `Scheduler`, `Worker`: the retry loop, prices, paged
  listings and the periodic jobs.

Assumptions that the statements carry:

- A store call that raises has no effect, an accepted call without a job id has taken
  effect, and nobody else edits the offers. The store refuses a second offer on a product
  and an update of an offer it does not have.
- Mappings are one-to-one, so an offer row and a store product determine each other.
- Only committed runs count. A run that raises is rolled back.
- The content hash and the request hash have no collisions.
- Scores, tokens, delays and prices are exact rationals; offer prices are whole cents.

## Where the code and its documentation part

Each of these has a lemma with a concrete input, and a theorem that says exactly when the
documented behaviour does hold.

- `_update` overwrites `pending_job_id`, and what the forgotten job carried is remembered as
  sent for good. For any number of forgotten jobs in any state, memory and store agree
  afterwards, however all of them end, exactly when what the update does not send again is
  what the store holds and no job that is still queued, however old, carries a value that
  differs from what is remembered (`ForgettingIsSafeIff`; `AlwaysAgreesIff` for any cell).
  - The forgotten job is still queued (`OvertakenJobLosesTheStockChange`). If it is the first
    one, it alone decides (`OvertakenJobSafeIff`); otherwise an earlier one can go wrong
    (`EarlierJobMatters`).
  - The forgotten job has failed and nobody has looked. The worker runs a pass and then a
    reconcile in one tick, so a job that fails between two ticks is in this state when the
    next pass comes (`FailureBetweenTicksLosesTheStockChange`, `EndedJobForgottenSafeIff`).
  - Neither can happen when every job is settled first (`MemoryAgreesWithStore`,
    `ReconcileSettles`).
- `changed_at` is stamped by the database, whose `now()` is the start of the transaction.
  The cap therefore holds for windows of one hour less that lag (`PriceChangesAreCapped`),
  and for no longer window, even with one worker whose passes do not overlap (`CapIsBroken`,
  `CapHoldsIff`).
- An accepted create can be reported as an error although its job is merely still running
  (`StillRunningIsReportedAsAnError`) or has succeeded (`CreatedButReportedAsAnError`);
  `AcceptedCreateIsAnErrorIff` says exactly when.
- A create that failed is not always tried again: if the store named the offer before the
  job failed, every later sync is an update that the store refuses (`NamedCreateFails`,
  `FailedCreateIsRetriedIff`).
- `region_restricted`, `category_name` and `raw` are not hashed, so a change of these alone
  is never stored (`ANewRestrictionIsMissed`, `SkippingIsExactIff`).
- A mapping that scored too low keeps its store product, so the unique constraint can stop
  a whole matching run (`AnUnmatchedRowStopsTheRun`); `MatchKeeps` says exactly when.
- With one candidate kept, the near-tie rule compares nothing (`OneCandidateHidesATie`,
  `NoAutoTiesIff`).
- The last rounding of a price can go below the floor or the store minimum and above the
  store maximum when these are not in whole cents (`BoundsInTenthsOfACentAreMissed`,
  `PriceMeetsIff`), and a fixed price skips all three (`FixedPriceIgnoresTheLimits`,
  `FixedPriceMeetsIff`).
- `acquire` for more tokens than the bucket holds never returns (`TwoTokensAreNeverServed`,
  `ServedEventuallyIff`).
- Two callers that read one recorded failure both run the operation and both return from it
  (`TwoRetriersBothReturn`). That needs a caller to be let through beside another one
  (`ReturningTwiceNeedsOverlap`), and two callers can both return exactly when two are in
  flight or have returned already (`TwoCanReturnIff`); retries one after the other are safe.

## Model

| member | source | states |
|---|---|---|
| `OfferProofs.MemoryAgreesWithStore` | app/services/offer_sync.py:135-425 | after any orderly run of syncs, reconciles, adoptions, job endings and prunes, every non-empty pushed field of an offer with no unresolved job is what the store holds, and a known offer id is the store's |
| `OfferProofs.StepKeeps` | app/services/offer_sync.py:338-425 | every single step keeps the invariant, including failed jobs, adoption and reconciling |
| `OfferProofs.UpdateKeeps` | app/services/offer_sync.py:262-336 | an update, with its price sent or deferred, leaves memory equal to what the store holds or will hold once the job lands |
| `OfferProofs.ConflictKeeps` | app/services/offer_sync.py:227-239 | so does the adoption of the offer behind a 409 |
| `OfferProofs.LateAnswerKeeps` | app/services/offer_sync.py:241-260 | so does a create whose offer id is resolved from its job, later or never |
| `OfferProofs.ResolveKeeps` | app/services/offer_sync.py:183-217 | resolving an id keeps the invariant; when it succeeds nothing is pending and nothing remembered has changed |
| `OfferProofs.ReconcileSettles` | app/services/offer_sync.py:338-384 | a reconcile leaves the row waiting for nothing exactly when the lookup is answered for a job that has ended; then the next update is in order |
| `OfferProofs.AtMostOneCreate` | app/services/offer_sync.py:151-260 | in every run, orderly or not, at most one create job is unfinished, and once the offer id is known no later sync asks for a create |
| `OfferProofs.StepKeepsOneCreate` | app/services/offer_sync.py:151-217 | every step keeps the unfinished create tied to the row, and never forgets a known offer id |
| `OfferOvertaking.ForgettingIsSafeIff` | app/services/offer_sync.py:287-304 | for any number of forgotten jobs, an accepted update keeps memory and store in agreement for all endings and orders of all queued jobs exactly when every remembered field it does not send is the store's and no queued job carries a value different from what is remembered |
| `OfferOvertaking.AlwaysAgreesIff` | app/services/offer_sync.py:338-384 | for any offer known to both sides, a row that waits for nothing agrees after every sequence of job endings and reconciles exactly when the pending job has failed, or what is remembered is what the store will hold and every queued job fits it |
| `OfferOvertaking.RunLeavesKnown` | app/services/offer_sync.py:115-425 | every run, orderly or not, leaves such a cell once the store's offer is known |
| `OfferOvertaking.OvertakenJobSafeIff` | app/services/offer_sync.py:287-304 | the first time a queued job is overtaken, the update is safe exactly when that job changes nothing and shares no field with it |
| `OfferOvertaking.EarlierJobMatters` | app/services/offer_sync.py:287-304 | a reachable run in which the overtaken job is harmless and a job forgotten earlier is not |
| `OfferOvertaking.OvertakenJobLosesTheStockChange` | app/services/offer_sync.py:287-304 | a reachable run in which a job, queued when it is forgotten, fails and leaves a stock figure remembered that the store does not hold |
| `OfferOvertaking.EndedJobForgottenSafeIff` | app/services/offer_sync.py:287-304 | without a queued job, an update is safe exactly when every remembered field it does not send is the store's; only a failed job can make that untrue |
| `OfferOvertaking.FailureBetweenTicksLosesTheStockChange` | app/worker.py:83-91 | a reachable run in the worker's own order in which a job that failed between two ticks is forgotten |
| `OfferBudget.PriceChangesAreCapped` | app/http/ratelimit.py:79-124 | in every closed window of an hour less the stamps' lag, at most `limit` price-carrying updates are accepted, whatever creates, rejections and prunes come between |
| `OfferBudget.SyncLogs` | app/services/offer_sync.py:257-312 | a sync logs nothing, or a create, or a price-carrying update that the budget allowed |
| `OfferBudget.LogGrowsIff` | app/services/offer_sync.py:257-312 | the log grows exactly for a reported create and for an accepted new price |
| `OfferBudget.PruneKeepsCount` | app/http/ratelimit.py:116-124 | pruning before an instant changes no count from that instant on |
| `OfferBudget.PruneKeepsTheRest` | app/http/ratelimit.py:116-124 | a prune keeps exactly the stamps from the cutoff on, in order |
| `OfferWindow.CapHoldsIff` | app/models.py:337-356 | for every limit, with stamps that lag by up to `lag`, the cap holds in all windows of a width in all runs exactly when the width is at most an hour less the lag; the same for the runs of one worker, whose passes do not overlap |
| `OfferBudget.UnsentPriceIsNotRemembered` | app/services/offer_sync.py:272-336 | the remembered price is the old one, none, or one that a call of this sync carried |
| `OfferBudget.DeferredPriceIsDelivered` | app/services/offer_sync.py:272-336 | with a constant desired price and no failures, the first sync more than an hour after the last logged change leaves exactly that price remembered and on the store once its job is done |
| `OfferBudget.SyncDelivers` | app/services/offer_sync.py:272-312 | that sync makes one call, an update carrying exactly the desired price |
| `OfferSpec.EffectiveBudget` | app/config.py:118-124 | the limit is the allowance less the margin, and never less than one |
| `OfferQuiescence.QuietIff` | app/services/offer_sync.py:115-181 | a sync leaves the row at the desired values exactly when its action is created, updated or skipped, or it adopted an offer whose price was right |
| `OfferQuiescence.QuietSyncIsRepeated` | app/services/offer_sync.py:135-146 | after such an action a second sync with the same values makes no call and changes nothing |
| `OfferQuiescence.AcceptedCreateIsAnErrorIff` | app/services/offer_sync.py:241-260 | exactly when an accepted create is reported as an error, for every way the lookup and the listing may answer |
| `OfferQuiescence.CreatedButReportedAsAnError` | app/services/offer_sync.py:241-260 | a create that succeeded is reported as an error and neither logged nor remembered |
| `OfferQuiescence.StillRunningIsReportedAsAnError` | app/services/offer_sync.py:241-252 | a run after which a create whose job is still queued is reported as an error |
| `OfferConvergence.StoreConverges` | app/services/offer_sync.py:1-17 | after an orderly run whose last sync was quiet and whose job does not fail, the store holds, or will once the job lands, exactly the desired price, stock and active flag, and a further sync makes no call |
| `OfferConvergence.FailedCreateIsRetriedIff` | app/services/offer_sync.py:135-181 | a create that failed without effect is asked for again exactly when its offer id was not known; otherwise every later sync of every run is refused |
| `OfferConvergence.NamedCreateFails` | app/services/offer_sync.py:241-243 | a run that ends with a failed create whose offer id is known |
| `OfferOutcomes.OnlyDifferencesAreSent` | app/services/offer_sync.py:135-167 | a row with a known offer makes at most one call, an update with exactly the fields that differ, the price only if fewer than `limit` changes were logged in the hour before |
| `OfferOutcomes.UnknownOfferIsCreated` | app/services/offer_sync.py:151-164 | a row without offer or job asks for a create with everything desired |
| `OfferOutcomes.AcceptedUpdateIsRecorded` | app/services/offer_sync.py:287-336 | what an accepted update leaves remembered, pending and reported |
| `OfferOutcomes.SyncReports` | app/services/offer_sync.py:135-181 | after any sync: success clears the failure counter and sets live or out of stock; a rate limit leaves counter, state and memory; a failed call counts one and marks the offer failed from the fifth on |
| `OfferOutcomes.RefusedUpdateIsReported` | app/services/offer_sync.py:168-181 | a refused update is deferred when rate limited and an error otherwise |
| `OfferOutcomes.RefusedCreateIsReported` | app/services/offer_sync.py:168-239 | so is a refused create; a conflict whose offer is not listed is an error |
| `OfferOutcomes.ConflictIsAdopted` | app/services/offer_sync.py:227-239 | a conflict whose offer is listed is taken over and updated with everything |
| `OfferOutcomes.ReconcileLearnsTheId` | app/services/offer_sync.py:366-373 | a reconcile takes up the offer id a finished create job reports, changes nothing else, and no sync of any later run asks for a create |
| `OfferOutcomes.ReconcileKeepsTheId` | app/services/offer_sync.py:338-384 | a reconcile never changes a known id, and leaves alone what it gets no answer for |
| `OfferOutcomes.FailureIsSentAgain` | app/services/offer_sync.py:366-384 | a failed job counts a failure and makes the next sync send everything again; a successful one leaves counter, state and memory |
| `OfferOutcomes.WaitingRowAsksForItsJob` | app/services/offer_sync.py:151-213 | a row that waits for its create asks for the job first and never creates |
| `OfferOutcomes.NamedOfferIsUpdated` | app/services/offer_sync.py:191-201 | once the job has named the offer the same sync updates it, without the listing |
| `OfferOutcomes.UnnamedOfferIsLookedUp` | app/services/offer_sync.py:191-217 | a job that is done without naming the offer sends the sync to the listing |
| `OfferOutcomes.AdoptionTakesOver` | app/services/offer_sync.py:386-425 | an offer listed under another id is taken over with the store's values; otherwise nothing changes |
| `OfferSync.OfferSync.ResolveOfferId` | app/services/offer_sync.py:183-217 | changes the row as specified, with the same result and calls |
| `OfferSync.OfferSync.UpdateOffer` | app/services/offer_sync.py:262-312 | moves row, store and log as specified, and nothing of other products |
| `OfferSync.OfferSync.CreateOffer` | app/services/offer_sync.py:219-260 | moves row, store and log as specified, and nothing of other products |
| `OfferSync.OfferSync.AdoptAndUpdate` | app/services/offer_sync.py:227-239 | the 409 branch of a create |
| `OfferSync.OfferSync.Remember` | app/services/offer_sync.py:314-336 | records what the store now holds, keeping the price when it was not sent |
| `OfferSync.OfferSync.SyncOne` | app/services/offer_sync.py:135-181 | action, calls and new state are the specified ones; other products are untouched |
| `OfferSync.OfferSync.ReconcileJobs` | app/services/offer_sync.py:338-384 | every selected row is reconciled as specified |
| `OfferSync.OfferSync.AdoptExistingOffers` | app/services/offer_sync.py:386-425 | every row takes over the offer the store lists for its product |
| `OfferSync.OfferSync.Run` | app/services/offer_sync.py:115-133 | each offer of a pass moves as a lone sync would, whatever the pass does to the others |
| `OfferSync.OfferSync.RunTwice` | app/services/offer_sync.py:115-166 | if every action of a pass was created, updated or skipped, a second pass with the same values makes no call and skips every offer |
| `OfferSync.PriceChangeBudget.Record` | app/http/ratelimit.py:94-114 | appends one stamp to the product's log |
| `OfferSync.PriceChangeBudget.Prune` | app/http/ratelimit.py:116-124 | keeps exactly the stamps at or after the cutoff |
| `TokenBucket.RateIsBounded` | app/http/ratelimit.py:41-68 | in any stretch of any run of attempts, tokens granted are at most the capacity plus the rate times its length, and the balance stays between zero and the capacity |
| `TokenBucket.TokensAreConserved` | app/http/ratelimit.py:41-54 | over any run, what is left and what was granted is what was there and what dripped in, exactly so unless the bucket could overflow |
| `TokenBucket.AttemptTakesWhatItGrants` | app/http/ratelimit.py:48-54 | an attempt takes exactly what it grants, and a refused one nothing |
| `TokenBucket.LazyEqualsFine` | app/http/ratelimit.py:41-46 | refilling lazily equals refilling at any list of earlier instants as well |
| `TokenBucket.ServedEventuallyIff` | app/http/ratelimit.py:56-68 | a request is served at some later instant exactly when it fits in the bucket |
| `TokenBucket.TwoTokensAreNeverServed` | app/http/ratelimit.py:56-68 | two tokens are at no instant served from a bucket of one |
| `RateLimit.Bucket.RefillLocked` | app/http/ratelimit.py:41-46 | brings the balance up to the clock as specified |
| `RateLimit.Bucket.TryAcquire` | app/http/ratelimit.py:48-54 | takes the tokens exactly when the refilled balance covers them |
| `RateLimit.Bucket.Acquire` | app/http/ratelimit.py:56-68 | a lone caller sleeps at most once, for the time the missing tokens take, and then has them |
| `Idempotency.LandsAtMostOnce` | app/services/idempotency.py:73-128 | over any sequence of calls that crash anywhere, with honest hooks and raising operations without effect, the effect lands at most once, and has landed when the record is completed |
| `Idempotency.DishonestAnswersLandTwice` | app/services/idempotency.py:98-122 | without either assumption the effect lands twice |
| `Idempotency.CompletedIsFinal` | app/services/idempotency.py:85-97 | a completed record never changes; the same payload gets the stored response, another a conflict |
| `Idempotency.FreshIsReplayed` | app/services/idempotency.py:95-128 | a call that returned its own result is replayed, wrapped unless it was a dict or list, by every later call with its payload |
| `Idempotency.ReplayedIsReplayed` | app/services/idempotency.py:95-116 | an answer that was replayed or recovered by a hook is what every later call with its payload gets |
| `Idempotency.OperationRunsIff` | app/services/idempotency.py:73-128 | exactly when an uncrashed call runs the operation, and how often the effect lands |
| `Idempotency.HookIsBelieved` | app/services/idempotency.py:103-116 | a recovered answer is returned and stored without running the operation; a hook that raises changes nothing |
| `Idempotency.FailureMayBeRetried` | app/services/idempotency.py:98-128 | after a recorded failure the next call with the payload runs its own operation |
| `Idempotency.ClaimComesFirst` | app/services/idempotency.py:73-82 | wherever the process dies, an effect that landed has a committed claim |
| `Idempotency.CrashedClaimNeedsAHook` | app/services/idempotency.py:103-107 | without a hook a claim whose process died stays in progress through any calls |
| `Idempotency.ConflictsMayBeStruckOut` | app/services/idempotency.py:91-94 | once a key is claimed, calls with another payload can be struck out of any sequence; a call is refused as a conflict exactly when its payload is not the claimed one |
| `IdempotencyGuard.Guard.RunOnce` | app/services/idempotency.py:55-128 | does to its key what the specification says, and nothing to other keys |
| `IdempotencyRace.AtMostOneStarts` | app/services/idempotency.py:73-107 | for any interleaving of any number of callers, with no recorded failure and no hook, the operation starts at most once, and every other caller that ended got the stored response, "in progress" or a conflict |
| `IdempotencyRace.StartsAreAccountedFor` | app/services/idempotency.py:85-122 | for every interleaving with failures and hooks, starts plus callers about to start equal the claim plus the callers let through; exactly when the operation has started more than once |
| `IdempotencyRace.ConflictingCallerIsHarmless` | app/services/idempotency.py:91-94 | for every interleaving with failures and hooks, a caller with another payload never changes the record and never starts the operation |
| `IdempotencyRace.AloneIsSequential` | app/services/idempotency.py:73-128 | a caller that nobody interrupts leaves the record and gets the answer of the sequential guard, also when it stops before the operation |
| `IdempotencyRace.AnswersAreStored` | app/services/idempotency.py:95-128 | a caller that ends with an answer has left it in the record, a recovered one as it is |
| `IdempotencyRace.StoredAnswerIsFinal` | app/services/idempotency.py:85-97 | once an answer is stored and nobody is between reading and ending, it is final, and everybody else gets it or a conflict |
| `IdempotencyRace.ReturningTwiceNeedsOverlap` | app/services/idempotency.py:85-128 | for every interleaving with failures and hooks, two callers both return from the operation only if some caller was let through while another one was in flight or had returned |
| `IdempotencyRace.TwoCanReturnIff` | app/services/idempotency.py:85-128 | in every reachable state, two callers can both return without anybody else being let through exactly when two are in flight or have returned already |
| `IdempotencyRace.TwoRetriersBothReturn` | app/services/idempotency.py:98-102 | two callers that read one recorded failure both start the operation and both return from it |
| `Catalog.ActivityIsDecidedByHistory` | app/services/catalog_sync.py:94-155 | a key has a row exactly when some pull listed it, the row is active exactly when one of the last N pulls did, and its counter is the trailing misses capped at N |
| `Catalog.ShortcutRefinesApplying` | app/services/catalog_sync.py:118-142 | over any history, skipping unchanged items leaves every hashed column, the counter and the activity as if every first occurrence had been applied |
| `Catalog.LastListingIsStored` | app/services/catalog_sync.py:118-176 | after any history the columns show what the supplier listed last for the key: name, price, currency, non-negative stock, quantity limits, stated or parsed region and platform |
| `Catalog.SkippingIsExactIff` | app/suppliers/base.py:38-57 | skipping equals applying exactly when the content differs or the unhashed columns are the same |
| `Catalog.ANewRestrictionIsMissed` | app/suppliers/base.py:38-57 | a new regional restriction alone is not stored |
| `CatalogSync.SupplierCatalogSync.Run` | app/services/catalog_sync.py:90-157 | no key has two rows afterwards, and every key's row is what the pull makes of it |
| `CatalogSync.SupplierCatalogSync.Absorb` | app/services/catalog_sync.py:104-142 | one item of the feed: duplicates ignored, unchanged rows kept, new rows inserted once |
| `MatchingGates.ScoresIffInterchangeable` | app/services/matching.py:68-118 | a pair scores above zero exactly when face values agree to a thousandth, stated currencies, platforms and editions are equal, and stated regions are equal or one is GLOBAL |
| `MatchingGates.ProposalIsBest` | app/services/matching.py:264-303 | the proposal of a search is the first of the highest-scoring possible products |
| `MatchingGates.AutoIff` | app/services/matching.py:293-305 | with two candidates kept, a match is automatic exactly when some possible product reaches the thresholds and leads all others by more than 0.02 |
| `MatchingGates.UnmatchedIff` | app/services/matching.py:293-305 | a search ends unmatched exactly when every possible product scores below the review threshold |
| `MatchingGates.LoneProductUnderDefaults` | app/config.py:81-83 | the default thresholds |
| `MatchingGates.SameWordsScore` | app/services/matching.py:116-149 | the weights of words, similarity, region and platform |
| `MatchingGates.NoCommonWordIsUnmatched` | app/services/matching.py:116-149 | titles without a common word are never proposed under the defaults |
| `Matching.ZeroIffGated` | app/services/matching.py:88-149 | a score is between zero and one, and zero exactly when a gate rejects the pair |
| `Matching.HighScoreNeedsOverlap` | app/services/matching.py:63-149 | a score of 0.92 needs a token overlap of 47/55, hence equal token sets when their union has at most six words |
| `Matching.SevenWordsMayDiffer` | app/services/matching.py:63-149 | with seven words it does not |
| `Matching.ScoredIffEligible` | app/services/matching.py:264-288 | the scored candidates are exactly the shortlisted products that are not blocked and pass every gate, with their scores |
| `Matching.SortSorts` | app/services/matching.py:290-291 | sorting yields a descending permutation |
| `Matching.AutoIsJustified` | app/services/matching.py:264-305 | with two candidates kept, an automatic match passes every gate, reaches the threshold and the overlap, and beats every other allowed product by more than 0.02 |
| `Matching.NoAutoTiesIff` | app/services/matching.py:290-303 | in all searches every automatic match beats every other allowed product by more than 0.02, exactly when the number of candidates kept is not one or the thresholds admit no automatic match |
| `Matching.OneCandidateHidesATie` | app/services/matching.py:290-303 | with one candidate kept, two equal products give an automatic match for all thresholds up to one |
| `Claims.RunKeepsClaims` | app/services/matching.py:162-379 | from one-to-one mappings a whole run keeps them one-to-one, the cache covering every live row and every decided row as it was; the constraint fires only against an unmatched or rejected row |
| `Claims.MatchKeeps` | app/services/matching.py:264-348 | the same for one supplier product, and the constraint fires exactly when nobody has decided and the best product is in another's unmatched or rejected row |
| `Claims.BestIsNotBlocked` | app/services/matching.py:264-291 | the chosen product is neither rejected for the supplier product nor claimed by another |
| `Claims.BlockedIff` | app/services/matching.py:162-184 | exactly which products a search may not propose: the rejected one and those of others' live rows |
| `Claims.NeverProposed` | app/services/matching.py:264-291 | at any time in a run, none of these is proposed |
| `Claims.MatchIsStored` | app/services/matching.py:315-348 | status, product and score of the search are stored unless a human has decided; no other row changes |
| `Claims.RunCoversAll` | app/services/matching.py:350-379 | a run that is not stopped leaves a row for everything it was given |
| `Claims.ApprovalsMean` | app/services/matching.py:382-418 | what each answer to an approval means |
| `Claims.RejectedForGood` | app/services/matching.py:421-434 | a rejected pair stays rejected in every run and is never proposed again |
| `Claims.LiveProducts` | app/services/matching.py:162-184 | the products held by automatic, approved and pending rows |
| `Claims.AnUnmatchedRowStopsTheRun` | app/services/matching.py:315-348 | an unmatched row that kept its product makes the next good match violate the constraint |
| `Claims.ReviewsKeepOneToOne` | app/services/matching.py:382-434 | approving and rejecting keep the mappings one-to-one and other rows as they are; exactly when the constraint, rather than the check, refuses an approval |
| `MatchingEngine.Engine.ClaimedStoreProducts` | app/services/matching.py:162-184 | loads the cache once |
| `MatchingEngine.Engine.FindCandidates` | app/services/matching.py:264-291 | the loop with its filters yields the specified candidates |
| `MatchingEngine.Engine.Apply` | app/services/matching.py:315-348 | writes the outcome unless a human has decided, and adds the claim |
| `MatchingEngine.Engine.Run` | app/services/matching.py:350-379 | matches the specified run and keeps the claims and the decisions |
| `Retry.Request` | app/http/client.py:199-333 | every request ends; without a key or permission only GET, HEAD and OPTIONS are repeated; only faults, a first 401 and the retryable statuses are repeated, and these until the attempts are used up; attempts are numbered, take one token each and are one more than sleeps and refreshes; each delay is the back-off of its attempt and reply; the bounds on attempts, refreshes, sleeps, delays and total formula back-off; the last reply decides the outcome |
| `Retry.DelaysDouble` | app/http/client.py:169-177 | without jitter the delay starts at the base and doubles up to the cap |
| `Retry.JitterIsSymmetric` | app/http/client.py:169-177 | jitter adds the drawn share of the plain delay, either way |
| `Retry.SleepsAreBounded` | app/http/client.py:169-177 | for any sleeps after later and later attempts, each delay and the formula's total are bounded |
| `Retry.BackoffIsBounded` | app/http/client.py:169-177 | a delay is never negative; a server's is obeyed up to the maximum; the formula's is at most its jittered value |
| `Pricing.PriceIsBounded` | app/services/pricing.py:180-212 | a price that is not fixed is the rounded raw price raised to the floor and the store minimum and then capped, to the nearest cent; exactly that, and within the limits, for a floor and limits in whole cents |
| `Pricing.PriceIsMonotone` | app/services/pricing.py:172-212 | it never falls when cost, rate or markup rises |
| `Pricing.MarkupIsCharged` | app/services/pricing.py:172-212 | a price below the store maximum is at least the cost in the store's currency plus the markup, up to rounding, and one above floor and store minimum is no higher |
| `Pricing.BoundsInCentsHold` | app/services/pricing.py:185-212 | in whole cents the floor and the store minimum hold unless the store maximum is lower, and the maximum always |
| `Pricing.ZeroLimitsDoNotApply` | app/services/pricing.py:191-202 | a limit of zero or less is no limit |
| `Pricing.TwentyPercentOnTen` | app/services/pricing.py:180-183 | a cost of ten with twenty percent is sold for twelve |
| `Pricing.MarginIsKept` | app/services/pricing.py:142-212 | the rounded price is kept exactly when the store maximum to the cent allows it, and then the price is at most half a step, or a cent in .99 mode, below raw |
| `Pricing.RoundIsNear` | app/services/pricing.py:142-151 | how far rounding moves a value |
| `Pricing.RoundIsMonotone` | app/services/pricing.py:142-151 | rounding keeps the order |
| `Pricing.RoundIsIdempotent` | app/services/pricing.py:142-151 | rounding twice is rounding once, and gives whole cents |
| `Pricing.PriceMeetsIff` | app/services/pricing.py:185-212 | exactly when a price that is not fixed is at least, and at most, any bound |
| `Pricing.RaisedPriceMeetsTheFloorIff` | app/services/pricing.py:185-212 | exactly when a price raised to the floor still meets it after the last rounding |
| `Pricing.RaisedPriceMeetsTheMinimumIff` | app/services/pricing.py:191-212 | the same for the store minimum, with or without a store maximum |
| `Pricing.LoweredPriceMeetsTheMaximumIff` | app/services/pricing.py:191-212 | exactly when a price lowered to the store maximum is still under it after the last rounding |
| `Pricing.BoundsInTenthsOfACentAreMissed` | app/services/pricing.py:185-212 | a minimum of 1.234 is published as 1.23, a maximum of 1.236 as 1.24, a floor of 0.304 as 0.30 |
| `Pricing.FixedPriceMeetsIff` | app/services/pricing.py:161-170 | exactly when a fixed price is at least, and at most, any bound, in every rounding mode |
| `Pricing.FixedPriceNearTheBoundIff` | app/services/pricing.py:161-170 | without .99 pricing, and for a bound in whole steps, that is within half a step of the bound |
| `Pricing.FixedPriceIgnoresTheLimits` | app/services/pricing.py:161-170 | a fixed price under the floor and the store minimum is published as it is |
| `FxRates.NoStaleRateIsUsed` | app/services/pricing.py:96-133 | over any run of calls, a rate that is given out without a pin was quoted in this call or, to eight decimals, less than the maximum age before it, and then no earlier quote has a newer stamp |
| `FxRates.AskedIff` | app/services/pricing.py:96-133 | the provider is asked exactly when no rate is pinned and the call is forced or every quote fetched in the run so far is too old |
| `FxRates.FetchesAreSpaced` | app/services/pricing.py:96-133 | an unforced fetch follows any earlier one by the maximum age, less the stamp's lag |
| `FxRates.RefusedIff` | app/services/pricing.py:112-120 | exactly when a call is refused, and exactly when the refusal names a stale rate |
| `FxRates.PinnedRateWins` | app/services/pricing.py:97-100 | every call gets a pinned rate, and the provider is never asked |
| `FxRates.Cached` | app/services/pricing.py:65-74 | a stored quote with the newest stamp, whichever of several the query returns |
| `FxProvider.Provider.Rate` | app/services/pricing.py:96-133 | answer and stored quotes are the specified ones |
| `Pagers.Paged` | app/suppliers/fazercards.py:123-155 | ends on any server with finitely many cursors, requests none twice, and yields a listed server's list |
| `Pagers.IterCatalog` | app/stores/g2a.py:185-216 | requests pages in order up to the first that is not full, that completes the reported total or that reaches the cap, and yields what parses of them; without a cap that is every parseable row of a listed server once and in order |
| `Pagers.ListOffers` | app/stores/g2a.py:246-267 | the same for the offer listing, which has no cap |
| `Pagers.ListedServerEnds` | app/stores/g2a.py:185-267 | every server that keeps a list has a page that is not full, so every walk of one ends |
| `Scheduler.JobsAreSpaced` | app/worker.py:42-48 | over any ticks a job starts no sooner than its interval after it last finished, and its failure counter is its trailing failure streak |
| `Scheduler.RunFromKeeps` | app/worker.py:133-155 | each job due when the tick began runs exactly once, whatever the others do, and no other job runs |
| `Worker.Worker.RunDue` | app/worker.py:133-155 | the tick in its own form; lists exactly the jobs that were due, in order |
| `Worker.Worker.RunJob` | app/worker.py:138-154 | one execution, successful or not |

## Left out

- HTTP transport, tokens, JSON decoding, call logging and scrubbing; the adapters' answers are parameters.
- Title parsing, `difflib` and the hash functions; their results are parameters or have no collisions.
- SQLAlchemy sessions and the rollback of a run; unique constraints are writes that are refused.
- Dry runs, run counters, `last_error`, `last_pushed_at`, the mirrored `active` column and the bounds on how many rows a query selects.
- `OfferSync._desired`: the desired values are parameters; it only joins a price with a capped stock figure.
- A mapping that is pointed at another store product after its offer row exists: the row keeps its old product.
- `StoreCatalogSync`, the admin API, the command line, settings loading and the order tables.
- `RateLimit.Bucket.Acquire`: asks for no more than the capacity, since otherwise it never returns; several callers are covered by `TokenBucket.RateIsBounded` as interleaved attempts.
- `Pagers.IterCatalog` and `Pagers.ListOffers`: take a page at which the walk can end, be it for its size, the total or the cap, since without one the source does not end.
- `CatalogSync.SupplierCatalogSync.Run`: table rows are values in a sequence that the method reassigns, so aliasing of row objects is not captured.
- `MatchingEngine.Engine.Run`: mapping rows are values in a map, for the same reason; stored candidates, methods and review notes are not modelled.
- `FxProvider.Provider.Rate`: a stored quote is read back with the column's eight decimals, although a session that still holds the row returns it unrounded.
- `OfferSpec.Adopt`: the listing shows a price in whole cents; the source copies a remote price that may be missing or have more decimals.
- `Idempotency.LandsAtMostOnce`: a crash between two commits is modelled, a failing commit is not.
