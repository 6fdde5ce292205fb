# Veridex: a model of its protocols, with proofs

Veridex is a payment stack for machine-to-machine commerce: a facilitator that settles payments on
Stellar, a Soroban contract for metered charges, a gateway that sells an upstream API, a catalog
("bazaar") replicated by gossip, and an SDK with a seller's policy engine. This project models the
parts whose correctness decides whether money moves once, signatures mean one thing, and replicas
agree, and proves what they promise for every input, every run and every interleaving.

Run `dafny verify dfyconfig.toml` in this directory.

**Canonical JSON.** Everything signed is signed over RFC 8785 text. `Utf16`, `EcmaNumber`, `NaturalNumbers` and
`JsonString` model UTF-16 strings, ECMAScript number layout and JSON string escaping, `NumberShapes` and
`JsonLiterals` that each number and string has one text only; `CanonicalJson`
holds the printer and a reader, `CanonicalText` proves that the text determines the value.
`Serializers` writes down all four canonicalizers of the repository and proves where the three of the
services agree; `PlaygroundCopy` proves exactly where the playground's departs from them. `SparseArrays` adds arrays
with holes.
`ObjectGraph` is the facilitator's serializer on a heap with shared and cyclic references and its set
of objects on the stack; `GraphErrors` proves which graphs it refuses.

**The `upto` contract.** `UptoSettlement` is the contract as a class over an arbitrary token, with
panics as rollback and guards that expire. `UptoSafety` proves replay safety and bounded outflow over
runs that interleave calls, ledger closings, storage eviction and foreign token activity. `UptoSep41`
runs it on a conforming SEP-41 ledger and proves exactly when it succeeds. `UptoErrors` says what each
panic means.

**Settlement scheduling.** `SignerPool` is the pool of signers as values with its invariant and
fairness; `FacilitatorSettle` the mutable scheduler, the ledger-skew retry loop and the routing.

**Catalog replication.** `CatalogDelta` applies one signed delta to the tables; `CatalogConvergence`
proves what replicas list of a resource and that they converge on it if its upserts commute, two at a
time, with every delta received. For two deltas that condition is exact; `CatalogDisputes` shows more
deltas with which replicas agree all the same. `CatalogRedelivery` says exactly what one delta writes, and
that a rejected one can come again.

**Provider quality.** `WilsonBound` and `ProviderPolicy` go from observations to a seller's decision
over exact reals; `RealArithmetic` holds facts about products and quotients.

**Services.** `RpcCoordinator` (failover without double submission) and `RpcInterleaving` (submissions
that overlap), `GatewaySettlement` and `GatewayOrder` (interleaved paid requests), `RateLimit`, `ReplayCache`, `CursorPaging` and `Embeddings`.

Where a service object changes state, a class has its fields and its methods are proved equal to a
function on the abstract state; the theorems are about that function and about runs of it.

## What the code does differently from what is written about it

- bazaar-service/src/p2p/catalog-delta.ts:75-76 says revision and digest make replay order irrelevant
  across peers. The tables that deltas are applied to are guarded by other rules too, and the two orders
  of two valid deltas list the same exactly when the deltas commute: two upserts must not fight over a
  resource, settlement or key, and a revoke must not outrank an upsert whose key it merely passes for
  (`CatalogConvergence.PairConverges`, with `TwoOwnersDiverge` as an instance).
- facilitator-service/src/canonical-json.ts:79 says holes in arrays become null. `map` skips them, so
  nothing is printed for a hole: the text is the promised one exactly if there is no hole or both throw
  (`SparseArrays.HolesAreDropped`, with `OneHole` as an instance).
- sdk-typescript/src/provider-quality.ts:296 says a policy requires 0 <= warnMax <= holdMax <= 1. Limits
  that are NaN or explicitly undefined are accepted too; the claim holds of an accepted policy exactly if
  both limits are numbers (`ProviderPolicy.AcceptedPolicy`, with `NaNIsAccepted` as an instance).
- `catalogDeltaKey` joins its parts with colons and does not tell all resources apart
  (`CatalogConvergence.KeysCollide`); exactly which keys are unambiguous is in `KeysFaithfulWhen` and
  `KeysFaithfulToAll`.
- Two overlapping gateway requests for one payment can make two settle calls, one after the other
  (`GatewaySettlement.SettledTwiceOverTime`); `SettledTwiceExactly` says when, `SettledOnceWhenDisciplined`
  what rules it out.
- The playground's canonicalizer does not fill gaps in arrays (`PlaygroundCopy.PlaygroundDropsGaps`);
  `PlaygroundCopy.PlaygroundAgrees` is the exact condition for its agreement.

## Model

| member | source | states |
|---|---|---|
| Utf16.SortByKeyCorrect | facilitator-service/src/canonical-json.ts:87-89 | Sorting object keys by UTF-16 code unit yields the same entries in strictly increasing key order |
| Utf16.SortedUnique | facilitator-service/src/canonical-json.ts:87-89 | Two key-ordered listings of the same entries are equal, so insertion order leaves no trace |
| Utf16.BeforeIsLexicographic | facilitator-service/src/canonical-json.ts:87-89 | The order of keys is the lexicographic one: a proper prefix first, otherwise the smaller code unit at the first difference |
| EcmaNumber.NumberRoundTrip | facilitator-service/src/canonical-json.ts:46-52 | A number in any of the four ECMAScript layouts is read back from its text, -0 as 0 |
| EcmaNumber.ExponentForm | facilitator-service/src/canonical-json.ts:46-52 | A number is written with an exponent exactly below 10^-6 and from 10^21 on |
| NaturalNumbers.NaturalText | facilitator-service/src/canonical-json.ts:46-52 | A natural number is written digit by digit exactly when it has at most 21 digits |
| NumberShapes.NumberShape | facilitator-service/src/canonical-json.ts:46-52 | Scientific notation has one digit before the dot and a signed exponent without leading zero, elsewhere the point stands where the value has it, and no zero is added that the point does not need; with the round trip this leaves one text per number |
| NumberShapes.SignShape | facilitator-service/src/canonical-json.ts:46-52 | A minus sign is written exactly for negative numbers other than zero |
| JsonString.StringRoundTrip | facilitator-service/src/canonical-json.ts:54-56 | Every string, with control characters and lone surrogates, is read back from its escaped literal whatever follows it |
| JsonString.EscapeIsMinimal | facilitator-service/src/canonical-json.ts:54-56 | A string is written unchanged if and only if it is well formed and free of quotes, backslashes and control characters |
| JsonLiterals.EscapeIsTheShortest | facilitator-service/src/canonical-json.ts:54-56 | The literal of a string denotes it, is in lower-case hexadecimal, no well-formed literal of the string is shorter, and no other in lower case is as short |
| JsonString.EscapeWellFormed | facilitator-service/src/canonical-json.ts:54-56 | An escaped literal is well-formed UTF-16 even if the string is not |
| CanonicalJson.ReadRaw | facilitator-service/src/canonical-json.ts:75-96 | The reader recovers any value from its unsorted text and stops exactly behind it |
| CanonicalText.RoundTrip | facilitator-service/src/canonical-json.ts:34-100 | Reading the canonical text of any JSON value gives that value, members in key order and -0 as 0, and consumes the whole text |
| CanonicalText.TextDeterminesValue | facilitator-service/src/canonical-json.ts:34-100 | Two values share a canonical text if and only if they are the same JSON value |
| CanonicalText.KeyOrderIrrelevant | facilitator-service/src/canonical-json.ts:87-96 | Permuting the members of an object never changes the text |
| CanonicalText.TextIsWellFormed | facilitator-service/src/canonical-json.ts:34-100 | Canonical text never holds a lone surrogate, so signing its UTF-8 bytes loses nothing |
| CanonicalText.LeafWords | facilitator-service/src/canonical-json.ts:40-56 | null, true, false, the empty string, zero and the empty array and object have their JSON spelling |
| CanonicalText.Punctuation | facilitator-service/src/canonical-json.ts:75-96 | Elements and members are separated by commas, keys and values by colons, with no whitespace |
| Serializers.FacilitatorPrintsErased | facilitator-service/src/canonical-json.ts:34-100 | The facilitator prints the canonical text of the JSON value a JavaScript tree stands for, and throws exactly when a BigInt or non-finite number denies it one |
| Serializers.BazaarAgrees | bazaar-service/src/p2p/canonical.ts:19-87 | The bazaar's copy gives the facilitator's text or exception on every tree that is not itself undefined, a function or a symbol |
| Serializers.SdkAgrees | sdk-typescript/src/provider-outcome.ts:271-295 | The SDK's copy gives the facilitator's text or exception on the same trees |
| Serializers.ServiceCopiesAgree | bazaar-service/src/p2p/canonical.ts:43-46 | The three service-side copies agree if and only if the top-level value has a text |
| PlaygroundCopy.PlaygroundAgrees | playground/src/lib/jcs.ts:6-27 | The receipt checker of the playground gives the facilitator's text or exception on a tree if and only if a BigInt is inside, or no non-finite number, array gap or function-valued member and the tree itself has a text |
| PlaygroundCopy.AllCopiesAgree | playground/src/lib/jcs.ts:6-27 | On every JSON tree all four copies emit one text: the canonical text of its value |
| PlaygroundCopy.PlaygroundDropsGaps | playground/src/lib/jcs.ts:11-14 | An instance of the disagreement: an array that holds undefined |
| PlaygroundCopy.NonFiniteAsNull | playground/src/lib/jcs.ts:6-27 | Without gaps and function members the playground prints the canonical text of the tree with null for every non-finite number |
| PlaygroundCopy.FunctionsPrintUndefined | playground/src/lib/jcs.ts:18-24 | A function-valued member prints there as the bare word undefined, and is left out elsewhere |
| PlaygroundCopy.WithoutText | bazaar-service/src/p2p/canonical.ts:43-46 | What each of the four copies answers for a tree that is undefined, a function or a symbol |
| SparseArrays.HolesAreDropped | facilitator-service/src/canonical-json.ts:76-84 | On a tree whose arrays have holes the text is that with null in the holes if and only if there is no hole, or a BigInt or non-finite number makes both throw |
| SparseArrays.OneHole | facilitator-service/src/canonical-json.ts:76-84 | An instance: an array that is one hole has the text of the empty array |
| ObjectGraph.Serialize | facilitator-service/src/canonical-json.ts:34-100 | Serialization of any object graph ends, leaves the stack set as it was, and returns the text of the unfolded tree or an exception |
| ObjectGraph.SerializeItems | facilitator-service/src/canonical-json.ts:76-84 | The array branch returns the element texts, gaps as null, and stops at the first exception |
| ObjectGraph.SerializeMembers | facilitator-service/src/canonical-json.ts:86-96 | The object branch returns the entries in key order, gaps left out |
| ObjectGraph.Canonicalize | facilitator-service/src/canonical-json.ts:23-25 | The entry point is serialization from an empty stack |
| GraphErrors.UnfoldsUnlessCyclic | facilitator-service/src/canonical-json.ts:69-73 | The stack set catches exactly the graphs from which a cycle can be reached; shared objects are fine |
| GraphErrors.UnfoldingUnique | facilitator-service/src/canonical-json.ts:69-99 | A graph has at most one unfolding |
| GraphErrors.SerializerRefusesExactly | facilitator-service/src/canonical-json.ts:69-99 | Serializing throws if and only if a cycle, a BigInt or a non-finite number is reachable, and otherwise prints the unfolding |
| UptoSettlement.Contract.SettleCall | contracts/upto-settlement/src/lib.rs:166-274 | The call has the effect of one atomic settlement, all changes or none; whatever the token does, a call that returns was valid and signed by both, moved exactly the actual amount, left the contract's balance alone and no allowance behind |
| UptoSettlement.Contract.GuardAndMove | contracts/upto-settlement/src/lib.rs:200-273 | Writing the guard before any value moves and undoing it on a panic leaves the guard, with a life past the deadline, exactly if the funds moved and the post-checks passed |
| UptoSettlement.Contract.MoveAndCheck | contracts/upto-settlement/src/lib.rs:215-266 | The token calls and post-checks in the contract's order amount to the pull, pay-out, refund and balance checks of the specification |
| UptoSettlement.Contract.IsSettled | contracts/upto-settlement/src/lib.rs:281-285 | In any state a run can reach, a published settlement is answered true until its deadline has passed, and an id that never settled is answered false |
| UptoSettlement.ValidateReports | contracts/upto-settlement/src/lib.rs:294-330 | Validation passes exactly the valid calls; otherwise it names the first rule, in the contract's order, that is broken |
| UptoErrors.RefusedBeforeMoving | contracts/upto-settlement/src/lib.rs:172-204 | Past validation a call gets Unauthorized exactly if one of the two signatures is missing, and AlreadySettled exactly if both are there and so is the guard |
| UptoErrors.RefusedByToken | contracts/upto-settlement/src/lib.rs:218-266 | Of a call that reaches the token, whatever the token does: exactly when it returns, and for each panic the allowance, balance or failed token call it accuses |
| UptoErrors.FundErrors | contracts/upto-settlement/src/lib.rs:222-247 | Exactly when moving the funds stops at a wrong allowance, a panic of the token or an allowance that is left |
| UptoErrors.GuardLifeIsBounded | contracts/upto-settlement/src/lib.rs:206-213 | A guard lives to the ledger after the deadline or for the network's minimum, and no longer |
| UptoSafety.NextPreserves | contracts/upto-settlement/src/lib.rs:172-213 | Every step keeps each presentable settlement guarded past its deadline, no guard without a settlement, and every event signed by payer and facilitator, in window and within its ceiling |
| UptoSafety.RunPreserves | contracts/upto-settlement/src/lib.rs:200-213 | The same over whole runs; published events are never withdrawn |
| UptoSafety.SettledAtMostOnce | contracts/upto-settlement/src/lib.rs:200-213 | Over every run, with storage evicting expired guards, the same signed terms settle at most once |
| UptoSafety.OutflowIsActuals | contracts/upto-settlement/src/lib.rs:364-386 | What a payer's balance loses in its settlements is the sum of the actual amounts in the events |
| UptoSafety.OutflowBounded | contracts/upto-settlement/src/lib.rs:166-274 | That loss never exceeds the ceilings the payer signed, each counted once |
| UptoSep41.MoveFundsOnSep41 | contracts/upto-settlement/src/lib.rs:222-247 | On a conforming ledger the fund movement succeeds if and only if payer, contract and recipient have the money and the room, and every balance of every token changes by the net effect |
| UptoSep41.Sep41Settles | contracts/upto-settlement/src/lib.rs:166-274 | On a conforming ledger a call settles if and only if it is valid, signed, new and funded; no post-check ever fails |
| SignerPool.AcquireKeeps | facilitator-service/src/settle-scheduler.ts:127-172 | A fresh request keeps the pool valid and takes a signer only if every waiter insists on another one |
| SignerPool.AcquireOutcome | facilitator-service/src/settle-scheduler.ts:127-145 | Exactly when a request is leased a signer, queued, or refused for each of the three reasons |
| SignerPool.TakesOldest | facilitator-service/src/settle-scheduler.ts:174-178 | A request without preference takes the signer that has been idle longest, one with a preference that signer, and the others keep their order |
| SignerPool.DrainKeeps | facilitator-service/src/settle-scheduler.ts:206-222 | Serving the queue ends with no waiter eligible for an idle signer and loses no signer |
| SignerPool.NobodyDropped | facilitator-service/src/settle-scheduler.ts:206-222 | Every waiter is granted a signer or still queued; the early return never drops one |
| SignerPool.GrantsBecomeLeases | facilitator-service/src/settle-scheduler.ts:216-220 | Each grant is a lease afterwards |
| SignerPool.OrderKept | facilitator-service/src/settle-scheduler.ts:206-222 | Those still queued keep their order |
| SignerPool.EarliestServed | facilitator-service/src/settle-scheduler.ts:206-222 | A waiter is overtaken only if it insists on a signer other than the one granted |
| SignerPool.GrantsRespectPreference | facilitator-service/src/settle-scheduler.ts:174-178 | A waiter that insists on a signer is granted that signer |
| SignerPool.FinishReleases | facilitator-service/src/settle-scheduler.ts:186-204 | A finished request no longer holds its signer, all other leases stay, and with nobody waiting the signer goes to the end of the idle list |
| SignerPool.FinishKeeps | facilitator-service/src/settle-scheduler.ts:231-244 | Quarantine and release in one stretch keep every signer idle, busy or quarantined exactly once, and leave no waiter that could be served |
| SignerPool.TimeoutKeeps | facilitator-service/src/settle-scheduler.ts:154-157 | A timeout removes that waiter and nothing else |
| SignerPool.RecoverKeeps | facilitator-service/src/settle-scheduler.ts:246-251 | Recovery takes one signer out of quarantine, serves the queue and disturbs no lease; with nobody waiting the signer goes to the end of the idle list |
| SignerPool.SetSignersKeeps | facilitator-service/src/settle-scheduler.ts:111-119 | Replacing the signers succeeds exactly when nothing is leased, keeps quarantined ones quarantined and no signer twice; a waiter is left unserved exactly if one of the new idle signers would do for it |
| SignerPool.StartsValid | facilitator-service/src/settle-scheduler.ts:91-97 | A new scheduler has all its signers idle and satisfies the invariant |
| SignerPool.RunKeeps | facilitator-service/src/settle-scheduler.ts:111-251 | However steps interleave, replacements of the signer set included, idle, busy and quarantined stay disjoint and duplicate-free and no signer is leased twice; without replacements they stay together the configured signers and no waiter could be served |
| SignerPool.UncertainSignerUnused | facilitator-service/src/settle-scheduler.ts:111-251 | After an uncertain settlement its signer is leased to nobody until it is recovered or dropped from the signer set |
| FacilitatorSettle.SettleScheduler.TakeIdle | facilitator-service/src/settle-scheduler.ts:174-178 | Takes the preferred signer, or the first, out of the idle list in place |
| FacilitatorSettle.SettleScheduler.ProcessQueue | facilitator-service/src/settle-scheduler.ts:206-222 | The loop ends and does what the specified draining of the queue does |
| FacilitatorSettle.SettleScheduler.Acquire | facilitator-service/src/settle-scheduler.ts:127-172 | Leases, queues or refuses as specified, and counts queued requests |
| FacilitatorSettle.SettleScheduler.FinishOperation | facilitator-service/src/settle-scheduler.ts:231-244 | The end of withSigner is the specified finish step |
| FacilitatorSettle.SettleScheduler.ExpireWaiter | facilitator-service/src/settle-scheduler.ts:154-168 | The queue timer removes its waiter and counts a rejection |
| FacilitatorSettle.SettleScheduler.RecoverSigner | facilitator-service/src/settle-scheduler.ts:246-251 | Returns whether the signer was quarantined, and recovers it |
| FacilitatorSettle.SettleScheduler.SetSigners | facilitator-service/src/settle-scheduler.ts:111-119 | Replaces the signer set, or refuses and changes nothing |
| FacilitatorSettle.WithLedgerSkewRetry | facilitator-service/src/retry.ts:44-88 | At most retries + 1 attempts; all but the last are skew rejections, failed for that reason without a transaction hash; the last result is returned, and is no skew rejection unless the retries are used up |
| FacilitatorSettle.RetriedExactly | facilitator-service/src/retry.ts:80-88 | A result is retried exactly if it is a skew rejection, and such a result never quarantines a signer |
| FacilitatorSettle.AttemptParksSigner | facilitator-service/src/stellar/x402-facilitator.ts:211-219 | A signer is quarantined exactly if its settlement failed with a transaction hash, and then runs nothing until recovered or dropped |
| FacilitatorSettle.RouteExactly | facilitator-service/src/stellar/x402-facilitator.ts:207-248 | A settlement reaches the scheduler exactly if its scheme, the required one or else the accepted one, is exact, or upto and configured; a preference is passed on exactly if an upto payload names one of the signers; each refusal names its cause |
| FacilitatorSettle.ExactRunsOnAnySigner | facilitator-service/src/stellar/x402-facilitator.ts:214-220 | An exact settlement is leased the longest idle signer whenever one is idle |
| FacilitatorSettle.UptoRunsOnItsFacilitator | facilitator-service/src/stellar/x402-facilitator.ts:222-239 | An upto settlement that names one of our signers is only ever leased that signer |
| CatalogDelta.IngestionWorker.ApplyCatalogDelta | bazaar-service/src/catalog/ingestion.ts:432-614 | One delta is arbitrated, guarded and applied in one transaction; a rejection leaves both tables as they were |
| CatalogRedelivery.StatusExactly | bazaar-service/src/catalog/ingestion.ts:436-506 | Exactly when a delta is applied, ignored and rejected |
| CatalogRedelivery.WritesExactly | bazaar-service/src/catalog/ingestion.ts:509-611 | Unless a delta is applied nothing is written; an applied one is held under its key, an upsert shows its snapshot but keeps the type of an existing row, a revoke drops the row of its owner and network, and all else stays |
| CatalogRedelivery.RejectionLeavesNoTrace | bazaar-service/src/catalog/ingestion.ts:609-614 | A delivery that is not applied might as well not have been made, whatever comes before and after |
| CatalogRedelivery.RedeliveryApplies | bazaar-service/src/catalog/ingestion.ts:444-608 | Over any run, an upsert that was rejected however often is applied and listed the next time it passes its checks, once no greater delta of its key was delivered and no other owner or resource holds what it claims |
| CatalogConvergence.NothingRejected | bazaar-service/src/catalog/ingestion.ts:499-507 | Of a resource whose upserts commute with all deltas, nothing that passes its checks is rejected by the tables' own guards |
| CatalogConvergence.RunInv | bazaar-service/src/catalog/ingestion.ts:444-608 | Over any deliveries the delta table holds the greatest delta of such a resource's key and the resource table lists accordingly, whatever strangers revoke |
| CatalogConvergence.ListingIsTheWinners | bazaar-service/src/p2p/catalog-delta.ts:74-84 | Such a resource is listed exactly if an upsert of it is outranked by no valid delta of its key, by revision, then digest, and then as that upsert says; a winning revoke hides it only if it names its owner and network |
| CatalogConvergence.ResourceConverges | bazaar-service/src/catalog/ingestion.ts:444-608 | Two replicas that receive the same valid deltas in any order and with any repetition list the same of every resource whose upserts commute with these deltas, whatever is true of other resources |
| CatalogConvergence.Convergence | bazaar-service/src/catalog/ingestion.ts:444-608 | If that holds of all resources, they list the same and agree on every winning delta up to signer and signature |
| CatalogConvergence.PairConverges | bazaar-service/src/catalog/ingestion.ts:450-575 | For any two deltas that pass their checks, the two orders list the same if and only if the deltas commute |
| CatalogConvergence.TwoOwnersDiverge | bazaar-service/src/catalog/ingestion.ts:499-507 | An instance: of any two owners of one resource, whoever is heard first stays listed |
| CatalogDisputes.RevokedByAllIsHidden | bazaar-service/src/catalog/ingestion.ts:444-608 | A resource all of whose upserts are outranked by their owners' revokes is listed by no replica, however many owners fought over it and in whatever order they were heard |
| CatalogDisputes.AgreeWithoutCommuting | bazaar-service/src/catalog/ingestion.ts:444-608 | An instance of four deltas that do not commute and on which all replicas agree |
| CatalogConvergence.KeyDetermines | bazaar-service/src/p2p/types.ts:176-178 | Among deltas with a CAIP-2 network and a colon-free payee, keys are equal if and only if network and payee are and URL and tool name are, joined by a colon |
| CatalogConvergence.KeysFaithfulWhen | bazaar-service/src/p2p/types.ts:176-178 | The key of such a delta is its own among all such deltas with colon-free tool names if and only if its own tool name is colon-free |
| CatalogConvergence.KeysFaithfulToAll | bazaar-service/src/p2p/types.ts:176-178 | It is its own among all such deltas if and only if neither its URL nor its tool name has a colon |
| CatalogConvergence.KeysCollide | bazaar-service/src/p2p/types.ts:176-178 | An instance of two resources with one key |
| WilsonBound.BoundIsUpperRoot | bazaar-service/src/provider-quality/aggregator.ts:53-64 | The bound is the largest solution of the score equation, lies between the observed rate and one, and the final minimum never bites |
| WilsonBound.CleanNeverRaises | bazaar-service/src/provider-quality/aggregator.ts:53-64 | One more clean call never raises the bound |
| WilsonBound.FaultNeverLowers | bazaar-service/src/provider-quality/aggregator.ts:53-64 | One more fault never lowers the bound |
| WilsonBound.ReclassifiedNeverLowers | sdk-typescript/src/provider-quality.ts:369-380 | Counting a clean call as a fault never lowers the bound |
| ProviderPolicy.CountInsert | bazaar-service/src/provider-quality/aggregator.ts:27-34 | Wherever an observation is inserted, it counts once if it is in the window, and as a fault only if attributed to the provider |
| ProviderPolicy.AggregateExactly | bazaar-service/src/provider-quality/aggregator.ts:25-51 | An aggregate counts the observations of the window and those that blame the provider, bounds their rate, and is published, provisional or insufficient by its thresholds |
| ProviderPolicy.ObservationMovesDecision | sdk-typescript/src/provider-quality.ts:300-334 | Among published aggregates an added fault never softens the seller's action, another call never hardens it, and one outside the window, or any while the lookup is stale, invalid or insufficient, changes nothing |
| ProviderPolicy.DecisionExactly | sdk-typescript/src/provider-quality.ts:300-367 | Which setting decides for each kind of missing, unusable or thin evidence, in which order, and what each configured action comes to |
| ProviderPolicy.AcceptedPolicy | sdk-typescript/src/provider-quality.ts:286-298 | An accepted policy has ordered limits in the unit interval if and only if both are numbers, and then sells exactly below the one and holds exactly above the other; a limit that is not a number is never applied; a larger bound never softens the action |
| ProviderPolicy.OrderedIsAccepted | sdk-typescript/src/provider-quality.ts:286-298 | Ordered limits in the unit interval are accepted as given, the deprecated maximum standing in for a missing holdMax only; a refused configuration has numbers out of order or range |
| ProviderPolicy.NaNIsAccepted | sdk-typescript/src/provider-quality.ts:291-297 | An instance: with both limits NaN the policy is accepted and every published aggregate is sold on |
| RateLimit.Limiter.HandleRequest | facilitator-service/src/rate-limit.ts:92-122 | Opens or continues the key's window, counts the request, and rejects it above the maximum |
| RateLimit.Limiter.RunSweep | facilitator-service/src/rate-limit.ts:84-89 | Deletes exactly the windows that are over |
| RateLimit.SweepChangesNoDecision | facilitator-service/src/rate-limit.ts:82-100 | The sweep, run at any moments, never changes an accept or reject decision |
| RateLimit.SweepLeavesOpenWindows | facilitator-service/src/rate-limit.ts:84-89 | After a sweep the table holds exactly the windows that are still open |
| RateLimit.FewerThanTwoWindows | facilitator-service/src/rate-limit.ts:78-125 | Any interval of one window length admits at most 2 max - 1 requests of a key, and max if windows last one millisecond |
| RateLimit.BoundReached | facilitator-service/src/rate-limit.ts:78-125 | For every configuration some run attains that bound |
| RateLimit.RejectedOnlyWhenFull | facilitator-service/src/rate-limit.ts:92-122 | A request is rejected only if the maximum was accepted from its key during the last window length |
| RpcCoordinator.HealthyFirst | facilitator-service/src/rpc-coordinator.ts:252-254 | Providers are tried healthy ones first, otherwise in configured order, none twice and none left out |
| RpcCoordinator.ChosenIsFirst | facilitator-service/src/rpc-coordinator.ts:140-148 | The provider chosen for a submission answers its probe and nobody before it does; without one, nobody does |
| RpcCoordinator.ProbesUpToChosen | facilitator-service/src/rpc-coordinator.ts:140-148 | Providers are probed in order up to the chosen one and no further |
| RpcCoordinator.HealthAfterAsking | facilitator-service/src/rpc-coordinator.ts:221-250 | After a reconciliation a provider is healthy exactly if its reply was no transport failure and no error of the reserved range, and its failures are counted since its last usable reply |
| RpcCoordinator.VerdictIsUnanimous | facilitator-service/src/rpc-coordinator.ts:196-209 | A final status is used if and only if some provider reported it and none the other; contradictory reports are a disagreement |
| RpcCoordinator.OrderIrrelevant | facilitator-service/src/rpc-coordinator.ts:196-209 | The verdict does not depend on the order providers were asked in |
| RpcCoordinator.EveryProviderHeard | facilitator-service/src/rpc-coordinator.ts:188-195 | The answers weighed are the error-free ones of all providers |
| RpcCoordinator.LostSubmissionVerdict | facilitator-service/src/rpc-coordinator.ts:152-174 | A submission without an answer is called failed exactly when failure is reported and success is not, is never called successful, and is uncertain exactly if answers came, none final, and the first that knows the transaction says neither pending nor duplicate |
| RpcCoordinator.Coordinator.Call | facilitator-service/src/rpc-coordinator.ts:221-250 | Records one request and the provider's health, treating retryable errors as failures |
| RpcCoordinator.Coordinator.Reconcile | facilitator-service/src/rpc-coordinator.ts:184-210 | Asks all providers without submitting anything and returns the specified weighing of their answers |
| RpcCoordinator.Coordinator.SelectProvider | facilitator-service/src/rpc-coordinator.ts:140-148 | Probes in health order and picks the first provider that answers without an error |
| RpcCoordinator.Coordinator.Submit | facilitator-service/src/rpc-coordinator.ts:150-175 | Sends the transaction once and reconciles if that call fails |
| RpcCoordinator.Coordinator.HandleSubmission | facilitator-service/src/rpc-coordinator.ts:135-176 | For every health state and failure pattern the transaction is sent to at most one provider, the first healthy one |
| RpcInterleaving.OneSubmissionEach | facilitator-service/src/rpc-coordinator.ts:135-182 | However submissions and lookups overlap and health changes meanwhile, each submission is sent at most once and answers what that call brought or what the providers told about it |
| RpcInterleaving.OverlappingVerdict | facilitator-service/src/rpc-coordinator.ts:152-210 | However they overlap, a lost submission is looked up at every provider exactly once and is called failed exactly when failure is reported and success is not |
| RpcInterleaving.LookupVerdict | facilitator-service/src/rpc-coordinator.ts:178-210 | However it overlaps with anything, a status lookup sends nothing, asks every provider exactly once, and answers a final status exactly if somebody reported it and nobody the other |
| RpcInterleaving.AloneIsHandleSubmission | facilitator-service/src/rpc-coordinator.ts:135-176 | A submission nothing overlaps gives the answer and leaves the health that the method promises |
| RpcInterleaving.AloneIsReconcile | facilitator-service/src/rpc-coordinator.ts:178-210 | A lookup nothing overlaps gives the answer and leaves the health that the reconciliation method promises |
| GatewaySettlement.Process.Enter | gateway-service/src/app.ts:118-131 | Admits a request and counts it only below the concurrency limit |
| GatewaySettlement.Process.SettleOnce | gateway-service/src/app.ts:733-742 | Joins the pending call of the payment or starts one |
| GatewaySettlement.Process.SettlementEnded | gateway-service/src/app.ts:739-740 | The call gets its outcome and stops being pending |
| GatewaySettlement.Process.Exit | gateway-service/src/app.ts:126-130 | Every admitted request is counted out once |
| GatewaySettlement.RunKeeps | gateway-service/src/app.ts:291-412 | Every interleaving keeps the pending table exact, phases backed by settlements, and outcomes written once |
| GatewaySettlement.GatewaySafety | gateway-service/src/app.ts:291-412 | At most one settle call per payment is pending, nothing goes upstream without a successful settlement of that payment, and active requests stay within the limit |
| GatewayOrder.CallsAreVerified | gateway-service/src/app.ts:291-339 | Over every run each settle call is made by a request of that payment which looked it up in vain and whose verification succeeded before |
| GatewayOrder.UnverifiedIsNotSettled | gateway-service/src/app.ts:304-326 | A payment that no request verified has no settle call |
| GatewayOrder.PaidRequestIsServed | gateway-service/src/app.ts:291-412 | From any state with room, a request whose verification and settlement succeed leaves one successful call, the payment recorded, and one request forwarded upstream, and nothing else |
| GatewayOrder.RecordedRequestIsServed | gateway-service/src/app.ts:291-295 | A request for a recorded payment is forwarded without a settle call |
| GatewayOrder.RefusedIsNotServed | gateway-service/src/app.ts:304-368 | A refused verification or settlement ends the request, a full gateway lets none in, and a call ends pending however it ends |
| GatewaySettlement.PendingIsJoined | gateway-service/src/app.ts:733-742 | While a call of the payment is pending, whoever gets to settleOnce waits for that very call |
| GatewaySettlement.JoinersSeeOneOutcome | gateway-service/src/app.ts:339-368 | All who wait for a call continue by its one outcome, whatever happens in between |
| GatewaySettlement.RecordedStaysSettled | gateway-service/src/app.ts:291-295 | Once a payment is recorded and nobody is past an empty lookup of it, no settle call for it is ever made again |
| GatewaySettlement.SettledTwiceExactly | gateway-service/src/app.ts:291-339 | Over every run a payment is settled again if and only if a verified request reaches settleOnce after a call of the payment succeeded and while none is pending |
| GatewaySettlement.SettledOnceWhenDisciplined | gateway-service/src/app.ts:291-339 | It is settled at most once if no success falls between a request's empty lookup and settleOnce, and no lookup comes back empty after a success |
| GatewaySettlement.SettledTwiceOverTime | gateway-service/src/app.ts:291-339 | An instance of two requests for one payment that make two calls |
| ReplayCache.MessageHashInjective | bazaar-service/src/p2p/types.ts:193-195 | Different (node, sequence) pairs have different keys, whatever characters node ids contain |
| ReplayCache.DuplicateIsPlain | bazaar-service/src/p2p/node.ts:412-417 | The duplicate test equals the plain test against the node's highest sequence |
| ReplayCache.ForgetsAfterFiveMinutes | bazaar-service/src/p2p/node.ts:540-552 | The cleanup forgets exactly the entries older than five minutes, and no sequence |
| ReplayCache.CacheIsTransparent | bazaar-service/src/p2p/node.ts:345-426 | The cache and its evictions never change which messages are accepted |
| ReplayCache.AcceptedIncrease | bazaar-service/src/p2p/node.ts:345-426 | Over every run the accepted sequences of a node strictly increase, so nothing is accepted twice |
| ReplayCache.P2PNode.HandleIncomingMessage | bazaar-service/src/p2p/node.ts:328-364 | Accepts, or suppresses and counts, as specified; a bad signature is never remembered |
| ReplayCache.P2PNode.Cleanup | bazaar-service/src/p2p/node.ts:540-552 | Removes exactly the expired entries |
| CursorPaging.CursorRoundTrip | bazaar-service/src/search/cursor.ts:65-102 | A cursor decodes to what was encoded exactly if it has this version, a limit and the fingerprint of the query, and is refused otherwise |
| CursorPaging.SessionProgress | bazaar-service/src/search/engine.ts:288-306 | A client that follows cursors holds the first rows in order and its cursor resumes right behind them |
| CursorPaging.PagesAreFull | bazaar-service/src/search/engine.ts:426-436 | Every page of a session holds the rows behind those already received: all that are left, but no more than its limit |
| CursorPaging.PagingReturnsEverything | bazaar-service/src/search/engine.ts:426-436 | Following cursors with any page limits ends and returns every row once and in order, also when more rows were counted than the pool holds |
| Embeddings.CosineSimilarity | bazaar-service/src/search/embeddings.ts:181-203 | The accumulation loop returns the quotient of dot product and lengths, 0 for a zero vector, always within [-1, 1], and fails exactly on different lengths |
| Embeddings.SelfSimilarity | bazaar-service/src/search/embeddings.ts:181-203 | A vector of nonzero length has similarity one with itself, the zero vector zero with everything, and similarity is symmetric |
| Embeddings.CauchySchwarz | bazaar-service/src/search/embeddings.ts:190-194 | The squared dot product never exceeds the product of the squared lengths |
| Embeddings.NormalizeKeepsSimilarity | bazaar-service/src/search/embeddings.ts:211-219 | Normalizing gives length one or leaves the zero vector, and changes no similarity |

## Left out

- Canonical JSON: `toJSON`, getters and other objects with behaviour of their own; arrays with holes beyond the facilitator's copy on trees.
- Numbers: a double is represented by its shortest decimal (digits and point), which ECMAScript picks; how it picks them is not modelled.
- The reader: it accepts text without whitespace, and is more lenient than JSON about number grammar; it serves to show that no text has two values.
- Bazaar, SDK and playground copies of the canonicalizer: modelled on value trees; only the facilitator's copy is modelled in place on a heap.
- Ed25519 and SHA-256: signatures are an ideal predicate, digests a collision-free number of which only the order is used.
- Soroban: host limits on TTL (a guard's extension is granted as requested), archival and restoration, authorization-entry nonces, re-entrancy. Token balance and allowance queries are views.
- Facilitator signatures in the contract model are not used up, so the bound does not lean on them.
- The Sep41 ledger is written after the token interface's documented behaviour; administration, clawback and frozen accounts are not part of it.
- Promises and timers: a step is the code between two awaits, a timeout a step on a waiter that is still queued.
- Signer addresses: `setSigners` and the constructor are given distinct, nonempty addresses, as the sets of signing addresses they come from supply them.
- Scheduler: the longest observed wait, `getStats`, `selectSigner`.
- FacilitatorSettle.WithLedgerSkewRetry: the operation's answers are a function of the attempt number; the delay and the log line are not modelled.
- Catalog: columns that are copied as they are stand as one content value; embeddings, timestamps, verification status, revalidation and quarantine of listings are not modelled, nor are lifetimes of deltas beyond the answer of the check.
- Convergence of a resource whose upserts do not all commute is decided for two deltas only; with more, later revokes may hide a difference again, as `CatalogDisputes` shows. Deltas that move colons between URL and tool name are taken as strings, whether or not the URL parses.
- Provider quality: floating-point rounding; the arithmetic is over exact reals with square roots given by their defining property. The aggregate client's cache and `recordDisagreement` are not modelled.
- RpcCoordinator: plain reads, parameter validation, latency and metrics callbacks, fields of a response other than its status.
- Gateway: provider policy, the per-client rate window, request body limits and framing, the events of refused requests. Each joiner of a settlement appends its own settled event, which the set of recorded payments does not show.
- Replay cache: schema, freshness, heartbeat authorization and topic are one answer per message; sequences are naturals; catalog messages are routed elsewhere.
- CursorPaging: the base64url wrapping, the computation of the fingerprint (its separators are not escaped, so it is not injective), sessions that begin at an explicit offset, and result sets that change between pages.
- contracts/upto_escrow and facilitator-service/src/soroban/escrow-client.ts: a retired experiment whose token client points at itself.
- facilitator-service/src/channel/pool.ts: leasing for the legacy settle path.
- SQL and TypeScript liveness rules of providers: their boundaries differ, so there is no common rule to prove.
- Metrics, logging, configuration, URL and address filters, seller helpers, user interfaces, command lines.
