# Proofs about the licensing and engine-delivery backend

This project models the parts of the backend whose guarantees span several functions or a whole run, and
proves those guarantees. Each component is one module:

| module | what it models |
|---|---|
| `SignatureCodec` | conversion between DER and fixed-width ECDSA signatures (section 2.2.3 of RFC 3279, sections 8.1.3 and 8.3 of X.690, section 3.4 of RFC 7518) |
| `DurationPolicy`, `LicenseLifecycle`, `LicenseDecisions`, `LicenseServices`, `TokenHistory` | paid terms; issue, sale, refresh, renew, regenerate, rebind, portal regenerate and revoke as steps over the licence tables; who each of them serves and who it refuses; the service methods that perform them; what becomes of every token after its mint |
| `DomainPolicy` | domain normalisation and host matching |
| `RateLimiter` | the fixed-window limiter over a bounded, insertion-ordered map |
| `SeatCap`, `Activation`, `Fulfilment` | protocols over a shared store, each awaited query a step of its own: seat checks, one-time activation, Stripe fulfilment and single-use key retrieval |
| `AccessControl`, `AccessDecisions` | admin sessions, token versions, refresh rotation, role and user edits, and exactly what each edit may do |
| `VersionResolution`, `EngineRegistry`, `EngineDecisions`, `EngineServices`, `DeliverySession` | which build a caller gets and what it may use there; default pointers with history, rollback, pins, trials; opening a session |
| `BundleStorage` | content-addressed files written to a temporary name and renamed, under failures and crashes |
| `Watermark` | writing, reading and tracing bundle watermarks |

An operation the source performs by changing rows or fields is a method of a class, proved equal to a
specification function of the old state; runs are sequences of steps of that function, and the main results
hold for every run. A transaction is one atomic step; awaited reads and writes outside a transaction are
separate steps. The clock, random ids, hashes, keyed hashes, the public-suffix list, the feature catalogue,
password checks, whether a best-effort write succeeds, and the outcome of calls to Stripe or the disk are
inputs. Signature verification is modelled by which tokens were issued.

## Where the code and its comments disagree

The model follows the code.

- A mint of `issue` and `issueFromSnapshot` lets the signer read the clock again, so a token may outlive its
  term by the time between the two readings. When exactly it does: `UnpinnedClockOutlivesTermExactly` and, for the
  rows, `IssuedRowOutlivesTermExactly`, `SoldRowOutlivesTermExactly`, `SwapOutlivesTermExactly`. One second between
  the readings is enough for an issue, a sale and a regenerate: `ClockTickOutlivesTerm`.
- The comment on the order service promises a per-order guard against a second mint; it reads a relation that
  is not loaded and never fires (`StepsAloneEqualFulfil`). Saving a whole order row also writes back the delivered
  flag it read earlier, so the single-use retrieval can be re-opened. An order hands out at most one key in every
  run exactly when nobody pays it in full, or all its deliveries do, with one event, and its mint never fails
  permanently (`OneKeyPerOrderExactly`). Each way out of that has its failing runs: a second event
  (`SecondEventMintsAndHandsOutAgain`), one event delivered twice with one permanent failure
  (`FailedTwinHandsOutAgain`), a delivery of the wrong amount (`MismatchHandsOutAgain`). The same stale save turns an
  order that has its licence back to failed: over all runs `MintedOrderStaysExactly`, and even with nothing in between
  `LateDeliveryFailsSoldOrderExactly`.
- Any mint error whose message mentions a constraint is acknowledged as a duplicate: `PaidWithoutTraceExactly`, with
  a failed foreign key as the input (`ForeignKeyFailureLeavesNoTrace`).
- The two regenerates accept a revoked source, and exactly then a family gains a live credential: `SwapLiveCredentials`,
  over runs `LiveCredentialsAlong`. One licence regenerated twice has two live successors: `RegeneratedTwiceLivesTwice`.
- A renewal with no linked package makes a perpetual licence finite: `RenewKeepsPerpetualExactly`. Deleting the package
  before the renewal does it: `RenewalMayEndPerpetual`.
- A renewal draws a fresh licence id, so every token handed out before it stops refreshing: `TokenFindsRowExactly`.
- One pass of the host cleanup strips the final dot before the port, so what it stores may still end in a dot, and
  storing it again changes it: `OnePassSettlesExactly`, `StoredListIsStableExactly`, with the input
  `DotBeforePortUnsettles`.
- A renewal is called a term extension, but it stores the new token's own end as the boundary, so a short renewal
  cuts a longer term: `RenewalMovesBoundaryBackExactly`, `RenewalMayCutYearlyTerm`.
- A claim may spend a purchase newer than the one it hands over: it spends what it read exactly when no create
  re-armed that row in between (`ClaimSpendsWhatItReadExactly`, with the run `ClaimMaySpendNewerPurchase`).
- `create` can report success without arming, exactly when the row it read is gone (`SuccessArmsExactly`, with the run
  `SuccessMayArmNothing`).
- A check that read a seat as blocked may block it again after another check granted it:
  `GrantedSeatLostOnlyToStaleRead`, with the run `GrantMayBeLost`.
- The role service's comment promises that a manager of users always remains; role edits do not check it:
  `RoleEditMayRemoveLastManager`, `RoleEditKeepsManagerExactly`.
- Rollback may target a retired version, which default resolution then refuses: `RolledBackServesExactly`, with the
  run `RollbackMayStrandDefaults`.
- The plan of a session is chosen without the version the client names, so a named version can lose a paid feature:
  `PackageIsWholeExactly` says when, `NamedVersionMayLoseFeature` opens such a session.
- The signature codec is exact for widths up to 61 bytes, one more than the one-byte length alone suggests:
  `WidthBoundIsExact`.

## Model

| member | source | states |
|---|---|---|
| SignatureCodec.P1363ToDer | src/licensing/license-signer.service.ts:243-259 | the loop encoder computes exactly the DER form of a fixed-width signature, refusing odd lengths |
| SignatureCodec.DerToP1363 | src/licensing/license-signer.service.ts:262-278 | the offset-driven decoder computes exactly the two left-padded fields, or the same refusal |
| SignatureCodec.EncodeIntegerBytes | src/licensing/license-signer.service.ts:246-254 | stripping and sign byte yield the INTEGER octets of the specification |
| SignatureCodec.ReadField | src/licensing/license-signer.service.ts:265-276 | one INTEGER is read, stripped and padded as specified, moving the offset past it |
| SignatureCodec.SignatureSurvives | src/licensing/license-signer.service.ts:243-278 | a signature of any width whose DER body is at most 128 bytes decodes back to itself |
| SignatureCodec.WidthBoundIsExact | src/licensing/license-signer.service.ts:243-278 | every signature of a width survives the round trip if and only if the width is at most 61 |
| SignatureCodec.LongBodyFails | src/licensing/license-signer.service.ts:258-263 | from width 62 on some signature's DER form is refused by the decoder |
| SignatureCodec.CanonicalSurvives | src/licensing/license-signer.service.ts:246-276 | a canonical INTEGER below 256^size keeps its value in the field and encodes back to the same octets |
| SignatureCodec.CanonicalDerSurvives | src/licensing/license-signer.service.ts:243-278 | a canonical DER pair survives decode and encode byte for byte, with both values kept |
| DurationPolicy.ClampedMintEndsWithTerm | src/licensing/duration-policy.ts:137-148 | a mint inside a finite term expires after it starts and no later than the term plus the gap between clock readings, within the signer's maximum |
| DurationPolicy.UnpinnedClockOutlivesTermExactly | src/licensing/duration-policy.ts:137-148 | for every requested lifetime a token stays within its finite term exactly when the signer's clock has not moved, or the signer's maximum or the lifetime asked for fits from the later reading |
| DurationPolicy.CarryKeepsBoundary | src/licensing/duration-policy.ts:187-195 | the boundary a swap stores is read back as the very same boundary, still running |
| DurationPolicy.StampReadsBack | src/licensing/duration-policy.ts:116-177 | a stamped term is read back whatever the package later becomes |
| DurationPolicy.PackageEditsMoveOnlyLegacyTerms | src/licensing/duration-policy.ts:158-177 | a package edit can move a row's boundary exactly when the row never stored one |
| DurationPolicy.MintLivesExactly | src/licensing/duration-policy.ts:137-148 | the life of every mint: inside a finite term the shortest of what is asked, what is left and the signer's maximum; past it, by the stored sentinel and by infinity what is asked or the fallback |
| DurationPolicy.IntervalsBuyExactly | src/licensing/duration-policy.ts:60-123 | what each interval name buys: 30 or 365 days or for ever, and the life of a token within it unless the package overrides it |
| DurationPolicy.LegacyBoundaryExactly | src/licensing/duration-policy.ts:158-177 | a row without a stored boundary ends 30 or 365 days after it was created, or issued where that is unknown, or never for a lifetime package |
| LicenseLifecycle.FamilyNeverOutlivesTerm | src/licensing/license.service.ts:106-161 | from a package issue, over any run of refreshes, swaps, revocations and package edits, every token of the family ends with the stamped term and every row keeps it |
| LicenseLifecycle.SoldFamilyNeverOutlivesTerm | src/licensing/license.service.ts:170-253 | the same for a licence minted from a sale's snapshot, with one clock reading per operation |
| LicenseLifecycle.FamilyKeepsTerm | src/licensing/license.service.ts:428-546 | any run that does not renew a family leaves its term and bounds all its tokens |
| LicenseLifecycle.IssuedRowOutlivesTermExactly | src/licensing/license.service.ts:127-140 | an issued row's token runs past its stamped term exactly when it is not signed in time, for the lifetime `issue` really asks for |
| LicenseLifecycle.SnapshotMintOutlivesTermExactly | src/licensing/license.service.ts:208-231 | the same for every mint from a snapshot whose boundary is ahead, sales and swaps alike |
| LicenseLifecycle.SoldRowOutlivesTermExactly | src/licensing/license.service.ts:208-253 | the same on the row a sale inserts |
| LicenseLifecycle.SwapOutlivesTermExactly | src/licensing/license.service.ts:469-484 | a swapped row's token runs past its carried boundary exactly when the clock has moved and the signer's maximum does not fit |
| LicenseLifecycle.ClockTickOutlivesTerm | src/licensing/license.service.ts:127-231 | a monthly issue, sale and regenerate whose signer reads the clock a second later each outlive their term by that second |
| LicenseLifecycle.StoredTokensEndWithTerm | src/licensing/license.service.ts:265-318 | over any run of all operations, renewals included, no row with a stored term holds a token that ends later, up to the gap between clock readings |
| LicenseLifecycle.RenewalMovesBoundaryBackExactly | src/licensing/license.service.ts:283-314 | where a renewal puts the boundary, and that it moves it back exactly when the package is not lifetime and more is left than the renewal grants |
| LicenseLifecycle.RenewalMayCutYearlyTerm | src/licensing/license.service.ts:283-314 | a state in which an hour's renewal cuts a fresh yearly term to that hour |
| LicenseLifecycle.SwapRespects | src/licensing/license.service.ts:428-484 | a credential swap inherits the family's boundary and mints within it |
| LicenseLifecycle.SwapCallsRespect | src/portal/portal-license.service.ts:72-127 | admin regenerate, rebind and self-serve regenerate all keep the boundary |
| LicenseLifecycle.RefreshRowRespects | src/portal/refresh.service.ts:130-200 | a refresh mints within the boundary and leaves it stored |
| LicenseLifecycle.IssueOpensFamily | src/licensing/license.service.ts:106-161 | a successful issue starts a family of one row whose first token is within its term |
| LicenseLifecycle.SaleOpensFamily | src/licensing/license.service.ts:208-253 | so does a mint from a snapshot without a carried boundary |
| LicenseLifecycle.SnapshotSells | src/licensing/license.service.ts:170-253 | a row minted from a snapshot has its customer, package link, features, flag, and its own hosts or else the customer's |
| LicenseLifecycle.NextKeepsValid | src/licensing/entities/license.entity.ts:26-110 | every call keeps licence ids unique and each row's current token claiming exactly the row's licence id, features, domains and dates |
| LicenseLifecycle.RevocationIsPermanent | src/licensing/license.service.ts:320-325 | over any run a revoked row stays revoked and no token is ever minted for it |
| LicenseLifecycle.RemindedAtMostOnce | src/portal/refresh.service.ts:165-200 | between two renewals of a row its customer is reminded at most once |
| LicenseLifecycle.PerpetualNeverLapses | src/licensing/duration-policy.ts:158-195 | a perpetual family is never refused as ended nor reminded, and stays perpetual, over any run whose renewals find a lifetime package |
| LicenseLifecycle.RenewKeepsPerpetualExactly | src/licensing/license.service.ts:283-311 | a renewal leaves a perpetual licence perpetual if and only if its package is linked and lifetime |
| LicenseLifecycle.RenewalMayEndPerpetual | src/licensing/license.service.ts:283-311 | any perpetual licence with a package: delete the package, renew, and it ends at the configured default |
| LicenseLifecycle.SwapLiveCredentials | src/licensing/license.service.ts:428-546 | a successful regenerate, rebind or portal regenerate replaces one live credential by one, and the family gains one exactly when the source was already revoked, which a rebind refuses |
| LicenseLifecycle.RegeneratedTwiceLivesTwice | src/licensing/license.service.ts:433-484 | a licence whose row is regenerated twice ends with two live successors |
| LicenseLifecycle.RegenerateKeepsDomainsExactly | src/licensing/license.service.ts:469-476 | regenerating keeps the stored domains exactly when the list is in normal form, and always the sharing flag |
| LicenseLifecycle.RefreshFindsRow | src/portal/refresh.service.ts:102-135 | the licence id of an authentic token finds its one row |
| LicenseLifecycle.SwapCallSwaps | src/licensing/license.service.ts:428-546 | the three swapping calls revoke the one row and add one successor for the same customer, package, features, sharing flag, family and boundary, on the old hosts or those it is rebound to, with a token within the boundary, or write nothing; the tables stay well formed |
| LicenseLifecycle.IssueIssues | src/licensing/license.service.ts:106-161 | an issue adds one row for this customer and package, with its features, the hosts given or else the customer's, a stamped term and a token within it, or writes nothing |
| LicenseLifecycle.RenewRenews | src/licensing/license.service.ts:265-318 | a renewal touches one live row, keeps what it and its token grant, resets the reminder, and its boundary becomes its token's own end or stays perpetual, or it writes nothing |
| LicenseLifecycle.RefreshRefreshes | src/portal/refresh.service.ts:130-204 | a refresh touches one live row inside its term and only rolls its token, which carries the row's own licence id, features and domains and ends with the boundary, or writes nothing |
| LicenseDecisions.IssueSucceedsExactly | src/licensing/license.service.ts:106-161 | an issue succeeds exactly for a known customer, an active package whose features are all known and sellable, hosts where it is bound, none over-broad and no more sites than allowed, and fresh ids |
| LicenseDecisions.SaleSucceedsExactly | src/licensing/license.service.ts:170-231 | so does a sale, which asks for sellable features only where it does not honour what was sold |
| LicenseDecisions.SwapCallSucceedsExactly | src/licensing/license.service.ts:428-546 | a regenerate succeeds exactly in its term and with an active package or none, revoked or not; a rebind also needs hosts and a live licence; the owner's own needs the owner and the term |
| LicenseDecisions.RenewSucceedsExactly | src/licensing/license.service.ts:265-276 | a renewal succeeds exactly for a live licence with known features and an active package or none |
| LicenseDecisions.RefreshDecidesExactly | src/portal/refresh.service.ts:130-160 | a refresh is refused as revoked, then as ended, then as from elsewhere, then as too often, and otherwise mints |
| LicenseDecisions.RemovedPackageExactly | src/licensing/entities/license.entity.ts:38-46 | deleting a package takes exactly it and every licence's link to it |
| LicenseDecisions.IssuedTokenLivesExactly | src/licensing/license.service.ts:127-140 | an issued token lives as long as asked or as the package says, within what is left of its term |
| LicenseDecisions.SnapshotTokenLivesExactly | src/licensing/license.service.ts:208-231 | so does one minted from a snapshot, sale or swap |
| LicenseDecisions.RefreshedTokenLivesExactly | src/portal/refresh.service.ts:157-180 | a refreshed token lives as its package says within what is left of the term, and without a package all of that |
| LicenseDecisions.RenewedTokenLivesExactly | src/licensing/license.service.ts:283-314 | the life of a renewed token, with a lifetime package and without |
| LicenseDecisions.RefreshRemindsExactly | src/portal/refresh.service.ts:182-204 | a refresh reminds exactly when it succeeds in the last week of a finite term for a customer with an address who was not reminded before, and records when |
| LicenseDecisions.RemindedExactlyOnce | src/portal/refresh.service.ts:165-204 | over any run without a renewal of the row in which it is refreshed in that last week, its customer is reminded exactly once |
| TokenHistory.TokenFindsRowExactly | src/portal/refresh.service.ts:102-135 | after any run a token minted at any point of it still finds its row, and refreshes it, exactly when the row was not renewed since; otherwise no row carries its id and it is refused |
| TokenHistory.EveryMintEndsWithLatestBoundary | src/licensing/license.service.ts:265-318 | over any run of all operations every token ever minted, replaced ones included, ends by the latest boundary its row has had, up to the gap between clock readings |
| TokenHistory.LiveCredentialsAlong | src/licensing/license.service.ts:320-546 | over any run the live credentials of a family are those it began with, plus the regenerates of a revoked row, minus the revocations of a live one |
| LicenseServices.LicenseTables.CheckSnapshot | src/licensing/license.service.ts:170-207 | the checks before a snapshot mint grant exactly the specified features and domains, or the same refusal |
| LicenseServices.LicenseTables.IssueFromSnapshot | src/licensing/license.service.ts:170-253 | mints and inserts the specified row, or leaves the tables as they were |
| LicenseServices.LicenseTables.Issue | src/licensing/license.service.ts:106-161 | the state and answer of the specified issue; on success one row for this customer, package and hosts, with the package's features and stamped term and a token within it, otherwise no change |
| LicenseServices.LicenseTables.SwapCredential | src/licensing/license.service.ts:455-484 | revoke and re-mint commit together or not at all |
| LicenseServices.LicenseTables.Regenerate | src/licensing/license.service.ts:428-484 | the state and answer of the specified regenerate; on success the source is revoked and one successor carries its customer, package, features, hosts and boundary, otherwise no change |
| LicenseServices.LicenseTables.RegenerateWithDomains | src/licensing/license.service.ts:494-546 | the same for a rebind, which also refuses a revoked source |
| LicenseServices.LicenseTables.RegenerateForCustomer | src/portal/portal-license.service.ts:72-127 | the same for the owner's own regenerate |
| LicenseServices.LicenseTables.Renew | src/licensing/license.service.ts:265-318 | the state and answer of the specified renewal; on success one live row changes, grants what it granted, and its boundary is its token's end or perpetual |
| LicenseServices.LicenseTables.Revoke | src/licensing/license.service.ts:320-325 | changes the status of exactly the one row |
| LicenseServices.LicenseTables.DoRefresh | src/portal/refresh.service.ts:102-204 | the state, answer and reminder of the specified refresh; on success only the row of that licence id changes, live and inside its term, and its new token carries the same features and domains |
| LicenseServices.LicenseTables.RefreshFound | src/portal/refresh.service.ts:130-204 | the same once the row is found, and a reminder only where none was sent |
| LicenseServices.LicenseTables.RemovePackage | src/licensing/entities/license.entity.ts:38-46 | deleting a package unlinks every licence of it and nothing else |
| DomainPolicy.NormalizeDomains | src/licensing/domain-policy.ts:49-71 | the loop over an insertion-ordered set computes the specified list |
| DomainPolicy.WildcardCoversOneLevel | src/licensing/domain-policy.ts:93-104 | `*.base` matches exactly base and one non-empty dot-free label before it, whatever the case |
| DomainPolicy.HostMatchesExactly | src/licensing/domain-policy.ts:93-104 | a host matches a pattern exactly by being its name, or by a wildcard of a proper base that reaches the apex and one label below; any other pattern covers nothing else |
| DomainPolicy.HostAllowedExactly | src/licensing/domain-policy.ts:106-111 | a licence bound to hosts admits exactly those it names and those its wildcards reach; one bound to none admits all |
| DomainPolicy.OverBroadIsRefused | src/licensing/domain-policy.ts:74-91 | a list is accepted exactly when no name and no wildcard's base in it is a bare top level or a listed suffix |
| DomainPolicy.PortIsDroppedExactly | src/licensing/domain-policy.ts:33-39 | a colon and decimal digits at the end of a host are taken off whole, and nothing else is |
| DomainPolicy.NormalizationIsIdempotent | src/licensing/domain-policy.ts:33-71 | normalising a stored list again gives the same list in the same order, for clean hosts without a doubled `www.` |
| DomainPolicy.NormalFormReplaysWhole | src/licensing/domain-policy.ts:49-71 | a list in normal form normalises to itself |
| DomainPolicy.OnePassSettlesExactly | src/licensing/domain-policy.ts:33-39 | for every raw host a second cleanup changes nothing exactly when the first leaves no blank, dot or port at the end |
| DomainPolicy.ReplaysWholeExactly | src/licensing/domain-policy.ts:49-71 | a list whose hosts do not begin with a blank passes unchanged exactly when every host is settled and every twin stands before or right behind its host |
| DomainPolicy.StoredListIsStableExactly | src/licensing/domain-policy.ts:33-71 | whatever raw hosts it came from, a stored list is stored again unchanged exactly under that condition |
| DomainPolicy.DotBeforePortUnsettles | src/licensing/domain-policy.ts:33-39 | any clean host with a dot and a port behind it: storing the stored list again binds a host that was not in it |
| DomainPolicy.SingleHostIsStableExactly | src/licensing/domain-policy.ts:49-71 | for one clean host a second pass changes the list exactly for a doubled `www.` without a wildcard |
| DomainPolicy.SecondPassIsStableExactly | src/licensing/domain-policy.ts:49-71 | for any list of clean hosts a second pass gives the same list exactly when every twin in the first result stands before or right behind its host |
| DomainPolicy.SecondPassAddsNothingExactly | src/licensing/domain-policy.ts:49-71 | a second pass binds no new host exactly when the twin of every given host's twin is given or is itself a twin of a given host |
| DomainPolicy.BothTwinsAllowed | src/licensing/domain-policy.ts:49-111 | giving either twin of a two-label apex admits both |
| DomainPolicy.SitesExactly | src/licensing/license.service.ts:599-608 | the sites of a list are its hosts without a leading `www.` |
| DomainPolicy.ApexCountsOnce | src/licensing/domain-policy.ts:49-71 | one two-label apex is stored as both twins and uses up one site |
| RateLimiter.RefreshRateLimiter.TryRefresh | src/portal/refresh-rate-limiter.ts:35-55 | the map and decision after one call are those of the specified limiter |
| RateLimiter.AllowKeepsValid | src/portal/refresh-rate-limiter.ts:35-55 | keys stay distinct, insertion order stays reset order, and the map never exceeds its bound |
| RateLimiter.BoundedEqualsUnbounded | src/portal/refresh-rate-limiter.ts:35-55 | on a run over at most the bound's number of keys every decision equals that of a limiter that never forgets |
| RateLimiter.LiveEvictionNeedsFullMap | src/portal/refresh-rate-limiter.ts:40-50 | a live window is evicted only behind a full map of other keys whose windows opened no earlier |
| RateLimiter.IntervalBound | src/portal/refresh-rate-limiter.ts:35-55 | any interval of one window's length admits at most 2*limit-1 calls of a key not evicted while live, and at most limit where a window is one millisecond |
| RateLimiter.IntervalBoundIsReached | src/portal/refresh-rate-limiter.ts:35-55 | in every configuration a run of one key in time order attains that bound |
| SeatCap.LicenseInstallService.Check | src/delivery/license-install.service.ts:80-125 | the whole new table and answer of one check, including the bypasses, the fail-open answer of a failed read and an ignored failed write |
| SeatCap.LicenseInstallService.ActiveCount | src/delivery/license-install.service.ts:127-134 | counts the unblocked seats of the licence |
| SeatCap.LicenseInstallService.Record | src/delivery/license-install.service.ts:136-147 | inserts the seat, or leaves the table when the key exists or the insert fails |
| SeatCap.LicenseInstallService.Touch | src/delivery/license-install.service.ts:149-158 | rewrites the block flag of the row that was read if it is still there and the update succeeds |
| SeatCap.LicenseInstallService.Release | src/delivery/license-install.service.ts:170-173 | removes exactly the one seat and says whether there was one |
| SeatCap.CheckAnswersExactly | src/delivery/license-install.service.ts:80-125 | a check is allowed exactly for an active seat or with one free; its seat is then active, else blocked; it tells the count and whether the seat is new; no other seat changes |
| SeatCap.VisitsWriteExactly | src/delivery/license-install.service.ts:80-173 | a check without a cap or whose write fails leaves the table; a release takes one seat |
| SeatCap.ChecksStartAndEndExactly | src/delivery/license-install.service.ts:80-125 | a check gets under way exactly with a cap, on the seat as it is, and ends with its write or failure |
| SeatCap.SequentialKeepsCap | src/delivery/license-install.service.ts:80-173 | over any sequence of whole checks and releases the active seats of a licence never exceed its fixed cap |
| SeatCap.GrantedSeatStaysAllowed | src/delivery/license-install.service.ts:80-173 | over any sequence of whole checks and releases, under any caps, a granted seat is kept and allowed until it is itself released |
| SeatCap.OtherLicencesUnaffected | src/delivery/license-install.service.ts:80-125 | a check leaves every other licence's seats as they were |
| SeatCap.OverlapBound | src/delivery/license-install.service.ts:80-158 | under every interleaving of at most n overlapping checks, with releases, the active seats stay within cap-1+n |
| SeatCap.OverlapBoundIsReached | src/delivery/license-install.service.ts:80-158 | for every cap and every number of overlapping checks a run from the empty table attains that bound |
| SeatCap.AloneIsSequential | src/delivery/license-install.service.ts:80-125 | the steps of one check with nothing in between are the whole check |
| SeatCap.GrantedSeatLostOnlyToStaleRead | src/delivery/license-install.service.ts:149-158 | a granted seat becomes blocked exactly when a check that read it earlier writes a refusal |
| SeatCap.GrantMayBeLost | src/delivery/license-install.service.ts:80-158 | a run from an empty table in which a check that saw the licence full blocks a seat granted since |
| Activation.LicenseActivationService.Create | src/delivery/license-activation.service.ts:46-69 | arms a new row or re-arms the install's row, with the whole new table; an error is reported as false and changes nothing |
| Activation.LicenseActivationService.Redeem | src/delivery/license-activation.service.ts:86-110 | hands over the licence and spends the row exactly when it is unclaimed, its window open and no query fails; what it hands over it marks as claimed |
| Activation.LicenseActivationService.PruneExpired | src/delivery/license-activation.service.ts:124-127 | removes exactly the expired unclaimed rows and counts them |
| Activation.ClaimsNeverExceedArmings | src/delivery/license-activation.service.ts:46-127 | over every interleaving each arming is spent at most once, claims per install never exceed armings, and each claim is justified by an arming of that licence whose window was open |
| Activation.OneRedemptionPerArming | src/delivery/license-activation.service.ts:83-110 | the same from an empty table with nothing assumed of the steps |
| Activation.CleanedStripsBlanks | src/delivery/license-activation.service.ts:46-52 | an install id loses the blanks at its ends and nothing else; an absent one is blank |
| Activation.ArmedExactly | src/delivery/license-activation.service.ts:46-69 | the write of a create arms the install for its licence and window, or changes nothing where the row it read is gone or another was inserted |
| Activation.NothingBlankIsArmed | src/delivery/license-activation.service.ts:46-52 | over every run no blank install or licence is ever armed |
| Activation.RequestsAreTheirOwn | src/delivery/license-activation.service.ts:46-110 | a running create or claim is not taken over by another, and its failure ends it without a trace |
| Activation.PruneRemovesExactly | src/delivery/license-activation.service.ts:124-127 | pruning removes exactly the unclaimed rows whose window closed before the moment given |
| Activation.PurchaseCanBeRedeemed | src/delivery/license-activation.service.ts:46-127 | after a create, for all of its 48 hours and over any run without a claim of that install, a claim hands over the licence armed and spends its arming |
| Activation.SuccessArmsExactly | src/delivery/license-activation.service.ts:46-75 | a reported success armed the install exactly unless the row it read is gone |
| Activation.SuccessMayArmNothing | src/delivery/license-activation.service.ts:46-69 | a run from an empty table in which a prune between a create's read and write makes it succeed without arming |
| Activation.ClaimSpendsWhatItReadExactly | src/delivery/license-activation.service.ts:86-110 | in every run a successful claim hands over the licence it read, and spends the arming it read exactly when no create that had read that very row wrote in between |
| Activation.ClaimMaySpendNewerPurchase | src/delivery/license-activation.service.ts:83-110 | a run in which a claim returns the older licence and spends the newer arming |
| Fulfilment.OrderService.FulfillFromEvent | src/billing/order.service.ts:142-246 | a whole delivery leaves exactly the specified tables and reply; with no order nothing is recorded and a retry is asked |
| Fulfilment.OrderService.RetrieveLicenseOnce | src/billing/order.service.ts:442-470 | only an undelivered fulfilled order yields its key, and then marks it delivered |
| Fulfilment.OrderService.FindBySession | src/billing/order.service.ts:294-296 | finds an order with the session, or none has it |
| Fulfilment.FulfilmentIsLedgered | src/billing/order.service.ts:142-246 | under concurrent, repeated and failing deliveries ledger rows and mints are in bijection, each mint paid its order's price, and each key handed out was minted for its order |
| Fulfilment.LedgerMovesOnlyOnCommit | src/billing/order.service.ts:175-246 | only a commit, for a new event that paid the order's price in its currency, adds to the ledger and mints, exactly one of each |
| Fulfilment.MismatchExactly | src/billing/order.service.ts:172-178 | a payment is right exactly when it is the order's amount and its currency, if told, is the order's but for the case of letters |
| Fulfilment.DeliveryMintsExactly | src/billing/order.service.ts:142-246 | a whole delivery mints exactly for a new event paid in full whose mint throws nothing; then the order is fulfilled by it with that licence; other orders never change |
| Fulfilment.DeliveryStartsExactly | src/billing/order.service.ts:154-162 | a delivery gets under way exactly with the order it names, or without an order id that of its session |
| Fulfilment.LostRaceIsHarmless | src/billing/order.service.ts:191-242 | a paid delivery that lost the race for its event leaves the order alone and is done |
| Fulfilment.RequestsAreTheirOwn | src/billing/order.service.ts:142-470 | a running request is not taken over by another, and a crash ends it without a trace |
| Fulfilment.SaveOverwritesExactly | src/billing/order.service.ts:177-236 | saving a loaded order writes all its loaded columns over the row, and the licence only where it carries one |
| Fulfilment.ReaderStartsExactly | src/billing/order.service.ts:442-470 | a reader gets to a key only over a fulfilled order with a licence, and asks once |
| Fulfilment.OneKeyPerOrderUnlessFlagCleared | src/billing/order.service.ts:442-470 | keys handed out per order never exceed one plus the times a save cleared the delivered flag |
| Fulfilment.OneKeyPerOrderWithOnePayer | src/billing/order.service.ts:142-246 | in a safe trade (nobody pays in full, or all who come do with one event and the order's mint never fails permanently) the order is minted at most once and hands out at most one key, in every run |
| Fulfilment.SecondEventMintsAndHandsOutAgain | src/billing/order.service.ts:154-162 | for any order and price, two fully paying events lead to two licences and two keys |
| Fulfilment.FailedTwinHandsOutAgain | src/billing/order.service.ts:229-236 | for any order and paying event, two overlapping deliveries of that one event lead to two keys when one mint fails permanently |
| Fulfilment.MismatchHandsOutAgain | src/billing/order.service.ts:177-188 | so does a delivery of the wrong amount that found the order before it was paid |
| Fulfilment.OneKeyPerOrderExactly | src/billing/order.service.ts:142-470 | for deliveries that name the order or its one session, at most one key is handed out in every run if and only if the trade is safe |
| Fulfilment.MintedOrderStaysExactly | src/billing/order.service.ts:177-236 | an order that has a licence is never turned back to failed in any run of its deliveries if and only if nobody pays, or everyone pays and no mint fails permanently |
| Fulfilment.LateDeliveryFailsSoldOrderExactly | src/billing/order.service.ts:142-236 | one whole delivery turns a fulfilled order to failed, keeping its licence and taking its event, exactly when the event is new and its amount is wrong or its mint is rejected |
| Fulfilment.PaidWithoutTraceExactly | src/billing/order.service.ts:221-246 | a paid delivery of a pending order is acknowledged without mint or mark exactly when the mint throws no rejection but an error whose lower-cased message contains duplicate, unique, er_dup_entry or constraint |
| Fulfilment.ForeignKeyFailureLeavesNoTrace | src/billing/order.service.ts:238-242 | a paid delivery whose mint fails on a foreign key is acknowledged and changes nothing |
| Fulfilment.StepsAloneEqualFulfil | src/billing/order.service.ts:142-246 | the interleaved steps run alone are the whole delivery, in which the per-order guard never fires |
| AccessControl.AccessTables.Issue | src/auth/auth.service.ts:81-92 | issues the specified pair, both good exactly when the user is active, and replaces the refresh id |
| AccessControl.AccessTables.VerifyActiveAccess | src/auth/auth.service.ts:95-117 | accepts exactly unexpired issued tokens of an active user at the user's version |
| AccessControl.AccessTables.RefreshPair | src/auth/auth.service.ts:125-143 | answers exactly when the unexpired token redeems, with a pair that is good; a replayed one ends the session, an expired one does nothing |
| AccessControl.AccessTables.BumpTokenVersion | src/auth/auth.service.ts:146-149 | raises the version and drops the refresh session of one user |
| AccessControl.AccessTables.InvalidateUsersWithRole | src/admin/rbac.service.ts:249-256 | the loop bumps every holder once and nobody else |
| AccessControl.AccessTables.AddRole | src/admin/rbac.service.ts:67-75 | adds one non-system role within the actor's own authority, or refuses; the tables stay well formed |
| AccessControl.AccessTables.EditRoleOf | src/admin/rbac.service.ts:77-99 | rewrites one role within the actor's own authority and moves every holder a token version on, or refuses; the tables stay well formed |
| AccessControl.AccessTables.RemoveRole | src/admin/rbac.service.ts:101-109 | deletes only an unheld, non-system role |
| AccessControl.AccessTables.AddUser | src/admin/rbac.service.ts:118-128 | adds one user whose roles the actor may grant, or refuses; the tables stay well formed |
| AccessControl.AccessTables.EditUserOf | src/admin/rbac.service.ts:130-166 | patches one user, a token version on when anything but the name changed, or refuses; the tables stay well formed |
| AccessControl.AccessTables.RemoveUser | src/admin/rbac.service.ts:168-175 | deletes any user but the last manager |
| AccessControl.AccessTables.IsOnlyManager | src/admin/rbac.service.ts:241-246 | says exactly whether this user is the only active manager |
| AccessControl.AccessTables.ActorCanGrantRoles | src/admin/rbac.service.ts:209-219 | the loop decides exactly whether the actor holds all the roles grant, none the wildcard |
| AccessControl.NextKeepsValid | src/auth/auth.service.ts:81-149 | every login, exchange, logout and edit keeps each issued token either current or dead |
| AccessControl.AcceptedTokenIsCurrent | src/auth/auth.service.ts:105-117 | in every reachable state an accepted access token was issued, its user is active, and it carries exactly the permissions of the user's current roles, or the wildcard alone where they grant it |
| AccessControl.OnlyLatestRefreshRedeems | src/auth/auth.service.ts:119-143 | of all refresh tokens a user was given at most one redeems, and it is the latest, issued to a user who is active |
| AccessControl.ReuseRevokesFamily | src/auth/auth.service.ts:136-140 | replaying a rotated token kills every access and refresh token of the user |
| AccessControl.RevocationIsPermanent | src/auth/auth.service.ts:105-149 | an access token once refused is refused in every later state |
| AccessControl.SystemRolesAreFrozen | src/admin/rbac.service.ts:77-109 | over every run system roles are unchanged and only they hold the wildcard |
| AccessControl.PermissionsComeFromActors | src/admin/rbac.service.ts:67-219 | when no acting token holds the wildcard, every permission a user ends with was initially the user's own or an acting user's |
| AccessControl.EditsKeepAManager | src/admin/rbac.service.ts:130-175 | every edit except a role's leaves an active manager if there was one |
| AccessControl.RoleEditKeepsManagerExactly | src/admin/rbac.service.ts:77-99 | a role edit leaves a manager exactly when someone active manages without the role or holds it and it still grants it |
| AccessControl.RoleEditMayRemoveLastManager | src/admin/rbac.service.ts:77-99 | a state in which the only manager's own edit leaves none |
| AccessDecisions.PermissionsResolveExactly | src/admin/rbac.service.ts:178-205 | keys resolve exactly when each, blanks aside, is in the catalogue, not the wildcard and held by the actor, and then to exactly those permissions |
| AccessDecisions.CreatedRoleExactly | src/admin/rbac.service.ts:67-75 | a role is created exactly with a free name and grantable keys, and has exactly the permissions given |
| AccessDecisions.EditedRoleExactly | src/admin/rbac.service.ts:77-99 | a role edit succeeds exactly for a non-system role, a free name and grantable keys; name and permissions become those given or stay, and each holder moves a token version on |
| AccessDecisions.DroppedRoleExactly | src/admin/rbac.service.ts:101-109 | a role is deleted exactly when it is no system role and nobody holds it |
| AccessDecisions.CreatedUserExactly | src/admin/rbac.service.ts:118-128 | a user is created exactly with a free address and roles within the actor's authority, active and with exactly those roles |
| AccessDecisions.EditedUserExactly | src/admin/rbac.service.ts:130-166 | a user edit succeeds exactly within the actor's authority, not on one's own roles, and with a manager left; it sets what it names, and moves the token version exactly for roles, password or a change of activity |
| AccessDecisions.RemovedUserExactly | src/admin/rbac.service.ts:168-175 | a user is deleted exactly unless it is the last manager of users |
| AccessDecisions.EditsNeedPermission | src/admin/admin.controller.ts:426-458 | an edit is forbidden exactly without the wildcard and without role.manage for roles or user.manage for users |
| AccessDecisions.LoginOpensSessionExactly | src/auth/auth.service.ts:81-92 | a login leaves an active user, and no other, with a working pair of tokens |
| AccessDecisions.LogoutEndsSessionsExactly | src/auth/auth.service.ts:146-149 | a logout with a working token ends all tokens of its user and of nobody else; any other changes nothing |
| AccessDecisions.EditTakesEffectExactly | src/auth/auth.service.ts:95-117 | an edit takes effect exactly with a working token and where its rules allow it |
| VersionResolution.FeaturesPartition | src/licensing/version-resolution.ts:108-137 | granted and missing split the package as multisets, both sorted, granted within and missing outside the build |
| VersionResolution.GrantIgnoresOrder | src/licensing/version-resolution.ts:108-119 | the grant does not depend on the order of either list |
| VersionResolution.GrantedWholeExactly | src/licensing/version-resolution.ts:108-137 | the package is granted whole, and nothing is missing, exactly when the build supports all of it |
| VersionResolution.WildcardGrantsBuild | src/licensing/version-resolution.ts:112-134 | the wildcard grants the build's own list, sorted, and misses nothing |
| VersionResolution.ChoiceOutranksDefaults | src/licensing/version-resolution.ts:72-79 | with a pin or override the version and its source are the same under any canary and defaults |
| VersionResolution.FirstNamedVersionWins | src/licensing/version-resolution.ts:72-79 | the version is the first one named of pin, override, trial, channel default and global default, with its place |
| VersionResolution.ChannelsAllowExactly | src/licensing/version-resolution.ts:149-160 | stable builds are for everyone, beta builds for beta and internal callers, internal builds for internal callers |
| EngineRegistry.HistoryIsLinked | src/licensing/engine-version.service.ts:148-207 | while history writes succeed, each scope's rows are a path without self-loops that ends at its pointer |
| EngineRegistry.RollbackReturnsExactly | src/licensing/engine-version.service.ts:217-249 | rollback works exactly when a recorded previous version is complete, and then returns to it, changing nothing else |
| EngineRegistry.TwoRollbacksRestore | src/licensing/engine-version.service.ts:236-249 | two rollbacks in a row put every pointer back |
| EngineRegistry.RollbackUndoesRelease | src/licensing/engine-version.service.ts:148-249 | after a recorded release and any work that leaves the scope's pointer and stored bytes alone, rollback returns to the version before it |
| EngineRegistry.PinnedDeliveryIsFixed | src/licensing/engine-version.service.ts:438-720 | a pinned caller's whole delivery is the same in every later state and under any defaults |
| EngineRegistry.DeliveryDecidesExactly | src/licensing/engine-version.service.ts:664-720 | for every caller: when a delivery is refused, for which reason, and otherwise the artifact of the very build decided on |
| EngineRegistry.DefaultsRespectChannels | src/licensing/engine-version.service.ts:695-708 | a caller who chose no version never gets a retired build, a stable one only stable builds, a beta one never an internal build |
| EngineRegistry.RolledBackServesExactly | src/licensing/engine-version.service.ts:175-180 | after a rollback of the global or a channel's pointer, recorded or not, a caller that pointer decides for is served exactly when the target's build of its plan is there, not retired, and stable or of the caller's own channel, or the caller is internal |
| EngineRegistry.RollbackMayStrandDefaults | src/licensing/engine-version.service.ts:175-180 | from any complete current version: release another, retire the old one, roll back; the rollback succeeds and every caller it decides for on a required plan is refused |
| EngineRegistry.PlanIsSmallestSufficient | src/licensing/engine-version.service.ts:283-309 | the plan is free exactly when nothing is asked for or the free build has it all, else one whose build covers the package whenever some build does |
| EngineRegistry.CanaryGrows | src/licensing/canary.ts:54-68 | raising a trial's share never drops a caller who was in it |
| EngineRegistry.TrialReachesExactly | src/licensing/engine-version.service.ts:324-342 | the version on trial, of the caller's channel or else the global one, goes exactly to identities whose bucket is below its share |
| EngineRegistry.TrialShareIsExact | src/licensing/canary.ts:54-68 | a share of p percent admits exactly p of the hundred buckets |
| EngineRegistry.TrialStartsExactly | src/licensing/engine-version.service.ts:351-374 | a trial starts exactly on a complete version, with its share clamped |
| EngineRegistry.CompleteExactly | src/licensing/engine-version.service.ts:601-617 | a version is complete exactly when its free and its premium build both have stored bytes |
| EngineRegistry.DefaultMovesExactly | src/licensing/engine-version.service.ts:148-207 | a default moves exactly to a complete version without a retired build, which a rollback does not ask, and records the move where it is one |
| EngineDecisions.PublishedExactly | src/licensing/engine-version.service.ts:438-507 | a build is published exactly once for its version and plan, with features, a SHA-256 digest and bytes that fit it, and exactly as given but unretired |
| EngineDecisions.BuildsAreSound | src/licensing/engine-version.service.ts:438-507 | over every run each build has features and a digest of sixty-four hexadecimal digits |
| EngineDecisions.RestoredExactly | src/licensing/engine-version.service.ts:554-581 | bytes are put back exactly for a known build they are the bytes of, which is told whether they had been missing |
| EngineDecisions.BytesMoveExactly | src/licensing/engine-version.service.ts:523-581 | what is downloadable after bytes are stored, lost, or put back, which only the bytes of a known build are |
| EngineDecisions.HaltedTrialReachesNobody | src/licensing/engine-version.service.ts:383-390 | halting a trial ends exactly it, and with the global one halted a channel without its own has no trial |
| EngineDecisions.PromotedExactly | src/licensing/engine-version.service.ts:624-637 | exactly a complete version is promoted, and only the channel of its rows changes |
| EngineDecisions.RetiredExactly | src/licensing/engine-version.service.ts:644-652 | exactly a known version is retired, and only its rows are marked, with new notes where given |
| EngineRegistry.NextKeepsUnique | src/licensing/engine-version.service.ts:438-447 | no operation ever yields two rows of one version and plan |
| EngineRegistry.NextOutlives | src/licensing/engine-version.service.ts:438-652 | no operation changes a published build's features, key or digest |
| EngineServices.EngineVersionService.PublishBuild | src/licensing/engine-version.service.ts:438-507 | the specified registry or refusal; on success the build is found as published, downloadable if bytes came, and rows stay unique |
| EngineServices.EngineVersionService.RestoreBundleBytes | src/licensing/engine-version.service.ts:554-581 | the specified answer; on success the build is downloadable, and it says whether the bytes had been missing |
| EngineServices.EngineVersionService.Completeness | src/licensing/engine-version.service.ts:601-617 | names exactly the required plans without downloadable bytes |
| EngineServices.EngineVersionService.PromoteVersion | src/licensing/engine-version.service.ts:624-637 | of a complete version only, changes the channel of its rows and nothing else |
| EngineServices.EngineVersionService.RetireVersion | src/licensing/engine-version.service.ts:644-652 | retires exactly the version's rows and leaves every artifact and channel as it was |
| EngineServices.EngineVersionService.MoveDefault | src/licensing/engine-version.service.ts:148-207 | points the one scope at a complete version, not retired unless rolling back, or changes nothing; a recorded move keeps the history a path |
| EngineServices.EngineVersionService.Previous | src/licensing/engine-version.service.ts:217-226 | the search from the end finds where the scope's newest move came from |
| EngineServices.EngineVersionService.RollBack | src/licensing/engine-version.service.ts:236-249 | points the scope at the complete version before its newest move, or changes nothing; a recorded one keeps the history a path |
| EngineServices.EngineVersionService.BeginCanary | src/licensing/engine-version.service.ts:351-374 | starts a trial of a complete version with a share between 0 and 100, or refuses |
| EngineServices.EngineVersionService.PlanFor | src/licensing/engine-version.service.ts:283-309 | the search in cheapest-first order chooses the specified plan, and the richer one when rows are needed and cannot be read |
| EngineServices.EngineVersionService.Deliver | src/licensing/engine-version.service.ts:664-720 | the delivery or refusal of the specification, checking status and channel only for defaults |
| DeliverySession.SessionNeverOverpromises | src/delivery/session.service.ts:175-290 | every session, licensed, refused or anonymous, grants only features of the very build it names |
| DeliverySession.WholePackageIsGranted | src/delivery/session.service.ts:631-682 | if neither client nor trial moves the version and one build of it covers the package, an admitted session grants all of it, from the free build exactly when that suffices |
| DeliverySession.PackageIsWholeExactly | src/delivery/session.service.ts:208-231 | for any named version and trial, an admitted session that opens misses exactly the package features absent from the build its request leads to: the version decided, on the plan chosen for the licence's own version |
| DeliverySession.NamedVersionOpens | src/delivery/session.service.ts:208-231 | a request with a pinned or named version opens exactly when that version has a build of the chosen plan |
| DeliverySession.NamedVersionMayLoseFeature | src/delivery/session.service.ts:648-682 | a session that names a version and is served its free build without a paid feature the version's premium build has |
| DeliverySession.RefusedOpensAnonymous | src/delivery/session.service.ts:400-447 | a refused key opens the very session a stranger gets, unless policy narrows a revoked one |
| DeliverySession.AdmissionDecidesExactly | src/delivery/session.service.ts:538-577 | a key is admitted exactly when its licence is known, not revoked, not expired, asked for from a host it is bound to and has a seat; else the first of these that fails is the reason |
| DeliverySession.SessionIsLicensedExactly | src/delivery/session.service.ts:538-577 | every session that opens for a key is the licence's own, with its hosts, exactly in that case; any other carries no licence and the reason |
| DeliverySession.StrangersGetTheTier | src/delivery/session.service.ts:400-534 | strangers and refused keys are granted of the tier's list exactly what the build has, from the free build unless a designated tier allows more |
| DeliverySession.UnnamedVersionIsSafe | src/delivery/session.service.ts:208-231 | with no version named by client or licence, strangers get only unretired stable builds and licensed sessions unretired builds of at most their channel |
| DeliverySession.LicensedFeaturesExactly | src/delivery/session.service.ts:578-600 | a licensed session grants of its package, or its own list where the package has none, exactly what its build has |
| DeliverySession.SeatIsAskedLast | src/delivery/session.service.ts:546-577 | only for known licences neither revoked nor expired, asked for from a host they are bound to, on a capped package, can the session depend on the seat check |
| BundleStorage.LocalBundleStorage.Store | src/delivery/local-bundle-storage.ts:60-81 | a successful put is readable under its digest, and a broken one leaves every visible bundle as it was |
| BundleStorage.LocalBundleStorage.Fetch | src/delivery/local-bundle-storage.ts:83-91 | returns nothing or bytes that hash to the digest asked for |
| BundleStorage.DigestNamesExactly | src/delivery/local-bundle-storage.ts:30-58 | a name is a digest exactly when it is sixty-four lower-case hexadecimal digits, and nothing is found under any other |
| BundleStorage.FailuresTakeExactly | src/delivery/local-bundle-storage.ts:60-81 | a failed writer takes at most its own temporary file, a crash all writers and no file |
| BundleStorage.VisibleBundlesAreWhole | src/delivery/local-bundle-storage.ts:51-91 | under partial writes, failures, crashes and lost files every visible bundle hashes to its name and is one that was put |
| BundleStorage.StoredBundleStaysReadable | src/delivery/local-bundle-storage.ts:51-91 | once visible a bundle stays readable and right until its file is lost |
| BundleStorage.WriterAloneIsPut | src/delivery/local-bundle-storage.ts:60-81 | the file operations of one writer alone are the whole put |
| BundleStorage.ReadBundleIsAuthentic | src/licensing/engine-version.service.ts:523-538 | a read yields nothing or bytes with the digest asked for and recorded for that version and plan; absent a collision they are the published bytes |
| BundleStorage.RestoreBringsBackOriginal | src/licensing/engine-version.service.ts:554-581 | restoring succeeds exactly for the original bytes, which then read back |
| Watermark.MatchWatermark | src/delivery/watermark.ts:90-101 | the scan returns the specified first match |
| Watermark.TokensExactly | src/delivery/watermark.ts:70-82 | a token is sixteen lower-case hexadecimal digits |
| Watermark.ReadBackExactly | src/delivery/watermark.ts:65-82 | the bundle stays an unchanged prefix and its token reads back if and only if no marker of another token came first |
| Watermark.TracesLicenceExactly | src/delivery/watermark.ts:90-101 | a marked bundle is traced to the licence exactly when no licence with the same token is listed before it |
| Watermark.FirstOwnerRemains | src/delivery/watermark.ts:65-82 | marking a marked copy again leaves its first owner readable |
| Watermark.StrippedReadsBackExactly | src/delivery/watermark.ts:79-81 | a copy without the marker's comment, in either kind of quotes, reads back its token exactly when the bundle held no constant of another token |

## Left out

- AccessControl.AcceptedTokenIsCurrent: token expiry is not in the runs, where it only refuses more; nor are two requests of one user overlapping between their own queries.
- AccessControl.PermissionsComeFromActors: says nothing of runs in which a wildcard holder acts, where any catalogue permission may be granted.
- BundleStorage.VisibleBundlesAreWhole: a crash loses processes, not completed file operations; loss of unsynchronised data at power failure is not modelled.
- BundleStorage.ReadBundleIsAuthentic: identity of the bytes is relative to the byte strings handled not colliding; SHA-256 itself is not modelled.
- Fulfilment.FulfilmentIsLedgered: the licence minted is an id; its contents are the snapshot mint of `LicenseLifecycle`. Customer upsert, mail and live notification after the commit are not part of it.
- EngineRegistry.HistoryIsLinked: rows are taken in time order; two moves of a scope with equal timestamps are not modelled.
- Watermark.ReadBackExactly: works on decoded text; the marker is ASCII, so decoding does not join it to the bundle.
- DomainPolicy.WildcardCoversOneLevel: case folding is ASCII.
- DomainPolicy.StoredListIsStableExactly: a list with a host that begins with a blank, the twin of one written `www. a`, may be stable although that host is not settled, so it is excluded.
- LicenseLifecycle.RenewalMayEndPerpetual: the package served to visitors without a licence cannot be deleted; which one that is is not modelled.
- TokenHistory.EveryMintEndsWithLatestBoundary: a renewal asks for no negative lifetime and a sale carries no boundary already past, which their callers check.
- TokenHistory.TokenFindsRowExactly: licence ids are random, so no later call draws the token's id again.
- LicenseLifecycle.StoredTokensEndWithTerm: a sale that carries a boundary must carry one still ahead, which its callers check.
- SeatCap.OverlapBound: the origin and timestamps of a seat are not recorded; they decide nothing.
- `verifyOwnToken`, key rotation by `kid` and JSON or base64 handling: a token is authentic when this server issued it. Expiry is not checked there by the code either.
- Plan name, price and currency columns, notes, the delivery settings and the search lists of a licence: carried or displayed, never decided upon.
- The signing-disabled refusal, the seller's outdated-signing-key paths and database outages, except where a step's failure is an input.
- Sharing detection, health reports, usage logs, the default-package cache, the S3 storage driver, Stripe, mail and HTTP layers.
- Per-licence watermarked digests in a session and the signed bundle URL.
- Nothing here was executed.
