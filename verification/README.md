# Lumina ingestion and API, modelled and proved in Dafny

Lumina polls the Stellar network into a database, raises alerts, and serves a
dashboard. This project models the parts of it that carry state from one step to
the next, and proves what they promise over whole runs:

- `Pricing.dfy`, `PriceDiscovery.dfy`, `FeedPricing.dfy`: USD prices found by a layered
  search outward from XLM over AMM pools, and what they are in terms of the feed.
- `RateLimiting.dfy`: the API's per-IP token bucket and its sweep of old buckets.
- `PaymentLedger.dfy`, `PaymentProtocol.dfy`, `PaymentIngest.dfy`: whale payments
  read page by page from a growing ledger, with a cursor, atomic commits, and
  crashes at any point.
- `AlertRules.dfy`, `SnapshotLog.dfy`, `LendingDecoding.dfy`, `LendingPositions.dfy`,
  `LendingRuns.dfy`, `LendingAlerts.dfy`, `RiskSummary.dfy`: Blend lending events
  decoded, folded into positions through an append-only table, banded by risk, alerted on and summed up.
- `DropDetection.dfy`, `PoolRuns.dfy`: drops in a pool's shares from one committed cycle
  to the next, over one table that many pools and rolled-back cycles share and that
  loses its old rows.
- `SearchPattern.dfy`, `Csv.dfy`: two printers, each with the reader it is meant for.

Decimals and floats are exact reals; `Utc::now()` and `Instant::now()` are parameters;
requests and statements that can fail are parameters too. Hash-map iteration is a
free choice of the next key, and a query that does not break ties may return any
tied row.

Eight promises turn out to hold only under a condition. Each is proved together with
the exact condition, from both sides:

- A client is held to the burst and the rate, and dropping old buckets never shows,
  exactly when `max(burst, 1) <= 3600 * rps` (`RateBoundExact`, `SweepInvisibleExact`).
- A lending position reads back what its own events left exactly when its events
  carry strictly increasing times (`ReadBackExact`). Events of one ledger share
  their closing time, so a position with two events in one ledger can lose one.
- Ingestion catches up with a backlog exactly when every amount in it parses
  (`CatchesUpExactly`). One that does not stalls the cursor in front of it for good.
- One event keeps every non-negative debt or collateral non-negative exactly when it
  is not a negative amount raising it (`StaysNonNegativeExact`); a whole stream keeps
  it so exactly when no raising event, counted with its sign, takes the net total
  under its lowest point so far (`NeverNegativeExact`). Decoding takes the largest
  I128 of an event, which is negative exactly when all of them are (`NegativeExactly`),
  as in `NegativeBorrowDecodes`.
- Shares that never drop by the threshold stay above a geometric floor exactly when
  the pool is never unlisted for longer than the retention policy keeps its rows
  (`QuietStaysAbove`, `FloorHoldsExactly`). After a longer gap it is compared with
  nothing, and the loss of everything goes unfound.
- A supply of collateral never alerts exactly when it does not take the debt across a
  severe cutoff, and it can do so in two ways (`SupplyAlertsExactly`). A first supply
  under a large enough debt gives the position an LTV (`FirstSupplyCanAlert`); for the
  asset already held that is the only way (`SameAssetSupplyAlertsExactly`). A supply
  of another asset relabels the whole holding as that asset (src/soroban.rs:362-365)
  and so revalues it, whatever the LTV was (`OtherAssetSupplyCanAlert`). A repay never
  alerts (`EasingNeverAlerts`).
- A CSV export reads back exactly when it has a column, if line feeds only separate
  records (`RoundTripExact`). A reader that takes one at the end of the file as
  optional also loses the last row of a single column if that cell is empty, and
  nothing else (`FileRoundTripExact`).
- A formatted asset parses back exactly when its code has no colon
  (`ParseUndoesFormat`).

Where the code and its own documentation disagree, the model follows the code:

- src/bin/ingest.rs:30-33 says the payments cursor is persisted per page; it is
  written once per cycle (src/bin/ingest.rs:208).
- src/bin/ingest.rs:194-197 and src/db/pools.rs:10-14 rely on whale rows being
  deduplicated by operation. The conflict key also holds the writer's clock
  (src/db/whales.rs:31, src/bin/ingest.rs:512), so it does not do that; the atomic
  commit alone makes each row unique (`NeverConflicts`, `ExactlyOnce`).
- src/soroban.rs:16-21 says LTV is always left NULL; it is computed wherever prices
  are configured (src/soroban.rs:379-384).
- src/soroban.rs:9-10 says the amount is the largest-magnitude I128; it is the greatest
  signed one (src/soroban.rs:335, `DecodedFromPayload`).
- src/logic.rs:107-110 speaks of a query of one character; the code counts UTF-8
  bytes, so one non-ASCII character is enough (src/logic.rs:112).

## Model

| member | source | states |
|---|---|---|
| Pricing.ParseUndoesFormat | src/pricing.rs:24-32 | Parsing an asset name undoes writing it, exactly for codes without a colon. |
| Pricing.NativeSpellings | src/pricing.rs:24-32 | The only names taken for native XLM are "native", "XLM" and "XLM:". |
| Pricing.QuoteIgnoresLegOrder | src/pricing.rs:60-88 | A quote does not depend on which of a pool's legs is listed first. |
| PriceDiscovery.PoolYieldsOneQuote | src/bin/ingest.rs:277-290 | Of all known assets, tried in any order, at most one draws a quote for an unpriced asset out of a pool, and which one depends on the known set alone. |
| PriceDiscovery.ChoiceIsFirstDeepest | src/bin/ingest.rs:291-299 | The pool a hop settles on for an asset is the first in list order among the deepest that reach it, and that pool is unique. |
| PriceDiscovery.HopPicksFirstDeepest | src/bin/ingest.rs:274-301 | One hop finds exactly the assets some pool reaches, each at the chosen pool's depth and price. |
| PriceDiscovery.LayerGrows | src/bin/ingest.rs:288-290 | A price once set is never changed by a later hop. |
| PriceDiscovery.EmptyHopIsFinal | src/bin/ingest.rs:302-304 | Stopping at the first empty hop loses nothing: no larger hop budget would add an asset. |
| PriceDiscovery.PricedIffReachable | src/bin/ingest.rs:273-314 | An asset is priced within n hops if and only if some chain of at most n usable pools joins it to XLM. |
| PriceDiscovery.PricedAlongShortestChain | src/bin/ingest.rs:240-247 | Every price is the XLM price times the reserve ratios along a chain, no chain being shorter, each of whose assets was first priced in the hop of its own distance through the pool that hop chose. |
| PriceDiscovery.PricesIgnoreLegOrder | src/pricing.rs:68-87 | Swapping the legs of any pools leaves the whole price map unchanged. |
| PriceDiscovery.PricesScale | src/bin/ingest.rs:273-314 | Multiplying the XLM price by any factor multiplies every price by it and keeps every hop's choice of pools. |
| PriceDiscovery.PricesArePositive | src/pricing.rs:60-88 | Positive reserves and a positive XLM price make every price positive. |
| PriceDiscovery.TryPool | src/bin/ingest.rs:277-300 | The inner loop over the price map, in any iteration order, offers exactly the pool's one quote. |
| PriceDiscovery.FindNewly | src/bin/ingest.rs:274-301 | The nested loop over pools and known assets computes the hop's specified finds. |
| PriceDiscovery.RecordHop | src/bin/ingest.rs:305-313 | Writing a hop's finds, in any map order, records each once at its price and merges all of them into the known prices. |
| PriceDiscovery.IngestPrices | src/bin/ingest.rs:248-317 | A cycle adds one row for each asset of the specified four-hop price map, at its price and tagged direct or multi-hop; without a feed it adds none. |
| PriceDiscovery.CyclePricesExplained | src/bin/ingest.rs:233-247 | A cycle's rows cover exactly the assets within four pools of XLM, each priced along a shortest chain. |
| FeedPricing.PoolsAreListings | src/bin/ingest.rs:253-261 | The pools searched are exactly the listings with two legs whose first two amounts parse, each once and in feed order, each leg with its own asset and amount. |
| FeedPricing.CyclePricesFromFeed | src/bin/ingest.rs:233-317 | From the feed alone: an asset gets a row if and only if at most four trades lead to it from XLM, at the XLM price times the ratios of the listed amounts along the way that prices each asset as early as it can be over the deepest listing, the first of equals; the source tells direct from multi-hop. |
| FeedPricing.GreedyUnique | src/bin/ingest.rs:273-314 | There is only one such way, so the feed determines every price. |
| RateLimiting.RateLimiter.Allow | src/ratelimit.rs:45-62 | Refill, cap and spend on the mutable map equal the specified step, and its answer. |
| RateLimiting.RateLimiter.SweepIfLarge | src/ratelimit.rs:67-74 | Only a map of at least 10,000 buckets loses those untouched for an hour. |
| RateLimiting.RateLimiter.Enforce | src/ratelimit.rs:77-96 | At rate 0 every request is served and nothing changes; at any other rate it is swept and asked for. |
| RateLimiting.RateLimiter.EnforceAll | src/ratelimit.rs:77-96 | Requests served one after another on a new limiter: at rate 0 none is ever refused; at any other rate each is answered as in the run of its sweeps and asks that the laws below are about. |
| RateLimiting.SweepDropsExactly | src/ratelimit.rs:67-74 | Of fewer than 10,000 buckets a sweep drops none; of more, exactly those untouched for an hour. |
| RateLimiting.AllowAvailable | src/ratelimit.rs:45-62 | A grant costs the client exactly one token, a denial none, and nobody else's tokens move. |
| RateLimiting.GrantsArePaidFor | src/ratelimit.rs:45-74 | Over any stretch of a run, grants plus tokens left are at most tokens before plus tokens earned. |
| RateLimiting.RateBoundExact | src/ratelimit.rs:45-74 | In every interleaving of requests and sweeps a client is granted at most a burst plus the rate over any interval, if and only if max(burst, 1) <= 3600 rps; the same for requests served one by one. |
| RateLimiting.FloodBreaksRate | src/ratelimit.rs:67-74 | The run that breaks the bound when the condition fails: a swept client gets a second burst within the hour. |
| RateLimiting.DenialJustified | src/ratelimit.rs:45-62 | Behind every denial lies a moment the bucket was full, since when more than burst - 1 plus the rate has been granted; no condition on the limits. |
| RateLimiting.ConformingNeverDenied | src/ratelimit.rs:45-74 | A client that keeps to the burst and the rate is never denied, whatever the limits and sweeps. |
| RateLimiting.NeverDeniedIffConforms | src/ratelimit.rs:45-74 | Under the condition, the clients never denied are exactly those. |
| RateLimiting.SpacedNeverDenied | src/ratelimit.rs:52-62 | A client that waits 1 / rps between requests is never denied. |
| RateLimiting.SweepInvisibleExact | src/ratelimit.rs:64-74 | Every request of every run is decided as if no bucket were ever dropped, if and only if max(burst, 1) <= 3600 rps. |
| AlertRules.NewestIsNewest | src/alert_rules.rs:29-30 | The rule picked is the matching one with the greatest id, the last of equals, and none is picked only if none matches. |
| AlertRules.WhaleThresholdInForce | src/alert_rules.rs:17-32 | A number is the whale threshold if and only if the newest enabled whale rule for exactly this code and issuer sets it, or no such rule exists and it is the default. |
| AlertRules.DropThresholdInForce | src/alert_rules.rs:61-73 | A number is a pool's drop threshold if and only if the newest enabled drop rule with the pool's id as its code sets it, or no such rule exists and it is the default. |
| AlertRules.LastIsNewest | src/alert_rules.rs:94-112 | On the database's listing by id, overwriting in order and taking the greatest id pick the same rule. |
| AlertRules.ResolveLtvBands | src/alert_rules.rs:98-112 | One overwriting pass leaves each cutoff at its last enabled rule's threshold, or its default. |
| AlertRules.BandsInForce | src/alert_rules.rs:94-112 | Each cutoff is that of the last enabled band rule of its own name, in any case, and 70, 85 or 95 where there is none. |
| AlertRules.RankIsMonotone | src/alert_rules.rs:115-125 | Risk rank never falls as LTV rises, for any three cutoffs, ordered or not. |
| AlertRules.RanksInOrder | src/logic.rs:95-102 | LOW, MEDIUM, HIGH and CRITICAL rank in that order. |
| SnapshotLog.ReadLatest | src/db/lending.rs:29-51 | The read returns some row of the key with the greatest time, and none only if there is none. |
| SnapshotLog.AppendNewest | src/db/lending.rs:54-88 | A row later than its key's others becomes the only possible answer for that key and changes no other key's. |
| SnapshotLog.ReadsLastExactly | src/db/pools.rs:83-90 | Over all rows that may carry given keys and times, the read can only return the row stored last for its key if and only if that row is later than the key's others. |
| LendingDecoding.I128Orders | src/soroban.rs:480 | An assembled amount lies in the 128-bit range and compares by its high half, then its low half. |
| LendingDecoding.Collector.Walk | src/soroban.rs:477-494 | The walk pushes exactly the addresses and amounts of the value, in order. |
| LendingDecoding.LeavesAreOccurrences | src/soroban.rs:474-494 | It meets an address or amount if and only if one occurs anywhere in the value, however deep. |
| LendingDecoding.DecodeEvent | src/soroban.rs:301-342 | The mutable decoding with its early returns equals the specified decoding, errors and skips included. |
| LendingDecoding.DecodedFromPayload | src/soroban.rs:278-343 | A decoded event has the contract, the time, the kind its first topic names and the reserve its second gives; its account is the first other address met in the payload and its amount the greatest I128 anywhere in it, scaled by 10^7. |
| LendingDecoding.NegativeExactly | src/soroban.rs:335-338 | A decoded amount is negative if and only if every I128 in the payload is. |
| LendingDecoding.NegativeBorrowDecodes | src/soroban.rs:301-342 | A borrow of a negative amount that is decoded, not skipped. |
| LendingDecoding.SkippedExactly | src/soroban.rs:301-342 | An event is skipped exactly when it names none of the four kinds, no address but the reserve, or no I128; it fails exactly when its XDR is bad, or its time is and it would not be skipped. |
| LendingPositions.LtvTimesHealth | src/logic.rs:56-77 | Where both are defined, LTV times health factor is 100. |
| LendingPositions.RecordedRisk | src/logic.rs:56-77 | After any stream a position's LTV and health factor exist exactly where its assets are priced and its collateral (and debt) is worth something, and are the ratios of those worths. |
| LendingPositions.NamedByLast | src/soroban.rs:349-377 | After any stream a position is in the asset supplied last and owes the one borrowed last. |
| LendingPositions.HeldIsNetAboveLowest | src/soroban.rs:357-377 | After any stream, debt (and collateral) is the net sum less its lowest value at the start or after a lowering event, for amounts of any sign. |
| LendingPositions.LowestIsMinimum | src/soroban.rs:357-377 | For non-negative amounts that lowest value is the minimum over all prefixes of the stream. |
| LendingPositions.StaysNonNegativeExact | src/soroban.rs:362-377 | One event keeps every non-negative amount non-negative if and only if it is not a negative amount raising it. |
| LendingPositions.NeverNegativeExact | src/soroban.rs:357-377 | Over a whole stream, amounts of any sign, what is held is never negative if and only if no raising event takes the net total under its lowest point so far. |
| LendingPositions.EscalationIsCovered | src/soroban.rs:401-406 | Whenever a position is HIGH or CRITICAL, an alert of at least its level was raised since it was last lower or had no LTV. |
| LendingPositions.EscalationNotRepeated | src/soroban.rs:345-348 | Between two alerts at one level the position was lower or had no LTV. |
| LendingPositions.EasingNeverAlerts | src/soroban.rs:362-406 | Anywhere in a stream, a repay, or a supply of the collateral asset held under a known LTV, never raises the rank and never alerts. |
| LendingPositions.SupplyAlertsExactly | src/soroban.rs:362-406 | Anywhere in a stream, a supply of any asset alerts if and only if it takes the debt, against the whole holding valued as the supplied asset, across a severe cutoff from below or from an unknown LTV. |
| LendingPositions.SameAssetSupplyAlertsExactly | src/soroban.rs:362-406 | For the asset already held, that is if and only if the holding is empty and the debt reaches a severe cutoff of the amount supplied. |
| LendingPositions.FirstSupplyCanAlert | src/soroban.rs:363-406 | A stream in which the first supply after all collateral was withdrawn alerts. |
| LendingPositions.OtherAssetSupplyCanAlert | src/soroban.rs:362-365 | A stream in which supplying one unit of a cheaper asset takes a known LTV from 50 to 495 and alerts. |
| LendingRuns.InterleavingIsInvisible | src/soroban.rs:344-399 | With increasing times per position, every read of an interleaved log can only return what the position's own stream left. |
| LendingRuns.ReadBackExact | src/db/lending.rs:41-42 | All events that may carry given stamps read back right if and only if each position's stamps strictly increase. |
| LendingRuns.TieLosesAnEvent | src/db/lending.rs:41-42 | Two events of one position, the later stamped no later, and a run whose read returns the earlier row. |
| LendingRuns.AlertsMatchOwnStream | src/soroban.rs:344-406 | In such a run an alert is detected exactly where the position's own stream escalates, whichever row is read. |
| LendingAlerts.LendingStore.ProcessEvent | src/soroban.rs:344-438 | One event reads a latest row and appends the next; a failed read or insert changes nothing, an insert that lands unacknowledged or a failed alert only loses the alert; rows and alerts stay those of the recorded history. |
| LendingAlerts.AlertForExactly | src/soroban.rs:401-428 | An alert is raised if and only if one is detected, and tells the row's position, its LTV and its new level. |
| LendingAlerts.AlertsAreEscalations | src/soroban.rs:344-438 | Over any run of the store with increasing times there is one alert, and only one, for each event at which the position's own stream escalates and whose recording went through. |
| LendingAlerts.AlertsNotRepeated | src/soroban.rs:401-406 | Between two alerts of a position at one level lies an event of its own that leaves it lower or without an LTV. |
| RiskSummary.FallsIsLevel | src/db/lending.rs:109-119 | The summary's CASE puts a row in the band the alerting code gives it. |
| RiskSummary.SummaryConserves | src/db/lending.rs:96-130 | After any run the groups together count each position whose own stream leaves a known LTV once, and add up exactly what those positions owe. |
| RiskSummary.SummaryAgreesWithAlerting | src/db/lending.rs:90-130 | After any run each group counts exactly the positions that the alerting state machine, run on each position's own stream, has at that level, its debt is exactly what those streams owe, and a group without positions is not returned. |
| PaymentLedger.PageIsContiguous | src/horizon.rs:202-221 | A page is the stretch of the ledger right after the cursor, full unless the server sees too little. |
| PaymentLedger.GetAllPages | src/horizon.rs:161-182 | The walk returns one contiguous segment right after the cursor, however the visible ledger changes between requests; it ends with the first page that has no link and takes nothing from a lost request; with prompt replies it has min(backlog, pages x limit) payments. |
| PaymentProtocol.WhalesMeetThreshold | src/bin/ingest.rs:476-502 | The payments recorded are exactly the payment operations whose amount parses and is at least the threshold that the newest enabled rule for exactly their asset, or the default, puts in force; native payments are about XLM without an issuer. |
| PaymentProtocol.NeverConflicts | src/db/whales.rs:26-44 | In every reachable state the insert meets no row of the same operation, so the conflict clause never decides anything. |
| PaymentProtocol.StepKeeps | src/bin/ingest.rs:165-231 | Every step, crashes and lost acknowledgements included, keeps cursor, rows, transaction and alerts consistent. |
| PaymentProtocol.ExactlyOnce | src/bin/ingest.rs:194-209 | Over every run, the committed rows are exactly the payments between the seeded and the stored cursor that met the threshold in force when processed, each once and in order; the alerts are some of those rows, none twice. |
| PaymentProtocol.SubsequenceAt | src/bin/ingest.rs:215-229 | What "some of those rows" means: the alerts are the rows at some places, in the rows' order. |
| PaymentProtocol.GrowExactly | src/horizon.rs:161-182 | The ledger such runs are about takes every payment with a later token and a new id, and no other. |
| PaymentProtocol.NeverPassesUnparsable | src/bin/ingest.rs:499 | The stored cursor never passes a payment whose amount does not parse. |
| PaymentIngest.PaymentStore.SeedCursor | src/bin/ingest.rs:174-184 | A first run puts the cursor at the newest visible payment, if any, even when the write looks failed but landed, and backfills nothing. |
| PaymentIngest.ExamineAll | src/bin/ingest.rs:198-207 | The loop inside the transaction is a path of the protocol, and fails exactly when an amount does not parse or a whale's insert fails. |
| PaymentIngest.PaymentStore.RecordAlerts | src/bin/ingest.rs:215-229 | After the commit each pending alert is stored or, if that fails, skipped, in order. |
| PaymentIngest.StoredExactly | src/bin/ingest.rs:215-229 | The alerts stored are exactly the pending ones whose recording succeeds, in order. |
| PaymentIngest.PaymentStore.ProcessPayments | src/bin/ingest.rs:194-229 | One transaction and its alerts: it succeeds exactly when every amount parses and every statement and the commit do; the tables advance past all fetched payments with exactly their whales, or stay as they were; without success they advance only if the commit went unacknowledged. |
| PaymentIngest.PaymentStore.IngestPayments | src/bin/ingest.rs:165-231 | A cycle is a path of the protocol; its success commits the walked stretch with exactly its whales; its failure does so only if the commit went unacknowledged, and else changes nothing; a smooth one succeeds exactly when all fetched amounts parse. |
| PaymentIngest.PaymentStore.IngestCycles | src/bin/ingest.rs:66-78 | Over any mix of failing and smooth cycles the cursor never moves back and passes only amounts that parse; while all ahead parse, every smooth cycle takes 25 full pages or what is left off the backlog; smooth cycles alone end exactly where `AfterCycles` says. |
| PaymentIngest.BacklogFalls | src/bin/ingest.rs:30-33 | Where n smooth cycles leave the cursor (as `IngestCycles` runs them): while amounts parse, min(backlog, n x 25 full pages) further on. |
| PaymentIngest.CatchesUpExactly | src/bin/ingest.rs:186-209 | Smooth cycles (as `IngestCycles` runs them) ever reach the tip if and only if every amount in the backlog parses. |
| DropDetection.AlertsExactlyOnDrops | src/bin/ingest.rs:362-374 | The percent test equals a division-free comparison, for every pair of snapshots and every threshold. |
| DropDetection.DropPercent | src/logic.rs:38-43 | The percentage reported is the drop relative to the earlier amount, and at least the threshold. |
| DropDetection.SilentStaysAbove | src/bin/ingest.rs:362-374 | A row of n steps, none of them a drop, keeps the amount above start ((100 - p) / 100)^n. |
| DropDetection.SilentReach | src/bin/ingest.rs:362-374 | That bound is exact: the amounts such rows can end at are precisely those above it. |
| PoolRuns.PoolTable.IngestPool | src/bin/ingest.rs:327-395 | A pool's snapshot is stored and compared with a latest one under the rule in force; a malformed pool stores nothing; with increasing times the next cycle compares with this snapshot. |
| PoolRuns.SnapshotExactly | src/bin/ingest.rs:340-347 | A listing gives a snapshot exactly when it has two legs with parsed amounts and parsed shares, and it holds the first leg's amount, the second's and the shares. |
| PoolRuns.PoolTable.RunCycle | src/bin/ingest.rs:104-151 | A cycle, on what retention has left of the table, skips malformed listings, stores all other rows or none, and hands on the drops it found only after an acknowledged commit; the table stays a run of its cycles. |
| PoolRuns.ComparesWithPrevious | src/bin/ingest.rs:348 | In any run over the shared table each comparison of a pool is with its own last landed snapshot, or with nothing if retention has dropped that, whichever row the query returns; other pools, skipped listings and rolled-back cycles do not come between. |
| PoolRuns.FoundExactly | src/bin/ingest.rs:348-395 | A cycle finds a drop if and only if it is the one between the pool's own last landed amount, still on record, and the amount listed now, under the rule in force. |
| PoolRuns.QuietStaysAbove | src/bin/ingest.rs:348-374 | Over any run in which no landed cycle finds a drop of a pool, and the pool is never unlisted for longer than rows are kept, its n-th landed amount after the first stays above start ((100 - p) / 100)^n. |
| PoolRuns.FloorHoldsExactly | migrations/0006_retention_policies.sql:1-14 | For snapshots at given times, every quiet run keeps to that floor if and only if no two in a row lie further apart than rows are kept. |
| PoolRuns.QuietReach | src/bin/ingest.rs:348-374 | That bound is exact for runs of the table: the last amounts of such runs are precisely those above it. |
| SearchPattern.TrimSplits | src/logic.rs:111 | Trimming removes exactly the white space at both ends. |
| SearchPattern.SpacesByCodePoint | src/logic.rs:111 | The characters trimmed are exactly the 25 with Unicode's White_Space property. |
| SearchPattern.PatternGivenExactly | src/logic.rs:110-114 | A pattern is given for every query but those that trim to nothing or to one ASCII character. |
| SearchPattern.ThreePassesAreOne | src/logic.rs:115-118 | The three successive replacements equal one character-wise escaping. |
| SearchPattern.EscapeRoundTrips | src/logic.rs:115-118 | The escaping can be undone. |
| SearchPattern.SearchFindsSubstrings | src/logic.rs:110-120 | The pattern is well formed, and under ILIKE with escape '\' matches exactly the texts holding the trimmed query as a substring, for any case folding. |
| Csv.ReadCell | frontend/src/csv.ts:2-5 | A printed cell reads back as its text, quotes, commas and line feeds included. |
| Csv.PropertyText | frontend/src/csv.ts:2-3 | Null, undefined and missing properties print as nothing, any other as its text. |
| Csv.QuotedOnlyIfNeeded | frontend/src/csv.ts:4 | A cell is printed as it is unless it holds a quote, a comma or a line feed, and then between quotes. |
| Csv.RoundTripExact | frontend/src/csv.ts:7-11 | Reading the export gives the column names and every row's texts, null and undefined as empty, if and only if there is a column. |
| Csv.FileRoundTripExact | frontend/src/csv.ts:7-11 | Under a reader that takes a line feed at the end of the file as optional, if and only if there is a column and the file does not end with an empty cell of a single column. |

## Left out

- HTTP, retries and back-off, JSON, XDR and strkey decoding, CoinGecko: their results are parameters.
- rust_decimal's rounding, overflow and scale panics, and f64 rounding in the limiter: arithmetic is exact.
- Errors of single statements inside the pool and token transaction of a cycle: they depend on how PostgreSQL aborts.
- PaymentIngest.PaymentStore.IngestCycles: the ledger does not grow meanwhile; `ExactlyOnce` is about one that does.
- `ingest_token`: the same comparison as `ingest_pool`, on holder counts.
- Severity bands of whale and drop alerts, alert messages, webhooks, NOTIFY, the cache, metrics: delivery and display.
- Exactly-once delivery of lending events: their errors are swallowed and their cursor is written separately, so it does not hold.
- Two ingester processes at once: the code takes no lock between them.
- PoolRuns.FoundExactly: a pool is listed at most once in a cycle and the clock moves on between cycles; by `ReadsLastExactly` a read is otherwise free to miss the row stored last. Retention is taken to have dropped all rows before some moment at least 180 days back when a cycle begins; a deployment may set another window.
- PoolRuns.QuietStaysAbove: about the drops found, which are lost to the alerts if recording fails or the commit goes unacknowledged.
- LendingPositions.SupplyAlertsExactly: prices positive and amounts non-negative, as for the next.
- LendingPositions.EasingNeverAlerts: prices positive and amounts non-negative, which the configuration and the protocol are trusted for.
- PaymentLedger.GetAllPages: Horizon is trusted to serve payments in token order, to fill pages it can fill, and to link to the last record served.
- PaymentProtocol.ExactlyOnce: alerts can be lost in a crash after the commit, as in the code, so they are some of the rows rather than all.
- Csv.RoundTripExact: its reader takes every line feed as a separator, unlike rule 2 in section 2 of RFC 4180, for which see `FileRoundTripExact`; both take a carriage return as an ordinary character, which the export does not quote.
- SearchPattern.SearchFindsSubstrings: folding is per character, so locale rules that change a string's length are not covered.
- React pages, routing, watchlist and rule editing, the admin key: plain create, read and delete.
