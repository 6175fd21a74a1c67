# Rivisk, verified

Rivisk reads a wallet's DeFi positions, prices them, scores their risk, hashes a canonical report and
attests the result on the Stacks chain. This project models its calculations, protocols and codecs in
Dafny and proves what they promise. Each TypeScript loop or stateful object is a method or class proved
against a specification function; the theorems are about those functions and about whole runs.

- **Lending and stress arithmetic** (`Rounding`, `Collections`, `Positions`, `Lending`, `Valuation`,
  `Stress`, `Score`, `Scenario`). Dollar values are integers in units of 1e-8 dollars and ratios integers
  in basis points, with the source's half-away-from-zero rounding at each of its stages; sums that the
  source keeps exact until one rounding are exact here too.
- **Canonical report** (`Texts`, `Decimals`, `Json`, `Canonical`, `JsonText`, `StableReport`). Text is a sequence of
  UTF-16 code units. Printer, parser and both serializers are written out.
- **Attestation protocol** (`Ledger`, `Attestation`, `Chainhook`, `ReorgMirror`). Snapshots are rows of a
  store; runs are sequences of persist and attest events, or of mining, reorganisation and delivery.
- **SDK transport and session** (`HttpRetry`, `Session`, `Realtime`). The outside world (outcomes, aborts,
  randomness, network) is a parameter or a sequence of events; theorems hold for all of them.
- **Codecs and limits** (`Clarity`, `WebhookSignature`, `RateLimit`).

Where the code does not meet the plain form of a property, the project states the exact condition:

- A shock that takes collateral to 0 keeps the figures from before it, so a total loss can look safe
  (`Stress.NoMissedCrossing`, `Stress.MonotoneExactly`, `Stress.WipeoutClearsTheFlag`).
- Health factor, LTV and distance agree only for thresholds from 2 to 20000 bps
  (`Lending.FlagAgreesExactly`, `Lending.DistanceAgreesExactly`).
- Coverage can round up to 10000 bps from 20000 assets on (`Valuation.CoverageTellsExactly`).
- A position past its threshold by at least half a basis point has a negative distance, which the publisher
  rejects, so such a wallet is never attested (`Lending.UnderwaterExactly`, `Attestation.AttestableExactly`,
  `Attestation.UnderwaterNeverPublishes`, `Attestation.UnderwaterSample`).
- Stressing finds a liquidation price where valuation, lacking a quote, reports none
  (`Stress.LiquidationPriceStays`).
- The two report serializers differ on integer-like keys and on locale order
  (`StableReport.SerializersAgree`, `StableReport.NumericKeysDisagree`).
- An abort between the first 401 and the refresh hook does not stop the refresh
  (`HttpRetry.SendsLateExactly`, `HttpRetry.RefreshesAfterAbort`).
- An explicit refresh pending while signing out brings the session back (`Session.ResurrectsExactly`,
  `Session.LateRefreshResurrects`).
- A refresh pending while signing in again drops the new session or replaces its tokens
  (`Session.SignInSurvivesExactly`, `Session.LateSettleOverwrites`).
- Decoding Clarity twice can differ from once (`Clarity.DecodingTwice`, `Clarity.LookalikeTuple`).
- A rate-limit increment that finds its counter expired starts a fresh one, and the window can admit more
  than the limit (`RateLimit.WindowAdmitsExactly`, `RateLimit.LateIncrementAdmitsMore`).

## Model

| member | source | states |
|---|---|---|
| Lending.LiquidationFlag | packages/portfolio-engine/src/index.ts:97-116 | For thresholds 2 to 20000 bps, health factor at most 1.0, rounded LTV at the threshold and distance at most 0 are the same condition, exactly `20000 debt >= (2T - 1) collateral`; a loan truly at its threshold is never missed. |
| Lending.FlagAgreesExactly | packages/portfolio-engine/src/index.ts:97-104 | Health factor and rounded LTV flag the same loans for every LTV if and only if the threshold is between 2 and 20001 bps; outside, the rounding of the quotient decides. |
| Lending.DistanceAgreesExactly | packages/portfolio-engine/src/index.ts:105-116 | Distance at most 0 means "LTV at the threshold" for every LTV if and only if the threshold is at most 20000 bps. |
| Lending.HealthMirrorsDistance | packages/portfolio-engine/src/index.ts:97-116 | Health factor and distance, rounded separately, stay reciprocal: health times (10000 - distance) is 10^8 up to half a unit of each, unless the distance is clamped or the LTV rounds to 0. |
| Lending.LtvReaches | packages/portfolio-engine/src/index.ts:97-97 | The rounded LTV reaches a threshold if and only if the true ratio reaches it less half a basis point. |
| Lending.ReachedIsFlagged | packages/portfolio-engine/src/index.ts:97-104 | Whatever the threshold, a loan whose true ratio reaches it less half a basis point is flagged. |
| Lending.UnderwaterExactly | packages/portfolio-engine/src/index.ts:105-144 | A loan reports a negative distance if and only if its LTV rounds to more than its threshold, in integers `20000 debt >= (2T + 1) collateral`; from 20001 bps on the gap grows by a basis point per 20000. |
| Lending.LiquidationPriceHits | packages/portfolio-engine/src/index.ts:194-212 | At the estimated price, collateral times threshold covers the debt to within half of the last printed price unit. |
| Lending.HeadroomExactly | packages/portfolio-engine/src/index.ts:133-144 | Borrow headroom is never negative, is positive if and only if the loan is more than half a basis point short of the borrow limit, and then fills the gap to it. |
| Lending.IdQuotes | packages/portfolio-engine/src/index.ts:32-33 | The quote filed under the asset's id applies, whatever symbols match. |
| Lending.SymbolQuotes | packages/portfolio-engine/src/index.ts:214-223 | Failing that, the first quote whose asset id is the asset's symbol in any letter case. |
| Lending.NoQuote | packages/portfolio-engine/src/index.ts:214-223 | An asset named by neither has no price. |
| Lending.LiveExactly | packages/portfolio-engine/src/index.ts:76-95 | A position gets lending figures if and only if it has terms and the values of its collateral and of its debts each sum to more than 0; otherwise it is returned as it came. |
| Lending.LoanIsReported | packages/portfolio-engine/src/index.ts:127-147 | The reported collateral and debt are the sums over the valued assets of each role, the thresholds those of the terms, and health factor and distance are present if and only if there is a positive threshold. |
| Lending.EstimatedExactly | packages/portfolio-engine/src/index.ts:118-125 | A liquidation price is reported if and only if there is one collateral asset, with an amount, a positive threshold and, where quotes are given, a quote. |
| Valuation.ValuePosition | packages/portfolio-engine/src/index.ts:26-69 | The one-pass loop over the assets yields the position in which each total is one rounding of an exact sum. |
| Rounding.Pow10Law | packages/portfolio-engine/src/index.ts:190-192 | The scale of an amount is 10 to the power of its decimals. |
| Valuation.QuotedValue | packages/portfolio-engine/src/index.ts:39-40 | An asset quoted at p is worth v with `|v 10^decimals - amount p 10^8| <= 10^decimals / 2` in units of 1e-8 dollars; without a quote it stays as it came. |
| Valuation.WholeUnitIsWorthItsPrice | packages/portfolio-engine/src/index.ts:190-192 | An amount of 10^decimals is worth the price. |
| Valuation.WorthAtLiquidationPrice | packages/portfolio-engine/src/index.ts:194-212 | Valued at its own liquidation price, the collateral times the threshold is the debt, to the rounding of both. |
| Valuation.ValuationFollowsAssets | packages/portfolio-engine/src/index.ts:41-62 | The recorded positive, debt and gross totals are the sums over the valued assets of each kind, to half a unit per priced asset and half a unit more, and the counts are those of the assets. |
| Valuation.BuildPortfolio | packages/portfolio-engine/src/index.ts:150-188 | The nested loops updating two Maps and three counters yield the portfolio of independently defined sums. |
| Valuation.PortfolioReports | packages/portfolio-engine/src/index.ts:150-188 | The reported total, the entry of any protocol and the entry of any asset are the sums they stand for, to half a cent, and coverage is the share of valued assets, to half a basis point. |
| Valuation.ValuationReconciles | packages/portfolio-engine/src/index.ts:26-69 | After valuation the net value is positive minus debt, to one unit of 1e-8 dollars, when anything was priced; gross exposure is positive plus debt, to one unit, when no asset is priced below zero. |
| Valuation.ProtocolSumsConserve | packages/portfolio-engine/src/index.ts:150-188 | Before rounding to cents, each protocol entry is the sum of its positions, no protocol appears twice, and the entries add up to the total exactly. |
| Valuation.AssetSums | packages/portfolio-engine/src/index.ts:163-175 | Each asset entry is the signed value (debt negative) of that asset over all positions, and the entries add up to the signed value of everything. |
| Valuation.AssetDrift | packages/portfolio-engine/src/index.ts:26-69 | Rounding each asset to 8 decimals moves their signed sum by at most half a unit per priced asset. |
| Valuation.PositionDrift | packages/portfolio-engine/src/index.ts:26-69 | A position's net value and the signed sum of its rounded assets differ by at most (priced assets + 1) / 2 units of 1e-8 dollars; with nothing priced it keeps the value it came with. |
| Valuation.PortfolioConserves | packages/portfolio-engine/src/index.ts:150-188 | Over a whole portfolio whose assets arrive unvalued, per-asset sums and total differ by at most the sum of those bounds. |
| Valuation.CentsDrift | packages/portfolio-engine/src/index.ts:176-188 | A protocol breakdown rounded to cents adds up to the rounded total, to half a cent per entry and half a cent more. |
| Valuation.CoverageTellsExactly | packages/portfolio-engine/src/index.ts:181-186 | Coverage of 10000 bps means "every asset priced" for every number of priced assets if and only if there are fewer than 20000 assets. |
| Stress.StressPosition | packages/risk-engine/src/index.ts:234-270 | The loop over shocked assets yields the position whose totals are single roundings of exact shocked sums, with the lending figures derived again. |
| Stress.ShockedValue | packages/risk-engine/src/index.ts:241-252 | A valued asset moves by its own shock, to half a unit, and changes in nothing else. |
| Stress.TotalsFollowAssets | packages/risk-engine/src/index.ts:247-263 | For every list of shocks, the position's value and its positive, debt and gross totals are the sums of its shocked assets, debts counted as debts, to half a unit per valued asset and half a unit more. |
| Stress.ShockKeeps | packages/risk-engine/src/index.ts:258-269 | Identity, kind, terms, accessibility and the counts of valued assets are kept. |
| Stress.IdDecides | packages/risk-engine/src/index.ts:272-284 | The first shock naming the asset id decides, whatever symbols other shocks name. |
| Stress.SymbolDecides | packages/risk-engine/src/index.ts:272-284 | With no shock on the id, the first one naming the symbol decides; for BTC and sBTC, failing that, the first naming either. |
| Stress.UnnamedAssetStays | packages/risk-engine/src/index.ts:272-284 | An asset no shock reaches moves by 0 bps. |
| Stress.ZeroShockIsFaithful | packages/risk-engine/src/index.ts:234-270 | Stressing a valued position with no matching or zero shocks reproduces its assets, collateral, debt, LTV, health factor and distance; its value becomes the signed sum of its assets, within the bound of `Valuation.PositionDrift` of the value before when the assets arrived unvalued. |
| Stress.ZeroShockIsIdempotent | packages/risk-engine/src/index.ts:234-270 | Stressing any position twice under such shocks is stressing it once. |
| Stress.LiquidationPriceStays | packages/portfolio-engine/src/index.ts:194-212 | A shock on the collateral alone that leaves collateral positive leaves the single-collateral liquidation price unchanged if and only if the collateral has a quote, or there is no price to estimate (no amount, no positive threshold): stressing passes no quotes. |
| Stress.StressIsMonotone | packages/risk-engine/src/index.ts:192-270 | A deeper shock never raises a health factor or a distance and never clears a flag, unless it leaves no collateral on a loan the milder one leaves alive. |
| Stress.MonotoneExactly | packages/risk-engine/src/index.ts:234-270 | A deeper shock raises neither health factor nor distance if and only if it wipes out no loan that the milder one leaves alive, or the figures from before the shock are no better than the milder one's; and it clears a flag set by the milder one if and only if it wipes the loan out and the position was not flagged before. |
| Stress.WipeoutKeepsFigures | packages/portfolio-engine/src/index.ts:95-95 | Shocked collateral of 0 makes the derivation return early: collateral and liquidation figures from before the shock are reported. |
| Stress.NoMissedCrossing | packages/risk-engine/src/index.ts:213-270 | For every positive threshold, a loan whose stressed debt reaches it is flagged if and only if collateral is left or it was flagged before the shock. |
| Stress.WipeoutClearsTheFlag | packages/risk-engine/src/index.ts:234-270 | A concrete loan that a 50% drop flags and a 100% drop does not: the failing case that `Stress.MonotoneExactly` and `Stress.NoMissedCrossing` delimit. |
| Stress.DropReaches | packages/portfolio-engine/src/index.ts:97-116 | In integers: a drop of `distance + 5000/T + 1` bps brings the remaining collateral to the threshold. |
| Stress.DropSpares | packages/portfolio-engine/src/index.ts:97-116 | In integers: a drop of at most `distance - 10000/T - 1` bps, less a dust term, keeps a positive collateral clear of it, by one part in 20000 more. |
| Stress.PredictedIsReported | packages/portfolio-engine/src/index.ts:105-144 | The distance in the next two rows is the one a valued loan reports. |
| Stress.PredictedDistanceReached | packages/risk-engine/src/index.ts:192-270 | For every positive threshold T, the stress engine flags every drop of one collateral that exceeds the reported distance by 5000/T + 1 bps, while T units of 1e-8 dollars are left. |
| Stress.PredictedDistanceSafe | packages/risk-engine/src/index.ts:192-270 | And, for every positive threshold, flags none that stays below it by 10000/T + 1 + 5000/collateral bps (collateral in units of 1e-8 dollars). |
| Score.ProtocolConcentration | packages/risk-engine/src/index.ts:23-44 | The loop over positions finds the share of the largest protocol; wallet-held positions are no protocol dependency. |
| Score.AssetConcentration | packages/risk-engine/src/index.ts:46-57 | The loop over assets finds the share of the largest asset. |
| Score.CapitalAccessibility | packages/risk-engine/src/index.ts:67-77 | The loop finds the exposure-weighted average of the accessible shares. |
| Score.Gross | packages/risk-engine/src/index.ts:286-298 | Exposure is never negative, whichever of its three sources provides it. |
| Score.GrossSources | packages/risk-engine/src/index.ts:286-298 | The recorded exposure comes first, then the sum over valued assets, then the position's own value, all without sign. |
| Score.DependencyCounts | packages/risk-engine/src/index.ts:27-32 | A wallet-held position counts for no protocol; every other counts for its own with its exposure. |
| Score.TopShareIsLargest | packages/risk-engine/src/index.ts:9-44 | The reported concentration bounds every protocol's share and is the share of one of them, or 0. |
| Score.TopSymbolIsLargest | packages/risk-engine/src/index.ts:46-57 | The asset concentration bounds every symbol's share, letter case aside, and is the share of one of them, or 0. |
| Score.AccessibilityAverages | packages/risk-engine/src/index.ts:67-77 | Accessibility is the exposure-weighted average of the accessible shares, to half a basis point, a missing share counting as 10000; with no exposure it is 10000. |
| Score.HealthSteps | packages/risk-engine/src/index.ts:300-306 | Health risk is 10000, 7500, 4000 or 1000 if and only if the factor lies below 1.2, 1.5, 2.0 or from there on; without one it is 0. |
| Score.ConcentrationLine | packages/risk-engine/src/index.ts:308-311 | Concentration risk is 0 up to a share of 25% and rises in a straight line to 10000 at 100%, to half a basis point. |
| Score.ScoreWeighs | packages/risk-engine/src/index.ts:111-138 | The score is 40, 30 and 30 hundredths of the three risks, to half a basis point, and no change for the worse in health, concentration or accessibility lowers it. |
| Score.LevelFollows | packages/risk-engine/src/index.ts:313-320 | The level follows the bands of the worst health factor where there is one, and those of the score otherwise. |
| Score.WorstIsLeast | packages/risk-engine/src/index.ts:123-131 | The worst health factor and distance are the least over the positions that report one. |
| Score.SummaryIgnoresOrder | packages/risk-engine/src/index.ts:119-150 | Permuting positions never changes the summary, although two Maps are built in listing order. |
| Score.SummaryInRange | packages/risk-engine/src/index.ts:119-150 | With accessibility in 0..10000 every share and score is in 0..10000, and the final clamp never acts. |
| Score.LiquidWalletNeverHurts | packages/risk-engine/src/index.ts:119-150 | Adding a fully liquid wallet position without liquidation data raises neither score nor risk level and leaves the worst health factor. |
| Scenario.ScenarioReports | packages/risk-engine/src/index.ts:192-228 | A scenario reports both summaries, every position before and after, and as many new crossings as there are positions liquidatable after but not before. |
| Scenario.NoneBetterExactly | packages/risk-engine/src/index.ts:192-228 | Position by position, a deeper scenario improves no figure if and only if every loan it wipes out (and the milder one does not) had no better figures before the scenario than under the milder one. |
| Scenario.NoneClearedExactly | packages/risk-engine/src/index.ts:192-228 | A deeper scenario clears no liquidatable position if and only if every loan it wipes out (and the milder one does not) was flagged before or is not flagged by the milder one; then the count of new crossings does not fall either. |
| Scenario.DeeperIsNeverSafer | packages/risk-engine/src/index.ts:192-228 | Over a portfolio, a deeper scenario raises no worst figure and lowers no health-based level under the first condition, and clears no liquidatable position and no crossing under the second. |
| Json.ReadEscaped | apps/worker/src/main.ts:469-475 | Reading an escaped string up to its quote returns the string and the rest, for every sequence of UTF-16 code units, lone surrogates included (section 7 of RFC 8259). |
| Json.ReadDecimal | apps/worker/src/main.ts:469-475 | Reading a printed number back returns it, whatever delimiter follows. |
| Json.ParseStringify | apps/worker/src/main.ts:469-475 | A recursive-descent parser recovers every value without undefined from its printed form, whatever delimiter follows. |
| Json.StringifyInjective | apps/worker/src/main.ts:469-475 | Equal text, equal value, key order included. |
| Canonical.CanonicalIsNormalized | apps/worker/src/main.ts:469-475 | The serializer prints the value with undefined members dropped, undefined items as null and keys in code-unit order at every depth (section 3.2.3 of RFC 8785). |
| Canonical.CanonicalIsReadable | apps/worker/src/main.ts:469-475 | The parser recovers every input from its hash input up to key order. |
| Canonical.CanonicalIdentifies | apps/worker/src/main.ts:83-84 | Two reports have the same hash input if and only if they are the same value up to the order of keys at any depth. |
| Canonical.CanonicalIsFixpoint | apps/worker/src/main.ts:469-475 | Serializing the parsed hash input reproduces it. |
| JsonText.WordsText | apps/worker/src/main.ts:470-471 | Null and undefined print as `null`, booleans as `true` and `false`. |
| JsonText.DecimalText | apps/worker/src/main.ts:471-471 | Numerals are decimal, most significant digit first, with no leading zero. |
| JsonText.NumbersText | apps/worker/src/main.ts:471-471 | A number prints as its numeral, a negative one after a minus sign. |
| JsonText.StringsText | apps/worker/src/main.ts:471-471 | A string prints between quotes, escaped unit by unit. |
| JsonText.PlainText | apps/worker/src/main.ts:471-471 | Every unit from U+0020 on but the quote, the backslash and lone surrogates stands for itself, surrogate pairs included. |
| JsonText.ShortEscapesText | apps/worker/src/main.ts:471-471 | The seven two-character escapes, in literal characters. |
| JsonText.LongEscapesText | apps/worker/src/main.ts:471-471 | All other control characters and lone surrogates are a lower-case `u` escape of four lower-case hex digits. |
| JsonText.ArraysText | apps/worker/src/main.ts:472-472 | Arrays print as items between brackets, separated by commas. |
| JsonText.ObjectsText | apps/worker/src/main.ts:474-474 | Objects print as members between braces, separated by commas, each a quoted key, a colon and a value. |
| JsonText.UndefinedText | apps/worker/src/main.ts:474-474 | Undefined members are left out. |
| JsonText.LeqIsPrecedes | apps/worker/src/main.ts:474-474 | A key precedes another if and only if it is a prefix of it or has the smaller code unit at the first difference (section 3.2.3 of RFC 8785). |
| JsonText.SortedText | apps/worker/src/main.ts:473-474 | An object prints as the one whose members stand in that order. |
| JsonText.MembersKept | apps/worker/src/main.ts:473-474 | Every defined member is printed, with the canonical text of its value. |
| StableReport.SerializersAgree | packages/rivisk-contracts/src/index.ts:19-33 | The publisher's serializer gives the worker's hash input if and only if its key order (integer-like keys first, the rest by locale) agrees with code-unit order at every object. |
| StableReport.PlainKeysAgree | packages/rivisk-contracts/src/index.ts:19-33 | It does when no key is integer-like and the locale orders the keys as code units do. |
| StableReport.NumericKeysDisagree | packages/rivisk-contracts/src/index.ts:19-33 | It does not for an object with keys "9" and "10", in any locale. |
| StableReport.IndexExactly | packages/rivisk-contracts/src/index.ts:19-29 | The keys that JavaScript lists first are exactly the decimal forms of numbers below 2^32 - 1. |
| StableReport.NumericLeqExactly | packages/rivisk-contracts/src/index.ts:19-29 | They are compared as numbers. |
| StableReport.OwnOrderIs | packages/rivisk-contracts/src/index.ts:19-29 | For a locale that orders all strings, a stable object's keys are its indices in ascending order, then the others in the locale's order. |
| StableReport.StableObject | packages/rivisk-contracts/src/index.ts:19-29 | A stable object has its keys in that order, each with its own stable value. |
| Ledger.SnapshotStore.PersistRiskSnapshot | packages/database/src/index.ts:158-192 | A snapshot with its figures, report hash and times is appended unpublished and unconfirmed; nothing else changes. |
| Ledger.SnapshotStore.MarkRiskSnapshotPublished | packages/database/src/index.ts:194-199 | Only the named row changes, and only its transaction id. |
| Ledger.SnapshotStore.FindLastPublished | apps/worker/src/main.ts:241-248 | The scan finds the wallet's published row, other than the candidate, that is last by source block and then observation time. |
| Ledger.SnapshotStore.Attest | apps/worker/src/main.ts:225-275 | One job: the result and the whole new ledger are those of the protocol step; a rejected or failed broadcast leaves the ledger as it was. |
| Attestation.PublishesExactly | apps/worker/src/attestation-throttle.ts:52-63 | A job publishes if and only if its row is unpublished, in range, with a digest and a broadcast, and is due: the wallet has no other published row, or the newest one has other figures, or the same ones and is at least minInterval blocks older; each case with its reason, and a skip in the remaining one. |
| Attestation.JobMarksOnlyItsRow | apps/worker/src/main.ts:259-270 | A publication changes the transaction id of its own row and nothing else; every other outcome changes nothing. |
| Attestation.IntervalSpendIsBounded | apps/worker/src/attestation-throttle.ts:52-63 | In any processing order, a wallet's interval publications times the minimum interval are at most the block span of its published snapshots. |
| Attestation.CompletedJobIsFresh | apps/worker/src/main.ts:241-270 | After a completed in-order job the newest published snapshot has the processed figures and lags by fewer than max(minInterval, 1) blocks. |
| Attestation.NewestMatchesLastCompleted | apps/worker/src/main.ts:241-270 | Over whole in-order runs, what is published of each wallet is what its last completed job saw. |
| Attestation.ChangesArePaidOnce | apps/worker/src/attestation-throttle.ts:52-63 | Over whole in-order runs, there is at most one first publication, and at most one changed publication per change of figures. |
| Attestation.PublicationsAreBounded | apps/worker/src/attestation-throttle.ts:42-63 | Hence publications are at most 1 + figure changes + span / minInterval. |
| Attestation.AttestableExactly | packages/rivisk-contracts/src/index.ts:73-119 | A computed summary (accessibility in 0..10000, distances clamped at 10000) passes the publisher's checks if and only if the report hash is 64 hex digits and no position reports a negative distance. |
| Attestation.NegativeDistanceNeverPublishes | packages/rivisk-contracts/src/index.ts:73-119 | While a position reports a negative distance no job of that wallet publishes, and the ledger stays as it is. |
| Attestation.UnderwaterNeverPublishes | packages/rivisk-contracts/src/index.ts:73-119 | So nothing is published of a wallet holding a loan that is past its threshold by at least half a basis point (`20000 debt >= (2T + 1) collateral` up to T = 20000). |
| Attestation.UnderwaterSample | packages/rivisk-contracts/src/index.ts:73-119 | A concrete loan at 100% against a threshold of 70%: distance -4286, rejected. |
| Attestation.BarelyPastSample | packages/rivisk-contracts/src/index.ts:73-119 | A concrete loan past its threshold by less than half a basis point: distance 0, accepted. |
| Attestation.SentinelsAreSafest | packages/rivisk-contracts/src/index.ts:46-54 | The values written for a debt-free wallet rank at least as safe as those of every wallet that can be attested. |
| Chainhook.ParsesExactly | apps/api/src/modules/chainhook/chainhook.parser.ts:130-132 | A text is read as id n if and only if, trimmed, it is `(ok u` digits `)` with digits writing n. |
| Texts.SpaceText | apps/api/src/modules/chainhook/chainhook.parser.ts:131-131 | White space is space, tab, line feed, vertical tab, form feed, carriage return and the no-break space. |
| Texts.TrimCuts | apps/api/src/modules/chainhook/chainhook.parser.ts:131-131 | Trimming cuts white space off both ends, and all of it. |
| Texts.CaseText | apps/api/src/modules/chainhook/chainhook.parser.ts:100-102 | Case folding moves the letters of ASCII by 32 and leaves every other character. |
| Chainhook.SnapshotIdExactly | apps/api/src/modules/chainhook/chainhook.parser.ts:120-133 | A transaction is read as id n if and only if it succeeded, by flag or by status, and its result in either shape is that text. |
| Chainhook.HashExactly | apps/api/src/modules/chainhook/chainhook.parser.ts:110-113 | A transaction is read as id t if and only if its hash is 64 hex digits of any case, with or without 0x, that are t in lower case. |
| Chainhook.FailureConfirmsNothing | apps/api/src/modules/chainhook/chainhook.parser.ts:122-122 | A transaction that did not succeed confirms nothing, whatever its result says. |
| Chainhook.ConfirmedExactly | apps/api/src/modules/chainhook/chainhook.parser.ts:135-147 | An item is listed if and only if some block of the delivery has a transaction that reports it, at that block's height. |
| Chainhook.RolledBackExactly | apps/api/src/modules/chainhook/chainhook.parser.ts:149-157 | An id is listed, once, if and only if some rolled-back block names it. |
| Chainhook.InnerSideWins | apps/api/src/modules/chainhook/chainhook.parser.ts:30-35 | Each side is taken from `event` where it is there, and from the top level where it is not. |
| Chainhook.CountsMatchingRows | apps/api/src/modules/chainhook/chainhook.service.ts:88-101 | Each update counts the rows that carry its transaction id in either spelling. |
| Chainhook.CollectConfirmed | apps/api/src/modules/chainhook/chainhook.parser.ts:135-147 | The loops list the successful, well-spelled transactions with their ids in delivery order. |
| Chainhook.CollectRolledBack | apps/api/src/modules/chainhook/chainhook.parser.ts:149-155 | The loops list each rolled-back transaction once, in order of first occurrence. |
| Chainhook.ExtractRegistryConfirmations | apps/api/src/modules/chainhook/chainhook.parser.ts:135-158 | Both lists, from whichever of the two payload shapes carries the blocks. |
| Chainhook.ConfirmAttestations | apps/api/src/modules/chainhook/chainhook.service.ts:81-113 | The ledger after a delivery is the old one with every clearing and then every confirmation applied to all rows of either spelling; both counters count the rows touched. |
| ReorgMirror.MirrorIsCanonical | apps/api/src/modules/chainhook/chainhook.service.ts:81-102 | Over every run of in-order deliveries, each repeated any number of times at once, every row whose transaction id was stored before its block was delivered shows the canonical chain's snapshot id for it, or none if the chain lacks it. |
| ReorgMirror.DeliveryKeepsMirror | apps/api/src/modules/chainhook/chainhook.service.ts:81-102 | The step: one delivery of a rollback and a new branch keeps a mirroring row mirroring. |
| ReorgMirror.RedeliveryIsIdempotent | apps/api/src/modules/chainhook/chainhook.service.ts:81-102 | Processing any payload again at once changes no row. |
| ReorgMirror.RemineEndsConfirmed | apps/api/src/modules/chainhook/chainhook.service.ts:84-102 | A transaction rolled back and mined again in one payload ends confirmed with its new id. |
| ReorgMirror.ShapesAgree | apps/api/src/modules/chainhook/chainhook.parser.ts:30-35 | The 1.x and the 2.0 rendering of one delivery change the ledger alike. |
| ReorgMirror.ReprParses | apps/api/src/modules/chainhook/chainhook.parser.ts:120-133 | The contract's printed answer for any snapshot id is read back as that id. |
| HttpRetry.Request | packages/sdk/src/http.ts:154-200 | The loop's events and end are those of the recursive run from its first attempt. |
| HttpRetry.RequestIsBounded | packages/sdk/src/http.ts:154-244 | With random values in [0, 1) and no negative delay in policy or advice, a call makes at most maxRetries + 2 attempts, one refresh and maxRetries sleeps of at most maxRetries * maxDelayMs in all, and sends no attempt after the caller aborts. |
| HttpRetry.SendsLateExactly | packages/sdk/src/http.ts:171-179 | A call sends anything at all after its caller aborted if and only if the abort falls between the answer to its first 401, reached through repeatable failures only, and the refresh hook, which the call has and does not skip: then the refresh goes out. |
| HttpRetry.RefreshesAfterAbort | packages/sdk/src/http.ts:171-179 | A concrete such call: the first answer is a 401, the caller aborts, the hook is called. |
| HttpRetry.LoopBounds | packages/sdk/src/http.ts:154-200 | The same counts from any point of the loop, by what is left of the budget. |
| HttpRetry.AttemptBoundIsTight | packages/sdk/src/http.ts:170-185 | maxRetries + 2 attempts do occur, for every budget: the refreshed attempt comes on top when it happens last. |
| HttpRetry.NonIdempotentRepeatsAreSafe | packages/sdk/src/http.ts:181-186 | In a non-idempotent call every attempt but the last ended in a 429 or in the one refreshed 401 (section 9.2.2 of RFC 9110). |
| HttpRetry.RepeatsExactly | packages/sdk/src/errors.ts:37-40 | A failure that calls for no refresh is repeated if and only if retries are left, it is transient, and the call is idempotent or it is a 429; a rate limit's advice sets the wait, capped (section 10.2.3 of RFC 9110). |
| HttpRetry.FinalAnswers | packages/sdk/src/http.ts:163-168 | A success returns at once, and an error of a foreign kind escapes at once. |
| HttpRetry.FailedAnswers | packages/sdk/src/http.ts:181-199 | In terms of the answer's status: any other answer is slept over and repeated if and only if retries are left, the status is 0, 408, 429 or at least 500, and the call is idempotent or the status 429; otherwise the call throws it. The wait is the server's advice for a 429 that has one, else a random share of the ceiling in whole milliseconds, both capped. |
| HttpRetry.CeilingDoubles | packages/sdk/src/http.ts:100-103 | The ceiling starts at the base delay and doubles with every attempt, up to the cap. |
| HttpRetry.RefreshAnswers | packages/sdk/src/http.ts:170-179 | A first 401 goes to the hook; a fresh token leads to the next attempt at once, a stale one throws the 401. |
| HttpRetry.AbortAnswers | packages/sdk/src/http.ts:206-244 | An abort before the answer ends the call with a timeout, after no more than an interrupted wait. |
| HttpRetry.ReturnsOnSuccess | packages/sdk/src/http.ts:154-200 | A call returns a value if and only if its last event is a successful attempt. |
| HttpRetry.EveryEventIsDisciplined | packages/sdk/src/http.ts:100-103 | With random values in [0, 1) and no negative delay in policy or advice, every wait lies between 0 and maxDelayMs and completes if and only if the caller has not aborted by its end, and every sent attempt was sent unaborted. |
| Session.RiviskClient.RefreshSession | packages/sdk/src/client.ts:84-105 | A caller starts a refresh, or joins the one in flight, or is refused without a refresh token. |
| Session.RiviskClient.SettleRefresh | packages/sdk/src/client.ts:88-102 | The refresh ends: tokens are merged into a session still held, failure ends it, and the slot is freed. |
| Session.RiviskClient.StartManualRefresh | packages/sdk/src/client.ts:144-152 | An explicit refresh starts if and only if the session has a refresh token, and sends that token. |
| Session.RiviskClient.FinishManualRefresh | packages/sdk/src/client.ts:148-156 | A started explicit refresh, once answered, installs its session whatever happened meanwhile. |
| Session.RiviskClient.SignOut | packages/sdk/src/client.ts:158-159 | Only the session is dropped; a refresh in flight stays in flight. |
| Session.RiviskClient.SetSession | packages/sdk/src/client.ts:79-82 | Only the session is replaced. |
| Session.UnauthorizedAnswers | packages/sdk/src/client.ts:84-105 | A 401 without a refresh token is answered at once; any other joins the refresh in flight, or the one it starts. |
| Session.ManualRefreshKeepsAddress | packages/sdk/src/client.ts:143-156 | An undisturbed explicit refresh keeps the address and replaces the tokens; a failed one changes nothing. |
| Session.SettlingKeepsAddress | packages/sdk/src/client.ts:88-102 | An automatic one keeps the address too, and its failure ends the session. |
| Session.RefreshIsSingleFlight | packages/sdk/src/client.ts:84-105 | In every run at most one automatic refresh is in flight, and every waiter gets the one result of the refresh it joined. |
| Session.BurstStartsOneRefresh | packages/sdk/src/client.ts:84-105 | A burst of 401s of any size starts exactly one refresh, and all of the burst wait for it. |
| Session.RefreshNeverWaitsOnItself | packages/sdk/src/http.ts:171-179 | The refresh request never enters the refresh hook, whatever the server answers. |
| Session.SignedOutStaysOut | packages/sdk/src/client.ts:84-105 | After signing out, no run without a sign-in or the success of an explicit refresh has a session, whatever automatic refreshes were in flight. |
| Session.ResurrectsExactly | packages/sdk/src/client.ts:143-159 | Signing out is final in every later run without a sign-in if and only if no explicit refresh was pending when it happened. |
| Session.LateRefreshResurrects | packages/sdk/src/client.ts:143-159 | The concrete run: sign in, start an explicit refresh, sign out, and its answer leaves the client with a session that has no address. |
| Session.LateSettleOverwrites | packages/sdk/src/client.ts:88-102 | A session signed in while an automatic refresh runs is dropped by its failure and gets its tokens replaced by its success. |
| Session.SignInSurvivesExactly | packages/sdk/src/client.ts:84-156 | A new sign-in survives every ending of earlier refreshes unchanged if and only if no refresh, automatic or explicit, is pending at that moment. |
| Realtime.RealtimeClient.Subscribe | packages/sdk/src/realtime.ts:100-109 | The handler joins its address's set; a join is emitted only for a new address. |
| Realtime.RealtimeClient.Unsubscribe | packages/sdk/src/realtime.ts:111-120 | The handler leaves its set; the last one out removes the address and emits a leave. |
| Realtime.RealtimeClient.Close | packages/sdk/src/realtime.ts:123-129 | Handlers and socket are dropped. |
| Realtime.ConnectInStep | packages/sdk/src/realtime.ts:87-92 | On (re)connection, buffered and re-sent requests together lead the fresh server socket to the client's addresses, in either order of sending. |
| Realtime.HandlersAreTheWanted | packages/sdk/src/realtime.ts:100-129 | In every run an address has exactly the handlers that subscribed to it and have neither unsubscribed from it nor been closed since. |
| Realtime.ServedRooms | apps/realtime/src/main.ts:25-32 | A join or leave of an address under 80 characters changes that room and no other; any other request changes none. |
| Realtime.SubscriptionsSurvive | apps/realtime/src/main.ts:25-32 | Over any interleaving of subscribe, unsubscribe, connect, drop, serve and close: connected and drained, the server's rooms are exactly the client's addresses it accepts, and no address has an empty handler set. |
| Clarity.UnwrapInvertsEncoding | packages/stacks/src/clarity.ts:33-64 | Decoding any node that encodes a Clarity value, whatever types the type text mentions, gives the plain value, also when a field is named "type". |
| Clarity.UnwrapInvertsCvToJson | packages/stacks/src/clarity.ts:33-64 | In particular for the node built by `cvToJSON`, at any nesting of tuples, lists, optionals and responses. |
| Clarity.KindOfType | packages/stacks/src/clarity.ts:21-27 | The head of a printed type signature is the value's own constructor. |
| Clarity.KindText | packages/stacks/src/clarity.ts:21-27 | The kind of a signature is the word after its parenthesis, up to white space or a parenthesis, in lower case. |
| Clarity.BareKindText | packages/stacks/src/clarity.ts:23-23 | A signature without a parenthesis is its own kind, trimmed and in lower case. |
| Clarity.MapsUnwrap | packages/stacks/src/clarity.ts:38-45 | A record without a textual type keeps its keys and decodes each field. |
| Clarity.NodesUnwrap | packages/stacks/src/clarity.ts:47-58 | A node is null for `none` and for an optional null, and its decoded value otherwise. |
| Clarity.ValuelessUnwrap | packages/stacks/src/clarity.ts:49-63 | A typed record without a value is null for `none` and optional, and a map of decoded fields otherwise. |
| Clarity.ResponsesUnwrap | packages/stacks/src/clarity.ts:77-83 | A response is an error if and only if its success is false; whatever is no response is an ok value. |
| Clarity.ResponseSplits | packages/stacks/src/clarity.ts:71-83 | A response splits into branch and payload; any other value is an ok bare value. |
| Clarity.FixedExactly | packages/stacks/src/clarity.ts:33-64 | Decoding leaves a plain value alone if and only if nothing inside it looks like a node. |
| Clarity.DecodingTwice | packages/stacks/src/clarity.ts:33-64 | Decoding twice equals decoding once if and only if the decoded value holds no lookalike; it does when no tuple has a field "type" that decodes to a string. |
| Clarity.LookalikeTuple | packages/stacks/src/clarity.ts:33-64 | A tuple with fields "type" and "value" for which the condition fails. |
| RateLimit.Redis.Incr | apps/api/src/common/guards/rate-limit.guard.ts:67-67 | A live counter goes up by one and keeps its expiry; an absent or expired one starts at 1. |
| RateLimit.Redis.Expire | apps/api/src/common/guards/rate-limit.guard.ts:68-68 | Only a live key's expiry changes. |
| RateLimit.Redis.CanActivate | apps/api/src/common/guards/rate-limit.guard.ts:42-96 | A request is admitted if and only if its count in the window read before the increment is within the limit, the first one owing the expiry; when the increment, or the expiry owed, fails, the request is admitted. |
| RateLimit.WindowAdmitsExactly | apps/api/src/common/guards/rate-limit.guard.ts:55-75 | For any interleaving of replicas and any clocks, a window admits at most the limit if and only if no hit on it finds its counter expired, or its hits are within the limit, or the limit is 0. |
| RateLimit.WindowAdmitsTheLimit | apps/api/src/common/guards/rate-limit.guard.ts:55-75 | While no hit finds the counter expired, a window admits exactly the smaller of its requests and the limit. |
| RateLimit.TimelyNeverRestarts | apps/api/src/common/guards/rate-limit.guard.ts:64-68 | On one clock, when every increment reaches Redis within the window it was computed for, no hit finds its counter expired: the TTL cannot reset a live window. |
| RateLimit.IntervalAdmits | apps/api/src/common/guards/rate-limit.guard.ts:55-75 | Any stretch of k windows, wherever it starts, admits at most (k + 1) times the limit when each of its caller's windows meets the condition of `RateLimit.WindowAdmitsExactly`. |
| RateLimit.RetryAfterReachesNextWindow | apps/api/src/common/guards/rate-limit.guard.ts:75-93 | Waiting the advised seconds reaches a later window. |
| RateLimit.RetryAfterIsLeast | apps/api/src/common/guards/rate-limit.guard.ts:75-83 | In the window of the refusal, a wait of whole seconds reaches the next one if and only if it is at least the advised one. |
| RateLimit.LateIncrementAdmitsMore | apps/api/src/common/guards/rate-limit.guard.ts:55-68 | Three events in which an increment arrives after its key has expired and the window admits one too many. |
| WebhookSignature.HexToBytes | packages/sdk/src/webhooks.ts:42-49 | The loop decodes exactly the even-length strings of hex digits, of either case. |
| WebhookSignature.TimingSafeEqual | packages/sdk/src/webhooks.ts:51-57 | The XOR fold answers true if and only if the byte sequences are equal. |
| WebhookSignature.ParseSignatureHeader | packages/sdk/src/webhooks.ts:29-40 | The loop yields the last `t` and `v1` of the comma-separated pairs, or nothing when either is unusable. |
| WebhookSignature.VerifyWebhookSignature | packages/sdk/src/webhooks.ts:96-116 | The method decides the specification of an acceptable delivery, step by step. |
| WebhookSignature.HexRoundTrip | packages/sdk/src/webhooks.ts:42-49 | Decoding lower-case hex returns the bytes. |
| WebhookSignature.HexText | packages/webhooks/src/index.ts:57-66 | The sender writes two lower-case hex digits a byte, the high half first. |
| WebhookSignature.HexOfEitherCase | packages/sdk/src/webhooks.ts:42-49 | The receiver decodes exactly the even-length strings of hex digits, letter case aside. |
| WebhookSignature.IntegerText | packages/webhooks/src/index.ts:57-66 | Timestamps are written in decimal. |
| WebhookSignature.PairText | packages/sdk/src/webhooks.ts:31-35 | A pair is cut at its first equals sign and trimmed on both sides; one without is ignored. |
| WebhookSignature.PairsText | packages/sdk/src/webhooks.ts:31-31 | Pairs are cut at every comma. |
| WebhookSignature.NumbersExactly | packages/sdk/src/webhooks.ts:36-36 | A timestamp is read as n if and only if, trimmed, it is blank and n is 0, or digits writing n with a sign or none. |
| WebhookSignature.LastPairWins | packages/sdk/src/webhooks.ts:34-38 | The last pair of a name wins, and a header needs a number for `t` and a text for `v1`. |
| WebhookSignature.HeaderParses | packages/webhooks/src/index.ts:57-66 | The sender's header parses back to its timestamp, negative ones included, and its digest. |
| WebhookSignature.VerifierAcceptsExactly | packages/sdk/src/webhooks.ts:96-116 | For any MAC to 32 bytes, the receiver accepts the sender's header if and only if the tolerance is not positive or the whole seconds now differ from the timestamp by at most it, and the MACs of timestamp, full stop and body as received and as sent coincide. |
| WebhookSignature.MaterialIsInjective | packages/sdk/src/webhooks.ts:8-13 | The signed material determines timestamp and body: an old body cannot be moved under a fresh timestamp. |

## Left out

- Stress.StressIsMonotone: excludes a deep shock that leaves no collateral on a loan the mild one leaves alive; Stress.MonotoneExactly says when the claim holds there and when it fails.
- Scenario.DeeperIsNeverSafer: the condition for the figures is exact position by position (Scenario.NoneBetterExactly), while a portfolio's worst figure may hide a single improvement.
- Stress.PredictedDistanceSafe: the slack is 10000/T + 1 + 5000/collateral bps, so for collateral under 5000 units of 1e-8 dollars it exceeds 10000/T + 2.
- Attestation.CompletedJobIsFresh: assumes the job's row is newer than everything the wallet has published; older rows may be published out of order.
- RateLimit.WindowAdmitsTheLimit: assumes that no hit finds its counter expired; RateLimit.WindowAdmitsExactly says when the limit holds without that.
- decimal.js's 20 significant digits: prices are exact reals and sums are exact; the score is (4h + 3c + 3a) / 10 exactly, without IEEE ties in `Math.round`.
- Asset values brought to the stress engine carry 8 decimals, and thresholds, shocks and accessible shares are whole basis points.
- Lower-casing and trimming cover ASCII and the no-break space; other scripts are not folded.
- Display fields that feed no decision: names of the top protocol and asset, exposure totals of the concentrations, warning texts, scenario names, sources and timestamps.
- JSON numbers other than integers below 1e21 in magnitude (fractions, and larger integers, which JavaScript prints with an exponent), `toJSON`, and `undefined` as the whole report.
- SHA-256, HMAC, AES-GCM, JWT and wallet signatures: the MAC is an arbitrary function, the hash input is where the report model ends.
- `localeCompare`: an arbitrary comparison.
- Crashes between broadcast and marking; the attestation step broadcasts and marks at once, as the worker's single concurrency intends.
- Attestation.AttestableExactly: does not model the well-formedness of the wallet's address and the non-negativity of source block and health factor, which building the transaction requires.
- Equal source block and observation time in the newest-published query: the first such row is taken.
- Queues, job retries and the reading of the worker's environment settings.
- ReorgMirror.MirrorIsCanonical: leaves out stale redelivery after newer blocks, confirmations delivered before a transaction id is stored, and ids not spelled as 64 hex digits, for which the code promises nothing.
- Wallet re-indexing from Chainhook payloads (`collectPrincipals`, `extractAffected`, `ingest`).
- URL, header and body building, error texts, and the date form of Retry-After: the advice is a parameter of the failure.
- HttpRetry.RequestIsBounded: counts and durations only of sleeps; the time an attempt takes is its timer's, which is not modelled.
- The `onSession` callback and token contents.
- Dispatching realtime messages to handlers, the lazy import of socket.io, and closing while a subscription still awaits its socket.
- `undefined` inside a Clarity node, and the numeric helpers and policy reader of the same package.
- RateLimit.Redis.CanActivate: does not model the joining of key parts into one string; the runs are of a Redis that answers every increment, while an expiry may fail to arrive.
- WebhookSignature.ParseSignatureHeader: a timestamp spelled as a fraction, with an exponent, or in hexadecimal, octal or binary reads as no number; integers count as exact, though JavaScript rounds them from 2^53 on and prints them with an exponent from 1e21 on.
- WebhookSignature.VerifyWebhookSignature: inherits these limits on timestamps.
- The sender's own `verifySignature`, secret encryption and text encoding.
- The Clarity contracts: the registry is the environment that assigns snapshot ids to mined transactions.
- The web application, protocol adapters, authentication, API keys, alerts, notifications, oracle, `persistPortfolio`, `applyPriceShocks` and webhook backoff: presentation, field copying or one-branch checks.
