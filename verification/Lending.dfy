/** Loan-to-value, health factor and liquidation distance (portfolio-engine). */
module Lending {
  import opened Collections
  import opened Rounding
  import opened Positions
  import opened Texts

  datatype Quote = Quote(key: string, assetId: string, priceUsd: real)

  type Prices = seq<Quote>  // a Map in insertion order

  function ByKey(prices: Prices, key: string): Option<real> {
    if prices == [] then None
    else if prices[0].key == key then Some(prices[0].priceUsd)
    else ByKey(prices[1..], key)
  }

  function BySymbol(prices: Prices, symbol: string): Option<real> {
    if prices == [] then None
    else if Upper(prices[0].assetId) == Upper(symbol) then Some(prices[0].priceUsd)
    else BySymbol(prices[1..], symbol)
  }

  function Lookup(prices: Prices, a: Asset): Option<real> {
    var direct := ByKey(prices, a.assetId);
    if direct.Some? then direct else BySymbol(prices, a.symbol)
  }

  lemma {:induction false} FirstKey(before: Prices, q: Quote, after: Prices, key: string)
    requires q.key == key && forall x | x in before :: x.key != key
    ensures ByKey(before + [q] + after, key) == Some(q.priceUsd)
  {
    var all := before + [q] + after;
    if before != [] {
      assert all[1..] == before[1..] + [q] + after && before[0] in before;
      FirstKey(before[1..], q, after, key);
    }
  }

  /** The quote filed under the asset's id applies, whatever symbols match. */
  lemma IdQuotes(before: Prices, q: Quote, after: Prices, a: Asset)
    requires q.key == a.assetId && forall x | x in before :: x.key != a.assetId
    ensures Lookup(before + [q] + after, a) == Some(q.priceUsd)
  {
    FirstKey(before, q, after, a.assetId);
  }

  /** Failing that, the first quote for the asset's symbol, in any letter case. */
  lemma SymbolQuotes(before: Prices, q: Quote, after: Prices, a: Asset)
    requires forall x | x in before + [q] + after :: x.key != a.assetId
    requires Upper(q.assetId) == Upper(a.symbol) && forall x | x in before :: Upper(x.assetId) != Upper(a.symbol)
    ensures Lookup(before + [q] + after, a) == Some(q.priceUsd)
  {
    FirstSymbol(before, q, after, a.symbol);
    NoId(before + [q] + after, a.assetId);
  }

  lemma {:induction false} FirstSymbol(before: Prices, q: Quote, after: Prices, symbol: string)
    requires Upper(q.assetId) == Upper(symbol) && forall x | x in before :: Upper(x.assetId) != Upper(symbol)
    ensures BySymbol(before + [q] + after, symbol) == Some(q.priceUsd)
  {
    hide Upper;
    var all := before + [q] + after;
    if before != [] {
      assert all[1..] == before[1..] + [q] + after && before[0] in before;
      FirstSymbol(before[1..], q, after, symbol);
    }
  }

  lemma {:induction false} NoId(prices: Prices, id: string)
    requires forall x | x in prices :: x.key != id
    ensures ByKey(prices, id).None?
  {
    if prices != [] {
      assert prices[0] in prices && forall x | x in prices[1..] :: x in prices;
      NoId(prices[1..], id);
    }
  }

  /** An asset that no quote names by id or symbol has no price. */
  lemma {:induction false} NoQuote(prices: Prices, a: Asset)
    requires forall x | x in prices :: x.key != a.assetId && Upper(x.assetId) != Upper(a.symbol)
    ensures Lookup(prices, a).None?
  {
    hide Upper;
    if prices != [] {
      assert prices[0] in prices && forall x | x in prices[1..] :: x in prices;
      NoQuote(prices[1..], a);
    }
  }

  function LtvBps(debt: int, collateral: int): (r: int)
    requires collateral > 0
    ensures debt >= 0 ==> r >= 0
  {
    RoundDiv(debt * 10_000, collateral)
  }

  function HealthFactorE4(threshold: int, ltv: nat): (r: int)
    ensures threshold >= 0 ==> r >= 0
  {
    RoundDiv(threshold * 10_000, if ltv == 0 then 1 else ltv)
  }

  function RawDistanceBps(threshold: int, ltv: nat): int
    requires threshold > 0
  {
    RoundDiv((threshold - ltv) * 10_000, threshold)
  }

  function DistanceBps(threshold: int, ltv: nat): (r: int)
    requires threshold > 0
    ensures -10_000 <= r <= 10_000
  {
    Max(-10_000, Min(10_000, RawDistanceBps(threshold, ltv)))
  }

  /** The collateral price at which the position reaches its threshold. */
  function LiquidationPriceE8(a: Asset, debt: int, threshold: int, prices: Option<Prices>): Option<int> {
    if a.amountAtomic <= 0 || threshold <= 0 then None
    else if prices.Some? && Lookup(prices.value, a).None? then None
    else
      Scale(a.amountAtomic, 1, threshold);
      Some(RoundDiv(debt * 10_000 * Pow10(a.decimals), a.amountAtomic * threshold))
  }

  /** True when the position carries valued collateral and valued debt, both worth something. */
  predicate HasLoan(p: Position) {
    && p.lending.Some?
    && Valued(p.assets, Collateral) != [] && Valued(p.assets, Debt) != []
    && CollateralE8(p.assets) > 0 && DebtE8(p.assets) > 0
  }

  function CollateralFigures(p: Position): CollateralView
    requires HasLoan(p)
  {
    var ltv := LtvBps(DebtE8(p.assets), CollateralE8(p.assets));
    var borrow := p.lending.value.borrowLtvBps;
    CollateralView(CollateralE8(p.assets), ltv, ltv,
      if borrow.None? then None else Some(Max(0, borrow.value - ltv)))
  }

  function LiquidationFigures(p: Position, prices: Option<Prices>): LiquidationView
    requires HasLoan(p)
  {
    var ltv := LtvBps(DebtE8(p.assets), CollateralE8(p.assets));
    var threshold := p.lending.value.partialLtvBps;
    var active := threshold.Some? && threshold.value > 0;
    var collateral := Valued(p.assets, Collateral);
    LiquidationView(threshold, threshold, p.lending.value.fullLtvBps,
      if active then Some(HealthFactorE4(threshold.value, ltv)) else None,
      if active then Some(DistanceBps(threshold.value, ltv)) else None,
      if threshold.Some? && threshold.value != 0 && |collateral| == 1
      then LiquidationPriceE8(collateral[0], DebtE8(p.assets), threshold.value, prices) else None)
  }

  /** `deriveLendingMetrics`: a position without a live loan is returned untouched. */
  function DeriveLendingMetrics(p: Position, prices: Option<Prices>): (q: Position)
    ensures q.assets == p.assets && q.valueE8 == p.valueE8 && q.lending == p.lending
  {
    if !HasLoan(p) then p
    else p.(
      collateral := Some(CollateralFigures(p)),
      debtE8 := Some(DebtE8(p.assets)),
      liquidation := Some(LiquidationFigures(p, prices)))
  }

  predicate Flagged(p: Position) {
    p.HealthFactor().Some? && p.HealthFactor().value <= 10_000
  }

  // ----- what the rounded figures say about each other, and about the true ratio

  /** The liquidation flag agrees with the rounded loan-to-value. */
  ghost predicate FlagAgrees(threshold: int) {
    forall ltv: nat :: HealthFactorE4(threshold, ltv) <= 10_000 <==> ltv >= threshold
  }

  /** The sign of the distance agrees with the rounded loan-to-value. */
  ghost predicate DistanceAgrees(threshold: int)
    requires threshold > 0
  {
    forall ltv: nat :: DistanceBps(threshold, ltv) <= 0 <==> ltv >= threshold
  }

  lemma HealthAtThreshold(threshold: int, ltv: nat)
    requires 2 <= threshold <= 20_001
    ensures HealthFactorE4(threshold, ltv) <= 10_000 <==> ltv >= threshold
  {
    hide RoundDiv;
    RoundDivAtLeast(threshold * 10_000, if ltv == 0 then 1 else ltv, 10_001);
  }

  lemma DistanceAtThreshold(threshold: int, ltv: nat)
    requires 1 <= threshold <= 20_000
    ensures DistanceBps(threshold, ltv) <= 0 <==> ltv >= threshold
  {
    hide RoundDiv;
    RoundDivAtLeast((threshold - ltv) * 10_000, threshold, 1);
  }

  /** Exactly the thresholds between 0.02% and 200.01% make the flag mean "LTV at the threshold". */
  lemma FlagAgreesExactly(threshold: int)
    requires threshold > 0
    ensures FlagAgrees(threshold) <==> 2 <= threshold <= 20_001
  {
    if 2 <= threshold <= 20_001 {
      forall ltv: nat ensures HealthFactorE4(threshold, ltv) <= 10_000 <==> ltv >= threshold {
        HealthAtThreshold(threshold, ltv);
      }
    } else if threshold == 1 {
      assert HealthFactorE4(1, 0) == 10_000;
    } else {
      RoundDivAtLeast(threshold * 10_000, threshold - 1, 10_001);
      assert HealthFactorE4(threshold, threshold - 1) <= 10_000;
    }
  }

  lemma DistanceAgreesExactly(threshold: int)
    requires threshold > 0
    ensures DistanceAgrees(threshold) <==> threshold <= 20_000
  {
    if threshold <= 20_000 {
      forall ltv: nat ensures DistanceBps(threshold, ltv) <= 0 <==> ltv >= threshold {
        DistanceAtThreshold(threshold, ltv);
      }
    } else {
      RoundDivAtLeast(10_000, threshold, 1);
      assert (threshold - (threshold - 1)) * 10_000 == 10_000;
      assert DistanceBps(threshold, threshold - 1) <= 0;
    }
  }

  /** The rounded ratio reaches the threshold exactly when the true one reaches it less half a basis point. */
  lemma LtvReaches(debt: int, collateral: int, threshold: int)
    requires collateral > 0 && threshold >= 1
    ensures LtvBps(debt, collateral) >= threshold <==> 20_000 * debt >= (2 * threshold - 1) * collateral
  {
    hide RoundDiv;
    RoundDivAtLeast(debt * 10_000, collateral, threshold);
    assert (2 * threshold - 1) * collateral == 2 * (collateral * threshold) - collateral;
  }

  /**
   * Health factor, rounded LTV and distance flag the same positions; no position at or past its
   * threshold is missed, and a flagged one is within half a basis point of it.
   */
  lemma LiquidationFlag(p: Position, prices: Option<Prices>)
    requires HasLoan(p) && p.lending.value.partialLtvBps.Some?
    requires 2 <= p.lending.value.partialLtvBps.value <= 20_000
    ensures
      var q, t := DeriveLendingMetrics(p, prices), p.lending.value.partialLtvBps.value;
      var debt, collateral := DebtE8(p.assets), CollateralE8(p.assets);
      && q.HealthFactor().Some? && q.Distance().Some?
      && (Flagged(q) <==> q.collateral.value.currentLtvBps >= t)
      && (Flagged(q) <==> q.Distance().value <= 0)
      && (Flagged(q) <==> 20_000 * debt >= (2 * t - 1) * collateral)
      && (10_000 * debt >= t * collateral ==> Flagged(q))
  {
    hide Sum, LtvBps, HealthFactorE4, DistanceBps, LiquidationPriceE8, Valued, RoundDiv;
    var t := p.lending.value.partialLtvBps.value;
    var debt, collateral := DebtE8(p.assets), CollateralE8(p.assets);
    var ltv := LtvBps(debt, collateral);
    HealthAtThreshold(t, ltv);
    DistanceAtThreshold(t, ltv);
    LtvReaches(debt, collateral, t);
    assert (2 * t - 1) * collateral == 2 * (t * collateral) - collateral;
    assert LiquidationFigures(p, prices).healthFactorE4 == Some(HealthFactorE4(t, ltv));
  }

  lemma HealthReached(threshold: int, ltv: nat)
    requires 1 <= threshold <= ltv
    ensures HealthFactorE4(threshold, ltv) <= 10_000
  {
    hide RoundDiv;
    RoundDivAtLeast(threshold * 10_000, ltv, 10_001);
  }

  /** Whatever the threshold, a loan within half a basis point of it, or past it, is flagged. */
  lemma ReachedIsFlagged(p: Position, prices: Option<Prices>)
    requires HasLoan(p) && p.lending.value.partialLtvBps.Some? && p.lending.value.partialLtvBps.value >= 1
    requires 20_000 * DebtE8(p.assets) >= (2 * p.lending.value.partialLtvBps.value - 1) * CollateralE8(p.assets)
    ensures Flagged(DeriveLendingMetrics(p, prices))
  {
    hide Sum, LtvBps, HealthFactorE4, DistanceBps, LiquidationPriceE8, Valued;
    var t := p.lending.value.partialLtvBps.value;
    LtvReaches(DebtE8(p.assets), CollateralE8(p.assets), t);
    HealthReached(t, LtvBps(DebtE8(p.assets), CollateralE8(p.assets)));
  }

  /** A ratio clear of its threshold by one part in 20000 and half a basis point keeps a health factor above 1. */
  lemma HealthSpared(debt: int, collateral: int, threshold: int)
    requires debt >= 0 && collateral > 0 && threshold >= 2
    requires 10_000 * (20_000 * debt + collateral) <= 19_999 * (threshold * collateral)
    ensures HealthFactorE4(threshold, LtvBps(debt, collateral)) > 10_000
  {
    hide RoundDiv;
    var ltv := LtvBps(debt, collateral);
    assert collateral * (20_001 * ltv) == 20_001 * (collateral * ltv);
    assert collateral * (20_000 * threshold + 1) == 20_000 * (threshold * collateral) + collateral;
    if 20_001 * ltv > 20_000 * threshold { Scale(collateral, 20_000 * threshold + 1, 20_001 * ltv); }
    RoundDivAtLeast(threshold * 10_000, if ltv == 0 then 1 else ltv, 10_001);
  }

  /** The first loan-to-value at which the rounded distance is negative: T + 1 up to a threshold of 20000 bps. */
  function FirstUnderwater(threshold: nat): int { threshold + (threshold + 19_999) / 20_000 }

  lemma NegativeDistance(threshold: int, ltv: nat)
    requires threshold >= 1
    ensures DistanceBps(threshold, ltv) < 0 <==> ltv >= FirstUnderwater(threshold)
  {
    hide RoundDiv;
    RoundDivAtLeastNonPositive((threshold - ltv) * 10_000, threshold, 0);
  }

  /** A loan reports a negative distance exactly when it is past its threshold by half a basis point. */
  lemma UnderwaterExactly(p: Position, prices: Option<Prices>)
    requires HasLoan(p) && p.lending.value.partialLtvBps.Some? && p.lending.value.partialLtvBps.value >= 1
    ensures var q, t := DeriveLendingMetrics(p, prices), p.lending.value.partialLtvBps.value;
      var debt, collateral := DebtE8(p.assets), CollateralE8(p.assets);
      && q.Distance().Some?
      && (q.Distance().value < 0 <==> 20_000 * debt >= (2 * FirstUnderwater(t) - 1) * collateral)
      && (t <= 20_000 ==> (q.Distance().value < 0 <==> 20_000 * debt >= (2 * t + 1) * collateral))
  {
    hide Sum, LtvBps, HealthFactorE4, DistanceBps, LiquidationPriceE8, Valued;
    var t := p.lending.value.partialLtvBps.value;
    var debt, collateral := DebtE8(p.assets), CollateralE8(p.assets);
    LtvReaches(debt, collateral, FirstUnderwater(t));
    NegativeDistance(t, LtvBps(debt, collateral));
    assert LiquidationFigures(p, prices).distanceBps == Some(DistanceBps(t, LtvBps(debt, collateral)));
  }

  /** At the liquidation price the collateral times the threshold covers the debt, to half a price unit. */
  lemma LiquidationPriceHits(a: Asset, debt: int, threshold: int, prices: Option<Prices>)
    requires LiquidationPriceE8(a, debt, threshold, prices).Some?
    ensures a.amountAtomic * threshold > 0
    ensures 2 * Abs(a.amountAtomic * threshold * LiquidationPriceE8(a, debt, threshold, prices).value
                    - debt * 10_000 * Pow10(a.decimals)) <= a.amountAtomic * threshold
  {
    hide RoundDiv;
    Scale(a.amountAtomic, 1, threshold);
  }

  /** A liquidation price is estimated for a single collateral with an amount and a quote, where quotes are given. */
  lemma EstimatedExactly(p: Position, prices: Option<Prices>, c: Asset)
    requires HasLoan(p) && c in Valued(p.assets, Collateral)
    ensures var price, t := DeriveLendingMetrics(p, prices).liquidation.value.priceE8, p.lending.value.partialLtvBps;
      && (price.Some? <==>
            |Valued(p.assets, Collateral)| == 1 && c.amountAtomic > 0 && t.Some? && t.value > 0
            && (prices.Some? ==> Lookup(prices.value, c).Some?))
      && (price.Some? ==> price == LiquidationPriceE8(c, DebtE8(p.assets), t.value, prices))
  {
    hide Sum, LtvBps, HealthFactorE4, DistanceBps, RoundDiv, Lookup, Valued;
  }

  function InRole(role: Role): Asset -> int {
    (a: Asset) => if a.role == role && a.valueE8.Some? then a.valueE8.value else 0
  }

  lemma {:induction false} RoleSum(assets: seq<Asset>, role: Role)
    ensures Sum(ValueE8, Valued(assets, role)) == Sum(InRole(role), assets)
  {
    if assets != [] {
      var before, last := assets[..|assets| - 1], assets[|assets| - 1];
      RoleSum(before, role);
      var v := Valued(before, role);
      assert (v + [last])[..|v|] == v;
    }
  }

  lemma {:induction false} SomeInRole(assets: seq<Asset>, role: Role)
    ensures Valued(assets, role) == [] ==> Sum(InRole(role), assets) == 0
  {
    if assets != [] { SomeInRole(assets[..|assets| - 1], role); }
  }

  /** A loan is live, and has lending figures, exactly when there are terms and both its sides are worth something. */
  lemma LiveExactly(p: Position, prices: Option<Prices>)
    ensures HasLoan(p) <==> p.lending.Some? && Sum(InRole(Collateral), p.assets) > 0 && Sum(InRole(Debt), p.assets) > 0
    ensures !HasLoan(p) ==> DeriveLendingMetrics(p, prices) == p
  {
    hide Sum, Valued, InRole, CollateralFigures, LiquidationFigures;
    RoleSum(p.assets, Collateral);
    RoleSum(p.assets, Debt);
    SomeInRole(p.assets, Collateral);
    SomeInRole(p.assets, Debt);
  }

  /** A live loan reports its collateral and its debt, each the sum over the assets of that role, and its terms. */
  lemma LoanIsReported(p: Position, prices: Option<Prices>)
    requires HasLoan(p)
    ensures var q := DeriveLendingMetrics(p, prices);
      && q.collateral.Some? && q.collateral.value.valueE8 == Sum(InRole(Collateral), p.assets)
      && q.debtE8 == Some(Sum(InRole(Debt), p.assets))
      && q.collateral.value.ratioE4 == q.collateral.value.currentLtvBps
      && q.liquidation.Some? && q.liquidation.value.partialThresholdBps == p.lending.value.partialLtvBps
      && q.liquidation.value.thresholdE4 == p.lending.value.partialLtvBps
      && q.liquidation.value.fullThresholdBps == p.lending.value.fullLtvBps
      && (q.HealthFactor().Some? <==> p.lending.value.partialLtvBps.Some? && p.lending.value.partialLtvBps.value > 0)
      && (q.Distance().Some? <==> p.lending.value.partialLtvBps.Some? && p.lending.value.partialLtvBps.value > 0)
  {
    hide Sum, Valued, LtvBps, HealthFactorE4, DistanceBps, LiquidationPriceE8;
    RoleSum(p.assets, Collateral);
    RoleSum(p.assets, Debt);
  }

  /** Headroom fills the gap to the borrow limit, and is left exactly half a basis point short of it. */
  lemma HeadroomExactly(p: Position, prices: Option<Prices>)
    requires HasLoan(p) && p.lending.value.borrowLtvBps.Some?
    ensures var c, limit := DeriveLendingMetrics(p, prices).collateral.value, p.lending.value.borrowLtvBps.value;
      && c.borrowHeadroomBps.Some? && c.borrowHeadroomBps.value >= 0
      && (20_000 * DebtE8(p.assets) < (2 * limit - 1) * CollateralE8(p.assets) <==> c.borrowHeadroomBps.value > 0)
      && (c.borrowHeadroomBps.value > 0 ==> c.currentLtvBps + c.borrowHeadroomBps.value == limit)
  {
    hide LtvBps, Sum, Valued;
    var limit, collateral := p.lending.value.borrowLtvBps.value, CollateralE8(p.assets);
    if limit >= 1 { LtvReaches(DebtE8(p.assets), collateral, limit); } else { Scale(collateral, 2 * limit - 1, 0); }
  }

  /**
   * Health factor and distance are two roundings of one ratio: what the distance leaves of the
   * collateral, times the health factor, is the whole, up to half a unit of each.
   */
  lemma HealthMirrorsDistance(p: Position, prices: Option<Prices>)
    requires HasLoan(p) && p.lending.value.partialLtvBps.Some? && p.lending.value.partialLtvBps.value > 0
    requires var q := DeriveLendingMetrics(p, prices);
      q.collateral.value.currentLtvBps > 0 && q.Distance().value > -10_000
    ensures var q := DeriveLendingMetrics(p, prices);
      var health, left := q.HealthFactor().value, 10_000 - q.Distance().value;
      4 * Abs(health * left - 100_000_000) <= 2 * health + 2 * left + 1
  {
    hide LtvBps, HealthFactorE4, RawDistanceBps, LiquidationPriceE8, Valued, Sum;
    var threshold, ltv := p.lending.value.partialLtvBps.value, LtvBps(DebtE8(p.assets), CollateralE8(p.assets));
    RatiosMirror(threshold, ltv);
  }

  lemma RatiosMirror(threshold: int, ltv: nat)
    requires threshold > 0 && ltv > 0
    ensures RawDistanceBps(threshold, ltv) <= 10_000
    ensures var health, left := HealthFactorE4(threshold, ltv), 10_000 - RawDistanceBps(threshold, ltv);
      4 * Abs(health * left - 100_000_000) <= 2 * health + 2 * left + 1
  {
    hide RoundDiv;
    var health, raw := HealthFactorE4(threshold, ltv), RawDistanceBps(threshold, ltv);
    RoundError(threshold * 10_000, ltv);
    RoundError((threshold - ltv) * 10_000, threshold);
    Reciprocal(health, 10_000 - raw, threshold, ltv,
               health * ltv - threshold * 10_000, (threshold - ltv) * 10_000 - raw * threshold);
    RoundDivAtLeast((threshold - ltv) * 10_000, threshold, 10_001);
  }

  lemma RoundError(n: int, d: int)
    requires d > 0
    ensures 2 * Abs(RoundDiv(n, d) * d - n) <= d && 2 * Abs(n - RoundDiv(n, d) * d) <= d
  {
    hide RoundDiv;
    assert RoundDiv(n, d) * d == d * RoundDiv(n, d);
  }

  lemma Reciprocal(health: int, left: int, threshold: int, ltv: int, e: int, d: int)
    requires health >= 0 && threshold > 0 && ltv > 0
    requires health * ltv == threshold * 10_000 + e && left * threshold == ltv * 10_000 + d
    requires 2 * Abs(e) <= ltv && 2 * Abs(d) <= threshold
    ensures 4 * Abs(health * left - 100_000_000) <= 2 * health + 2 * left + 1
  {
    var gap, bound := health * left - 100_000_000, 2 * health + 2 * left + 1;
    GapTimes(health, left, threshold, ltv, e, d);
    ScaleError(health, d, threshold);
    BoundTimes(health, left, threshold, ltv, d);
    Combine(gap * threshold, e, health * d, health * threshold, ltv, bound * threshold);
    CancelFactor(gap, bound, threshold);
  }

  lemma Combine(gap: int, e: int, d: int, room: int, ltv: int, bound: int)
    requires gap == 10_000 * e + d && 2 * Abs(e) <= ltv && 2 * Abs(d) <= room && 20_000 * ltv + 2 * room <= bound
    ensures 4 * Abs(gap) <= bound
  {
  }

  lemma ScaleError(health: int, d: int, threshold: int)
    requires health >= 0 && 2 * Abs(d) <= threshold
    ensures 2 * Abs(health * d) <= health * threshold
  {
    Scale(health, 2 * d, threshold);
    Scale(health, -threshold, 2 * d);
    assert health * (2 * d) == 2 * (health * d) && health * -threshold == -(health * threshold);
  }

  lemma GapTimes(health: int, left: int, threshold: int, ltv: int, e: int, d: int)
    requires health * ltv == threshold * 10_000 + e && left * threshold == ltv * 10_000 + d
    ensures (health * left - 100_000_000) * threshold == 10_000 * e + health * d
  {
    calc {
      (health * left - 100_000_000) * threshold;
      health * (left * threshold) - 100_000_000 * threshold;
      health * (ltv * 10_000 + d) - 100_000_000 * threshold;
      10_000 * (health * ltv) + health * d - 100_000_000 * threshold;
      10_000 * e + health * d;
    }
  }

  lemma BoundTimes(health: int, left: int, threshold: int, ltv: int, d: int)
    requires left * threshold == ltv * 10_000 + d && 2 * Abs(d) <= threshold
    ensures 20_000 * ltv + 2 * (health * threshold) <= (2 * health + 2 * left + 1) * threshold
  {
    assert (2 * health + 2 * left + 1) * threshold == 2 * (health * threshold) + 2 * (left * threshold) + threshold;
  }

  lemma CancelFactor(gap: int, bound: int, d: int)
    requires d > 0 && 4 * Abs(gap * d) <= bound * d
    ensures 4 * Abs(gap) <= bound
  {
    assert (4 * gap) * d == 4 * (gap * d) && (-4 * gap) * d == -4 * (gap * d);
    Cancel(4 * gap, bound, d);
    Cancel(-4 * gap, bound, d);
  }

  lemma Cancel(a: int, b: int, d: int)
    requires d > 0 && a * d <= b * d
    ensures a <= b
  {
    if a > b { Scale(d, b + 1, a); }
  }
}
