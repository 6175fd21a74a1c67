/** Pricing positions and adding them up into a portfolio (portfolio-engine). */
module Valuation {
  import opened Collections
  import opened Rounding
  import opened Positions
  import opened Lending

  function RealSum<T>(f: T -> real, s: seq<T>): real {
    if s == [] then 0.0 else RealSum(f, s[..|s| - 1]) + f(s[|s| - 1])
  }

  /** Exact value of an asset at a quoted price, in 1e-8 dollars. */
  function ExactE8(a: Asset, price: real): real {
    a.amountAtomic as real * price * 100_000_000.0 / Pow10(a.decimals) as real
  }

  function PricedE8(a: Asset, prices: Prices): Option<real> {
    var price := Lookup(prices, a);
    if price.None? then None else Some(ExactE8(a, price.value))
  }

  function AbsReal(x: real): real { if x < 0.0 then -x else x }

  // The exact contributions of one asset to the running totals.

  function PositivePart(prices: Prices): Asset -> real {
    (a: Asset) => var v := PricedE8(a, prices); if v.None? || a.role == Debt then 0.0 else v.value
  }

  function DebtPart(prices: Prices): Asset -> real {
    (a: Asset) => var v := PricedE8(a, prices); if v.None? || a.role != Debt then 0.0 else v.value
  }

  function GrossPart(prices: Prices): Asset -> real {
    (a: Asset) => var v := PricedE8(a, prices); if v.None? then 0.0 else AbsReal(v.value)
  }

  function IsPriced(prices: Prices): Asset -> int {
    (a: Asset) => if Lookup(prices, a).Some? then 1 else 0
  }

  function PricedCount(assets: seq<Asset>, prices: Prices): (n: nat)
    ensures n <= |assets|
  {
    CountBound(assets, prices);
    Sum(IsPriced(prices), assets)
  }

  lemma {:induction false} CountBound(assets: seq<Asset>, prices: Prices)
    ensures 0 <= Sum(IsPriced(prices), assets) <= |assets|
  {
    if assets != [] { CountBound(assets[..|assets| - 1], prices); }
  }

  function PriceAsset(a: Asset, prices: Prices): Asset {
    var v := PricedE8(a, prices);
    if v.None? then a else a.(valueE8 := Some(RoundReal(v.value)))
  }

  function PriceAssets(assets: seq<Asset>, prices: Prices): (r: seq<Asset>)
    ensures |r| == |assets|
  {
    if assets == [] then []
    else PriceAssets(assets[..|assets| - 1], prices) + [PriceAsset(assets[|assets| - 1], prices)]
  }

  /**
   * An asset quoted at a price is worth its units at that price, an amount of 10^decimals being one
   * unit, to half of 1e-8 dollars; without a quote it stays as it came.
   */
  lemma QuotedValue(a: Asset, prices: Prices)
    ensures var quote, b := Lookup(prices, a), PriceAsset(a, prices);
      && b == a.(valueE8 := b.valueE8)
      && (quote.None? ==> b == a)
      && (quote.Some? ==> b.valueE8.Some?)
      && (quote.Some? ==>
            var one := Pow10(a.decimals) as real;
            2.0 * AbsReal(b.valueE8.value as real * one - a.amountAtomic as real * quote.value * 100_000_000.0) <= one)
  {
    hide Lookup, RoundReal, Pow10;
    var quote := Lookup(prices, a);
    if quote.Some? {
      var one, exact := Pow10(a.decimals) as real, ExactE8(a, quote.value);
      var total := a.amountAtomic as real * quote.value * 100_000_000.0;
      assert exact * one == total;
      var v := RoundReal(exact) as real;
      ScaleReal(v - exact, one);
      assert (v - exact) * one == v * one - total;
    }
  }

  lemma NonNegativeProduct(x: real, y: real)
    requires x >= 0.0 && y >= 0.0
    ensures x * y >= 0.0
  {
  }

  lemma ScaleReal(x: real, one: real)
    requires one > 0.0 && -0.5 <= x <= 0.5
    ensures 2.0 * AbsReal(x * one) <= one
  {
    NonNegativeProduct(0.5 - x, one);
    NonNegativeProduct(0.5 + x, one);
    assert (0.5 - x) * one == 0.5 * one - x * one && (0.5 + x) * one == 0.5 * one + x * one;
  }

  /** A whole unit is worth its price, to half of 1e-8 dollars. */
  lemma WholeUnitIsWorthItsPrice(a: Asset, prices: Prices)
    requires a.amountAtomic == Pow10(a.decimals) && Lookup(prices, a).Some?
    ensures PriceAsset(a, prices).valueE8 == Some(RoundReal(Lookup(prices, a).value * 100_000_000.0))
  {
    hide Lookup, RoundReal, Pow10;
    var price, one := Lookup(prices, a).value, Pow10(a.decimals) as real;
    assert one * price * 100_000_000.0 == price * 100_000_000.0 * one;
    assert ExactE8(a, price) == price * 100_000_000.0;
  }

  /** At its liquidation price, the collateral is worth the debt over the threshold, to the rounding of both. */
  lemma WorthAtLiquidationPrice(a: Asset, debt: int, threshold: int, prices: Option<Prices>, quotes: Prices)
    requires LiquidationPriceE8(a, debt, threshold, prices).Some?
    requires Lookup(quotes, a) == Some(LiquidationPriceE8(a, debt, threshold, prices).value as real / 100_000_000.0)
    ensures PriceAsset(a, quotes).valueE8.Some?
    ensures var v, one := PriceAsset(a, quotes).valueE8.value, Pow10(a.decimals);
      2 * Abs((v * threshold - debt * 10_000) * one) <= (one + a.amountAtomic) * threshold
  {
    hide Lookup, Pow10, LiquidationPriceE8, PriceAsset;
    LiquidationPriceHits(a, debt, threshold, prices);
    QuotedValue(a, quotes);
    PositiveTerms(a, debt, threshold, prices);
    var price := LiquidationPriceE8(a, debt, threshold, prices).value;
    var v, one := PriceAsset(a, quotes).valueE8.value, Pow10(a.decimals);
    assert price as real / 100_000_000.0 * 100_000_000.0 == price as real;
    WorthInUnits(v, one, a.amountAtomic, price);
    WorthCombined(v, one, a.amountAtomic, price, threshold, debt);
  }

  lemma PositiveTerms(a: Asset, debt: int, threshold: int, prices: Option<Prices>)
    requires LiquidationPriceE8(a, debt, threshold, prices).Some?
    ensures a.amountAtomic > 0 && threshold > 0
  {
  }

  lemma WorthInUnits(v: int, one: int, amount: int, price: int)
    requires
      2.0 * AbsReal(v as real * one as real - amount as real * (price as real / 100_000_000.0) * 100_000_000.0)
        <= one as real
    ensures 2 * Abs(v * one - amount * price) <= one
  {
    assert amount as real * (price as real / 100_000_000.0) * 100_000_000.0 == amount as real * price as real;
    assert (v * one) as real == v as real * one as real && (amount * price) as real == amount as real * price as real;
  }

  lemma WorthCombined(v: int, one: int, amount: int, price: int, threshold: int, debt: int)
    requires one > 0 && amount > 0 && threshold > 0
    requires 2 * Abs(v * one - amount * price) <= one
    requires 2 * Abs(amount * threshold * price - debt * 10_000 * one) <= amount * threshold
    ensures 2 * Abs((v * threshold - debt * 10_000) * one) <= (one + amount) * threshold
  {
    var gap := v * one - amount * price;
    Scale(threshold, 2 * gap, one);
    Scale(threshold, -one, 2 * gap);
    assert threshold * (2 * gap) == 2 * (threshold * gap) && threshold * -one == -(threshold * one);
    WorthSplits(v, one, amount, price, threshold, debt);
    AddErrors(threshold * gap, amount * threshold * price - debt * 10_000 * one, threshold * one, amount * threshold);
  }

  lemma WorthSplits(v: int, one: int, amount: int, price: int, threshold: int, debt: int)
    ensures (v * threshold - debt * 10_000) * one
      == threshold * (v * one - amount * price) + (amount * threshold * price - debt * 10_000 * one)
    ensures (one + amount) * threshold == threshold * one + amount * threshold
  {
    assert (v * threshold) * one == threshold * (v * one);
    assert amount * threshold * price == threshold * (amount * price);
  }

  lemma AddErrors(a: int, b: int, x: int, y: int)
    requires 2 * Abs(a) <= x && 2 * Abs(b) <= y
    ensures 2 * Abs(a + b) <= x + y
  {
  }

  lemma {:induction false} TotalsDrift(exact: Asset -> real, rounded: Asset -> int, assets: seq<Asset>, prices: Prices)
    requires forall a | a in assets ::
      2.0 * AbsReal(exact(a) - rounded(PriceAsset(a, prices)) as real) <= IsPriced(prices)(a) as real
    ensures 2.0 * AbsReal(RealSum(exact, assets) - Sum(rounded, PriceAssets(assets, prices)) as real)
      <= PricedCount(assets, prices) as real
  {
    hide PriceAsset, IsPriced, AbsReal;
    if assets != [] {
      var before, a := assets[..|assets| - 1], assets[|assets| - 1];
      assert a in assets && forall x | x in before :: x in assets;
      TotalsDrift(exact, rounded, before, prices);
      var r := PriceAssets(assets, prices);
      assert r[..|r| - 1] == PriceAssets(before, prices) && r[|r| - 1] == PriceAsset(a, prices);
      AddRealErrors(RealSum(exact, before) - Sum(rounded, PriceAssets(before, prices)) as real,
                    exact(a) - rounded(PriceAsset(a, prices)) as real,
                    PricedCount(before, prices) as real, IsPriced(prices)(a) as real);
    } else {
      NoRealError();
    }
  }

  lemma NoRealError()
    ensures AbsReal(0.0) == 0.0
  {
  }

  lemma AddRealErrors(a: real, b: real, x: real, y: real)
    requires 2.0 * AbsReal(a) <= x && 2.0 * AbsReal(b) <= y
    ensures 2.0 * AbsReal(a + b) <= x + y
  {
  }

  /** The recorded totals of a valued position are the sums of its assets, debts counting as debts. */
  lemma ValuationFollowsAssets(p: Position, prices: Prices)
    requires Unvalued(p.assets)
    ensures var q := PricedPosition(p, prices);
      && q.assets == PriceAssets(p.assets, prices)
      && q.valuation.Some? && q.valuation.value.valuedAssets == Some(PricedCount(p.assets, prices))
      && q.valuation.value.totalAssets == Some(|p.assets|)
      && var v, slack := q.valuation.value, PricedCount(p.assets, prices) + 1;
         && v.positiveE8.Some? && v.debtE8.Some? && v.grossE8.Some? && !v.stressed
         && 2 * Abs(v.positiveE8.value - Sum(OwnedE8, q.assets)) <= slack
         && 2 * Abs(v.debtE8.value - Sum(OwedE8, q.assets)) <= slack
         && 2 * Abs(v.grossE8.value - Sum(AbsE8, q.assets)) <= slack
  {
    hide RealSum, Sum, PriceAssets, PriceAsset, HasLoan, CollateralFigures, LiquidationFigures;
    hide PositivePart, DebtPart, GrossPart, OwnedE8, OwedE8, AbsE8, IsPriced, PricedCount, RoundReal;
    forall a | a in p.assets { PartsRound(a, prices); }
    TotalsDrift(PositivePart(prices), OwnedE8, p.assets, prices);
    TotalsDrift(DebtPart(prices), OwedE8, p.assets, prices);
    TotalsDrift(GrossPart(prices), AbsE8, p.assets, prices);
  }

  lemma PartsRound(a: Asset, prices: Prices)
    requires a.valueE8.None?
    ensures var b, slack := PriceAsset(a, prices), IsPriced(prices)(a) as real;
      && 2.0 * AbsReal(PositivePart(prices)(a) - OwnedE8(b) as real) <= slack
      && 2.0 * AbsReal(DebtPart(prices)(a) - OwedE8(b) as real) <= slack
      && 2.0 * AbsReal(GrossPart(prices)(a) - AbsE8(b) as real) <= slack
  {
    hide ExactE8, Lookup;
  }

  /** Assets are priced one by one, in place. */
  lemma {:induction false} PricedOrder(assets: seq<Asset>, prices: Prices)
    ensures forall i | 0 <= i < |assets| :: PriceAssets(assets, prices)[i] == PriceAsset(assets[i], prices)
  {
    hide PriceAsset;
    if assets != [] { PricedOrder(assets[..|assets| - 1], prices); }
  }

  /** The position as priced: every total is rounded once, from the exact sum. */
  function PricedPosition(p: Position, prices: Prices): Position {
    var positive := RealSum(PositivePart(prices), p.assets);
    var debt := RealSum(DebtPart(prices), p.assets);
    var count := PricedCount(p.assets, prices);
    DeriveLendingMetrics(
      p.(assets := PriceAssets(p.assets, prices),
         valueE8 := if count > 0 then Some(RoundReal(positive - debt)) else p.valueE8,
         valuation := Some(Positions.Valuation(
           Some(count), Some(|p.assets|),
           Some(RoundReal(RealSum(GrossPart(prices), p.assets))),
           Some(RoundReal(positive)), Some(RoundReal(debt)), false))),
      Some(prices))
  }

  /** `valuePosition`: one pass over the assets, updating the running totals. */
  method ValuePosition(p: Position, prices: Prices) returns (r: Position)
    ensures r == PricedPosition(p, prices)
  {
    hide DeriveLendingMetrics, RoundDiv, RoundReal, ExactE8, Lookup;
    var positive, debt, gross := 0.0, 0.0, 0.0;
    var count: nat := 0;
    var assets: seq<Asset> := [];
    for i := 0 to |p.assets|
      invariant assets == PriceAssets(p.assets[..i], prices)
      invariant positive == RealSum(PositivePart(prices), p.assets[..i])
      invariant debt == RealSum(DebtPart(prices), p.assets[..i])
      invariant gross == RealSum(GrossPart(prices), p.assets[..i])
      invariant count == Sum(IsPriced(prices), p.assets[..i])
    {
      var asset := p.assets[i];
      assert p.assets[..i + 1][..i] == p.assets[..i];
      var price := Lookup(prices, asset);
      if price.None? {
        assets := assets + [asset];
      } else {
        var value := ExactE8(asset, price.value);
        gross := gross + AbsReal(value);
        if asset.role == Debt { debt := debt + value; } else { positive := positive + value; }
        count := count + 1;
        assets := assets + [asset.(valueE8 := Some(RoundReal(value)))];
      }
    }
    assert p.assets[..|p.assets|] == p.assets;
    var valuation := Positions.Valuation(Some(count), Some(|assets|), Some(RoundReal(gross)),
                                         Some(RoundReal(positive)), Some(RoundReal(debt)), false);
    r := p.(assets := assets,
            valueE8 := if count > 0 then Some(RoundReal(positive - debt)) else p.valueE8,
            valuation := Some(valuation));
    r := DeriveLendingMetrics(r, Some(prices));
  }

  // ----- the portfolio

  datatype Portfolio = Portfolio(
    positions: seq<Position>,
    totalCents: int,
    byProtocolCents: Tally,
    byAssetCents: Tally,
    coverageBps: int)

  function NetE8(p: Position): int { if p.valueE8.Some? then p.valueE8.value else 0 }

  function SignedE8(a: Asset): int { if a.role == Debt then -ValueE8(a) else ValueE8(a) }

  function AddNet(t: Tally, p: Position): Tally {
    if p.valueE8.Some? then Add(t, p.protocolId, p.valueE8.value) else t
  }

  function AddAsset(t: Tally, a: Asset): Tally {
    if a.valueE8.Some? then Add(t, a.assetId, SignedE8(a)) else t
  }

  function AddAssets(t: Tally, assets: seq<Asset>): Tally {
    if assets == [] then t else AddAsset(AddAssets(t, assets[..|assets| - 1]), assets[|assets| - 1])
  }

  function ByProtocol(ps: seq<Position>): Tally {
    if ps == [] then [] else AddNet(ByProtocol(ps[..|ps| - 1]), ps[|ps| - 1])
  }

  function ByAsset(ps: seq<Position>): Tally {
    if ps == [] then [] else AddAssets(ByAsset(ps[..|ps| - 1]), ps[|ps| - 1].assets)
  }

  function IsValued(a: Asset): int { if a.valueE8.Some? then 1 else 0 }

  function ValuedCount(p: Position): int { Sum(IsValued, p.assets) }

  function AssetCount(p: Position): int { |p.assets| }

  function Cents(e8: int): int { RoundDiv(e8, 1_000_000) }

  function ToCents(t: Tally): Tally {
    seq(|t|, i requires 0 <= i < |t| => (t[i].0, Cents(t[i].1)))
  }

  function CoverageBps(valued: int, total: nat): int {
    if total == 0 then 10_000 else RoundDiv(valued * 10_000, total)
  }

  function PortfolioOf(ps: seq<Position>): Portfolio {
    SumNonNegative(AssetCount, ps);
    Portfolio(ps, Cents(Sum(NetE8, ps)), ToCents(ByProtocol(ps)), ToCents(ByAsset(ps)),
              CoverageBps(Sum(ValuedCount, ps), Sum(AssetCount, ps)))
  }

  /** `buildPortfolio`: two Maps and three counters updated in one pass. */
  method BuildPortfolio(ps: seq<Position>) returns (r: Portfolio)
    ensures r == PortfolioOf(ps)
  {
    var byProtocol: Tally, byAsset: Tally := [], [];
    var total, valued := 0, 0;
    var count: nat := 0;
    for i := 0 to |ps|
      invariant byProtocol == ByProtocol(ps[..i]) && byAsset == ByAsset(ps[..i])
      invariant total == Sum(NetE8, ps[..i])
      invariant valued == Sum(ValuedCount, ps[..i]) && count == Sum(AssetCount, ps[..i])
    {
      assert ps[..i + 1][..i] == ps[..i];
      if ps[i].valueE8.Some? {
        total := total + ps[i].valueE8.value;
        byProtocol := Add(byProtocol, ps[i].protocolId, ps[i].valueE8.value);
      }
      var assets := ps[i].assets;
      for j := 0 to |assets|
        invariant byAsset == AddAssets(ByAsset(ps[..i]), assets[..j])
        invariant valued == Sum(ValuedCount, ps[..i]) + Sum(IsValued, assets[..j])
        invariant count == Sum(AssetCount, ps[..i]) + j
      {
        assert assets[..j + 1][..j] == assets[..j];
        count := count + 1;
        if assets[j].valueE8.Some? {
          valued := valued + 1;
          var signed := if assets[j].role == Debt then -assets[j].valueE8.value else assets[j].valueE8.value;
          byAsset := Add(byAsset, assets[j].assetId, signed);
        }
      }
      assert assets[..|assets|] == assets;
    }
    assert ps[..|ps|] == ps;
    r := Portfolio(ps, Cents(total), ToCents(byProtocol), ToCents(byAsset), CoverageBps(valued, count));
  }

  // ----- conservation

  function InProtocol(key: string): Position -> int {
    (p: Position) => if p.protocolId == key then NetE8(p) else 0
  }

  /** Before rounding to cents, the per-protocol sums are the protocol's positions and add up to the total. */
  lemma {:induction false} ProtocolSumsConserve(ps: seq<Position>)
    ensures Total(ByProtocol(ps)) == Sum(NetE8, ps)
    ensures forall k :: Get(ByProtocol(ps), k) == Sum(InProtocol(k), ps)
    ensures Distinct(ByProtocol(ps))
  {
    if ps != [] {
      var before, p := ps[..|ps| - 1], ps[|ps| - 1];
      ProtocolSumsConserve(before);
      if p.valueE8.Some? {
        AddTotals(ByProtocol(before), p.protocolId, p.valueE8.value);
        AddDistinct(ByProtocol(before), p.protocolId, p.valueE8.value);
      }
    }
  }

  function AssetNet(p: Position): int { Sum(SignedE8, p.assets) }

  function OnAsset(key: string): Asset -> int {
    (a: Asset) => if a.assetId == key then SignedE8(a) else 0
  }

  function InAsset(key: string): Position -> int {
    (p: Position) => Sum(OnAsset(key), p.assets)
  }

  lemma {:induction false} AddAssetsTotal(t: Tally, assets: seq<Asset>)
    ensures Total(AddAssets(t, assets)) == Total(t) + Sum(SignedE8, assets)
    ensures forall k :: Get(AddAssets(t, assets), k) == Get(t, k) + Sum(OnAsset(k), assets)
  {
    if assets != [] {
      var before, a := assets[..|assets| - 1], assets[|assets| - 1];
      AddAssetsTotal(t, before);
      AddTotals(AddAssets(t, before), a.assetId, SignedE8(a));
    }
  }

  /** All per-asset sums of `buildPortfolio`, added up. */
  function AssetTotal(ps: seq<Position>): int { Total(ByAsset(ps)) }

  /** Each per-asset sum is the signed value of that asset over all positions. */
  lemma {:induction false} AssetSums(ps: seq<Position>)
    ensures AssetTotal(ps) == Sum(AssetNet, ps)
    ensures forall k :: Get(ByAsset(ps), k) == Sum(InAsset(k), ps)
  {
    hide AddAssets;
    if ps != [] {
      AssetSums(ps[..|ps| - 1]);
      AddAssetsTotal(ByAsset(ps[..|ps| - 1]), ps[|ps| - 1].assets);
    }
  }

  predicate Unvalued(assets: seq<Asset>) { forall a | a in assets :: a.valueE8.None? }

  lemma OneAssetDrifts(a: Asset, prices: Prices)
    requires a.valueE8.None?
    ensures AbsReal(PositivePart(prices)(a) - DebtPart(prices)(a) - SignedE8(PriceAsset(a, prices)) as real)
         <= IsPriced(prices)(a) as real / 2.0
  {
    hide ExactE8, Lookup, RoundReal;
  }

  /** Rounding each asset on its own drifts by at most half a unit per priced asset. */
  lemma {:induction false} AssetDrift(assets: seq<Asset>, prices: Prices)
    requires Unvalued(assets)
    ensures
      var exact := RealSum(PositivePart(prices), assets) - RealSum(DebtPart(prices), assets);
      AbsReal(exact - Sum(SignedE8, PriceAssets(assets, prices)) as real)
        <= PricedCount(assets, prices) as real / 2.0
  {
    hide PositivePart, DebtPart, SignedE8, PriceAsset, IsPriced;
    if assets != [] {
      var before, a := assets[..|assets| - 1], assets[|assets| - 1];
      assert assets == before + [a];
      AssetDrift(before, prices);
      OneAssetDrifts(a, prices);
      var r := PriceAssets(assets, prices);
      assert r[..|r| - 1] == PriceAssets(before, prices) && r[|r| - 1] == PriceAsset(a, prices);
    }
  }

  /** Twice the drift allowed between a position's value and its assets' values, in 1e-8 dollars. */
  function Slack(prices: Prices): Position -> int {
    (p: Position) => if PricedCount(p.assets, prices) > 0 then PricedCount(p.assets, prices) + 1 else 0
  }

  /** Value a position with no priced asset brought with it. */
  function Carried(prices: Prices): Position -> int {
    (p: Position) => if PricedCount(p.assets, prices) > 0 then 0 else NetE8(p)
  }

  lemma PositionDrift(p: Position, prices: Prices)
    requires Unvalued(p.assets)
    ensures var q := PricedPosition(p, prices);
      2 * Abs(NetE8(q) - Carried(prices)(p) - AssetNet(q)) <= Slack(prices)(p)
  {
    hide DeriveLendingMetrics;
    AssetDrift(p.assets, prices);
    var q := PricedPosition(p, prices);
    assert q.assets == PriceAssets(p.assets, prices);
    var assetNet := AssetNet(q);
    if PricedCount(p.assets, prices) > 0 {
      var exact := RealSum(PositivePart(prices), p.assets) - RealSum(DebtPart(prices), p.assets);
      assert NetE8(q) == RoundReal(exact);
    } else {
      NothingPriced(p.assets, prices);
    }
  }

  lemma {:induction false} NothingPriced(assets: seq<Asset>, prices: Prices)
    requires Sum(IsPriced(prices), assets) == 0
    ensures RealSum(PositivePart(prices), assets) == 0.0 && RealSum(DebtPart(prices), assets) == 0.0
  {
    if assets != [] {
      CountBound(assets[..|assets| - 1], prices);
      NothingPriced(assets[..|assets| - 1], prices);
    }
  }

  /** No asset is priced below zero. */
  ghost predicate NonNegative(assets: seq<Asset>, prices: Prices) {
    forall a | a in assets && PricedE8(a, prices).Some? :: PricedE8(a, prices).value >= 0.0
  }

  lemma {:induction false} GrossSplits(assets: seq<Asset>, prices: Prices)
    requires NonNegative(assets, prices)
    ensures RealSum(GrossPart(prices), assets)
      == RealSum(PositivePart(prices), assets) + RealSum(DebtPart(prices), assets)
  {
    hide PricedE8;
    if assets != [] {
      assert assets[|assets| - 1] in assets && forall a | a in assets[..|assets| - 1] :: a in assets;
      GrossSplits(assets[..|assets| - 1], prices);
    }
  }

  /** The recorded totals reconcile: gross is positive plus debt, and the net value their difference. */
  lemma ValuationReconciles(p: Position, prices: Prices)
    ensures var q := PricedPosition(p, prices);
      && q.valuation.Some? && q.valuation.value.grossE8.Some?
      && q.valuation.value.positiveE8.Some? && q.valuation.value.debtE8.Some?
      && var v := q.valuation.value;
         && (NonNegative(p.assets, prices) ==> Abs(v.grossE8.value - v.positiveE8.value - v.debtE8.value) <= 1)
         && (PricedCount(p.assets, prices) > 0 ==>
               q.valueE8.Some? && Abs(q.valueE8.value - v.positiveE8.value + v.debtE8.value) <= 1)
  {
    hide RealSum, RoundReal, HasLoan, CollateralFigures, LiquidationFigures, PriceAssets;
    if NonNegative(p.assets, prices) { GrossSplits(p.assets, prices); }
  }

  /** `valuePositions`: each position priced on its own. */
  function PricedPositions(ps: seq<Position>, prices: Prices): (qs: seq<Position>)
    ensures |qs| == |ps| && forall i | 0 <= i < |ps| :: qs[i] == PricedPosition(ps[i], prices)
  {
    seq(|ps|, i requires 0 <= i < |ps| => PricedPosition(ps[i], prices))
  }

  /** Drifts of single positions add up. */
  lemma {:induction false} DriftsAdd(
      ps: seq<Position>, qs: seq<Position>,
      net: Position -> int, parts: Position -> int, carried: Position -> int, slack: Position -> int)
    requires |ps| == |qs|
    requires forall i | 0 <= i < |ps| :: 2 * Abs(net(qs[i]) - carried(ps[i]) - parts(qs[i])) <= slack(ps[i])
    ensures 2 * Abs(Sum(net, qs) - Sum(carried, ps) - Sum(parts, qs)) <= Sum(slack, ps)
  {
    if ps != [] {
      var n := |ps| - 1;
      DriftsAdd(ps[..n], qs[..n], net, parts, carried, slack);
      assert 2 * Abs(net(qs[n]) - carried(ps[n]) - parts(qs[n])) <= slack(ps[n]);
    }
  }

  lemma DriftsOfTotals(ps: seq<Position>, qs: seq<Position>, carried: Position -> int, slack: Position -> int)
    requires |ps| == |qs|
    requires forall i | 0 <= i < |ps| :: 2 * Abs(NetE8(qs[i]) - carried(ps[i]) - AssetNet(qs[i])) <= slack(ps[i])
    ensures 2 * Abs(Sum(NetE8, qs) - Sum(carried, ps) - AssetTotal(qs)) <= Sum(slack, ps)
  {
    hide AssetTotal, Sum, AssetNet, NetE8, Get, InAsset;
    DriftsAdd(ps, qs, NetE8, AssetNet, carried, slack);
    AssetSums(qs);
  }

  ghost predicate DriftsWithin(ps: seq<Position>, qs: seq<Position>, prices: Prices)
    requires |ps| == |qs|
  {
    forall i | 0 <= i < |ps| ::
      2 * Abs(NetE8(qs[i]) - Carried(prices)(ps[i]) - AssetNet(qs[i])) <= Slack(prices)(ps[i])
  }

  lemma EachDrifts(ps: seq<Position>, prices: Prices)
    requires forall p | p in ps :: Unvalued(p.assets)
    ensures DriftsWithin(ps, PricedPositions(ps, prices), prices)
  {
    hide PricedPosition, Carried, AssetNet, Slack, NetE8;
    forall i | 0 <= i < |ps| { PositionDrift(ps[i], prices); }
  }

  /**
   * Over positions whose assets arrive unvalued, the signed per-asset sums differ from the total by at
   * most half a unit of 1e-8 dollars for each priced asset and each priced position.
   */
  lemma PortfolioConserves(ps: seq<Position>, prices: Prices)
    requires forall p | p in ps :: Unvalued(p.assets)
    ensures var qs := PricedPositions(ps, prices);
      2 * Abs(Sum(NetE8, qs) - Sum(Carried(prices), ps) - AssetTotal(qs)) <= Sum(Slack(prices), ps)
  {
    hide PricedPosition, Slack, Carried, Sum;
    EachDrifts(ps, prices);
    DriftsOfTotals(ps, PricedPositions(ps, prices), Carried(prices), Slack(prices));
  }

  /** Rounding every entry to cents moves their total by at most half a cent each. */
  lemma {:induction false} EntriesDrift(t: Tally)
    ensures 2 * Abs(Total(t) - 1_000_000 * Total(ToCents(t))) <= 1_000_000 * |t|
  {
    hide RoundDiv;
    if t != [] {
      EntriesDrift(t[..|t| - 1]);
      var r := ToCents(t);
      assert r[..|r| - 1] == ToCents(t[..|t| - 1]);
    }
  }

  /** Cents of a protocol breakdown drift from the cents of the total by half a cent each. */
  lemma CentsDrift(t: Tally)
    ensures 2 * Abs(Cents(Total(t)) - Total(ToCents(t))) <= |t| + 1
  {
    hide RoundDiv, Total, ToCents;
    EntriesDrift(t);
  }

  lemma {:induction false} CentsOfKey(t: Tally, key: string)
    ensures Get(ToCents(t), key) == Cents(Get(t, key))
  {
    hide RoundDiv;
    if t != [] {
      CentsOfKey(t[..|t| - 1], key);
      var r := ToCents(t);
      assert r[..|r| - 1] == ToCents(t[..|t| - 1]);
    }
  }

  /** How many of a position's assets carry a value. */
  function CountValued(assets: seq<Asset>): int { |set i | 0 <= i < |assets| && assets[i].valueE8.Some?| }

  lemma {:induction false} ValuedCountIs(assets: seq<Asset>)
    ensures Sum(IsValued, assets) == CountValued(assets)
  {
    if assets != [] {
      var n := |assets| - 1;
      ValuedCountIs(assets[..n]);
      var before := set i | 0 <= i < n && assets[..n][i].valueE8.Some?;
      assert (set i | 0 <= i < |assets| && assets[i].valueE8.Some?)
        == before + (if assets[n].valueE8.Some? then {n} else {});
    }
  }

  /**
   * What a portfolio reports, to half a cent and half a basis point: the total of the positions' values,
   * under a protocol those of its positions, under an asset its signed values, and the share of valued assets.
   */
  lemma PortfolioReports(ps: seq<Position>, key: string)
    ensures var r := PortfolioOf(ps);
      && r.positions == ps
      && 2 * Abs(1_000_000 * r.totalCents - Sum(NetE8, ps)) <= 1_000_000
      && 2 * Abs(1_000_000 * Get(r.byProtocolCents, key) - Sum(InProtocol(key), ps)) <= 1_000_000
      && 2 * Abs(1_000_000 * Get(r.byAssetCents, key) - Sum(InAsset(key), ps)) <= 1_000_000
      && (Sum(AssetCount, ps) == 0 ==> r.coverageBps == 10_000)
      && 2 * Abs(r.coverageBps * Sum(AssetCount, ps) - 10_000 * Sum(ValuedCount, ps)) <= Sum(AssetCount, ps)
  {
    hide Sum, ToCents, ByProtocol, ByAsset, InProtocol, InAsset, Get, Distinct, Total, RoundDiv;
    SumNonNegative(AssetCount, ps);
    ProtocolSumsConserve(ps);
    AssetSums(ps);
    CentsOfKey(ByProtocol(ps), key);
    CentsOfKey(ByAsset(ps), key);
    var count := Sum(AssetCount, ps);
    if count == 0 { NoAssetNoValue(ps); }
    var coverage := PortfolioOf(ps).coverageBps;
    assert coverage * count == count * coverage;
  }

  lemma {:induction false} NoAssetNoValue(ps: seq<Position>)
    requires Sum(AssetCount, ps) == 0
    ensures Sum(ValuedCount, ps) == 0
  {
    if ps != [] {
      SumNonNegative(AssetCount, ps[..|ps| - 1]);
      NoAssetNoValue(ps[..|ps| - 1]);
      assert ps[|ps| - 1].assets == [];
    }
  }

  ghost predicate CoverageTells(total: nat) {
    forall valued: nat | valued <= total :: CoverageBps(valued, total) == 10_000 <==> valued == total
  }

  /** Full coverage means every asset is priced exactly when there are fewer than 20000 assets. */
  lemma CoverageTellsExactly(total: nat)
    ensures CoverageTells(total) <==> total < 20_000
  {
    if total > 0 {
      if total < 20_000 {
        forall valued: nat | valued <= total
          ensures CoverageBps(valued, total) == 10_000 <==> valued == total
        {
          RoundDivAtLeast(valued * 10_000, total, 10_000);
          RoundDivAtLeast(valued * 10_000, total, 10_001);
        }
      } else {
        RoundDivAtLeast((total - 1) * 10_000, total, 10_000);
        RoundDivAtLeast((total - 1) * 10_000, total, 10_001);
        assert CoverageBps(total - 1, total) == 10_000;
      }
    }
  }
}
