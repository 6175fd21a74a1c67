/** Mark-to-market price shocks on valued positions (risk-engine). */
module Stress {
  import opened Collections
  import opened Rounding
  import opened Positions
  import opened Texts
  import opened Lending
  import opened Valuation

  datatype PriceShock = PriceShock(assetId: Option<string>, symbol: Option<string>, changeBps: int)

  function ShockById(shocks: seq<PriceShock>, assetId: string): Option<int> {
    if shocks == [] then None
    else if shocks[0].assetId.Some? && Lower(shocks[0].assetId.value) == Lower(assetId) then Some(shocks[0].changeBps)
    else ShockById(shocks[1..], assetId)
  }

  function ShockBySymbols(shocks: seq<PriceShock>, symbols: set<string>): Option<int> {
    if shocks == [] then None
    else if shocks[0].symbol.Some? && Lower(shocks[0].symbol.value) in symbols then Some(shocks[0].changeBps)
    else ShockBySymbols(shocks[1..], symbols)
  }

  const BITCOIN := {"btc", "sbtc"}

  function Or(a: Option<int>, b: int): int { if a.Some? then a.value else b }

  /** An id match wins over a symbol match; BTC and sBTC stand in for each other. */
  function ResolveShock(a: Asset, shocks: seq<PriceShock>): int {
    var byId := ShockById(shocks, a.assetId);
    var bySymbol := ShockBySymbols(shocks, {Lower(a.symbol)});
    if byId.Some? then byId.value
    else if bySymbol.Some? then bySymbol.value
    else if Lower(a.symbol) in BITCOIN then Or(ShockBySymbols(shocks, BITCOIN), 0)
    else 0
  }

  /** Shocked value times 10000, before any rounding. */
  function ShockedE12(a: Asset, shocks: seq<PriceShock>): int {
    if a.valueE8.None? then 0 else a.valueE8.value * (10_000 + ResolveShock(a, shocks))
  }

  function Unscale(e12: int): int { RoundDiv(e12, 10_000) }

  function PositiveE12(shocks: seq<PriceShock>): Asset -> int {
    (a: Asset) => if a.role == Debt then 0 else ShockedE12(a, shocks)
  }

  function DebtE12(shocks: seq<PriceShock>): Asset -> int {
    (a: Asset) => if a.role == Debt then ShockedE12(a, shocks) else 0
  }

  function GrossE12(shocks: seq<PriceShock>): Asset -> int {
    (a: Asset) => Abs(ShockedE12(a, shocks))
  }

  function ShockAsset(a: Asset, shocks: seq<PriceShock>): Asset {
    if a.valueE8.None? then a else a.(valueE8 := Some(Unscale(ShockedE12(a, shocks))))
  }

  function ShockAssets(assets: seq<Asset>, shocks: seq<PriceShock>): (r: seq<Asset>)
    ensures |r| == |assets|
  {
    if assets == [] then []
    else ShockAssets(assets[..|assets| - 1], shocks) + [ShockAsset(assets[|assets| - 1], shocks)]
  }

  function Revalued(p: Position, shocks: seq<PriceShock>): Position {
    var positive, debt := Sum(PositiveE12(shocks), p.assets), Sum(DebtE12(shocks), p.assets);
    var before := if p.valuation.Some? then p.valuation.value else NO_VALUATION;
    p.(assets := ShockAssets(p.assets, shocks),
       valueE8 := Some(Unscale(positive - debt)),
       valuation := Some(before.(
         grossE8 := Some(Unscale(Sum(GrossE12(shocks), p.assets))),
         positiveE8 := Some(Unscale(positive)),
         debtE8 := Some(Unscale(debt)),
         stressed := true)))
  }

  function Stressed(p: Position, shocks: seq<PriceShock>): Position {
    DeriveLendingMetrics(Revalued(p, shocks), None)
  }

  /** `stressPosition`: one pass over the assets, then the lending figures again. */
  method StressPosition(p: Position, shocks: seq<PriceShock>) returns (r: Position)
    ensures r == Stressed(p, shocks)
  {
    hide DeriveLendingMetrics, Unscale, ResolveShock;
    var positive, debt, gross := 0, 0, 0;
    var assets: seq<Asset> := [];
    for i := 0 to |p.assets|
      invariant assets == ShockAssets(p.assets[..i], shocks)
      invariant positive == Sum(PositiveE12(shocks), p.assets[..i])
      invariant debt == Sum(DebtE12(shocks), p.assets[..i])
      invariant gross == Sum(GrossE12(shocks), p.assets[..i])
    {
      var asset := p.assets[i];
      assert p.assets[..i + 1][..i] == p.assets[..i];
      if asset.valueE8.None? {
        assets := assets + [asset];
      } else {
        var value := asset.valueE8.value * (10_000 + ResolveShock(asset, shocks));
        if asset.role == Debt { debt := debt + value; } else { positive := positive + value; }
        gross := gross + Abs(value);
        assets := assets + [asset.(valueE8 := Some(Unscale(value)))];
      }
    }
    assert p.assets[..|p.assets|] == p.assets;
    var before := if p.valuation.Some? then p.valuation.value else NO_VALUATION;
    r := p.(assets := assets,
            valueE8 := Some(Unscale(positive - debt)),
            valuation := Some(before.(grossE8 := Some(Unscale(gross)), positiveE8 := Some(Unscale(positive)),
                                      debtE8 := Some(Unscale(debt)), stressed := true)));
    r := DeriveLendingMetrics(r, None);
  }

  // ----- which shock applies

  predicate NamesId(s: PriceShock, a: Asset) { s.assetId.Some? && Lower(s.assetId.value) == Lower(a.assetId) }

  predicate NamesSymbol(s: PriceShock, symbols: set<string>) { s.symbol.Some? && Lower(s.symbol.value) in symbols }

  lemma {:induction false} FirstById(before: seq<PriceShock>, s: PriceShock, after: seq<PriceShock>, a: Asset)
    requires NamesId(s, a) && forall x | x in before :: !NamesId(x, a)
    ensures ShockById(before + [s] + after, a.assetId) == Some(s.changeBps)
  {
    var all := before + [s] + after;
    if before != [] {
      assert all[1..] == before[1..] + [s] + after && before[0] in before;
      FirstById(before[1..], s, after, a);
    }
  }

  lemma {:induction false} FirstBySymbol(
      before: seq<PriceShock>, s: PriceShock, after: seq<PriceShock>, symbols: set<string>)
    requires NamesSymbol(s, symbols) && forall x | x in before :: !NamesSymbol(x, symbols)
    ensures ShockBySymbols(before + [s] + after, symbols) == Some(s.changeBps)
  {
    var all := before + [s] + after;
    if before != [] {
      assert all[1..] == before[1..] + [s] + after && before[0] in before;
      FirstBySymbol(before[1..], s, after, symbols);
    }
  }

  lemma {:induction false} NoneById(shocks: seq<PriceShock>, a: Asset)
    requires forall x | x in shocks :: !NamesId(x, a)
    ensures ShockById(shocks, a.assetId) == None
  {
    if shocks != [] {
      assert shocks[0] in shocks && forall x | x in shocks[1..] :: x in shocks;
      NoneById(shocks[1..], a);
    }
  }

  lemma {:induction false} NoneBySymbol(shocks: seq<PriceShock>, symbols: set<string>)
    requires forall x | x in shocks :: !NamesSymbol(x, symbols)
    ensures ShockBySymbols(shocks, symbols) == None
  {
    if shocks != [] {
      assert shocks[0] in shocks && forall x | x in shocks[1..] :: x in shocks;
      NoneBySymbol(shocks[1..], symbols);
    }
  }

  /** The first shock naming the asset's id decides, whatever symbols the others name. */
  lemma IdDecides(a: Asset, before: seq<PriceShock>, s: PriceShock, after: seq<PriceShock>)
    requires NamesId(s, a) && forall x | x in before :: !NamesId(x, a)
    ensures ResolveShock(a, before + [s] + after) == s.changeBps
  {
    FirstById(before, s, after, a);
  }

  /** Failing that, the first naming its symbol; and for BTC and sBTC, the first naming either. */
  lemma SymbolDecides(a: Asset, before: seq<PriceShock>, s: PriceShock, after: seq<PriceShock>)
    requires forall x | x in before + [s] + after :: !NamesId(x, a)
    ensures NamesSymbol(s, {Lower(a.symbol)}) && (forall x | x in before :: !NamesSymbol(x, {Lower(a.symbol)}))
      ==> ResolveShock(a, before + [s] + after) == s.changeBps
    ensures Lower(a.symbol) in {"btc", "sbtc"} && NamesSymbol(s, {"btc", "sbtc"})
      && (forall x | x in before :: !NamesSymbol(x, {"btc", "sbtc"}))
      && (forall x | x in before + [s] + after :: !NamesSymbol(x, {Lower(a.symbol)}))
      ==> ResolveShock(a, before + [s] + after) == s.changeBps
  {
    hide ShockById, ShockBySymbols, NamesId, NamesSymbol;
    var all := before + [s] + after;
    NoneById(all, a);
    if NamesSymbol(s, {Lower(a.symbol)}) && forall x | x in before :: !NamesSymbol(x, {Lower(a.symbol)}) {
      FirstBySymbol(before, s, after, {Lower(a.symbol)});
    }
    if NamesSymbol(s, BITCOIN) && (forall x | x in before :: !NamesSymbol(x, BITCOIN))
      && (forall x | x in all :: !NamesSymbol(x, {Lower(a.symbol)})) {
      NoneBySymbol(all, {Lower(a.symbol)});
      FirstBySymbol(before, s, after, BITCOIN);
    }
  }

  /** An asset no shock reaches is not moved. */
  lemma UnnamedAssetStays(a: Asset, shocks: seq<PriceShock>)
    requires forall x | x in shocks ::
      && !NamesId(x, a) && !NamesSymbol(x, {Lower(a.symbol)})
      && !(Lower(a.symbol) in {"btc", "sbtc"} && NamesSymbol(x, {"btc", "sbtc"}))
    ensures ResolveShock(a, shocks) == 0 && Untouched([a], shocks)
  {
    NoneById(shocks, a);
    NoneBySymbol(shocks, {Lower(a.symbol)});
    if Lower(a.symbol) in BITCOIN { NoneBySymbol(shocks, BITCOIN); }
  }

  // ----- shocks and roles

  lemma {:induction false} ShockedValued(assets: seq<Asset>, shocks: seq<PriceShock>, role: Role)
    ensures Valued(ShockAssets(assets, shocks), role) == ShockAssets(Valued(assets, role), shocks)
  {
    if assets != [] {
      var before, last := assets[..|assets| - 1], assets[|assets| - 1];
      ShockedValued(before, shocks, role);
      var r := ShockAssets(assets, shocks);
      assert r[..|r| - 1] == ShockAssets(before, shocks) && r[|r| - 1] == ShockAsset(last, shocks);
      var v := Valued(before, role);
      assert (v + [last])[..|v|] == v;
    }
  }

  /** No shock reaches the given valued assets. */
  ghost predicate Untouched(assets: seq<Asset>, shocks: seq<PriceShock>) {
    forall a | a in assets && a.valueE8.Some? :: ResolveShock(a, shocks) == 0
  }

  lemma UntouchedAsset(a: Asset, shocks: seq<PriceShock>)
    requires a.valueE8.Some? ==> ResolveShock(a, shocks) == 0
    ensures ShockAsset(a, shocks) == a
  {
    hide ResolveShock;
  }

  lemma {:induction false} UntouchedStay(assets: seq<Asset>, shocks: seq<PriceShock>)
    requires Untouched(assets, shocks)
    ensures ShockAssets(assets, shocks) == assets
  {
    hide ShockAsset, ResolveShock;
    if assets != [] {
      var before, last := assets[..|assets| - 1], assets[|assets| - 1];
      assert assets == before + [last];
      UntouchedStay(before, shocks);
      UntouchedAsset(last, shocks);
    }
  }

  // ----- what a shock does to a position

  /** A valued asset moves by its shock, to half a unit, and changes in nothing else. */
  lemma ShockedValue(a: Asset, shocks: seq<PriceShock>)
    ensures var b := ShockAsset(a, shocks);
      && b == a.(valueE8 := b.valueE8) && (b.valueE8.Some? <==> a.valueE8.Some?)
      && 2 * Abs(10_000 * ValueE8(b) - ValueE8(a) * (10_000 + ResolveShock(a, shocks))) <= 10_000
  {
    hide ResolveShock;
  }

  /** How far a total over assets may be from the exact shocked sum, when every asset is rounded once. */
  lemma {:induction false} TotalDrifts(
      exact: Asset -> int, rounded: Asset -> int, assets: seq<Asset>, shocks: seq<PriceShock>)
    requires forall a :: 2 * Abs(exact(a) - 10_000 * rounded(ShockAsset(a, shocks))) <= 10_000 * IsValued(a)
    ensures 2 * Abs(Sum(exact, assets) - 10_000 * Sum(rounded, ShockAssets(assets, shocks)))
      <= 10_000 * Sum(IsValued, assets)
  {
    hide ShockAsset, IsValued;
    if assets != [] {
      var n := |assets| - 1;
      TotalDrifts(exact, rounded, assets[..n], shocks);
      var last := assets[n];
      assert 2 * Abs(exact(last) - 10_000 * rounded(ShockAsset(last, shocks))) <= 10_000 * IsValued(last);
      var r := ShockAssets(assets, shocks);
      assert r[..n] == ShockAssets(assets[..n], shocks) && r[n] == ShockAsset(assets[n], shocks);
    }
  }

  function NetE12(shocks: seq<PriceShock>): Asset -> int {
    (a: Asset) => PositiveE12(shocks)(a) - DebtE12(shocks)(a)
  }

  lemma {:induction false} NetIsDifference(assets: seq<Asset>, shocks: seq<PriceShock>)
    ensures Sum(NetE12(shocks), assets) == Sum(PositiveE12(shocks), assets) - Sum(DebtE12(shocks), assets)
  {
    hide PositiveE12, DebtE12;
    if assets != [] { NetIsDifference(assets[..|assets| - 1], shocks); }
  }

  lemma PartsDrift(a: Asset, shocks: seq<PriceShock>)
    ensures var b, slack := ShockAsset(a, shocks), 10_000 * IsValued(a);
      && 2 * Abs(PositiveE12(shocks)(a) - 10_000 * OwnedE8(b)) <= slack
      && 2 * Abs(DebtE12(shocks)(a) - 10_000 * OwedE8(b)) <= slack
      && 2 * Abs(NetE12(shocks)(a) - 10_000 * SignedE8(b)) <= slack
      && 2 * Abs(GrossE12(shocks)(a) - 10_000 * AbsE8(b)) <= slack
  {
    hide ResolveShock, RoundDiv;
  }

  /**
   * Every total of a stressed position, its value among them, is the sum of its shocked assets, debts
   * counting as debts, to half a unit for each valued asset and half a unit more.
   */
  lemma TotalsFollowAssets(p: Position, shocks: seq<PriceShock>)
    ensures var q := Stressed(p, shocks);
      && q.assets == ShockAssets(p.assets, shocks)
      && q.valueE8.Some? && q.valuation.Some?
      && var v, slack := q.valuation.value, ValuedCount(p) + 1;
         && v.positiveE8.Some? && v.debtE8.Some? && v.grossE8.Some? && v.stressed
         && 2 * Abs(q.valueE8.value - Sum(SignedE8, q.assets)) <= slack
         && 2 * Abs(v.positiveE8.value - Sum(OwnedE8, q.assets)) <= slack
         && 2 * Abs(v.debtE8.value - Sum(OwedE8, q.assets)) <= slack
         && 2 * Abs(v.grossE8.value - Sum(AbsE8, q.assets)) <= slack
  {
    hide ResolveShock, Sum, ShockAssets, HasLoan, CollateralFigures, LiquidationFigures;
    hide PositiveE12, DebtE12, GrossE12, NetE12, OwnedE8, OwedE8, SignedE8, AbsE8, IsValued;
    PartSumsDrift(p.assets, shocks);
    NetIsDifference(p.assets, shocks);
  }

  lemma PartSumsDrift(assets: seq<Asset>, shocks: seq<PriceShock>)
    ensures var shocked, slack := ShockAssets(assets, shocks), 10_000 * Sum(IsValued, assets);
      && 2 * Abs(Sum(PositiveE12(shocks), assets) - 10_000 * Sum(OwnedE8, shocked)) <= slack
      && 2 * Abs(Sum(DebtE12(shocks), assets) - 10_000 * Sum(OwedE8, shocked)) <= slack
      && 2 * Abs(Sum(NetE12(shocks), assets) - 10_000 * Sum(SignedE8, shocked)) <= slack
      && 2 * Abs(Sum(GrossE12(shocks), assets) - 10_000 * Sum(AbsE8, shocked)) <= slack
  {
    hide Sum, ShockAsset, ShockAssets, Abs;
    hide PositiveE12, DebtE12, GrossE12, NetE12, OwnedE8, OwedE8, SignedE8, AbsE8, IsValued;
    forall a { PartsDrift(a, shocks); }
    TotalDrifts(PositiveE12(shocks), OwnedE8, assets, shocks);
    TotalDrifts(DebtE12(shocks), OwedE8, assets, shocks);
    TotalDrifts(NetE12(shocks), SignedE8, assets, shocks);
    TotalDrifts(GrossE12(shocks), AbsE8, assets, shocks);
  }

  /** Assets are shocked one by one, in place. */
  lemma {:induction false} ShockedOrder(assets: seq<Asset>, shocks: seq<PriceShock>)
    ensures forall i | 0 <= i < |assets| :: ShockAssets(assets, shocks)[i] == ShockAsset(assets[i], shocks)
  {
    hide ShockAsset;
    if assets != [] { ShockedOrder(assets[..|assets| - 1], shocks); }
  }

  /** A shock keeps what identifies a position, its terms, and how much of it was valued. */
  lemma ShockKeeps(p: Position, shocks: seq<PriceShock>)
    ensures var q := Stressed(p, shocks);
      && q.id == p.id && q.protocolId == p.protocolId && q.kind == p.kind
      && q.lending == p.lending && q.liquidBps == p.liquidBps
      && (p.valuation.Some? ==>
            q.valuation.Some? && q.valuation.value.valuedAssets == p.valuation.value.valuedAssets
            && q.valuation.value.totalAssets == p.valuation.value.totalAssets)
  {
  }

  // ----- zero shocks

  lemma ExactPart(a: Asset, shocks: seq<PriceShock>)
    requires a.valueE8.Some? ==> ResolveShock(a, shocks) == 0
    ensures PositiveE12(shocks)(a) - DebtE12(shocks)(a) == 10_000 * SignedE8(a)
  {
    hide ResolveShock;
  }

  lemma {:induction false} ExactSums(assets: seq<Asset>, shocks: seq<PriceShock>)
    requires Untouched(assets, shocks)
    ensures Sum(PositiveE12(shocks), assets) - Sum(DebtE12(shocks), assets) == 10_000 * Sum(SignedE8, assets)
  {
    hide PositiveE12, DebtE12, SignedE8, ResolveShock;
    if assets != [] {
      var before, last := assets[..|assets| - 1], assets[|assets| - 1];
      assert assets == before + [last];
      ExactSums(before, shocks);
      ExactPart(last, shocks);
    }
  }

  /** A zero shock sets a position's value to the sum of its assets' values, debt negative. */
  lemma ZeroShockValue(p: Position, shocks: seq<PriceShock>)
    requires Untouched(p.assets, shocks)
    ensures Stressed(p, shocks).valueE8 == Some(AssetNet(p))
  {
    hide Sum, HasLoan, CollateralFigures, LiquidationFigures;
    ExactSums(p.assets, shocks);
  }

  lemma ZeroShockFigures(p: Position, prices: Prices, shocks: seq<PriceShock>)
    requires Untouched(PricedPosition(p, prices).assets, shocks)
    ensures
      var q := PricedPosition(p, prices);
      var r := Stressed(q, shocks);
      && r.assets == q.assets && r.collateral == q.collateral && r.debtE8 == q.debtE8
      && r.HealthFactor() == q.HealthFactor() && r.Distance() == q.Distance()
  {
    hide RealSum, PriceAssets, HealthFactorE4, DistanceBps, LiquidationPriceE8, Sum, Valued, PricedCount, RoundReal;
    var q := PricedPosition(p, prices);
    UntouchedStay(q.assets, shocks);
    assert Revalued(q, shocks).assets == q.assets;
    assert HasLoan(Revalued(q, shocks)) <==> HasLoan(q);
  }

  /**
   * With no matching or zero shocks, stressing reproduces a priced position's risk figures exactly, and
   * its value but for the rounding of single assets.
   */
  lemma ZeroShockIsFaithful(p: Position, prices: Prices, shocks: seq<PriceShock>)
    requires Untouched(PricedPosition(p, prices).assets, shocks)
    ensures
      var q := PricedPosition(p, prices);
      var r := Stressed(q, shocks);
      && r.assets == q.assets && r.collateral == q.collateral && r.debtE8 == q.debtE8
      && r.HealthFactor() == q.HealthFactor() && r.Distance() == q.Distance()
      && r.valueE8 == Some(AssetNet(q))
      && (Unvalued(p.assets) ==> 2 * Abs(NetE8(q) - Carried(prices)(p) - NetE8(r)) <= Slack(prices)(p))
  {
    hide PricedPosition, Stressed, Slack, Carried, AssetNet, Unvalued, Untouched;
    ZeroShockFigures(p, prices, shocks);
    ZeroShockValue(PricedPosition(p, prices), shocks);
    if Unvalued(p.assets) { PositionDrift(p, prices); }
  }

  /** Stressing again without a shock changes nothing at all. */
  lemma ZeroShockIsIdempotent(p: Position, shocks: seq<PriceShock>)
    requires Untouched(p.assets, shocks)
    ensures Stressed(Stressed(p, shocks), shocks) == Stressed(p, shocks)
  {
    hide HealthFactorE4, DistanceBps, LiquidationPriceE8, Sum, Valued;
    UntouchedStay(p.assets, shocks);
    var q := Revalued(p, shocks);
    assert q.assets == p.assets;
    var r := Stressed(p, shocks);
    assert r.assets == p.assets && r.valuation == q.valuation && r.valueE8 == q.valueE8;
    assert Revalued(r, shocks) == r.(valueE8 := q.valueE8, valuation := q.valuation);
  }

  // ----- shocks that spare the debt

  /** No shock reaches a valued debt. */
  ghost predicate DebtUntouched(p: Position, shocks: seq<PriceShock>) {
    Untouched(Valued(p.assets, Debt), shocks)
  }

  lemma DebtStays(p: Position, shocks: seq<PriceShock>)
    requires DebtUntouched(p, shocks)
    ensures Valued(ShockAssets(p.assets, shocks), Debt) == Valued(p.assets, Debt)
  {
    ShockedValued(p.assets, shocks, Debt);
    UntouchedStay(Valued(p.assets, Debt), shocks);
  }

  lemma QuoteMatters(a: Asset, b: Asset, debt: int, threshold: int, prices: Prices)
    requires a.amountAtomic == b.amountAtomic && a.decimals == b.decimals
    ensures LiquidationPriceE8(a, debt, threshold, Some(prices)) == LiquidationPriceE8(b, debt, threshold, None)
      <==> (Lookup(prices, a).Some? || a.amountAtomic <= 0 || threshold <= 0)
  {
    hide Lookup, RoundDiv;
  }

  /**
   * A collateral shock leaves the price at which the position is liquidated where it was, exactly when
   * the collateral has a quote or there is no such price to estimate: stressing looks for no quotes.
   */
  lemma LiquidationPriceStays(p: Position, prices: Prices, shocks: seq<PriceShock>)
    requires var q := PricedPosition(p, prices);
      && HasLoan(q) && DebtUntouched(q, shocks)
      && |Valued(q.assets, Collateral)| == 1
      && CollateralE8(ShockAssets(q.assets, shocks)) > 0
    ensures var q := PricedPosition(p, prices);
      var c, t := Valued(q.assets, Collateral)[0], q.lending.value.partialLtvBps;
      Stressed(q, shocks).liquidation.value.priceE8 == q.liquidation.value.priceE8
      <==> (Lookup(prices, c).Some? || c.amountAtomic <= 0 || t.None? || t.value <= 0)
  {
    hide RealSum, PriceAssets, HealthFactorE4, DistanceBps, Sum, ResolveShock, LiquidationPriceE8, Lookup, LtvBps;
    var q := PricedPosition(p, prices);
    var c := Valued(q.assets, Collateral)[0];
    DebtStays(q, shocks);
    ShockedValued(q.assets, shocks, Collateral);
    var r := Revalued(q, shocks);
    assert Valued(q.assets, Collateral) == [c];
    assert [c][..0] == [];
    assert Valued(r.assets, Collateral) == [ShockAsset(c, shocks)];
    if q.lending.value.partialLtvBps.Some? {
      QuoteMatters(c, ShockAsset(c, shocks), DebtE8(q.assets), q.lending.value.partialLtvBps.value, prices);
    }
  }

  // ----- deeper shocks

  /** `deep` moves no collateral up against `mild`, and both leave the debt where it was. */
  ghost predicate Deeper(p: Position, mild: seq<PriceShock>, deep: seq<PriceShock>) {
    && DebtUntouched(p, mild) && DebtUntouched(p, deep)
    && forall a | a in Valued(p.assets, Collateral) ::
         a.valueE8.value >= 0 && ResolveShock(a, deep) <= ResolveShock(a, mild)
  }

  lemma DeeperAsset(a: Asset, mild: seq<PriceShock>, deep: seq<PriceShock>)
    requires a.valueE8.Some? && a.valueE8.value >= 0 && ResolveShock(a, deep) <= ResolveShock(a, mild)
    ensures ValueE8(ShockAsset(a, deep)) <= ValueE8(ShockAsset(a, mild))
  {
    hide RoundDiv, ResolveShock;
    Scale(a.valueE8.value, 10_000 + ResolveShock(a, deep), 10_000 + ResolveShock(a, mild));
    RoundDivMonotone(ShockedE12(a, deep), ShockedE12(a, mild), 10_000);
  }

  lemma {:induction false} DeeperCollateral(assets: seq<Asset>, mild: seq<PriceShock>, deep: seq<PriceShock>)
    requires forall a | a in assets ::
      a.valueE8.Some? && a.valueE8.value >= 0 && ResolveShock(a, deep) <= ResolveShock(a, mild)
    ensures Sum(ValueE8, ShockAssets(assets, deep)) <= Sum(ValueE8, ShockAssets(assets, mild))
  {
    hide ResolveShock, ShockAsset, ValueE8;
    if assets != [] {
      var before, a := assets[..|assets| - 1], assets[|assets| - 1];
      assert assets == before + [a];
      DeeperCollateral(before, mild, deep);
      DeeperAsset(a, mild, deep);
      var m, d := ShockAssets(assets, mild), ShockAssets(assets, deep);
      assert m[..|m| - 1] == ShockAssets(before, mild) && d[..|d| - 1] == ShockAssets(before, deep);
    }
  }

  predicate AtMost(a: Option<int>, b: Option<int>) {
    if a.None? then b.None? else b.Some? && a.value <= b.value
  }

  lemma LessCollateral(debt: int, more: int, less: int, threshold: int)
    requires debt > 0 && 0 < less <= more && threshold > 0
    ensures HealthFactorE4(threshold, LtvBps(debt, less)) <= HealthFactorE4(threshold, LtvBps(debt, more))
    ensures DistanceBps(threshold, LtvBps(debt, less)) <= DistanceBps(threshold, LtvBps(debt, more))
  {
    hide RoundDiv;
    RoundDivAntitone(debt * 10_000, less, more);
    var high, low := LtvBps(debt, less), LtvBps(debt, more);
    RoundDivAntitone(threshold * 10_000, if low == 0 then 1 else low, if high == 0 then 1 else high);
    RoundDivMonotone((threshold - high) * 10_000, (threshold - low) * 10_000, threshold);
  }

  lemma ShockedLoans(p: Position, mild: seq<PriceShock>, deep: seq<PriceShock>)
    requires Deeper(p, mild, deep)
    ensures var m, d := ShockAssets(p.assets, mild), ShockAssets(p.assets, deep);
      && DebtE8(m) == DebtE8(d) && CollateralE8(d) <= CollateralE8(m)
      && (Valued(m, Debt) == [] <==> Valued(d, Debt) == [])
      && (Valued(m, Collateral) == [] <==> Valued(d, Collateral) == [])
  {
    hide Sum, ResolveShock, Valued;
    DebtStays(p, mild);
    DebtStays(p, deep);
    ShockedValued(p.assets, mild, Collateral);
    ShockedValued(p.assets, deep, Collateral);
    DeeperCollateral(Valued(p.assets, Collateral), mild, deep);
  }

  /**
   * A deeper shock never raises a health factor or a distance, and never clears a liquidation flag,
   * unless it wipes out the collateral of a loan that the milder shock leaves alive.
   */
  lemma StressIsMonotone(p: Position, mild: seq<PriceShock>, deep: seq<PriceShock>)
    requires Deeper(p, mild, deep)
    requires HasLoan(Revalued(p, mild)) ==> CollateralE8(ShockAssets(p.assets, deep)) > 0
    ensures AtMost(Stressed(p, deep).HealthFactor(), Stressed(p, mild).HealthFactor())
    ensures AtMost(Stressed(p, deep).Distance(), Stressed(p, mild).Distance())
    ensures Flagged(Stressed(p, mild)) ==> Flagged(Stressed(p, deep))
  {
    hide HealthFactorE4, DistanceBps, LtvBps, LiquidationPriceE8, Sum, ResolveShock, Valued, ShockAssets, Deeper;
    ShockedLoans(p, mild, deep);
    var m, d := Revalued(p, mild), Revalued(p, deep);
    assert HasLoan(m) <==> HasLoan(d);
    if HasLoan(m) && p.lending.value.partialLtvBps.Some? && p.lending.value.partialLtvBps.value > 0 {
      LessCollateral(DebtE8(m.assets), CollateralE8(m.assets), CollateralE8(d.assets),
                     p.lending.value.partialLtvBps.value);
    }
  }

  // ----- crossings

  /** When the shock leaves no collateral, the figures from before it are reported unchanged. */
  lemma WipeoutKeepsFigures(p: Position, shocks: seq<PriceShock>)
    requires CollateralE8(ShockAssets(p.assets, shocks)) <= 0
    ensures Stressed(p, shocks).liquidation == p.liquidation && Stressed(p, shocks).collateral == p.collateral
  {
  }

  /** The deep shock leaves no collateral on a loan that the mild one leaves alive. */
  predicate WipesOut(p: Position, mild: seq<PriceShock>, deep: seq<PriceShock>) {
    HasLoan(Revalued(p, mild)) && CollateralE8(ShockAssets(p.assets, deep)) <= 0
  }

  /** Figures no better than the mild shock's: what a wipe-out reports, if it was so before any shock. */
  predicate NoBetter(p: Position, q: Position) {
    AtMost(p.HealthFactor(), q.HealthFactor()) && AtMost(p.Distance(), q.Distance())
  }

  /**
   * Deepening a shock is monotone exactly when it does not wipe a loan out, or the figures from before
   * the shock, which a wipe-out reports, are no better than the milder shock's.
   */
  lemma MonotoneExactly(p: Position, mild: seq<PriceShock>, deep: seq<PriceShock>)
    requires Deeper(p, mild, deep)
    ensures var m, d := Stressed(p, mild), Stressed(p, deep);
      && (NoBetter(d, m) <==> !WipesOut(p, mild, deep) || NoBetter(p, m))
      && ((Flagged(m) ==> Flagged(d)) <==> (!WipesOut(p, mild, deep) || Flagged(p) || !Flagged(m)))
  {
    hide Deeper, Stressed, Revalued, ShockAssets, HasLoan, CollateralE8;
    if WipesOut(p, mild, deep) { WipeoutKeepsFigures(p, deep); } else { StressIsMonotone(p, mild, deep); }
  }

  /**
   * A loan whose stressed debt truly reaches its threshold is flagged, except exactly when the shock
   * left no collateral and the position was not flagged before.
   */
  lemma NoMissedCrossing(p: Position, shocks: seq<PriceShock>)
    requires p.lending.Some? && p.lending.value.partialLtvBps.Some? && p.lending.value.partialLtvBps.value >= 1
    requires Valued(p.assets, Collateral) != [] && Valued(p.assets, Debt) != []
    requires DebtE8(ShockAssets(p.assets, shocks)) > 0
    requires 10_000 * DebtE8(ShockAssets(p.assets, shocks))
      >= p.lending.value.partialLtvBps.value * CollateralE8(ShockAssets(p.assets, shocks))
    ensures Flagged(Stressed(p, shocks)) <==>
      CollateralE8(ShockAssets(p.assets, shocks)) > 0 || Flagged(p)
  {
    hide HealthFactorE4, DistanceBps, LtvBps, LiquidationPriceE8, Sum, ResolveShock;
    hide Valued, ShockAssets, LiquidationFigures, CollateralFigures;
    ShockedValued(p.assets, shocks, Collateral);
    ShockedValued(p.assets, shocks, Debt);
    var t, c := p.lending.value.partialLtvBps.value, CollateralE8(ShockAssets(p.assets, shocks));
    assert (2 * t - 1) * c == 2 * (t * c) - c;
    if CollateralE8(ShockAssets(p.assets, shocks)) > 0 {
      ReachedIsFlagged(Revalued(p, shocks), None);
    } else {
      WipeoutKeepsFigures(p, shocks);
    }
  }

  const SAMPLE_COLLATERAL := Asset("sBTC", "sBTC", 100, 8, Some(10_000), Collateral)
  const SAMPLE_DEBT := Asset("aeUSDC", "aeUSDC", 100, 6, Some(5_000), Debt)
  const SAMPLE_LOAN := Position("p", "zest", Borrowing, [SAMPLE_COLLATERAL, SAMPLE_DEBT],
    None, None, None, None, Some(LendingTerms(None, Some(7_000), None)), None, None)

  function Drop(bps: int): seq<PriceShock> { [PriceShock(Some("sBTC"), None, -bps)] }

  lemma DropNamesNoSymbol(bps: int, symbols: set<string>)
    ensures ShockBySymbols(Drop(bps), symbols).None?
  {
    assert Drop(bps)[1..] == [];
  }

  lemma SampleDrop(bps: int)
    requires 0 <= bps <= 10_000
    ensures ShockAssets(SAMPLE_LOAN.assets, Drop(bps)) ==
      [SAMPLE_COLLATERAL.(valueE8 := Some(10_000 - bps)), SAMPLE_DEBT]
    ensures ResolveShock(SAMPLE_COLLATERAL, Drop(bps)) == -bps && ResolveShock(SAMPLE_DEBT, Drop(bps)) == 0
  {
    var c, d := SAMPLE_COLLATERAL, SAMPLE_DEBT;
    assert [c, d][..1] == [c] && [c][..0] == [];
    assert |Lower("sBTC")| != |Lower("aeUSDC")|;
    assert Lower("aeUSDC")[0] == 'a' && Lower("aeUSDC") !in BITCOIN;
    assert ShockedE12(c, Drop(bps)) == 10_000 * (10_000 - bps);
    assert ShockAssets([c], Drop(bps)) == [ShockAsset(c, Drop(bps))];
    DropNamesNoSymbol(bps, {Lower(d.symbol)});
    assert Drop(bps)[1..] == [] && ShockById(Drop(bps), d.assetId).None?;
    assert ShockedE12(d, Drop(bps)) == 5_000 * 10_000;
    assert ShockAsset(d, Drop(bps)) == d;
  }

  lemma SampleRoles(value: int, debt: int)
    ensures
      var assets := [SAMPLE_COLLATERAL.(valueE8 := Some(value)), SAMPLE_DEBT.(valueE8 := Some(debt))];
      && Valued(assets, Collateral) == assets[..1] && Valued(assets, Debt) == assets[1..]
      && CollateralE8(assets) == value && DebtE8(assets) == debt
  {
    var c, d := SAMPLE_COLLATERAL.(valueE8 := Some(value)), SAMPLE_DEBT.(valueE8 := Some(debt));
    assert [c, d][..1] == [c] && [c][..0] == [] && [d][..0] == [];
    assert Valued([c], Collateral) == [c] && Valued([c], Debt) == [];
    assert Valued([c, d], Debt) == [d] && Valued([c, d], Collateral) == [c];
    SumStep(ValueE8, [c], 0);
    SumStep(ValueE8, [d], 0);
  }

  /** Monotonicity does fail at a total wipe-out: a 50% drop liquidates this loan and a 100% drop does not. */
  lemma WipeoutClearsTheFlag()
    ensures
      var p := DeriveLendingMetrics(SAMPLE_LOAN, None);
      && Deeper(p, Drop(5_000), Drop(10_000))
      && Flagged(Stressed(p, Drop(5_000))) && !Flagged(Stressed(p, Drop(10_000)))
  {
    hide Sum, Valued, ShockAssets, ResolveShock, HealthFactorE4, DistanceBps, LtvBps, LiquidationPriceE8;
    var p := DeriveLendingMetrics(SAMPLE_LOAN, None);
    assert SAMPLE_COLLATERAL.(valueE8 := Some(10_000)) == SAMPLE_COLLATERAL;
    assert SAMPLE_DEBT.(valueE8 := Some(5_000)) == SAMPLE_DEBT;
    SampleRoles(10_000, 5_000);
    SampleRoles(5_000, 5_000);
    SampleRoles(0, 5_000);
    SampleDrop(5_000);
    SampleDrop(10_000);
    assert HasLoan(SAMPLE_LOAN);
    LiquidationFlag(SAMPLE_LOAN, None);
    NoMissedCrossing(p, Drop(5_000));
    NoMissedCrossing(p, Drop(10_000));
  }

  // ----- the predicted distance against the stress engine

  lemma DistanceBounds(threshold: int, ltv: nat)
    requires threshold > 0
    ensures 20_000 * (threshold - ltv) - threshold <= 2 * (threshold * DistanceBps(threshold, ltv))
    ensures DistanceBps(threshold, ltv) > 0 ==>
      2 * (threshold * DistanceBps(threshold, ltv)) <= 20_000 * (threshold - ltv) + threshold
  {
    hide RoundDiv;
    var raw := RawDistanceBps(threshold, ltv);
    RoundDivAtLeast((threshold - ltv) * 10_000, threshold, 10_001);
    assert raw <= 10_000;
    Scale(threshold, raw, DistanceBps(threshold, ltv));
  }

  /** `share` and `used` stand for collateral times what is left of the price, and times the rounded LTV. */
  lemma ReachConclusion(collateral: int, debt: int, threshold: int, share: int, used: int, after: int)
    requires collateral > 0 && threshold > 0 && after >= threshold
    requires 2 * (threshold * share) <= 20_000 * used - 10_000 * collateral - collateral * threshold
    requires 2 * used <= 20_000 * debt + collateral
    requires 20_000 * after <= 2 * share + 10_000
    ensures 20_000 * debt >= (2 * threshold - 1) * after
  {
    Scale(threshold, 20_000 * after, 2 * share + 10_000);
    Scale(collateral, 0, threshold);
    assert (2 * threshold - 1) * after == 2 * (threshold * after) - after;
  }

  lemma SpareConclusion(collateral: int, debt: int, threshold: int, share: int, used: int, after: int)
    requires collateral > 0 && threshold > 0 && debt > 0 && after <= collateral
    requires 2 * (threshold * share)
      >= 20_000 * used + collateral * threshold + 20_000 * collateral + 10_000 * threshold
    requires 2 * used >= 20_000 * debt - collateral
    requires 20_000 * after >= 2 * share - 10_000
    ensures after > 0 && 20_000 * debt < (2 * threshold - 1) * after
    ensures 10_000 * (20_000 * debt + after) <= 19_999 * (threshold * after)
  {
    ScaledShare(threshold, share, after);
    Scale(threshold, after, collateral);
    Scale(collateral, 1, threshold);
    SpareSums(threshold * after, threshold * share, collateral * threshold, used, collateral, debt, after, threshold);
    if after <= 0 { Scale(threshold, after, 0); }
    assert (2 * threshold - 1) * after == 2 * (threshold * after) - after;
  }

  lemma ScaledShare(threshold: int, share: int, after: int)
    requires threshold > 0 && 20_000 * after >= 2 * share - 10_000
    ensures 20_000 * (threshold * after) >= 2 * (threshold * share) - 10_000 * threshold
  {
    Scale(threshold, 2 * share - 10_000, 20_000 * after);
    assert threshold * (2 * share - 10_000) == 2 * (threshold * share) - 10_000 * threshold;
    assert threshold * (20_000 * after) == 20_000 * (threshold * after);
  }

  lemma SpareSums(kept: int, share: int, whole: int, used: int, collateral: int, debt: int, after: int, threshold: int)
    requires collateral > 0 && debt > 0 && kept <= whole && whole > 0 && after <= collateral
    requires 20_000 * kept >= 2 * share - 10_000 * threshold
    requires 2 * share >= 20_000 * used + whole + 20_000 * collateral + 10_000 * threshold
    requires 2 * used >= 20_000 * debt - collateral
    ensures kept > 0 && 20_000 * debt < 2 * kept - after
    ensures 10_000 * (20_000 * debt + after) <= 19_999 * kept
  {
    assert 20_000 * kept >= 200_000_000 * debt + whole + 10_000 * collateral;
  }

  lemma ScaledReach(collateral: int, threshold: int, drop: int, distance: int, ltv: nat)
    requires collateral > 0 && 20_000 * (threshold - ltv) - threshold <= 2 * (threshold * distance)
    requires threshold * (drop - distance) >= 5_000 + threshold
    ensures 2 * (threshold * (collateral * (10_000 - drop)))
      <= 20_000 * (collateral * ltv) - 10_000 * collateral - collateral * threshold
  {
    var rest := threshold * (10_000 - drop);
    assert threshold * (drop - distance) == 10_000 * threshold - rest - threshold * distance;
    Scale(collateral, 2 * rest, 20_000 * ltv - 10_000 - threshold);
    assert threshold * (collateral * (10_000 - drop)) == collateral * rest;
  }

  lemma ScaledSpare(collateral: int, threshold: int, drop: int, distance: int, ltv: nat)
    requires collateral > 0 && 2 * (threshold * distance) <= 20_000 * (threshold - ltv) + threshold
    requires collateral * (threshold * (distance - drop - 1)) >= 10_000 * collateral + 5_000 * threshold
    ensures 2 * (threshold * (collateral * (10_000 - drop)))
      >= 20_000 * (collateral * ltv) + collateral * threshold + 20_000 * collateral + 10_000 * threshold
  {
    var rest, gap := threshold * (10_000 - drop), threshold * (distance - drop - 1);
    assert gap == threshold * distance + rest - 10_001 * threshold;
    Scale(collateral, 20_000 * ltv + threshold + 2 * gap, 2 * rest);
    assert threshold * (collateral * (10_000 - drop)) == collateral * rest;
  }

  /** A drop past the predicted distance, with a margin for rounding, reaches the threshold. */
  lemma DropReaches(collateral: int, debt: int, threshold: int, drop: int)
    requires collateral > 0 && debt > 0 && threshold > 0
    requires Unscale(collateral * (10_000 - drop)) >= threshold
    requires threshold * (drop - DistanceBps(threshold, LtvBps(debt, collateral))) >= 5_000 + threshold
    ensures 20_000 * debt >= (2 * threshold - 1) * Unscale(collateral * (10_000 - drop))
  {
    hide RoundDiv, DistanceBps;
    var ltv, share := LtvBps(debt, collateral), collateral * (10_000 - drop);
    DistanceBounds(threshold, ltv);
    ScaledReach(collateral, threshold, drop, DistanceBps(threshold, ltv), ltv);
    ReachConclusion(collateral, debt, threshold, share, collateral * ltv, Unscale(share));
  }

  /** A drop short of it, by about 10000/T + 1 bps plus a term for dust collateral, does not. */
  lemma DropSpares(collateral: int, debt: int, threshold: int, drop: int)
    requires collateral > 0 && debt > 0 && threshold > 0 && drop >= 0
    requires collateral * (threshold * (DistanceBps(threshold, LtvBps(debt, collateral)) - drop - 1))
      >= 10_000 * collateral + 5_000 * threshold
    ensures threshold >= 2
    ensures var after := Unscale(collateral * (10_000 - drop));
      && after > 0 && 20_000 * debt < (2 * threshold - 1) * after
      && 10_000 * (20_000 * debt + after) <= 19_999 * (threshold * after)
  {
    hide RoundDiv, DistanceBps;
    var ltv, share := LtvBps(debt, collateral), collateral * (10_000 - drop);
    var gap := DistanceBps(threshold, ltv) - drop - 1;
    SlackPositive(collateral, threshold * gap, 10_000 * collateral + 5_000 * threshold);
    SlackPositive(threshold, gap, threshold * gap);
    SlackNeedsThreshold(collateral, threshold, gap);
    DistanceBounds(threshold, ltv);
    ScaledSpare(collateral, threshold, drop, DistanceBps(threshold, ltv), ltv);
    Scale(collateral, 10_000 - drop, 10_000);
    SpareConclusion(collateral, debt, threshold, share, collateral * ltv, Unscale(share));
  }

  lemma SlackPositive(area: int, gap: int, bound: int)
    requires area > 0 && bound > 0 && area * gap >= bound
    ensures gap > 0
  {
    if gap <= 0 { Scale(area, gap, 0); }
  }

  lemma SlackNeedsThreshold(collateral: int, threshold: int, gap: int)
    requires collateral > 0 && threshold > 0 && gap < 10_000
    requires collateral * (threshold * gap) >= 10_000 * collateral + 5_000 * threshold
    ensures threshold >= 2
  {
    if threshold == 1 { Scale(collateral, gap, 10_000); }
  }

  /** One collateral asset, dropping by `drop` bps, against debt the shock does not touch. */
  ghost predicate SingleDrop(p: Position, shocks: seq<PriceShock>, drop: int) {
    && HasLoan(p) && DebtUntouched(p, shocks)
    && |Valued(p.assets, Collateral)| == 1
    && ResolveShock(Valued(p.assets, Collateral)[0], shocks) == -drop
    && p.lending.value.partialLtvBps.Some? && p.lending.value.partialLtvBps.value >= 1
  }

  lemma ShockSingleton(a: Asset, shocks: seq<PriceShock>)
    ensures ShockAssets([a], shocks) == [ShockAsset(a, shocks)]
  {
    assert [a][..0] == [];
  }

  lemma SingleDropValues(p: Position, shocks: seq<PriceShock>, drop: int)
    requires SingleDrop(p, shocks, drop)
    ensures CollateralE8(ShockAssets(p.assets, shocks)) == Unscale(CollateralE8(p.assets) * (10_000 - drop))
    ensures DebtE8(ShockAssets(p.assets, shocks)) == DebtE8(p.assets)
    ensures Valued(ShockAssets(p.assets, shocks), Collateral) != [] && Valued(ShockAssets(p.assets, shocks), Debt) != []
  {
    hide ResolveShock, Sum, Valued, RoundDiv, LtvBps;
    DebtStays(p, shocks);
    ShockedValued(p.assets, shocks, Collateral);
    var c := Valued(p.assets, Collateral)[0];
    assert Valued(p.assets, Collateral) == [c];
    ShockSingleton(c, shocks);
    SumSingleton(ValueE8, c);
    SumSingleton(ValueE8, ShockAsset(c, shocks));
  }

  /** The distance a valued loan reports is the one the two predictions below speak of. */
  lemma PredictedIsReported(p: Position, prices: Prices)
    requires HasLoan(PricedPosition(p, prices))
    ensures var q := PricedPosition(p, prices); LiquidationFigures(q, None).distanceBps == q.Distance()
  {
    hide RealSum, PriceAssets, DistanceBps, LtvBps, LiquidationPriceE8, Sum, Valued;
  }

  /** The stress engine flags every drop beyond the distance it reported, up to 5000/T + 1 bps. */
  lemma PredictedDistanceReached(p: Position, shocks: seq<PriceShock>, drop: int)
    requires SingleDrop(p, shocks, drop)
    requires CollateralE8(ShockAssets(p.assets, shocks)) >= p.lending.value.partialLtvBps.value
    requires var t := p.lending.value.partialLtvBps.value;
      t * (drop - LiquidationFigures(p, None).distanceBps.value) >= 5_000 + t
    ensures Flagged(Stressed(p, shocks))
  {
    hide HealthFactorE4, DistanceBps, LtvBps, LiquidationPriceE8, Sum, ResolveShock, Valued, ShockAssets;
    SingleDropValues(p, shocks, drop);
    DropReaches(CollateralE8(p.assets), DebtE8(p.assets), p.lending.value.partialLtvBps.value, drop);
    ReachedIsFlagged(Revalued(p, shocks), None);
  }

  /** And flags no drop that stays clear of that distance by 10000/T + 1 + 5000/collateral bps. */
  lemma PredictedDistanceSafe(p: Position, shocks: seq<PriceShock>, drop: int)
    requires SingleDrop(p, shocks, drop) && drop >= 0
    requires var t, c := p.lending.value.partialLtvBps.value, CollateralE8(p.assets);
      c * (t * (LiquidationFigures(p, None).distanceBps.value - drop - 1)) >= 10_000 * c + 5_000 * t
    ensures !Flagged(Stressed(p, shocks))
  {
    hide HealthFactorE4, DistanceBps, LtvBps, LiquidationPriceE8, Sum, ResolveShock, Valued, ShockAssets;
    SingleDropValues(p, shocks, drop);
    DropSpares(CollateralE8(p.assets), DebtE8(p.assets), p.lending.value.partialLtvBps.value, drop);
    HealthSpared(DebtE8(p.assets), CollateralE8(ShockAssets(p.assets, shocks)), p.lending.value.partialLtvBps.value);
  }
}
