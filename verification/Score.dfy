/** Concentration, accessibility and the composite risk summary (risk-engine). */
module Score {
  import opened Collections
  import opened Rounding
  import opened Positions
  import opened Texts
  import opened Valuation

  datatype RiskLevel = Healthy | Moderate | Elevated | Critical | Unknown

  datatype Summary = Summary(
    protocolConcentrationBps: int,
    assetConcentrationBps: int,
    capitalAccessibilityBps: int,
    liquidityScoreBps: int,
    riskScoreBps: int,
    riskLevel: RiskLevel,
    worstHealthFactorE4: Option<int>,
    liquidationDistanceBps: Option<int>)

  /** The recorded gross exposure, else the sum over valued assets, else the position's own value. */
  function Gross(p: Position): (r: int)
    ensures r >= 0
  {
    if p.valuation.Some? && p.valuation.value.grossE8.Some? then Abs(p.valuation.value.grossE8.value)
    else if exists a :: a in p.assets && a.valueE8.Some? then
      SumNonNegative(AbsE8, p.assets);
      Sum(AbsE8, p.assets)
    else Abs(NetE8(p))
  }

  // ----- concentration

  function ShareBps(groups: Tally, total: int): int {
    if total <= 0 || groups == [] then 0 else RoundDiv(MaxValue(groups) * 10_000, total)
  }

  predicate IsDependency(p: Position) { p.kind != Wallet && Gross(p) > 0 }

  function Dependencies(ps: seq<Position>): Tally {
    if ps == [] then []
    else
      var t, p := Dependencies(ps[..|ps| - 1]), ps[|ps| - 1];
      if IsDependency(p) then Add(t, p.protocolId, Gross(p)) else t
  }

  function ProtocolShareBps(ps: seq<Position>): int { ShareBps(Dependencies(ps), Sum(Gross, ps)) }

  method ProtocolConcentration(ps: seq<Position>) returns (topShareBps: int)
    ensures topShareBps == ProtocolShareBps(ps)
  {
    var grouped: Tally, total := [], 0;
    for i := 0 to |ps|
      invariant grouped == Dependencies(ps[..i]) && total == Sum(Gross, ps[..i])
    {
      assert ps[..i + 1][..i] == ps[..i];
      var gross := Gross(ps[i]);
      total := total + gross;
      if ps[i].kind == Wallet || gross <= 0 { continue; }
      grouped := Add(grouped, ps[i].protocolId, gross);
    }
    assert ps[..|ps|] == ps;
    topShareBps := ShareBps(grouped, total);
  }

  function AddSymbols(t: Tally, assets: seq<Asset>): Tally {
    if assets == [] then t
    else
      var s, a := AddSymbols(t, assets[..|assets| - 1]), assets[|assets| - 1];
      if a.valueE8.Some? then Add(s, Upper(a.symbol), AbsE8(a)) else s
  }

  function BySymbols(ps: seq<Position>): Tally {
    if ps == [] then [] else AddSymbols(BySymbols(ps[..|ps| - 1]), ps[|ps| - 1].assets)
  }

  /** `calculateConcentration` over exposures that are never negative. */
  function AssetShareBps(ps: seq<Position>): int { ShareBps(BySymbols(ps), Total(BySymbols(ps))) }

  method AssetConcentration(ps: seq<Position>) returns (topShareBps: int)
    ensures topShareBps == AssetShareBps(ps)
  {
    var grouped: Tally := [];
    for i := 0 to |ps|
      invariant grouped == BySymbols(ps[..i])
    {
      assert ps[..i + 1][..i] == ps[..i];
      var assets := ps[i].assets;
      for j := 0 to |assets|
        invariant grouped == AddSymbols(BySymbols(ps[..i]), assets[..j])
      {
        assert assets[..j + 1][..j] == assets[..j];
        if assets[j].valueE8.None? { continue; }
        grouped := Add(grouped, Upper(assets[j].symbol), Abs(assets[j].valueE8.value));
      }
      assert assets[..|assets|] == assets;
    }
    assert ps[..|ps|] == ps;
    topShareBps := ShareBps(grouped, Total(grouped));
  }

  // ----- accessibility

  function LiquidBps(p: Position): int { if p.liquidBps.Some? then p.liquidBps.value else 10_000 }

  function LiquidGross(p: Position): int { Gross(p) * LiquidBps(p) }

  function AccessibilityBps(ps: seq<Position>): int {
    if Sum(Gross, ps) <= 0 then 10_000 else RoundDiv(Sum(LiquidGross, ps), Sum(Gross, ps))
  }

  method CapitalAccessibility(ps: seq<Position>) returns (bps: int)
    ensures bps == AccessibilityBps(ps)
  {
    var weighted, total := 0, 0;
    for i := 0 to |ps|
      invariant weighted == Sum(LiquidGross, ps[..i]) && total == Sum(Gross, ps[..i]) >= 0
    {
      assert ps[..i + 1][..i] == ps[..i];
      var gross := Gross(ps[i]);
      if gross <= 0 { continue; }
      total := total + gross;
      weighted := weighted + gross * LiquidBps(ps[i]);
    }
    assert ps[..|ps|] == ps;
    bps := if total == 0 then 10_000 else RoundDiv(weighted, total);
  }

  // ----- the composite score

  function ClassifyHealth(health: Option<int>): RiskLevel {
    if health.None? then Unknown
    else if health.value < 12_000 then Critical
    else if health.value < 15_000 then Elevated
    else if health.value < 20_000 then Moderate
    else Healthy
  }

  function HealthRiskBps(health: Option<int>): int {
    match ClassifyHealth(health)
    case Unknown => 0
    case Critical => 10_000
    case Elevated => 7_500
    case Moderate => 4_000
    case Healthy => 1_000
  }

  function ConcentrationRiskBps(topShareBps: int): int {
    if topShareBps <= 2_500 then 0
    else Min(10_000, RoundDiv((topShareBps - 2_500) * 10_000, 7_500))
  }

  function OverallLevel(health: Option<int>, score: int): RiskLevel {
    if health.Some? then ClassifyHealth(health)
    else if score >= 7_500 then Critical
    else if score >= 5_000 then Elevated
    else if score >= 2_500 then Moderate
    else Healthy
  }

  function HealthOf(p: Position): Option<int> { p.HealthFactor() }

  function DistanceOf(p: Position): Option<int> { p.Distance() }

  /** 40% health, 30% protocol concentration, 30% accessibility, before clamping. */
  function RawScore(health: Option<int>, topShareBps: int, accessibility: int): int {
    RoundDiv(4 * HealthRiskBps(health) + 3 * ConcentrationRiskBps(topShareBps) + 3 * Max(0, 10_000 - accessibility), 10)
  }

  function CalculatePortfolioRisk(ps: seq<Position>): Summary {
    var protocol, accessibility := ProtocolShareBps(ps), AccessibilityBps(ps);
    var health := MinOver(HealthOf, ps);
    var score := RawScore(health, protocol, accessibility);
    Summary(protocol, AssetShareBps(ps), accessibility, accessibility, Max(0, Min(10_000, score)),
            OverallLevel(health, score), health, MinOver(DistanceOf, ps))
  }

  // ----- order of positions

  function DependencyOn(key: string): Position -> int {
    (p: Position) => if IsDependency(p) && p.protocolId == key then Gross(p) else 0
  }

  lemma {:induction false} DependencyGroups(ps: seq<Position>)
    ensures Distinct(Dependencies(ps))
    ensures forall k :: Get(Dependencies(ps), k) == Sum(DependencyOn(k), ps)
    ensures Total(Dependencies(ps)) <= Sum(Gross, ps)
    ensures forall e | e in Dependencies(ps) :: e.1 >= 0
  {
    if ps != [] {
      hide Gross;
      var before, p := ps[..|ps| - 1], ps[|ps| - 1];
      DependencyGroups(before);
      var t := Dependencies(before);
      AddTotals(t, p.protocolId, Gross(p));
      AddDistinct(t, p.protocolId, Gross(p));
      AddNonNegative(t, p.protocolId, Gross(p));
    }
  }

  lemma {:induction false} AddNonNegative(t: Tally, key: string, v: int)
    requires v >= 0 && forall e | e in t :: e.1 >= 0
    ensures forall e | e in Add(t, key, v) :: e.1 >= 0
  {
    if t != [] { AddNonNegative(t[..|t| - 1], key, v); }
  }

  function SymbolValue(key: string): Asset -> int {
    (a: Asset) => if a.valueE8.Some? && Upper(a.symbol) == key then AbsE8(a) else 0
  }

  function SymbolExposure(key: string): Position -> int {
    (p: Position) => Sum(SymbolValue(key), p.assets)
  }

  function AssetGross(p: Position): int { Sum(AbsE8, p.assets) }

  lemma {:induction false} SymbolGroups(t: Tally, assets: seq<Asset>)
    requires Distinct(t) && forall e | e in t :: e.1 >= 0
    ensures var r := AddSymbols(t, assets);
      && Distinct(r) && (forall e | e in r :: e.1 >= 0)
      && Total(r) == Total(t) + Sum(AbsE8, assets)
      && forall k :: Get(r, k) == Get(t, k) + Sum(SymbolValue(k), assets)
  {
    if assets != [] {
      var before, a := assets[..|assets| - 1], assets[|assets| - 1];
      SymbolGroups(t, before);
      var s, key := AddSymbols(t, before), Upper(a.symbol);
      AddTotals(s, key, AbsE8(a));
      AddDistinct(s, key, AbsE8(a));
      AddNonNegative(s, key, AbsE8(a));
    }
  }

  lemma {:induction false} ExposureGroups(ps: seq<Position>)
    ensures var r := BySymbols(ps);
      && Distinct(r) && (forall e | e in r :: e.1 >= 0)
      && Total(r) == Sum(AssetGross, ps)
      && forall k :: Get(r, k) == Sum(SymbolExposure(k), ps)
  {
    if ps != [] {
      hide AddSymbols;
      ExposureGroups(ps[..|ps| - 1]);
      SymbolGroups(BySymbols(ps[..|ps| - 1]), ps[|ps| - 1].assets);
    }
  }

  lemma SameShare(s: Tally, t: Tally, total: int)
    requires Distinct(s) && Distinct(t) && forall k :: Get(s, k) == Get(t, k)
    ensures ShareBps(s, total) == ShareBps(t, total)
  {
    MaxValueUnique(s, t);
    MaxValueUnique(t, s);
  }

  /** The summary depends on which positions are held, not on the order they are listed in. */
  lemma SummaryIgnoresOrder(ps: seq<Position>, qs: seq<Position>)
    requires multiset(ps) == multiset(qs)
    ensures CalculatePortfolioRisk(ps) == CalculatePortfolioRisk(qs)
  {
    hide Sum, MinOver, RoundDiv, Dependencies, BySymbols, Get, Total, Distinct, MaxValue, Gross;
    SumPermutation(Gross, ps, qs);
    SumPermutation(LiquidGross, ps, qs);
    SumPermutation(AssetGross, ps, qs);
    MinOverPermutation(HealthOf, ps, qs);
    MinOverPermutation(DistanceOf, ps, qs);
    DependencyGroups(ps);
    DependencyGroups(qs);
    forall k ensures Get(Dependencies(ps), k) == Get(Dependencies(qs), k) {
      SumPermutation(DependencyOn(k), ps, qs);
    }
    SameShare(Dependencies(ps), Dependencies(qs), Sum(Gross, ps));
    ExposureGroups(ps);
    ExposureGroups(qs);
    forall k ensures Get(BySymbols(ps), k) == Get(BySymbols(qs), k) {
      SumPermutation(SymbolExposure(k), ps, qs);
    }
    SameShare(BySymbols(ps), BySymbols(qs), Sum(AssetGross, ps));
  }

  function GroupShare(ps: seq<Position>, key: string): int
    requires Sum(Gross, ps) > 0
  {
    RoundDiv(Sum(DependencyOn(key), ps) * 10_000, Sum(Gross, ps))
  }

  /** The concentration is the share of the largest protocol the wallet depends on. */
  lemma TopShareIsLargest(ps: seq<Position>)
    requires Sum(Gross, ps) > 0
    ensures forall k :: GroupShare(ps, k) <= ProtocolShareBps(ps)
    ensures ProtocolShareBps(ps) == 0 || exists k :: GroupShare(ps, k) == ProtocolShareBps(ps)
  {
    hide Sum, RoundDiv, Dependencies, Gross, Total;
    var t, total := Dependencies(ps), Sum(Gross, ps);
    DependencyGroups(ps);
    MaxValueSpec(t);
    forall k ensures GroupShare(ps, k) <= ProtocolShareBps(ps) {
      LargestGroup(t, k);
      RoundDivMonotone(Get(t, k) * 10_000, MaxValue(t) * 10_000, total);
      if t == [] { RoundDivMonotone(0, 0, total); }
    }
    if MaxValue(t) > 0 {
      var k :| Get(t, k) == MaxValue(t);
      assert GroupShare(ps, k) == ProtocolShareBps(ps);
    }
  }

  lemma LargestGroup(t: Tally, key: string)
    requires Distinct(t)
    ensures Get(t, key) <= MaxValue(t) && (t == [] ==> Get(t, key) == 0)
  {
    MaxValueSpec(t);
    if key in Keys(t) {
      var e :| e in t && e.0 == key;
      GetMember(t, e);
    } else {
      GetAbsent(t, key);
    }
  }

  // ----- exposure and the shares

  /** A wallet-held position is no dependency, whatever its protocol; every other counts with its exposure. */
  lemma DependencyCounts(p: Position, key: string)
    ensures DependencyOn(key)(p) == (if p.kind == Wallet || p.protocolId != key then 0 else Gross(p))
  {
    hide Gross;
  }

  /** The recorded exposure comes first, then the valued assets, then the position's own value, without signs. */
  lemma GrossSources(p: Position, g: int)
    ensures p.valuation.Some? && p.valuation.value.grossE8 == Some(g) ==> Gross(p) == if g < 0 then -g else g
    ensures p.valuation.None? || p.valuation.value.grossE8.None? ==>
      && (CountValued(p.assets) > 0 ==> Gross(p) == Sum(AbsE8, p.assets))
      && (CountValued(p.assets) == 0 && p.valueE8 == Some(g) ==> Gross(p) == if g < 0 then -g else g)
      && (CountValued(p.assets) == 0 && p.valueE8.None? ==> Gross(p) == 0)
  {
    hide Sum;
    var valued := set i | 0 <= i < |p.assets| && p.assets[i].valueE8.Some?;
    assert forall i | i in valued :: p.assets[i] in p.assets;
    if exists a :: a in p.assets && a.valueE8.Some? {
      var i :| 0 <= i < |p.assets| && p.assets[i].valueE8.Some?;
      assert i in valued;
    }
  }

  function SymbolShare(ps: seq<Position>, symbol: string): int
    requires Sum(AssetGross, ps) > 0
  {
    RoundDiv(Sum(SymbolExposure(symbol), ps) * 10_000, Sum(AssetGross, ps))
  }

  /** The asset concentration is the share of the symbol with the largest exposure, whatever its letter case. */
  lemma TopSymbolIsLargest(ps: seq<Position>)
    requires Sum(AssetGross, ps) > 0
    ensures forall k :: SymbolShare(ps, k) <= AssetShareBps(ps)
    ensures AssetShareBps(ps) == 0 || exists k :: SymbolShare(ps, k) == AssetShareBps(ps)
  {
    hide Sum, RoundDiv, BySymbols, AssetGross, SymbolExposure;
    var t, total := BySymbols(ps), Sum(AssetGross, ps);
    ExposureGroups(ps);
    MaxValueSpec(t);
    forall k ensures SymbolShare(ps, k) <= AssetShareBps(ps) {
      LargestGroup(t, k);
      RoundDivMonotone(Get(t, k) * 10_000, MaxValue(t) * 10_000, total);
      if t == [] { RoundDivMonotone(0, 0, total); }
    }
    if MaxValue(t) > 0 {
      var k :| Get(t, k) == MaxValue(t);
      assert SymbolShare(ps, k) == AssetShareBps(ps);
    }
  }

  /** Accessibility is the average of the accessible shares, weighted by exposure, to half a basis point. */
  lemma AccessibilityAverages(ps: seq<Position>)
    ensures Sum(Gross, ps) == 0 ==> AccessibilityBps(ps) == 10_000
    ensures Sum(Gross, ps) >= 0
    ensures 2 * Abs(AccessibilityBps(ps) * Sum(Gross, ps) - Sum(LiquidGross, ps)) <= Sum(Gross, ps)
    ensures forall p :: LiquidGross(p) == Gross(p) * (if p.liquidBps.Some? then p.liquidBps.value else 10_000)
  {
    hide Sum, Gross, RoundDiv;
    SumNonNegative(Gross, ps);
    if Sum(Gross, ps) == 0 { NoGrossNoLiquid(ps); }
    assert forall r: int :: Sum(Gross, ps) * r == r * Sum(Gross, ps);
  }

  // ----- what each part costs

  /** Health risk falls in four steps, at 1.2, 1.5 and 2.0; a wallet without a health factor bears none. */
  lemma HealthSteps(health: int)
    ensures HealthRiskBps(None) == 0
    ensures HealthRiskBps(Some(health)) == 10_000 <==> health < 12_000
    ensures HealthRiskBps(Some(health)) == 7_500 <==> 12_000 <= health < 15_000
    ensures HealthRiskBps(Some(health)) == 4_000 <==> 15_000 <= health < 20_000
    ensures HealthRiskBps(Some(health)) == 1_000 <==> health >= 20_000
  {
  }

  /** Concentration risk rises in a straight line from a top share of 25% to one of 100%, to half a basis point. */
  lemma ConcentrationLine(share: int)
    ensures share <= 2_500 ==> ConcentrationRiskBps(share) == 0
    ensures 2_500 < share <= 10_000 ==> 2 * Abs(3 * ConcentrationRiskBps(share) - 4 * (share - 2_500)) <= 3
    ensures share >= 10_000 ==> ConcentrationRiskBps(share) == 10_000
  {
    hide RoundDiv;
    if share > 10_000 { RoundDivAtLeast((share - 2_500) * 10_000, 7_500, 10_000); }
    if 2_500 < share <= 10_000 { RoundDivAtLeast((share - 2_500) * 10_000, 7_500, 10_001); }
  }

  /**
   * The score weighs health, protocol concentration and inaccessibility 40, 30 and 30 to a hundred, to
   * half a basis point, and a change for the worse in any of them never lowers it.
   */
  lemma ScoreWeighs(
      health: Option<int>, worse: Option<int>, share: int, larger: int, accessibility: int, less: int)
    requires (health.None? || (worse.Some? && worse.value <= health.value)) && share <= larger && less <= accessibility
    ensures 2 * Abs(100 * RawScore(health, share, accessibility)
                    - 40 * HealthRiskBps(health) - 30 * ConcentrationRiskBps(share)
                    - 30 * (if accessibility > 10_000 then 0 else 10_000 - accessibility)) <= 100
    ensures RawScore(health, share, accessibility) <= RawScore(worse, larger, less)
  {
    hide RoundDiv;
    RoundDivMonotone((share - 2_500) * 10_000, (larger - 2_500) * 10_000, 7_500);
    assert ConcentrationRiskBps(share) <= ConcentrationRiskBps(larger) by {
      if share <= 2_500 < larger { RoundDivMonotone(0, (larger - 2_500) * 10_000, 7_500); }
    }
    RoundDivMonotone(
      4 * HealthRiskBps(health) + 3 * ConcentrationRiskBps(share) + 3 * Max(0, 10_000 - accessibility),
      4 * HealthRiskBps(worse) + 3 * ConcentrationRiskBps(larger) + 3 * Max(0, 10_000 - less), 10);
  }

  /** The level follows the worst health factor where there is one, and the score only where there is none. */
  lemma LevelFollows(ps: seq<Position>)
    ensures var s := CalculatePortfolioRisk(ps);
      if s.worstHealthFactorE4.Some? then
        && (s.riskLevel == Critical <==> s.worstHealthFactorE4.value < 12_000)
        && (s.riskLevel == Elevated <==> 12_000 <= s.worstHealthFactorE4.value < 15_000)
        && (s.riskLevel == Moderate <==> 15_000 <= s.worstHealthFactorE4.value < 20_000)
        && (s.riskLevel == Healthy <==> s.worstHealthFactorE4.value >= 20_000)
      else
        && (s.riskLevel == Critical <==> s.riskScoreBps >= 7_500)
        && (s.riskLevel == Elevated <==> 5_000 <= s.riskScoreBps < 7_500)
        && (s.riskLevel == Moderate <==> 2_500 <= s.riskScoreBps < 5_000)
        && (s.riskLevel == Healthy <==> s.riskScoreBps < 2_500)
  {
    hide RawScore, ProtocolShareBps, AssetShareBps, AccessibilityBps, MinOver;
  }

  /** The worst figures are the least over the positions that report one. */
  lemma WorstIsLeast(ps: seq<Position>)
    ensures var s := CalculatePortfolioRisk(ps);
      && (s.worstHealthFactorE4.None? <==> forall p | p in ps :: p.HealthFactor().None?)
      && (forall p | p in ps && p.HealthFactor().Some? :: s.worstHealthFactorE4.value <= p.HealthFactor().value)
      && (s.worstHealthFactorE4.Some? ==> exists p :: p in ps && p.HealthFactor() == s.worstHealthFactorE4)
      && (s.liquidationDistanceBps.None? <==> forall p | p in ps :: p.Distance().None?)
      && (forall p | p in ps && p.Distance().Some? :: s.liquidationDistanceBps.value <= p.Distance().value)
      && (s.liquidationDistanceBps.Some? ==> exists p :: p in ps && p.Distance() == s.liquidationDistanceBps)
  {
    hide RawScore, ProtocolShareBps, AssetShareBps, AccessibilityBps, MinOver, OverallLevel;
    MinOverSpec(HealthOf, ps);
    MinOverSpec(DistanceOf, ps);
    var s := CalculatePortfolioRisk(ps);
    assert forall p :: HealthOf(p) == p.HealthFactor() && DistanceOf(p) == p.Distance();
  }

  // ----- ranges

  lemma ShareInRange(groups: Tally, total: int)
    requires Distinct(groups) && (forall e | e in groups :: e.1 >= 0) && Total(groups) <= total
    ensures 0 <= ShareBps(groups, total) <= 10_000
  {
    hide RoundDiv;
    MaxValueSpec(groups);
    if total > 0 {
      RoundDivAtLeast(MaxValue(groups) * 10_000, total, 10_001);
    }
  }

  predicate LiquidInRange(p: Position) { 0 <= LiquidBps(p) <= 10_000 }

  function FullGross(p: Position): int { 10_000 * Gross(p) }

  lemma {:induction false} FullGrossSum(ps: seq<Position>)
    ensures Sum(FullGross, ps) == 10_000 * Sum(Gross, ps)
  {
    if ps != [] { FullGrossSum(ps[..|ps| - 1]); }
  }

  lemma AccessibilityInRange(ps: seq<Position>)
    requires forall p | p in ps :: LiquidInRange(p)
    ensures 0 <= AccessibilityBps(ps) <= 10_000
  {
    hide RoundDiv, Sum, Gross;
    forall p | p in ps ensures 0 <= LiquidGross(p) <= FullGross(p) {
      Scale(Gross(p), 0, LiquidBps(p));
      Scale(Gross(p), LiquidBps(p), 10_000);
    }
    SumNonNegative(LiquidGross, ps);
    SumMonotone(LiquidGross, FullGross, ps);
    FullGrossSum(ps);
    var total := Sum(Gross, ps);
    if total > 0 {
      RoundDivAtLeast(Sum(LiquidGross, ps), total, 10_001);
    }
  }

  /** With accessibility between 0 and 10000 bps, every share and score is too, and the clamp never bites. */
  lemma SummaryInRange(ps: seq<Position>)
    requires forall p | p in ps :: LiquidInRange(p)
    ensures var s := CalculatePortfolioRisk(ps);
      && 0 <= s.protocolConcentrationBps <= 10_000
      && 0 <= s.assetConcentrationBps <= 10_000
      && 0 <= s.capitalAccessibilityBps == s.liquidityScoreBps <= 10_000
      && 0 <= s.riskScoreBps <= 10_000
      && s.riskScoreBps == RawScore(s.worstHealthFactorE4, s.protocolConcentrationBps, s.capitalAccessibilityBps)
  {
    hide RoundDiv, Sum, Gross, Dependencies, BySymbols, MinOver, Total, MaxValue, Distinct;
    DependencyGroups(ps);
    ShareInRange(Dependencies(ps), Sum(Gross, ps));
    ExposureGroups(ps);
    ShareInRange(BySymbols(ps), Total(BySymbols(ps)));
    AccessibilityInRange(ps);
    var health, share := MinOver(HealthOf, ps), ProtocolShareBps(ps);
    RoundDivAtLeast((share - 2_500) * 10_000, 7_500, 10_001);
    assert 0 <= ConcentrationRiskBps(share) <= 10_000;
    assert 0 <= HealthRiskBps(health) <= 10_000;
    var inaccessible := Max(0, 10_000 - AccessibilityBps(ps));
    RoundDivAtLeast(4 * HealthRiskBps(health) + 3 * ConcentrationRiskBps(share) + 3 * inaccessible, 10, 10_001);
  }

  // ----- a liquid wallet position

  function Rank(level: RiskLevel): int {
    match level
    case Unknown => 0
    case Healthy => 0
    case Moderate => 1
    case Elevated => 2
    case Critical => 3
  }

  lemma AppendSum(f: Position -> int, ps: seq<Position>, p: Position)
    ensures Sum(f, ps + [p]) == Sum(f, ps) + f(p)
  {
    assert (ps + [p])[..|ps|] == ps;
  }

  /** Averaging in fully liquid value never adds accessibility risk. */
  lemma LiquidAverage(weighted: int, total: int, gross: int)
    requires total > 0 && gross >= 0
    ensures Max(0, 10_000 - RoundDiv(weighted + gross * 10_000, total + gross))
      <= Max(0, 10_000 - RoundDiv(weighted, total))
  {
    hide RoundDiv;
    var before := RoundDiv(weighted, total);
    var k := Min(before, 10_000);
    assert (total + gross) * k == total * k + gross * k;
    Scale(gross, k, 10_000);
    if k >= 1 {
      RoundDivAtLeast(weighted, total, k);
      RoundDivAtLeast(weighted + gross * 10_000, total + gross, k);
    } else {
      RoundDivAtLeastNonPositive(weighted, total, k);
      RoundDivAtLeastNonPositive(weighted + gross * 10_000, total + gross, k);
    }
  }

  predicate LiquidWallet(p: Position) {
    p.kind == Wallet && LiquidBps(p) == 10_000 && HealthOf(p).None? && DistanceOf(p).None?
  }

  /** Adding a fully liquid wallet position without liquidation data raises neither the score nor the level. */
  lemma LiquidWalletNeverHurts(ps: seq<Position>, w: Position)
    requires LiquidWallet(w)
    ensures var before, after := CalculatePortfolioRisk(ps), CalculatePortfolioRisk(ps + [w]);
      && after.riskScoreBps <= before.riskScoreBps
      && Rank(after.riskLevel) <= Rank(before.riskLevel)
      && after.worstHealthFactorE4 == before.worstHealthFactorE4
  {
    hide RoundDiv, Sum, Gross, MaxValue, Get, Total, ShareBps, Distinct, RawScore, ConcentrationRiskBps;
    var qs := ps + [w];
    assert qs[..|ps|] == ps;
    AppendSum(Gross, ps, w);
    AppendSum(LiquidGross, ps, w);
    SumNonNegative(Gross, ps);
    assert Dependencies(qs) == Dependencies(ps);
    assert ConcentrationRiskBps(ProtocolShareBps(qs)) <= ConcentrationRiskBps(ProtocolShareBps(ps)) by {
      DependencyGroups(ps);
      SmallerShare(Dependencies(ps), Sum(Gross, ps), Gross(w));
    }
    assert Max(0, 10_000 - AccessibilityBps(qs)) <= Max(0, 10_000 - AccessibilityBps(ps)) by {
      if Sum(Gross, ps) > 0 {
        LiquidAverage(Sum(LiquidGross, ps), Sum(Gross, ps), Gross(w));
      } else {
        NoGrossNoLiquid(ps);
        if Gross(w) > 0 { RoundDivAtLeast(Gross(w) * 10_000, Gross(w), 10_000); }
      }
    }
    assert MinOver(HealthOf, qs) == MinOver(HealthOf, ps);
    LowerRisk(MinOver(HealthOf, ps), ProtocolShareBps(qs), ProtocolShareBps(ps),
              AccessibilityBps(qs), AccessibilityBps(ps));
  }

  lemma LowerRisk(health: Option<int>, share: int, oldShare: int, access: int, oldAccess: int)
    requires ConcentrationRiskBps(share) <= ConcentrationRiskBps(oldShare)
    requires Max(0, 10_000 - access) <= Max(0, 10_000 - oldAccess)
    ensures RawScore(health, share, access) <= RawScore(health, oldShare, oldAccess)
    ensures Rank(OverallLevel(health, RawScore(health, share, access)))
      <= Rank(OverallLevel(health, RawScore(health, oldShare, oldAccess)))
  {
    hide RoundDiv, ConcentrationRiskBps, HealthRiskBps;
    RoundDivMonotone(
      4 * HealthRiskBps(health) + 3 * ConcentrationRiskBps(share) + 3 * Max(0, 10_000 - access),
      4 * HealthRiskBps(health) + 3 * ConcentrationRiskBps(oldShare) + 3 * Max(0, 10_000 - oldAccess), 10);
  }

  /** The same dependency is a smaller share of a larger portfolio. */
  lemma SmallerShare(groups: Tally, total: int, gross: int)
    requires Distinct(groups) && (forall e | e in groups :: e.1 >= 0) && Total(groups) <= total && gross >= 0
    ensures ConcentrationRiskBps(ShareBps(groups, total + gross)) <= ConcentrationRiskBps(ShareBps(groups, total))
  {
    hide RoundDiv, Get;
    MaxValueSpec(groups);
    var share, oldShare := ShareBps(groups, total + gross), ShareBps(groups, total);
    if total > 0 {
      RoundDivAntitone(MaxValue(groups) * 10_000, total, total + gross);
    } else {
      assert MaxValue(groups) == 0;
    }
    assert share <= oldShare;
    if oldShare > 2_500 {
      RoundDivMonotone(Max(0, share - 2_500) * 10_000, (oldShare - 2_500) * 10_000, 7_500);
    }
  }

  lemma {:induction false} NoGrossNoLiquid(ps: seq<Position>)
    requires Sum(Gross, ps) <= 0
    ensures Sum(LiquidGross, ps) == 0
  {
    if ps != [] {
      SumNonNegative(Gross, ps[..|ps| - 1]);
      NoGrossNoLiquid(ps[..|ps| - 1]);
    }
  }
}
