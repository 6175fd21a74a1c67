/** Stress scenarios over a whole portfolio, and how two of them compare (risk-engine). */
module Scenario {
  import opened Collections
  import opened Positions
  import opened Lending
  import opened Stress
  import opened Score

  datatype PositionResult = PositionResult(
    positionId: string,
    beforeValueE8: Option<int>,
    afterValueE8: Option<int>,
    beforeHealthFactorE4: Option<int>,
    afterHealthFactorE4: Option<int>,
    beforeDistanceBps: Option<int>,
    afterDistanceBps: Option<int>,
    liquidatableBefore: bool,
    liquidatableAfter: bool)

  /** The two warnings carry the number of new crossings and the move into the critical band. */
  datatype ScenarioResult = ScenarioResult(
    before: Summary,
    after: Summary,
    positions: seq<PositionResult>,
    newlyLiquidatable: int,
    entersCritical: bool)

  function StressedAll(ps: seq<Position>, shocks: seq<PriceShock>): (qs: seq<Position>)
    ensures |qs| == |ps| && forall i | 0 <= i < |ps| :: qs[i] == Stressed(ps[i], shocks)
  {
    seq(|ps|, i requires 0 <= i < |ps| => Stressed(ps[i], shocks))
  }

  function Compare(p: Position, q: Position): PositionResult {
    PositionResult(p.id, p.valueE8, q.valueE8, p.HealthFactor(), q.HealthFactor(), p.Distance(), q.Distance(),
                   Flagged(p), Flagged(q))
  }

  function Crosses(r: PositionResult): int { if !r.liquidatableBefore && r.liquidatableAfter then 1 else 0 }

  function RunStressScenario(ps: seq<Position>, shocks: seq<PriceShock>): ScenarioResult {
    var qs := StressedAll(ps, shocks);
    var before, after := CalculatePortfolioRisk(ps), CalculatePortfolioRisk(qs);
    var results := seq(|ps|, i requires 0 <= i < |ps| => Compare(ps[i], qs[i]));
    ScenarioResult(before, after, results, Sum(Crosses, results),
                   after.riskLevel == Critical && before.riskLevel != Critical)
  }

  /** Every position sees a deeper collateral shock. */
  ghost predicate DeeperScenario(ps: seq<Position>, mild: seq<PriceShock>, deep: seq<PriceShock>) {
    forall i | 0 <= i < |ps| :: Deeper(ps[i], mild, deep)
  }

  /** No live loan is wiped out, unless its figures from before the scenario are no better than the milder one's. */
  ghost predicate NoFlatteringWipeout(ps: seq<Position>, mild: seq<PriceShock>, deep: seq<PriceShock>) {
    forall i | 0 <= i < |ps| :: WipesOut(ps[i], mild, deep) ==> NoBetter(ps[i], Stressed(ps[i], mild))
  }

  /** No live loan is wiped out, unless the milder scenario does not flag it or it was flagged before. */
  ghost predicate NoClearingWipeout(ps: seq<Position>, mild: seq<PriceShock>, deep: seq<PriceShock>) {
    forall i | 0 <= i < |ps| :: WipesOut(ps[i], mild, deep) ==> Flagged(ps[i]) || !Flagged(Stressed(ps[i], mild))
  }

  /** No position liquidatable in the first scenario is spared in the second. */
  ghost predicate NoneCleared(m: ScenarioResult, d: ScenarioResult)
    requires |m.positions| == |d.positions|
  {
    forall i | 0 <= i < |m.positions| :: m.positions[i].liquidatableAfter ==> d.positions[i].liquidatableAfter
  }

  /** No position's figures improve. */
  ghost predicate NoneBetter(ds: seq<Position>, ms: seq<Position>)
    requires |ds| == |ms|
  {
    forall i | 0 <= i < |ds| :: NoBetter(ds[i], ms[i])
  }

  lemma {:induction false} LeastOfSmaller(f: Position -> Option<int>, low: seq<Position>, high: seq<Position>)
    requires |low| == |high| && forall i | 0 <= i < |low| :: AtMost(f(low[i]), f(high[i]))
    ensures AtMost(MinOver(f, low), MinOver(f, high))
  {
    if low != [] {
      var n := |low| - 1;
      LeastOfSmaller(f, low[..n], high[..n]);
      assert AtMost(f(low[n]), f(high[n]));
    }
  }

  lemma {:induction false} MoreCrossings(low: seq<PositionResult>, high: seq<PositionResult>)
    requires |low| == |high| && forall i | 0 <= i < |low| :: Crosses(low[i]) <= Crosses(high[i])
    ensures Sum(Crosses, low) <= Sum(Crosses, high)
  {
    if low != [] {
      var n := |low| - 1;
      MoreCrossings(low[..n], high[..n]);
      assert Crosses(low[n]) <= Crosses(high[n]);
    }
  }

  lemma WorseHealth(low: Option<int>, high: Option<int>)
    requires AtMost(low, high)
    ensures Rank(ClassifyHealth(low)) >= Rank(ClassifyHealth(high))
  {
  }

  /** Position by position, a deeper scenario improves no figure exactly when no wipe-out flatters. */
  lemma NoneBetterExactly(ps: seq<Position>, mild: seq<PriceShock>, deep: seq<PriceShock>)
    requires DeeperScenario(ps, mild, deep)
    ensures NoneBetter(StressedAll(ps, deep), StressedAll(ps, mild)) <==> NoFlatteringWipeout(ps, mild, deep)
  {
    hide Deeper, Stressed, WipesOut, NoBetter;
    forall i | 0 <= i < |ps|
      ensures NoBetter(Stressed(ps[i], deep), Stressed(ps[i], mild))
        <==> !WipesOut(ps[i], mild, deep) || NoBetter(ps[i], Stressed(ps[i], mild))
    {
      MonotoneExactly(ps[i], mild, deep);
    }
  }

  /**
   * A deeper scenario clears no liquidatable position exactly when no wipe-out clears a flag, and then no
   * crossing disappears either.
   */
  lemma NoneClearedExactly(ps: seq<Position>, mild: seq<PriceShock>, deep: seq<PriceShock>)
    requires DeeperScenario(ps, mild, deep)
    ensures var m, d := RunStressScenario(ps, mild), RunStressScenario(ps, deep);
      && (NoneCleared(m, d) <==> NoClearingWipeout(ps, mild, deep))
      && (NoClearingWipeout(ps, mild, deep) ==> m.newlyLiquidatable <= d.newlyLiquidatable)
  {
    hide Deeper, Stressed, WipesOut, Flagged, CalculatePortfolioRisk, Sum;
    var m, d := RunStressScenario(ps, mild), RunStressScenario(ps, deep);
    forall i | 0 <= i < |ps|
      ensures (m.positions[i].liquidatableAfter ==> d.positions[i].liquidatableAfter)
        <==> (!WipesOut(ps[i], mild, deep) || Flagged(ps[i]) || !Flagged(Stressed(ps[i], mild)))
    {
      MonotoneExactly(ps[i], mild, deep);
    }
    if NoneCleared(m, d) { MoreCrossings(m.positions, d.positions); }
  }

  /**
   * A deeper scenario without a flattering wipe-out is never safer: no worst figure rises, and a
   * health-based risk level does not fall; without a clearing one, no liquidatable position is cleared.
   */
  lemma DeeperIsNeverSafer(ps: seq<Position>, mild: seq<PriceShock>, deep: seq<PriceShock>)
    requires DeeperScenario(ps, mild, deep)
    ensures var m, d := RunStressScenario(ps, mild), RunStressScenario(ps, deep);
      && (NoFlatteringWipeout(ps, mild, deep) ==>
            && AtMost(d.after.worstHealthFactorE4, m.after.worstHealthFactorE4)
            && AtMost(d.after.liquidationDistanceBps, m.after.liquidationDistanceBps)
            && (m.after.worstHealthFactorE4.Some? ==> Rank(d.after.riskLevel) >= Rank(m.after.riskLevel)))
      && (NoClearingWipeout(ps, mild, deep) ==> NoneCleared(m, d) && m.newlyLiquidatable <= d.newlyLiquidatable)
  {
    hide Stressed, DeeperScenario, NoFlatteringWipeout, NoClearingWipeout, NoneCleared;
    hide MinOver, ProtocolShareBps, AssetShareBps, AccessibilityBps, RawScore, Sum;
    NoneClearedExactly(ps, mild, deep);
    if NoFlatteringWipeout(ps, mild, deep) {
      var ms, ds := StressedAll(ps, mild), StressedAll(ps, deep);
      NoneBetterExactly(ps, mild, deep);
      forall i | 0 <= i < |ps|
        ensures AtMost(HealthOf(ds[i]), HealthOf(ms[i])) && AtMost(DistanceOf(ds[i]), DistanceOf(ms[i])) {
        assert NoBetter(ds[i], ms[i]);
      }
      LeastOfSmaller(HealthOf, ds, ms);
      LeastOfSmaller(DistanceOf, ds, ms);
      WorseHealth(RunStressScenario(ps, deep).after.worstHealthFactorE4,
                  RunStressScenario(ps, mild).after.worstHealthFactorE4);
    }
  }

  /** The report of a scenario: both summaries, each position before and after, and the crossings counted. */
  lemma ScenarioReports(ps: seq<Position>, shocks: seq<PriceShock>)
    ensures var r := RunStressScenario(ps, shocks);
      && r.before == CalculatePortfolioRisk(ps) && r.after == CalculatePortfolioRisk(StressedAll(ps, shocks))
      && |r.positions| == |ps|
      && (forall i | 0 <= i < |ps| ::
            var p, q, x := ps[i], Stressed(ps[i], shocks), r.positions[i];
            && x.positionId == p.id && x.beforeValueE8 == p.valueE8 && x.afterValueE8 == q.valueE8
            && x.beforeHealthFactorE4 == p.HealthFactor() && x.afterHealthFactorE4 == q.HealthFactor()
            && x.beforeDistanceBps == p.Distance() && x.afterDistanceBps == q.Distance()
            && (x.liquidatableBefore <==> x.beforeHealthFactorE4.Some? && x.beforeHealthFactorE4.value <= 10_000)
            && (x.liquidatableAfter <==> x.afterHealthFactorE4.Some? && x.afterHealthFactorE4.value <= 10_000))
      && r.newlyLiquidatable
           == |set i | 0 <= i < |ps| && !r.positions[i].liquidatableBefore && r.positions[i].liquidatableAfter|
      && (r.entersCritical <==> r.after.riskLevel == Critical && r.before.riskLevel != Critical)
  {
    hide Stressed, CalculatePortfolioRisk, Sum;
    CountsCrossings(RunStressScenario(ps, shocks).positions);
  }

  lemma {:induction false} CountsCrossings(rs: seq<PositionResult>)
    ensures Sum(Crosses, rs) == |set i | 0 <= i < |rs| && !rs[i].liquidatableBefore && rs[i].liquidatableAfter|
  {
    if rs != [] {
      var n := |rs| - 1;
      CountsCrossings(rs[..n]);
      var before := set i | 0 <= i < n && !rs[..n][i].liquidatableBefore && rs[..n][i].liquidatableAfter;
      assert (set i | 0 <= i < |rs| && !rs[i].liquidatableBefore && rs[i].liquidatableAfter)
        == before + (if Crosses(rs[n]) == 1 then {n} else {});
    }
  }
}
