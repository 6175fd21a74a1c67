/** The normalized position every adapter produces; USD amounts count 1e-8 dollars. */
module Positions {
  import opened Collections

  datatype Role = Holding | Collateral | Debt | Reward | Locked

  datatype Kind = Wallet | Stream | Supply | Borrowing | Liquidity | Staking | Vault

  datatype Asset = Asset(
    assetId: string,
    symbol: string,
    amountAtomic: int,
    decimals: nat,
    valueE8: Option<int>,
    role: Role)

  datatype LendingTerms = LendingTerms(
    borrowLtvBps: Option<int>,
    partialLtvBps: Option<int>,
    fullLtvBps: Option<int>)

  datatype CollateralView = CollateralView(
    valueE8: int,
    ratioE4: int,
    currentLtvBps: int,
    borrowHeadroomBps: Option<int>)

  datatype LiquidationView = LiquidationView(
    thresholdE4: Option<int>,
    partialThresholdBps: Option<int>,
    fullThresholdBps: Option<int>,
    healthFactorE4: Option<int>,
    distanceBps: Option<int>,
    priceE8: Option<int>)

  /** `metadata.valuation`; a field is None where the record lacks it. */
  datatype Valuation = Valuation(
    valuedAssets: Option<nat>,
    totalAssets: Option<nat>,
    grossE8: Option<int>,
    positiveE8: Option<int>,
    debtE8: Option<int>,
    stressed: bool)

  const NO_VALUATION := Valuation(None, None, None, None, None, false)

  datatype Position = Position(
    id: string,
    protocolId: string,
    kind: Kind,
    assets: seq<Asset>,
    valueE8: Option<int>,
    collateral: Option<CollateralView>,
    debtE8: Option<int>,
    liquidation: Option<LiquidationView>,
    lending: Option<LendingTerms>,
    liquidBps: Option<int>,
    valuation: Option<Valuation>)
  {
    function HealthFactor(): Option<int> {
      if liquidation.Some? then liquidation.value.healthFactorE4 else None
    }

    function Distance(): Option<int> {
      if liquidation.Some? then liquidation.value.distanceBps else None
    }
  }

  /** The assets of one role that carry a USD value, in order. */
  function Valued(assets: seq<Asset>, role: Role): (r: seq<Asset>)
    ensures forall a | a in r :: a in assets && a.role == role && a.valueE8.Some?
  {
    if assets == [] then []
    else
      var rest, last := Valued(assets[..|assets| - 1], role), assets[|assets| - 1];
      if last.role == role && last.valueE8.Some? then rest + [last] else rest
  }

  function ValueE8(a: Asset): int {
    if a.valueE8.Some? then a.valueE8.value else 0
  }

  function AbsE8(a: Asset): int { if ValueE8(a) < 0 then -ValueE8(a) else ValueE8(a) }

  /** What an asset adds to the position's assets, unless it is a debt. */
  function OwnedE8(a: Asset): int { if a.role == Debt then 0 else ValueE8(a) }

  /** What a debt adds to the position's debts. */
  function OwedE8(a: Asset): int { if a.role == Debt then ValueE8(a) else 0 }

  function CollateralE8(assets: seq<Asset>): int { Sum(ValueE8, Valued(assets, Collateral)) }

  function DebtE8(assets: seq<Asset>): int { Sum(ValueE8, Valued(assets, Debt)) }
}
