/** Headrooms of a portfolio under its position policy, and what they allow of a requested increase. */
module Capacity {
  import opened Rounding

  type Weight = w: real | 0.0 <= w <= 1.0 witness 0.0

  datatype PositionPolicy = PositionPolicy(singleMax: Weight, sectorMax: Weight, grossMax: Weight, minimumCash: Weight)

  datatype Inputs = Inputs(
    instrument: Weight, sector: Weight, gross: Weight,
    pendingInstrument: Weight, pendingSector: Weight, pendingGross: Weight,
    riskBudget: Weight, liquidity: Weight)

  datatype LimitCode =
    | SingleInstrumentCap
    | SectorCap
    | GrossExposureCap
    | MinimumCashCap
    | RiskBudgetCap
    | LiquidityCap

  datatype Capacity = Capacity(requested: Weight, allowed: Weight, limits: map<LimitCode, Weight>) {
    predicate HasRequested() {
      allowed == requested
    }
  }

  const CODES: set<LimitCode> :=
    {SingleInstrumentCap, SectorCap, GrossExposureCap, MinimumCashCap, RiskBudgetCap, LiquidityCap}

  function Headroom(limit: Weight, current: Weight, pending: Weight): Weight {
    Max(0.0, limit - current - pending)
  }

  function Available(p: PositionPolicy, i: Inputs, code: LimitCode): Weight {
    match code
    case SingleInstrumentCap => Headroom(p.singleMax, i.instrument, i.pendingInstrument)
    case SectorCap => Headroom(p.sectorMax, i.sector, i.pendingSector)
    case GrossExposureCap => Headroom(p.grossMax, i.gross, i.pendingGross)
    case MinimumCashCap => Headroom(1.0 - p.minimumCash, i.gross, i.pendingGross)
    case RiskBudgetCap => i.riskBudget
    case LiquidityCap => i.liquidity
  }

  function Limits(p: PositionPolicy, i: Inputs): map<LimitCode, Weight> {
    map code | code in CODES :: Available(p, i, code)
  }

  function Tightest(p: PositionPolicy, i: Inputs): Weight {
    Min(Available(p, i, SingleInstrumentCap),
    Min(Available(p, i, SectorCap),
    Min(Available(p, i, GrossExposureCap),
    Min(Available(p, i, MinimumCashCap),
    Min(Available(p, i, RiskBudgetCap), Available(p, i, LiquidityCap))))))
  }

  function Evaluate(p: PositionPolicy, i: Inputs, requested: Weight): Capacity {
    Capacity(requested, Min(requested, Tightest(p, i)), Limits(p, i))
  }

  /** The allowed increase is the largest one that respects the request and all six limits, and the
      request is cut exactly when some limit is below it. */
  lemma AllowedIsLargestPermitted(p: PositionPolicy, i: Inputs, requested: Weight, increase: real)
    ensures increase <= Evaluate(p, i, requested).allowed <==>
            increase <= requested && forall code: LimitCode :: increase <= Available(p, i, code)
    ensures Evaluate(p, i, requested).HasRequested() <==>
            forall code: LimitCode :: requested <= Available(p, i, code)
  {
    forall code: LimitCode ensures Tightest(p, i) <= Available(p, i, code) {
      TightestIsBelow(p, i, code);
    }
    var code := TightestIsReached(p, i);
    hide Available, Tightest;
    assert Tightest(p, i) == Available(p, i, code);
  }

  lemma AllCodes(code: LimitCode)
    ensures code in CODES
  {
    match code {
      case SingleInstrumentCap =>
      case SectorCap =>
      case GrossExposureCap =>
      case MinimumCashCap =>
      case RiskBudgetCap =>
      case LiquidityCap =>
    }
  }

  lemma TightestIsBelow(p: PositionPolicy, i: Inputs, code: LimitCode)
    ensures Tightest(p, i) <= Available(p, i, code)
  {
    hide Headroom;
    match code {
      case SingleInstrumentCap =>
      case SectorCap =>
      case GrossExposureCap =>
      case MinimumCashCap =>
      case RiskBudgetCap =>
      case LiquidityCap =>
    }
  }

  lemma TightestIsReached(p: PositionPolicy, i: Inputs) returns (code: LimitCode)
    ensures Tightest(p, i) == Available(p, i, code)
  {
    var t := Tightest(p, i);
    code :=
      if t == Available(p, i, SingleInstrumentCap) then SingleInstrumentCap
      else if t == Available(p, i, SectorCap) then SectorCap
      else if t == Available(p, i, GrossExposureCap) then GrossExposureCap
      else if t == Available(p, i, MinimumCashCap) then MinimumCashCap
      else if t == Available(p, i, RiskBudgetCap) then RiskBudgetCap
      else LiquidityCap;
  }
}
