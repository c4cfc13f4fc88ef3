/** What every action comes to in a sizing, reason by reason and number by number. */
module SizingOutcomes {
  import opened Options
  import opened Enums
  import opened Capacity
  import opened Rounding
  import opened Sizing

  /** Nothing is bought or sold: the result is the position as it is. */
  predicate Unchanged(q: Request, s: Sizing) {
    && s.delta == 0.0 && s.deltaWeight == 0.0 && s.unroundedDelta == 0.0
    && s.unroundedTarget == q.weight && s.target == q.weight && s.targetQuantity == q.quantity
  }

  lemma PlanAtCurrent(f: Formula, q: Request)
    requires f.Valid() && q.Valid() && PlanTarget(f, q).Ok? && PlanTarget(f, q).value.target == q.weight
    ensures Sized(f, q).Ok? && Unchanged(q, Sized(f, q).value) && Sized(f, q).value.reasons == PlanTarget(f, q).value.reasons
  {
    SizedFromPlan(f, q);
    RawDeltaSign(q, q.weight);
    RoundZero(q.lot, q.quantity);
    ConvertZero(q.price, q.nav);
    hide Sized, PlanTarget, Convert, RoundDelta, RawDelta;
  }

  function AtLeastZero(x: real): real {
    if x < 0.0 then 0.0 else x
  }

  /** Every result shows all six headrooms; what it was asked to allow is nothing, unless it is an unblocked purchase. */
  lemma CapacityIsShown(f: Formula, q: Request)
    requires f.Valid() && q.Valid() && Sized(f, q).Ok?
    ensures var p, i, c := q.policy, q.inputs, Sized(f, q).value.capacity;
            && c.limits == map[
                 SingleInstrumentCap := AtLeastZero(p.singleMax - i.instrument - i.pendingInstrument),
                 SectorCap := AtLeastZero(p.sectorMax - i.sector - i.pendingSector),
                 GrossExposureCap := AtLeastZero(p.grossMax - i.gross - i.pendingGross),
                 MinimumCashCap := AtLeastZero(1.0 - p.minimumCash - i.gross - i.pendingGross),
                 RiskBudgetCap := i.riskBudget,
                 LiquidityCap := i.liquidity]
            && (q.action in {Buy, Add} && Unblocked(q) ==> c.requested == Wanted(f, q))
            && (!(q.action in {Buy, Add} && Unblocked(q)) ==> c.requested == 0.0 && c.allowed == 0.0)
  {
    CapacityOf(f, q);
    LimitsAre(q.policy, q.inputs);
    hide Sized, Convert, Wanted, Limits, Available, AtLeastZero, Unblocked;
    AllowedIsLargestPermitted(q.policy, q.inputs, 0.0, 0.0);
    hide Tightest;
  }

  lemma CapacityOf(f: Formula, q: Request)
    requires f.Valid() && q.Valid() && Sized(f, q).Ok?
    ensures var purchase := q.action in {Buy, Add} && Unblocked(q);
            && (purchase ==> Wanted(f, q) <= 1.0)
            && Sized(f, q).value.capacity == Evaluate(q.policy, q.inputs, if purchase then Wanted(f, q) else 0.0)
  {
    SizedFromPlan(f, q);
    hide Sized, Convert, Wanted, Tightest, Limits, Evaluate, Unblocked;
  }

  lemma LimitsAre(p: PositionPolicy, i: Inputs)
    ensures Limits(p, i) == map[
              SingleInstrumentCap := AtLeastZero(p.singleMax - i.instrument - i.pendingInstrument),
              SectorCap := AtLeastZero(p.sectorMax - i.sector - i.pendingSector),
              GrossExposureCap := AtLeastZero(p.grossMax - i.gross - i.pendingGross),
              MinimumCashCap := AtLeastZero(1.0 - p.minimumCash - i.gross - i.pendingGross),
              RiskBudgetCap := i.riskBudget,
              LiquidityCap := i.liquidity]
  {
    assert Limits(p, i).Keys == CODES;
  }

  /** HOLD, WATCH and AVOID never fail and leave the position exactly as it is. */
  lemma OtherActionsChangeNothing(f: Formula, q: Request)
    requires f.Valid() && q.Valid() && q.action !in {Buy, Add, Reduce, Exit}
    ensures Sized(f, q).Ok? && Unchanged(q, Sized(f, q).value) && Sized(f, q).value.reasons == {NoExposureChange}
  {
    PlanAtCurrent(f, q);
  }

  /** REDUCE and EXIT never fail, and give one reason each. */
  lemma SaleReasons(f: Formula, q: Request)
    requires f.Valid() && q.Valid() && q.action in {Reduce, Exit}
    ensures Sized(f, q).Ok? && Sized(f, q).value.reasons == {if q.action == Reduce then DeterministicReduce else ExitReason}
  {
    SizedFromPlan(f, q);
    SizingFailsExactlyWhen(f, q);
    hide Sized, Convert, Rounded, RawDelta, Wanted, Evaluate;
  }

  /** A BUY or ADD is stopped, in this order, by an assessment that has expired, that has no flag, or that has a
      hard one, and by a broken thesis; it then changes nothing and gives that one reason. */
  lemma BlockedPurchases(f: Formula, q: Request)
    requires f.Valid() && q.Valid() && q.action in {Buy, Add}
    ensures var a, r := q.assessment, Sized(f, q);
            && (a.expiresAt <= q.asOf ==> Blocks(q, r, AssessmentExpired))
            && (q.asOf < a.expiresAt && |a.hardFlags| == 0 ==> Blocks(q, r, AssessmentUnknown))
            && (q.asOf < a.expiresAt && true in a.hardFlags ==> Blocks(q, r, RiskVeto))
            && (q.asOf < a.expiresAt && |a.hardFlags| > 0 && true !in a.hardFlags && q.thesis == Broken ==> Blocks(q, r, ThesisBroken))
            && (q.asOf < a.expiresAt && |a.hardFlags| > 0 && true !in a.hardFlags && q.thesis != Broken && r.Ok? ==>
                  forall reason :: reason in r.value.reasons ==> reason.Limited?)
  {
    if Unblocked(q) {
      if Sized(f, q).Ok? {
        SizedFromPlan(f, q);
      }
    } else {
      PlanAtCurrent(f, q);
    }
    hide Sized, Convert, Wanted, Evaluate;
  }

  predicate Blocks(q: Request, r: Result<Sizing, Error>, reason: Reason) {
    r.Ok? && Unchanged(q, r.value) && r.value.reasons == {reason}
  }

  // ---------------------------------------------------------------------------------------------
  // How much is bought and sold
  // ---------------------------------------------------------------------------------------------

  /** Target volatility over instrument volatility, or over the floor if that is larger, moved to the nearer end
      of the scale's range if it is outside. */
  ghost predicate IsScale(f: Formula, volatility: real, scale: real) {
    && f.scaleMin <= scale <= f.scaleMax
    && (scale < f.scaleMax ==> f.targetVolatility <= Times(scale, volatility) || f.targetVolatility <= Times(scale, f.volatilityFloor))
    && (f.scaleMin < scale ==> Times(scale, volatility) <= f.targetVolatility && Times(scale, f.volatilityFloor) <= f.targetVolatility)
  }

  lemma ScaleIsScale(f: Formula, volatility: real)
    requires f.Valid() && 0.0 < volatility
    ensures IsScale(f, volatility, Scale(f, volatility))
  {
    var v, scale := Max(volatility, f.volatilityFloor), Scale(f, volatility);
    var ratio := f.targetVolatility / v;
    assert Times(ratio, v) == f.targetVolatility;
    assert scale == Min(Max(ratio, f.scaleMin), f.scaleMax);
    hide Times, Scale;
    TimesMonotone(volatility, v, scale);
    TimesMonotone(f.volatilityFloor, v, scale);
    if scale <= ratio {
      TimesMonotone(scale, ratio, v);
    }
    if ratio <= scale {
      TimesMonotone(ratio, scale, v);
    }
  }

  lemma TimesMonotone(a: real, b: real, k: real)
    requires a <= b && 0.0 <= k
    ensures Times(a, k) <= Times(b, k) && Times(k, a) <= Times(k, b)
  {
    ScaleUp(a, b, k);
  }

  /** The increase fits under the wanted weight and under every cap, on top of what is held and pending. */
  predicate Permitted(q: Request, goal: real, increase: real) {
    var p, i := q.policy, q.inputs;
    && (0.0 < increase ==>
          && q.weight + increase <= goal
          && i.instrument + i.pendingInstrument + increase <= p.singleMax
          && i.sector + i.pendingSector + increase <= p.sectorMax
          && i.gross + i.pendingGross + increase <= p.grossMax
          && i.gross + i.pendingGross + increase <= 1.0 - p.minimumCash)
    && increase <= i.riskBudget && increase <= i.liquidity
  }

  /** The quantity, at the price, is worth that weight of the portfolio. */
  predicate IsWorth(quantity: real, weight: real, q: Request) {
    Times(quantity, q.price) == Times(weight, q.nav)
  }

  lemma SizedIsWorth(f: Formula, q: Request)
    requires f.Valid() && q.Valid() && Sized(f, q).Ok?
    ensures var s := Sized(f, q).value;
            IsWorth(s.unroundedDelta, s.unroundedTarget - q.weight, q) && IsWorth(s.delta, s.deltaWeight, q)
  {
    var s := Sized(f, q).value;
    SizedFromPlan(f, q);
    ConvertIsWorth(s.unroundedTarget - q.weight, s.delta, q);
    hide Sized, PlanTarget, Rounded, Convert, IsWorth;
  }

  lemma ConvertIsWorth(weight: real, quantity: real, q: Request)
    requires q.Valid()
    ensures IsWorth(Convert(weight, q.nav, q.price), weight, q) && IsWorth(quantity, Convert(quantity, q.price, q.nav), q)
  {
    var nav, price := q.nav, q.price;
    ConvertIs(weight, nav, price);
    ConvertIs(quantity, price, nav);
    hide Convert;
  }

  /** An unblocked BUY or ADD aims at the intent's weight times the volatility scale. Its unrounded increase is the
      largest permitted one, and what is booked is the largest whole number of lots within it. */
  lemma PurchaseIsLargestPermitted(f: Formula, q: Request) returns (scale: real)
    requires f.Valid() && q.Valid() && q.action in {Buy, Add} && Unblocked(q) && Sized(f, q).Ok?
    ensures IsScale(f, q.volatility, scale)
    ensures var s := Sized(f, q).value;
            && (forall x: real :: x <= s.unroundedTarget - q.weight <==> Permitted(q, Times(f.intentWeights[q.intent], scale), x))
            && s.capacity.allowed == s.unroundedTarget - q.weight
            && IsWorth(s.unroundedDelta, s.unroundedTarget - q.weight, q)
            && 0.0 <= s.delta <= s.unroundedDelta < s.delta + q.lot && WholeLots(s.delta, q.lot)
            && s.targetQuantity == q.quantity + s.delta
            && IsWorth(s.delta, s.deltaWeight, q) && s.target == q.weight + s.deltaWeight
  {
    scale := Scale(f, q.volatility);
    ScaleIsScale(f, q.volatility);
    SizedFromPlan(f, q);
    PlannedTargetNonnegative(f, q);
    RoundedBounds(q, PlanTarget(f, q).value.target);
    var goal := Times(f.intentWeights[q.intent], scale);
    var increase := PlanTarget(f, q).value.target - q.weight;
    forall x: real ensures x <= increase <==> Permitted(q, goal, x) {
      PlannedIsPermitted(f, q, x);
    }
    SizedIsWorth(f, q);
    hide Sized, PlanTarget, Rounded, RawDelta, WholeLots, Permitted, IsScale, IsWorth, Scale, Times, Convert, Evaluate;
  }

  lemma PlannedIsPermitted(f: Formula, q: Request, x: real)
    requires f.Valid() && q.Valid() && q.action in {Buy, Add} && Unblocked(q) && PlanTarget(f, q).Ok?
    ensures x <= PlanTarget(f, q).value.target - q.weight
       <==> Permitted(q, Times(f.intentWeights[q.intent], Scale(f, q.volatility)), x)
  {
    var goal := Times(f.intentWeights[q.intent], Scale(f, q.volatility));
    AllowedIsLargestPermitted(q.policy, q.inputs, Wanted(f, q), x);
    HeadroomsLeave(q, x);
    hide Scale, Times, Available, Evaluate;
  }

  /** It fails as out of range in its request if the wanted weight exceeds the held one by more than the whole
      portfolio, otherwise in its target if some permitted increase leads beyond the whole portfolio. */
  lemma PurchaseErrors(f: Formula, q: Request) returns (scale: real)
    requires f.Valid() && q.Valid() && q.action in {Buy, Add} && Unblocked(q)
    ensures IsScale(f, q.volatility, scale)
    ensures var goal := Times(f.intentWeights[q.intent], scale);
            && (Sized(f, q) == Err(RequestOutOfRange) <==> 1.0 < goal - q.weight)
            && (Sized(f, q) == Err(TargetOutOfRange) <==>
                  goal - q.weight <= 1.0 && exists x :: 1.0 < q.weight + x && Permitted(q, goal, x))
  {
    scale := Scale(f, q.volatility);
    ScaleIsScale(f, q.volatility);
    var goal := Times(f.intentWeights[q.intent], scale);
    assert PlanTarget(f, q).Err? <==> 1.0 < goal - q.weight;
    SizedFromPlan(f, q);
    if PlanTarget(f, q).Ok? {
      var increase := PlanTarget(f, q).value.target - q.weight;
      forall x: real ensures x <= increase <==> Permitted(q, goal, x) {
        PlannedIsPermitted(f, q, x);
      }
      assert Sized(f, q).Err? ==> Sized(f, q).error == TargetOutOfRange;
      hide Sized, PlanTarget, Permitted, Scale, Times;
      assert Sized(f, q).Err? ==> Permitted(q, goal, increase);
    }
    hide IsScale, Times, Scale, Evaluate;
  }

  lemma HeadroomsLeave(q: Request, x: real)
    ensures (forall code: LimitCode :: x <= Available(q.policy, q.inputs, code)) <==>
            var p, i := q.policy, q.inputs;
            && (0.0 < x ==>
                  && i.instrument + i.pendingInstrument + x <= p.singleMax
                  && i.sector + i.pendingSector + x <= p.sectorMax
                  && i.gross + i.pendingGross + x <= p.grossMax
                  && i.gross + i.pendingGross + x <= 1.0 - p.minimumCash)
            && x <= i.riskBudget && x <= i.liquidity
  {
    var p, i := q.policy, q.inputs;
    if forall code: LimitCode :: x <= Available(p, i, code) {
      assert x <= Available(p, i, SingleInstrumentCap) && x <= Available(p, i, SectorCap);
      assert x <= Available(p, i, GrossExposureCap) && x <= Available(p, i, MinimumCashCap);
      assert x <= Available(p, i, RiskBudgetCap) && x <= Available(p, i, LiquidityCap);
    }
  }

  /** REDUCE aims at the weight less the fraction, EXIT at zero. What is sold is the fewest lots that cover the
      difference, or all that is held if they are more. */
  lemma SaleIsFewestLots(f: Formula, q: Request)
    requires f.Valid() && q.Valid() && q.action in {Reduce, Exit} && Sized(f, q).Ok?
    ensures var s := Sized(f, q).value;
            && s.unroundedTarget == (if q.action == Exit then 0.0 else Times(q.weight, 1.0 - f.reduceFraction))
            && IsWorth(s.unroundedDelta, s.unroundedTarget - q.weight, q)
            && -q.quantity <= s.delta <= s.unroundedDelta && (s.delta == -q.quantity || WholeLots(-s.delta, q.lot))
            && (s.unroundedDelta < 0.0 ==> forall m: nat :: -s.unroundedDelta <= Lots(m, q.lot) ==> -s.delta <= Lots(m, q.lot))
            && (s.unroundedDelta == 0.0 ==> s.delta == 0.0)
            && s.targetQuantity == q.quantity + s.delta
            && IsWorth(s.delta, s.deltaWeight, q) && s.target == q.weight + s.deltaWeight
  {
    var target := PlanTarget(f, q).value.target;
    SizedFromPlan(f, q);
    PlannedTargetNonnegative(f, q);
    SaleRounds(q, target);
    SizedIsWorth(f, q);
    hide Sized, Rounded, RawDelta, WholeLots, Lots, IsWorth, Times, Convert, Evaluate;
  }

  lemma SaleRounds(q: Request, target: Weight)
    requires q.Valid() && target <= q.weight
    ensures var raw, delta := RawDelta(q, target), Rounded(q, target);
            && -q.quantity <= delta <= raw <= 0.0 && (delta == -q.quantity || WholeLots(-delta, q.lot))
            && (raw < 0.0 ==> forall m: nat :: -raw <= Lots(m, q.lot) ==> -delta <= Lots(m, q.lot))
            && (raw == 0.0 ==> delta == 0.0)
  {
    RawDeltaSign(q, target);
    RoundZero(q.lot, q.quantity);
    hide RawDelta, RoundDelta, WholeLots, Convert;
    if target < q.weight {
      RoundsAwayFromHolding(RawDelta(q, target), q.lot, q.quantity);
    } else {
      RoundsDownToLots(0.0, q.lot, q.quantity);
    }
  }
}
