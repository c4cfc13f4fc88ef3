/** Position sizing: target weight from formula, gates and capacity, then conservative lot rounding. */
module Sizing {
  import opened Options
  import opened Enums
  import opened Capacity
  import opened Rounding

  datatype RiskIntent = NoRisk | Tiny | Small | Normal | High | ExitIntent

  /** Whether each recorded flag is HARD, and the instant the assessment stops authorizing risk. */
  datatype Assessment = Assessment(hardFlags: seq<bool>, expiresAt: int) {
    function Gate(): Gate {
      if hardFlags == [] then UnknownGate else if true in hardFlags then Veto else Pass
    }

    predicate Permits(a: Action) {
      Gate() == Pass || a in {Reduce, Exit}
    }

    predicate ActiveAt(asOf: int) {
      asOf < expiresAt
    }
  }

  datatype Formula = Formula(
    intentWeights: map<RiskIntent, Weight>, targetVolatility: real, volatilityFloor: real,
    scaleMin: real, scaleMax: real, reduceFraction: Weight)
  {
    predicate Valid() {
      && (forall intent: RiskIntent :: intent in intentWeights)
      && 0.0 < targetVolatility && 0.0 < volatilityFloor && 0.0 < scaleMin <= scaleMax
    }
  }

  datatype Request = Request(
    action: Action, intent: RiskIntent, weight: Weight, quantity: real, nav: real, price: real, lot: real,
    volatility: real, inputs: Inputs, policy: PositionPolicy, assessment: Assessment,
    thesis: ThesisState, asOf: int)
  {
    /** The constructor's checks; the last one ties the quantity to the weight. */
    predicate Valid() {
      && 0.0 < nav && 0.0 < price && 0.0 < volatility && 0.0 < lot && 0.0 <= quantity
      && quantity == Convert(weight, nav, price)
    }
  }

  datatype Reason =
    | AssessmentExpired
    | AssessmentUnknown
    | RiskVeto
    | ThesisBroken
    | DeterministicReduce
    | ExitReason
    | NoExposureChange
    | Limited(code: LimitCode)

  datatype Sizing = Sizing(
    unroundedTarget: Weight, target: Weight, deltaWeight: real, targetQuantity: real, delta: real,
    unroundedDelta: real, capacity: Capacity, reasons: set<Reason>)

  datatype Error = RequestOutOfRange | TargetOutOfRange

  // ---------------------------------------------------------------------------------------------
  // The sizing function
  // ---------------------------------------------------------------------------------------------

  function Times(a: real, b: real): real {
    a * b
  }

  function Scale(f: Formula, volatility: real): real
    requires f.Valid()
  {
    Min(Max(f.targetVolatility / Max(volatility, f.volatilityFloor), f.scaleMin), f.scaleMax)
  }

  /** The increase the formula asks for, before any limit. */
  function Wanted(f: Formula, q: Request): real
    requires f.Valid()
  {
    Max(0.0, Times(f.intentWeights[q.intent], Scale(f, q.volatility)) - q.weight)
  }

  datatype Plan = Plan(target: real, capacity: Capacity, reasons: set<Reason>)

  /** Buying or adding is not gated off. */
  predicate Unblocked(q: Request) {
    q.assessment.ActiveAt(q.asOf) && q.assessment.Gate() == Pass && q.thesis != Broken
  }

  function BlockedBecause(q: Request): Reason
    requires q.action in {Buy, Add} && !Unblocked(q)
  {
    if !q.assessment.ActiveAt(q.asOf) then AssessmentExpired
    else if q.assessment.Gate() == UnknownGate then AssessmentUnknown
    else if !q.assessment.Permits(q.action) then RiskVeto
    else ThesisBroken
  }

  function PlanTarget(f: Formula, q: Request): Result<Plan, Error>
    requires f.Valid() && q.Valid()
  {
    var idle := Evaluate(q.policy, q.inputs, 0.0);
    match q.action
    case Reduce => Ok(Plan(Times(q.weight, 1.0 - f.reduceFraction), idle, {DeterministicReduce}))
    case Exit => Ok(Plan(0.0, idle, {ExitReason}))
    case Buy => PlanIncrease(f, q)
    case Add => PlanIncrease(f, q)
    case _ => Ok(Plan(q.weight, idle, {NoExposureChange}))
  }

  function PlanIncrease(f: Formula, q: Request): Result<Plan, Error>
    requires f.Valid() && q.Valid() && q.action in {Buy, Add}
  {
    if !Unblocked(q) then Ok(Plan(q.weight, Evaluate(q.policy, q.inputs, 0.0), {BlockedBecause(q)}))
    else if 1.0 < Wanted(f, q) then Err(RequestOutOfRange)
    else
      var capacity := Evaluate(q.policy, q.inputs, Wanted(f, q));
      Ok(Plan(q.weight + capacity.allowed, capacity, ReasonsBelow(q, Wanted(f, q))))
  }

  function ReasonsBelow(q: Request, wanted: real): set<Reason> {
    set code | code in CODES && Available(q.policy, q.inputs, code) < wanted :: Limited(code)
  }

  function RawDelta(q: Request, target: real): real
    requires q.Valid()
  {
    Convert(target - q.weight, q.nav, q.price)
  }

  function Rounded(q: Request, target: real): real
    requires q.Valid()
  {
    RoundDelta(RawDelta(q, target), q.lot, q.quantity)
  }

  function SizingOf(q: Request, plan: Plan): Result<Sizing, Error>
    requires q.Valid()
  {
    var delta := Rounded(q, plan.target);
    var change := Convert(delta, q.price, q.nav);
    if 0.0 <= plan.target <= 1.0 && 0.0 <= q.quantity + delta && 0.0 <= q.weight + change <= 1.0 then
      Ok(Sizing(plan.target, q.weight + change, change, q.quantity + delta, delta,
                RawDelta(q, plan.target), plan.capacity, plan.reasons))
    else Err(TargetOutOfRange)
  }

  function Sized(f: Formula, q: Request): Result<Sizing, Error>
    requires f.Valid() && q.Valid()
  {
    match PlanTarget(f, q)
    case Err(e) => Err(e)
    case Ok(plan) => SizingOf(q, plan)
  }

  /** BUY and ADD: the gates in order, then the scaled target cut to what capacity allows. */
  method PlanPurchase(f: Formula, q: Request) returns (r: Result<Plan, Error>)
    requires f.Valid() && q.Valid() && q.action in {Buy, Add}
    ensures r == PlanIncrease(f, q)
  {
    hide Convert, Tightest, Times, Scale;
    var current: real := q.weight;
    var idle := Evaluate(q.policy, q.inputs, 0.0);
    if !q.assessment.ActiveAt(q.asOf) {
      r := Ok(Plan(current, idle, {AssessmentExpired}));
    } else if q.assessment.Gate() == UnknownGate {
      r := Ok(Plan(current, idle, {AssessmentUnknown}));
    } else if !q.assessment.Permits(q.action) {
      r := Ok(Plan(current, idle, {RiskVeto}));
    } else if q.thesis == Broken {
      r := Ok(Plan(current, idle, {ThesisBroken}));
    } else {
      var scale := f.targetVolatility / Max(q.volatility, f.volatilityFloor);
      scale := Min(Max(scale, f.scaleMin), f.scaleMax);
      ScaleIs(f, q.volatility, scale);
      var wanted := Max(0.0, Times(f.intentWeights[q.intent], scale) - current);
      assert wanted == Wanted(f, q);
      if 1.0 < wanted {
        return Err(RequestOutOfRange);
      }
      var capacity := Evaluate(q.policy, q.inputs, wanted);
      var reasons := {};
      if !capacity.HasRequested() {
        reasons := reasons + ReasonsBelow(q, wanted);
      } else {
        NothingBelowMetRequest(q, wanted);
      }
      assert reasons == ReasonsBelow(q, wanted);
      r := Ok(Plan(current + capacity.allowed, capacity, reasons));
    }
  }

  method SizePosition(f: Formula, q: Request) returns (r: Result<Sizing, Error>)
    requires f.Valid() && q.Valid()
    ensures r == Sized(f, q)
  {
    hide Convert, SizingOf, PlanIncrease, Times, Tightest;
    var target: real := q.weight;
    var reasons: set<Reason> := {NoExposureChange};
    if q.action in {Buy, Add} {
      var plan := PlanPurchase(f, q);
      return match plan case Err(e) => Err(e) case Ok(p) => SizingOf(q, p);
    } else if q.action == Reduce {
      target := Times(target, 1.0 - f.reduceFraction);
      reasons := {DeterministicReduce};
    } else if q.action == Exit {
      target := 0.0;
      reasons := {ExitReason};
    }
    r := SizingOf(q, Plan(target, Evaluate(q.policy, q.inputs, 0.0), reasons));
  }

  lemma ScaleIs(f: Formula, volatility: real, scale: real)
    requires f.Valid() && 0.0 < volatility
    requires scale == Min(Max(f.targetVolatility / Max(volatility, f.volatilityFloor), f.scaleMin), f.scaleMax)
    ensures scale == Scale(f, volatility)
  {
  }

  lemma NothingBelowMetRequest(q: Request, wanted: Weight)
    requires Evaluate(q.policy, q.inputs, wanted).HasRequested()
    ensures ReasonsBelow(q, wanted) == {}
  {
    AllowedIsLargestPermitted(q.policy, q.inputs, wanted, wanted);
  }

  // ---------------------------------------------------------------------------------------------
  // What one sizing guarantees
  // ---------------------------------------------------------------------------------------------

  /** The raw delta has the sign of the weight change, and converts back to it. */
  lemma RawDeltaSign(q: Request, target: real)
    requires q.Valid()
    ensures q.weight <= target ==> 0.0 <= RawDelta(q, target)
    ensures target < q.weight ==> RawDelta(q, target) < 0.0
    ensures 0.0 <= target ==> -q.quantity <= RawDelta(q, target)
    ensures Convert(RawDelta(q, target), q.price, q.nav) == target - q.weight
    ensures q.weight == target ==> RawDelta(q, target) == 0.0
    ensures target == 0.0 ==> RawDelta(q, target) == -q.quantity
  {
    var gap: real, weight: real := target - q.weight, q.weight;
    hide Convert;
    ConvertZero(q.nav, q.price);
    ConvertBack(gap, q.nav, q.price);
    ConvertAdd(weight, -weight, q.nav, q.price);
    if 0.0 <= gap {
      ConvertMonotone(0.0, gap, q.nav, q.price);
    } else {
      ConvertStrict(gap, 0.0, q.nav, q.price);
    }
    if -weight <= gap {
      ConvertMonotone(-weight, gap, q.nav, q.price);
    }
    assert weight + -weight == 0.0;
  }

  /** Converting the held quantity gives the held weight back. */
  lemma HeldWeight(q: Request)
    requires q.Valid()
    ensures Convert(q.quantity, q.price, q.nav) == q.weight
    ensures Convert(-q.quantity, q.price, q.nav) == 0.0 - q.weight
  {
    hide Convert;
    ConvertBack(q.weight, q.nav, q.price);
    ConvertAdd(q.quantity, -q.quantity, q.price, q.nav);
    ConvertZero(q.price, q.nav);
    assert q.quantity + -q.quantity == 0.0;
  }

  /** The rounded delta itself: lots, undershoot and overshoot. */
  lemma RoundedBounds(q: Request, target: real)
    requires q.Valid() && 0.0 <= target
    ensures var raw, delta := RawDelta(q, target), Rounded(q, target);
            && -q.quantity <= delta <= raw
            && (q.weight <= target ==> 0.0 <= delta && raw < delta + q.lot && WholeLots(delta, q.lot))
            && (target < q.weight ==>
                  && raw - q.lot < delta && (delta == -q.quantity || WholeLots(-delta, q.lot))
                  && delta <= -Min(q.quantity, q.lot))
  {
    RawDeltaSign(q, target);
    hide Convert, RoundDelta, RawDelta;
    if q.weight <= target {
      RoundsDownToLots(RawDelta(q, target), q.lot, q.quantity);
    } else {
      RoundsAwayFromHolding(RawDelta(q, target), q.lot, q.quantity);
    }
  }

  /** Rounding keeps a purchase between the current weight and the unrounded target, and a sale between
      zero and the unrounded target. */
  lemma RoundedWeightInRange(q: Request, target: real)
    requires q.Valid() && 0.0 <= target
    ensures var change := Convert(Rounded(q, target), q.price, q.nav);
            && 0.0 <= q.quantity + Rounded(q, target)
            && 0.0 <= q.weight + change <= target
            && (q.weight <= target ==> 0.0 <= change)
  {
    RawDeltaSign(q, target);
    RoundedBounds(q, target);
    HeldWeight(q);
    ConvertZero(q.price, q.nav);
    var raw, delta := RawDelta(q, target), Rounded(q, target);
    hide Convert, Rounded, RawDelta;
    ConvertMonotone(delta, raw, q.price, q.nav);
    ConvertMonotone(-q.quantity, delta, q.price, q.nav);
    if q.weight <= target {
      ConvertMonotone(0.0, delta, q.price, q.nav);
    }
  }

  lemma RemainderOf(weight: Weight, fraction: Weight)
    ensures 0.0 <= Times(weight, 1.0 - fraction) <= weight
  {
    ScaleUp(0.0, 1.0 - fraction, weight);
    ScaleUp(1.0 - fraction, 1.0, weight);
  }

  lemma PlannedTargetNonnegative(f: Formula, q: Request)
    requires f.Valid() && q.Valid() && PlanTarget(f, q).Ok?
    ensures 0.0 <= PlanTarget(f, q).value.target
    ensures q.action in {Buy, Add} ==> q.weight <= PlanTarget(f, q).value.target
    ensures q.action == Reduce ==> PlanTarget(f, q).value.target <= q.weight
    ensures q.action !in {Buy, Add} ==> PlanTarget(f, q).value.target <= 1.0
    ensures q.action in {Buy, Add} && !Unblocked(q) ==> PlanTarget(f, q).value.target <= 1.0
  {
    hide Convert, Wanted, Times, Tightest, Available;
    RemainderOf(q.weight, f.reduceFraction);
  }

  lemma SizedFromPlan(f: Formula, q: Request)
    requires f.Valid() && q.Valid()
    ensures Sized(f, q).Ok? <==> PlanTarget(f, q).Ok? && PlanTarget(f, q).value.target <= 1.0
    ensures Sized(f, q).Ok? ==>
              var s, plan := Sized(f, q).value, PlanTarget(f, q).value;
              && s.unroundedTarget == plan.target && s.capacity == plan.capacity && s.reasons == plan.reasons
              && s.unroundedDelta == RawDelta(q, plan.target) && s.delta == Rounded(q, plan.target)
              && s.deltaWeight == Convert(s.delta, q.price, q.nav)
              && s.target == q.weight + s.deltaWeight && s.targetQuantity == q.quantity + s.delta
  {
    if PlanTarget(f, q).Ok? {
      PlannedTargetNonnegative(f, q);
      RoundedWeightInRange(q, PlanTarget(f, q).value.target);
    }
    hide Convert, Rounded, RawDelta, PlanTarget;
  }

  /** Sizing fails only when a purchase wants more than the whole portfolio, in request or in target. */
  lemma SizingFailsExactlyWhen(f: Formula, q: Request)
    requires f.Valid() && q.Valid()
    ensures Sized(f, q).Err? <==>
            && q.action in {Buy, Add} && Unblocked(q)
            && (1.0 < Wanted(f, q) || 1.0 < q.weight + Evaluate(q.policy, q.inputs, Wanted(f, q)).allowed)
  {
    SizedFromPlan(f, q);
    if PlanTarget(f, q).Ok? {
      PlannedTargetNonnegative(f, q);
    }
    hide Sized, Convert, Wanted;
  }

  /** The result can feed the next request: quantity and weight reconcile again. */
  lemma ResultReconciles(f: Formula, q: Request)
    requires f.Valid() && q.Valid() && Sized(f, q).Ok?
    ensures var s := Sized(f, q).value;
            q.(weight := s.target, quantity := s.targetQuantity).Valid()
  {
    var s := Sized(f, q).value;
    SizedFromPlan(f, q);
    PlannedTargetNonnegative(f, q);
    RoundedBounds(q, PlanTarget(f, q).value.target);
    hide Sized, PlanTarget, Convert, Rounded, RawDelta;
    ConvertAdd(q.weight, s.deltaWeight, q.nav, q.price);
    ConvertBack(s.delta, q.price, q.nav);
  }

  /** A purchase is a whole number of lots, undershoots its unrounded target by less than one lot, and
      adds no more weight than was wanted or than any limit leaves. */
  lemma PurchaseIsWithinEveryLimit(f: Formula, q: Request, code: LimitCode)
    requires f.Valid() && q.Valid() && q.action in {Buy, Add} && Sized(f, q).Ok?
    ensures var s := Sized(f, q).value;
            && WholeLots(s.delta, q.lot)
            && 0.0 <= s.unroundedDelta - s.delta < q.lot
            && 0.0 <= s.deltaWeight <= Wanted(f, q)
            && s.deltaWeight <= Available(q.policy, q.inputs, code)
            && (!Unblocked(q) ==> s.delta == 0.0)
  {
    var s, target := Sized(f, q).value, PlanTarget(f, q).value.target;
    SizedFromPlan(f, q);
    PlannedTargetNonnegative(f, q);
    RoundedBounds(q, target);
    RoundedWeightInRange(q, target);
    RawDeltaSign(q, target);
    hide Sized, Convert, Rounded, RawDelta, Available, Evaluate, WholeLots;
    IncreaseIsWithinEveryLimit(f, q, code);
  }

  lemma IncreaseIsWithinEveryLimit(f: Formula, q: Request, code: LimitCode)
    requires f.Valid() && q.Valid() && q.action in {Buy, Add} && PlanTarget(f, q).Ok?
    ensures var increase := PlanTarget(f, q).value.target - q.weight;
            increase <= Wanted(f, q) && increase <= Available(q.policy, q.inputs, code)
    ensures !Unblocked(q) ==> PlanTarget(f, q).value.target == q.weight
  {
    hide Convert, Scale, Evaluate;
    if Unblocked(q) {
      AllowedIsLargestPermitted(q.policy, q.inputs, Wanted(f, q), PlanTarget(f, q).value.target - q.weight);
    }
  }

  /** With an active PASS and an unbroken thesis, the reason codes are exactly the limits below the request. */
  lemma ReasonsAreTheBindingLimits(f: Formula, q: Request, reason: Reason)
    requires f.Valid() && q.Valid() && q.action in {Buy, Add} && Unblocked(q) && Sized(f, q).Ok?
    ensures reason in Sized(f, q).value.reasons <==>
            reason.Limited? && Available(q.policy, q.inputs, reason.code) < Wanted(f, q)
    ensures Sized(f, q).value.reasons == {} <==> Sized(f, q).value.capacity.allowed == Wanted(f, q)
  {
    SizedFromPlan(f, q);
    hide Sized, Convert, Scale, Rounded, RawDelta, Available, Evaluate, Wanted, Unblocked;
    AllowedIsLargestPermitted(q.policy, q.inputs, Wanted(f, q), Wanted(f, q));
    BelowIffLimited(q, Wanted(f, q));
  }

  lemma BelowIffLimited(q: Request, wanted: Weight)
    ensures forall reason: Reason :: reason in ReasonsBelow(q, wanted) <==>
              reason.Limited? && Available(q.policy, q.inputs, reason.code) < wanted
    ensures Evaluate(q.policy, q.inputs, wanted).allowed == wanted <==> ReasonsBelow(q, wanted) == {}
  {
    AllowedIsLargestPermitted(q.policy, q.inputs, wanted, wanted);
    hide Available, Tightest;
    forall code: LimitCode ensures code in CODES {
      AllCodes(code);
    }
    if exists code: LimitCode :: Available(q.policy, q.inputs, code) < wanted {
      var code: LimitCode :| Available(q.policy, q.inputs, code) < wanted;
      assert Limited(code) in ReasonsBelow(q, wanted);
    }
  }

  /** REDUCE removes at least the asked fraction, less than one lot more, at least one lot or all that is
      left, and never more than is held. */
  lemma ReductionBounds(f: Formula, q: Request)
    requires f.Valid() && q.Valid() && q.action == Reduce
    ensures Sized(f, q).Ok?
    ensures var removed := -Sized(f, q).value.delta;
            && f.reduceFraction * q.quantity <= removed <= q.quantity
            && removed < f.reduceFraction * q.quantity + q.lot
            && (0.0 < f.reduceFraction ==> Min(q.quantity, q.lot) <= removed)
  {
    SizedFromPlan(f, q);
    PlannedTargetNonnegative(f, q);
    ReductionRaw(f, q);
    var target := PlanTarget(f, q).value.target;
    RoundedBounds(q, target);
    RawDeltaSign(q, target);
    hide Sized, PlanTarget, Convert, Rounded, RawDelta, WholeLots;
  }

  lemma ReductionRaw(f: Formula, q: Request)
    requires f.Valid() && q.Valid() && q.action == Reduce
    ensures var target := PlanTarget(f, q).value.target;
            && RawDelta(q, target) == -(f.reduceFraction * q.quantity)
            && (target == q.weight ==> Rounded(q, target) == 0.0)
            && (target == q.weight && 0.0 < f.reduceFraction ==> q.quantity == 0.0)
  {
    var fraction: real, weight: real := f.reduceFraction, q.weight;
    var target := PlanTarget(f, q).value.target;
    assert target - weight == -fraction * weight;
    ConvertScale(-fraction, weight, q.nav, q.price);
    assert -fraction * q.quantity == -(fraction * q.quantity);
    RawDeltaSign(q, target);
    RoundZero(q.lot, q.quantity);
    if 0.0 < fraction && 0.0 < q.quantity {
      ScaleUpStrictly(0.0, fraction, q.quantity);
    }
  }

  /** EXIT lands on exactly zero, odd lots included. */
  lemma ExitEmptiesPosition(f: Formula, q: Request)
    requires f.Valid() && q.Valid() && q.action == Exit
    ensures Sized(f, q).Ok? && Sized(f, q).value.targetQuantity == 0.0 && Sized(f, q).value.target == 0.0
  {
    SizedFromPlan(f, q);
    RoundedBounds(q, 0.0);
    RawDeltaSign(q, 0.0);
    HeldWeight(q);
    hide Sized, Convert, Rounded, RawDelta;
  }
}
