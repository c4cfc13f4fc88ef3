/** Sizings that follow one another, and sizings compared side by side. */
module SizingRuns {
  import opened Options
  import opened Enums
  import opened Rounding
  import opened Capacity
  import opened Sizing

  // ---------------------------------------------------------------------------------------------
  // Caps over any sequence of purchases
  // ---------------------------------------------------------------------------------------------

  datatype Exposure = Exposure(current: real, pending: real) {
    function Used(): real {
      current + pending
    }

    /** Books an increase as held or as still pending. */
    function Book(delta: real, asPending: bool): Exposure {
      if asPending then Exposure(current, pending + delta) else Exposure(current + delta, pending)
    }
  }

  datatype Totals = Totals(instruments: map<nat, Exposure>, sectors: map<nat, Exposure>, gross: Exposure)

  function At(m: map<nat, Exposure>, key: nat): Exposure {
    if key in m then m[key] else Exposure(0.0, 0.0)
  }

  /** A purchase of one instrument of one sector; its capacity inputs come from the totals. */
  datatype Order = Order(
    instrument: nat, sector: nat, request: Request, riskBudget: Weight, liquidity: Weight, asPending: bool)

  predicate IsWeight(x: real) {
    0.0 <= x <= 1.0
  }

  predicate Fits(e: Exposure) {
    IsWeight(e.current) && IsWeight(e.pending)
  }

  predicate Askable(t: Totals, o: Order) {
    Fits(At(t.instruments, o.instrument)) && Fits(At(t.sectors, o.sector)) && Fits(t.gross)
  }

  function RequestFor(t: Totals, o: Order): Request
    requires Askable(t, o)
  {
    var i, s := At(t.instruments, o.instrument), At(t.sectors, o.sector);
    o.request.(inputs := Inputs(i.current, s.current, t.gross.current, i.pending, s.pending, t.gross.pending,
                                o.riskBudget, o.liquidity))
  }

  /** The weight a purchase adds; nothing when it is no purchase or cannot be sized. */
  function Bought(f: Formula, t: Totals, o: Order): real
    requires f.Valid() && o.request.Valid()
  {
    if o.request.action in {Buy, Add} && Askable(t, o) && Sized(f, RequestFor(t, o)).Ok?
    then Sized(f, RequestFor(t, o)).value.deltaWeight else 0.0
  }

  function Booked(f: Formula, t: Totals, o: Order): Totals
    requires f.Valid() && o.request.Valid()
  {
    var delta := Bought(f, t, o);
    Totals(t.instruments[o.instrument := At(t.instruments, o.instrument).Book(delta, o.asPending)],
           t.sectors[o.sector := At(t.sectors, o.sector).Book(delta, o.asPending)],
           t.gross.Book(delta, o.asPending))
  }

  predicate OrdersUnder(p: PositionPolicy, orders: seq<Order>) {
    forall o :: o in orders ==> o.request.Valid() && o.request.policy == p
  }

  function Run(f: Formula, t: Totals, orders: seq<Order>): Totals
    requires f.Valid() && forall o :: o in orders ==> o.request.Valid()
  {
    if orders == [] then t else Booked(f, Run(f, t, orders[..|orders| - 1]), orders[|orders| - 1])
  }

  lemma BoughtIsWithinLimit(f: Formula, t: Totals, o: Order, code: LimitCode)
    requires f.Valid() && o.request.Valid() && Askable(t, o)
    ensures 0.0 <= Bought(f, t, o)
    ensures Bought(f, t, o) <= Available(o.request.policy, RequestFor(t, o).inputs, code)
  {
    var q := RequestFor(t, o);
    hide Available, Convert, Sized, Wanted;
    if o.request.action in {Buy, Add} && Sized(f, q).Ok? {
      PurchaseIsWithinEveryLimit(f, q, code);
    }
  }

  lemma BoughtIsWithinHeadrooms(f: Formula, t: Totals, o: Order)
    requires f.Valid() && o.request.Valid()
    ensures var p, d := o.request.policy, Bought(f, t, o);
            && 0.0 <= d
            && d <= Max(0.0, p.singleMax - At(t.instruments, o.instrument).Used())
            && d <= Max(0.0, p.sectorMax - At(t.sectors, o.sector).Used())
            && d <= Max(0.0, p.grossMax - t.gross.Used())
            && d <= Max(0.0, 1.0 - p.minimumCash - t.gross.Used())
            && d <= o.riskBudget && d <= o.liquidity
  {
    hide Available, At, Max, Exposure.Used, RequestFor, Bought;
    if Askable(t, o) {
      HeadroomsOf(t, o);
      BoughtIsWithinLimit(f, t, o, SingleInstrumentCap);
      BoughtIsWithinLimit(f, t, o, SectorCap);
      BoughtIsWithinLimit(f, t, o, GrossExposureCap);
      BoughtIsWithinLimit(f, t, o, MinimumCashCap);
      BoughtIsWithinLimit(f, t, o, RiskBudgetCap);
      BoughtIsWithinLimit(f, t, o, LiquidityCap);
    } else {
      UnaskableBuysNothing(f, t, o);
      AtLeastFirst(0.0, o.request.policy.singleMax - At(t.instruments, o.instrument).Used());
      AtLeastFirst(0.0, o.request.policy.sectorMax - At(t.sectors, o.sector).Used());
      AtLeastFirst(0.0, o.request.policy.grossMax - t.gross.Used());
      AtLeastFirst(0.0, 1.0 - o.request.policy.minimumCash - t.gross.Used());
    }
  }

  lemma AtLeastFirst(a: real, b: real)
    ensures a <= Max(a, b)
  {
  }

  lemma UnaskableBuysNothing(f: Formula, t: Totals, o: Order)
    requires f.Valid() && o.request.Valid() && !Askable(t, o)
    ensures Bought(f, t, o) == 0.0
  {
  }

  lemma HeadroomsOf(t: Totals, o: Order)
    requires Askable(t, o)
    ensures var p, i := o.request.policy, RequestFor(t, o).inputs;
            && Available(p, i, SingleInstrumentCap) == Max(0.0, p.singleMax - At(t.instruments, o.instrument).Used())
            && Available(p, i, SectorCap) == Max(0.0, p.sectorMax - At(t.sectors, o.sector).Used())
            && Available(p, i, GrossExposureCap) == Max(0.0, p.grossMax - t.gross.Used())
            && Available(p, i, MinimumCashCap) == Max(0.0, 1.0 - p.minimumCash - t.gross.Used())
            && Available(p, i, RiskBudgetCap) == o.riskBudget && Available(p, i, LiquidityCap) == o.liquidity
  {
    hide At, Max;
  }

  ghost predicate CapHolds(cap: real, start: map<nat, Exposure>, m: map<nat, Exposure>) {
    forall key :: At(m, key).Used() <= Max(cap, At(start, key).Used())
  }

  /** No total of the portfolio is above `cap`, or above what it was at the start if that was more. */
  ghost predicate WithinCaps(p: PositionPolicy, start: Totals, t: Totals) {
    && CapHolds(p.singleMax, start.instruments, t.instruments)
    && CapHolds(p.sectorMax, start.sectors, t.sectors)
    && t.gross.Used() <= Max(p.grossMax, start.gross.Used())
    && t.gross.Used() <= Max(1.0 - p.minimumCash, start.gross.Used())
  }

  lemma AtUpdated(m: map<nat, Exposure>, key: nat, e: Exposure, any: nat)
    ensures At(m[key := e], any) == if any == key then e else At(m, any)
  {
  }

  lemma BookingAdds(e: Exposure, delta: real, asPending: bool)
    ensures e.Book(delta, asPending).Used() == e.Used() + delta
  {
  }

  lemma IncreaseKeepsCap(used: real, delta: real, cap: real, start: real)
    requires 0.0 <= delta <= Max(0.0, cap - used) && used <= Max(cap, start)
    ensures used + delta <= Max(cap, start)
  {
  }

  lemma BookingKeepsCap(m: map<nat, Exposure>, key: nat, delta: real, asPending: bool, cap: real, any: nat, start: real)
    requires 0.0 <= delta <= Max(0.0, cap - At(m, key).Used())
    requires At(m, any).Used() <= Max(cap, start)
    ensures At(m[key := At(m, key).Book(delta, asPending)], any).Used() <= Max(cap, start)
  {
    hide At, Max, Exposure.Book, Exposure.Used;
    var e := At(m, key).Book(delta, asPending);
    AtUpdated(m, key, e, any);
    BookingAdds(At(m, key), delta, asPending);
    if any == key {
      IncreaseKeepsCap(At(m, key).Used(), delta, cap, start);
    }
  }

  lemma BookingKeepsCapEverywhere(m: map<nat, Exposure>, key: nat, delta: real, asPending: bool, cap: real, start: map<nat, Exposure>)
    requires CapHolds(cap, start, m)
    requires 0.0 <= delta <= Max(0.0, cap - At(m, key).Used())
    ensures CapHolds(cap, start, m[key := At(m, key).Book(delta, asPending)])
  {
    hide At, Max, Exposure.Book, Exposure.Used;
    forall any ensures At(m[key := At(m, key).Book(delta, asPending)], any).Used() <= Max(cap, At(start, any).Used()) {
      BookingKeepsCap(m, key, delta, asPending, cap, any, At(start, any).Used());
    }
  }

  lemma GrossKeepsCap(gross: Exposure, delta: real, asPending: bool, cap: real, start: real)
    requires 0.0 <= delta <= Max(0.0, cap - gross.Used()) && gross.Used() <= Max(cap, start)
    ensures gross.Book(delta, asPending).Used() <= Max(cap, start)
  {
    hide Max, Exposure.Book, Exposure.Used;
    BookingAdds(gross, delta, asPending);
    IncreaseKeepsCap(gross.Used(), delta, cap, start);
  }

  lemma IncreaseKeepsCaps(p: PositionPolicy, start: Totals, t: Totals, instrument: nat, sector: nat, d: real, asPending: bool)
    requires WithinCaps(p, start, t) && 0.0 <= d
    requires d <= Max(0.0, p.singleMax - At(t.instruments, instrument).Used())
    requires d <= Max(0.0, p.sectorMax - At(t.sectors, sector).Used())
    requires d <= Max(0.0, p.grossMax - t.gross.Used())
    requires d <= Max(0.0, 1.0 - p.minimumCash - t.gross.Used())
    ensures WithinCaps(p, start, Totals(
              t.instruments[instrument := At(t.instruments, instrument).Book(d, asPending)],
              t.sectors[sector := At(t.sectors, sector).Book(d, asPending)],
              t.gross.Book(d, asPending)))
  {
    hide At, Max, CapHolds, Exposure.Book, Exposure.Used;
    BookingKeepsCapEverywhere(t.instruments, instrument, d, asPending, p.singleMax, start.instruments);
    BookingKeepsCapEverywhere(t.sectors, sector, d, asPending, p.sectorMax, start.sectors);
    GrossKeepsCap(t.gross, d, asPending, p.grossMax, start.gross.Used());
    GrossKeepsCap(t.gross, d, asPending, 1.0 - p.minimumCash, start.gross.Used());
  }

  lemma StepKeepsCaps(p: PositionPolicy, f: Formula, start: Totals, t: Totals, o: Order)
    requires f.Valid() && o.request.Valid() && o.request.policy == p && WithinCaps(p, start, t)
    ensures WithinCaps(p, start, Booked(f, t, o))
  {
    hide WithinCaps, Bought, At, Max, Exposure.Book, Exposure.Used;
    BoughtIsWithinHeadrooms(f, t, o);
    IncreaseKeepsCaps(p, start, t, o.instrument, o.sector, Bought(f, t, o), o.asPending);
  }

  lemma NoCapPassedAtStart(cap: real, start: map<nat, Exposure>)
    ensures CapHolds(cap, start, start)
  {
    hide At, Exposure.Used;
  }

  lemma StartIsWithinCaps(p: PositionPolicy, start: Totals)
    ensures WithinCaps(p, start, start)
  {
    NoCapPassedAtStart(p.singleMax, start.instruments);
    NoCapPassedAtStart(p.sectorMax, start.sectors);
    hide CapHolds, Exposure.Used;
  }

  /** Along any sequence of sized purchases, each booked as held or pending, no instrument, sector, gross
      or cash limit is ever passed that was not already passed at the start. */
  lemma {:induction false} PurchasesNeverPassCaps(p: PositionPolicy, f: Formula, start: Totals, orders: seq<Order>)
    requires f.Valid() && OrdersUnder(p, orders)
    ensures WithinCaps(p, start, Run(f, start, orders))
  {
    hide WithinCaps, Booked;
    StartIsWithinCaps(p, start);
    if orders != [] {
      var prefix, last := orders[..|orders| - 1], orders[|orders| - 1];
      PurchasesNeverPassCaps(p, f, start, prefix);
      assert last in orders;
      StepKeepsCaps(p, f, start, Run(f, start, prefix), last);
    }
  }

  // ---------------------------------------------------------------------------------------------
  // Repeated REDUCE
  // ---------------------------------------------------------------------------------------------

  function AfterReduction(f: Formula, q: Request): (r: Request)
    requires f.Valid() && q.Valid() && q.action == Reduce
    ensures r.Valid() && r.action == Reduce && r.lot == q.lot
  {
    ReductionBounds(f, q);
    ResultReconciles(f, q);
    q.(weight := Sized(f, q).value.target, quantity := Sized(f, q).value.targetQuantity)
  }

  /** The request after `n` reductions, each fed with the result of the one before. */
  function ReducedTimes(f: Formula, q: Request, n: nat): (r: Request)
    requires f.Valid() && q.Valid() && q.action == Reduce
    ensures r.Valid() && r.action == Reduce && r.lot == q.lot
  {
    if n == 0 then q else AfterReduction(f, ReducedTimes(f, q, n - 1))
  }

  lemma OneReduction(f: Formula, q: Request)
    requires f.Valid() && q.Valid() && q.action == Reduce && 0.0 < f.reduceFraction
    ensures 0.0 <= AfterReduction(f, q).quantity <= Max(0.0, q.quantity - q.lot)
  {
    ReductionBounds(f, q);
    SizedFromPlan(f, q);
    hide PlanTarget, SizingOf, Convert, Rounded;
  }

  lemma {:induction false} ReductionsRemoveALotEach(f: Formula, q: Request, n: nat)
    requires f.Valid() && q.Valid() && q.action == Reduce && 0.0 < f.reduceFraction
    ensures 0.0 <= ReducedTimes(f, q, n).quantity <= Max(0.0, q.quantity - Lots(n, q.lot))
  {
    if n > 0 {
      ReductionsRemoveALotEach(f, q, n - 1);
      hide AfterReduction, Lots;
      OneReduction(f, ReducedTimes(f, q, n - 1));
      NextLot(n, q.lot);
    } else {
      assert Lots(0, q.lot) == 0.0;
    }
  }

  lemma NextLot(n: int, lot: real)
    ensures Lots(n, lot) == Lots(n - 1, lot) + lot
  {
    OneMore(n as real - 1.0, lot);
  }

  /** With a positive fraction, reducing again and again empties the position within as many steps as it
      has lots, counting a started lot. */
  lemma ReductionsTerminate(f: Formula, q: Request, n: nat)
    requires f.Valid() && q.Valid() && q.action == Reduce && 0.0 < f.reduceFraction
    requires Ceiling(q.quantity / q.lot) <= n
    ensures ReducedTimes(f, q, n).quantity == 0.0
  {
    hide ReducedTimes, Ceiling, Lots;
    LotsCover(q.quantity, q.lot, n);
    ReductionsRemoveALotEach(f, q, n);
  }

  // ---------------------------------------------------------------------------------------------
  // Two sizings side by side
  // ---------------------------------------------------------------------------------------------

  /** What a sale removes depends neither on the risk assessment nor on thesis or capacity. */
  lemma SalesIgnoreRiskAndCapacity(f: Formula, q: Request, i: Inputs, a: Assessment, thesis: ThesisState)
    requires f.Valid() && q.Valid() && q.action in {Reduce, Exit}
    ensures var q' := q.(inputs := i, assessment := a, thesis := thesis);
            && Sized(f, q).Ok? && Sized(f, q').Ok?
            && Sized(f, q).value.(capacity := Sized(f, q').value.capacity) == Sized(f, q').value
  {
    var q' := q.(inputs := i, assessment := a, thesis := thesis);
    SizingFailsExactlyWhen(f, q);
    SizingFailsExactlyWhen(f, q');
    SizedFromPlan(f, q);
    SizedFromPlan(f, q');
    hide Sized, Convert, RoundDelta, Times, Evaluate;
  }

  /** A larger planned target of the same request books at least as much. */
  lemma PurchaseMonotone(f: Formula, q: Request, q': Request)
    requires f.Valid() && q.Valid() && q'.Valid() && q.action in {Buy, Add} && q'.action in {Buy, Add}
    requires q.nav == q'.nav && q.price == q'.price && q.lot == q'.lot
    requires q.weight == q'.weight && q.quantity == q'.quantity
    requires Sized(f, q).Ok? && Sized(f, q').Ok?
    requires PlanTarget(f, q).value.target <= PlanTarget(f, q').value.target
    ensures Sized(f, q).value.delta <= Sized(f, q').value.delta
  {
    var w, w' := PlanTarget(f, q).value.target, PlanTarget(f, q').value.target;
    SizedFromPlan(f, q);
    SizedFromPlan(f, q');
    PlannedTargetNonnegative(f, q);
    RawDeltaSign(q, w);
    hide Sized, PlanTarget, Convert, RoundDelta;
    ConvertMonotone(w - q.weight, w' - q.weight, q.nav, q.price);
    RoundMonotone(RawDelta(q, w), RawDelta(q', w'), q.lot, q.quantity);
  }

  lemma ScaleAntitone(f: Formula, v: real, v': real)
    requires f.Valid() && 0.0 < v <= v'
    ensures Scale(f, v') <= Scale(f, v)
  {
    DivideAntitone(f.targetVolatility, Max(v, f.volatilityFloor), Max(v', f.volatilityFloor));
  }

  lemma TimesMonotone(k: real, a: real, b: real)
    requires 0.0 <= k && a <= b
    ensures Times(k, a) <= Times(k, b)
  {
    ScaleUp(a, b, k);
  }

  lemma WantedAntitone(f: Formula, q: Request, v: real)
    requires f.Valid() && q.Valid() && q.volatility <= v
    ensures Wanted(f, q.(volatility := v)) <= Wanted(f, q)
  {
    ScaleAntitone(f, q.volatility, v);
    hide Scale, Times;
    TimesMonotone(f.intentWeights[q.intent], Scale(f, v), Scale(f, q.volatility));
  }

  /** A more volatile instrument is never bought in larger size. */
  lemma DeltaNonIncreasingInVolatility(f: Formula, q: Request, v: real)
    requires f.Valid() && q.Valid() && q.action in {Buy, Add} && q.volatility <= v
    requires Sized(f, q).Ok? && Sized(f, q.(volatility := v)).Ok?
    ensures Sized(f, q.(volatility := v)).value.delta <= Sized(f, q).value.delta
  {
    var q' := q.(volatility := v);
    WantedAntitone(f, q, v);
    assert PlanTarget(f, q').value.target <= PlanTarget(f, q).value.target by {
      hide Wanted, Tightest, Convert;
    }
    hide PlanTarget, Sized, Convert;
    PurchaseMonotone(f, q', q);
  }

  lemma TightestMonotone(p: PositionPolicy, i: Inputs, p': PositionPolicy, i': Inputs)
    requires forall code: LimitCode :: Available(p, i, code) <= Available(p', i', code)
    ensures Tightest(p, i) <= Tightest(p', i')
  {
    hide Headroom;
    assert Available(p, i, SingleInstrumentCap) <= Available(p', i', SingleInstrumentCap);
    assert Available(p, i, SectorCap) <= Available(p', i', SectorCap);
    assert Available(p, i, GrossExposureCap) <= Available(p', i', GrossExposureCap);
    assert Available(p, i, MinimumCashCap) <= Available(p', i', MinimumCashCap);
    assert Available(p, i, RiskBudgetCap) <= Available(p', i', RiskBudgetCap);
    assert Available(p, i, LiquidityCap) <= Available(p', i', LiquidityCap);
  }

  /** Widening any headroom, with none narrowed, never shrinks a purchase. */
  lemma DeltaNonDecreasingInHeadroom(f: Formula, q: Request, p: PositionPolicy, i: Inputs)
    requires f.Valid() && q.Valid() && q.action in {Buy, Add}
    requires forall code: LimitCode :: Available(q.policy, q.inputs, code) <= Available(p, i, code)
    requires Sized(f, q).Ok? && Sized(f, q.(policy := p, inputs := i)).Ok?
    ensures Sized(f, q).value.delta <= Sized(f, q.(policy := p, inputs := i)).value.delta
  {
    var q' := q.(policy := p, inputs := i);
    TightestMonotone(q.policy, q.inputs, p, i);
    assert PlanTarget(f, q).value.target <= PlanTarget(f, q').value.target by {
      hide Available, Tightest, Scale, Convert, Times;
    }
    hide PlanTarget, Sized, Convert, Available;
    PurchaseMonotone(f, q, q');
  }
}
