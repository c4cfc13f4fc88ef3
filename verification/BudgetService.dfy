/** Worst-case quotes before a model call, settlement of what the provider reports after it. */
module BudgetService {
  import opened Options
  import opened Texts
  import opened Amounts
  import opened BudgetLedger
  import opened BudgetRuns
  import opened BudgetLocks
  import opened BudgetClashes

  /** Prices are optional on a stored profile; `maxTokens` was checked positive when it was stored. */
  datatype Profile = Profile(
    id: nat, pricingVersion: Option<string>, currency: Option<string>,
    inputPrice: Option<real>, outputPrice: Option<real>, maxTokens: nat)

  /** Prompt texts appear only through the length of their UTF-8 encoding. */
  datatype GatewayRequest = GatewayRequest(
    requestId: TaskId, systemBytes: Option<nat>, payloadBytes: Option<nat>, maxOutputTokens: nat)

  datatype QuoteError = NoPolicy | InvalidPolicy | NoPricing | InvalidPricing | CurrencyMismatch | NoPrompt
  datatype ReserveError = Unquotable(cause: QuoteError) | WouldExceedBudget | IdTaken
  datatype SettleError = NegativeUsage | ExceedsCapacity | StoreRefused(outcome: Outcome)

  const PROMPT_OVERHEAD: nat := 256

  predicate ValidPolicy(p: Policy) {
    && !Blank(p.version) && !Blank(p.currency)
    && 0 < p.task.tokens && 0 < p.daily.tokens
    && 0.0 <= p.task.cost && 0.0 <= p.daily.cost
  }

  function PricingFor(profile: Profile): Result<Pricing, QuoteError> {
    match (profile.pricingVersion, profile.currency, profile.inputPrice, profile.outputPrice)
    case (Some(version), Some(currency), Some(i), Some(o)) =>
      if Blank(version) || Blank(currency) then Err(NoPricing)
      else if i < 0.0 || o < 0.0 then Err(InvalidPricing)
      else Ok(Pricing(version, currency, i, o))
    case _ => Err(NoPricing)
  }

  function WorstCaseInputTokens(g: GatewayRequest): Result<nat, QuoteError> {
    match (g.systemBytes, g.payloadBytes)
    case (Some(s), Some(p)) => Ok(s + p + PROMPT_OVERHEAD)
    case _ => Err(NoPrompt)
  }

  function Min(a: nat, b: nat): nat {
    if a <= b then a else b
  }

  function Quote(policy: Option<Policy>, profile: Profile, g: GatewayRequest, day: Day): Result<Request, QuoteError> {
    if policy.None? then Err(NoPolicy)
    else if !ValidPolicy(policy.value) then Err(InvalidPolicy)
    else
      match PricingFor(profile)
      case Err(e) => Err(e)
      case Ok(pricing) =>
        if pricing.currency != policy.value.currency then Err(CurrencyMismatch)
        else
          match WorstCaseInputTokens(g)
          case Err(e) => Err(e)
          case Ok(input) =>
            var output := Min(profile.maxTokens, g.maxOutputTokens);
            Ok(Request(g.requestId, profile.id, day, pricing, input, output, pricing.CostOf(input, output)))
  }

  /** What the caller gets back: a frozen copy of the reservation row. */
  datatype Receipt = Receipt(id: ReservationId, record: Reservation)

  function ServiceReserve(b: Books, id: ReservationId, policy: Option<Policy>, profile: Profile, g: GatewayRequest, day: Day)
    : (Books, Result<Receipt, ReserveError>)
  {
    match Quote(policy, profile, g, day)
    case Err(e) => (b, Err(Unquotable(e)))
    case Ok(q) =>
      var (b', outcome) := Reserve(b, id, q, policy.value);
      (b', if outcome == Granted then Ok(Receipt(id, q.Record()))
           else if outcome == DuplicateId then Err(IdTaken) else Err(WouldExceedBudget))
  }

  function ServiceReconcile(b: Books, receipt: Receipt, inputTokens: int, outputTokens: int)
    : (Books, Result<real, SettleError>)
  {
    if inputTokens < 0 || outputTokens < 0 then (b, Err(NegativeUsage))
    else if receipt.record.inputTokens < inputTokens || receipt.record.outputTokens < outputTokens then
      (b, Err(ExceedsCapacity))
    else
      var cost := receipt.record.pricing.CostOf(inputTokens, outputTokens);
      var (b', outcome) := Reconcile(b, receipt.id, Actual(inputTokens, outputTokens, cost));
      (b', if outcome == Settled then Ok(cost) else Err(StoreRefused(outcome)))
  }

  lemma ProductMonotone(a: int, b: int, price: real)
    requires a <= b && 0.0 <= price
    ensures a as real * price <= b as real * price
  {
    assert 0.0 <= (b - a) as real * price;
    assert (b - a) as real == b as real - a as real;
  }

  lemma CostMonotone(p: Pricing, i: int, o: int, i': int, o': int)
    requires i <= i' && o <= o' && 0.0 <= p.inputPrice && 0.0 <= p.outputPrice
    ensures p.CostOf(i, o) <= p.CostOf(i', o')
  {
    ProductMonotone(i, i', p.inputPrice);
    ProductMonotone(o, o', p.outputPrice);
  }

  /** What `i` input and `o` output tokens cost at the profile's prices. */
  function AtProfilePrices(profile: Profile, i: int, o: int): real
    requires profile.inputPrice.Some? && profile.outputPrice.Some?
  {
    i as real * profile.inputPrice.value + o as real * profile.outputPrice.value
  }

  /** A quote prices the worst case at the profile's own non-negative prices, and reserves at least
      the two texts' bytes as input tokens. */
  lemma QuoteIsWorstCase(policy: Option<Policy>, profile: Profile, g: GatewayRequest, day: Day, i: nat, o: nat)
    requires Quote(policy, profile, g, day).Ok?
    requires i <= g.systemBytes.value + g.payloadBytes.value + PROMPT_OVERHEAD
    requires o <= profile.maxTokens && o <= g.maxOutputTokens
    ensures profile.inputPrice.Some? && profile.outputPrice.Some?
    ensures var q := Quote(policy, profile, g, day).value;
            && q.task == g.requestId && q.day == day && q.pricing.currency == policy.value.currency
            && Amount(i + o, AtProfilePrices(profile, i, o)).AtMost(q.Demand())
            && NonnegativeOp(ReserveOp(0, q, policy.value))
  {
    var q := Quote(policy, profile, g, day).value;
    CostMonotone(q.pricing, i, o, q.inputTokens, q.outputTokens);
    CostMonotone(q.pricing, 0, 0, q.inputTokens, q.outputTokens);
  }

  /** The reservation row behind a receipt, whatever has become of its status. */
  ghost predicate Backed(b: Books, receipt: Receipt) {
    receipt.id in b.reservations && b.reservations[receipt.id].(status := Reserved) == receipt.record
  }

  lemma {:induction false} BackedForever(b: Books, receipt: Receipt, later: seq<Op>)
    requires Backed(b, receipt)
    ensures Backed(Run(b, later), receipt)
  {
    if later != [] {
      BackedForever(b, receipt, later[..|later| - 1]);
      var before := Run(b, later[..|later| - 1]);
      match later[|later| - 1] {
        case ReserveOp(id, q, p) =>
          if id !in before.reservations {
            ReserveTables(before, id, q, p);
          }
        case ReconcileOp(id, a) =>
          if Reconcile(before, id, a).1 == Settled {
            ReconcileTables(before, id, a);
          }
      }
    }
  }

  predicate Quoted(receipt: Receipt) {
    var r := receipt.record;
    r.status == Reserved && 0.0 <= r.pricing.inputPrice && 0.0 <= r.pricing.outputPrice
    && r.cost == r.pricing.CostOf(r.inputTokens, r.outputTokens)
  }

  lemma ReceiptIsBackedAndQuoted(b: Books, id: ReservationId, policy: Option<Policy>, profile: Profile, g: GatewayRequest, day: Day)
    requires ServiceReserve(b, id, policy, profile, g, day).1.Ok?
    ensures var (b', receipt) := ServiceReserve(b, id, policy, profile, g, day);
            Backed(b', receipt.value) && Quoted(receipt.value)
  {
  }

  /** Settling a receipt succeeds exactly when the reported usage is within the reserved tokens and the
      receipt was not settled before; the cost is then within the reserved cost. The store's own
      overrun and missing-row guards never fire. */
  lemma SettlementOutcome(b: Books, receipt: Receipt, i: int, o: int)
    requires Agrees(b) && Backed(b, receipt) && Quoted(receipt)
    ensures var r, result := receipt.record, ServiceReconcile(b, receipt, i, o).1;
            && (result.Ok? <==> 0 <= i <= r.inputTokens && 0 <= o <= r.outputTokens && receipt.id !in b.usage)
            && (result.Ok? ==> result.value == r.pricing.CostOf(i, o) && 0.0 <= result.value <= r.cost)
            && (result.Err? ==> result.error in {NegativeUsage, ExceedsCapacity, StoreRefused(Unavailable)})
  {
    var r := receipt.record;
    if 0 <= i <= r.inputTokens && 0 <= o <= r.outputTokens {
      CostMonotone(r.pricing, i, o, r.inputTokens, r.outputTokens);
      CostMonotone(r.pricing, 0, 0, i, o);
      var a := Actual(i, o, r.pricing.CostOf(i, o));
      assert b.reservations[receipt.id].Held() == r.Held();
      ReconcileFailsOnlyForCause(b, receipt.id, a);
    }
  }

  /** The same over whole runs: a reservation granted at any point of any run can be settled after any
      further transactions, without ever meeting the store's overrun guard. */
  lemma OverrunGuardNeverFires(
      ops: seq<Op>, id: ReservationId, policy: Option<Policy>, profile: Profile, g: GatewayRequest, day: Day,
      later: seq<Op>, i: int, o: int)
    requires ServiceReserve(Run(EMPTY_BOOKS, ops), id, policy, profile, g, day).1.Ok?
    ensures var (b, receipt) := ServiceReserve(Run(EMPTY_BOOKS, ops), id, policy, profile, g, day);
            var result := ServiceReconcile(Run(b, later), receipt.value, i, o).1;
            && (result.Ok? ==> 0.0 <= result.value <= receipt.value.record.cost)
            && (result.Err? ==> result.error in {NegativeUsage, ExceedsCapacity, StoreRefused(Unavailable)})
  {
    var start := Run(EMPTY_BOOKS, ops);
    EmptyBooksAgree();
    RunAgrees(EMPTY_BOOKS, ops);
    ReceiptIsBackedAndQuoted(start, id, policy, profile, g, day);
    var (b, receipt) := ServiceReserve(start, id, policy, profile, g, day);
    ReserveKeepsAgreement(start, id, Quote(policy, profile, g, day).value, policy.value);
    RunAgrees(b, later);
    BackedForever(b, receipt.value, later);
    SettlementOutcome(Run(b, later), receipt.value, i, o);
  }

  // ---------------------------------------------------------------------------------------------
  // Settlements inside an interleaving
  // ---------------------------------------------------------------------------------------------

  /** What a receipt is backed by survives every action of every interleaving. */
  lemma ActionKeepsBacked(s: System, a: Action, receipt: Receipt)
    requires Inv(s) && Enabled(s, a) && Backed(s.db, receipt)
    ensures Backed(Perform(s, a).db, receipt)
  {
    StepIsStutterOrAtomicCall(s, a);
    if Committed(s, a) != [] {
      var ops := [Committed(s, a)[0]];
      BackedForever(s.db, receipt, ops);
      assert ops[..|ops| - 1] == [];
      hide Perform, Enabled, Inv, Committed, Backed, Step;
      assert Run(s.db, []) == s.db;
      assert Run(s.db, ops) == Step(s.db, ops[0]).0;
    }
  }

  /** When a statement of a settlement fails, although the receipt is backed and quoted and the reported usage
      is within it, then only because the reservation was settled already; never as an overrun. */
  lemma QuotedSettlementFailsOnlyAsSettled(actions: seq<Action>, tid: TxnId, receipt: Receipt, i: int, o: int)
    requires Execute(actions).At? && Backed(Execute(actions).s.db, receipt) && Quoted(receipt)
    requires 0 <= i <= receipt.record.inputTokens && 0 <= o <= receipt.record.outputTokens
    requires var s := Execute(actions).s;
             && tid in s.txns && s.txns[tid].Settling? && s.txns[tid].id == receipt.id
             && s.txns[tid].a == Actual(i, o, receipt.record.pricing.CostOf(i, o))
             && Next(s.db, tid, s.txns[tid]).Fails?
    ensures var s := Execute(actions).s;
            Step(s.db, OpOf(tid, s.txns[tid])) == (s.db, Unavailable) && receipt.id in s.db.usage
  {
    var s, r := Execute(actions).s, receipt.record;
    FailedSettlementIsAtomicFailure(actions, tid);
    InterleavingsAreWithinBudget(actions, DayWindow(0));
    CostMonotone(r.pricing, i, o, r.inputTokens, r.outputTokens);
    assert s.db.reservations[receipt.id].Held() == r.Held();
    hide Execute, Next, Agrees;
    ReconcileFailsOnlyForCause(s.db, receipt.id, s.txns[tid].a);
  }
}
