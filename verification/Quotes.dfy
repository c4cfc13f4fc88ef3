/** What a quote, a receipt and a settlement come to, in terms of the policy, the profile and the prompt. */
module Quotes {
  import opened Options
  import opened Texts
  import opened Amounts
  import opened BudgetLedger
  import opened BudgetRuns
  import opened BudgetService

  predicate WellFormed(p: Policy) {
    && Strip(p.version) != "" && Strip(p.currency) != ""
    && 1 <= p.task.tokens && 1 <= p.daily.tokens && 0.0 <= p.task.cost && 0.0 <= p.daily.cost
  }

  /** The profile names a version, a currency and both prices. */
  predicate Priced(profile: Profile) {
    && profile.pricingVersion.Some? && Strip(profile.pricingVersion.value) != ""
    && profile.currency.Some? && Strip(profile.currency.value) != ""
    && profile.inputPrice.Some? && profile.outputPrice.Some?
  }

  predicate PricesNonnegative(profile: Profile)
    requires Priced(profile)
  {
    0.0 <= profile.inputPrice.value && 0.0 <= profile.outputPrice.value
  }

  predicate Rendered(g: GatewayRequest) {
    g.systemBytes.Some? && g.payloadBytes.Some?
  }

  /** A call is quoted if and only if a well-formed policy is stored, the profile is priced, at non-negative
      prices, in the policy's currency, and the prompt is rendered. Otherwise the first of these to fail is reported. */
  lemma QuotedIff(policy: Option<Policy>, profile: Profile, g: GatewayRequest, day: Day)
    ensures var r := Quote(policy, profile, g, day);
            && (r.Ok? <==>
                  && policy.Some? && WellFormed(policy.value) && Priced(profile) && PricesNonnegative(profile)
                  && profile.currency.value == policy.value.currency && Rendered(g))
            && (r == Err(NoPolicy) <==> policy.None?)
            && (r == Err(InvalidPolicy) <==> policy.Some? && !WellFormed(policy.value))
            && (r == Err(NoPricing) <==> policy.Some? && WellFormed(policy.value) && !Priced(profile))
            && (r == Err(InvalidPricing) <==>
                  policy.Some? && WellFormed(policy.value) && Priced(profile) && !PricesNonnegative(profile))
            && (r == Err(CurrencyMismatch) <==>
                  && policy.Some? && WellFormed(policy.value) && Priced(profile) && PricesNonnegative(profile)
                  && profile.currency.value != policy.value.currency)
            && (r == Err(NoPrompt) <==>
                  && policy.Some? && WellFormed(policy.value) && Priced(profile) && PricesNonnegative(profile)
                  && profile.currency.value == policy.value.currency && !Rendered(g))
  {
    hide Strip;
  }

  /** A quote asks for every byte of the prompt and 256 tokens more as input, for the smaller of the two limits as
      output, and prices each at the profile's own price for it. */
  lemma QuoteIsThePrice(policy: Option<Policy>, profile: Profile, g: GatewayRequest, day: Day)
    requires Quote(policy, profile, g, day).Ok?
    ensures Priced(profile) && Rendered(g)
    ensures var q := Quote(policy, profile, g, day).value;
            && q.task == g.requestId && q.profile == profile.id && q.day == day
            && Some(q.pricing.version) == profile.pricingVersion && Some(q.pricing.currency) == profile.currency
            && Some(q.pricing.inputPrice) == profile.inputPrice && Some(q.pricing.outputPrice) == profile.outputPrice
            && q.inputTokens == g.systemBytes.value + g.payloadBytes.value + 256
            && q.outputTokens == (if g.maxOutputTokens < profile.maxTokens then g.maxOutputTokens else profile.maxTokens)
            && q.cost == AtProfilePrices(profile, q.inputTokens, q.outputTokens)
  {
    QuotedIff(policy, profile, g, day);
    hide Strip;
  }

  /** A reservation is made if and only if the call is quoted, the id is new, and the quote fits the day and the task
      on top of everything open and spent there. Otherwise the error says which of these failed, and nothing that is
      held or used changes. */
  lemma ReservedIff(b: Books, id: ReservationId, policy: Option<Policy>, profile: Profile, g: GatewayRequest, day: Day)
    requires Agrees(b)
    ensures var quote, r := Quote(policy, profile, g, day), ServiceReserve(b, id, policy, profile, g, day).1;
            && (quote.Err? ==> r == Err(Unquotable(quote.error)))
            && (quote.Ok? && id in b.reservations ==> r == Err(IdTaken))
            && (quote.Ok? && id !in b.reservations ==>
                  var q, p := quote.value, policy.value;
                  && (r.Ok? <==>
                        && RoomFor(b, DayWindow(day), q.inputTokens + q.outputTokens, q.cost, p.daily)
                        && RoomFor(b, TaskWindow(g.requestId), q.inputTokens + q.outputTokens, q.cost, p.task))
                  && (r.Err? ==> r.error == WouldExceedBudget))
    ensures ServiceReserve(b, id, policy, profile, g, day).1.Err? ==>
              var b' := ServiceReserve(b, id, policy, profile, g, day).0;
              b'.reservations == b.reservations && b'.usage == b.usage
  {
    if Quote(policy, profile, g, day).Ok? {
      var q := Quote(policy, profile, g, day).value;
      QuoteIsThePrice(policy, profile, g, day);
      QuotedIff(policy, profile, g, day);
      GrantedIff(b, id, q, policy.value);
      if id !in b.reservations {
        ReserveTables(b, id, q, policy.value);
      }
    }
    hide Quote, Reserve, Agrees, RoomFor, Strip;
  }

  /** A settlement of `i` input and `o` output tokens succeeds if and only if the reservation is not settled yet
      and the tokens are within the prompt's bytes and 256 more, and within both output limits. What it returns
      and stores is what those tokens cost at the profile's prices; the usage row tells them apart. */
  predicate ChargesRightly(
      before: Books, after: Books, result: Result<real, SettleError>, id: ReservationId, profile: Profile,
      g: GatewayRequest, day: Day, i: int, o: int)
    requires Priced(profile) && Rendered(g)
  {
    && (result.Ok? <==>
          && id !in before.usage && 0 <= i <= g.systemBytes.value + g.payloadBytes.value + 256
          && 0 <= o <= profile.maxTokens && o <= g.maxOutputTokens)
    && (result.Ok? ==>
          && result.value == AtProfilePrices(profile, i, o)
          && id in after.usage
          && after.usage[id] == Usage(g.requestId, profile.id, day, profile.pricingVersion.value, i, o, result.value))
  }

  /** From quote to charge, over whole runs: a call that is reserved at any point of any run and settled after any
      further transactions is charged rightly. */
  lemma ChargedAtProfilePrices(
      ops: seq<Op>, id: ReservationId, policy: Option<Policy>, profile: Profile, g: GatewayRequest, day: Day,
      later: seq<Op>, i: int, o: int)
    requires ServiceReserve(Run(EMPTY_BOOKS, ops), id, policy, profile, g, day).1.Ok?
    ensures Priced(profile) && Rendered(g)
    ensures var (b, receipt) := ServiceReserve(Run(EMPTY_BOOKS, ops), id, policy, profile, g, day);
            var before := Run(b, later);
            var (after, result) := ServiceReconcile(before, receipt.value, i, o);
            ChargesRightly(before, after, result, id, profile, g, day, i, o)
  {
    EmptyBooksAgree();
    RunAgrees(EMPTY_BOOKS, ops);
    var start := Run(EMPTY_BOOKS, ops);
    hide Quote, ServiceReserve, ServiceReconcile, Run, Agrees, Backed, Quoted, Strip;
    var b, receipt := ServiceReserve(start, id, policy, profile, g, day).0, ServiceReserve(start, id, policy, profile, g, day).1.value;
    ReceiptStands(start, id, policy, profile, g, day);
    RunAgrees(b, later);
    BackedForever(b, receipt, later);
    QuoteIsThePrice(policy, profile, g, day);
    hide ChargesRightly;
    ReceiptIsCharged(Run(b, later), receipt, profile, g, day, i, o);
  }

  lemma ReceiptIsCharged(b: Books, receipt: Receipt, profile: Profile, g: GatewayRequest, day: Day, i: int, o: int)
    requires Agrees(b) && Backed(b, receipt) && Quoted(receipt) && Priced(profile) && Rendered(g)
    requires var r := receipt.record;
             && r.task == g.requestId && r.profile == profile.id && r.day == day
             && Some(r.pricing.version) == profile.pricingVersion
             && Some(r.pricing.inputPrice) == profile.inputPrice && Some(r.pricing.outputPrice) == profile.outputPrice
             && r.inputTokens == g.systemBytes.value + g.payloadBytes.value + 256
             && r.outputTokens == if g.maxOutputTokens < profile.maxTokens then g.maxOutputTokens else profile.maxTokens
    ensures var (b', result) := ServiceReconcile(b, receipt, i, o);
            ChargesRightly(b, b', result, receipt.id, profile, g, day, i, o)
  {
    hide ServiceReconcile, Agrees, Backed, Quoted, Strip;
    assert AtProfilePrices(profile, i, o) == receipt.record.pricing.CostOf(i, o);
    hide AtProfilePrices, Pricing.CostOf;
    ChargeOf(b, receipt, i, o);
  }

  lemma ReceiptStands(b: Books, id: ReservationId, policy: Option<Policy>, profile: Profile, g: GatewayRequest, day: Day)
    requires Agrees(b) && ServiceReserve(b, id, policy, profile, g, day).1.Ok?
    ensures Quote(policy, profile, g, day).Ok?
    ensures var q, b', receipt := Quote(policy, profile, g, day).value, ServiceReserve(b, id, policy, profile, g, day).0,
                                  ServiceReserve(b, id, policy, profile, g, day).1.value;
            && Agrees(b') && Backed(b', receipt) && Quoted(receipt) && receipt.id == id
            && receipt.record == Reservation(q.task, q.profile, q.day, q.pricing, q.inputTokens, q.outputTokens, q.cost, Reserved)
  {
    ReceiptIsTheQuote(b, id, policy, profile, g, day);
    ReceiptIsBackedAndQuoted(b, id, policy, profile, g, day);
    hide Quote, ServiceReserve, Reserve, Agrees, Backed, Quoted;
    ReserveKeepsAgreement(b, id, Quote(policy, profile, g, day).value, policy.value);
  }

  lemma ReceiptIsTheQuote(b: Books, id: ReservationId, policy: Option<Policy>, profile: Profile, g: GatewayRequest, day: Day)
    requires ServiceReserve(b, id, policy, profile, g, day).1.Ok?
    ensures Quote(policy, profile, g, day).Ok?
    ensures var q, receipt := Quote(policy, profile, g, day).value, ServiceReserve(b, id, policy, profile, g, day).1.value;
            && receipt.id == id && policy.Some?
            && ServiceReserve(b, id, policy, profile, g, day).0 == Reserve(b, id, q, policy.value).0
            && receipt.record == Reservation(q.task, q.profile, q.day, q.pricing, q.inputTokens, q.outputTokens, q.cost, Reserved)
  {
    hide Reserve;
  }

  lemma ChargeOf(b: Books, receipt: Receipt, i: int, o: int)
    requires Agrees(b) && Backed(b, receipt) && Quoted(receipt)
    ensures var r := receipt.record;
            var (b', result) := ServiceReconcile(b, receipt, i, o);
            && (result.Ok? <==> 0 <= i <= r.inputTokens && 0 <= o <= r.outputTokens && receipt.id !in b.usage)
            && (result.Ok? ==>
                  && result.value == r.pricing.CostOf(i, o)
                  && receipt.id in b'.usage
                  && b'.usage[receipt.id] == Usage(r.task, r.profile, r.day, r.pricing.version, i, o, result.value))
  {
    SettlementOutcome(b, receipt, i, o);
    hide Agrees;
  }
}
