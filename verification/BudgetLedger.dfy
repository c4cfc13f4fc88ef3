/**
 The two overlapping LLM budget ledgers (one row per UTC day, one row per task), the reservation
 and usage tables, and the effect of one committed `reserve` or `reconcile` transaction.
 */
module BudgetLedger {
  import opened Amounts

  type Day = int
  type TaskId = nat
  type ReservationId = nat

  /** A ledger row's key: both tables share the same columns. */
  datatype Window = DayWindow(day: Day) | TaskWindow(task: TaskId)

  datatype Ledger = Ledger(reserved: Amount, consumed: Amount) {
    function Used(): Amount {
      consumed.Plus(reserved)
    }
  }

  const EMPTY_LEDGER := Ledger(ZERO, ZERO)

  datatype Pricing = Pricing(version: string, currency: string, inputPrice: real, outputPrice: real) {
    function CostOf(inputTokens: int, outputTokens: int): real {
      inputTokens as real * inputPrice + outputTokens as real * outputPrice
    }
  }

  datatype Policy = Policy(version: string, currency: string, task: Amount, daily: Amount) {
    function LimitOf(w: Window): Amount {
      if w.DayWindow? then daily else task
    }
  }

  datatype Status = Reserved | Reconciled

  datatype Reservation = Reservation(
    task: TaskId, profile: nat, day: Day, pricing: Pricing,
    inputTokens: int, outputTokens: int, cost: real, status: Status)
  {
    function Held(): Amount {
      Amount(inputTokens + outputTokens, cost)
    }

    predicate In(w: Window) {
      match w
      case DayWindow(d) => day == d
      case TaskWindow(t) => task == t
    }
  }

  datatype Usage = Usage(
    task: TaskId, profile: nat, day: Day, pricingVersion: string,
    inputTokens: int, outputTokens: int, cost: real)
  {
    function Spent(): Amount {
      Amount(inputTokens + outputTokens, cost)
    }

    predicate In(w: Window) {
      match w
      case DayWindow(d) => day == d
      case TaskWindow(t) => task == t
    }
  }

  /** The committed tables. `usage` is keyed by its unique reservation id. */
  datatype Books = Books(
    ledgers: map<Window, Ledger>,
    reservations: map<ReservationId, Reservation>,
    usage: map<ReservationId, Usage>)

  const EMPTY_BOOKS := Books(map[], map[], map[])

  /** A ledger row, or the zero row that a missing one stands for. */
  function Row(b: Books, w: Window): Ledger {
    if w in b.ledgers then b.ledgers[w] else EMPTY_LEDGER
  }

  datatype Request = Request(
    task: TaskId, profile: nat, day: Day, pricing: Pricing,
    inputTokens: int, outputTokens: int, cost: real)
  {
    function Demand(): Amount {
      Amount(inputTokens + outputTokens, cost)
    }

    function DayRow(): Window { DayWindow(day) }

    function TaskRow(): Window { TaskWindow(task) }

    function Record(): Reservation {
      Reservation(task, profile, day, pricing, inputTokens, outputTokens, cost, Reserved)
    }
  }

  datatype Actual = Actual(inputTokens: int, outputTokens: int, cost: real) {
    function Amount(): Amount {
      Amounts.Amount(inputTokens + outputTokens, cost)
    }
  }

  datatype Outcome =
    | Granted
    | OverBudget
    | DuplicateId
    | Settled
    | Unavailable
    | LedgerMissing
    | Overrun
    | DuplicateUsage

  function Hold(l: Ledger, demand: Amount): Ledger {
    l.(reserved := l.reserved.Plus(demand))
  }

  function Release(l: Ledger, held: Amount, actual: Amount): Ledger {
    Ledger(l.reserved.Minus(held), l.consumed.Plus(actual))
  }

  predicate Fits(day: Ledger, task: Ledger, demand: Amount, policy: Policy) {
    day.Used().Plus(demand).AtMost(policy.daily) && task.Used().Plus(demand).AtMost(policy.task)
  }

  /** What one transaction publishes at commit. */
  datatype Writes = Writes(
    ledgers: map<Window, Ledger>,
    reservations: map<ReservationId, Reservation>,
    usage: map<ReservationId, Usage>)

  function Publish(b: Books, w: Writes): Books {
    Books(b.ledgers + w.ledgers, b.reservations + w.reservations, b.usage + w.usage)
  }

  /** The rows a reservation writes, given the two locked rows. A refusal still commits the two
      rows it may have had to create. */
  function ReserveWrites(id: ReservationId, q: Request, p: Policy, day: Ledger, task: Ledger): Writes {
    if Fits(day, task, q.Demand(), p) then
      Writes(map[q.DayRow() := Hold(day, q.Demand()), q.TaskRow() := Hold(task, q.Demand())],
             map[id := q.Record()], map[])
    else
      Writes(map[q.DayRow() := day, q.TaskRow() := task], map[], map[])
  }

  function Reserve(b: Books, id: ReservationId, q: Request, p: Policy): (Books, Outcome) {
    var day, task := Row(b, q.DayRow()), Row(b, q.TaskRow());
    if id in b.reservations then (b, DuplicateId)
    else (Publish(b, ReserveWrites(id, q, p, day, task)),
          if Fits(day, task, q.Demand(), p) then Granted else OverBudget)
  }

  /** The rows a reconciliation writes, given the locked reservation and ledger rows. */
  function ReconcileWrites(id: ReservationId, r: Reservation, a: Actual, day: Ledger, task: Ledger): Writes {
    Writes(map[DayWindow(r.day) := Release(day, r.Held(), a.Amount()),
               TaskWindow(r.task) := Release(task, r.Held(), a.Amount())],
           map[id := r.(status := Reconciled)],
           map[id := Usage(r.task, r.profile, r.day, r.pricing.version, a.inputTokens, a.outputTokens, a.cost)])
  }

  function Reconcile(b: Books, id: ReservationId, a: Actual): (Books, Outcome) {
    if id !in b.reservations || b.reservations[id].status != Reserved then (b, Unavailable)
    else
      var r := b.reservations[id];
      if DayWindow(r.day) !in b.ledgers || TaskWindow(r.task) !in b.ledgers then (b, LedgerMissing)
      else if !a.Amount().AtMost(r.Held()) then (b, Overrun)
      else if id in b.usage then (b, DuplicateUsage)
      else
        (Publish(b, ReconcileWrites(id, r, a, Row(b, DayWindow(r.day)), Row(b, TaskWindow(r.task)))), Settled)
  }

  // ---------------------------------------------------------------------------------------------
  // Agreement of the ledgers with the reservation and usage tables
  // ---------------------------------------------------------------------------------------------

  /** What is still reserved in window `w`, reservation by reservation. */
  ghost function OpenIn(rs: map<ReservationId, Reservation>, w: Window): map<ReservationId, Amount> {
    map id | id in rs && rs[id].status == Reserved && rs[id].In(w) :: rs[id].Held()
  }

  /** What has been consumed in window `w`, usage row by usage row. */
  ghost function SpentIn(us: map<ReservationId, Usage>, w: Window): map<ReservationId, Amount> {
    map id | id in us && us[id].In(w) :: us[id].Spent()
  }

  ghost predicate RowAgrees(b: Books, w: Window) {
    && Row(b, w).reserved == Total(OpenIn(b.reservations, w))
    && Row(b, w).consumed == Total(SpentIn(b.usage, w))
  }

  /** Usage rows are exactly the reconciled reservations' rows and stay in their windows. */
  ghost predicate LinkedAt(b: Books, id: ReservationId) {
    && (id in b.usage <==> id in b.reservations && b.reservations[id].status == Reconciled)
    && (id in b.usage ==>
          && b.usage[id].day == b.reservations[id].day && b.usage[id].task == b.reservations[id].task
          && b.usage[id].Spent().AtMost(b.reservations[id].Held()))
    && (id in b.reservations ==>
          DayWindow(b.reservations[id].day) in b.ledgers && TaskWindow(b.reservations[id].task) in b.ledgers)
  }

  ghost predicate Linked(b: Books) {
    forall id :: LinkedAt(b, id)
  }

  ghost predicate Agrees(b: Books) {
    Linked(b) && forall w :: RowAgrees(b, w)
  }

  lemma EmptyBooksAgree()
    ensures Agrees(EMPTY_BOOKS)
  {
    forall w ensures RowAgrees(EMPTY_BOOKS, w) {
      assert OpenIn(map[], w) == map[] && SpentIn(map[], w) == map[];
    }
  }

  lemma OpenInInsert(rs: map<ReservationId, Reservation>, id: ReservationId, r: Reservation, w: Window)
    requires id !in rs && r.status == Reserved
    ensures r.In(w) ==> OpenIn(rs + map[id := r], w) == OpenIn(rs, w)[id := r.Held()]
    ensures !r.In(w) ==> OpenIn(rs + map[id := r], w) == OpenIn(rs, w)
  {
  }

  lemma OpenInClose(rs: map<ReservationId, Reservation>, id: ReservationId, w: Window)
    requires id in rs
    ensures OpenIn(rs + map[id := rs[id].(status := Reconciled)], w) == OpenIn(rs, w) - {id}
  {
  }

  lemma SpentInInsert(us: map<ReservationId, Usage>, id: ReservationId, u: Usage, w: Window)
    requires id !in us
    ensures u.In(w) ==> SpentIn(us + map[id := u], w) == SpentIn(us, w)[id := u.Spent()]
    ensures !u.In(w) ==> SpentIn(us + map[id := u], w) == SpentIn(us, w)
  {
  }

  lemma RowAfterWrites(b: Books, w: Writes, d: Window, day: Ledger, t: Window, task: Ledger, any: Window)
    requires d != t && w.ledgers == map[d := day, t := task]
    ensures Row(Publish(b, w), any) == if any == d then day else if any == t then task else Row(b, any)
  {
  }

  /** A granted reservation is held in its own two rows and leaves every other row alone. */
  lemma ReserveRow(b: Books, id: ReservationId, q: Request, p: Policy, w: Window)
    requires id !in b.reservations
    ensures var (b', outcome) := Reserve(b, id, q, p);
            Row(b', w) == if outcome == Granted && q.Record().In(w) then Hold(Row(b, w), q.Demand()) else Row(b, w)
  {
    var day, task := Row(b, q.DayRow()), Row(b, q.TaskRow());
    var writes := ReserveWrites(id, q, p, day, task);
    if Fits(day, task, q.Demand(), p) {
      RowAfterWrites(b, writes, q.DayRow(), Hold(day, q.Demand()), q.TaskRow(), Hold(task, q.Demand()), w);
    } else {
      RowAfterWrites(b, writes, q.DayRow(), day, q.TaskRow(), task, w);
    }
  }

  lemma ReserveTables(b: Books, id: ReservationId, q: Request, p: Policy)
    requires id !in b.reservations
    ensures var (b', outcome) := Reserve(b, id, q, p);
            && b'.usage == b.usage
            && b'.reservations == if outcome == Granted then b.reservations + map[id := q.Record()] else b.reservations
  {
  }

  lemma HoldAgrees(l: Ledger, open: map<ReservationId, Amount>, id: ReservationId, demand: Amount)
    requires id !in open && l.reserved == Total(open)
    ensures Hold(l, demand).reserved == Total(open[id := demand])
  {
    TotalUpdate(open, id, demand);
  }

  lemma HoldKeepsRow(b: Books, b': Books, id: ReservationId, r: Reservation, w: Window)
    requires RowAgrees(b, w) && id !in b.reservations && r.status == Reserved
    requires b'.usage == b.usage && b'.reservations == b.reservations + map[id := r]
    requires Row(b', w) == if r.In(w) then Hold(Row(b, w), r.Held()) else Row(b, w)
    ensures RowAgrees(b', w)
  {
    OpenInInsert(b.reservations, id, r, w);
    if r.In(w) {
      HoldAgrees(Row(b, w), OpenIn(b.reservations, w), id, r.Held());
    }
  }

  lemma ReserveKeepsRow(b: Books, id: ReservationId, q: Request, p: Policy, w: Window)
    requires RowAgrees(b, w) && id !in b.reservations
    ensures RowAgrees(Reserve(b, id, q, p).0, w)
  {
    hide Reserve, Row, RowAgrees, OpenIn, SpentIn, Hold;
    var b' := Reserve(b, id, q, p).0;
    ReserveTables(b, id, q, p);
    ReserveRow(b, id, q, p, w);
    if Reserve(b, id, q, p).1 == Granted {
      HoldKeepsRow(b, b', id, q.Record(), w);
    } else {
      SameRowAgrees(b, b', w);
    }
  }

  lemma SameRowAgrees(b: Books, b': Books, w: Window)
    requires RowAgrees(b, w) && Row(b', w) == Row(b, w) && b'.usage == b.usage && b'.reservations == b.reservations
    ensures RowAgrees(b', w)
  {
  }

  lemma ReserveKeepsLinks(b: Books, id: ReservationId, q: Request, p: Policy)
    requires Linked(b) && id !in b.reservations
    ensures Linked(Reserve(b, id, q, p).0)
  {
    var b' := Reserve(b, id, q, p).0;
    ReserveTables(b, id, q, p);
    forall i ensures LinkedAt(b', i) {
      assert LinkedAt(b, i);
    }
  }

  lemma ReserveKeepsAgreement(b: Books, id: ReservationId, q: Request, p: Policy)
    requires Agrees(b)
    ensures Agrees(Reserve(b, id, q, p).0)
  {
    if id !in b.reservations {
      ReserveKeepsLinks(b, id, q, p);
      forall w ensures RowAgrees(Reserve(b, id, q, p).0, w) {
        assert RowAgrees(b, w);
        ReserveKeepsRow(b, id, q, p, w);
      }
    }
  }

  lemma ReconcileRow(b: Books, id: ReservationId, a: Actual, w: Window)
    requires Reconcile(b, id, a).1 == Settled
    ensures var r := b.reservations[id];
            Row(Reconcile(b, id, a).0, w) == if r.In(w) then Release(Row(b, w), r.Held(), a.Amount()) else Row(b, w)
  {
  }

  lemma ReconcileTables(b: Books, id: ReservationId, a: Actual)
    requires Reconcile(b, id, a).1 == Settled
    ensures var b' := Reconcile(b, id, a).0;
            && b'.ledgers.Keys == b.ledgers.Keys
            && b'.reservations == b.reservations + map[id := b.reservations[id].(status := Reconciled)]
            && b'.usage.Keys == b.usage.Keys + {id}
            && b'.usage == b.usage + map[id := b'.usage[id]]
            && b'.usage[id].Spent() == a.Amount()
            && b'.usage[id].day == b.reservations[id].day && b'.usage[id].task == b.reservations[id].task
  {
  }

  lemma ReleaseAgrees(l: Ledger, open: map<ReservationId, Amount>, spent: map<ReservationId, Amount>,
                      id: ReservationId, actual: Amount)
    requires id in open && id !in spent && l == Ledger(Total(open), Total(spent))
    ensures Release(l, open[id], actual) == Ledger(Total(open - {id}), Total(spent[id := actual]))
  {
    TotalWithout(open, id);
    TotalUpdate(spent, id, actual);
  }

  lemma ReconcileKeepsRow(b: Books, id: ReservationId, a: Actual, w: Window)
    requires RowAgrees(b, w) && Reconcile(b, id, a).1 == Settled
    ensures RowAgrees(Reconcile(b, id, a).0, w)
  {
    var r, b' := b.reservations[id], Reconcile(b, id, a).0;
    var open, spent := OpenIn(b.reservations, w), SpentIn(b.usage, w);
    ReconcileTables(b, id, a);
    ReconcileRow(b, id, a, w);
    OpenInClose(b.reservations, id, w);
    SpentInInsert(b.usage, id, b'.usage[id], w);
    if r.In(w) {
      ReleaseAgrees(Row(b, w), open, spent, id, a.Amount());
    } else {
      assert open - {id} == open;
    }
  }

  lemma CloseKeepsLinks(b: Books, b': Books, id: ReservationId, u: Usage)
    requires Linked(b) && b'.ledgers.Keys == b.ledgers.Keys
    requires id in b.reservations && u.Spent().AtMost(b.reservations[id].Held())
    requires u.day == b.reservations[id].day && u.task == b.reservations[id].task
    requires b'.reservations == b.reservations + map[id := b.reservations[id].(status := Reconciled)]
    requires b'.usage == b.usage + map[id := u]
    ensures Linked(b')
  {
    forall i ensures LinkedAt(b', i) {
      assert LinkedAt(b, i);
    }
  }

  lemma ReconcileKeepsAgreement(b: Books, id: ReservationId, a: Actual)
    requires Agrees(b)
    ensures Agrees(Reconcile(b, id, a).0)
  {
    if Reconcile(b, id, a).1 == Settled {
      assert LinkedAt(b, id);
      ReconcileTables(b, id, a);
      CloseKeepsLinks(b, Reconcile(b, id, a).0, id, Reconcile(b, id, a).0.usage[id]);
      forall w ensures RowAgrees(Reconcile(b, id, a).0, w) {
        assert RowAgrees(b, w);
        ReconcileKeepsRow(b, id, a, w);
      }
    }
  }

  // ---------------------------------------------------------------------------------------------
  // Consequences of agreement
  // ---------------------------------------------------------------------------------------------

  ghost function AllOpen(b: Books): map<ReservationId, Amount> {
    map id | id in b.reservations && b.reservations[id].status == Reserved :: b.reservations[id].Held()
  }

  ghost function AllSpent(b: Books): map<ReservationId, Amount> {
    map id | id in b.usage :: b.usage[id].Spent()
  }

  /** The reserved (or consumed) column of one of the two ledger tables. */
  ghost function Column(b: Books, days: bool, reserved: bool): map<Window, Amount> {
    map w | w in b.ledgers && w.DayWindow? == days
      :: if reserved then b.ledgers[w].reserved else b.ledgers[w].consumed
  }

  /** The row of the chosen table that a reservation or its usage is charged to. */
  ghost function HomeRow(b: Books, days: bool): ReservationId -> Window {
    id =>
      if id !in b.reservations then DayWindow(0)
      else if days then DayWindow(b.reservations[id].day)
      else TaskWindow(b.reservations[id].task)
  }

  ghost function Entries(b: Books, reserved: bool): map<ReservationId, Amount> {
    if reserved then AllOpen(b) else AllSpent(b)
  }

  lemma LinkedEverywhere(b: Books)
    requires Linked(b)
    ensures forall id :: id in b.usage ==>
              && id in b.reservations
              && b.usage[id].day == b.reservations[id].day && b.usage[id].task == b.reservations[id].task
    ensures forall id :: id in b.reservations ==>
              DayWindow(b.reservations[id].day) in b.ledgers && TaskWindow(b.reservations[id].task) in b.ledgers
  {
    forall id | id in b.usage
      ensures id in b.reservations
      ensures b.usage[id].day == b.reservations[id].day && b.usage[id].task == b.reservations[id].task
    {
      assert LinkedAt(b, id);
    }
    forall id | id in b.reservations
      ensures DayWindow(b.reservations[id].day) in b.ledgers && TaskWindow(b.reservations[id].task) in b.ledgers
    {
      assert LinkedAt(b, id);
    }
  }

  lemma EntriesOfRow(b: Books, days: bool, reserved: bool, w: Window)
    requires Linked(b) && w.DayWindow? == days
    ensures Part(Entries(b, reserved), HomeRow(b, days), w) == if reserved then OpenIn(b.reservations, w) else SpentIn(b.usage, w)
  {
    LinkedEverywhere(b);
  }

  ghost function RowsOf(b: Books, days: bool): set<Window> {
    set w | w in b.ledgers && w.DayWindow? == days
  }

  lemma EntriesHaveRows(b: Books, days: bool, reserved: bool)
    requires Linked(b)
    ensures forall id :: id in Entries(b, reserved) ==> HomeRow(b, days)(id) in RowsOf(b, days)
  {
    LinkedEverywhere(b);
  }

  lemma ColumnByRows(b: Books, days: bool, reserved: bool)
    requires Agrees(b)
    ensures PartTotals(Entries(b, reserved), HomeRow(b, days), RowsOf(b, days)) == Column(b, days, reserved)
  {
    forall w | w in RowsOf(b, days)
      ensures Total(Part(Entries(b, reserved), HomeRow(b, days), w)) == Column(b, days, reserved)[w]
    {
      assert RowAgrees(b, w);
      EntriesOfRow(b, days, reserved, w);
    }
  }

  /** Either table's reserved column sums to all open reservations, its consumed column to all usage. */
  lemma ColumnTotals(b: Books, days: bool, reserved: bool)
    requires Agrees(b)
    ensures Total(Column(b, days, reserved)) == Total(Entries(b, reserved))
  {
    EntriesHaveRows(b, days, reserved);
    TotalByGroups(Entries(b, reserved), HomeRow(b, days), RowsOf(b, days));
    ColumnByRows(b, days, reserved);
  }

  /** Summed over all days or over all tasks, the two ledgers say the same. */
  lemma DayAndTaskLedgersBalance(b: Books)
    requires Agrees(b)
    ensures Total(Column(b, true, true)) == Total(Column(b, false, true))
    ensures Total(Column(b, true, false)) == Total(Column(b, false, false))
  {
    ColumnTotals(b, true, true);
    ColumnTotals(b, false, true);
    ColumnTotals(b, true, false);
    ColumnTotals(b, false, false);
  }

  /** With non-negative rows no ledger column goes below zero, and no more than the held amounts
      of a window's reservations is ever charged to it. */
  lemma LedgersNonnegative(b: Books, w: Window)
    requires Agrees(b)
    requires forall id :: id in b.reservations ==> b.reservations[id].Held().Nonnegative()
    requires forall id :: id in b.usage ==> b.usage[id].Spent().Nonnegative()
    ensures Row(b, w).reserved.Nonnegative() && Row(b, w).consumed.Nonnegative()
  {
    assert RowAgrees(b, w);
    TotalNonnegative(OpenIn(b.reservations, w));
    TotalNonnegative(SpentIn(b.usage, w));
  }

  /** A reservation is settled at most once: settling it makes every later attempt fail unchanged. */
  lemma SettledOnce(b: Books, id: ReservationId, first: Actual, second: Actual)
    requires Agrees(b)
    requires Reconcile(b, id, first).1 == Settled
    ensures Reconcile(Reconcile(b, id, first).0, id, second) == (Reconcile(b, id, first).0, Unavailable)
    ensures id !in b.usage && Reconcile(b, id, first).0.usage.Keys == b.usage.Keys + {id}
  {
    assert LinkedAt(b, id);
  }

  /** In agreeing books a reconciliation fails only for a settled or unknown reservation or an overrun. */
  lemma ReconcileFailsOnlyForCause(b: Books, id: ReservationId, a: Actual)
    requires Agrees(b)
    ensures Reconcile(b, id, a).1 in {Settled, Unavailable, Overrun}
    ensures Reconcile(b, id, a).1 == Settled <==>
            id in b.reservations && id !in b.usage && a.Amount().AtMost(b.reservations[id].Held())
  {
    assert LinkedAt(b, id);
  }

  // ---------------------------------------------------------------------------------------------
  // What is granted, and what a settlement stores
  // ---------------------------------------------------------------------------------------------

  /** What is open and what is spent in a window, and the tokens and cost asked for on top, stay within the limit. */
  ghost predicate RoomFor(b: Books, w: Window, tokens: int, cost: real, limit: Amount) {
    var open, spent := Total(OpenIn(b.reservations, w)), Total(SpentIn(b.usage, w));
    spent.tokens + open.tokens + tokens <= limit.tokens && spent.cost + open.cost + cost <= limit.cost
  }

  /** In agreeing books a reserve is granted if and only if its id is new and, in its day as in its task, all open
      reservations, all usage and the demand together are within the limit. */
  lemma GrantedIff(b: Books, id: ReservationId, q: Request, p: Policy)
    requires Agrees(b)
    ensures Reserve(b, id, q, p).1 == Granted <==>
            && id !in b.reservations
            && RoomFor(b, DayWindow(q.day), q.inputTokens + q.outputTokens, q.cost, p.daily)
            && RoomFor(b, TaskWindow(q.task), q.inputTokens + q.outputTokens, q.cost, p.task)
    ensures Reserve(b, id, q, p).1 in {Granted, DuplicateId, OverBudget}
    ensures Reserve(b, id, q, p).1 == DuplicateId <==> id in b.reservations
  {
    hide OpenIn, SpentIn, Total, RowAgrees, ReserveWrites, RoomFor, Row, Fits;
    assert RowAgrees(b, DayWindow(q.day)) && RowAgrees(b, TaskWindow(q.task));
    RoomIsOnTheRow(b, DayWindow(q.day), q.Demand(), p.daily);
    RoomIsOnTheRow(b, TaskWindow(q.task), q.Demand(), p.task);
    FitsIff(Row(b, DayWindow(q.day)), Row(b, TaskWindow(q.task)), q.Demand(), p);
  }

  lemma RoomIsOnTheRow(b: Books, w: Window, demand: Amount, limit: Amount)
    requires RowAgrees(b, w)
    ensures RoomFor(b, w, demand.tokens, demand.cost, limit) <==> Row(b, w).Used().Plus(demand).AtMost(limit)
  {
    hide OpenIn, SpentIn, Total, Row;
  }

  lemma FitsIff(day: Ledger, task: Ledger, demand: Amount, p: Policy)
    ensures Fits(day, task, demand, p) <==> day.Used().Plus(demand).AtMost(p.daily) && task.Used().Plus(demand).AtMost(p.task)
  {
  }

  /** What a granted reserve stores, field by field. */
  lemma GrantedRow(b: Books, id: ReservationId, q: Request, p: Policy)
    requires Reserve(b, id, q, p).1 == Granted
    ensures var b' := Reserve(b, id, q, p).0;
            && b'.reservations == b.reservations[id := Reservation(
                 q.task, q.profile, q.day, q.pricing, q.inputTokens, q.outputTokens, q.cost, Reserved)]
            && b'.usage == b.usage
  {
    ReserveTables(b, id, q, p);
    hide Reserve;
  }

  /** What a settlement stores, field by field: input and output tokens apart. */
  lemma SettledRow(b: Books, id: ReservationId, a: Actual)
    requires Reconcile(b, id, a).1 == Settled
    ensures var r, b' := b.reservations[id], Reconcile(b, id, a).0;
            && r.status == Reserved
            && b'.reservations == b.reservations[id := r.(status := Reconciled)]
            && b'.usage == b.usage[id := Usage(
                 r.task, r.profile, r.day, r.pricing.version, a.inputTokens, a.outputTokens, a.cost)]
  {
  }
}
