/** The budget store as an object: its methods are the store's transactions, statement by statement. */
module BudgetStore {
  import opened Amounts
  import opened BudgetLedger
  import opened BudgetRuns

  datatype DayUsage = DayUsage(day: Day, consumed: Amount, reserved: Amount, remaining: Amount)

  function AtLeastZero(a: Amount): Amount {
    Amount(if a.tokens < 0 then 0 else a.tokens, if a.cost < 0.0 then 0.0 else a.cost)
  }

  /** What a usage report shows as remaining. */
  function Remaining(l: Ledger, limit: Amount): Amount {
    AtLeastZero(limit.Minus(l.consumed).Minus(l.reserved))
  }

  /** In each component something is asked for, or the use so far is within the limit. */
  predicate Honest(l: Ledger, limit: Amount, demand: Amount) {
    && (0 < demand.tokens || l.Used().tokens <= limit.tokens)
    && (0.0 < demand.cost || l.Used().cost <= limit.cost)
  }

  /** Whatever still fits under a limit is at most what is shown as remaining. What is at most that fits,
      unless it asks for nothing of a component that is over its limit: shown as zero, it is less. */
  lemma RemainingIsWhatStillFits(l: Ledger, limit: Amount, demand: Amount)
    ensures l.Used().Plus(demand).AtMost(limit) ==> demand.AtMost(Remaining(l, limit))
    ensures demand.Nonnegative() ==>
              (l.Used().Plus(demand).AtMost(limit) <==> demand.AtMost(Remaining(l, limit)) && Honest(l, limit, demand))
  {
    var left := limit.Minus(l.consumed).Minus(l.reserved);
    assert l.Used().Plus(demand).AtMost(limit) <==> demand.AtMost(left);
  }

  /** `left` tells of every demand whether it fits, as far as it is honest. */
  ghost predicate TellsWhatFits(left: Amount, l: Ledger, limit: Amount) {
    forall demand: Amount ::
      && (l.Used().Plus(demand).AtMost(limit) ==> demand.AtMost(left))
      && (demand.Nonnegative() ==> (l.Used().Plus(demand).AtMost(limit) <==> demand.AtMost(left) && Honest(l, limit, demand)))
  }

  lemma RemainingTellsWhatFits(l: Ledger, limit: Amount)
    ensures TellsWhatFits(Remaining(l, limit), l, limit)
  {
    hide Remaining, Honest;
    forall demand: Amount
      ensures l.Used().Plus(demand).AtMost(limit) ==> demand.AtMost(Remaining(l, limit))
      ensures demand.Nonnegative() ==>
                (l.Used().Plus(demand).AtMost(limit) <==> demand.AtMost(Remaining(l, limit)) && Honest(l, limit, demand))
    {
      RemainingIsWhatStillFits(l, limit, demand);
    }
  }

  /** Where a day is over its cost cap, a call that asks for no cost, as at a price of zero, is at most what the
      report shows as remaining; the reserve refuses it all the same. */
  lemma RemainderCanOverstate(b: Books, id: ReservationId, q: Request, p: Policy)
    requires id !in b.reservations && q.cost == 0.0
    requires p.daily.cost < Row(b, q.DayRow()).Used().cost
    requires q.Demand().tokens <= Remaining(Row(b, q.DayRow()), p.daily).tokens
    ensures q.Demand().AtMost(Remaining(Row(b, q.DayRow()), p.daily)) && Reserve(b, id, q, p).1 == OverBudget
  {
    hide Row, ReserveWrites;
  }

  /** A run gets there: after one granted call, any policy with a lower cap has its day over that cap. */
  lemma OverTheCapIsReachable(q: Request, p: Policy)
    requires q.Demand().AtMost(p.daily) && q.Demand().AtMost(p.task)
    ensures var b := Run(EMPTY_BOOKS, [ReserveOp(0, q, p)]);
            b.reservations.Keys == {0} && Row(b, q.DayRow()).Used() == q.Demand()
  {
    var ops := [ReserveOp(0, q, p)];
    assert ops[..|ops| - 1] == [] && Run(EMPTY_BOOKS, []) == EMPTY_BOOKS;
    assert Run(EMPTY_BOOKS, ops) == Step(EMPTY_BOOKS, ops[0]).0 == Reserve(EMPTY_BOOKS, 0, q, p).0;
    FirstIsGranted(q, p);
    hide Run, Step, Reserve, Row;
  }

  lemma FirstIsGranted(q: Request, p: Policy)
    requires q.Demand().AtMost(p.daily) && q.Demand().AtMost(p.task)
    ensures Reserve(EMPTY_BOOKS, 0, q, p).0.reservations == map[0 := q.Record()]
    ensures Row(Reserve(EMPTY_BOOKS, 0, q, p).0, q.DayRow()) == Hold(EMPTY_LEDGER, q.Demand())
  {
    ReserveTables(EMPTY_BOOKS, 0, q, p);
    ReserveRow(EMPTY_BOOKS, 0, q, p, q.DayRow());
    assert Reserve(EMPTY_BOOKS, 0, q, p).1 == Granted;
    hide Reserve, Row;
    assert map[] + map[0 := q.Record()] == map[0 := q.Record()];
  }

  lemma WriteBoth(m: map<Window, Ledger>, d: Window, t: Window, day: Ledger, task: Ledger)
    requires d != t
    ensures m[d := day][t := task] == m + map[d := day, t := task]
  {
  }

  lemma OverwriteBoth(m: map<Window, Ledger>, d: Window, t: Window, day0: Ledger, task0: Ledger, day: Ledger, task: Ledger)
    requires d != t
    ensures (m + map[d := day0, t := task0])[d := day][t := task] == m + map[d := day, t := task]
  {
  }

  lemma PublishedReserve(b: Books, b': Books, id: ReservationId, q: Request, p: Policy)
    requires id !in b.reservations
    requires var w := ReserveWrites(id, q, p, Row(b, q.DayRow()), Row(b, q.TaskRow()));
             && b'.ledgers == b.ledgers + w.ledgers
             && b'.reservations == b.reservations + w.reservations
             && b'.usage == b.usage
    ensures b' == Reserve(b, id, q, p).0
  {
    assert b.usage + map[] == b.usage;
  }

  class Store {
    var ledgers: map<Window, Ledger>
    var reservations: map<ReservationId, Reservation>
    var usage: map<ReservationId, Usage>

    constructor ()
      ensures State() == EMPTY_BOOKS && Agrees(State())
    {
      ledgers, reservations, usage := map[], map[], map[];
      new;
      EmptyBooksAgree();
    }

    ghost function State(): Books
      reads this
    {
      Books(ledgers, reservations, usage)
    }

    /** Reads a ledger row, inserting the zero row first when there is none. */
    method GetOrCreate(w: Window) returns (row: Ledger)
      modifies this`ledgers
      ensures ledgers == old(ledgers)[w := Row(old(State()), w)]
      ensures row == Row(old(State()), w)
    {
      if w !in ledgers {
        ledgers := ledgers[w := EMPTY_LEDGER];
      }
      row := ledgers[w];
      assert ledgers == old(ledgers)[w := row];
    }

    method OpenRows(q: Request) returns (daily: Ledger, task: Ledger)
      modifies this`ledgers
      ensures daily == Row(old(State()), q.DayRow()) && task == Row(old(State()), q.TaskRow())
      ensures ledgers == old(ledgers) + map[q.DayRow() := daily, q.TaskRow() := task]
    {
      daily := GetOrCreate(q.DayRow());
      task := GetOrCreate(q.TaskRow());
      WriteBoth(old(ledgers), q.DayRow(), q.TaskRow(), daily, task);
    }

    method HoldCapacity(id: ReservationId, q: Request, daily: Ledger, task: Ledger, ghost before: map<Window, Ledger>)
      requires ledgers == before + map[q.DayRow() := daily, q.TaskRow() := task]
      modifies this`ledgers, this`reservations
      ensures ledgers == before + map[q.DayRow() := Hold(daily, q.Demand()), q.TaskRow() := Hold(task, q.Demand())]
      ensures reservations == old(reservations) + map[id := q.Record()]
    {
      ledgers := ledgers[q.DayRow() := Hold(daily, q.Demand())];
      ledgers := ledgers[q.TaskRow() := Hold(task, q.Demand())];
      OverwriteBoth(before, q.DayRow(), q.TaskRow(), daily, task, Hold(daily, q.Demand()), Hold(task, q.Demand()));
      reservations := reservations[id := q.Record()];
    }

    method ReserveCapacity(id: ReservationId, q: Request, p: Policy) returns (outcome: Outcome)
      modifies this
      ensures (State(), outcome) == Reserve(old(State()), id, q, p)
    {
      if id in reservations {
        return DuplicateId;
      }
      var daily, task := OpenRows(q);
      if Fits(daily, task, q.Demand(), p) {
        HoldCapacity(id, q, daily, task, old(ledgers));
        outcome := Granted;
      } else {
        outcome := OverBudget;
      }
      PublishedReserve(old(State()), State(), id, q, p);
    }

    method ReconcileUsage(id: ReservationId, a: Actual) returns (outcome: Outcome)
      modifies this
      ensures (State(), outcome) == Reconcile(old(State()), id, a)
    {
      if id !in reservations || reservations[id].status != Reserved {
        return Unavailable;
      }
      var r := reservations[id];
      var d, t := DayWindow(r.day), TaskWindow(r.task);
      if d !in ledgers || t !in ledgers {
        return LedgerMissing;
      }
      if r.inputTokens + r.outputTokens < a.inputTokens + a.outputTokens || r.cost < a.cost {
        return Overrun;
      }
      if id in usage {
        return DuplicateUsage;
      }
      var daily, task := ledgers[d], ledgers[t];
      ledgers := ledgers[d := Release(daily, r.Held(), a.Amount())];
      ledgers := ledgers[t := Release(task, r.Held(), a.Amount())];
      reservations := reservations[id := r.(status := Reconciled)];
      usage := usage[id := Usage(r.task, r.profile, r.day, r.pricing.version, a.inputTokens, a.outputTokens, a.cost)];
      WriteBoth(old(ledgers), d, t, Release(daily, r.Held(), a.Amount()), Release(task, r.Held(), a.Amount()));
      assert State() == Publish(old(State()), ReconcileWrites(id, r, a, daily, task));
      outcome := Settled;
    }

    /** The day's usage report: what it shows as remaining is what the day's cap still admits, as far as the
        report is honest. */
    method UsageOn(day: Day, p: Policy) returns (u: DayUsage)
      ensures u.day == day && Ledger(u.reserved, u.consumed) == Row(State(), DayWindow(day))
      ensures TellsWhatFits(u.remaining, Row(State(), DayWindow(day)), p.daily)
    {
      var row := if DayWindow(day) in ledgers then ledgers[DayWindow(day)] else EMPTY_LEDGER;
      u := DayUsage(day, row.consumed, row.reserved, Remaining(row, p.daily));
      RemainingTellsWhatFits(row, p.daily);
    }
  }
}
