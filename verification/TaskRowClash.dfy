/** An interleaving in which two reserves of one task clash on the first insert of its row. */
module TaskRowClash {
  import opened BudgetLedger
  import opened BudgetLocks

  /** Two reserves both read the task row as missing; then the first one inserts it and commits. */
  function ClashRun(q: Request, q': Request, p: Policy): seq<Action> {
    [Begin(0, Reserving(q, p, RStarted)), Begin(1, Reserving(q', p, RStarted)),
     Advance(0), Advance(0), Advance(0), Advance(0),
     Advance(1), Advance(1), Advance(1), Advance(1),
     Advance(0), Advance(0), Advance(0)]
  }

  /** Both calls open on empty tables, at the given stages. */
  function Both(q: Request, q': Request, p: Policy, rs: ReserveStage, rs': ReserveStage): System {
    System(EMPTY_BOOKS, map[0 := Reserving(q, p, rs), 1 := Reserving(q', p, rs')])
  }

  /** The action can be taken, and leads there. */
  ghost predicate Leads(s: System, a: Action, next: System) {
    (!a.Begin? ==> a.tid in s.txns) && Enabled(s, a) && Perform(s, a) == next
  }

  lemma FirstMoves(q: Request, q': Request, p: Policy, rs: ReserveStage, rs': ReserveStage, next: ReserveStage)
    requires Next(EMPTY_BOOKS, 0, Reserving(q, p, rs)) == Moves(Reserving(q, p, next))
    requires var need := Needs(EMPTY_BOOKS, Reserving(q, p, rs)); need.Some? ==> need.value !in Held(Reserving(q', p, rs'))
    ensures Leads(Both(q, q', p, rs, rs'), Advance(0), Both(q, q', p, next, rs'))
  {
    hide Next, Needs, Held;
    assert Perform(Both(q, q', p, rs, rs'), Advance(0)) == Both(q, q', p, next, rs');
  }

  lemma SecondMoves(q: Request, q': Request, p: Policy, rs: ReserveStage, rs': ReserveStage, next: ReserveStage)
    requires Next(EMPTY_BOOKS, 1, Reserving(q', p, rs')) == Moves(Reserving(q', p, next))
    requires var need := Needs(EMPTY_BOOKS, Reserving(q', p, rs')); need.Some? ==> need.value !in Held(Reserving(q, p, rs))
    ensures Leads(Both(q, q', p, rs, rs'), Advance(1), Both(q, q', p, rs, next))
  {
    hide Next, Needs, Held;
    assert Perform(Both(q, q', p, rs, rs'), Advance(1)) == Both(q, q', p, rs, next);
  }

  function FirstWrites(q: Request, p: Policy): BudgetLedger.Writes {
    ReserveWrites(0, q, p, EMPTY_LEDGER, EMPTY_LEDGER)
  }

  /** The first call has committed, granted or refused; the second still holds on to what it read. */
  function OnlySecond(q: Request, q': Request, p: Policy): System {
    System(Publish(EMPTY_BOOKS, FirstWrites(q, p)), map[1 := Reserving(q', p, RTaskAbsent(EMPTY_LEDGER))])
  }

  lemma FirstPublishes(q: Request, q': Request, p: Policy)
    ensures Leads(Both(q, q', p, RDecided(FirstWrites(q, p)), RTaskAbsent(EMPTY_LEDGER)), Advance(0), OnlySecond(q, q', p))
  {
    hide FirstWrites, Publish;
    var s := Both(q, q', p, RDecided(FirstWrites(q, p)), RTaskAbsent(EMPTY_LEDGER));
    assert s.txns - {0} == map[1 := Reserving(q', p, RTaskAbsent(EMPTY_LEDGER))];
    assert Perform(s, Advance(0)) == OnlySecond(q, q', p);
  }

  /** The states the run goes through, from the start to the first call's commit. */
  function ClashStates(q: Request, q': Request, p: Policy): seq<System> {
    var empty, absent := EMPTY_LEDGER, RTaskAbsent(EMPTY_LEDGER);
    [START, System(EMPTY_BOOKS, map[0 := Reserving(q, p, RStarted)]),
     Both(q, q', p, RStarted, RStarted),
     Both(q, q', p, RGated, RStarted), Both(q, q', p, RDayAbsent, RStarted),
     Both(q, q', p, RHasDay(empty), RStarted), Both(q, q', p, absent, RStarted),
     Both(q, q', p, absent, RGated), Both(q, q', p, absent, RDayAbsent),
     Both(q, q', p, absent, RHasDay(empty)), Both(q, q', p, absent, absent),
     Both(q, q', p, RHasBoth(empty, empty), absent), Both(q, q', p, RDecided(FirstWrites(q, p)), absent),
     OnlySecond(q, q', p)]
  }

  lemma BothBegin(q: Request, q': Request, p: Policy)
    ensures var run, s := ClashRun(q, q', p), ClashStates(q, q', p);
            Leads(s[0], run[0], s[1]) && Leads(s[1], run[1], s[2])
  {
  }

  lemma FirstReads(q: Request, q': Request, p: Policy)
    requires q.day != q'.day
    ensures var run, s := ClashRun(q, q', p), ClashStates(q, q', p);
            forall k :: 2 <= k < 6 ==> Leads(s[k], run[k], s[k + 1])
  {
    hide Leads, Both;
    FirstMoves(q, q', p, RStarted, RStarted, RGated);
    FirstMoves(q, q', p, RGated, RStarted, RDayAbsent);
    FirstMoves(q, q', p, RDayAbsent, RStarted, RHasDay(EMPTY_LEDGER));
    FirstMoves(q, q', p, RHasDay(EMPTY_LEDGER), RStarted, RTaskAbsent(EMPTY_LEDGER));
  }

  lemma SecondReads(q: Request, q': Request, p: Policy)
    requires q.day != q'.day
    ensures var run, s := ClashRun(q, q', p), ClashStates(q, q', p);
            forall k :: 6 <= k < 10 ==> Leads(s[k], run[k], s[k + 1])
  {
    var rs := RTaskAbsent(EMPTY_LEDGER);
    hide Leads, Both;
    SecondMoves(q, q', p, rs, RStarted, RGated);
    SecondMoves(q, q', p, rs, RGated, RDayAbsent);
    SecondMoves(q, q', p, rs, RDayAbsent, RHasDay(EMPTY_LEDGER));
    SecondMoves(q, q', p, rs, RHasDay(EMPTY_LEDGER), rs);
  }

  lemma FirstWritesItsRows(q: Request, q': Request, p: Policy)
    requires q.day != q'.day
    ensures var run, s := ClashRun(q, q', p), ClashStates(q, q', p);
            forall k :: 10 <= k < 13 ==> Leads(s[k], run[k], s[k + 1])
  {
    var rs, has := RTaskAbsent(EMPTY_LEDGER), RHasBoth(EMPTY_LEDGER, EMPTY_LEDGER);
    hide Leads, Both, ReserveWrites;
    FirstMoves(q, q', p, rs, rs, has);
    FirstMoves(q, q', p, has, rs, RDecided(FirstWrites(q, p)));
    FirstPublishes(q, q', p);
  }

  /** A list of actions that lead from state to state is an interleaving that ends in the last of them. */
  lemma {:induction false} LeadsToLast(actions: seq<Action>, states: seq<System>)
    requires |states| == |actions| + 1 && states[0] == START
    requires forall k :: 0 <= k < |actions| ==> Leads(states[k], actions[k], states[k + 1])
    ensures Execute(actions).At? && Execute(actions).s == states[|actions|]
  {
    if actions != [] {
      var n := |actions| - 1;
      LeadsToLast(actions[..n], states[..n + 1]);
      assert Leads(states[n], actions[n], states[n + 1]);
      hide Enabled, Perform, Committed;
    }
  }

  lemma ClashRunLeads(q: Request, q': Request, p: Policy)
    requires q.day != q'.day
    ensures Execute(ClashRun(q, q', p)).At? && Execute(ClashRun(q, q', p)).s == OnlySecond(q, q', p)
  {
    var run, s := ClashRun(q, q', p), ClashStates(q, q', p);
    BothBegin(q, q', p);
    FirstReads(q, q', p);
    SecondReads(q, q', p);
    FirstWritesItsRows(q, q', p);
    assert |run| == 13 && |s| == 14 && s[0] == START && s[13] == OnlySecond(q, q', p);
    hide ClashRun, ClashStates, Leads, OnlySecond, Execute;
    LeadsToLast(run, s);
  }

  /** The first insert of a task row has no such lock as that of a day row: two calls of one task on two
      days run into each other, and the second one fails without a trace. */
  lemma TaskInsertCanClash(q: Request, q': Request, p: Policy)
    requires q.day != q'.day && q.task == q'.task
    ensures var end := Execute(ClashRun(q, q', p));
            && end.At? && 1 in end.s.txns && Enabled(end.s, Advance(1))
            && Next(end.s.db, 1, end.s.txns[1]).Fails?
            && Perform(end.s, Advance(1)) == System(end.s.db, map[])
            && q'.TaskRow() in end.s.db.ledgers
  {
    ClashRunLeads(q, q', p);
    hide Execute, ClashRun;
    var s := OnlySecond(q, q', p);
    assert s.txns - {1} == map[];
    assert q'.TaskRow() in FirstWrites(q, p).ledgers;
  }
}
