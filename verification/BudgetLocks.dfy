/**
 Reserve and reconcile as they interleave: one step per locking read, insert, decision and commit.
 Every interleaving leaves the tables that running the committed calls one after another, in commit
 order, would leave; and the one global lock order keeps waiting free of cycles.
 */
module BudgetLocks {
  import opened Options
  import opened Amounts
  import opened BudgetLedger
  import opened BudgetRuns

  type TxnId = ReservationId

  datatype Lock = Gate(day: Day) | ReservationLock(id: ReservationId) | RowLock(row: Window)

  /** The global lock order: advisory day lock, reservation row, daily row, task row. */
  function Rank(l: Lock): nat {
    match l
    case Gate(_) => 0
    case ReservationLock(_) => 1
    case RowLock(DayWindow(_)) => 2
    case RowLock(TaskWindow(_)) => 3
  }

  datatype ReserveStage =
    | RStarted
    | RGated
    | RDayAbsent
    | RHasDay(day: Ledger)
    | RTaskAbsent(day: Ledger)
    | RHasBoth(day: Ledger, task: Ledger)
    | RDecided(writes: Writes)

  datatype SettleStage =
    | SStarted
    | SClaimed(r: Reservation)
    | SHasDay(r: Reservation, day: Ledger)
    | SHasBoth(r: Reservation, day: Ledger, task: Ledger)
    | SDecided(r: Reservation, writes: Writes)

  /** An open transaction with the rows it has read; a reservation row gets its transaction's id. */
  datatype Txn =
    | Reserving(q: Request, p: Policy, rs: ReserveStage)
    | Settling(id: ReservationId, a: Actual, ss: SettleStage)

  /** Committed tables and open transactions. Locks last until commit or abort, so who holds what
      follows from the stages. */
  datatype System = System(db: Books, txns: map<TxnId, Txn>)

  const START := System(EMPTY_BOOKS, map[])

  predicate Started(t: Txn) {
    match t
    case Reserving(_, _, rs) => rs.RStarted?
    case Settling(_, _, ss) => ss.SStarted?
  }

  function Held(t: Txn): set<Lock> {
    match t
    case Reserving(q, _, rs) => (
      match rs
      case RStarted => {}
      case RGated => {Gate(q.day)}
      case RDayAbsent => {Gate(q.day)}
      case RHasDay(_) => {Gate(q.day), RowLock(q.DayRow())}
      case RTaskAbsent(_) => {Gate(q.day), RowLock(q.DayRow())}
      case RHasBoth(_, _) => {Gate(q.day), RowLock(q.DayRow()), RowLock(q.TaskRow())}
      case RDecided(_) => {Gate(q.day), RowLock(q.DayRow()), RowLock(q.TaskRow())})
    case Settling(id, _, ss) => (
      match ss
      case SStarted => {}
      case SClaimed(_) => {ReservationLock(id)}
      case SHasDay(r, _) => {ReservationLock(id), RowLock(DayWindow(r.day))}
      case SHasBoth(r, _, _) => {ReservationLock(id), RowLock(DayWindow(r.day)), RowLock(TaskWindow(r.task))}
      case SDecided(r, _) => {ReservationLock(id), RowLock(DayWindow(r.day)), RowLock(TaskWindow(r.task))})
  }

  function IfRow(db: Books, w: Window): Option<Lock> {
    if w in db.ledgers then Some(RowLock(w)) else None
  }

  /** The lock the next statement waits for. Reading a row that is not there takes no lock; the
      insert that follows locks the new key. */
  function Needs(db: Books, t: Txn): Option<Lock> {
    match t
    case Reserving(q, _, rs) => (
      match rs
      case RStarted => Some(Gate(q.day))
      case RGated => IfRow(db, q.DayRow())
      case RDayAbsent => Some(RowLock(q.DayRow()))
      case RHasDay(_) => IfRow(db, q.TaskRow())
      case RTaskAbsent(_) => Some(RowLock(q.TaskRow()))
      case RHasBoth(_, _) => None
      case RDecided(_) => None)
    case Settling(id, _, ss) => (
      match ss
      case SStarted => if id in db.reservations then Some(ReservationLock(id)) else None
      case SClaimed(r) => IfRow(db, DayWindow(r.day))
      case SHasDay(r, _) => IfRow(db, TaskWindow(r.task))
      case SHasBoth(_, _, _) => None
      case SDecided(_, _) => None)
  }

  datatype Progress = Moves(t: Txn) | Fails | Commits(writes: Writes)

  /** The next statement of transaction `me` once its lock is granted. */
  function Next(db: Books, me: TxnId, t: Txn): Progress {
    match t
    case Reserving(q, p, rs) => (
      match rs
      case RStarted => Moves(t.(rs := RGated))
      case RGated => Moves(t.(rs := if q.DayRow() in db.ledgers then RHasDay(db.ledgers[q.DayRow()]) else RDayAbsent))
      case RDayAbsent => if q.DayRow() in db.ledgers then Fails else Moves(t.(rs := RHasDay(EMPTY_LEDGER)))
      case RHasDay(day) =>
        Moves(t.(rs := if q.TaskRow() in db.ledgers then RHasBoth(day, db.ledgers[q.TaskRow()]) else RTaskAbsent(day)))
      case RTaskAbsent(day) => if q.TaskRow() in db.ledgers then Fails else Moves(t.(rs := RHasBoth(day, EMPTY_LEDGER)))
      case RHasBoth(day, task) => Moves(t.(rs := RDecided(ReserveWrites(me, q, p, day, task))))
      case RDecided(writes) => Commits(writes))
    case Settling(id, a, ss) => (
      match ss
      case SStarted =>
        if id !in db.reservations || db.reservations[id].status != Reserved then Fails
        else Moves(t.(ss := SClaimed(db.reservations[id])))
      case SClaimed(r) =>
        if DayWindow(r.day) !in db.ledgers then Fails
        else Moves(t.(ss := SHasDay(r, db.ledgers[DayWindow(r.day)])))
      case SHasDay(r, day) =>
        if TaskWindow(r.task) !in db.ledgers then Fails
        else Moves(t.(ss := SHasBoth(r, day, db.ledgers[TaskWindow(r.task)])))
      case SHasBoth(r, day, task) =>
        if !a.Amount().AtMost(r.Held()) || id in db.usage then Fails
        else Moves(t.(ss := SDecided(r, ReconcileWrites(id, r, a, day, task))))
      case SDecided(_, writes) => Commits(writes))
  }

  datatype Action = Begin(tid: TxnId, t: Txn) | Advance(tid: TxnId) | Abort(tid: TxnId)

  predicate Blocks(s: System, waiter: TxnId, holder: TxnId)
    requires waiter in s.txns && holder in s.txns
  {
    var need := Needs(s.db, s.txns[waiter]);
    waiter != holder && need.Some? && need.value in Held(s.txns[holder])
  }

  ghost predicate Enabled(s: System, a: Action) {
    match a
    case Begin(tid, t) => tid !in s.txns && Started(t) && tid !in s.db.reservations
    case Advance(tid) => tid in s.txns && forall u :: u in s.txns ==> !Blocks(s, tid, u)
    case Abort(tid) => tid in s.txns
  }

  function Perform(s: System, a: Action): System
    requires !a.Begin? ==> a.tid in s.txns
  {
    match a
    case Begin(tid, t) => s.(txns := s.txns[tid := t])
    case Abort(tid) => s.(txns := s.txns - {tid})
    case Advance(tid) => (
      match Next(s.db, tid, s.txns[tid])
      case Moves(t) => s.(txns := s.txns[tid := t])
      case Fails => s.(txns := s.txns - {tid})
      case Commits(writes) => System(Publish(s.db, writes), s.txns - {tid}))
  }

  function OpOf(tid: TxnId, t: Txn): Op {
    match t
    case Reserving(q, p, _) => ReserveOp(tid, q, p)
    case Settling(id, a, _) => ReconcileOp(id, a)
  }

  /** The call that an action commits, if it commits one. */
  function Committed(s: System, a: Action): seq<Op> {
    if a.Advance? && a.tid in s.txns && Next(s.db, a.tid, s.txns[a.tid]).Commits?
    then [OpOf(a.tid, s.txns[a.tid])] else []
  }

  /** An interleaving that got stuck on a disabled action, or where it led and what it committed. */
  datatype Trace = Stuck | At(s: System, ops: seq<Op>)

  ghost function Execute(actions: seq<Action>): Trace {
    if actions == [] then At(START, [])
    else
      var last := actions[|actions| - 1];
      match Execute(actions[..|actions| - 1])
      case Stuck => Stuck
      case At(s, ops) => if Enabled(s, last) then At(Perform(s, last), ops + Committed(s, last)) else Stuck
  }

  // ---------------------------------------------------------------------------------------------
  // What holds between any two steps
  // ---------------------------------------------------------------------------------------------

  /** What a transaction has read still is what is committed. */
  ghost predicate Coherent(db: Books, tid: TxnId, t: Txn) {
    match t
    case Reserving(q, p, rs) =>
      tid !in db.reservations && (
      match rs
      case RStarted => true
      case RGated => true
      case RDayAbsent => q.DayRow() !in db.ledgers
      case RHasDay(day) => Row(db, q.DayRow()) == day
      case RTaskAbsent(day) => Row(db, q.DayRow()) == day
      case RHasBoth(day, task) => Row(db, q.DayRow()) == day && Row(db, q.TaskRow()) == task
      case RDecided(writes) => writes == ReserveWrites(tid, q, p, Row(db, q.DayRow()), Row(db, q.TaskRow())))
    case Settling(id, a, ss) => (
      match ss
      case SStarted => true
      case SClaimed(r) => Claimed(db, id, r)
      case SHasDay(r, day) => Claimed(db, id, r) && HasRow(db, DayWindow(r.day), day)
      case SHasBoth(r, day, task) =>
        Claimed(db, id, r) && HasRow(db, DayWindow(r.day), day) && HasRow(db, TaskWindow(r.task), task)
      case SDecided(r, writes) =>
        && Claimed(db, id, r) && a.Amount().AtMost(r.Held()) && id !in db.usage
        && DayWindow(r.day) in db.ledgers && TaskWindow(r.task) in db.ledgers
        && writes == ReconcileWrites(id, r, a, Row(db, DayWindow(r.day)), Row(db, TaskWindow(r.task))))
  }

  predicate Claimed(db: Books, id: ReservationId, r: Reservation) {
    id in db.reservations && db.reservations[id] == r && r.status == Reserved
  }

  predicate HasRow(db: Books, w: Window, l: Ledger) {
    w in db.ledgers && db.ledgers[w] == l
  }

  ghost predicate Inv(s: System) {
    && (forall t :: t in s.txns ==> Coherent(s.db, t, s.txns[t]))
    && (forall t, u :: t in s.txns && u in s.txns && t != u ==> Held(s.txns[t]) !! Held(s.txns[u]))
  }

  /** A step that does not commit takes the lock it needs, and no other. */
  lemma MoveTakesNeededLock(db: Books, tid: TxnId, t: Txn)
    requires Next(db, tid, t).Moves?
    ensures Held(Next(db, tid, t).t) == Held(t) + (if Needs(db, t).Some? then {Needs(db, t).value} else {})
  {
  }

  lemma MoveStaysCoherent(db: Books, tid: TxnId, t: Txn)
    requires Coherent(db, tid, t) && Next(db, tid, t).Moves?
    ensures Coherent(db, tid, Next(db, tid, t).t)
  {
  }

  /** At commit the prepared writes are those of the atomic call on the committed tables. */
  lemma CommitIsAtomicCall(db: Books, tid: TxnId, t: Txn)
    requires Coherent(db, tid, t) && Next(db, tid, t).Commits?
    ensures Publish(db, Next(db, tid, t).writes) == Step(db, OpOf(tid, t)).0
    ensures Step(db, OpOf(tid, t)).1 in {Granted, OverBudget, Settled}
  {
  }

  /** The rows, reservations and usage that a commit may change. */
  ghost predicate Confined(db: Books, db': Books, tid: TxnId, t: Txn) {
    && (forall w :: RowLock(w) !in Held(t) ==> (w in db'.ledgers <==> w in db.ledgers))
    && (forall w :: RowLock(w) !in Held(t) ==> Row(db', w) == Row(db, w))
    && (t.Settling? ==> db'.ledgers.Keys == db.ledgers.Keys)
    && (forall id :: id in db.reservations && ReservationLock(id) !in Held(t) ==>
          id in db'.reservations && db'.reservations[id] == db.reservations[id])
    && (forall id :: id in db'.reservations && id !in db.reservations ==> id == tid)
    && (forall id :: ReservationLock(id) !in Held(t) ==> (id in db'.usage <==> id in db.usage))
  }

  lemma WritesStayInTheirRows(db: Books, writes: Writes, d: Window, t: Window)
    requires writes.ledgers.Keys == {d, t}
    ensures forall w :: w != d && w != t ==>
              (w in Publish(db, writes).ledgers <==> w in db.ledgers) && Row(Publish(db, writes), w) == Row(db, w)
  {
  }

  lemma ReservationIsConfined(db: Books, tid: TxnId, t: Txn)
    requires t.Reserving? && t.rs.RDecided? && Coherent(db, tid, t)
    ensures Confined(db, Publish(db, t.rs.writes), tid, t)
  {
    var writes := t.rs.writes;
    assert writes.ledgers.Keys == {t.q.DayRow(), t.q.TaskRow()};
    assert writes.usage == map[] && writes.reservations.Keys <= {tid};
    WritesStayInTheirRows(db, writes, t.q.DayRow(), t.q.TaskRow());
    assert Publish(db, writes).usage == db.usage;
  }

  lemma SettlementIsConfined(db: Books, tid: TxnId, t: Txn)
    requires t.Settling? && t.ss.SDecided? && Coherent(db, tid, t)
    ensures Confined(db, Publish(db, t.ss.writes), tid, t)
  {
    var r, writes := t.ss.r, t.ss.writes;
    assert writes.ledgers.Keys == {DayWindow(r.day), TaskWindow(r.task)};
    assert writes.usage.Keys == {t.id} && writes.reservations.Keys == {t.id};
    WritesStayInTheirRows(db, writes, DayWindow(r.day), TaskWindow(r.task));
    assert Publish(db, writes).ledgers.Keys == db.ledgers.Keys;
  }

  lemma CommitIsConfined(db: Books, tid: TxnId, t: Txn)
    requires Coherent(db, tid, t) && Next(db, tid, t).Commits?
    ensures Confined(db, Publish(db, Next(db, tid, t).writes), tid, t)
  {
    if t.Reserving? {
      ReservationIsConfined(db, tid, t);
    } else {
      SettlementIsConfined(db, tid, t);
    }
  }

  /** Nobody else's reads go stale when a transaction commits. */
  lemma CommitKeepsOthersCoherent(db: Books, db': Books, tid: TxnId, t: Txn, uid: TxnId, u: Txn)
    requires Coherent(db, uid, u) && Coherent(db, tid, t) && Next(db, tid, t).Commits?
    requires tid != uid && Held(t) !! Held(u) && Confined(db, db', tid, t)
    ensures Coherent(db', uid, u)
  {
    if u.Reserving? {
      assert Gate(u.q.day) in Held(u) ==> Gate(u.q.day) !in Held(t);
    }
  }

  lemma StepKeepsInv(s: System, a: Action)
    requires Inv(s) && Enabled(s, a)
    ensures Inv(Perform(s, a))
  {
    if a.Advance? {
      var t := s.txns[a.tid];
      match Next(s.db, a.tid, t) {
        case Moves(t') =>
          MoveTakesNeededLock(s.db, a.tid, t);
          MoveStaysCoherent(s.db, a.tid, t);
        case Fails =>
        case Commits(writes) =>
          CommitIsConfined(s.db, a.tid, t);
          forall u | u in s.txns && u != a.tid ensures Coherent(Publish(s.db, writes), u, s.txns[u]) {
            CommitKeepsOthersCoherent(s.db, Publish(s.db, writes), a.tid, t, u, s.txns[u]);
          }
      }
    }
  }

  lemma StepIsStutterOrAtomicCall(s: System, a: Action)
    requires Inv(s) && Enabled(s, a)
    ensures Perform(s, a).db ==
            if Committed(s, a) == [] then s.db else Step(s.db, Committed(s, a)[0]).0
    ensures |Committed(s, a)| <= 1
  {
    if Committed(s, a) != [] {
      CommitIsAtomicCall(s.db, a.tid, s.txns[a.tid]);
    }
  }

  lemma RunSnoc(b: Books, ops: seq<Op>, op: Op)
    ensures Run(b, ops + [op]) == Step(Run(b, ops), op).0
  {
    assert (ops + [op])[..|ops|] == ops;
  }

  lemma StartIsInv()
    ensures Inv(START)
  {
  }

  /** Serializability: any interleaving leaves the tables of its committed calls run one at a time. */
  lemma {:induction false} InterleavingsAreSerial(actions: seq<Action>)
    requires Execute(actions).At?
    ensures Inv(Execute(actions).s)
    ensures Execute(actions).s.db == Run(EMPTY_BOOKS, Execute(actions).ops)
  {
    StartIsInv();
    if actions != [] {
      var before, last := Execute(actions[..|actions| - 1]), actions[|actions| - 1];
      InterleavingsAreSerial(actions[..|actions| - 1]);
      StepKeepsInv(before.s, last);
      StepIsStutterOrAtomicCall(before.s, last);
      hide Inv, Enabled, Perform, Committed, Step;
      if Committed(before.s, last) == [] {
        assert before.ops + [] == before.ops;
      } else {
        RunSnoc(EMPTY_BOOKS, before.ops, Committed(before.s, last)[0]);
      }
    }
  }

  /** So agreement and the caps hold at every point of every interleaving. */
  lemma InterleavingsAreWithinBudget(actions: seq<Action>, w: Window)
    requires Execute(actions).At?
    ensures Agrees(Execute(actions).s.db)
    ensures Capped(Execute(actions).s.db, w, LastGrant(Execute(actions).ops, w))
  {
    InterleavingsAreSerial(actions);
    EmptyBooksAgree();
    RunAgrees(EMPTY_BOOKS, Execute(actions).ops);
    UsedWithinLastGrant(Execute(actions).ops, w);
  }

  // ---------------------------------------------------------------------------------------------
  // First inserts and waiting
  // ---------------------------------------------------------------------------------------------

  /** Thanks to the advisory lock the first insert of a daily row never clashes. */
  lemma DailyInsertNeverClashes(actions: seq<Action>, tid: TxnId)
    requires Execute(actions).At?
    requires var s := Execute(actions).s; tid in s.txns && s.txns[tid].Reserving? && s.txns[tid].rs.RDayAbsent?
    ensures var s := Execute(actions).s; Next(s.db, tid, s.txns[tid]).Moves?
  {
    InterleavingsAreSerial(actions);
    assert Coherent(Execute(actions).s.db, tid, Execute(actions).s.txns[tid]);
  }

  lemma LocksAreTakenInOrder(db: Books, t: Txn, held: Lock)
    requires Needs(db, t).Some? && held in Held(t)
    ensures Rank(held) < Rank(Needs(db, t).value)
  {
  }

  /** Along a chain of waiting transactions the locks waited for only rise in the order, so no
      transaction ever waits, directly or through others, for itself. */
  lemma {:induction false} NoWaitCycle(s: System, chain: seq<TxnId>)
    requires |chain| >= 2 && forall i :: 0 <= i < |chain| ==> chain[i] in s.txns
    requires forall i :: 0 <= i < |chain| - 1 ==> Blocks(s, chain[i], chain[i + 1])
    ensures chain[0] != chain[|chain| - 1]
    ensures var start, end := Needs(s.db, s.txns[chain[0]]), Needs(s.db, s.txns[chain[|chain| - 1]]);
            start.Some? && (end.Some? ==> Rank(start.value) < Rank(end.value))
  {
    var last := |chain| - 1;
    assert Blocks(s, chain[last - 1], chain[last]);
    var end := Needs(s.db, s.txns[chain[last]]);
    if end.Some? {
      LocksAreTakenInOrder(s.db, s.txns[chain[last]], Needs(s.db, s.txns[chain[last - 1]]).value);
    }
    if last > 1 {
      NoWaitCycle(s, chain[..last]);
    }
    assert Blocks(s, chain[0], chain[1]);
  }

  /** While a transaction is open, some open transaction can take its next step. */
  lemma {:induction false} SomeoneCanAdvance(s: System, tid: TxnId) returns (free: TxnId)
    requires tid in s.txns
    ensures free in s.txns && Enabled(s, Advance(free))
    decreases if Needs(s.db, s.txns[tid]).Some? then 4 - Rank(Needs(s.db, s.txns[tid]).value) else 0
  {
    if Enabled(s, Advance(tid)) {
      free := tid;
    } else {
      var holder :| holder in s.txns && Blocks(s, tid, holder);
      if Needs(s.db, s.txns[holder]).Some? {
        LocksAreTakenInOrder(s.db, s.txns[holder], Needs(s.db, s.txns[tid]).value);
      }
      free := SomeoneCanAdvance(s, holder);
    }
  }
}
