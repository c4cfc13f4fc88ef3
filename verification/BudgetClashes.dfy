/**
 Which statements of an open transaction can fail, in every reachable state: a settlement fails just as
 the atomic call would, and a reserve only when another day's call created its task row meanwhile.
 */
module BudgetClashes {
  import opened BudgetLedger
  import opened BudgetRuns
  import opened BudgetLocks

  // ---------------------------------------------------------------------------------------------
  // Along an interleaving
  // ---------------------------------------------------------------------------------------------

  /** The state after the first `k` actions. */
  ghost function StateAt(actions: seq<Action>, k: nat): System {
    if k <= |actions| && Execute(actions[..k]).At? then Execute(actions[..k]).s else START
  }

  /** Every prefix of an interleaving that did not get stuck did not either. */
  ghost predicate Runs(actions: seq<Action>) {
    forall k :: 0 <= k <= |actions| ==> Execute(actions[..k]).At?
  }

  lemma {:induction false} ExecutedRuns(actions: seq<Action>)
    requires Execute(actions).At?
    ensures Runs(actions)
  {
    if actions != [] {
      var shorter := actions[..|actions| - 1];
      ExecutedRuns(shorter);
      forall k | 0 <= k <= |actions| ensures Execute(actions[..k]).At? {
        assert k < |actions| ==> shorter[..k] == actions[..k];
        assert k == |actions| ==> actions[..k] == actions;
      }
    }
  }

  lemma StepAt(actions: seq<Action>, k: nat)
    requires Runs(actions) && k < |actions|
    ensures Enabled(StateAt(actions, k), actions[k])
    ensures StateAt(actions, k + 1) == Perform(StateAt(actions, k), actions[k])
  {
    hide Enabled, Perform, Committed;
    assert actions[..k + 1][..k] == actions[..k] && actions[..k + 1][k] == actions[k];
    assert Execute(actions[..k + 1]).At?;
  }

  lemma InvAt(actions: seq<Action>, k: nat)
    requires Runs(actions) && k <= |actions|
    ensures Inv(StateAt(actions, k))
  {
    InterleavingsAreSerial(actions[..k]);
  }

  lemma {:induction false} RowsOnlyGrow(actions: seq<Action>, i: nat, j: nat)
    requires Runs(actions) && i <= j <= |actions|
    ensures StateAt(actions, i).db.ledgers.Keys <= StateAt(actions, j).db.ledgers.Keys
    decreases j
  {
    if i < j {
      hide StateAt, Runs;
      RowsOnlyGrow(actions, i, j - 1);
      StepAt(actions, j - 1);
      StepKeepsRows(StateAt(actions, j - 1), actions[j - 1]);
    }
  }

  lemma StepKeepsRows(s: System, a: Action)
    requires Enabled(s, a)
    ensures s.db.ledgers.Keys <= Perform(s, a).db.ledgers.Keys
  {
    hide Next;
  }

  // ---------------------------------------------------------------------------------------------
  // Settlements
  // ---------------------------------------------------------------------------------------------

  /** Whenever a statement of a settlement fails, the whole call fails on the tables as they are then, and
      leaves them alone; so failed settlements too behave as if run one at a time. */
  lemma FailedSettlementIsAtomicFailure(actions: seq<Action>, tid: TxnId)
    requires Execute(actions).At?
    requires var s := Execute(actions).s;
             tid in s.txns && s.txns[tid].Settling? && Next(s.db, tid, s.txns[tid]).Fails?
    ensures var s := Execute(actions).s;
            var (b, outcome) := Step(s.db, OpOf(tid, s.txns[tid]));
            b == s.db && outcome in {Unavailable, Overrun}
  {
    InterleavingsAreSerial(actions);
    InterleavingsAreWithinBudget(actions, DayWindow(0));
    var s := Execute(actions).s;
    assert Coherent(s.db, tid, s.txns[tid]);
    hide Inv, Execute, Coherent, Agrees;
    SettlementFailure(s.db, tid, s.txns[tid]);
    ReconcileFailsOnlyForCause(s.db, s.txns[tid].id, s.txns[tid].a);
  }

  lemma SettlementFailure(db: Books, tid: TxnId, t: Txn)
    requires Coherent(db, tid, t) && t.Settling? && Next(db, tid, t).Fails?
    ensures Reconcile(db, t.id, t.a).1 != Settled && Reconcile(db, t.id, t.a).0 == db
  {
  }

  // ---------------------------------------------------------------------------------------------
  // Reserves
  // ---------------------------------------------------------------------------------------------

  /** In every reachable state the next statement of a reserve fails exactly when it is the insert of a task
      row that it read as missing and that is committed by now. */
  lemma ReserveFailsExactlyWhen(actions: seq<Action>, tid: TxnId)
    requires Execute(actions).At?
    requires var s := Execute(actions).s; tid in s.txns && s.txns[tid].Reserving?
    ensures var s := Execute(actions).s;
            Next(s.db, tid, s.txns[tid]).Fails? <==>
              s.txns[tid].rs.RTaskAbsent? && s.txns[tid].q.TaskRow() in s.db.ledgers
  {
    InterleavingsAreSerial(actions);
    assert Coherent(Execute(actions).s.db, tid, Execute(actions).s.txns[tid]);
  }

  /** `tid` began as a reserve with step `b`, and has been open ever since. */
  ghost predicate OpenSince(actions: seq<Action>, b: nat, tid: TxnId, q: Request, p: Policy) {
    && b < |actions| && actions[b] == Begin(tid, Reserving(q, p, RStarted))
    && forall k :: b < k <= |actions| ==> tid in StateAt(actions, k).txns
  }

  predicate ReadAbsent(s: System, tid: TxnId, q: Request) {
    tid in s.txns && s.txns[tid].Reserving? && s.txns[tid].q == q && s.txns[tid].rs.RTaskAbsent?
  }

  /** Another transaction, reserving for the same task on another day. */
  predicate Rival(s: System, tid: TxnId, q: Request, u: TxnId) {
    && u in s.txns && u != tid && s.txns[u].Reserving?
    && s.txns[u].q.task == q.task && s.txns[u].q.day != q.day
  }

  /** While `tid` has read its task row as missing, step `j` commits a rival's. */
  ghost predicate RivalCommits(actions: seq<Action>, tid: TxnId, q: Request, j: nat)
    requires j < |actions|
  {
    var s := StateAt(actions, j);
    && ReadAbsent(s, tid, q) && actions[j].Advance? && Rival(s, tid, q, actions[j].tid)
    && Committed(s, actions[j]) != []
  }

  predicate IsReserve(t: Txn, q: Request, p: Policy) {
    t.Reserving? && t.q == q && t.p == p
  }

  lemma BegunReserve(s: System, tid: TxnId, q: Request, p: Policy)
    requires Enabled(s, Begin(tid, Reserving(q, p, RStarted)))
    ensures tid in Perform(s, Begin(tid, Reserving(q, p, RStarted))).txns
    ensures Perform(s, Begin(tid, Reserving(q, p, RStarted))).txns[tid] == Reserving(q, p, RStarted)
  {
  }

  lemma OpenAt(actions: seq<Action>, b: nat, tid: TxnId, q: Request, p: Policy, k: nat)
    requires OpenSince(actions, b, tid, q, p) && b < k <= |actions|
    ensures tid in StateAt(actions, k).txns && actions[b] == Begin(tid, Reserving(q, p, RStarted))
  {
    hide StateAt;
  }

  lemma {:induction false} RequestIsKept(actions: seq<Action>, b: nat, tid: TxnId, q: Request, p: Policy, k: nat)
    requires Runs(actions) && OpenSince(actions, b, tid, q, p) && b < k <= |actions|
    ensures tid in StateAt(actions, k).txns && IsReserve(StateAt(actions, k).txns[tid], q, p)
    ensures k == b + 1 ==> StateAt(actions, k).txns[tid].rs.RStarted?
    decreases k
  {
    hide StateAt, Runs, Enabled, Perform, OpenSince;
    OpenAt(actions, b, tid, q, p, k);
    StepAt(actions, k - 1);
    if k > b + 1 {
      RequestIsKept(actions, b, tid, q, p, k - 1);
      StepKeepsRequest(StateAt(actions, k - 1), actions[k - 1], tid, q, p);
    } else {
      BegunReserve(StateAt(actions, k - 1), tid, q, p);
    }
  }

  /** What a step does to an open reserve: its request stays, and it finds its task row missing only by
      reading that it is. */
  predicate KeptRequest(t: Txn, t': Txn, q: Request, p: Policy, db: Books) {
    IsReserve(t', q, p) && (t.Reserving? && t'.rs.RTaskAbsent? ==> t.rs.RTaskAbsent? || q.TaskRow() !in db.ledgers)
  }

  lemma StepKeepsRequest(s: System, a: Action, tid: TxnId, q: Request, p: Policy)
    requires Enabled(s, a) && tid in s.txns && IsReserve(s.txns[tid], q, p) && tid in Perform(s, a).txns
    ensures KeptRequest(s.txns[tid], Perform(s, a).txns[tid], q, p, Perform(s, a).db)
  {
    if a == Advance(tid) {
      OwnStepKeepsRequest(s, tid, q, p);
    } else {
      OtherStepKeepsReserve(s, a, tid);
    }
  }

  lemma OtherStepKeepsReserve(s: System, a: Action, tid: TxnId)
    requires Enabled(s, a) && a != Advance(tid) && tid in s.txns && tid in Perform(s, a).txns
    ensures Perform(s, a).txns[tid] == s.txns[tid]
  {
    hide Next;
  }

  lemma OwnStepKeepsRequest(s: System, tid: TxnId, q: Request, p: Policy)
    requires tid in s.txns && IsReserve(s.txns[tid], q, p) && tid in Perform(s, Advance(tid)).txns
    ensures KeptRequest(s.txns[tid], Perform(s, Advance(tid)).txns[tid], q, p, Perform(s, Advance(tid)).db)
  {
    AdvancedAndOpen(s, tid);
    hide Perform, ReserveWrites;
  }

  lemma AdvancedAndOpen(s: System, tid: TxnId)
    requires tid in s.txns && tid in Perform(s, Advance(tid)).txns
    ensures Next(s.db, tid, s.txns[tid]).Moves?
    ensures Perform(s, Advance(tid)) == s.(txns := s.txns[tid := Next(s.db, tid, s.txns[tid]).t])
  {
    hide Next;
  }

  /** Only a reserve's commit adds a task row, and it is the row of its own task. */
  lemma NewTaskRowIsReserved(db: Books, uid: TxnId, u: Txn, w: Window)
    requires Coherent(db, uid, u) && Next(db, uid, u).Commits? && w.TaskWindow?
    requires w !in db.ledgers && w in Publish(db, Next(db, uid, u).writes).ledgers
    ensures u.Reserving? && u.q.TaskRow() == w
  {
  }

  /** A commit of a reserve leaves its task row in place. */
  lemma CommittedReserveHasRow(db: Books, uid: TxnId, u: Txn)
    requires Coherent(db, uid, u) && Next(db, uid, u).Commits? && u.Reserving?
    ensures u.q.TaskRow() in Publish(db, Next(db, uid, u).writes).ledgers
  {
  }

  /** Two open reserves past their gate are for different days. */
  lemma GatesSeparateDays(s: System, t: TxnId, u: TxnId)
    requires Inv(s) && t in s.txns && u in s.txns && t != u && s.txns[t].Reserving? && s.txns[u].Reserving?
    requires !s.txns[t].rs.RStarted? && !s.txns[u].rs.RStarted?
    ensures s.txns[t].q.day != s.txns[u].q.day
  {
    assert Gate(s.txns[t].q.day) in Held(s.txns[t]);
    assert Gate(s.txns[u].q.day) in Held(s.txns[u]);
    assert Held(s.txns[t]) !! Held(s.txns[u]);
  }

  /** The step at which a row that `tid` read as missing appears is a rival's commit. */
  lemma RowAppears(actions: seq<Action>, tid: TxnId, q: Request, j: nat)
    requires Runs(actions) && j < |actions|
    requires ReadAbsent(StateAt(actions, j), tid, q) && ReadAbsent(StateAt(actions, j + 1), tid, q)
    requires q.TaskRow() !in StateAt(actions, j).db.ledgers && q.TaskRow() in StateAt(actions, j + 1).db.ledgers
    ensures RivalCommits(actions, tid, q, j)
  {
    var s, a := StateAt(actions, j), actions[j];
    StepAt(actions, j);
    InvAt(actions, j);
    hide StateAt, Next, Inv, Coherent, Publish, Runs;
    var u := s.txns[a.tid];
    assert Next(s.db, a.tid, u).Commits? && a.tid != tid;
    CoherentAt(s, a.tid);
    NewTaskRowIsReserved(s.db, a.tid, u, q.TaskRow());
    CommitsAreDecided(s.db, a.tid, u);
    GatesSeparateDays(s, tid, a.tid);
  }

  lemma CoherentAt(s: System, tid: TxnId)
    requires Inv(s) && tid in s.txns
    ensures Coherent(s.db, tid, s.txns[tid])
  {
  }

  lemma CommitsAreDecided(db: Books, uid: TxnId, u: Txn)
    requires Next(db, uid, u).Commits? && u.Reserving?
    ensures u.rs.RDecided?
  {
  }

  /** What step `k` did to a transaction that has read its row as missing. */
  lemma AbsentBefore(actions: seq<Action>, b: nat, tid: TxnId, q: Request, p: Policy, k: nat)
    requires Runs(actions) && OpenSince(actions, b, tid, q, p) && b + 1 < k <= |actions|
    requires ReadAbsent(StateAt(actions, k), tid, q)
    ensures ReadAbsent(StateAt(actions, k - 1), tid, q) || q.TaskRow() !in StateAt(actions, k).db.ledgers
  {
    hide StateAt, Runs, Enabled, Perform, OpenSince;
    StepAt(actions, k - 1);
    RequestIsKept(actions, b, tid, q, p, k - 1);
    RequestIsKept(actions, b, tid, q, p, k);
    StepKeepsRequest(StateAt(actions, k - 1), actions[k - 1], tid, q, p);
  }

  lemma {:induction false} PresentRowCameFromRival(actions: seq<Action>, b: nat, tid: TxnId, q: Request, p: Policy, k: nat)
    requires Runs(actions) && OpenSince(actions, b, tid, q, p) && b < k <= |actions|
    requires ReadAbsent(StateAt(actions, k), tid, q) && q.TaskRow() in StateAt(actions, k).db.ledgers
    ensures exists j :: b < j < k && RivalCommits(actions, tid, q, j)
    decreases k
  {
    RequestIsKept(actions, b, tid, q, p, k);
    AbsentBefore(actions, b, tid, q, p, k);
    if q.TaskRow() in StateAt(actions, k - 1).db.ledgers {
      PresentRowCameFromRival(actions, b, tid, q, p, k - 1);
    } else {
      RowAppears(actions, tid, q, k - 1);
    }
  }

  /** Exactly when an open reserve fails: it has read its task row as missing, and while it had, a call for
      the same task on another day committed. */
  lemma ReserveFailsIffRivalCommitted(actions: seq<Action>, b: nat, tid: TxnId, q: Request, p: Policy)
    requires Runs(actions) && OpenSince(actions, b, tid, q, p)
    ensures var s := StateAt(actions, |actions|);
            Next(s.db, tid, s.txns[tid]).Fails? <==>
              ReadAbsent(s, tid, q) && exists j :: b < j < |actions| && RivalCommits(actions, tid, q, j)
  {
    var n := |actions|;
    var s := StateAt(actions, n);
    assert actions[..n] == actions;
    RequestIsKept(actions, b, tid, q, p, n);
    ReserveFailsExactlyWhen(actions, tid);
    hide Next, Execute;
    if ReadAbsent(s, tid, q) && q.TaskRow() in s.db.ledgers {
      PresentRowCameFromRival(actions, b, tid, q, p, n);
    }
    if j :| b < j < n && RivalCommits(actions, tid, q, j) {
      RivalLeavesRow(actions, tid, q, j);
      RowsOnlyGrow(actions, j + 1, n);
    }
  }

  lemma RivalLeavesRow(actions: seq<Action>, tid: TxnId, q: Request, j: nat)
    requires Runs(actions) && j < |actions| && RivalCommits(actions, tid, q, j)
    ensures q.TaskRow() in StateAt(actions, j + 1).db.ledgers
  {
    var s, a := StateAt(actions, j), actions[j];
    StepAt(actions, j);
    InvAt(actions, j);
    hide StateAt, Next, Inv, Coherent, Publish, Runs;
    CoherentAt(s, a.tid);
    CommittedReserveHasRow(s.db, a.tid, s.txns[a.tid]);
  }

  /** A caller's first way to be safe: the task row exists already when the reserve begins. */
  lemma {:induction false} KnownTaskIsNeverAbsent(actions: seq<Action>, b: nat, tid: TxnId, q: Request, p: Policy, k: nat)
    requires Runs(actions) && OpenSince(actions, b, tid, q, p) && b < k <= |actions|
    requires q.TaskRow() in StateAt(actions, b).db.ledgers
    ensures !ReadAbsent(StateAt(actions, k), tid, q)
    decreases k
  {
    RequestIsKept(actions, b, tid, q, p, k);
    if k > b + 1 {
      KnownTaskIsNeverAbsent(actions, b, tid, q, p, k - 1);
      RowsOnlyGrow(actions, b, k);
      if ReadAbsent(StateAt(actions, k), tid, q) {
        AbsentBefore(actions, b, tid, q, p, k);
      }
    }
  }

  lemma KnownTaskNeverFails(actions: seq<Action>, b: nat, tid: TxnId, q: Request, p: Policy)
    requires Runs(actions) && OpenSince(actions, b, tid, q, p)
    requires q.TaskRow() in StateAt(actions, b).db.ledgers
    ensures var s := StateAt(actions, |actions|); !Next(s.db, tid, s.txns[tid]).Fails?
  {
    KnownTaskIsNeverAbsent(actions, b, tid, q, p, |actions|);
    ReserveFailsIffRivalCommitted(actions, b, tid, q, p);
  }

  /** The second: no other reserve of the same task on another day is open meanwhile. */
  lemma AloneNeverFails(actions: seq<Action>, b: nat, tid: TxnId, q: Request, p: Policy)
    requires Runs(actions) && OpenSince(actions, b, tid, q, p)
    requires forall k, u :: b < k <= |actions| ==> !Rival(StateAt(actions, k), tid, q, u)
    ensures var s := StateAt(actions, |actions|); !Next(s.db, tid, s.txns[tid]).Fails?
  {
    ReserveFailsIffRivalCommitted(actions, b, tid, q, p);
    hide Next;
    forall j | b < j < |actions| ensures !RivalCommits(actions, tid, q, j) {
      assert actions[j].Advance? ==> !Rival(StateAt(actions, j), tid, q, actions[j].tid);
    }
  }
}
