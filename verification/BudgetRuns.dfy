/**
 Whole runs of the budget store: any sequence of committed reserve and reconcile transactions,
 with refusals, calls that are never reconciled and policies that change from call to call.
 */
module BudgetRuns {
  import opened Amounts
  import opened BudgetLedger

  /** One committed transaction. The policy is an argument because the service reads it in an
      earlier transaction of its own. */
  datatype Op =
    | ReserveOp(id: ReservationId, request: Request, policy: Policy)
    | ReconcileOp(id: ReservationId, actual: Actual)

  function Step(b: Books, op: Op): (Books, Outcome) {
    match op
    case ReserveOp(id, q, p) => Reserve(b, id, q, p)
    case ReconcileOp(id, a) => Reconcile(b, id, a)
  }

  /** The books after the transactions of `ops`, in commit order. */
  function Run(b: Books, ops: seq<Op>): Books {
    if ops == [] then b else Step(Run(b, ops[..|ops| - 1]), ops[|ops| - 1]).0
  }

  lemma {:induction false} RunAgrees(b: Books, ops: seq<Op>)
    requires Agrees(b)
    ensures Agrees(Run(b, ops))
  {
    if ops != [] {
      var before := Run(b, ops[..|ops| - 1]);
      RunAgrees(b, ops[..|ops| - 1]);
      match ops[|ops| - 1] {
        case ReserveOp(id, q, p) => ReserveKeepsAgreement(before, id, q, p);
        case ReconcileOp(id, a) => ReconcileKeepsAgreement(before, id, a);
      }
    }
  }

  datatype Grant = NeverGranted | GrantedUnder(policy: Policy)

  /** The grant on record for window `w` after `op`, if `g` was on record before. */
  function NextGrant(b: Books, op: Op, w: Window, g: Grant): Grant {
    if op.ReserveOp? && op.request.Record().In(w) && Step(b, op).1 == Granted then GrantedUnder(op.policy) else g
  }

  /** The policy of the last reservation granted in window `w` along the run. */
  function LastGrant(ops: seq<Op>, w: Window): Grant {
    if ops == [] then NeverGranted
    else
      var prefix := ops[..|ops| - 1];
      NextGrant(Run(EMPTY_BOOKS, prefix), ops[|ops| - 1], w, LastGrant(prefix, w))
  }

  ghost predicate Capped(b: Books, w: Window, g: Grant) {
    match g
    case NeverGranted => Row(b, w) == EMPTY_LEDGER && forall id :: id in b.reservations ==> !b.reservations[id].In(w)
    case GrantedUnder(p) => Row(b, w).Used().AtMost(p.LimitOf(w))
  }

  lemma GrantFits(b: Books, id: ReservationId, q: Request, p: Policy, w: Window)
    requires Reserve(b, id, q, p).1 == Granted && q.Record().In(w)
    ensures Row(b, w).Used().Plus(q.Demand()).AtMost(p.LimitOf(w))
  {
  }

  lemma UntouchedRowStaysCapped(b: Books, b': Books, w: Window, g: Grant)
    requires Capped(b, w, g) && Row(b', w) == Row(b, w)
    requires forall id :: id in b'.reservations && b'.reservations[id].In(w) ==>
               id in b.reservations && b.reservations[id].In(w)
    ensures Capped(b', w, g)
  {
  }

  lemma HoldUses(l: Ledger, demand: Amount)
    ensures Hold(l, demand).Used() == l.Used().Plus(demand)
  {
  }

  lemma HeldRowIsCapped(b: Books, b': Books, w: Window, p: Policy, demand: Amount)
    requires Row(b', w) == Hold(Row(b, w), demand)
    requires Row(b, w).Used().Plus(demand).AtMost(p.LimitOf(w))
    ensures Capped(b', w, GrantedUnder(p))
  {
    var limit := p.LimitOf(w);
    HoldUses(Row(b, w), demand);
    hide Row, Hold, Ledger.Used, Amount.Plus, Amount.AtMost;
  }

  lemma ReserveKeepsCap(b: Books, id: ReservationId, q: Request, p: Policy, w: Window, g: Grant)
    requires Capped(b, w, g)
    ensures Capped(Reserve(b, id, q, p).0, w, NextGrant(b, ReserveOp(id, q, p), w, g))
  {
    hide Capped, Row, Fits, ReserveWrites;
    if id !in b.reservations {
      ReserveRow(b, id, q, p, w);
      ReserveTables(b, id, q, p);
      if q.Record().In(w) && Reserve(b, id, q, p).1 == Granted {
        GrantFits(b, id, q, p, w);
        HeldRowIsCapped(b, Reserve(b, id, q, p).0, w, p, q.Demand());
      } else {
        UntouchedRowStaysCapped(b, Reserve(b, id, q, p).0, w, g);
      }
    }
  }

  lemma ReconcileKeepsCap(b: Books, id: ReservationId, a: Actual, w: Window, g: Grant)
    requires Capped(b, w, g)
    ensures Capped(Reconcile(b, id, a).0, w, g)
  {
    if Reconcile(b, id, a).1 == Settled {
      ReconcileRow(b, id, a, w);
      ReconcileTables(b, id, a);
    }
  }

  /** Whatever the run, a window's consumed plus reserved amount is within the limit under which the
      last reservation was granted there, and zero if none ever was. */
  lemma {:induction false} UsedWithinLastGrant(ops: seq<Op>, w: Window)
    ensures Capped(Run(EMPTY_BOOKS, ops), w, LastGrant(ops, w))
  {
    if ops != [] {
      var prefix, last := ops[..|ops| - 1], ops[|ops| - 1];
      UsedWithinLastGrant(prefix, w);
      match last {
        case ReserveOp(id, q, p) => ReserveKeepsCap(Run(EMPTY_BOOKS, prefix), id, q, p, w, LastGrant(prefix, w));
        case ReconcileOp(id, a) => ReconcileKeepsCap(Run(EMPTY_BOOKS, prefix), id, a, w, LastGrant(prefix, w));
      }
    }
  }

  /** With one policy throughout, no window ever exceeds that policy's limit. */
  lemma FixedPolicyIsAHardCap(ops: seq<Op>, w: Window, p: Policy)
    requires forall i :: 0 <= i < |ops| && ops[i].ReserveOp? ==> ops[i].policy == p
    requires p.LimitOf(w).Nonnegative()
    ensures Row(Run(EMPTY_BOOKS, ops), w).Used().AtMost(p.LimitOf(w))
  {
    UsedWithinLastGrant(ops, w);
    LastGrantIsFromTheRun(ops, w);
  }

  lemma {:induction false} LastGrantIsFromTheRun(ops: seq<Op>, w: Window)
    ensures LastGrant(ops, w).GrantedUnder? ==>
              exists i :: 0 <= i < |ops| && ops[i].ReserveOp? && ops[i].policy == LastGrant(ops, w).policy
  {
    if ops != [] {
      var prefix, last := ops[..|ops| - 1], ops[|ops| - 1];
      LastGrantIsFromTheRun(prefix, w);
      if LastGrant(ops, w).GrantedUnder? && LastGrant(ops, w) == LastGrant(prefix, w) {
        var i :| 0 <= i < |prefix| && prefix[i].ReserveOp? && prefix[i].policy == LastGrant(prefix, w).policy;
        assert ops[i] == prefix[i];
      } else if LastGrant(ops, w).GrantedUnder? {
        assert ops[|ops| - 1].policy == LastGrant(ops, w).policy;
      }
    }
  }

  /** Rows that carry only non-negative quantities, as the service's quotes and settlements do. */
  predicate NonnegativeOp(op: Op) {
    match op
    case ReserveOp(_, q, _) => q.Demand().Nonnegative()
    case ReconcileOp(_, a) => a.Amount().Nonnegative()
  }

  ghost predicate NonnegativeTables(b: Books) {
    && (forall id :: id in b.reservations ==> b.reservations[id].Held().Nonnegative())
    && (forall id :: id in b.usage ==> b.usage[id].Spent().Nonnegative())
  }

  lemma {:induction false} RunTablesNonnegative(ops: seq<Op>)
    requires forall i :: 0 <= i < |ops| ==> NonnegativeOp(ops[i])
    ensures NonnegativeTables(Run(EMPTY_BOOKS, ops))
  {
    if ops != [] {
      var last, before := ops[|ops| - 1], Run(EMPTY_BOOKS, ops[..|ops| - 1]);
      RunTablesNonnegative(ops[..|ops| - 1]);
      assert NonnegativeOp(last);
      match last {
        case ReserveOp(id, q, p) =>
          if id !in before.reservations {
            ReserveTables(before, id, q, p);
          }
        case ReconcileOp(id, a) =>
          if Step(before, last).1 == Settled {
            ReconcileTables(before, id, a);
          }
      }
    }
  }

  /** In every reachable state no ledger column is negative, and both tables balance. */
  lemma RunLedgersSound(ops: seq<Op>, w: Window)
    requires forall i :: 0 <= i < |ops| ==> NonnegativeOp(ops[i])
    ensures var b := Run(EMPTY_BOOKS, ops);
            && Agrees(b)
            && Row(b, w).reserved.Nonnegative() && Row(b, w).consumed.Nonnegative()
            && Total(Column(b, true, true)) == Total(Column(b, false, true))
            && Total(Column(b, true, false)) == Total(Column(b, false, false))
  {
    var b := Run(EMPTY_BOOKS, ops);
    EmptyBooksAgree();
    RunAgrees(EMPTY_BOOKS, ops);
    RunTablesNonnegative(ops);
    LedgersNonnegative(b, w);
    DayAndTaskLedgersBalance(b);
  }

  // ---------------------------------------------------------------------------------------------
  // Settlements along a run
  // ---------------------------------------------------------------------------------------------

  lemma RunLast(b: Books, ops: seq<Op>)
    requires ops != []
    ensures Run(b, ops) == Step(Run(b, ops[..|ops| - 1]), ops[|ops| - 1]).0
  {
  }

  /** A run can be cut anywhere. */
  lemma {:induction false} RunSplit(b: Books, ops: seq<Op>, k: nat)
    requires k <= |ops|
    ensures Run(b, ops) == Run(Run(b, ops[..k]), ops[k..])
    decreases |ops|
  {
    if k == |ops| {
      assert ops[..k] == ops;
    } else {
      var n := |ops| - 1;
      var rest := ops[k..];
      RunSplit(b, ops[..n], k);
      assert ops[..n][..k] == ops[..k] && ops[..n][k..] == rest[..n - k] && rest[n - k] == ops[n];
      RunLast(b, ops);
      RunLast(Run(b, ops[..k]), rest);
      hide Step, Run;
    }
  }

  /** Step `i` of the run settles reservation `id`. */
  predicate SettlesAt(b: Books, ops: seq<Op>, i: nat, id: ReservationId)
    requires i < |ops|
  {
    ops[i].ReconcileOp? && ops[i].id == id && Step(Run(b, ops[..i]), ops[i]).1 == Settled
  }

  /** The reservation is reconciled, and these are its row and its usage row. */
  predicate IsSettled(b: Books, id: ReservationId, r: Reservation, u: Usage) {
    && id in b.reservations && b.reservations[id] == r && r.status == Reconciled
    && id in b.usage && b.usage[id] == u
  }

  lemma StepKeepsSettled(b: Books, op: Op, id: ReservationId, r: Reservation, u: Usage)
    requires IsSettled(b, id, r, u)
    ensures IsSettled(Step(b, op).0, id, r, u)
    ensures op.ReconcileOp? && op.id == id ==> Step(b, op) == (b, Unavailable)
  {
    match op
    case ReserveOp(i, q, p) =>
      if i !in b.reservations {
        ReserveTables(b, i, q, p);
      }
    case ReconcileOp(i, a) =>
      if Step(b, op).1 == Settled {
        ReconcileTables(b, i, a);
      }
  }

  /** Whatever the run, a reconciled reservation's row and its usage row never change again. */
  lemma {:induction false} SettledRowsNeverChange(b: Books, ops: seq<Op>, id: ReservationId, r: Reservation, u: Usage)
    requires IsSettled(b, id, r, u)
    ensures IsSettled(Run(b, ops), id, r, u)
  {
    hide IsSettled, Step;
    if ops != [] {
      SettledRowsNeverChange(b, ops[..|ops| - 1], id, r, u);
      StepKeepsSettled(Run(b, ops[..|ops| - 1]), ops[|ops| - 1], id, r, u);
    }
  }

  lemma SettlingSettles(b: Books, id: ReservationId, a: Actual) returns (r: Reservation, u: Usage)
    requires Reconcile(b, id, a).1 == Settled
    ensures IsSettled(Reconcile(b, id, a).0, id, r, u)
  {
    ReconcileTables(b, id, a);
    r, u := Reconcile(b, id, a).0.reservations[id], Reconcile(b, id, a).0.usage[id];
  }

  /** After a settlement no later step of the run settles the same reservation again. */
  lemma NoSecondSettlement(b: Books, ops: seq<Op>, i: nat, j: nat, id: ReservationId)
    requires i < j < |ops| && SettlesAt(b, ops, i, id)
    ensures !SettlesAt(b, ops, j, id)
  {
    var before := Run(b, ops[..i]);
    var r, u := SettlingSettles(before, id, ops[i].actual);
    assert ops[..i + 1][..i] == ops[..i] && ops[..i + 1][i] == ops[i];
    hide IsSettled, Reconcile;
    assert Run(b, ops[..i + 1]) == Step(before, ops[i]).0;
    SettledRowsNeverChange(Run(b, ops[..i + 1]), ops[i + 1..j], id, r, u);
    RunSplit(b, ops[..j], i + 1);
    assert ops[..j][..i + 1] == ops[..i + 1] && ops[..j][i + 1..] == ops[i + 1..j];
    StepKeepsSettled(Run(b, ops[..j]), ops[j], id, r, u);
  }

  /** A reservation is consumed at most once: of all settlements of it in a run at most one succeeds. */
  lemma SettledAtMostOnce(b: Books, ops: seq<Op>, i: nat, j: nat, id: ReservationId)
    requires i < |ops| && j < |ops| && SettlesAt(b, ops, i, id) && SettlesAt(b, ops, j, id)
    ensures i == j
  {
    if i < j {
      NoSecondSettlement(b, ops, i, j, id);
    } else if j < i {
      NoSecondSettlement(b, ops, j, i, id);
    }
  }
}
