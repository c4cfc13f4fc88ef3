/** When exactly each transition of a decision is permitted, and with what it is refused otherwise. */
module ApprovalGuards {
  import opened Options
  import opened Enums
  import opened Texts
  import opened Approval

  /** At least one reason, and none of them blank. */
  predicate Given(reasons: seq<string>) {
    |reasons| > 0 && forall i :: 0 <= i < |reasons| ==> Strip(reasons[i]) != ""
  }

  /** What the state machine leads to at all. */
  const EDGES: set<(State, State)> := {
    (Draft, Validated), (Validated, RiskVetoed), (Validated, PendingApproval),
    (PendingApproval, Approved), (PendingApproval, Rejected), (PendingApproval, Expired),
    (Approved, ExecutionPending), (Approved, Cancelled),
    (ExecutionPending, PartiallyExecuted), (ExecutionPending, Executed), (ExecutionPending, Cancelled),
    (PartiallyExecuted, Executed), (PartiallyExecuted, Cancelled),
    (Executed, ReviewDue), (ReviewDue, Reviewed)
  }

  /** The gate has passed, or has vetoed a reduction whose exception is on record. */
  predicate GateOpen(c: Context) {
    c.gate == Pass || (c.gate == Veto && (c.action == Reduce || c.action == Exit) && c.exceptionRecorded)
  }

  predicate ApprovedByHuman(f: Facts) {
    f.recorded && f.unexpired && f.actorType == Some(Human) && f.actorId.Some? && Strip(f.actorId.value) != ""
  }

  /** What the context has to say for a decision to enter the target. */
  predicate Opens(current: State, target: State, c: Context) {
    && (target == Validated ==> c.schemaValid && c.policyPassed && c.dataSufficient)
    && (target == RiskVetoed ==> c.gate == Veto)
    && (target == PendingApproval ==> GateOpen(c))
    && (target == Approved ==> ApprovedByHuman(c.approval))
    && (target == Rejected ==> c.approval.rejected)
    && (target == Expired ==> c.approval.expired)
    && (target == ExecutionPending ==>
          c.approval.unexpired && !c.approval.revoked && c.snapshotMatches && c.priceWithinTolerance)
    && (target == Cancelled && current == Approved ==> c.approval.revoked)
    && (target == PartiallyExecuted || target == Executed ==> c.executionRecorded)
    && (target == ReviewDue ==> c.reviewDue)
    && (target == Reviewed ==> c.reviewRecorded)
  }

  /** What a transition with reasons, that the state machine has, is refused with. */
  function ErrorOf(target: State, c: Context): Error {
    if target == PendingApproval then (if c.gate == UnknownGate then RiskAssessmentRequired else RiskVetoBlocked)
    else if target in {Approved, Rejected, Expired} then ApprovalInvalid
    else if target == ExecutionPending && (!c.approval.unexpired || c.approval.revoked) then ApprovalInvalid
    else GuardFailed
  }

  lemma GivenIff(reasons: seq<string>)
    ensures Given(reasons) <==> !(reasons == [] || exists reason :: reason in reasons && Blank(reason))
  {
    hide Strip;
    if exists reason :: reason in reasons && Blank(reason) {
      var reason :| reason in reasons && Blank(reason);
      var i :| 0 <= i < |reasons| && reasons[i] == reason;
      assert Strip(reasons[i]) == "";
    }
    forall i | 0 <= i < |reasons| ensures Strip(reasons[i]) == "" ==> exists reason :: reason in reasons && Blank(reason) {
      assert reasons[i] in reasons;
      assert Strip(reasons[i]) == "" ==> Blank(reasons[i]);
    }
  }

  lemma EdgesAreAllowed(current: State, target: State)
    ensures (current, target) in EDGES <==> target in Allowed(current)
  {
  }

  lemma TransitionIs(current: State, target: State, c: Context, reasons: seq<string>)
    ensures Transition(current, target, c, reasons) ==
            if reasons == [] || (exists reason :: reason in reasons && Blank(reason)) then Refused(ReasonRequired)
            else if target !in Allowed(current) then Refused(InvalidTransition)
            else if Opens(current, target, c) then Permitted
            else Refused(ErrorOf(target, c))
  {
    hide Strip;
  }

  /** A transition is permitted if and only if reasons are given, the state machine has it, and the context says what
      its target asks for. */
  lemma PermittedIff(current: State, target: State, c: Context, reasons: seq<string>)
    ensures Transition(current, target, c, reasons) == Permitted <==>
            Given(reasons) && (current, target) in EDGES && Opens(current, target, c)
  {
    hide Transition, Given, Blank, Opens, Allowed, ErrorOf;
    TransitionIs(current, target, c, reasons);
    GivenIff(reasons);
    EdgesAreAllowed(current, target);
  }

  /** Without reasons it is refused for that, off the state machine for that, and otherwise with the error of the
      guard that fails. */
  lemma RefusedWith(current: State, target: State, c: Context, reasons: seq<string>)
    ensures !Given(reasons) ==> Transition(current, target, c, reasons) == Refused(ReasonRequired)
    ensures Given(reasons) && (current, target) !in EDGES ==> Transition(current, target, c, reasons) == Refused(InvalidTransition)
    ensures Given(reasons) && (current, target) in EDGES && !Opens(current, target, c) ==>
              Transition(current, target, c, reasons) == Refused(ErrorOf(target, c))
  {
    hide Transition, Given, Blank, Opens, Allowed, ErrorOf;
    TransitionIs(current, target, c, reasons);
    GivenIff(reasons);
    EdgesAreAllowed(current, target);
  }

  /** Record `i` is the last of the history that occurred by the instant. */
  predicate IsLatest(h: History, asOf: int, i: nat) {
    i < |h| && h[i].occurredAt <= asOf && forall j :: i < j < |h| ==> asOf < h[j].occurredAt
  }

  /** An approval that has not reached its expiry, and one that has. */
  predicate Stands(r: Record, asOf: int) {
    r.action == Approve && r.expiresAt.Some? && asOf < r.expiresAt.value
  }

  predicate RunOut(r: Record, asOf: int) {
    r.action == Approve && r.expiresAt.Some? && r.expiresAt.value <= asOf
  }

  lemma LatestIs(h: History, asOf: int, i: nat)
    requires ValidHistory(h) && IsLatest(h, asOf, i)
    ensures LatestAt(h, asOf) == Some(h[i])
  {
    LatestIsVisible(h, asOf);
    assert h[i] in h && LatestAt(h, asOf).Some?;
    LatestIsLast(h, asOf);
    hide LatestAt, Blank;
    var k :| 0 <= k < |h| && h[k] == LatestAt(h, asOf).value && forall j :: k < j < |h| ==> asOf < h[j].occurredAt;
    assert i == k;
  }

  /** A record is valid if and only if someone is named and it is an approval that stands when it is given, up to an
      expiry, or a rejection or revocation, which has none. */
  lemma ValidIff(r: Record, asOf: int)
    ensures r.Valid() <==>
            && Strip(r.actorId) != ""
            && (r.action == Approve ==> r.IsValidAt(r.occurredAt))
            && (r.action == Reject || r.action == Revoke ==> r.expiresAt == None)
    ensures r.IsValidAt(asOf) <==> Stands(r, asOf) && !(asOf < r.occurredAt)
  {
    hide Strip;
  }

  /** What the records say, by the last one that occurred by the instant: an approval until its expiry and no longer,
      a rejection, a revocation; and nothing where none occurred. */
  lemma FactsOfLatest(h: History, asOf: int, i: nat)
    requires ValidHistory(h) && IsLatest(h, asOf, i)
    ensures var r, stands := h[i], Stands(h[i], asOf);
            FactsAt(Some(h), asOf) ==
              Facts(if stands then Some(Human) else None, if stands then Some(r.actorId) else None,
                    stands, stands, r.action == Revoke, r.action == Reject, RunOut(r, asOf))
  {
    LatestIs(h, asOf, i);
    assert h[i].Valid();
    hide LatestAt, Blank, ValidHistory;
  }

  lemma NoFactsBefore(h: History, asOf: int)
    requires ValidHistory(h) && forall i :: 0 <= i < |h| ==> asOf < h[i].occurredAt
    ensures FactsAt(Some(h), asOf) == Facts(None, None, false, false, false, false, false) == FactsAt(None, asOf)
  {
    LatestIsVisible(h, asOf);
    hide LatestAt;
  }

  lemma OpensFor(c: Context)
    ensures Opens(PendingApproval, Approved, c) <==> ApprovedByHuman(c.approval)
    ensures Opens(PendingApproval, Rejected, c) <==> c.approval.rejected
    ensures Opens(PendingApproval, Expired, c) <==> c.approval.expired
    ensures Opens(Approved, ExecutionPending, c) <==>
              c.approval.unexpired && !c.approval.revoked && c.snapshotMatches && c.priceWithinTolerance
    ensures Opens(Approved, Cancelled, c) <==> c.approval.revoked
    ensures EDGES >= {(PendingApproval, Approved), (PendingApproval, Rejected), (PendingApproval, Expired),
                      (Approved, ExecutionPending), (Approved, Cancelled)}
  {
    hide ApprovedByHuman, GateOpen;
  }

  /** So the records decide: with reasons given, a pending decision is approved, rejected or expired, and an approved
      one executed or cancelled, if and only if the last record that occurred says so. */
  lemma RecordsDecide(h: History, asOf: int, i: nat, c: Context, reasons: seq<string>)
    requires ValidHistory(h) && IsLatest(h, asOf, i) && c.approval == FactsAt(Some(h), asOf) && Given(reasons)
    ensures var r := h[i];
            && (Transition(PendingApproval, Approved, c, reasons) == Permitted <==> Stands(r, asOf))
            && (Transition(PendingApproval, Rejected, c, reasons) == Permitted <==> r.action == Reject)
            && (Transition(PendingApproval, Expired, c, reasons) == Permitted <==> RunOut(r, asOf))
            && (Transition(Approved, ExecutionPending, c, reasons) == Permitted <==>
                  Stands(r, asOf) && c.snapshotMatches && c.priceWithinTolerance)
            && (Transition(Approved, Cancelled, c, reasons) == Permitted <==> r.action == Revoke)
  {
    FactsOfLatest(h, asOf, i);
    assert Strip(h[i].actorId) != "" by { assert h[i].Valid(); }
    assert Stands(h[i], asOf) ==> ApprovedByHuman(c.approval) && h[i].action == Approve;
    OpensFor(c);
    hide Transition, FactsAt, Strip, Opens, Given, ValidHistory, IsLatest, Stands, RunOut;
    PermittedIff(PendingApproval, Approved, c, reasons);
    PermittedIff(PendingApproval, Rejected, c, reasons);
    PermittedIff(PendingApproval, Expired, c, reasons);
    PermittedIff(Approved, ExecutionPending, c, reasons);
    PermittedIff(Approved, Cancelled, c, reasons);
  }
}
