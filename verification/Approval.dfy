/** Human approval of a decision over time: append-only records and the decision state machine. */
module Approval {
  import opened Options
  import opened Orders
  import opened Enums
  import opened Texts

  datatype ActorType = Human | SystemActor | LearningEngine
  datatype ApprovalAction = Approve | Reject | Revoke

  datatype Record = Record(id: nat, actorId: string, action: ApprovalAction, occurredAt: int, expiresAt: Option<int>) {
    /** The constructor's checks. */
    predicate Valid() {
      && !Blank(actorId)
      && (action == Approve ==> expiresAt.Some? && occurredAt < expiresAt.value)
      && (action != Approve ==> expiresAt.None?)
    }

    /** Valid from its instant up to, and not at, its expiry. */
    predicate IsValidAt(asOf: int) {
      action == Approve && expiresAt.Some? && occurredAt <= asOf < expiresAt.value
    }
  }

  type History = seq<Record>

  /** A decision's history: at least one record, ordered by time. */
  predicate ValidHistory(h: History) {
    && h != []
    && (forall r :: r in h ==> r.Valid())
    && (forall i, j :: 0 <= i < j < |h| ==> h[i].occurredAt <= h[j].occurredAt)
  }

  function VisibleBy(asOf: int): Record -> bool {
    (r: Record) => r.occurredAt <= asOf
  }

  function LatestAt(h: History, asOf: int): Option<Record> {
    var prior := Filter(VisibleBy(asOf), h);
    if prior == [] then None else Some(prior[|prior| - 1])
  }

  function ActiveAt(h: History, asOf: int): Option<Record> {
    var latest := LatestAt(h, asOf);
    if latest.Some? && latest.value.IsValidAt(asOf) then latest else None
  }

  datatype Context = Context(
    action: Action, schemaValid: bool, policyPassed: bool, dataSufficient: bool,
    gate: Gate, exceptionRecorded: bool, approval: Facts,
    snapshotMatches: bool, priceWithinTolerance: bool, executionRecorded: bool, reviewDue: bool, reviewRecorded: bool)

  datatype Facts = Facts(
    actorType: Option<ActorType>, actorId: Option<string>,
    recorded: bool, unexpired: bool, revoked: bool, rejected: bool, expired: bool)

  /** The approval facts a transition may use, derived from the records alone. */
  function FactsAt(h: Option<History>, asOf: int): Facts {
    var latest := if h.Some? then LatestAt(h.value, asOf) else None;
    var active := if h.Some? then ActiveAt(h.value, asOf) else None;
    Facts(if active.Some? then Some(Human) else None,
          if active.Some? then Some(active.value.actorId) else None,
          active.Some?, active.Some?,
          latest.Some? && latest.value.action == Revoke,
          latest.Some? && latest.value.action == Reject,
          latest.Some? && latest.value.action == Approve && !latest.value.IsValidAt(asOf))
  }

  // ---------------------------------------------------------------------------------------------
  // Records over time
  // ---------------------------------------------------------------------------------------------

  lemma {:induction false} LaterRecordsFiltered(h: History, later: History, asOf: int)
    requires forall r :: r in later ==> asOf < r.occurredAt
    ensures Filter(VisibleBy(asOf), h + later) == Filter(VisibleBy(asOf), h)
  {
    if h == [] {
      assert h + later == later;
      FilterNone(VisibleBy(asOf), later);
    } else {
      assert (h + later)[1..] == h[1..] + later;
      LaterRecordsFiltered(h[1..], later, asOf);
    }
  }

  /** Records that occur after `asOf` change no approval fact at `asOf`. */
  lemma LaterRecordsChangeNothing(h: History, later: History, asOf: int)
    requires forall r :: r in later ==> asOf < r.occurredAt
    ensures FactsAt(Some(h + later), asOf) == FactsAt(Some(h), asOf)
  {
    LaterRecordsFiltered(h, later, asOf);
  }

  lemma LatestIsVisible(h: History, asOf: int)
    ensures LatestAt(h, asOf).Some? <==> exists r :: r in h && r.occurredAt <= asOf
    ensures LatestAt(h, asOf).Some? ==> LatestAt(h, asOf).value in h && LatestAt(h, asOf).value.occurredAt <= asOf
  {
    var p := VisibleBy(asOf);
    FilterMembers(p, h);
    var prior := Filter(p, h);
    if prior != [] {
      assert prior[|prior| - 1] in prior;
    }
    if exists r :: r in h && r.occurredAt <= asOf {
      var r :| r in h && r.occurredAt <= asOf;
      assert r in prior;
    }
  }

  /** In time order, the latest visible record is one that no later visible record follows. */
  lemma {:induction false} LatestIsLast(h: History, asOf: int)
    requires ValidHistory(h) && LatestAt(h, asOf).Some?
    ensures exists i :: 0 <= i < |h| && h[i] == LatestAt(h, asOf).value
                        && forall j :: i < j < |h| ==> asOf < h[j].occurredAt
  {
    var p := VisibleBy(asOf);
    var le := (a: Record, b: Record) => a.occurredAt <= b.occurredAt;
    assert SortedBy(le, h);
    FilterKeepsPrefix(le, p, h);
    var n := |Filter(p, h)|;
    assert h[n - 1] == LatestAt(h, asOf).value;
  }

  function Ones(f: Facts): nat {
    (if f.unexpired then 1 else 0) + (if f.revoked then 1 else 0) +
    (if f.rejected then 1 else 0) + (if f.expired then 1 else 0)
  }

  /** Approved, revoked, rejected and expired exclude each other, and one of them holds as soon as any
      record is visible. */
  lemma ExactlyOneFact(h: History, asOf: int)
    requires ValidHistory(h)
    ensures Ones(FactsAt(Some(h), asOf)) == if exists r :: r in h && r.occurredAt <= asOf then 1 else 0
    ensures Ones(FactsAt(None, asOf)) == 0
    ensures FactsAt(Some(h), asOf).unexpired ==>
              FactsAt(Some(h), asOf).actorType == Some(Human) && !Blank(FactsAt(Some(h), asOf).actorId.value)
  {
    LatestIsVisible(h, asOf);
  }

  // ---------------------------------------------------------------------------------------------
  // The decision state machine
  // ---------------------------------------------------------------------------------------------

  datatype State =
    | Draft
    | Validated
    | RiskVetoed
    | PendingApproval
    | Approved
    | Rejected
    | Expired
    | ExecutionPending
    | PartiallyExecuted
    | Executed
    | Cancelled
    | ReviewDue
    | Reviewed

  datatype Error =
    | ReasonRequired
    | InvalidTransition
    | GuardFailed
    | RiskAssessmentRequired
    | RiskVetoBlocked
    | ApprovalInvalid

  datatype Verdict = Permitted | Refused(error: Error)

  function Allowed(s: State): set<State> {
    match s
    case Draft => {Validated}
    case Validated => {RiskVetoed, PendingApproval}
    case PendingApproval => {Approved, Rejected, Expired}
    case Approved => {ExecutionPending, Cancelled}
    case ExecutionPending => {PartiallyExecuted, Executed, Cancelled}
    case PartiallyExecuted => {Executed, Cancelled}
    case Executed => {ReviewDue}
    case ReviewDue => {Reviewed}
    case _ => {}
  }

  function Guard(condition: bool, error: Error): Verdict {
    if condition then Permitted else Refused(error)
  }

  predicate ValidHumanApproval(f: Facts) {
    && f.recorded && f.actorType == Some(Human)
    && f.actorId.Some? && !Blank(f.actorId.value) && f.unexpired
  }

  function Transition(current: State, target: State, c: Context, reasons: seq<string>): Verdict {
    if reasons == [] || (exists reason :: reason in reasons && Blank(reason)) then Refused(ReasonRequired)
    else if target !in Allowed(current) then Refused(InvalidTransition)
    else
      match (current, target)
      case (Draft, Validated) => Guard(c.schemaValid && c.policyPassed && c.dataSufficient, GuardFailed)
      case (Validated, RiskVetoed) => Guard(c.gate == Veto, GuardFailed)
      case (Validated, PendingApproval) =>
        if c.gate == UnknownGate then Refused(RiskAssessmentRequired)
        else if c.gate == Veto then Guard(c.action in {Reduce, Exit} && c.exceptionRecorded, RiskVetoBlocked)
        else Permitted
      case (PendingApproval, Approved) => Guard(ValidHumanApproval(c.approval), ApprovalInvalid)
      case (PendingApproval, Rejected) => Guard(c.approval.rejected, ApprovalInvalid)
      case (PendingApproval, Expired) => Guard(c.approval.expired, ApprovalInvalid)
      case (Approved, ExecutionPending) =>
        if !c.approval.unexpired || c.approval.revoked then Refused(ApprovalInvalid)
        else Guard(c.snapshotMatches && c.priceWithinTolerance, GuardFailed)
      case (Approved, Cancelled) => Guard(c.approval.revoked, GuardFailed)
      case (_, PartiallyExecuted) => Guard(c.executionRecorded, GuardFailed)
      case (_, Executed) => Guard(c.executionRecorded, GuardFailed)
      case (Executed, ReviewDue) => Guard(c.reviewDue, GuardFailed)
      case (ReviewDue, Reviewed) => Guard(c.reviewRecorded, GuardFailed)
      case _ => Permitted
  }

  /** A transition at `asOf` whose approval facts come from the records, for a decision with a fixed action. */
  datatype Move = Move(target: State, context: Context, reasons: seq<string>, history: Option<History>, asOf: int)

  predicate Derived(m: Move, action: Action) {
    && m.context.action == action
    && m.context.approval == FactsAt(m.history, m.asOf)
    && (m.history.Some? ==> ValidHistory(m.history.value))
  }

  /** The state a run of moves leads to, if every move is derived and allowed. */
  function Reached(moves: seq<Move>, action: Action): Option<State> {
    if moves == [] then Some(Draft)
    else
      var before, last := Reached(moves[..|moves| - 1], action), moves[|moves| - 1];
      if before.Some? && Derived(last, action) && Transition(before.value, last.target, last.context, last.reasons) == Permitted
      then Some(last.target) else None
  }

  function Rank(s: State): nat {
    match s
    case Draft => 0
    case Validated => 1
    case RiskVetoed => 2
    case PendingApproval => 2
    case Approved => 3
    case Rejected => 3
    case Expired => 3
    case ExecutionPending => 4
    case PartiallyExecuted => 5
    case Executed => 6
    case Cancelled => 6
    case ReviewDue => 7
    case Reviewed => 8
  }

  /** Every run is at most as long as its state's rank, so at most eight moves. */
  lemma {:induction false} RunsAreBounded(moves: seq<Move>, action: Action)
    requires Reached(moves, action).Some?
    ensures |moves| <= Rank(Reached(moves, action).value) <= 8
  {
    if moves != [] {
      RunsAreBounded(moves[..|moves| - 1], action);
    }
  }

  predicate FromExecutionOn(s: State) {
    s in {ExecutionPending, PartiallyExecuted, Executed, ReviewDue, Reviewed}
  }

  /** Move `i` of the run leads from `source` to `target`. */
  predicate Took(moves: seq<Move>, action: Action, i: nat, source: State, target: State) {
    i < |moves| && Reached(moves[..i], action) == Some(source) && Reached(moves[..i + 1], action) == Some(target)
  }

  lemma TookInLonger(moves: seq<Move>, action: Action, i: nat, source: State, target: State)
    requires moves != [] && Took(moves[..|moves| - 1], action, i, source, target)
    ensures Took(moves, action, i, source, target)
  {
    var shorter := moves[..|moves| - 1];
    assert shorter[..i] == moves[..i] && shorter[..i + 1] == moves[..i + 1];
  }

  /** One move a run to `s` must have taken. */
  predicate Unavoidable(s: State, source: State, target: State) {
    || (source == Validated && target == PendingApproval && (FromExecutionOn(s) || s in {PendingApproval, Approved, Rejected, Expired, Cancelled}))
    || (source == PendingApproval && target == Approved && (FromExecutionOn(s) || s in {Approved, Cancelled}))
    || (source == Approved && target == ExecutionPending && FromExecutionOn(s))
  }

  lemma {:induction false} MustHaveTaken(moves: seq<Move>, action: Action, source: State, target: State) returns (i: nat)
    requires Reached(moves, action).Some? && Unavoidable(Reached(moves, action).value, source, target)
    ensures Took(moves, action, i, source, target)
  {
    var n := |moves| - 1;
    assert moves != [];
    assert moves[..n + 1] == moves;
    var before := Reached(moves[..n], action).value;
    if before == source && Reached(moves, action).value == target {
      i := n;
    } else {
      i := MustHaveTaken(moves[..n], action, source, target);
      TookInLonger(moves, action, i, source, target);
    }
  }

  /** Every run that reaches execution or beyond passed an explicit risk gate, under VETO only as a
      reduction with its exception on record; was approved by a named human under an unexpired approval;
      and at the step into execution the latest visible record was an unexpired APPROVE. */
  lemma ExecutionWasAuthorized(moves: seq<Move>, action: Action) returns (gate: nat, approval: nat, execution: nat)
    requires Reached(moves, action).Some? && FromExecutionOn(Reached(moves, action).value)
    ensures gate < |moves| && approval < |moves| && execution < |moves|
    ensures Took(moves, action, gate, Validated, PendingApproval)
    ensures moves[gate].context.gate != UnknownGate
    ensures moves[gate].context.gate == Veto ==> action in {Reduce, Exit} && moves[gate].context.exceptionRecorded
    ensures Took(moves, action, approval, PendingApproval, Approved)
    ensures ApprovedAt(moves[approval])
    ensures Took(moves, action, execution, Approved, ExecutionPending)
    ensures ApprovedAt(moves[execution])
    ensures moves[execution].context.snapshotMatches && moves[execution].context.priceWithinTolerance
  {
    gate := MustHaveTaken(moves, action, Validated, PendingApproval);
    approval := MustHaveTaken(moves, action, PendingApproval, Approved);
    execution := MustHaveTaken(moves, action, Approved, ExecutionPending);
    TakenMove(moves, action, gate, Validated, PendingApproval);
    TakenMove(moves, action, approval, PendingApproval, Approved);
    TakenMove(moves, action, execution, Approved, ExecutionPending);
    hide Reached, FactsAt;
    UnexpiredMeansApproved(moves[approval]);
    UnexpiredMeansApproved(moves[execution]);
  }

  /** At the move's instant the latest visible record is an APPROVE that has not expired, by a named actor. */
  predicate ApprovedAt(m: Move) {
    && m.history.Some?
    && var latest := LatestAt(m.history.value, m.asOf);
       latest.Some? && latest.value.IsValidAt(m.asOf) && !Blank(latest.value.actorId)
  }

  lemma UnexpiredMeansApproved(m: Move)
    requires Derived(m, m.context.action) && m.context.approval.unexpired
    ensures ApprovedAt(m)
  {
    if m.history.Some? {
      LatestIsVisible(m.history.value, m.asOf);
    }
  }

  lemma TakenMove(moves: seq<Move>, action: Action, i: nat, source: State, target: State)
    requires Took(moves, action, i, source, target)
    ensures moves[i].target == target && Derived(moves[i], action)
    ensures Transition(source, target, moves[i].context, moves[i].reasons) == Permitted
  {
    assert moves[..i + 1][..i] == moves[..i];
  }

  /** Exactly when an APPROVED decision can still move, given a reason: its latest record is an unexpired
      approval and neither the inputs nor the price have drifted, or its latest record revokes it. Otherwise
      no move is left at that instant; there is no way back to asking for approval. */
  lemma ApprovedMovesIffExecutableOrRevoked(h: History, asOf: int, reasons: seq<string>, c: Context)
    requires ValidHistory(h) && c.approval == FactsAt(Some(h), asOf)
    ensures (exists target :: Transition(Approved, target, c, reasons) == Permitted) <==>
            && reasons != [] && (forall reason :: reason in reasons ==> !Blank(reason))
            && LatestAt(h, asOf).Some?
            && ((LatestAt(h, asOf).value.IsValidAt(asOf) && c.snapshotMatches && c.priceWithinTolerance)
                || LatestAt(h, asOf).value.action == Revoke)
  {
    var given := reasons != [] && forall reason :: reason in reasons ==> !Blank(reason);
    assert Transition(Approved, ExecutionPending, c, reasons) == Permitted <==>
           given && c.approval.unexpired && !c.approval.revoked && c.snapshotMatches && c.priceWithinTolerance;
    assert Transition(Approved, Cancelled, c, reasons) == Permitted <==> given && c.approval.revoked;
    assert forall target :: Transition(Approved, target, c, reasons) == Permitted ==> target in {ExecutionPending, Cancelled};
  }
}
