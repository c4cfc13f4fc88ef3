/** One decision and one append-only list of approval records, over time. */
module ApprovalTimeline {
  import opened Options
  import opened Orders
  import opened Enums
  import opened Texts
  import opened Approval

  /** A record is appended, or a move is made from the records appended so far. */
  datatype Event =
    | Recorded(record: Record)
    | Attempted(target: State, context: Context, reasons: seq<string>, asOf: int)

  function LogOf(events: seq<Event>): History {
    if events == [] then []
    else
      var last := events[|events| - 1];
      LogOf(events[..|events| - 1]) + if last.Recorded? then [last.record] else []
  }

  function HistoryOf(log: History): Option<History> {
    if log == [] then None else Some(log)
  }

  /** The moves of a timeline, each with the records appended before it. */
  function MovesOf(events: seq<Event>): seq<Move> {
    if events == [] then []
    else
      var shorter, last := events[..|events| - 1], events[|events| - 1];
      MovesOf(shorter) +
      if last.Attempted? then [Move(last.target, last.context, last.reasons, HistoryOf(LogOf(shorter)), last.asOf)] else []
  }

  /** Records are named by their ids. */
  predicate DistinctIds(log: History) {
    forall i, j :: 0 <= i < j < |log| ==> log[i].id != log[j].id
  }

  // ---------------------------------------------------------------------------------------------
  // What a move saw, and what the complete log shows
  // ---------------------------------------------------------------------------------------------

  predicate IsAttempt(events: seq<Event>, i: nat) {
    i < |events| && events[i].Attempted?
  }

  /** The move that attempt `i` makes. */
  function MoveAt(events: seq<Event>, i: nat): Move
    requires IsAttempt(events, i)
  {
    var e := events[i];
    Move(e.target, e.context, e.reasons, HistoryOf(LogOf(events[..i])), e.asOf)
  }

  /** The latest record as of the attempt's instant, among those appended before it. */
  function Seen(events: seq<Event>, i: nat): Option<Record>
    requires IsAttempt(events, i)
  {
    LatestAt(LogOf(events[..i]), events[i].asOf)
  }

  /** The same among those appended after it. */
  function Late(events: seq<Event>, i: nat): Option<Record>
    requires IsAttempt(events, i)
  {
    LatestAt(LogOf(events[i..]), events[i].asOf)
  }

  /** The same in the complete log. */
  function Shown(events: seq<Event>, i: nat): Option<Record>
    requires IsAttempt(events, i)
  {
    LatestAt(LogOf(events), events[i].asOf)
  }

  lemma {:induction false} LogCut(events: seq<Event>, i: nat)
    requires i <= |events|
    ensures LogOf(events) == LogOf(events[..i]) + LogOf(events[i..])
    decreases |events|
  {
    if i == |events| {
      assert events[..i] == events;
    } else {
      var n := |events| - 1;
      var rest := events[i..];
      LogCut(events[..n], i);
      assert events[..n][..i] == events[..i] && events[..n][i..] == rest[..|rest| - 1] && rest[|rest| - 1] == events[n];
    }
  }

  lemma {:induction false} LogMembers(events: seq<Event>, r: Record)
    ensures r in LogOf(events) <==> Recorded(r) in events
  {
    if events != [] {
      var n := |events| - 1;
      LogMembers(events[..n], r);
      assert events == events[..n] + [events[n]];
    }
  }

  /** A visible record appended later is the one that is shown. */
  lemma LatestOfAppended(prior: History, later: History, asOf: int)
    ensures LatestAt(prior + later, asOf) == if LatestAt(later, asOf).Some? then LatestAt(later, asOf) else LatestAt(prior, asOf)
  {
    FilterAppend(VisibleBy(asOf), prior, later);
  }

  lemma ShownIs(events: seq<Event>, i: nat)
    requires IsAttempt(events, i)
    ensures Shown(events, i) == if Late(events, i).Some? then Late(events, i) else Seen(events, i)
  {
    LogCut(events, i);
    LatestOfAppended(LogOf(events[..i]), LogOf(events[i..]), events[i].asOf);
  }

  /** Exactly when the complete log shows, for the instant of an attempt, the record that the attempt saw:
      nothing visible at that instant is appended later, or the last such thing is the same record. */
  lemma ShownIsSeenIff(events: seq<Event>, i: nat)
    requires IsAttempt(events, i)
    ensures Shown(events, i) == Seen(events, i) <==> Late(events, i).None? || Late(events, i) == Seen(events, i)
  {
    ShownIs(events, i);
  }

  /** With records named by ids: exactly when whatever is appended after it is stamped after its instant. */
  lemma ShownIsSeenIffLaterStamps(events: seq<Event>, i: nat)
    requires IsAttempt(events, i) && DistinctIds(LogOf(events))
    ensures Shown(events, i) == Seen(events, i) <==> forall r :: Recorded(r) in events[i..] ==> events[i].asOf < r.occurredAt
  {
    var prior, later, asOf := LogOf(events[..i]), LogOf(events[i..]), events[i].asOf;
    ShownIsSeenIff(events, i);
    LatestIsVisible(prior, asOf);
    LatestIsVisible(later, asOf);
    LogCut(events, i);
    hide LatestAt;
    forall r ensures r in later <==> Recorded(r) in events[i..] {
      LogMembers(events[i..], r);
    }
    if Late(events, i).Some? && Late(events, i) == Seen(events, i) {
      RecordedTwice(prior, later, Late(events, i).value);
    }
  }

  lemma RecordedTwice(prior: History, later: History, r: Record)
    requires r in prior && r in later
    ensures !DistinctIds(prior + later)
  {
    var i :| 0 <= i < |prior| && prior[i] == r;
    var j :| 0 <= j < |later| && later[j] == r;
    assert (prior + later)[i].id == (prior + later)[|prior| + j].id;
  }

  /** No record is appended with a stamp at or before the instant of a move already made. */
  predicate NoBackdating(events: seq<Event>) {
    forall i, j :: 0 <= i < j < |events| && events[i].Attempted? && events[j].Recorded? ==>
      events[i].asOf < events[j].record.occurredAt
  }

  ghost predicate AlwaysShowsWhatWasSeen(events: seq<Event>) {
    forall i: nat :: IsAttempt(events, i) ==> Shown(events, i) == Seen(events, i)
  }

  /** So the complete log shows what every move saw if and only if nothing is ever backdated. */
  lemma LogIsFaithfulIffNoBackdating(events: seq<Event>)
    requires DistinctIds(LogOf(events))
    ensures AlwaysShowsWhatWasSeen(events) <==> NoBackdating(events)
  {
    hide Shown, Seen, DistinctIds;
    forall i: nat | IsAttempt(events, i)
      ensures Shown(events, i) == Seen(events, i) <==> forall r :: Recorded(r) in events[i..] ==> events[i].asOf < r.occurredAt
    {
      ShownIsSeenIffLaterStamps(events, i);
    }
    if AlwaysShowsWhatWasSeen(events) {
      forall i, j | 0 <= i < j < |events| && events[i].Attempted? && events[j].Recorded?
        ensures events[i].asOf < events[j].record.occurredAt
      {
        assert IsAttempt(events, i);
        assert events[i..][j - i] == events[j] == Recorded(events[j].record);
      }
    }
    if NoBackdating(events) {
      forall i: nat | IsAttempt(events, i) ensures forall r :: Recorded(r) in events[i..] ==> events[i].asOf < r.occurredAt {
        forall r | Recorded(r) in events[i..] ensures events[i].asOf < r.occurredAt {
          var k :| 0 <= k < |events| - i && events[i..][k] == Recorded(r);
          assert events[i + k] == Recorded(r);
        }
      }
    }
  }

  // ---------------------------------------------------------------------------------------------
  // Authorization, as the complete log shows it
  // ---------------------------------------------------------------------------------------------

  /** An unexpired APPROVE by a named actor. */
  predicate Authorizes(latest: Option<Record>, asOf: int) {
    latest.Some? && latest.value.IsValidAt(asOf) && !Blank(latest.value.actorId)
  }

  lemma {:induction false} MovesAreAttempts(events: seq<Event>, m: Move) returns (i: nat)
    requires m in MovesOf(events)
    ensures IsAttempt(events, i) && MoveAt(events, i) == m
  {
    var n := |events| - 1;
    if m in MovesOf(events[..n]) {
      i := MovesAreAttempts(events[..n], m);
      assert events[..n][..i] == events[..i];
    } else {
      i := n;
    }
  }

  lemma ApprovedAtIsSeen(events: seq<Event>, i: nat)
    requires IsAttempt(events, i) && ApprovedAt(MoveAt(events, i))
    ensures Authorizes(Seen(events, i), events[i].asOf)
  {
  }

  /** Every timeline that reaches execution passed the risk gate, and its approval and its step into execution
      each saw an unexpired APPROVE as the latest record. The complete log still shows one exactly when the
      last record appended later and visible at that instant, if there is one, is itself an unexpired APPROVE. */
  lemma ExecutionStaysAuthorizedIff(events: seq<Event>, action: Action) returns (gate: nat, approval: nat, execution: nat)
    requires Reached(MovesOf(events), action).Some? && FromExecutionOn(Reached(MovesOf(events), action).value)
    ensures IsAttempt(events, gate) && events[gate].target == PendingApproval && events[gate].context.gate != UnknownGate
    ensures events[gate].context.gate == Veto ==> action in {Reduce, Exit} && events[gate].context.exceptionRecorded
    ensures IsAttempt(events, approval) && events[approval].target == Approved
    ensures IsAttempt(events, execution) && events[execution].target == ExecutionPending
    ensures forall i :: i in {approval, execution} ==>
              && Authorizes(Seen(events, i), events[i].asOf)
              && (Authorizes(Shown(events, i), events[i].asOf) <==>
                    Late(events, i).None? || Authorizes(Late(events, i), events[i].asOf))
  {
    var moves := MovesOf(events);
    var g, a, x := ExecutionWasAuthorized(moves, action);
    TakenMove(moves, action, g, Validated, PendingApproval);
    TakenMove(moves, action, a, PendingApproval, Approved);
    TakenMove(moves, action, x, Approved, ExecutionPending);
    hide Reached, Took, ApprovedAt, Derived, Transition, Authorizes, Shown, Seen, Late;
    gate := MovesAreAttempts(events, moves[g]);
    approval := MovesAreAttempts(events, moves[a]);
    execution := MovesAreAttempts(events, moves[x]);
    hide MovesOf;
    forall i | i in {approval, execution}
      ensures Authorizes(Seen(events, i), events[i].asOf)
      ensures Authorizes(Shown(events, i), events[i].asOf) <==>
                Late(events, i).None? || Authorizes(Late(events, i), events[i].asOf)
    {
      ApprovedAtIsSeen(events, i);
      ShownIs(events, i);
    }
  }

  /** So when nothing is backdated, whoever reads the complete log finds both steps authorized. */
  lemma TimelineExecutionWasAuthorized(events: seq<Event>, action: Action) returns (approval: nat, execution: nat)
    requires NoBackdating(events)
    requires Reached(MovesOf(events), action).Some? && FromExecutionOn(Reached(MovesOf(events), action).value)
    ensures IsAttempt(events, approval) && events[approval].target == Approved
    ensures Authorizes(Shown(events, approval), events[approval].asOf)
    ensures IsAttempt(events, execution) && events[execution].target == ExecutionPending
    ensures Authorizes(Shown(events, execution), events[execution].asOf)
  {
    hide Reached, MovesOf, Shown, Seen, Late, Authorizes, NoBackdating;
    var gate;
    gate, approval, execution := ExecutionStaysAuthorizedIff(events, action);
    NothingLate(events, approval);
    NothingLate(events, execution);
  }

  lemma NothingLate(events: seq<Event>, i: nat)
    requires NoBackdating(events) && IsAttempt(events, i)
    ensures Late(events, i).None?
  {
    var later, asOf := LogOf(events[i..]), events[i].asOf;
    LatestIsVisible(later, asOf);
    hide LatestAt;
    forall r | r in later ensures asOf < r.occurredAt {
      LogMembers(events[i..], r);
      var k :| 0 <= k < |events| - i && events[i..][k] == Recorded(r);
      assert events[i + k] == Recorded(r);
    }
  }

  // ---------------------------------------------------------------------------------------------
  // A log rewritten after execution
  // ---------------------------------------------------------------------------------------------

  /** Everything a purchase needs, with the approval facts that one record gives at the instant. */
  function Ready(approve: Record, asOf: int): Context {
    Context(Buy, true, true, true, Pass, false, FactsAt(Some([approve]), asOf), true, true, false, false, false)
  }

  function Attempt(target: State, approve: Record, asOf: int): Event {
    Attempted(target, Ready(approve, asOf), ["-"], asOf)
  }

  /** An approval, the four moves into execution, and only then the revocation. */
  function Rewritten(approve: Record, revoke: Record, asOf: int): seq<Event> {
    [Recorded(approve), Attempt(Validated, approve, asOf), Attempt(PendingApproval, approve, asOf),
     Attempt(Approved, approve, asOf), Attempt(ExecutionPending, approve, asOf), Recorded(revoke)]
  }

  function Step(target: State, approve: Record, asOf: int): Move {
    Move(target, Ready(approve, asOf), ["-"], Some([approve]), asOf)
  }

  function Steps(approve: Record, asOf: int): seq<Move> {
    [Step(Validated, approve, asOf), Step(PendingApproval, approve, asOf),
     Step(Approved, approve, asOf), Step(ExecutionPending, approve, asOf)]
  }

  lemma LogNext(events: seq<Event>, k: nat)
    requires k < |events|
    ensures LogOf(events[..k + 1]) == LogOf(events[..k]) + if events[k].Recorded? then [events[k].record] else []
    ensures MovesOf(events[..k + 1]) == MovesOf(events[..k]) + if IsAttempt(events, k) then [MoveAt(events, k)] else []
  {
    assert events[..k + 1][..k] == events[..k];
  }

  lemma RewrittenMoves(approve: Record, revoke: Record, asOf: int)
    ensures var events := Rewritten(approve, revoke, asOf);
            MovesOf(events) == Steps(approve, asOf) && LogOf(events) == [approve, revoke] && LogOf(events[..4]) == [approve]
  {
    var events := Rewritten(approve, revoke, asOf);
    hide LogOf, MovesOf, Ready;
    assert LogOf(events[..0]) == [] && MovesOf(events[..0]) == [] by { NothingYet(events); }
    LogNext(events, 0);
    assert LogOf(events[..1]) == [approve] && MovesOf(events[..1]) == [];
    forall k | 1 <= k < 5 && LogOf(events[..k]) == [approve]
      ensures LogOf(events[..k + 1]) == [approve] && MovesOf(events[..k + 1]) == MovesOf(events[..k]) + [Steps(approve, asOf)[k - 1]]
    {
      LogNext(events, k);
    }
    assert LogOf(events[..2]) == [approve] && LogOf(events[..3]) == [approve];
    assert LogOf(events[..4]) == [approve] && LogOf(events[..5]) == [approve];
    assert MovesOf(events[..5]) == Steps(approve, asOf);
    LogNext(events, 5);
    assert events[..6] == events;
  }

  lemma NothingYet(events: seq<Event>)
    ensures LogOf(events[..0]) == [] && MovesOf(events[..0]) == []
  {
  }

  lemma OneApproval(approve: Record, asOf: int)
    requires approve.Valid() && approve.IsValidAt(asOf)
    ensures LatestAt([approve], asOf) == Some(approve)
    ensures ValidHumanApproval(FactsAt(Some([approve]), asOf)) && !FactsAt(Some([approve]), asOf).revoked
  {
    assert Filter(VisibleBy(asOf), [approve]) == [approve];
  }

  lemma StepIsDerived(target: State, approve: Record, asOf: int)
    requires approve.Valid()
    ensures Derived(Step(target, approve, asOf), Buy)
  {
    assert ValidHistory([approve]);
  }

  lemma StepsArePermitted(approve: Record, asOf: int)
    requires approve.Valid() && approve.IsValidAt(asOf)
    ensures var c := Ready(approve, asOf);
            && Transition(Draft, Validated, c, ["-"]) == Permitted
            && Transition(Validated, PendingApproval, c, ["-"]) == Permitted
            && Transition(PendingApproval, Approved, c, ["-"]) == Permitted
            && Transition(Approved, ExecutionPending, c, ["-"]) == Permitted
  {
    OneApproval(approve, asOf);
    assert !Blank("-");
    hide FactsAt, LatestAt, Blank;
  }

  lemma StepsReachExecution(approve: Record, asOf: int)
    requires approve.Valid() && approve.IsValidAt(asOf)
    ensures Reached(Steps(approve, asOf), Buy) == Some(ExecutionPending)
  {
    var moves := Steps(approve, asOf);
    hide Transition, Ready, Derived, Reached;
    StepsArePermitted(approve, asOf);
    forall k | 0 <= k < 4 ensures Derived(moves[k], Buy) {
      StepIsDerived(moves[k].target, approve, asOf);
    }
    ReachedNext(moves, 0, Draft);
    ReachedNext(moves, 1, Validated);
    ReachedNext(moves, 2, PendingApproval);
    ReachedNext(moves, 3, Approved);
    assert moves[..4] == moves;
  }

  lemma ReachedNext(moves: seq<Move>, k: nat, s: State)
    requires k < |moves| && (if k == 0 then s == Draft else Reached(moves[..k], Buy) == Some(s))
    requires Derived(moves[k], Buy) && Transition(s, moves[k].target, moves[k].context, moves[k].reasons) == Permitted
    ensures Reached(moves[..k + 1], Buy) == Some(moves[k].target)
  {
    assert moves[..k + 1][..k] == moves[..k];
    hide Derived, Transition;
  }

  /** Stamps are taken as given, so this can happen: a decision is executed on an active approval, then a
      revocation is appended that is stamped no later than the execution. The complete log, still in time
      order, now says that the approval was revoked when the step into execution was taken. */
  lemma BackdatedRevocationRewrites(approve: Record, revoke: Record, asOf: int)
    requires approve.Valid() && revoke.Valid() && revoke.action == Revoke
    requires approve.IsValidAt(asOf) && approve.occurredAt <= revoke.occurredAt <= asOf
    ensures var events := Rewritten(approve, revoke, asOf);
            && Reached(MovesOf(events), Buy) == Some(ExecutionPending)
            && IsAttempt(events, 4) && events[4].target == ExecutionPending && Seen(events, 4) == Some(approve)
            && LogOf(events) == [approve, revoke] && ValidHistory(LogOf(events))
            && Shown(events, 4) == Some(revoke) && FactsAt(Some(LogOf(events)), asOf).revoked
  {
    RewrittenMoves(approve, revoke, asOf);
    StepsReachExecution(approve, asOf);
    OneApproval(approve, asOf);
    LatestOfAppended([approve], [revoke], asOf);
    assert Filter(VisibleBy(asOf), [revoke]) == [revoke];
    assert [approve] + [revoke] == [approve, revoke];
    hide Reached, MovesOf, Steps, LogOf;
  }
}
