/** One bounded agent run: a first model call and at most two repair calls under one request id. */
module AgentRuntime {

  datatype Telemetry = Telemetry(rawOutputHash: string, inputTokens: nat, outputTokens: nat)

  /** What one gateway call brings: a failure, or a response that does or does not validate. */
  datatype Reply = GatewayFails | Invalid(t: Telemetry) | Valid(t: Telemetry, opinion: string)

  datatype Attempt = Attempt(repairAttempt: nat, t: Telemetry)

  datatype Failure = GatewayFailure | InvalidOutput

  datatype Outcome = Opinion(opinion: string) | InsufficientData(failure: Failure)

  datatype RunResult = RunResult(outcome: Outcome, repairCount: nat, hashes: seq<string>, attempts: seq<Attempt>)

  const MAX_ATTEMPTS: nat := 3

  function Hashes(attempts: seq<Attempt>): seq<string> {
    seq(|attempts|, i requires 0 <= i < |attempts| => attempts[i].t.rawOutputHash)
  }

  /** The cross-field checks a result must pass when it is built. */
  predicate WellFormed(r: RunResult) {
    && r.repairCount <= 2
    && r.hashes == Hashes(r.attempts)
    && (forall i :: 0 <= i < |r.attempts| ==> r.attempts[i].repairAttempt == i)
    && (r.outcome.Opinion? ==> |r.attempts| == r.repairCount + 1)
    && (r.outcome == InsufficientData(GatewayFailure) ==> |r.attempts| == r.repairCount)
    && (r.outcome == InsufficientData(InvalidOutput) ==> r.repairCount == 2 && |r.attempts| == 3)
  }

  /** Calls `k` and earlier ones were answered, and only with output that does not validate. */
  predicate InvalidUpTo(replies: seq<Reply>, k: nat)
    requires k <= |replies|
  {
    forall i :: 0 <= i < k ==> replies[i].Invalid?
  }

  /** `replies[k]` is what the gateway would answer to call `k`. The run stops at the first call that
      fails or validates, after three calls at the latest, and keeps the telemetry of every response. */
  method Run(replies: seq<Reply>) returns (r: RunResult, calls: nat)
    requires |replies| >= MAX_ATTEMPTS
    ensures WellFormed(r)
    ensures 1 <= calls <= MAX_ATTEMPTS && InvalidUpTo(replies, calls - 1)
    ensures |r.attempts| <= calls
    ensures forall i :: 0 <= i < |r.attempts| ==> !replies[i].GatewayFails? && r.attempts[i].t == replies[i].t
    ensures match replies[calls - 1]
            case GatewayFails => r.outcome == InsufficientData(GatewayFailure) && r.repairCount == calls - 1
            case Valid(_, opinion) => r.outcome == Opinion(opinion) && r.repairCount == calls - 1
            case Invalid(_) => r.outcome == InsufficientData(InvalidOutput) && calls == MAX_ATTEMPTS
  {
    var attempts: seq<Attempt> := [];
    for k := 0 to MAX_ATTEMPTS
      invariant |attempts| == k && InvalidUpTo(replies, k)
      invariant forall i :: 0 <= i < k ==> attempts[i] == Attempt(i, replies[i].t)
    {
      calls := k + 1;
      match replies[k] {
        case GatewayFails =>
          return RunResult(InsufficientData(GatewayFailure), k, Hashes(attempts), attempts), calls;
        case Valid(t, opinion) =>
          attempts := attempts + [Attempt(k, t)];
          return RunResult(Opinion(opinion), k, Hashes(attempts), attempts), calls;
        case Invalid(t) =>
          attempts := attempts + [Attempt(k, t)];
      }
    }
    calls := MAX_ATTEMPTS;
    r := RunResult(InsufficientData(InvalidOutput), 2, Hashes(attempts), attempts);
  }
}
