/**
 The reliable job executor: one transaction per call under an advisory lock, and a second, separate
 transaction that records the failure of a crashed handler.
 */
module JobExecutor {

  type JobKey = string

  datatype Status = Running | Failed | Succeeded

  datatype TaskRun = TaskRun(id: nat, status: Status, attempt: nat, inputHash: string, error: string)

  /** `effects` counts what handlers have committed, `failures` what failure recordings have. */
  datatype Jobs = Jobs(rows: map<JobKey, TaskRun>, nextId: nat, effects: map<JobKey, nat>, failures: map<JobKey, nat>)

  const NO_JOBS := Jobs(map[], 0, map[], map[])

  function Count(m: map<JobKey, nat>, key: JobKey): nat {
    if key in m then m[key] else 0
  }

  /** How the handler ends: normally, with an application error, or with any other exception. */
  datatype Handler = Completes | Refuses | Crashes

  datatype Result =
    | Ran(id: nat, attempt: nat)
    | Reused(id: nat, attempt: nat)
    | KeyConflict
    | RetriesExhausted
    | HandlerRefused
    | HandlerCrashed

  // ---------------------------------------------------------------------------------------------
  // The effect of the two transactions
  // ---------------------------------------------------------------------------------------------

  function Started(j: Jobs, key: JobKey, hash: string): Jobs {
    if key in j.rows then
      j.(rows := j.rows[key := j.rows[key].(status := Running, attempt := j.rows[key].attempt + 1, inputHash := hash, error := "")])
    else j.(rows := j.rows[key := TaskRun(j.nextId, Running, 1, hash, "")], nextId := j.nextId + 1)
  }

  function Finished(j: Jobs, key: JobKey, status: Status, error: string): Jobs
    requires key in j.rows
  {
    j.(rows := j.rows[key := j.rows[key].(status := status, error := error)])
  }

  /** The handler's commit, together with SUCCEEDED. */
  function Completed(j: Jobs, key: JobKey, hash: string): Jobs {
    var done := Finished(Started(j, key, hash), key, Succeeded, "");
    done.(effects := done.effects[key := Count(done.effects, key) + 1])
  }

  function Execute(j: Jobs, key: JobKey, hash: string, h: Handler, maxAttempts: nat): (Jobs, Result) {
    if key in j.rows && j.rows[key].inputHash != hash then (j, KeyConflict)
    else if key in j.rows && j.rows[key].status == Succeeded then (j, Reused(j.rows[key].id, j.rows[key].attempt))
    else if key in j.rows && maxAttempts <= j.rows[key].attempt then
      (Finished(j, key, Failed, "JOB_RETRY_LIMIT_EXHAUSTED"), RetriesExhausted)
    else
      match h
      case Completes => (Completed(j, key, hash), Ran(Started(j, key, hash).rows[key].id, Started(j, key, hash).rows[key].attempt))
      case Refuses => (j, HandlerRefused)
      case Crashes => (j, HandlerCrashed)
  }

  /** The recording checks nothing: whatever the row has become meanwhile, it fails one more attempt. */
  function RecordFailure(j: Jobs, key: JobKey, hash: string): Jobs {
    var failed := Finished(Started(j, key, hash), key, Failed, "JOB_HANDLER_FAILED");
    failed.(failures := failed.failures[key := Count(failed.failures, key) + 1])
  }

  // ---------------------------------------------------------------------------------------------
  // The executor as an object
  // ---------------------------------------------------------------------------------------------

  class Executor {
    const maxAttempts: nat
    var rows: map<JobKey, TaskRun>
    var nextId: nat
    var effects: map<JobKey, nat>
    var failures: map<JobKey, nat>

    constructor (maxAttempts: nat)
      requires 1 <= maxAttempts
      ensures State() == NO_JOBS && this.maxAttempts == maxAttempts
    {
      this.maxAttempts := maxAttempts;
      rows, nextId, effects, failures := map[], 0, map[], map[];
    }

    ghost function State(): Jobs
      reads this
    {
      Jobs(rows, nextId, effects, failures)
    }

    method StartOrRetry(key: JobKey, hash: string) returns (run: TaskRun)
      modifies this`rows, this`nextId
      ensures State() == Started(old(State()), key, hash)
      ensures key in rows && run == rows[key]
    {
      if key !in rows {
        run := TaskRun(nextId, Running, 1, hash, "");
        nextId := nextId + 1;
      } else {
        run := rows[key].(status := Running, attempt := rows[key].attempt + 1, inputHash := hash, error := "");
      }
      rows := rows[key := run];
    }

    method Finish(key: JobKey, status: Status, error: string)
      requires key in rows
      modifies this`rows
      ensures State() == Finished(old(State()), key, status, error)
    {
      rows := rows[key := rows[key].(status := status, error := error)];
    }

    /** One call that got the lock. A handler that does not complete rolls everything back. */
    method Call(key: JobKey, hash: string, h: Handler) returns (result: Result)
      modifies this
      ensures (State(), result) == Execute(old(State()), key, hash, h, maxAttempts)
    {
      if key in rows && rows[key].inputHash != hash {
        return KeyConflict;
      }
      if key in rows && rows[key].status == Succeeded {
        return Reused(rows[key].id, rows[key].attempt);
      }
      if key in rows && maxAttempts <= rows[key].attempt {
        Finish(key, Failed, "JOB_RETRY_LIMIT_EXHAUSTED");
        return RetriesExhausted;
      }
      var savedRows, savedId := rows, nextId;
      var run := StartOrRetry(key, hash);
      if h == Completes {
        Finish(key, Succeeded, "");
        effects := effects[key := Count(effects, key) + 1];
        result := Ran(run.id, run.attempt);
      } else {
        rows, nextId := savedRows, savedId;
        result := if h == Refuses then HandlerRefused else HandlerCrashed;
      }
    }

    method Record(key: JobKey, hash: string)
      modifies this
      ensures State() == RecordFailure(old(State()), key, hash)
    {
      var _ := StartOrRetry(key, hash);
      Finish(key, Failed, "JOB_HANDLER_FAILED");
      failures := failures[key := Count(failures, key) + 1];
    }
  }

  // ---------------------------------------------------------------------------------------------
  // Runs
  // ---------------------------------------------------------------------------------------------

  /** A call whose handler crashed and whose failure is not recorded yet; the lock is free meanwhile. */
  datatype Crash = Crash(key: JobKey, hash: string)

  datatype System = System(jobs: Jobs, crashes: map<nat, Crash>)

  const IDLE := System(NO_JOBS, map[])

  /** `Recorded` and `Abandoned` end the gap of crash `id`; a recording that finds the lock taken, or a
      process that dies, abandons it. */
  datatype Step =
    | Called(id: nat, key: JobKey, hash: string, h: Handler)
    | Recorded(id: nat)
    | Abandoned(id: nat)

  predicate Possible(s: System, step: Step) {
    if step.Called? then step.id !in s.crashes else step.id in s.crashes
  }

  function Take(s: System, step: Step, max: nat): System
    requires Possible(s, step)
  {
    match step
    case Called(id, key, hash, h) =>
      var (jobs, result) := Execute(s.jobs, key, hash, h, max);
      System(jobs, if result == HandlerCrashed then s.crashes[id := Crash(key, hash)] else s.crashes)
    case Recorded(id) =>
      System(RecordFailure(s.jobs, s.crashes[id].key, s.crashes[id].hash), s.crashes - {id})
    case Abandoned(id) => s.(crashes := s.crashes - {id})
  }

  /** The system after the possible steps of a run, in order; an impossible step changes nothing. */
  function Run(steps: seq<Step>, max: nat): System {
    if steps == [] then IDLE
    else
      var before, last := Run(steps[..|steps| - 1], max), steps[|steps| - 1];
      if Possible(before, last) then Take(before, last, max) else before
  }

  /** What the executor promises of one job. */
  predicate Reliable(j: Jobs, key: JobKey, max: nat) {
    var effects, failures := Count(j.effects, key), Count(j.failures, key);
    if key in j.rows then
      var row := j.rows[key];
      && row.status != Running
      && effects == (if row.status == Succeeded then 1 else 0)
      && row.attempt == failures + effects
      && row.attempt <= max
    else effects == 0 && failures == 0
  }

  /** What the recording would have to check under its lock, and does not. */
  predicate StillOpen(j: Jobs, key: JobKey, max: nat) {
    key in j.rows ==> j.rows[key].status != Succeeded && j.rows[key].attempt < max
  }

  lemma CallKeepsReliable(j: Jobs, key: JobKey, hash: string, h: Handler, max: nat, any: JobKey)
    requires Reliable(j, any, max) && 1 <= max
    ensures Reliable(Execute(j, key, hash, h, max).0, any, max)
  {
  }

  /** A recording keeps the promise exactly when the job is still open. */
  lemma RecordingKeepsReliableIffStillOpen(j: Jobs, key: JobKey, hash: string, max: nat)
    requires Reliable(j, key, max) && 1 <= max
    ensures Reliable(RecordFailure(j, key, hash), key, max) <==> StillOpen(j, key, max)
  {
  }

  /** How the promise breaks: retries beyond the limit, a committed effect under FAILED, or two effects. */
  predicate Broken(j: Jobs, key: JobKey, max: nat) {
    key in j.rows && (
      || max < j.rows[key].attempt
      || (1 <= Count(j.effects, key) && j.rows[key].status == Failed)
      || 2 <= Count(j.effects, key))
  }

  lemma BrokenStaysBroken(s: System, step: Step, max: nat, key: JobKey)
    requires Broken(s.jobs, key, max) && Possible(s, step)
    ensures Broken(Take(s, step, max).jobs, key, max)
  {
  }

  /** Every recording of the run found its job still open. */
  predicate RecordsOnlyOpenJobs(steps: seq<Step>, max: nat) {
    forall i :: 0 <= i < |steps| ==> RecordsOpenJobAt(steps, i, max)
  }

  predicate RecordsOpenJobAt(steps: seq<Step>, i: nat, max: nat)
    requires i < |steps|
  {
    var s := Run(steps[..i], max);
    steps[i].Recorded? && steps[i].id in s.crashes ==> StillOpen(s.jobs, s.crashes[steps[i].id].key, max)
  }

  ghost predicate AllReliable(j: Jobs, max: nat) {
    forall key :: Reliable(j, key, max)
  }

  lemma RecordsSplit(steps: seq<Step>, max: nat)
    requires steps != []
    ensures var n := |steps| - 1;
            RecordsOnlyOpenJobs(steps, max) <==>
            RecordsOnlyOpenJobs(steps[..n], max) && RecordsOpenJobAt(steps, n, max)
  {
    var n := |steps| - 1;
    forall i | 0 <= i < n ensures RecordsOpenJobAt(steps, i, max) <==> RecordsOpenJobAt(steps[..n], i, max) {
      assert steps[..n][..i] == steps[..i];
    }
  }

  lemma GoodStepKeepsAllReliable(s: System, step: Step, max: nat)
    requires AllReliable(s.jobs, max) && Possible(s, step) && 1 <= max
    requires step.Recorded? ==> StillOpen(s.jobs, s.crashes[step.id].key, max)
    ensures AllReliable(Take(s, step, max).jobs, max)
  {
    forall key ensures Reliable(Take(s, step, max).jobs, key, max) {
      assert Reliable(s.jobs, key, max);
      match step {
        case Called(id, k, hash, h) => CallKeepsReliable(s.jobs, k, hash, h, max, key);
        case Recorded(id) =>
          if key == s.crashes[id].key {
            RecordingKeepsReliableIffStillOpen(s.jobs, key, s.crashes[id].hash, max);
          }
        case Abandoned(id) =>
      }
    }
  }

  lemma BadRecordingBreaks(j: Jobs, key: JobKey, hash: string, max: nat)
    requires Reliable(j, key, max) && !StillOpen(j, key, max)
    ensures Broken(RecordFailure(j, key, hash), key, max)
  {
  }

  /** Exactly when a whole run keeps the promise: at its end every job is reliable if no recording found
      its job closed, and otherwise some job is broken for good. */
  lemma {:induction false} ReliableIffNoClosedJobRecorded(steps: seq<Step>, max: nat)
    requires 1 <= max
    ensures RecordsOnlyOpenJobs(steps, max) ==> AllReliable(Run(steps, max).jobs, max)
    ensures !RecordsOnlyOpenJobs(steps, max) ==> exists key :: Broken(Run(steps, max).jobs, key, max)
  {
    if steps != [] {
      var n := |steps| - 1;
      var before, last := Run(steps[..n], max), steps[n];
      ReliableIffNoClosedJobRecorded(steps[..n], max);
      RecordsSplit(steps, max);
      hide Take, Broken, StillOpen;
      if !RecordsOnlyOpenJobs(steps[..n], max) {
        var key :| Broken(before.jobs, key, max);
        if Possible(before, last) {
          BrokenStaysBroken(before, last, max, key);
        }
        assert Broken(Run(steps, max).jobs, key, max);
      } else if Possible(before, last) {
        if RecordsOpenJobAt(steps, n, max) {
          GoodStepKeepsAllReliable(before, last, max);
        } else {
          var crash := before.crashes[last.id];
          BadRecordingBreaks(before.jobs, crash.key, crash.hash, max);
          assert Run(steps, max).jobs == RecordFailure(before.jobs, crash.key, crash.hash) by { RecordedJobs(before, last, max); }
          assert Broken(Run(steps, max).jobs, crash.key, max);
        }
      }
    }
  }

  lemma RecordedJobs(s: System, step: Step, max: nat)
    requires Possible(s, step) && step.Recorded?
    ensures Take(s, step, max).jobs == RecordFailure(s.jobs, s.crashes[step.id].key, s.crashes[step.id].hash)
  {
  }

  lemma BrokenIsNotReliable(j: Jobs, key: JobKey, max: nat)
    requires Broken(j, key, max)
    ensures !Reliable(j, key, max)
  {
  }

  lemma RunIsReliableIffRecordsOnlyOpenJobs(steps: seq<Step>, max: nat)
    requires 1 <= max
    ensures AllReliable(Run(steps, max).jobs, max) <==> RecordsOnlyOpenJobs(steps, max)
  {
    ReliableIffNoClosedJobRecorded(steps, max);
    if !RecordsOnlyOpenJobs(steps, max) {
      var key :| Broken(Run(steps, max).jobs, key, max);
      BrokenIsNotReliable(Run(steps, max).jobs, key, max);
    }
  }

  /** Calls on one key do not overlap: none starts while a crash of that key awaits its recording. */
  predicate Sequential(steps: seq<Step>, max: nat) {
    forall i :: 0 <= i < |steps| && steps[i].Called? ==>
      forall id :: id in Run(steps[..i], max).crashes ==> Run(steps[..i], max).crashes[id].key != steps[i].key
  }

  /** Under that discipline every awaited recording still finds its job open. */
  ghost predicate CrashesOpen(s: System, max: nat) {
    && (forall id :: id in s.crashes ==> StillOpen(s.jobs, s.crashes[id].key, max))
    && (forall a, b :: a in s.crashes && b in s.crashes && a != b ==> s.crashes[a].key != s.crashes[b].key)
  }

  lemma SequentialStepKeepsCrashesOpen(s: System, step: Step, max: nat)
    requires CrashesOpen(s, max) && Possible(s, step) && 1 <= max
    requires step.Called? ==> forall id :: id in s.crashes ==> s.crashes[id].key != step.key
    ensures CrashesOpen(Take(s, step, max), max)
  {
  }

  lemma {:induction false} SequentialRunsRecordOpenJobs(steps: seq<Step>, max: nat)
    requires 1 <= max && Sequential(steps, max)
    ensures RecordsOnlyOpenJobs(steps, max) && CrashesOpen(Run(steps, max), max)
  {
    if steps != [] {
      var n := |steps| - 1;
      assert Sequential(steps[..n], max) by {
        forall i | 0 <= i < n ensures steps[..n][..i] == steps[..i] {}
      }
      SequentialRunsRecordOpenJobs(steps[..n], max);
      RecordsSplit(steps, max);
      if Possible(Run(steps[..n], max), steps[n]) {
        SequentialStepKeepsCrashesOpen(Run(steps[..n], max), steps[n], max);
      }
    }
  }

  /** When calls on one key do not overlap, failure recording included: a handler's effects are committed
      at most once and exactly when the row says SUCCEEDED, and attempts are counted and bounded. */
  lemma SequentialRunsAreReliable(steps: seq<Step>, max: nat, key: JobKey)
    requires 1 <= max && Sequential(steps, max)
    ensures Reliable(Run(steps, max).jobs, key, max)
  {
    SequentialRunsRecordOpenJobs(steps, max);
    ReliableIffNoClosedJobRecorded(steps, max);
  }

  lemma SucceededStep(s: System, step: Step, max: nat, key: JobKey)
    requires Possible(s, step) && key in s.jobs.rows && s.jobs.rows[key].status == Succeeded
    requires step.Recorded? ==> StillOpen(s.jobs, s.crashes[step.id].key, max)
    ensures var j, j' := s.jobs, Take(s, step, max).jobs;
            key in j'.rows && j'.rows[key] == j.rows[key] && Count(j'.effects, key) == Count(j.effects, key)
  {
  }

  /** SUCCEEDED is final: as long as recordings find open jobs, the row never changes again. */
  lemma {:induction false} SucceededIsFinal(steps: seq<Step>, m: nat, max: nat, key: JobKey)
    requires 1 <= max && m <= |steps| && RecordsOnlyOpenJobs(steps, max)
    requires var j := Run(steps[..m], max).jobs; key in j.rows && j.rows[key].status == Succeeded
    ensures var j, j' := Run(steps[..m], max).jobs, Run(steps, max).jobs;
            key in j'.rows && j'.rows[key] == j.rows[key] && Count(j'.effects, key) == Count(j.effects, key)
    decreases |steps|
  {
    if m == |steps| {
      assert steps[..m] == steps;
    } else {
      var n := |steps| - 1;
      RecordsSplit(steps, max);
      assert steps[..n][..m] == steps[..m];
      SucceededIsFinal(steps[..n], m, max, key);
      assert RecordsOpenJobAt(steps, n, max);
      var before := Run(steps[..n], max);
      hide Take, StillOpen;
      if Possible(before, steps[n]) {
        SucceededStep(before, steps[n], max, key);
      }
    }
  }

  /** So a later call with the same input returns the same run and does not run the handler again. */
  lemma LaterCallsReuse(steps: seq<Step>, m: nat, max: nat, key: JobKey, h: Handler)
    requires 1 <= max && m <= |steps| && RecordsOnlyOpenJobs(steps, max)
    requires var j := Run(steps[..m], max).jobs; key in j.rows && j.rows[key].status == Succeeded
    ensures var row, j' := Run(steps[..m], max).jobs.rows[key], Run(steps, max).jobs;
            Execute(j', key, row.inputHash, h, max) == (j', Reused(row.id, row.attempt))
  {
    SucceededIsFinal(steps, m, max, key);
  }

  lemma RunLast(steps: seq<Step>, last: Step, max: nat)
    ensures var before := Run(steps, max);
            Run(steps + [last], max) == if Possible(before, last) then Take(before, last, max) else before
  {
    assert (steps + [last])[..|steps|] == steps;
  }

  /** A crash, a retry that succeeds before the crash is recorded, the late recording, and one more call. */
  function Overlap(key: JobKey, hash: string): seq<Step> {
    [Called(0, key, hash, Crashes), Called(1, key, hash, Completes), Recorded(0), Called(2, key, hash, Completes)]
  }

  lemma OverlapCrashes(key: JobKey, hash: string)
    ensures Run(Overlap(key, hash)[..1], 3) == System(NO_JOBS, map[0 := Crash(key, hash)])
  {
    RunLast([], Overlap(key, hash)[0], 3);
    assert Overlap(key, hash)[..1] == [] + [Overlap(key, hash)[0]];
  }

  lemma OverlapSucceeds(key: JobKey, hash: string)
    ensures var s := Run(Overlap(key, hash)[..2], 3);
            && s.jobs.rows == map[key := TaskRun(0, Succeeded, 1, hash, "")] && Count(s.jobs.effects, key) == 1
            && s.crashes == map[0 := Crash(key, hash)]
  {
    OverlapCrashes(key, hash);
    RunLast(Overlap(key, hash)[..1], Overlap(key, hash)[1], 3);
    assert Overlap(key, hash)[..2] == Overlap(key, hash)[..1] + [Overlap(key, hash)[1]];
  }

  lemma OverlapRecordsLate(key: JobKey, hash: string)
    ensures var s := Run(Overlap(key, hash)[..3], 3);
            && s.jobs.rows == map[key := TaskRun(0, Failed, 2, hash, "JOB_HANDLER_FAILED")] && Count(s.jobs.effects, key) == 1
            && s.crashes == map[]
  {
    OverlapSucceeds(key, hash);
    RunLast(Overlap(key, hash)[..2], Overlap(key, hash)[2], 3);
    assert Overlap(key, hash)[..3] == Overlap(key, hash)[..2] + [Overlap(key, hash)[2]];
  }

  /** The discipline is needed: when the late recording overwrites SUCCEEDED, the next call commits the
      handler's effects a second time. */
  lemma OverlapCanRunTwice(key: JobKey, hash: string)
    ensures Count(Run(Overlap(key, hash), 3).jobs.effects, key) == 2 && !Sequential(Overlap(key, hash), 3)
  {
    OverlapRecordsLate(key, hash);
    RunLast(Overlap(key, hash)[..3], Overlap(key, hash)[3], 3);
    assert Overlap(key, hash) == Overlap(key, hash)[..3] + [Overlap(key, hash)[3]];
    OverlapOverlaps(key, hash);
  }

  lemma OverlapOverlaps(key: JobKey, hash: string)
    ensures !Sequential(Overlap(key, hash), 3)
  {
    OverlapCrashes(key, hash);
    hide Run;
    var steps := Overlap(key, hash);
    assert steps[1].Called? && 0 in Run(steps[..1], 3).crashes;
  }
}
