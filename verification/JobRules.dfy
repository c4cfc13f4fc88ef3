/** What one call and one recording do to a job's row, and what that says about the rows of a run. */
module JobRules {
  import opened JobExecutor

  /** The job may be run: it is new, or was used with this input, has not succeeded and has attempts left. */
  predicate Runnable(j: Jobs, key: JobKey, hash: string, max: nat) {
    key in j.rows ==> j.rows[key].inputHash == hash && j.rows[key].status != Succeeded && j.rows[key].attempt < max
  }

  /** The row of the next attempt: the same run, or a new one at attempt 1. */
  predicate IsNextAttempt(j: Jobs, key: JobKey, row: TaskRun) {
    if key in j.rows then row.id == j.rows[key].id && row.attempt == j.rows[key].attempt + 1
    else row.id == j.nextId && row.attempt == 1
  }

  /** Only the job's own row differs, and nothing is counted. */
  ghost predicate OnlyRowChanges(j: Jobs, j': Jobs, key: JobKey) {
    && (forall other :: other != key ==> (other in j'.rows <==> other in j.rows))
    && (forall other :: other != key && other in j.rows ==> j'.rows[other] == j.rows[other])
    && (forall other :: other != key ==> Count(j'.effects, other) == Count(j.effects, other))
    && (forall other :: other != key ==> Count(j'.failures, other) == Count(j.failures, other))
  }

  /** A runnable job whose handler completes succeeds at its next attempt, and its effects are committed once more; a
      handler that does not complete leaves no trace. A job that is not runnable is answered from its row, in this
      order: other input, success, no attempts left; only the last changes the row, to failed. */
  lemma CallOutcome(j: Jobs, key: JobKey, hash: string, h: Handler, max: nat)
    ensures var (j', r) := Execute(j, key, hash, h, max);
            && OnlyRowChanges(j, j', key)
            && Count(j'.failures, key) == Count(j.failures, key)
            && Count(j'.effects, key) == Count(j.effects, key) + (if r.Ran? then 1 else 0)
            && (Runnable(j, key, hash, max) ==>
                  && (h == Completes ==>
                        && key in j'.rows && IsNextAttempt(j, key, j'.rows[key])
                        && r == Ran(j'.rows[key].id, j'.rows[key].attempt)
                        && j'.rows[key].status == Succeeded && j'.rows[key].inputHash == hash && j'.rows[key].error == "")
                  && (h == Refuses ==> r == HandlerRefused && j' == j)
                  && (h == Crashes ==> r == HandlerCrashed && j' == j))
            && (!Runnable(j, key, hash, max) ==>
                  var row := j.rows[key];
                  if row.inputHash != hash then r == KeyConflict && j' == j
                  else if row.status == Succeeded then r == Reused(row.id, row.attempt) && j' == j
                  else
                    && r == RetriesExhausted && key in j'.rows
                    && j'.rows[key] == TaskRun(row.id, Failed, row.attempt, row.inputHash, "JOB_RETRY_LIMIT_EXHAUSTED"))
  {
  }

  /** A recording fails the job's next attempt, whatever the row is. */
  lemma RecordingOutcome(j: Jobs, key: JobKey, hash: string)
    ensures var j' := RecordFailure(j, key, hash);
            && OnlyRowChanges(j, j', key)
            && Count(j'.effects, key) == Count(j.effects, key) && Count(j'.failures, key) == Count(j.failures, key) + 1
            && key in j'.rows && IsNextAttempt(j, key, j'.rows[key])
            && j'.rows[key].status == Failed && j'.rows[key].inputHash == hash && j'.rows[key].error == "JOB_HANDLER_FAILED"
  {
  }

  /** Every run has an id of its own, below the next one. */
  predicate OwnIds(j: Jobs) {
    && (forall key :: key in j.rows ==> j.rows[key].id < j.nextId)
    && (forall a, b :: a in j.rows && b in j.rows && a != b ==> j.rows[a].id != j.rows[b].id)
  }

  /** In every run of calls, recordings and abandonments, overlapping or not, no two jobs share a run id. */
  lemma {:induction false} RunIdsAreOwn(steps: seq<Step>, max: nat)
    ensures OwnIds(Run(steps, max).jobs)
  {
    if steps != [] {
      var before, last := Run(steps[..|steps| - 1], max), steps[|steps| - 1];
      RunIdsAreOwn(steps[..|steps| - 1], max);
      hide Execute, RecordFailure;
      if last.Called? {
        CallKeepsIds(before.jobs, last.key, last.hash, last.h, max);
      } else if last.Recorded? && Possible(before, last) {
        RecordingKeepsIds(before.jobs, before.crashes[last.id].key, before.crashes[last.id].hash);
      }
    }
  }

  lemma CallKeepsIds(j: Jobs, key: JobKey, hash: string, h: Handler, max: nat)
    requires OwnIds(j)
    ensures OwnIds(Execute(j, key, hash, h, max).0)
  {
  }

  lemma RecordingKeepsIds(j: Jobs, key: JobKey, hash: string)
    requires OwnIds(j)
    ensures OwnIds(RecordFailure(j, key, hash))
  {
  }
}
