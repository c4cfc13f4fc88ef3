/** Polls on top of the job executor: what repeated dispatch of the same jobs does to their rows and effects. */
module ScheduledJobs {
  import opened JobExecutor
  import opened Schedule

  /** What a job hands to the executor in a poll, and how its handler would end. */
  datatype Dispatch = Dispatch(job: Job, key: JobKey, hash: string, handler: Handler)

  predicate Raised(r: Result) {
    !r.Ran? && !r.Reused?
  }

  /** One dispatch: the call, and, when its handler crashed, the recording that follows it. */
  function Dispatched(j: Jobs, d: Dispatch, max: nat): (Jobs, Result) {
    var (j', result) := Execute(j, d.key, d.hash, d.handler, max);
    (if result == HandlerCrashed then RecordFailure(j', d.key, d.hash) else j', result)
  }

  /** One poll: the dispatches in order, up to and including the first that raises. `done` are those that
      did not. */
  function Poll(j: Jobs, due: seq<Dispatch>, max: nat): (Jobs, seq<Dispatch>)
    decreases |due|
  {
    if due == [] then (j, [])
    else
      var (j', result) := Dispatched(j, due[0], max);
      if Raised(result) then (j', [])
      else
        var (end, done) := Poll(j', due[1..], max);
        (end, [due[0]] + done)
  }

  /** Any number of polls, one after the other. */
  function Polls(j: Jobs, polls: seq<seq<Dispatch>>, max: nat): Jobs {
    if polls == [] then j else Poll(Polls(j, polls[..|polls| - 1], max), polls[|polls| - 1], max).0
  }

  lemma CrashFindsJobOpen(j: Jobs, key: JobKey, hash: string, max: nat)
    requires Execute(j, key, hash, Crashes, max).1 == HandlerCrashed && 1 <= max
    ensures Execute(j, key, hash, Crashes, max).0 == j && StillOpen(j, key, max)
  {
  }

  lemma OnlyCrashesCrash(j: Jobs, key: JobKey, hash: string, h: Handler, max: nat)
    requires Execute(j, key, hash, h, max).1 == HandlerCrashed
    ensures h == Crashes
  {
  }

  lemma RecordingElsewhere(j: Jobs, key: JobKey, hash: string, other: JobKey, max: nat)
    requires key != other && Reliable(j, other, max)
    ensures Reliable(RecordFailure(j, key, hash), other, max)
  {
  }

  lemma DispatchKeepsReliable(j: Jobs, d: Dispatch, max: nat, key: JobKey)
    requires 1 <= max && Reliable(j, key, max)
    ensures Reliable(Dispatched(j, d, max).0, key, max)
  {
    hide Reliable, RecordFailure, Execute;
    CallKeepsReliable(j, d.key, d.hash, d.handler, max, key);
    if Execute(j, d.key, d.hash, d.handler, max).1 == HandlerCrashed {
      OnlyCrashesCrash(j, d.key, d.hash, d.handler, max);
      CrashFindsJobOpen(j, d.key, d.hash, max);
      if key == d.key {
        RecordingKeepsReliableIffStillOpen(j, key, d.hash, max);
      } else {
        RecordingElsewhere(j, d.key, d.hash, key, max);
      }
    }
  }

  lemma {:induction false} PollKeepsReliable(j: Jobs, due: seq<Dispatch>, max: nat, key: JobKey)
    requires 1 <= max && Reliable(j, key, max)
    ensures Reliable(Poll(j, due, max).0, key, max)
    decreases |due|
  {
    hide Reliable, Dispatched;
    if due != [] {
      DispatchKeepsReliable(j, due[0], max, key);
      PollKeepsReliable(Dispatched(j, due[0], max).0, due[1..], max, key);
    }
  }

  /** However often sessions are replayed, and whatever raises in between: each job's effects are committed
      at most once, exactly when its row is SUCCEEDED, and its attempts stay within the maximum. */
  lemma {:induction false} ReplayedPollsAreReliable(polls: seq<seq<Dispatch>>, max: nat, key: JobKey)
    requires 1 <= max
    ensures Reliable(Polls(NO_JOBS, polls, max), key, max)
  {
    if polls != [] {
      ReplayedPollsAreReliable(polls[..|polls| - 1], max, key);
      PollKeepsReliable(Polls(NO_JOBS, polls[..|polls| - 1], max), polls[|polls| - 1], max, key);
    }
  }

  // ---------------------------------------------------------------------------------------------
  // How far a poll gets
  // ---------------------------------------------------------------------------------------------

  /** The executor's own guard: the key was used with other input, or the job has not succeeded yet and either
      may not run again or its handler does not complete. */
  predicate Blocked(j: Jobs, d: Dispatch, max: nat) {
    if d.key !in j.rows then d.handler != Completes
    else
      || j.rows[d.key].inputHash != d.hash
      || (j.rows[d.key].status != Succeeded && (max <= j.rows[d.key].attempt || d.handler != Completes))
  }

  predicate DistinctKeys(due: seq<Dispatch>) {
    forall m, n :: 0 <= m < n < |due| ==> due[m].key != due[n].key
  }

  lemma RaisesIffBlocked(j: Jobs, d: Dispatch, max: nat)
    ensures Raised(Dispatched(j, d, max).1) <==> Blocked(j, d, max)
  {
  }

  lemma DispatchLeavesOthers(j: Jobs, d: Dispatch, max: nat, other: Dispatch)
    requires other.key != d.key
    ensures Blocked(Dispatched(j, d, max).0, other, max) <==> Blocked(j, other, max)
  {
  }

  /** From any state of the jobs: a poll dispatches its n-th job if and only if neither that job nor any before
      it is blocked. */
  lemma {:induction false} ReachedIffNoneBlocked(j: Jobs, due: seq<Dispatch>, max: nat, n: nat)
    requires DistinctKeys(due) && n < |due|
    ensures n < |Poll(j, due, max).1| <==> forall m :: 0 <= m <= n ==> !Blocked(j, due[m], max)
    decreases |due|
  {
    hide Blocked, Dispatched;
    RaisesIffBlocked(j, due[0], max);
    if n > 0 && !Blocked(j, due[0], max) {
      var j', rest := Dispatched(j, due[0], max).0, due[1..];
      ReachedIffNoneBlocked(j', rest, max, n - 1);
      forall m | 0 <= m <= n - 1 ensures Blocked(j', rest[m], max) <==> Blocked(j, due[m + 1], max) {
        DispatchLeavesOthers(j, due[0], max, due[m + 1]);
      }
      if forall m :: 0 <= m <= n - 1 ==> !Blocked(j', rest[m], max) {
        forall m | 0 <= m <= n ensures !Blocked(j, due[m], max) {
          assert m > 0 ==> !Blocked(j', rest[m - 1], max);
        }
      }
      if forall m :: 0 <= m <= n ==> !Blocked(j, due[m], max) {
        forall m | 0 <= m <= n - 1 ensures !Blocked(j', rest[m], max) {
          assert !Blocked(j, due[m + 1], max);
        }
      }
    }
  }

  lemma {:induction false} DoneIsPrefix(j: Jobs, due: seq<Dispatch>, max: nat)
    ensures Poll(j, due, max).1 <= due
    decreases |due|
  {
    hide Dispatched;
    if due != [] {
      DoneIsPrefix(Dispatched(j, due[0], max).0, due[1..], max);
    }
  }

  // ---------------------------------------------------------------------------------------------
  // Jobs that are blocked for good
  // ---------------------------------------------------------------------------------------------

  /** The job cannot get through any more: other input under its key, or its attempts are used up without
      success. */
  predicate Doomed(j: Jobs, d: Dispatch, max: nat) {
    d.key in j.rows &&
    (j.rows[d.key].inputHash != d.hash || (j.rows[d.key].status != Succeeded && max <= j.rows[d.key].attempt))
  }

  lemma DispatchKeepsDoomed(j: Jobs, d: Dispatch, max: nat, doomed: Dispatch)
    requires Doomed(j, doomed, max)
    ensures Doomed(Dispatched(j, d, max).0, doomed, max)
  {
  }

  lemma {:induction false} PollKeepsDoomed(j: Jobs, due: seq<Dispatch>, max: nat, doomed: Dispatch)
    requires Doomed(j, doomed, max)
    ensures Doomed(Poll(j, due, max).0, doomed, max)
    decreases |due|
  {
    hide Doomed, Dispatched;
    if due != [] {
      DispatchKeepsDoomed(j, due[0], max, doomed);
      PollKeepsDoomed(Dispatched(j, due[0], max).0, due[1..], max, doomed);
    }
  }

  lemma {:induction false} PollsKeepDoomed(j: Jobs, polls: seq<seq<Dispatch>>, max: nat, doomed: Dispatch)
    requires Doomed(j, doomed, max)
    ensures Doomed(Polls(j, polls, max), doomed, max)
  {
    if polls != [] {
      PollsKeepDoomed(j, polls[..|polls| - 1], max, doomed);
      PollKeepsDoomed(Polls(j, polls[..|polls| - 1], max), polls[|polls| - 1], max, doomed);
    }
  }

  lemma DoomedIsBlocked(j: Jobs, d: Dispatch, max: nat, h: Handler)
    requires Doomed(j, d, max)
    ensures Blocked(j, d.(handler := h), max)
  {
  }

  ghost predicate BlockedForGood(j: Jobs, d: Dispatch, max: nat) {
    forall polls: seq<seq<Dispatch>>, h: Handler :: Blocked(Polls(j, polls, max), d.(handler := h), max)
  }

  /** A job is blocked for good, whatever polls follow and however its handler fares in them, if and only if it
      is doomed. */
  lemma BlockedForGoodIffDoomed(j: Jobs, d: Dispatch, max: nat)
    requires 1 <= max
    ensures BlockedForGood(j, d, max) <==> Doomed(j, d, max)
  {
    if Doomed(j, d, max) {
      forall polls: seq<seq<Dispatch>>, h: Handler ensures Blocked(Polls(j, polls, max), d.(handler := h), max) {
        PollsKeepDoomed(j, polls, max, d);
        DoomedIsBlocked(Polls(j, polls, max), d, max, h);
      }
    }
    if BlockedForGood(j, d, max) {
      assert Polls(j, [], max) == j;
      assert Blocked(Polls(j, [], max), d.(handler := Completes), max);
    }
  }

  /** In every later poll in which a doomed job is due, nothing due behind it is dispatched. */
  lemma DoomedStarvesForGood(j: Jobs, polls: seq<seq<Dispatch>>, due: seq<Dispatch>, max: nat, n: nat)
    requires DistinctKeys(due) && n < |due| && Doomed(j, due[n], max)
    ensures |Poll(Polls(j, polls, max), due, max).1| <= n && Poll(Polls(j, polls, max), due, max).1 <= due
  {
    var later := Polls(j, polls, max);
    PollsKeepDoomed(j, polls, max, due[n]);
    DoomedIsBlocked(later, due[n], max, due[n].handler);
    assert due[n].(handler := due[n].handler) == due[n];
    hide Blocked, Poll, Polls, Doomed;
    ReachedIffNoneBlocked(later, due, max, n);
    DoneIsPrefix(later, due, max);
  }

  /** The dispatches of the poll at `now`, in the order of the due sessions' jobs. */
  predicate IsPollAt(due: seq<Dispatch>, sessions: seq<Session>, now: int, window: nat) {
    var jobs := JobsForAll(sessions, Due(sessions, now, window));
    |due| == |jobs| && forall i :: 0 <= i < |due| ==> due[i].job == jobs[i]
  }

  /** So when the doomed job is one of the first `k` due sessions' jobs, every later poll at which they are due
      ends among them: not one job of a later session is dispatched. */
  lemma {:induction false} DoomedJobStarvesLaterSessions(
      j: Jobs, polls: seq<seq<Dispatch>>, due: seq<Dispatch>, max: nat, n: nat,
      sessions: seq<Session>, now: int, window: nat, k: nat)
    requires IsPollAt(due, sessions, now, window) && k <= |Due(sessions, now, window)|
    requires DistinctKeys(due) && n < |due| && n < |JobsForAll(sessions, Due(sessions, now, window)[..k])|
    requires Doomed(j, due[n], max)
    ensures var done, early := Poll(Polls(j, polls, max), due, max).1, JobsForAll(sessions, Due(sessions, now, window)[..k]);
            |done| < |early| && forall i :: 0 <= i < |done| ==> done[i].job == early[i]
  {
    var _ := JobsForAllPrefix(sessions, Due(sessions, now, window), k);
    DoomedStarvesForGood(j, polls, due, max, n);
  }

  // ---------------------------------------------------------------------------------------------
  // A run of polls that gets there
  // ---------------------------------------------------------------------------------------------

  /** `n` polls in which the same job comes first. */
  function Repeat(due: seq<Dispatch>, n: nat): seq<seq<Dispatch>> {
    if n == 0 then [] else Repeat(due, n - 1) + [due]
  }

  lemma CrashCounts(j: Jobs, d: Dispatch, rest: seq<Dispatch>, max: nat, n: nat)
    requires d.handler == Crashes && n < max
    requires if n == 0 then d.key !in j.rows
             else d.key in j.rows && j.rows[d.key].status == Failed && j.rows[d.key].attempt == n && j.rows[d.key].inputHash == d.hash
    ensures var j' := Poll(j, [d] + rest, max).0;
            d.key in j'.rows && j'.rows[d.key].status == Failed && j'.rows[d.key].attempt == n + 1 && j'.rows[d.key].inputHash == d.hash
  {
    assert ([d] + rest)[0] == d;
    assert Dispatched(j, d, max).1 == HandlerCrashed;
  }

  lemma {:induction false} CrashesCount(d: Dispatch, rest: seq<Dispatch>, max: nat, n: nat)
    requires d.handler == Crashes && 1 <= n <= max
    ensures var j := Polls(NO_JOBS, Repeat([d] + rest, n), max);
            d.key in j.rows && j.rows[d.key].status == Failed && j.rows[d.key].attempt == n && j.rows[d.key].inputHash == d.hash
  {
    var polls := Repeat([d] + rest, n);
    assert polls[..|polls| - 1] == Repeat([d] + rest, n - 1) && polls[|polls| - 1] == [d] + rest;
    if n > 1 {
      CrashesCount(d, rest, max, n - 1);
    }
    hide Poll;
    CrashCounts(Polls(NO_JOBS, Repeat([d] + rest, n - 1), max), d, rest, max, n - 1);
  }

  /** From the start, as many polls as attempts are allowed, in each of which the first job's handler crashes:
      the job is doomed, and whatever is due behind it starves from then on, even once its handler is mended. */
  lemma CrashesDoom(d: Dispatch, rest: seq<Dispatch>, max: nat, more: seq<seq<Dispatch>>, h: Handler)
    requires d.handler == Crashes && 1 <= max && DistinctKeys([d] + rest)
    ensures var j := Polls(NO_JOBS, Repeat([d] + rest, max), max);
            && Doomed(j, d, max)
            && Poll(Polls(j, more, max), [d.(handler := h)] + rest, max).1 == []
  {
    var j, mended := Polls(NO_JOBS, Repeat([d] + rest, max), max), d.(handler := h);
    CrashesCount(d, rest, max, max);
    assert Doomed(j, d, max) && Doomed(j, mended, max);
    forall m, n | 0 <= m < n < |[mended] + rest| ensures ([mended] + rest)[m].key != ([mended] + rest)[n].key {
      assert ([d] + rest)[m].key != ([d] + rest)[n].key;
    }
    hide Doomed, Poll, Polls;
    DoomedStarvesForGood(j, more, [mended] + rest, max, 0);
  }
}
