/** The explicit trading calendar, the jobs of its sessions, and polls that dispatch them. */
module Schedule {
  import opened Orders

  /** A market date with the calendar facts the source asks of it. */
  datatype Date = Date(ordinal: int, year: int, month: nat, isoYear: int, isoWeek: nat)

  /** `closesAt` is the session's close as a UTC instant. */
  datatype Session = Session(date: Date, closesAt: int)

  datatype Cadence = Daily | Weekly | Monthly | Quarterly

  datatype Job = Job(cadence: Cadence, asOf: int, scheduledFor: int)

  /** The constructor's check: no business date twice. */
  predicate Calendar(sessions: seq<Session>) {
    forall i, j :: 0 <= i < j < |sessions| ==> sessions[i].date.ordinal != sessions[j].date.ordinal
  }

  /** The day, ISO week, month or quarter that a date falls in. */
  function Period(d: Date, c: Cadence): (int, int) {
    match c
    case Daily => (d.ordinal, 0)
    case Weekly => (d.isoYear, d.isoWeek)
    case Monthly => (d.year, d.month)
    case Quarterly => (d.year, (d.month - 1) / 3)
  }

  predicate IsFinal(sessions: seq<Session>, s: Session, c: Cadence) {
    !exists candidate :: candidate in sessions && Period(candidate.date, c) == Period(s.date, c)
                         && s.date.ordinal < candidate.date.ordinal
  }

  lemma {:induction false} FinalExists(sessions: seq<Session>, s: Session, c: Cadence, n: nat) returns (final: Session)
    requires s in sessions && n <= |sessions|
    ensures final in sessions && Period(final.date, c) == Period(s.date, c) && s.date.ordinal <= final.date.ordinal
    ensures forall j :: 0 <= j < n && Period(sessions[j].date, c) == Period(s.date, c) ==>
              sessions[j].date.ordinal <= final.date.ordinal
  {
    if n == 0 {
      final := s;
    } else {
      final := FinalExists(sessions, s, c, n - 1);
      var last := sessions[n - 1];
      if Period(last.date, c) == Period(s.date, c) && final.date.ordinal < last.date.ordinal {
        final := last;
      }
    }
  }

  /** Every week, month and quarter that has a session has exactly one final session, and the final session of
      a quarter is also that of its month. */
  lemma ExactlyOneFinalSession(sessions: seq<Session>, s: Session, c: Cadence)
    requires Calendar(sessions) && s in sessions
    ensures exists final ::
              && final in sessions && Period(final.date, c) == Period(s.date, c) && IsFinal(sessions, final, c)
              && forall other :: other in sessions && Period(other.date, c) == Period(s.date, c) && IsFinal(sessions, other, c)
                   ==> other == final
    ensures IsFinal(sessions, s, Quarterly) ==> IsFinal(sessions, s, Monthly)
  {
    forall candidate | candidate in sessions && Period(candidate.date, Monthly) == Period(s.date, Monthly)
      ensures Period(candidate.date, Quarterly) == Period(s.date, Quarterly)
    {
    }
    var final := FinalExists(sessions, s, c, |sessions|);
    assert IsFinal(sessions, final, c);
    forall other | other in sessions && Period(other.date, c) == Period(s.date, c) && IsFinal(sessions, other, c)
      ensures other == final
    {
      var i :| 0 <= i < |sessions| && sessions[i] == other;
      var j :| 0 <= j < |sessions| && sessions[j] == final;
      assert other.date.ordinal == final.date.ordinal;
      assert i == j;
    }
  }

  // ---------------------------------------------------------------------------------------------
  // The jobs of a session and of a poll
  // ---------------------------------------------------------------------------------------------

  function JobOf(s: Session, c: Cadence): Job {
    Job(c, s.closesAt, s.closesAt)
  }

  function JobIf(sessions: seq<Session>, s: Session, c: Cadence): seq<Job> {
    if IsFinal(sessions, s, c) then [JobOf(s, c)] else []
  }

  function JobsFor(sessions: seq<Session>, s: Session): seq<Job> {
    [JobOf(s, Daily)] + JobIf(sessions, s, Weekly) + JobIf(sessions, s, Monthly) + JobIf(sessions, s, Quarterly)
  }

  method JobsForSession(sessions: seq<Session>, s: Session) returns (jobs: seq<Job>)
    requires s in sessions
    ensures jobs == JobsFor(sessions, s)
  {
    jobs := [JobOf(s, Daily)];
    if IsFinal(sessions, s, Weekly) {
      jobs := jobs + [JobOf(s, Weekly)];
    }
    if IsFinal(sessions, s, Monthly) {
      jobs := jobs + [JobOf(s, Monthly)];
    }
    if IsFinal(sessions, s, Quarterly) {
      jobs := jobs + [JobOf(s, Quarterly)];
    }
  }

  function JobsForAll(sessions: seq<Session>, due: seq<Session>): seq<Job> {
    if due == [] then [] else JobsForAll(sessions, due[..|due| - 1]) + JobsFor(sessions, due[|due| - 1])
  }

  predicate ClosesFirst(a: Session, b: Session) {
    a.closesAt <= b.closesAt
  }

  predicate ClosedBy(now: int, s: Session) {
    s.closesAt <= now
  }

  function InOrder(sessions: seq<Session>): seq<Session> {
    Sort(ClosesFirst, sessions)
  }

  function Closed(sessions: seq<Session>, now: int): seq<Session> {
    Sort(ClosesFirst, Filter((s: Session) => ClosedBy(now, s), sessions))
  }

  function LastOf<T>(s: seq<T>, n: nat): seq<T> {
    if |s| <= n then s else s[|s| - n..]
  }

  /** The sessions a poll looks at: the last `max` that have closed. */
  function Due(sessions: seq<Session>, now: int, max: nat): seq<Session> {
    LastOf(Closed(sessions, now), max)
  }

  /** The jobs before the first one whose dispatch raises; that one ends the poll. */
  function UntilRaise(jobs: seq<Job>, raises: set<Job>): seq<Job> {
    if jobs == [] || jobs[0] in raises then [] else [jobs[0]] + UntilRaise(jobs[1..], raises)
  }

  lemma {:induction false} UntilRaiseAppend(a: seq<Job>, b: seq<Job>, raises: set<Job>)
    ensures UntilRaise(a + b, raises) == if UntilRaise(a, raises) == a then a + UntilRaise(b, raises) else UntilRaise(a, raises)
    ensures |UntilRaise(a, raises)| <= |a| && (UntilRaise(a, raises) != a ==> |UntilRaise(a, raises)| < |a|)
  {
    if a == [] {
      assert a + b == b;
    } else {
      assert (a + b)[1..] == a[1..] + b;
      UntilRaiseAppend(a[1..], b, raises);
      assert a == [a[0]] + a[1..];
      if a[0] !in raises && UntilRaise(a[1..], raises) == a[1..] {
        assert [a[0]] + (a[1..] + UntilRaise(b, raises)) == a + UntilRaise(b, raises);
      }
    }
  }

  /** The inner loop: dispatch one session's jobs until one raises. */
  method DispatchJobs(jobs: seq<Job>, raises: set<Job>) returns (results: seq<Job>, raised: bool)
    ensures results == UntilRaise(jobs, raises) && (raised <==> results != jobs)
  {
    results := [];
    for k := 0 to |jobs|
      invariant results == jobs[..k] == UntilRaise(jobs[..k], raises)
    {
      UntilRaiseAppend(jobs[..k], jobs[k..], raises);
      UntilRaiseAppend(jobs[..k], [jobs[k]], raises);
      assert jobs[..k] + jobs[k..] == jobs && jobs[..k] + [jobs[k]] == jobs[..k + 1];
      if jobs[k] in raises {
        return results, true;
      }
      results := results + [jobs[k]];
    }
    assert jobs[..|jobs|] == jobs;
    raised := false;
  }

  /** One poll: nested loops over due sessions and their jobs, left at the first raising dispatch. */
  method DispatchDue(sessions: seq<Session>, now: int, max: nat, raises: set<Job>) returns (results: seq<Job>, raised: bool)
    requires 1 <= max && Calendar(sessions)
    ensures results == UntilRaise(JobsForAll(sessions, Due(sessions, now, max)), raises)
    ensures raised <==> results != JobsForAll(sessions, Due(sessions, now, max))
  {
    var due := Due(sessions, now, max);
    DueMembers(sessions, now, max);
    hide Due, JobsFor;
    results, raised := [], false;
    for i := 0 to |due|
      invariant !raised
      invariant results == JobsForAll(sessions, due[..i]) == UntilRaise(JobsForAll(sessions, due[..i]), raises)
    {
      assert due[i] in due;
      var jobs := JobsForSession(sessions, due[i]);
      var done, stopped := DispatchJobs(jobs, raises);
      UntilRaiseAppend(JobsForAll(sessions, due[..i]), jobs, raises);
      assert due[..i + 1][..i] == due[..i];
      results := results + done;
      if stopped {
        ghost var rest := JobsForAllPrefix(sessions, due, i + 1);
        UntilRaiseAppend(JobsForAll(sessions, due[..i]) + jobs, rest, raises);
        UntilRaiseAppend(jobs, [], raises);
        assert JobsForAll(sessions, due[..i + 1]) == JobsForAll(sessions, due[..i]) + jobs;
        assert |results| < |JobsForAll(sessions, due)|;
        return results, true;
      }
    }
    assert due[..|due|] == due;
  }

  lemma {:induction false} JobsForAllPrefix(sessions: seq<Session>, due: seq<Session>, i: nat) returns (rest: seq<Job>)
    requires i <= |due|
    ensures JobsForAll(sessions, due) == JobsForAll(sessions, due[..i]) + rest
    decreases |due|
  {
    if i == |due| {
      assert due[..i] == due;
      rest := [];
    } else {
      assert due[..|due| - 1][..i] == due[..i];
      rest := JobsForAllPrefix(sessions, due[..|due| - 1], i);
      rest := rest + JobsFor(sessions, due[|due| - 1]);
    }
  }

  lemma {:induction false} UntilRaiseStops(jobs: seq<Job>, raises: set<Job>, n: nat)
    requires n < |jobs| && jobs[n] in raises && forall i :: 0 <= i < n ==> jobs[i] !in raises
    ensures UntilRaise(jobs, raises) == jobs[..n]
  {
    if n > 0 {
      UntilRaiseStops(jobs[1..], raises, n - 1);
    }
  }

  lemma {:induction false} UntilRaiseAll(jobs: seq<Job>, raises: set<Job>)
    requires forall job :: job in jobs ==> job !in raises
    ensures UntilRaise(jobs, raises) == jobs
  {
    if jobs != [] {
      UntilRaiseAll(jobs[1..], raises);
    }
  }

  lemma DueMembers(sessions: seq<Session>, now: int, max: nat)
    ensures forall s :: s in Due(sessions, now, max) ==> s in sessions && s.closesAt <= now
  {
    var p := (s: Session) => ClosedBy(now, s);
    FilterMembers(p, sessions);
    SortPermutes(ClosesFirst, Filter(p, sessions));
    SameMembers(Closed(sessions, now), Filter(p, sessions));
  }

  /** A session that is due gets all its jobs dispatched in a poll exactly when no job up to its last one
      raises: a job that keeps raising starves every later session of the poll. */
  lemma JobDispatchedIff(jobs: seq<Job>, raises: set<Job>, n: nat)
    requires n < |jobs|
    ensures n < |UntilRaise(jobs, raises)| <==> forall i :: 0 <= i <= n ==> jobs[i] !in raises
    ensures UntilRaise(jobs, raises) <= jobs
  {
    if forall i :: 0 <= i < |jobs| ==> jobs[i] !in raises {
      UntilRaiseAll(jobs, raises);
    } else {
      var first := FirstRaise(jobs, raises);
      UntilRaiseStops(jobs, raises, first);
    }
  }

  lemma {:induction false} FirstRaise(jobs: seq<Job>, raises: set<Job>) returns (n: nat)
    requires exists i :: 0 <= i < |jobs| && jobs[i] in raises
    ensures n < |jobs| && jobs[n] in raises && forall i :: 0 <= i < n ==> jobs[i] !in raises
  {
    n := 0;
    while jobs[n] !in raises
      invariant n < |jobs| && forall i :: 0 <= i < n ==> jobs[i] !in raises
      decreases |jobs| - n
    {
      n := n + 1;
    }
  }

  // ---------------------------------------------------------------------------------------------
  // Coverage over polls
  // ---------------------------------------------------------------------------------------------

  function ClosedCount(sessions: seq<Session>, now: int): (n: nat)
    ensures n <= |sessions|
  {
    |Filter((s: Session) => ClosedBy(now, s), sessions)|
  }

  /** What has closed by `now` is a prefix of the whole calendar in closing order. */
  lemma ClosedIsPrefix(sessions: seq<Session>, now: int)
    ensures Closed(sessions, now) == InOrder(sessions)[..ClosedCount(sessions, now)]
    ensures forall i :: 0 <= i < |sessions| ==> (InOrder(sessions)[i].closesAt <= now <==> i < ClosedCount(sessions, now))
  {
    var p := (s: Session) => ClosedBy(now, s);
    FilterSort(ClosesFirst, p, sessions);
    SortSorts(ClosesFirst, sessions);
    FilterKeepsPrefix(ClosesFirst, p, InOrder(sessions));
  }

  /** A poll looks at a window of the closing order: the last `max` ranks that have closed. */
  lemma DueIsWindow(sessions: seq<Session>, now: int, max: nat)
    ensures var n := ClosedCount(sessions, now);
            Due(sessions, now, max) == InOrder(sessions)[if n <= max then 0 else n - max..n]
  {
    ClosedIsPrefix(sessions, now);
    assert ClosedCount(sessions, now) <= |sessions| == |InOrder(sessions)|;
    hide Closed, InOrder, ClosedCount;
  }

  predicate Ascending(times: seq<int>) {
    forall i, j :: 0 <= i < j < |times| ==> times[i] <= times[j]
  }

  function CountBefore(sessions: seq<Session>, times: seq<int>, i: nat): nat
    requires i < |times|
  {
    if i == 0 then 0 else ClosedCount(sessions, times[i - 1])
  }

  /** At most `max` sessions close between one poll and the next, and before the first. */
  predicate SmallGaps(sessions: seq<Session>, times: seq<int>, max: nat) {
    forall i :: 0 <= i < |times| ==> ClosedCount(sessions, times[i]) - CountBefore(sessions, times, i) <= max
  }

  /** Rank `r` is in the window of poll `i`. */
  predicate Looks(sessions: seq<Session>, times: seq<int>, max: nat, i: nat, r: nat)
    requires i < |times|
  {
    ClosedCount(sessions, times[i]) - max <= r < ClosedCount(sessions, times[i])
  }

  ghost predicate AllCovered(sessions: seq<Session>, times: seq<int>, max: nat) {
    forall i, r :: 0 <= i < |times| && 0 <= r < ClosedCount(sessions, times[i]) ==> EverLooked(sessions, times, max, r)
  }

  ghost predicate EverLooked(sessions: seq<Session>, times: seq<int>, max: nat, r: nat) {
    exists i :: 0 <= i < |times| && Looks(sessions, times, max, i, r)
  }

  lemma ClosedCountMonotone(sessions: seq<Session>, t: int, t': int)
    requires t <= t'
    ensures ClosedCount(sessions, t) <= ClosedCount(sessions, t')
  {
    ClosedIsPrefix(sessions, t);
    ClosedIsPrefix(sessions, t');
    var n, n' := ClosedCount(sessions, t), ClosedCount(sessions, t');
    if n > 0 {
      assert InOrder(sessions)[n - 1].closesAt <= t;
    }
  }

  lemma {:induction false} SmallGapsCover(sessions: seq<Session>, times: seq<int>, max: nat, i: nat, r: nat)
    requires SmallGaps(sessions, times, max) && i < |times| && r < ClosedCount(sessions, times[i])
    ensures EverLooked(sessions, times, max, r)
  {
    hide ClosedCount;
    if r < CountBefore(sessions, times, i) {
      SmallGapsCover(sessions, times, max, i - 1, r);
    } else {
      assert Looks(sessions, times, max, i, r);
    }
  }

  lemma WideGapMisses(sessions: seq<Session>, times: seq<int>, max: nat, i: nat)
    requires Ascending(times) && i < |times|
    requires max < ClosedCount(sessions, times[i]) - CountBefore(sessions, times, i)
    ensures !EverLooked(sessions, times, max, CountBefore(sessions, times, i))
  {
    var r := CountBefore(sessions, times, i);
    hide ClosedCount;
    forall k | 0 <= k < |times| ensures !Looks(sessions, times, max, k, r) {
      if k < i {
        ClosedCountMonotone(sessions, times[k], times[i - 1]);
      } else {
        ClosedCountMonotone(sessions, times[i], times[k]);
      }
    }
  }

  /** Over polls at non-decreasing times every closed session is looked at by some poll if and only if no
      more than `max` sessions close between consecutive polls. What a gap misses is missed for good. */
  lemma CoverageIffSmallGaps(sessions: seq<Session>, times: seq<int>, max: nat)
    requires Ascending(times)
    ensures AllCovered(sessions, times, max) <==> SmallGaps(sessions, times, max)
  {
    if SmallGaps(sessions, times, max) {
      forall i, r | 0 <= i < |times| && 0 <= r < ClosedCount(sessions, times[i])
        ensures EverLooked(sessions, times, max, r)
      {
        SmallGapsCover(sessions, times, max, i, r);
      }
    } else {
      var i :| 0 <= i < |times| && max < ClosedCount(sessions, times[i]) - CountBefore(sessions, times, i);
      WideGapMisses(sessions, times, max, i);
    }
  }

  lemma {:induction false} JobsForAllMembers(sessions: seq<Session>, due: seq<Session>, k: nat)
    requires k < |due|
    ensures forall job :: job in JobsFor(sessions, due[k]) ==> job in JobsForAll(sessions, due)
    decreases |due|
  {
    if k < |due| - 1 {
      JobsForAllMembers(sessions, due[..|due| - 1], k);
    }
  }

  /** With small gaps and no raising job, every job of every session that has closed is dispatched by
      some poll. */
  lemma EveryClosedSessionIsDispatched(sessions: seq<Session>, times: seq<int>, max: nat, s: Session, last: nat, job: Job)
    requires SmallGaps(sessions, times, max) && last < |times|
    requires s in sessions && s.closesAt <= times[last] && job in JobsFor(sessions, s)
    ensures exists i :: 0 <= i < |times| && job in UntilRaise(JobsForAll(sessions, Due(sessions, times[i], max)), {})
  {
    var r := RankOf(sessions, s);
    ClosedIsPrefix(sessions, times[last]);
    hide ClosedCount, InOrder, JobsFor, Due, UntilRaise;
    SmallGapsCover(sessions, times, max, last, r);
    var i :| 0 <= i < |times| && Looks(sessions, times, max, i, r);
    WindowIsDispatched(sessions, times[i], max, r, job);
  }

  lemma RankOf(sessions: seq<Session>, s: Session) returns (r: nat)
    requires s in sessions
    ensures r < |sessions| && InOrder(sessions)[r] == s
  {
    SortPermutes(ClosesFirst, sessions);
    SameMembers(InOrder(sessions), sessions);
    assert s in InOrder(sessions);
    r :| 0 <= r < |sessions| && InOrder(sessions)[r] == s;
  }

  lemma WindowIsDispatched(sessions: seq<Session>, now: int, max: nat, r: nat, job: Job)
    requires ClosedCount(sessions, now) - max <= r < ClosedCount(sessions, now)
    requires job in JobsFor(sessions, InOrder(sessions)[r])
    ensures job in UntilRaise(JobsForAll(sessions, Due(sessions, now, max)), {})
  {
    assert ClosedCount(sessions, now) <= |sessions| == |InOrder(sessions)|;
    hide ClosedCount, InOrder, JobsFor, Due;
    DueIsWindow(sessions, now, max);
    var n := ClosedCount(sessions, now);
    var start := if n <= max then 0 else n - max;
    var due := Due(sessions, now, max);
    assert due[r - start] == InOrder(sessions)[r];
    JobsForAllMembers(sessions, due, r - start);
    UntilRaiseAll(JobsForAll(sessions, due), {});
  }

  /** Some poll dispatches the job, when poll `i` meets the raising jobs `raises[i]`. */
  ghost predicate EverDispatched(sessions: seq<Session>, times: seq<int>, max: nat, raises: seq<set<Job>>, job: Job)
    requires |raises| == |times|
  {
    exists i :: 0 <= i < |times| && job in UntilRaise(JobsForAll(sessions, Due(sessions, times[i], max)), raises[i])
  }

  /** The job comes up in the list with nothing raising up to and including it. */
  ghost predicate Unobstructed(jobs: seq<Job>, raises: set<Job>, job: Job) {
    exists n :: 0 <= n < |jobs| && jobs[n] == job && forall m :: 0 <= m <= n ==> jobs[m] !in raises
  }

  lemma DispatchedIffUnobstructed(jobs: seq<Job>, raises: set<Job>, job: Job)
    ensures job in UntilRaise(jobs, raises) <==> Unobstructed(jobs, raises, job)
  {
    var done := UntilRaise(jobs, raises);
    hide UntilRaise;
    if job in done {
      var n :| 0 <= n < |done| && done[n] == job;
      UntilRaiseIsPrefix(jobs, raises);
      JobDispatchedIff(jobs, raises, n);
    }
    if Unobstructed(jobs, raises, job) {
      var n :| 0 <= n < |jobs| && jobs[n] == job && forall m :: 0 <= m <= n ==> jobs[m] !in raises;
      JobDispatchedIff(jobs, raises, n);
      assert done[n] == jobs[n];
    }
  }

  lemma {:induction false} UntilRaiseIsPrefix(jobs: seq<Job>, raises: set<Job>)
    ensures UntilRaise(jobs, raises) <= jobs
  {
    if jobs != [] && jobs[0] !in raises {
      UntilRaiseIsPrefix(jobs[1..], raises);
    }
  }

  /** Over polls with jobs that raise: a job is dispatched if and only if it is due in some poll in which
      neither it nor any job before it raises. */
  lemma DispatchedIffUnobstructedOnce(sessions: seq<Session>, times: seq<int>, max: nat, raises: seq<set<Job>>, job: Job)
    requires |raises| == |times|
    ensures EverDispatched(sessions, times, max, raises, job) <==>
            exists i :: 0 <= i < |times| && Unobstructed(JobsForAll(sessions, Due(sessions, times[i], max)), raises[i], job)
  {
    hide JobsForAll, Due, UntilRaise, Unobstructed;
    forall i | 0 <= i < |times|
      ensures job in UntilRaise(JobsForAll(sessions, Due(sessions, times[i], max)), raises[i])
          <==> Unobstructed(JobsForAll(sessions, Due(sessions, times[i], max)), raises[i], job)
    {
      DispatchedIffUnobstructed(JobsForAll(sessions, Due(sessions, times[i], max)), raises[i], job);
    }
  }
}
