/** Which jobs a session has, in terms of the calendar's dates alone. */
module SessionJobs {
  import opened Schedule

  /** The dates are in one ISO week, month or quarter. */
  predicate Together(a: Date, b: Date, c: Cadence) {
    match c
    case Daily => a.ordinal == b.ordinal
    case Weekly => a.isoYear == b.isoYear && a.isoWeek == b.isoWeek
    case Monthly => a.year == b.year && a.month == b.month
    case Quarterly => a.year == b.year && (a.month - 1) / 3 == (b.month - 1) / 3
  }

  /** Some session lies later in the same period. */
  predicate LaterOneIn(sessions: seq<Session>, s: Session, c: Cadence) {
    exists later :: later in sessions && Together(later.date, s.date, c) && s.date.ordinal < later.date.ordinal
  }

  function PlaceOf(c: Cadence): nat {
    match c
    case Daily => 0
    case Weekly => 1
    case Monthly => 2
    case Quarterly => 3
  }

  lemma LastIffFinal(sessions: seq<Session>, s: Session, c: Cadence)
    ensures IsFinal(sessions, s, c) <==> !LaterOneIn(sessions, s, c)
  {
    if LaterOneIn(sessions, s, c) {
      var later :| later in sessions && Together(later.date, s.date, c) && s.date.ordinal < later.date.ordinal;
      assert Period(later.date, c) == Period(s.date, c);
    }
    if !IsFinal(sessions, s, c) {
      var later :| later in sessions && Period(later.date, c) == Period(s.date, c) && s.date.ordinal < later.date.ordinal;
      assert Together(later.date, s.date, c);
    }
  }

  /** A job is among a session's if and only if it is as of the session's close and due then, and it is the daily
      one or no later session shares the week, month or quarter of its cadence. Each comes once, in the order daily,
      weekly, monthly, quarterly. */
  lemma JobsAreExactly(sessions: seq<Session>, s: Session, job: Job)
    ensures job in JobsFor(sessions, s) <==>
            && job.asOf == s.closesAt && job.scheduledFor == s.closesAt
            && (job.cadence == Daily || !LaterOneIn(sessions, s, job.cadence))
    ensures var jobs := JobsFor(sessions, s);
            forall i, j :: 0 <= i < j < |jobs| ==> PlaceOf(jobs[i].cadence) < PlaceOf(jobs[j].cadence)
  {
    LastIffFinal(sessions, s, job.cadence);
    hide IsFinal, LaterOneIn;
    JobIfIs(sessions, s, Weekly);
    JobIfIs(sessions, s, Monthly);
    JobIfIs(sessions, s, Quarterly);
    assert Job(job.cadence, s.closesAt, s.closesAt) == JobOf(s, job.cadence);
  }

  lemma JobIfIs(sessions: seq<Session>, s: Session, c: Cadence)
    ensures forall job :: job in JobIf(sessions, s, c) <==> IsFinal(sessions, s, c) && job == JobOf(s, c)
    ensures |JobIf(sessions, s, c)| <= 1
  {
  }

  predicate HasJob(sessions: seq<Session>, s: Session, c: Cadence) {
    exists job :: job in JobsFor(sessions, s) && job.cadence == c
  }

  lemma HasJobIff(sessions: seq<Session>, s: Session, c: Cadence)
    ensures HasJob(sessions, s, c) <==> c == Daily || !LaterOneIn(sessions, s, c)
  {
    var job := Job(c, s.closesAt, s.closesAt);
    JobsAreExactly(sessions, s, job);
    forall other ensures other in JobsFor(sessions, s) && other.cadence == c ==> other == job {
      JobsAreExactly(sessions, s, other);
    }
    hide JobsFor, LaterOneIn;
    if c == Daily || !LaterOneIn(sessions, s, c) {
      assert job in JobsFor(sessions, s) && job.cadence == c;
    }
  }

  /** Over a calendar, every session has a daily job, and every week, month and quarter with a session has exactly
      one session with the job of that cadence: its last. */
  lemma OneSessionPerPeriod(sessions: seq<Session>, s: Session, c: Cadence) returns (last: Session)
    requires Calendar(sessions) && s in sessions && c != Daily
    ensures last in sessions && Together(last.date, s.date, c) && s.date.ordinal <= last.date.ordinal && HasJob(sessions, last, c)
    ensures forall other :: other in sessions && Together(other.date, s.date, c) && HasJob(sessions, other, c) ==> other == last
    ensures HasJob(sessions, s, Daily)
  {
    last := FinalExists(sessions, s, c, |sessions|);
    HasJobIff(sessions, last, c);
    HasJobIff(sessions, s, Daily);
    hide HasJob;
    forall other | other in sessions && Together(other.date, s.date, c) && HasJob(sessions, other, c) ensures other == last {
      HasJobIff(sessions, other, c);
      assert last.date.ordinal <= other.date.ordinal;
      var i :| 0 <= i < |sessions| && sessions[i] == other;
      var j :| 0 <= j < |sessions| && sessions[j] == last;
      assert i == j;
    }
  }
}
