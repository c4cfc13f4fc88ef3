/** A run in which two writers overlap, and the versions end up stamped out of order. */
module OverlappingWriters {
  import opened Options
  import opened Enums
  import opened Thesis
  import opened ThesisPayload
  import opened ThesisHistory
  import opened ThesisWriters

  function Sample(state: ThesisState): Content {
    Content(state, "s", [Pillar("k", Claim("d", [1]), PillarValid)], [], [], [], [], NewEvidence)
  }

  lemma SampleIsWellFormed(state: ThesisState)
    requires state != Broken
    ensures Sample(state).WellFormed()
  {
    assert Sample(state).pillars == [Pillar("k", Claim("d", [1]), PillarValid)];
  }

  /** The first writer reads its clock, and waits; a second one starts later and commits first. */
  function Overlap(): seq<Step> {
    [Begin(0, Sample(Weakening), None), Tick(1), Begin(1, Sample(Valid), None),
     Read(1), InsertRow(1), Append(1, 10), Point(1), Commit(1),
     Read(0), Append(0, 11), Point(0), Commit(0)]
  }

  function Slow(phase: Phase): Writer {
    Writer(Sample(Weakening), 0, None, phase)
  }

  function Fast(phase: Phase): Writer {
    Writer(Sample(Valid), 1, None, phase)
  }

  function First(): Version {
    Version(10, 1, None, 1, Sample(Valid))
  }

  function Second(): Version {
    Version(11, 2, Some(10), 0, Sample(Weakening))
  }

  function Both(fast: Phase): State {
    State(1, None, [], map[0 := Slow(Begun), 1 := Fast(fast)])
  }

  function OnlySlow(slow: Phase): State {
    State(1, Some(Row(10, 2)), [First()], map[0 := Slow(slow)])
  }

  lemma SlowBegins()
    ensures Run(START, Overlap()) == Run(State(0, None, [], map[0 := Slow(Begun)]), Overlap()[1..])
  {
    SampleIsWellFormed(Weakening);
    hide Sample, Decide, Content.WellFormed;
    assert Overlap()[0..] == Overlap();
    RunStep(START, Overlap(), 0, State(0, None, [], map[0 := Slow(Begun)]));
  }

  lemma ClockTicks()
    ensures Run(State(0, None, [], map[0 := Slow(Begun)]), Overlap()[1..])
         == Run(State(1, None, [], map[0 := Slow(Begun)]), Overlap()[2..])
  {
    hide Sample, Decide, Content.WellFormed;
    RunStep(State(0, None, [], map[0 := Slow(Begun)]), Overlap(), 1, State(1, None, [], map[0 := Slow(Begun)]));
  }

  lemma FastBegins()
    ensures Run(State(1, None, [], map[0 := Slow(Begun)]), Overlap()[2..]) == Run(Both(Begun), Overlap()[3..])
  {
    SampleIsWellFormed(Valid);
    hide Sample, Decide, Content.WellFormed;
    RunStep(State(1, None, [], map[0 := Slow(Begun)]), Overlap(), 2, Both(Begun));
  }

  lemma FastInserts()
    ensures Run(Both(Begun), Overlap()[3..]) == Run(Both(RowInserted), Overlap()[5..])
  {
    hide Sample, Decide, Content.WellFormed;
    RunStep(Both(Begun), Overlap(), 3, Both(HasRead(NoThesis)));
    RunStep(Both(HasRead(NoThesis)), Overlap(), 4, Both(RowInserted));
  }

  lemma FastAppends()
    ensures Run(Both(RowInserted), Overlap()[5..]) == Run(Both(Appended(NoThesis, First())), Overlap()[6..])
  {
    hide Sample, Decide, Content.WellFormed;
    RunStep(Both(RowInserted), Overlap(), 5, Both(Appended(NoThesis, First())));
  }

  lemma FastPoints()
    ensures Run(Both(Appended(NoThesis, First())), Overlap()[6..]) == Run(Both(Pointed(NoThesis, First())), Overlap()[7..])
  {
    hide Sample, Decide, Content.WellFormed;
    RunStep(Both(Appended(NoThesis, First())), Overlap(), 6, Both(Pointed(NoThesis, First())));
  }

  lemma FastCommits()
    ensures Run(Both(Pointed(NoThesis, First())), Overlap()[7..]) == Run(OnlySlow(Begun), Overlap()[8..])
  {
    hide Sample, Decide, Content.WellFormed;
    RunStep(Both(Pointed(NoThesis, First())), Overlap(), 7, OnlySlow(Begun));
  }

  lemma SamplesDiffer()
    ensures Decide(OnTop(First(), 2), Sample(Weakening), None) == Proceed
  {
    SampleIsWellFormed(Valid);
    ReadBack(Sample(Valid));
    hide Payload, Parse;
  }

  lemma SlowCommits()
    ensures Run(OnlySlow(Begun), Overlap()[8..]) == Some(State(1, Some(Row(11, 3)), [First(), Second()], map[]))
  {
    SamplesDiffer();
    hide Sample, Decide, Content.WellFormed;
    var base := OnTop(First(), 2);
    RunStep(OnlySlow(Begun), Overlap(), 8, OnlySlow(HasRead(base)));
    RunStep(OnlySlow(HasRead(base)), Overlap(), 9, OnlySlow(Appended(base, Second())));
    RunStep(OnlySlow(Appended(base, Second())), Overlap(), 10, OnlySlow(Pointed(base, Second())));
    RunStep(OnlySlow(Pointed(base, Second())), Overlap(), 11, State(1, Some(Row(11, 3)), [First(), Second()], map[]));
    assert Overlap()[12..] == [];
  }

  /**
   * Even with a clock that never goes back, the clock is read before the transaction, so a reachable
   * history can be stamped out of order; as of instant 1 it then shows version 1 although version 2
   * was stamped at instant 0.
   */
  lemma StampOutOfOrder()
    ensures var end := Run(START, Overlap());
            && end.Some?
            && !CreatedInOrder(end.value.versions)
            && LatestAsOf(end.value.versions, 1) == Some(First())
            && HighestAsOf(end.value.versions, 1) == Some(Second())
  {
    SlowBegins();
    ClockTicks();
    FastBegins();
    FastInserts();
    FastAppends();
    FastPoints();
    FastCommits();
    SlowCommits();
    hide Sample, Overlap, Run;
    var versions := [First(), Second()];
    assert versions[0].createdAt > versions[1].createdAt;
    assert First() in versions && Visible(First(), 1) && Later(First(), Second());
  }
}
