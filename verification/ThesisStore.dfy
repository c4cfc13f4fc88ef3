/** The thesis writer as one uninterrupted call on the stored rows of an instrument. */
module ThesisStore {
  import opened Options
  import opened Thesis
  import opened ThesisPayload
  import opened ThesisDiff
  import opened ThesisHistory
  import opened ThesisWriters

  datatype WriteResult =
    | Created(id: nat, number: nat)
    | Kept(id: nat, number: nat)
    | EvidenceUnavailable(missing: set<nat>)
    | VersionMissing
    | VersionStale
    | VersionCorrupt

  /** The evidence a thesis cites that is not available for the requested business time. */
  function Missing(content: Content, available: set<nat>): set<nat> {
    set e | e in References(content) && e !in available
  }

  /** What a write should report, said without reading anything back. */
  function Verdict(versions: seq<Version>, content: Content, available: set<nat>, expected: Option<Record>, id: nat): WriteResult {
    if Missing(content, available) != {} then EvidenceUnavailable(Missing(content, available))
    else if versions == [] then Created(id, 1)
    else
      var last := versions[|versions| - 1];
      if expected.Some? && Payload(last.content) != expected.value then VersionStale
      else if SemanticDiff(Canon(last.content), content).IsMaterial() then Created(id, last.number + 1)
      else Kept(last.id, last.number)
  }

  function NextVersion(versions: seq<Version>, content: Content, createdAt: int, id: nat): Version {
    Version(id, |versions| + 1, if versions == [] then None else Some(versions[|versions| - 1].id), createdAt, content)
  }

  lemma LastIsWellFormed(versions: seq<Version>)
    requires Lineage(versions) && versions != []
    ensures versions[|versions| - 1].content.WellFormed() && versions[|versions| - 1].number == |versions|
  {
    assert Linked(versions, |versions| - 1);
  }

  lemma NextIs(row: Option<Row>, versions: seq<Version>, content: Content, createdAt: int, id: nat, base: Base)
    requires Lineage(versions) && PointsAtLast(row, versions) && BaseOf(row, versions) == Some(base)
    ensures Version(id, NumberAfter(base), ParentOf(base), createdAt, content) == NextVersion(versions, content, createdAt, id)
    ensures CounterOf(base) == |versions| + 1 && BaseIsOld(base, versions) && NumberAfter(base) == |versions| + 1
    ensures base.NoThesis? <==> versions == []
  {
    TopIsRead(row, versions);
    if versions != [] {
      LastIsWellFormed(versions);
    }
    hide Lineage, PointsAtLast, BaseOf, Content.WellFormed;
  }

  lemma NextExtends(row: Option<Row>, versions: seq<Version>, content: Content, createdAt: int, id: nat, expected: Option<Record>, base: Base)
    requires Lineage(versions) && PointsAtLast(row, versions) && content.WellFormed()
    requires BaseOf(row, versions) == Some(base) && Decide(base, content, expected) == Proceed
    requires forall v :: v in versions ==> v.id != id
    ensures Lineage(versions + [NextVersion(versions, content, createdAt, id)])
    ensures PointsAtLast(Some(Row(id, |versions| + 2)), versions + [NextVersion(versions, content, createdAt, id)])
  {
    hide Lineage, PointsAtLast, BaseOf, Decide, Content.WellFormed;
    NextIs(row, versions, content, createdAt, id, base);
    hide BaseIsOld;
    var v := Version(id, NumberAfter(base), ParentOf(base), createdAt, content);
    var me := Writer(content, createdAt, expected, Begun);
    assert Extends(me, base, v, versions);
    ExtendedLineage(me, base, v, versions);
  }

  class Store {
    var row: Option<Row>
    var versions: seq<Version>

    ghost predicate Valid()
      reads this
    {
      Lineage(versions) && PointsAtLast(row, versions)
    }

    constructor ()
      ensures Valid() && versions == [] && row == None
    {
      row, versions := None, [];
    }

    /** The evidence check, the comparison with the current version, then the append and the pointer. */
    method Write(content: Content, available: set<nat>, createdAt: int, expected: Option<Record>, id: nat)
      returns (r: WriteResult)
      requires Valid() && content.WellFormed() && forall v :: v in versions ==> v.id != id
      modifies this
      ensures Valid()
      ensures r == Verdict(old(versions), content, available, expected, id)
      ensures r.Created? ==> versions == old(versions) + [NextVersion(old(versions), content, createdAt, id)]
      ensures r.Created? ==> row == Some(Row(id, |old(versions)| + 2))
      ensures !r.Created? ==> versions == old(versions) && row == old(row)
    {
      hide Lineage, PointsAtLast, Payload, Parse, Canon, SemanticDiff, Content.WellFormed, References, Dedupe;
      var evidence := EvidenceIds(content);
      var missing := set e | e in evidence && e !in available;
      assert missing == Missing(content, available);
      if missing != {} {
        return EvidenceUnavailable(missing);
      }
      TopIsRead(row, versions);
      var found := BaseOf(row, versions);
      if found.None? {
        return VersionMissing;
      }
      var base := found.value;
      ReadsCanon(versions);
      match Decide(base, content, expected) {
        case Stale => return VersionStale;
        case Corrupt => return VersionCorrupt;
        case Unchanged => return Kept(base.current.id, base.current.number);
        case Proceed =>
          NextIs(row, versions, content, createdAt, id, base);
          NextExtends(row, versions, content, createdAt, id, expected, base);
          var v := Version(id, NumberAfter(base), ParentOf(base), createdAt, content);
          versions := versions + [v];
          row := Some(Row(id, CounterOf(base) + 1));
          return Created(id, v.number);
      }
    }
  }

  lemma ReadsCanon(versions: seq<Version>)
    requires Lineage(versions)
    ensures versions != [] ==>
      var last := versions[|versions| - 1];
      last.number == |versions| && Parse(Payload(last.content)) == Some(Canon(last.content))
  {
    if versions != [] {
      LastIsWellFormed(versions);
      ReadBack(versions[|versions| - 1].content);
    }
  }

  // ---------------------------------------------------------------------------------------------
  // The call is what the writer's statements do when nobody interrupts them
  // ---------------------------------------------------------------------------------------------

  function Statements(first: bool, content: Content, expected: Option<Record>, id: nat): seq<Step> {
    [Begin(0, content, expected), Read(0)] + (if first then [InsertRow(0)] else [])
    + [Append(0, id), Point(0), Commit(0)]
  }

  function Alone(now: int, row: Option<Row>, versions: seq<Version>, me: Writer): State {
    State(now, row, versions, map[0 := me])
  }

  lemma UninterruptedReadsTop(
    now: int, row: Option<Row>, versions: seq<Version>, content: Content, expected: Option<Record>, base: Base, steps: seq<Step>)
    requires content.WellFormed() && BaseOf(row, versions) == Some(base)
    requires |steps| >= 2 && steps[0] == Begin(0, content, expected) && steps[1] == Read(0)
    ensures Run(State(now, row, versions, map[]), steps)
         == Run(Alone(now, row, versions, Writer(content, now, expected, HasRead(base))), steps[2..])
  {
    hide BaseOf, Content.WellFormed, Decide;
    assert steps[0..] == steps;
    var s1 := Alone(now, row, versions, Writer(content, now, expected, Begun));
    RunStep(State(now, row, versions, map[]), steps, 0, s1);
    RunStep(s1, steps, 1, Alone(now, row, versions, Writer(content, now, expected, HasRead(base))));
  }

  lemma UninterruptedInserts(now: int, me: Writer, steps: seq<Step>)
    requires me.phase == HasRead(NoThesis) && |steps| > 2 && steps[2] == InsertRow(0)
    ensures Run(Alone(now, None, [], me), steps[2..]) == Run(Alone(now, None, [], me.(phase := RowInserted)), steps[3..])
  {
    hide Content.WellFormed, Decide;
    RunStep(Alone(now, None, [], me), steps, 2, Alone(now, None, [], me.(phase := RowInserted)));
  }

  lemma UninterruptedAppends(now: int, row: Option<Row>, versions: seq<Version>, me: Writer, base: Base, id: nat, k: nat, steps: seq<Step>)
    requires Ready(me) == Some(base) && k < |steps| && steps[k] == Append(0, id)
    requires (forall v :: v in versions ==> v.id != id) && forall v :: v in versions ==> v.number != NumberAfter(base)
    ensures var v := Version(id, NumberAfter(base), ParentOf(base), me.createdAt, me.content);
            var next := Alone(now, row, versions, me.(phase := Appended(base, v)));
            Run(Alone(now, row, versions, me), steps[k..]) == Run(next, steps[k + 1..])
  {
    hide Content.WellFormed, Decide;
    var v := Version(id, NumberAfter(base), ParentOf(base), me.createdAt, me.content);
    RunStep(Alone(now, row, versions, me), steps, k, Alone(now, row, versions, me.(phase := Appended(base, v))));
  }

  lemma UninterruptedPoints(now: int, row: Option<Row>, versions: seq<Version>, me: Writer, k: nat, steps: seq<Step>)
    requires me.phase.Appended? && k < |steps| && steps[k] == Point(0)
    requires me.phase.base.OnTop? ==> row.Some? && row.value.counter == me.phase.base.counter
    ensures Run(Alone(now, row, versions, me), steps[k..])
         == Run(Alone(now, row, versions, me.(phase := Pointed(me.phase.base, me.phase.version))), steps[k + 1..])
  {
    hide Content.WellFormed, Decide;
    RunStep(Alone(now, row, versions, me), steps, k, Alone(now, row, versions, me.(phase := Pointed(me.phase.base, me.phase.version))));
  }

  lemma UninterruptedCommits(now: int, row: Option<Row>, versions: seq<Version>, me: Writer, k: nat, steps: seq<Step>)
    requires me.phase.Pointed? && k + 1 == |steps| && steps[k] == Commit(0)
    ensures var v := me.phase.version;
            var end := State(now, Some(Row(v.id, CounterOf(me.phase.base) + 1)), versions + [v], map[]);
            Run(Alone(now, row, versions, me), steps[k..]) == Some(end)
  {
    hide Content.WellFormed, Decide;
    var s := Alone(now, row, versions, me);
    assert s.writers - {0} == map[];
    RunStep(s, steps, k, Committed(s, 0));
    assert steps[k + 1..] == [];
  }

  lemma UninterruptedFinishes(
    now: int, row: Option<Row>, versions: seq<Version>, me: Writer, base: Base, id: nat, k: nat, steps: seq<Step>)
    requires Ready(me) == Some(base) && k + 3 == |steps|
    requires steps[k] == Append(0, id) && steps[k + 1] == Point(0) && steps[k + 2] == Commit(0)
    requires (forall v :: v in versions ==> v.id != id) && forall v :: v in versions ==> v.number != NumberAfter(base)
    requires base.OnTop? ==> row.Some? && row.value.counter == base.counter
    ensures var v := Version(id, NumberAfter(base), ParentOf(base), me.createdAt, me.content);
            var end := State(now, Some(Row(id, CounterOf(base) + 1)), versions + [v], map[]);
            Run(Alone(now, row, versions, me), steps[k..]) == Some(end)
  {
    hide Run, Ready, Alone, Decide, Content.WellFormed;
    var v := Version(id, NumberAfter(base), ParentOf(base), me.createdAt, me.content);
    UninterruptedAppends(now, row, versions, me, base, id, k, steps);
    UninterruptedPoints(now, row, versions, me.(phase := Appended(base, v)), k + 1, steps);
    UninterruptedCommits(now, row, versions, me.(phase := Pointed(base, v)), k + 2, steps);
  }

  lemma NumbersUpTo(versions: seq<Version>)
    requires Lineage(versions)
    ensures forall v :: v in versions ==> v.number != |versions| + 1
  {
    forall v | v in versions ensures v.number != |versions| + 1 {
      var i :| 0 <= i < |versions| && versions[i] == v;
      assert Linked(versions, i);
    }
  }

  /** A writer whose statements nobody interleaves leaves exactly the rows that `Write` leaves. */
  lemma UninterruptedWriteIsTheCall(
    now: int, row: Option<Row>, versions: seq<Version>, content: Content, available: set<nat>, expected: Option<Record>, id: nat)
    requires Lineage(versions) && PointsAtLast(row, versions) && content.WellFormed()
    requires forall v :: v in versions ==> v.id != id
    requires Verdict(versions, content, available, expected, id).Created?
    ensures Run(State(now, row, versions, map[]), Statements(versions == [], content, expected, id))
         == Some(State(now, Some(Row(id, |versions| + 2)), versions + [NextVersion(versions, content, now, id)], map[]))
  {
    var base := if versions == [] then NoThesis else OnTop(versions[|versions| - 1], |versions| + 1);
    ProceedsWhenCreated(row, versions, content, available, expected, id, base);
    NextIs(row, versions, content, now, id, base);
    NumbersUpTo(versions);
    hide Lineage, PointsAtLast, Decide, Content.WellFormed, BaseIsOld, Verdict, NextVersion, Statements;
    UninterruptedRun(now, row, versions, content, expected, id, base);
  }

  lemma UninterruptedRun(
    now: int, row: Option<Row>, versions: seq<Version>, content: Content, expected: Option<Record>, id: nat, base: Base)
    requires content.WellFormed() && BaseOf(row, versions) == Some(base) && Decide(base, content, expected) == Proceed
    requires (forall v :: v in versions ==> v.id != id) && forall v :: v in versions ==> v.number != NumberAfter(base)
    requires base.OnTop? ==> row.Some? && row.value.counter == base.counter
    requires versions == [] ==> row == None
    requires base.NoThesis? <==> versions == []
    ensures var v := Version(id, NumberAfter(base), ParentOf(base), now, content);
            var end := State(now, Some(Row(id, CounterOf(base) + 1)), versions + [v], map[]);
            Run(State(now, row, versions, map[]), Statements(versions == [], content, expected, id)) == Some(end)
  {
    var steps := Statements(versions == [], content, expected, id);
    var me := Writer(content, now, expected, HasRead(base));
    hide Run, BaseOf, Decide, Content.WellFormed, Alone;
    assert Ready(me) == if base.NoThesis? then None else Some(base);
    assert Ready(me.(phase := RowInserted)) == Some(NoThesis);
    hide Ready;
    UninterruptedReadsTop(now, row, versions, content, expected, base, steps);
    if versions == [] {
      UninterruptedInserts(now, me, steps);
      UninterruptedFinishes(now, row, versions, me.(phase := RowInserted), base, id, 3, steps);
    } else {
      UninterruptedFinishes(now, row, versions, me, base, id, 2, steps);
    }
  }

  lemma ProceedsWhenCreated(
    row: Option<Row>, versions: seq<Version>, content: Content, available: set<nat>, expected: Option<Record>, id: nat, base: Base)
    requires Lineage(versions) && PointsAtLast(row, versions)
    requires Verdict(versions, content, available, expected, id).Created?
    requires base == if versions == [] then NoThesis else OnTop(versions[|versions| - 1], |versions| + 1)
    ensures BaseOf(row, versions) == Some(base) && Decide(base, content, expected) == Proceed
    ensures base.OnTop? ==> row.Some? && row.value.counter == base.counter
    ensures versions == [] ==> row == None
  {
    TopIsRead(row, versions);
    ReadsCanon(versions);
    hide Lineage, BaseOf, Payload, Parse, Canon, SemanticDiff, References, Missing, Content.WellFormed;
  }

  /** With every cited piece of evidence available, a first write commits version 1 whatever hash the writer
      expected, in the call and in a run from the empty start. */
  lemma FirstWriteIgnoresExpectedHash(content: Content, hash: Record, id: nat)
    requires content.WellFormed()
    ensures Verdict([], content, Cited(content), Some(hash), id) == Created(id, 1)
    ensures Run(START, Statements(true, content, Some(hash), id))
         == Some(State(0, Some(Row(id, 2)), [Version(id, 1, None, 0, content)], map[]))
  {
    hide References, Run, Statements, Content.WellFormed;
    assert Missing(content, Cited(content)) == {};
    UninterruptedWriteIsTheCall(0, None, [], content, Cited(content), Some(hash), id);
    assert [] + [NextVersion([], content, 0, id)] == [Version(id, 1, None, 0, content)];
  }

  function Cited(content: Content): set<nat> {
    set e | e in References(content)
  }

  /** A given hash constrains a write exactly when a current version exists and the evidence is there. */
  lemma ExpectedHashConstrainsIff(versions: seq<Version>, content: Content, available: set<nat>, id: nat)
    ensures (exists hash :: Verdict(versions, content, available, Some(hash), id) != Verdict(versions, content, available, None, id))
        <==> versions != [] && Missing(content, available) == {}
  {
    hide Missing, Payload, Canon, SemanticDiff;
    if versions != [] && Missing(content, available) == {} {
      var stored := Payload(versions[|versions| - 1].content);
      var other := stored.(summary := stored.summary + "-");
      assert |other.summary| != |stored.summary|;
      assert Verdict(versions, content, available, Some(other), id) == VersionStale;
    }
  }
}
