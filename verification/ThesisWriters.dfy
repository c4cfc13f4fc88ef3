/**
 * Writers of one instrument's thesis running side by side, statement by statement. A unique index on
 * the instrument and one on (thesis, version number) make a second inserter wait for the first and
 * fail once it has committed; the pointer moves only from the counter that was read.
 */
module ThesisWriters {
  import opened Options
  import opened Thesis
  import opened ThesisPayload
  import opened ThesisDiff
  import opened ThesisHistory

  /** The thesis row: the current version, and the optimistic counter. */
  datatype Row = Row(current: nat, counter: nat)

  /** What a writer found when it looked. */
  datatype Base = NoThesis | OnTop(current: Version, counter: nat)

  datatype Phase =
    | Begun
    | HasRead(base: Base)
    | RowInserted
    | Appended(base: Base, version: Version)
    | Pointed(base: Base, version: Version)

  datatype Writer = Writer(content: Content, createdAt: int, expected: Option<Record>, phase: Phase)

  datatype State = State(now: int, row: Option<Row>, versions: seq<Version>, writers: map<nat, Writer>)

  datatype Step =
    | Tick(to: int)
    | Begin(w: nat, content: Content, expected: Option<Record>)
    | Read(w: nat)
    | InsertRow(w: nat)
    | Append(w: nat, id: nat)
    | Point(w: nat)
    | Commit(w: nat)
    | Leave(w: nat)

  const FIRST_COUNTER: nat := 1

  // ---------------------------------------------------------------------------------------------
  // One write's decision
  // ---------------------------------------------------------------------------------------------

  datatype Decision = Proceed | Stale | Unchanged | Corrupt

  function Decide(base: Base, content: Content, expected: Option<Record>): Decision {
    match base
    case NoThesis => Proceed
    case OnTop(current, _) =>
      if expected.Some? && Payload(current.content) != expected.value then Stale
      else
        match Parse(Payload(current.content))
        case None => Corrupt
        case Some(previous) => if SemanticDiff(previous, content).IsMaterial() then Proceed else Unchanged
  }

  function NumberAfter(base: Base): nat {
    match base
    case NoThesis => 1
    case OnTop(current, _) => current.number + 1
  }

  function ParentOf(base: Base): Option<nat> {
    match base
    case NoThesis => None
    case OnTop(current, _) => Some(current.id)
  }

  function CounterOf(base: Base): nat {
    match base
    case NoThesis => FIRST_COUNTER
    case OnTop(_, counter) => counter
  }

  /** The row of the version the thesis row names; the history holds it as long as the lineage is intact. */
  function Find(versions: seq<Version>, id: nat): Option<Version> {
    if versions == [] then None
    else if versions[|versions| - 1].id == id then Some(versions[|versions| - 1])
    else Find(versions[..|versions| - 1], id)
  }

  function BaseOf(row: Option<Row>, versions: seq<Version>): Option<Base> {
    match row
    case None => Some(NoThesis)
    case Some(r) =>
      match Find(versions, r.current)
      case None => None
      case Some(v) => Some(OnTop(v, r.counter))
  }

  // ---------------------------------------------------------------------------------------------
  // Steps
  // ---------------------------------------------------------------------------------------------

  predicate HoldsNewRow(p: Phase) {
    p.RowInserted? || ((p.Appended? || p.Pointed?) && p.base.NoThesis?)
  }

  predicate HoldsNumber(p: Phase, number: nat) {
    (p.Appended? || p.Pointed?) && p.version.number == number
  }

  /** The base a writer builds its version on, once it may. */
  function Ready(w: Writer): Option<Base> {
    match w.phase
    case RowInserted => Some(NoThesis)
    case HasRead(base) => if base.OnTop? && Decide(base, w.content, w.expected) == Proceed then Some(base) else None
    case _ => None
  }

  /** No committed version has the number, and no other open transaction is inserting it. */
  predicate NumberFree(s: State, w: nat, number: nat) {
    && (forall v :: v in s.versions ==> v.number != number)
    && (forall x :: x in s.writers && x != w ==> !HoldsNumber(s.writers[x].phase, number))
  }

  predicate IdFree(s: State, id: nat) {
    && (forall v :: v in s.versions ==> v.id != id)
    && (forall x :: x in s.writers && (s.writers[x].phase.Appended? || s.writers[x].phase.Pointed?) ==> s.writers[x].phase.version.id != id)
  }

  /** The guarded update finds the counter it expects, and nobody else holds the row. */
  predicate PointerGuard(s: State, w: nat)
    requires w in s.writers && s.writers[w].phase.Appended?
  {
    && (forall x :: x in s.writers && x != w ==> !s.writers[x].phase.Pointed?)
    && match s.writers[w].phase.base
       case NoThesis => true
       case OnTop(_, counter) => s.row.Some? && s.row.value.counter == counter
  }

  predicate Enabled(s: State, step: Step) {
    match step
    case Tick(to) => to >= s.now
    case Begin(w, content, _) => w !in s.writers && content.WellFormed()
    case Read(w) => w in s.writers && s.writers[w].phase.Begun? && BaseOf(s.row, s.versions).Some?
    case InsertRow(w) =>
      && w in s.writers && s.writers[w].phase == HasRead(NoThesis) && s.row.None?
      && forall x :: x in s.writers && x != w ==> !HoldsNewRow(s.writers[x].phase)
    case Append(w, id) =>
      && w in s.writers && Ready(s.writers[w]).Some?
      && NumberFree(s, w, NumberAfter(Ready(s.writers[w]).value)) && IdFree(s, id)
    case Point(w) => w in s.writers && s.writers[w].phase.Appended? && PointerGuard(s, w)
    case Commit(w) => w in s.writers && s.writers[w].phase.Pointed?
    case Leave(w) => w in s.writers
  }

  function With(s: State, w: nat, phase: Phase): State
    requires w in s.writers
  {
    s.(writers := s.writers[w := s.writers[w].(phase := phase)])
  }

  function Committed(s: State, w: nat): State
    requires w in s.writers && s.writers[w].phase.Pointed?
  {
    var p := s.writers[w].phase;
    State(s.now, Some(Row(p.version.id, CounterOf(p.base) + 1)), s.versions + [p.version], s.writers - {w})
  }

  function Apply(s: State, step: Step): State
    requires Enabled(s, step)
  {
    match step
    case Tick(to) => s.(now := to)
    case Begin(w, content, expected) => s.(writers := s.writers[w := Writer(content, s.now, expected, Begun)])
    case Read(w) => With(s, w, HasRead(BaseOf(s.row, s.versions).value))
    case InsertRow(w) => With(s, w, RowInserted)
    case Append(w, id) =>
      var me := s.writers[w];
      var base := Ready(me).value;
      With(s, w, Appended(base, Version(id, NumberAfter(base), ParentOf(base), me.createdAt, me.content)))
    case Point(w) => With(s, w, Pointed(s.writers[w].phase.base, s.writers[w].phase.version))
    case Commit(w) => Committed(s, w)
    case Leave(w) => s.(writers := s.writers - {w})
  }

  const START: State := State(0, None, [], map[])

  /** Runs the steps; None if one of them cannot be taken. */
  function Run(s: State, steps: seq<Step>): Option<State>
    decreases |steps|
  {
    if steps == [] then Some(s)
    else if Enabled(s, steps[0]) then Run(Apply(s, steps[0]), steps[1..])
    else None
  }

  // ---------------------------------------------------------------------------------------------
  // The invariant
  // ---------------------------------------------------------------------------------------------

  /** The thesis row names the last version; the counter is one ahead of its number. */
  predicate PointsAtLast(row: Option<Row>, versions: seq<Version>) {
    if versions == [] then row.None?
    else row == Some(Row(versions[|versions| - 1].id, |versions| + 1))
  }

  /** A writer's base was the top of the history when it was read. */
  predicate BaseIsOld(base: Base, versions: seq<Version>) {
    base.OnTop? ==>
      && 1 <= base.current.number <= |versions| && versions[base.current.number - 1] == base.current
      && base.counter == base.current.number + 1
  }

  /** A version about to be committed extends the history as it stands. */
  predicate Extends(me: Writer, base: Base, v: Version, versions: seq<Version>) {
    && v.number == NumberAfter(base) == |versions| + 1 && v.parent == ParentOf(base)
    && v.content == me.content && v.createdAt == me.createdAt
    && Decide(base, me.content, me.expected) == Proceed
    && forall x :: x in versions ==> x.id != v.id
  }

  predicate WriterSound(me: Writer, versions: seq<Version>) {
    && me.content.WellFormed()
    && match me.phase
       case Begun => true
       case HasRead(base) => BaseIsOld(base, versions)
       case RowInserted => versions == []
       case Appended(base, v) => BaseIsOld(base, versions) && Extends(me, base, v, versions)
       case Pointed(base, v) => BaseIsOld(base, versions) && Extends(me, base, v, versions)
  }

  /** Past the point where only one writer can be. */
  predicate Exclusive(p: Phase) {
    p.RowInserted? || p.Appended? || p.Pointed?
  }

  predicate Invariant(s: State) {
    && Lineage(s.versions) && PointsAtLast(s.row, s.versions)
    && (forall w :: w in s.writers ==> WriterSound(s.writers[w], s.versions))
    && (forall w, x :: w in s.writers && x in s.writers && Exclusive(s.writers[w].phase) && Exclusive(s.writers[x].phase) ==> w == x)
  }

  lemma FindLast(versions: seq<Version>)
    requires versions != []
    ensures Find(versions, versions[|versions| - 1].id) == Some(versions[|versions| - 1])
  {
  }

  /** An intact lineage can always be read, and what is read is its top. */
  lemma TopIsRead(row: Option<Row>, versions: seq<Version>)
    requires Lineage(versions) && PointsAtLast(row, versions)
    ensures BaseOf(row, versions)
         == Some(if versions == [] then NoThesis else OnTop(versions[|versions| - 1], |versions| + 1))
  {
    if versions != [] {
      FindLast(versions);
    }
  }

  /** Changing one writer's phase keeps the invariant when the writer is sound and still alone. */
  lemma PhaseKeepsInvariant(s: State, w: nat, phase: Phase)
    requires Invariant(s) && w in s.writers
    requires WriterSound(s.writers[w].(phase := phase), s.versions)
    requires Exclusive(phase) ==> forall x :: x in s.writers && x != w ==> !Exclusive(s.writers[x].phase)
    ensures Invariant(With(s, w, phase))
  {
    hide Lineage, PointsAtLast, WriterSound, Exclusive;
  }

  lemma LeaveKeepsInvariant(s: State, w: nat)
    requires Invariant(s) && Enabled(s, Leave(w))
    ensures Invariant(Apply(s, Leave(w)))
  {
    hide Lineage, PointsAtLast, WriterSound, Exclusive;
  }

  lemma BeginKeepsInvariant(s: State, w: nat, content: Content, expected: Option<Record>)
    requires Invariant(s) && Enabled(s, Begin(w, content, expected))
    ensures Invariant(Apply(s, Begin(w, content, expected)))
  {
    hide Payload, Parse, SemanticDiff, Content.WellFormed;
    var me := Writer(content, s.now, expected, Begun);
    assert WriterSound(me, s.versions) && !Exclusive(me.phase);
    hide Lineage, PointsAtLast, WriterSound, Exclusive;
  }

  lemma ReadKeepsInvariant(s: State, w: nat)
    requires Invariant(s) && Enabled(s, Read(w))
    ensures Invariant(Apply(s, Read(w)))
  {
    hide Payload, Parse, SemanticDiff, Content.WellFormed;
    TopIsRead(s.row, s.versions);
    var base := BaseOf(s.row, s.versions).value;
    assert WriterSound(s.writers[w], s.versions);
    assert s.versions != [] ==> Linked(s.versions, |s.versions| - 1);
    assert BaseIsOld(base, s.versions);
    hide Lineage, PointsAtLast, BaseOf;
    PhaseKeepsInvariant(s, w, HasRead(base));
  }

  lemma InsertKeepsInvariant(s: State, w: nat)
    requires Invariant(s) && Enabled(s, InsertRow(w))
    ensures Invariant(Apply(s, InsertRow(w)))
  {
    hide Payload, Parse, SemanticDiff, Content.WellFormed;
    assert s.versions == [];
    hide Lineage, PointsAtLast;
    forall x | x in s.writers && x != w ensures !Exclusive(s.writers[x].phase) {
      assert WriterSound(s.writers[x], s.versions);
      assert !HoldsNewRow(s.writers[x].phase);
    }
    assert WriterSound(s.writers[w], s.versions);
    PhaseKeepsInvariant(s, w, RowInserted);
  }

  /** Only the top of the history leaves its successor's number free. */
  lemma TopNumberIsFree(s: State, w: nat, base: Base)
    requires Lineage(s.versions) && BaseIsOld(base, s.versions) && (base.NoThesis? ==> s.versions == [])
    requires NumberFree(s, w, NumberAfter(base))
    ensures NumberAfter(base) == |s.versions| + 1
  {
    if base.OnTop? {
      NumberTaken(s.versions, base.current.number);
    }
  }

  /** While the next number is free to a writer, nobody else is past the point of exclusion. */
  lemma NobodyElseIsExclusive(s: State, w: nat, base: Base)
    requires Invariant(s) && w in s.writers && Ready(s.writers[w]) == Some(base)
    requires NumberFree(s, w, NumberAfter(base)) && NumberAfter(base) == |s.versions| + 1
    ensures forall x :: x in s.writers && x != w ==> !Exclusive(s.writers[x].phase)
  {
    hide Lineage, PointsAtLast, Decide;
    assert WriterSound(s.writers[w], s.versions);
    forall x | x in s.writers && x != w ensures !Exclusive(s.writers[x].phase) {
      assert WriterSound(s.writers[x], s.versions);
      assert !HoldsNumber(s.writers[x].phase, NumberAfter(base));
    }
  }

  lemma ReadyIsSound(me: Writer, versions: seq<Version>)
    requires WriterSound(me, versions) && Ready(me).Some?
    ensures var base := Ready(me).value;
            && BaseIsOld(base, versions) && (base.NoThesis? ==> versions == []) && Decide(base, me.content, me.expected) == Proceed
  {
  }

  lemma AppendKeepsInvariant(s: State, w: nat, id: nat)
    requires Invariant(s) && Enabled(s, Append(w, id))
    ensures Invariant(Apply(s, Append(w, id)))
  {
    hide Payload, Parse, SemanticDiff, Content.WellFormed;
    var me := s.writers[w];
    var base := Ready(me).value;
    assert WriterSound(me, s.versions);
    ReadyIsSound(me, s.versions);
    TopNumberIsFree(s, w, base);
    NobodyElseIsExclusive(s, w, base);
    var v := Version(id, NumberAfter(base), ParentOf(base), me.createdAt, me.content);
    assert Extends(me, base, v, s.versions);
    assert WriterSound(me.(phase := Appended(base, v)), s.versions);
    hide Lineage, PointsAtLast, Extends, BaseIsOld, Decide, Exclusive, WriterSound;
    PhaseKeepsInvariant(s, w, Appended(base, v));
  }

  lemma PointedIsSound(me: Writer, versions: seq<Version>)
    requires WriterSound(me, versions) && me.phase.Appended?
    ensures WriterSound(me.(phase := Pointed(me.phase.base, me.phase.version)), versions)
  {
    hide BaseIsOld, Decide, Content.WellFormed;
  }

  lemma AloneWhenExclusive(s: State, w: nat)
    requires Invariant(s) && w in s.writers && Exclusive(s.writers[w].phase)
    ensures WriterSound(s.writers[w], s.versions)
    ensures forall x :: x in s.writers && x != w ==> !Exclusive(s.writers[x].phase)
  {
    hide Lineage, PointsAtLast, WriterSound, Exclusive;
  }

  lemma PointKeepsInvariant(s: State, w: nat)
    requires Invariant(s) && Enabled(s, Point(w))
    ensures Invariant(Apply(s, Point(w)))
  {
    var me := s.writers[w];
    assert me.phase.Appended?;
    hide PointerGuard, Invariant, WriterSound;
    AloneWhenExclusive(s, w);
    PointedIsSound(me, s.versions);
    PhaseKeepsInvariant(s, w, Pointed(me.phase.base, me.phase.version));
  }

  /** The history with one more version that extends it is again a lineage, and the thesis row can name it. */
  lemma ExtendedLineage(me: Writer, base: Base, v: Version, versions: seq<Version>)
    requires Lineage(versions) && me.content.WellFormed() && BaseIsOld(base, versions) && Extends(me, base, v, versions)
    ensures Lineage(versions + [v])
    ensures PointsAtLast(Some(Row(v.id, CounterOf(base) + 1)), versions + [v])
  {
    hide Payload, Parse, SemanticDiff, Content.WellFormed;
    var longer := versions + [v];
    var n := |versions|;
    assert Linked(longer, n) by {
      if n > 0 {
        assert base.OnTop? && base.current == versions[n - 1] == longer[n - 1];
      }
    }
    hide Succeeds, Decide;
    forall i | 0 <= i < n ensures Linked(longer, i) {
      assert Linked(versions, i);
    }
    forall i, j | 0 <= i < j < |longer| ensures longer[i].id != longer[j].id {
      assert longer[i] in versions;
    }
  }

  /** A writer that is not exclusive is not disturbed by a longer history. */
  lemma SoundAfterCommit(me: Writer, versions: seq<Version>, v: Version)
    requires WriterSound(me, versions) && !Exclusive(me.phase)
    ensures WriterSound(me, versions + [v])
  {
  }

  lemma CommitKeepsInvariant(s: State, w: nat)
    requires Invariant(s) && Enabled(s, Commit(w))
    ensures Invariant(Apply(s, Commit(w)))
  {
    var me := s.writers[w];
    assert WriterSound(me, s.versions) && Exclusive(me.phase);
    ExtendedLineage(me, me.phase.base, me.phase.version, s.versions);
    var s' := Apply(s, Commit(w));
    hide Lineage, PointsAtLast, WriterSound, Exclusive;
    forall x | x in s'.writers ensures WriterSound(s'.writers[x], s'.versions) && !Exclusive(s'.writers[x].phase) {
      assert x in s.writers && x != w;
      SoundAfterCommit(s.writers[x], s.versions, me.phase.version);
    }
  }

  lemma StepKeepsInvariant(s: State, step: Step)
    requires Invariant(s) && Enabled(s, step)
    ensures Invariant(Apply(s, step))
    ensures s.versions <= Apply(s, step).versions
  {
    match step
    case Tick(to) =>
    case Begin(w, content, expected) => BeginKeepsInvariant(s, w, content, expected);
    case Read(w) => ReadKeepsInvariant(s, w);
    case InsertRow(w) => InsertKeepsInvariant(s, w);
    case Append(w, id) => AppendKeepsInvariant(s, w, id);
    case Point(w) => PointKeepsInvariant(s, w);
    case Commit(w) => CommitKeepsInvariant(s, w);
    case Leave(w) => LeaveKeepsInvariant(s, w);
  }

  /** However the statements of any number of writers interleave, the history stays one growing chain. */
  lemma {:induction false} RunsKeepInvariant(s: State, steps: seq<Step>)
    requires Invariant(s)
    ensures var end := Run(s, steps); end.Some? ==> Invariant(end.value) && s.versions <= end.value.versions
    decreases |steps|
  {
    hide Invariant, Enabled, Apply;
    if steps != [] && Enabled(s, steps[0]) {
      StepKeepsInvariant(s, steps[0]);
      RunsKeepInvariant(Apply(s, steps[0]), steps[1..]);
    }
  }

  /** In every reachable state the history is a lineage and the thesis row names its last version. */
  lemma ReachableLineage(steps: seq<Step>)
    ensures var end := Run(START, steps);
            end.Some? ==> Lineage(end.value.versions) && PointsAtLast(end.value.row, end.value.versions)
  {
    RunsKeepInvariant(START, steps);
  }

  /** A writer that has appended its version finds the counter it read: the pointer update never conflicts. */
  lemma PointerUpdateNeverConflicts(s: State, w: nat)
    requires Invariant(s) && w in s.writers && s.writers[w].phase.Appended?
    ensures Enabled(s, Point(w))
  {
    hide Lineage, Decide;
    assert WriterSound(s.writers[w], s.versions) && Exclusive(s.writers[w].phase);
    forall x | x in s.writers && x != w ensures !s.writers[x].phase.Pointed? {
      assert Exclusive(s.writers[x].phase) ==> x == w;
    }
  }

  /** Some expected hash would change the decision. */
  ghost predicate HashMatters(base: Base, content: Content) {
    exists hash :: Decide(base, content, Some(hash)) != Decide(base, content, None)
  }

  /** An expected hash is looked at exactly when there is a current version. */
  lemma ExpectedHashMattersIffCurrentExists(base: Base, content: Content)
    ensures HashMatters(base, content) <==> base.OnTop?
  {
    hide Payload, Parse, SemanticDiff;
    if base.OnTop? {
      var stored := Payload(base.current.content);
      var other := stored.(summary := stored.summary + "-");
      assert |other.summary| != |stored.summary|;
      assert Decide(base, content, Some(other)) == Stale;
      assert Decide(base, content, None) != Stale;
    }
  }

  /** The version is what the writer wrote, on top of `last`, which is what it expected and differs from. */
  predicate BuildsOn(me: Writer, v: Version, last: Version) {
    && v.content == me.content && v.parent == Some(last.id) && Succeeds(last, v)
    && (me.expected.Some? ==> Payload(last.content) == me.expected.value)
  }

  /**
   * What commits was compared with its actual predecessor: an expected hash, where given and a
   * version exists, is the predecessor's. With no version yet, an expected hash is not looked at.
   */
  lemma CommitBuildsOnWhatItExpected(s: State, w: nat)
    requires Invariant(s) && w in s.writers && s.writers[w].phase.Pointed?
    ensures Committed(s, w).versions == s.versions + [s.writers[w].phase.version]
    ensures s.versions != [] ==> BuildsOn(s.writers[w], s.writers[w].phase.version, s.versions[|s.versions| - 1])
  {
    hide Lineage, PointsAtLast;
    var me := s.writers[w];
    assert WriterSound(me, s.versions);
    hide Invariant;
    if s.versions != [] {
      SoundBuildsOn(me, s.versions);
    }
  }

  lemma SoundBuildsOn(me: Writer, versions: seq<Version>)
    requires WriterSound(me, versions) && me.phase.Pointed? && versions != []
    ensures BuildsOn(me, me.phase.version, versions[|versions| - 1])
  {
    hide Payload, Parse, SemanticDiff, Content.WellFormed;
  }

  lemma RunStep(s: State, steps: seq<Step>, k: nat, next: State)
    requires k < |steps| && Enabled(s, steps[k]) && Apply(s, steps[k]) == next
    ensures Run(s, steps[k..]) == Run(next, steps[k + 1..])
  {
    hide Enabled, Apply;
    assert steps[k..][0] == steps[k] && steps[k..][1..] == steps[k + 1..];
  }
}
