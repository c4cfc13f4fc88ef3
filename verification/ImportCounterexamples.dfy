/** Runs in which an import loses what another writer wrote between its plan and its locked apply. */
module ImportCounterexamples {
  import opened Options
  import opened PortfolioCsv
  import opened PortfolioBook
  import opened Fingerprints
  import opened ImportProtocol
  import opened Sums

  /** What a manual entry of `core` at unit cost stores. */
  function Entered(core: real): Fields {
    Fields(core, 0.0, 1.0, 1.0, 0.0, "", "", "MANUAL")
  }

  /** The row of a file that names the instrument with a core quantity of 2. */
  function RowOfTwo(identity: Identity): RawRow {
    RawRow(Read(identity), Read(2.0), Read(0.0), Read(1.0))
  }

  function InputOfTwo(identity: Identity): PositionInput {
    PositionInput(identity, 2.0, 0.0, 1.0, None, None, "", "", "MANUAL")
  }

  lemma PreviewOfTwo(identity: Identity, held: set<Key>)
    ensures var p, a := PreviewOf([RowOfTwo(identity)], held), Accepted(FIRST_DATA_LINE, InputOfTwo(identity));
            && p.invalid == [] && p.duplicates == []
            && (identity.key in held ==> p.valid == [] && p.conflicts == [a])
            && (identity.key !in held ==> p.valid == [a] && p.conflicts == [])
  {
    var rows := [RowOfTwo(identity)];
    assert Check(rows[0]) == Read(InputOfTwo(identity));
    assert FirstWith(rows, identity.key) == 0;
    assert AcceptedUpTo(rows, held, 0, ConflictRow) == [] && AcceptedUpTo(rows, held, 0, ValidRow) == [];
    assert RejectedUpTo(rows, held, 0) == [] && DuplicatesUpTo(rows, held, 0) == [];
  }

  lemma RunOne(op: Op)
    ensures Run(EMPTY_BOOK, [op]) == Step(EMPTY_BOOK, op)
  {
    assert [op][..0] == [];
  }

  lemma RunTwo(first: Op, second: Op)
    ensures Run(EMPTY_BOOK, [first] + [second]) == Step(Step(EMPTY_BOOK, first), second)
  {
    RunOne(first);
    RunAppend(EMPTY_BOOK, [first], [second]);
    assert [second][..0] == [];
  }

  function Enter(identity: Identity, core: real): Op {
    Manual(identity, Entered(core), None)
  }

  lemma OneEntry(identity: Identity, core: real)
    ensures var b := Run(EMPTY_BOOK, [Enter(identity, core)]);
            && b.positions == map[identity.key := Position(Entered(core), 1)]
            && b.names == map[identity.key := identity.name] && b.claims == map[]
            && ViewOf(b) == map[identity.key := View(Entered(core), identity.name)]
  {
    RunOne(Enter(identity, core));
  }

  /** Without the fingerprint an accumulating import can lose a concurrent update. A position of 1 is read
      and planned from; a manual entry makes it 5; the file adds 2; the book ends at 3. */
  lemma UpdateCanBeLost(identity: Identity)
    ensures var before, b := Run(EMPTY_BOOK, [Enter(identity, 1.0)]), Run(EMPTY_BOOK, [Enter(identity, 1.0)] + [Enter(identity, 5.0)]);
            var existing, rows := ViewOf(before), [RowOfTwo(identity)];
            && PlanOf(PreviewOf(rows, existing.Keys), existing, Some(Update)).Ok?
            && AmountAt(b.positions, identity.key, Core) == 5.0
            && forall current :: IsFingerprint(ViewOf(b), current) ==>
                 var (b', outcome) := ApplyBatch(b, BatchFor("", rows, existing, Some(Update), None), current);
                 outcome == Imported && AmountAt(b'.positions, identity.key, Core) == 3.0
  {
    OneEntry(identity, 1.0);
    RunTwo(Enter(identity, 1.0), Enter(identity, 5.0));
    var b := Run(EMPTY_BOOK, [Enter(identity, 1.0)] + [Enter(identity, 5.0)]);
    assert b.positions[identity.key] == Position(Entered(5.0), 2) && b.claims == map[];
    var existing := map[identity.key := View(Entered(1.0), identity.name)];
    AddsTwoToPlanned(b, identity, existing);
  }

  lemma AddsTwoToPlanned(b: Book, identity: Identity, existing: map<Key, View>)
    requires b.claims == map[] && identity.key in existing && existing[identity.key].fields == Entered(1.0)
    ensures var rows := [RowOfTwo(identity)];
            && PlanOf(PreviewOf(rows, existing.Keys), existing, Some(Update)).Ok?
            && forall current ::
                 var (b', outcome) := ApplyBatch(b, BatchFor("", rows, existing, Some(Update), None), current);
                 outcome == Imported && AmountAt(b'.positions, identity.key, Core) == 3.0
  {
    PreviewOfTwo(identity, existing.Keys);
    hide PreviewOf, Committed;
    CommitsThree(b, identity, existing);
  }

  lemma CommitsThree(b: Book, identity: Identity, existing: map<Key, View>)
    requires identity.key in existing && existing[identity.key].fields == Entered(1.0)
    requires PlanOf(PreviewOf([RowOfTwo(identity)], existing.Keys), existing, Some(Update)).Ok?
    ensures AmountAt(Committed(b, BatchFor("", [RowOfTwo(identity)], existing, Some(Update), None)).positions, identity.key, Core) == 3.0
  {
    var rows, a := [RowOfTwo(identity)], Accepted(FIRST_DATA_LINE, InputOfTwo(identity));
    PreviewOfTwo(identity, existing.Keys);
    assert a in WrittenRows(PreviewOf(rows, existing.Keys), Some(Update));
    hide PreviewOf, Committed, WrittenRows;
    ImportWritesItsRows(b, "", rows, existing, Some(Update), None, a);
    assert PlannedFields(a, existing, Some(Update)).core == 3.0;
    hide BatchFor;
  }

  /** A skipped row can be audited as what it no longer is. A position of 1 is read and planned from; a manual
      entry makes it 5; the file names it under SKIP, without the fingerprint. The audit says that it was 1
      before the import and 1 after it, while it is 5. */
  lemma SkippedAuditCanBeStale(identity: Identity)
    ensures var before, b := Run(EMPTY_BOOK, [Enter(identity, 1.0)]), Run(EMPTY_BOOK, [Enter(identity, 1.0)] + [Enter(identity, 5.0)]);
            var existing, rows := ViewOf(before), [RowOfTwo(identity)];
            && PlanOf(PreviewOf(rows, existing.Keys), existing, Some(Skip)).Ok?
            && FieldsAt(b.positions, identity.key) == Some(Entered(5.0)) && b.claims == map[]
            && var b' := Committed(b, BatchFor("", rows, existing, Some(Skip), None));
               && FieldsAt(b'.positions, identity.key) == Some(Entered(5.0))
               && |b'.audits| == |b.audits| + 1 && |b'.audits[|b.audits|].rows| > 0
               && b'.audits[|b.audits|].rows[0].key == identity.key
               && b'.audits[|b.audits|].rows[0].before == b'.audits[|b.audits|].rows[0].after == Some(Entered(1.0))
  {
    OneEntry(identity, 1.0);
    RunTwo(Enter(identity, 1.0), Enter(identity, 5.0));
    var b := Run(EMPTY_BOOK, [Enter(identity, 1.0)] + [Enter(identity, 5.0)]);
    assert b.positions[identity.key] == Position(Entered(5.0), 2) && b.claims == map[];
    var existing := map[identity.key := View(Entered(1.0), identity.name)];
    var rows, a := [RowOfTwo(identity)], Accepted(FIRST_DATA_LINE, InputOfTwo(identity));
    PreviewOfTwo(identity, existing.Keys);
    assert WrittenRows(PreviewOf(rows, existing.Keys), Some(Skip)) == [];
    assert (PreviewOf(rows, existing.Keys).valid + PreviewOf(rows, existing.Keys).conflicts) == [a];
    hide PreviewOf, Committed, Run, ViewOf;
    AuditIsTrueIff(b, "", rows, existing, Some(Skip), None, 0);
    ImportLeavesOtherPositions(b, "", rows, existing, Some(Skip), None, identity.key);
  }

  /** Any two instruments whose keys are spelled alike defeat the fingerprint. One is held and previewed; the
      other is entered after the file is planned; the fingerprint given to `confirm` is the preview's, and
      the locked check passes, in any row order if the two have one name. The file's row for the second instrument then replaces what was entered, so
      the total grows by 1 and not by the row's 2. */
  lemma SpelledAlikeDefeatsFingerprint(held: Identity, other: Identity, raw: string)
    requires held.key != other.key && KeyText(held.key) == KeyText(other.key)
    ensures var history, meanwhile := [Enter(held, 1.0)], [Enter(other, 1.0)];
            var existing, b := ViewOf(Run(EMPTY_BOOK, history)), Run(EMPTY_BOOK, history + meanwhile);
            var rows, m := [RowOfTwo(other)], map[KeyText(held.key) := View(Entered(1.0), held.name)];
            && IsFingerprint(existing, m) && IsFingerprint(ViewOf(b), m) && ViewOf(b) != existing
            && (held.name == other.name ==> forall current :: IsFingerprint(ViewOf(b), current) ==> current == m)
            && PlanOf(PreviewOf(rows, existing.Keys), existing, None).Ok?
            && var (b', outcome) := ApplyBatch(b, BatchFor(raw, rows, existing, None, Some(m)), m);
               outcome == Imported && Held(b', Core) == Held(b, Core) + 1.0
  {
    var view := View(Entered(1.0), held.name);
    var m: Fingerprint := map[KeyText(held.key) := view];
    OneEntry(held, 1.0);
    TwoEntries(held, other);
    SpelledAlike(held.key, other.key, view);
    HoldingBothIsAlike(held.key, other.key, view, View(Entered(1.0), other.name));
    var b := Run(EMPTY_BOOK, [Enter(held, 1.0)] + [Enter(other, 1.0)]);
    hide IsFingerprint, Run, ViewOf;
    assert other.key in ViewOf(b) && other.key !in map[held.key := view];
    ReplacesEntered(b, other, raw, map[held.key := view], m);
  }

  lemma TwoEntries(held: Identity, other: Identity)
    requires held.key != other.key
    ensures var b := Run(EMPTY_BOOK, [Enter(held, 1.0)] + [Enter(other, 1.0)]);
            && b.claims == map[] && other.key in b.positions && b.positions[other.key].fields == Entered(1.0)
            && ViewOf(b) == map[held.key := View(Entered(1.0), held.name), other.key := View(Entered(1.0), other.name)]
  {
    RunTwo(Enter(held, 1.0), Enter(other, 1.0));
  }

  lemma ReplacesEntered(b: Book, other: Identity, raw: string, existing: map<Key, View>, m: Fingerprint)
    requires b.claims == map[] && other.key !in existing
    requires other.key in b.positions && b.positions[other.key].fields == Entered(1.0)
    ensures var rows := [RowOfTwo(other)];
            && PlanOf(PreviewOf(rows, existing.Keys), existing, None).Ok?
            && var (b', outcome) := ApplyBatch(b, BatchFor(raw, rows, existing, None, Some(m)), m);
               outcome == Imported && Held(b', Core) == Held(b, Core) + 1.0
  {
    var rows := [RowOfTwo(other)];
    PreviewOfTwo(other, existing.Keys);
    hide PreviewOf, Held;
    HeldIgnoresAudit(b, BatchFor(raw, rows, existing, None, Some(m)), Core);
    GrowsByOne(b, other, existing);
    hide Committed, ApplyItems;
  }

  lemma GrowsByOne(b: Book, other: Identity, existing: map<Key, View>)
    requires other.key !in existing && other.key in b.positions && b.positions[other.key].fields == Entered(1.0)
    ensures var written := WrittenRows(PreviewOf([RowOfTwo(other)], existing.Keys), None);
            Held(ApplyItems(b, ItemsFor(written, existing, None)), Core) == Held(b, Core) + 1.0
  {
    var rows, a := [RowOfTwo(other)], Accepted(FIRST_DATA_LINE, InputOfTwo(other));
    PreviewOfTwo(other, existing.Keys);
    var written := WrittenRows(PreviewOf(rows, existing.Keys), None);
    assert written == [a];
    hide PreviewOf, Held, ApplyItems;
    ImportAddsRowsPlusDrift(b, rows, existing, None, Core);
    assert RowAmounts(written, Core) == [2.0] && Drifts(b, existing, written, Core) == [-1.0];
    SumOfOne(2.0);
    SumOfOne(-1.0);
  }

  lemma SumOfOne(x: real)
    ensures SeqSum([x]) == x
  {
    assert SeqSum([x][..0]) == 0.0;
  }
}
