/**
 The two-phase CSV import: a plan made from an unlocked read of the holdings, applied later under the
 portfolio lock. Between the two, any other writer may have committed.
 */
module ImportProtocol {
  import opened Options
  import opened PortfolioCsv
  import opened PortfolioBook
  import opened Fingerprints
  import opened Sums

  datatype ConflictPolicy = Skip | Replace | Update

  datatype ConfirmError = InvalidRows | PolicyRequired

  datatype Plan = Plan(items: seq<Item>, planned: seq<AuditRow>, imported: nat, skipped: nat)

  // ---------------------------------------------------------------------------------------------
  // The plan
  // ---------------------------------------------------------------------------------------------

  /** Accumulating onto a held position keeps its bucket costs and reasons. */
  function Merged(before: Fields, i: PositionInput): Fields {
    Fields(before.core + i.core, before.tactical + i.tactical, i.averageCost, before.coreCost, before.tacticalCost,
           if before.coreReason != "" then before.coreReason else i.coreReason,
           if before.tacticalReason != "" then before.tacticalReason else i.tacticalReason, "UPDATE")
  }

  function PlannedFields(a: Accepted, existing: map<Key, View>, policy: Option<ConflictPolicy>): Fields {
    if policy == Some(Update) && KeyOf(a) in existing then Merged(existing[KeyOf(a)].fields, a.input)
    else FieldsOf(a.input)
  }

  function ItemFor(a: Accepted, existing: map<Key, View>, policy: Option<ConflictPolicy>): Item {
    Item(a.input.identity, PlannedFields(a, existing, policy))
  }

  function Before(existing: map<Key, View>, key: Key): Option<Fields> {
    if key in existing then Some(existing[key].fields) else None
  }

  function WrittenRow(a: Accepted, existing: map<Key, View>, policy: Option<ConflictPolicy>): AuditRow {
    AuditRow(a.line, KeyOf(a),
             if KeyOf(a) !in existing then Created else if policy == Some(Update) then Updated else Replaced,
             Before(existing, KeyOf(a)), Some(PlannedFields(a, existing, policy)))
  }

  function SkippedRow(a: Accepted, existing: map<Key, View>): AuditRow {
    AuditRow(a.line, KeyOf(a), Skipped, Before(existing, KeyOf(a)), Before(existing, KeyOf(a)))
  }

  predicate Writes(policy: Option<ConflictPolicy>) {
    policy.Some? && policy.value != Skip
  }

  /** The accepted rows that the policy writes, in the order they are written. */
  function WrittenRows(p: Preview, policy: Option<ConflictPolicy>): seq<Accepted> {
    if Writes(policy) then p.valid + p.conflicts else p.valid
  }

  function ItemsFor(rows: seq<Accepted>, existing: map<Key, View>, policy: Option<ConflictPolicy>): (items: seq<Item>)
    ensures |items| == |rows|
    ensures forall i :: 0 <= i < |rows| ==> items[i] == ItemFor(rows[i], existing, policy)
  {
    seq(|rows|, i requires 0 <= i < |rows| => ItemFor(rows[i], existing, policy))
  }

  function WrittenAudit(rows: seq<Accepted>, existing: map<Key, View>, policy: Option<ConflictPolicy>): seq<AuditRow> {
    seq(|rows|, i requires 0 <= i < |rows| => WrittenRow(rows[i], existing, policy))
  }

  function SkippedAudit(rows: seq<Accepted>, existing: map<Key, View>): seq<AuditRow> {
    seq(|rows|, i requires 0 <= i < |rows| => SkippedRow(rows[i], existing))
  }

  function PlannedRows(p: Preview, existing: map<Key, View>, policy: Option<ConflictPolicy>): (rows: seq<AuditRow>)
    ensures |rows| == |p.valid| + |p.conflicts|
  {
    WrittenAudit(p.valid, existing, policy) +
    if Writes(policy) then WrittenAudit(p.conflicts, existing, policy) else SkippedAudit(p.conflicts, existing)
  }

  function PlanOf(p: Preview, existing: map<Key, View>, policy: Option<ConflictPolicy>): Result<Plan, ConfirmError> {
    if p.invalid != [] then Err(InvalidRows)
    else if p.conflicts != [] && policy.None? then Err(PolicyRequired)
    else
      Ok(Plan(ItemsFor(WrittenRows(p, policy), existing, policy), PlannedRows(p, existing, policy),
              |WrittenRows(p, policy)|,
              (if Writes(policy) then 0 else |p.conflicts|) + |p.duplicates|))
  }

  /** The loop over rows that are written: each is queued and audited. */
  method QueueRows(rows: seq<Accepted>, existing: map<Key, View>, policy: Option<ConflictPolicy>)
    returns (items: seq<Item>, planned: seq<AuditRow>, imported: nat)
    ensures items == ItemsFor(rows, existing, policy) && planned == WrittenAudit(rows, existing, policy)
    ensures imported == |rows|
  {
    items, planned, imported := [], [], 0;
    for i := 0 to |rows|
      invariant items == ItemsFor(rows, existing, policy)[..i]
      invariant planned == WrittenAudit(rows, existing, policy)[..i]
      invariant imported == i
    {
      items := items + [ItemFor(rows[i], existing, policy)];
      planned := planned + [WrittenRow(rows[i], existing, policy)];
      imported := imported + 1;
    }
  }

  /** The loop over skipped conflicts: nothing is queued. */
  method SkipRows(rows: seq<Accepted>, existing: map<Key, View>) returns (planned: seq<AuditRow>, skipped: nat)
    ensures planned == SkippedAudit(rows, existing) && skipped == |rows|
  {
    planned, skipped := [], 0;
    for i := 0 to |rows|
      invariant planned == SkippedAudit(rows, existing)[..i]
      invariant skipped == i
    {
      planned := planned + [SkippedRow(rows[i], existing)];
      skipped := skipped + 1;
    }
  }

  lemma ItemsForAppend(a: seq<Accepted>, b: seq<Accepted>, existing: map<Key, View>, policy: Option<ConflictPolicy>)
    ensures ItemsFor(a + b, existing, policy) == ItemsFor(a, existing, policy) + ItemsFor(b, existing, policy)
  {
  }

  /** `confirm` up to the locked apply. */
  method PlanImport(p: Preview, existing: map<Key, View>, policy: Option<ConflictPolicy>)
    returns (r: Result<Plan, ConfirmError>)
    ensures r == PlanOf(p, existing, policy)
  {
    hide ItemsFor, WrittenAudit, SkippedAudit;
    if p.invalid != [] {
      return Err(InvalidRows);
    }
    if p.conflicts != [] && policy.None? {
      return Err(PolicyRequired);
    }
    var items, planned, imported := QueueRows(p.valid, existing, policy);
    if policy.None? || policy.value == Skip {
      var untouched, skipped := SkipRows(p.conflicts, existing);
      r := Ok(Plan(items, planned + untouched, imported, skipped + |p.duplicates|));
    } else {
      var more, written, count := QueueRows(p.conflicts, existing, policy);
      ItemsForAppend(p.valid, p.conflicts, existing, policy);
      r := Ok(Plan(items + more, planned + written, imported + count, |p.duplicates|));
    }
  }

  /** A confirmed file accounts for all of its rows. */
  lemma ImportedPlusSkipped(rows: seq<RawRow>, existing: map<Key, View>, policy: Option<ConflictPolicy>)
    requires PlanOf(PreviewOf(rows, existing.Keys), existing, policy).Ok?
    ensures var plan := PlanOf(PreviewOf(rows, existing.Keys), existing, policy).value;
            plan.imported + plan.skipped == |rows|
  {
    PreviewCounts(rows, existing.Keys);
  }

  // ---------------------------------------------------------------------------------------------
  // The idempotency key
  // ---------------------------------------------------------------------------------------------

  function PolicyName(policy: Option<ConflictPolicy>): string {
    match policy
    case None => "NONE"
    case Some(Skip) => "SKIP"
    case Some(Replace) => "REPLACE"
    case Some(Update) => "UPDATE"
  }

  /** The text that is hashed into the import's idempotency key. */
  function ImportKey(raw: string, policy: Option<ConflictPolicy>): string {
    raw + "|" + PolicyName(policy)
  }

  /** Two imports share an idempotency key only if file text and policy are the same. */
  lemma ImportKeyInjective(raw: string, policy: Option<ConflictPolicy>, raw': string, policy': Option<ConflictPolicy>)
    ensures ImportKey(raw, policy) == ImportKey(raw', policy') <==> raw == raw' && policy == policy'
  {
    if ImportKey(raw, policy) == ImportKey(raw', policy') {
      LastBar(raw, PolicyName(policy), raw', PolicyName(policy'));
      assert "NONE"[0] == 'N' && "SKIP"[0] == 'S' && "REPLACE"[0] == 'R' && "UPDATE"[0] == 'U';
    }
  }

  // ---------------------------------------------------------------------------------------------
  // What a batch with distinct keys does
  // ---------------------------------------------------------------------------------------------

  predicate DistinctKeys(items: seq<Item>) {
    forall i, j :: 0 <= i < j < |items| ==> items[i].identity.key != items[j].identity.key
  }

  ghost predicate Names(items: seq<Item>, key: Key) {
    exists i :: 0 <= i < |items| && items[i].identity.key == key
  }

  lemma NamesStep(items: seq<Item>, key: Key)
    requires items != []
    ensures Names(items, key) <==> Names(items[..|items| - 1], key) || items[|items| - 1].identity.key == key
  {
    var n := |items| - 1;
    if Names(items[..n], key) {
      var i :| 0 <= i < n && items[..n][i].identity.key == key;
      assert items[i].identity.key == key;
    }
    if Names(items, key) && items[n].identity.key != key {
      var i :| 0 <= i < |items| && items[i].identity.key == key;
      assert items[..n][i].identity.key == key;
    }
  }

  lemma LastIsFresh(items: seq<Item>)
    requires DistinctKeys(items) && items != []
    ensures !Names(items[..|items| - 1], items[|items| - 1].identity.key)
    ensures DistinctKeys(items[..|items| - 1])
  {
  }

  /** A position that no item names keeps fields and version. */
  lemma {:induction false} BatchElsewhere(b: Book, items: seq<Item>, key: Key)
    requires !Names(items, key)
    ensures key in ApplyItems(b, items).positions <==> key in b.positions
    ensures key in b.positions ==> ApplyItems(b, items).positions[key] == b.positions[key]
  {
    if items != [] {
      NamesStep(items, key);
      BatchElsewhere(b, items[..|items| - 1], key);
    }
  }

  /** A named key holds its item under the next version. */
  lemma {:induction false} BatchAt(b: Book, items: seq<Item>, i: nat)
    requires DistinctKeys(items) && i < |items|
    ensures var key, after := items[i].identity.key, ApplyItems(b, items).positions;
            key in after && after[key] == Position(items[i].fields, VersionOf(b.positions, key) + 1)
  {
    var n := |items| - 1;
    LastIsFresh(items);
    if i == n {
      BatchElsewhere(b, items[..n], items[n].identity.key);
    } else {
      BatchAt(b, items[..n], i);
    }
  }

  /** The recorded before and after of a written key are its values before and after the whole batch. */
  lemma {:induction false} WrittenEffect(b: Book, items: seq<Item>, i: nat)
    requires DistinctKeys(items) && i < |items|
    ensures var key := items[i].identity.key;
            key in WrittenBy(b, items) &&
            WrittenBy(b, items)[key] == Written(FieldsAt(b.positions, key), FieldsAt(ApplyItems(b, items).positions, key))
  {
    var n := |items| - 1;
    LastIsFresh(items);
    BatchAt(b, items, i);
    hide ApplyItems;
    if i == n {
      BatchElsewhere(b, items[..n], items[n].identity.key);
    } else {
      WrittenEffect(b, items[..n], i);
      BatchAt(b, items[..n], i);
    }
  }

  lemma {:induction false} WrittenKeys(b: Book, items: seq<Item>)
    ensures forall key :: key in WrittenBy(b, items) <==> Names(items, key)
  {
    if items != [] {
      WrittenKeys(b, items[..|items| - 1]);
      forall key ensures key in WrittenBy(b, items) <==> Names(items, key) {
        NamesStep(items, key);
      }
    }
  }

  // ---------------------------------------------------------------------------------------------
  // Quantities
  // ---------------------------------------------------------------------------------------------

  datatype Bucket = Core | Tactical

  function Amount(f: Fields, bucket: Bucket): real {
    if bucket == Core then f.core else f.tactical
  }

  function AmountAt(positions: map<Key, Position>, key: Key, bucket: Bucket): real {
    if key in positions then Amount(positions[key].fields, bucket) else 0.0
  }

  ghost function Amounts(positions: map<Key, Position>, bucket: Bucket): map<Key, real> {
    map key | key in positions :: Amount(positions[key].fields, bucket)
  }

  /** The total quantity held in one bucket. */
  ghost function Held(b: Book, bucket: Bucket): real {
    Sum(Amounts(b.positions, bucket))
  }

  function RowAmount(a: Accepted, bucket: Bucket): real {
    if bucket == Core then a.input.core else a.input.tactical
  }

  function RowAmounts(rows: seq<Accepted>, bucket: Bucket): seq<real> {
    seq(|rows|, i requires 0 <= i < |rows| => RowAmount(rows[i], bucket))
  }

  /** How far each item moves the position it replaces. */
  function Changes(b: Book, items: seq<Item>, bucket: Bucket): seq<real> {
    seq(|items|, i requires 0 <= i < |items| =>
      Amount(items[i].fields, bucket) - AmountAt(b.positions, items[i].identity.key, bucket))
  }

  lemma WriteMovesHeld(b: Book, key: Key, f: Fields, bucket: Bucket)
    ensures Held(Write(b, key, f), bucket) == Held(b, bucket) + Amount(f, bucket) - AmountAt(b.positions, key, bucket)
  {
    var before := Amounts(b.positions, bucket);
    SumUpdate(before, key, Amount(f, bucket));
    assert Amounts(Write(b, key, f).positions, bucket) == before[key := Amount(f, bucket)];
  }

  lemma ItemMovesHeld(b: Book, item: Item, bucket: Bucket)
    ensures Held(ApplyItem(b, item), bucket)
            == Held(b, bucket) + Amount(item.fields, bucket) - AmountAt(b.positions, item.identity.key, bucket)
  {
    WriteMovesHeld(b.(names := Catalogued(b.names, item.identity)), item.identity.key, item.fields, bucket);
  }

  lemma ChangesStep(b: Book, items: seq<Item>, bucket: Bucket)
    requires items != []
    ensures var n := |items| - 1;
            SeqSum(Changes(b, items, bucket)) == SeqSum(Changes(b, items[..n], bucket))
              + (Amount(items[n].fields, bucket) - AmountAt(b.positions, items[n].identity.key, bucket))
  {
    assert Changes(b, items, bucket)[..|items| - 1] == Changes(b, items[..|items| - 1], bucket);
  }

  lemma {:induction false} BatchMovesHeld(b: Book, items: seq<Item>, bucket: Bucket)
    requires DistinctKeys(items)
    ensures Held(ApplyItems(b, items), bucket) == Held(b, bucket) + SeqSum(Changes(b, items, bucket))
  {
    hide Held, ApplyItem, Changes, Amount;
    if items != [] {
      var n := |items| - 1;
      LastIsFresh(items);
      BatchMovesHeld(b, items[..n], bucket);
      BatchElsewhere(b, items[..n], items[n].identity.key);
      ItemMovesHeld(ApplyItems(b, items[..n]), items[n], bucket);
      ChangesStep(b, items, bucket);
    } else {
      NoChanges(b, bucket);
    }
  }

  lemma NoChanges(b: Book, bucket: Bucket)
    ensures SeqSum(Changes(b, [], bucket)) == 0.0
  {
  }

  // ---------------------------------------------------------------------------------------------
  // The import as a whole
  // ---------------------------------------------------------------------------------------------

  /** The batch that confirming a file hands to the locked apply, planned from holdings `existing`. */
  function BatchFor(raw: string, rows: seq<RawRow>, existing: map<Key, View>, policy: Option<ConflictPolicy>,
                    expected: Option<Fingerprint>): Batch
    requires PlanOf(PreviewOf(rows, existing.Keys), existing, policy).Ok?
  {
    var plan := PlanOf(PreviewOf(rows, existing.Keys), existing, policy).value;
    Batch(ImportKey(raw, policy), PolicyName(policy), plan.items, plan.planned, expected)
  }

  lemma PlannedKeysDistinct(rows: seq<RawRow>, existing: map<Key, View>, policy: Option<ConflictPolicy>)
    ensures DistinctKeys(ItemsFor(WrittenRows(PreviewOf(rows, existing.Keys), policy), existing, policy))
  {
    var p := PreviewOf(rows, existing.Keys);
    var written := WrittenRows(p, policy);
    forall i, j | 0 <= i < j < |written| ensures KeyOf(written[i]) != KeyOf(written[j]) {
      AcceptedKeysDistinct(rows, existing.Keys, i, j);
      assert written[i] == (p.valid + p.conflicts)[i] && written[j] == (p.valid + p.conflicts)[j];
    }
  }

  /** A written row's key is held at planning time exactly when the row is a conflict. */
  lemma WrittenRowIsHeldIffConflict(rows: seq<RawRow>, existing: map<Key, View>, policy: Option<ConflictPolicy>, i: nat)
    requires var p := PreviewOf(rows, existing.Keys); i < |p.valid + p.conflicts|
    ensures var p := PreviewOf(rows, existing.Keys); KeyOf((p.valid + p.conflicts)[i]) in existing <==> |p.valid| <= i
  {
    var p := PreviewOf(rows, existing.Keys);
    hide AcceptedUpTo, RejectedUpTo, DuplicatesUpTo, Picked, VerdictOf, FirstWith;
    if i < |p.valid| {
      var _ := AcceptedStands(rows, existing.Keys, ValidRow, i);
    } else {
      var _ := AcceptedStands(rows, existing.Keys, ConflictRow, i - |p.valid|);
    }
  }

  /** The planner's and the applier's view of a written row's position, subtracted. */
  function Drifts(b: Book, existing: map<Key, View>, rows: seq<Accepted>, bucket: Bucket): seq<real> {
    seq(|rows|, i requires 0 <= i < |rows| =>
      (if KeyOf(rows[i]) in existing then Amount(existing[KeyOf(rows[i])].fields, bucket) else 0.0)
      - AmountAt(b.positions, KeyOf(rows[i]), bucket))
  }

  /** Whatever was written between plan and apply: an accumulating import, or one that skips conflicts,
      adds exactly its rows plus the drift of the positions it names. */
  lemma ImportAddsRowsPlusDrift(
      b: Book, rows: seq<RawRow>, existing: map<Key, View>, policy: Option<ConflictPolicy>, bucket: Bucket)
    requires policy != Some(Replace)
    ensures var written := WrittenRows(PreviewOf(rows, existing.Keys), policy);
            Held(ApplyItems(b, ItemsFor(written, existing, policy)), bucket)
            == Held(b, bucket) + SeqSum(RowAmounts(written, bucket)) + SeqSum(Drifts(b, existing, written, bucket))
  {
    var p := PreviewOf(rows, existing.Keys);
    var written := WrittenRows(p, policy);
    var items := ItemsFor(written, existing, policy);
    hide PreviewOf, Held, ApplyItems;
    PlannedKeysDistinct(rows, existing, policy);
    BatchMovesHeld(b, items, bucket);
    forall i | 0 <= i < |written|
      ensures Changes(b, items, bucket)[i] == RowAmounts(written, bucket)[i] + Drifts(b, existing, written, bucket)[i]
    {
      assert written[i] == (p.valid + p.conflicts)[i];
      WrittenRowIsHeldIffConflict(rows, existing, policy, i);
    }
    SeqSumOfSums(RowAmounts(written, bucket), Drifts(b, existing, written, bucket), Changes(b, items, bucket));
  }

  /** So without a fingerprint nothing is lost or doubled if and only if the drifts cancel out. */
  lemma ConservedIffNoNetDrift(
      b: Book, rows: seq<RawRow>, existing: map<Key, View>, policy: Option<ConflictPolicy>, bucket: Bucket)
    requires policy != Some(Replace)
    ensures var written := WrittenRows(PreviewOf(rows, existing.Keys), policy);
            Held(ApplyItems(b, ItemsFor(written, existing, policy)), bucket)
            == Held(b, bucket) + SeqSum(RowAmounts(written, bucket))
            <==> SeqSum(Drifts(b, existing, written, bucket)) == 0.0
  {
    ImportAddsRowsPlusDrift(b, rows, existing, policy, bucket);
  }

  lemma {:induction false} ZerosSumToZero(s: seq<real>)
    requires forall i :: 0 <= i < |s| ==> s[i] == 0.0
    ensures SeqSum(s) == 0.0
  {
    if s != [] {
      ZerosSumToZero(s[..|s| - 1]);
    }
  }

  /** The holdings at apply time are those that were previewed and planned from. */
  ghost predicate Unmoved(b: Book, existing: map<Key, View>) {
    ViewOf(b) == existing
  }

  /** The fingerprint check does its work: if it passes and no two keys share a text, then whatever other
      writers did since the preview, the batch starts from exactly the previewed positions. */
  lemma FingerprintPins(b: Book, previewed: map<Key, View>, existing: map<Key, View>, fingerprint: Fingerprint, batch: Batch)
    requires IsFingerprint(previewed, fingerprint) && IsFingerprint(existing, fingerprint)
    requires batch.expected == Some(fingerprint)
    requires TextsDiffer(previewed.Keys + existing.Keys + b.positions.Keys)
    requires exists current :: IsFingerprint(ViewOf(b), current) && ApplyBatch(b, batch, current).1 == Imported
    ensures previewed == existing && Unmoved(b, existing)
  {
    var current :| IsFingerprint(ViewOf(b), current) && ApplyBatch(b, batch, current).1 == Imported;
    ImportedMatchesExpected(b, batch, current);
    hide IsFingerprint, TextsDiffer, ApplyBatch, ViewOf;
    SameFingerprintPins(b, previewed, existing, fingerprint);
  }

  lemma SameFingerprintPins(b: Book, previewed: map<Key, View>, existing: map<Key, View>, fingerprint: Fingerprint)
    requires IsFingerprint(previewed, fingerprint) && IsFingerprint(existing, fingerprint)
    requires IsFingerprint(ViewOf(b), fingerprint)
    requires TextsDiffer(previewed.Keys + existing.Keys + b.positions.Keys)
    ensures previewed == existing == ViewOf(b)
  {
    hide IsFingerprint, TextsDiffer;
    assert ViewOf(b).Keys == b.positions.Keys;
    hide ViewOf;
    var keys := previewed.Keys + existing.Keys + b.positions.Keys;
    SharedFingerprintMeansEqual(keys, previewed, existing, fingerprint);
    SharedFingerprintMeansEqual(keys, existing, ViewOf(b), fingerprint);
  }

  lemma ImportedMatchesExpected(b: Book, batch: Batch, current: Fingerprint)
    requires ApplyBatch(b, batch, current).1 == Imported && batch.expected.Some?
    ensures batch.expected.value == current
  {
    hide Committed;
  }

  /** Conservation: from the previewed positions, both buckets grow by exactly the rows written, which are
      all accepted rows when accumulating and the new ones when skipping. */
  lemma ImportConserves(
      b: Book, raw: string, rows: seq<RawRow>, existing: map<Key, View>, policy: Option<ConflictPolicy>,
      expected: Option<Fingerprint>, bucket: Bucket)
    requires policy != Some(Replace) && Unmoved(b, existing)
    requires PlanOf(PreviewOf(rows, existing.Keys), existing, policy).Ok?
    ensures var p, b' := PreviewOf(rows, existing.Keys), Committed(b, BatchFor(raw, rows, existing, policy, expected));
            Held(b', bucket) == Held(b, bucket) + SeqSum(RowAmounts(p.valid, bucket))
                                + (if policy == Some(Update) then SeqSum(RowAmounts(p.conflicts, bucket)) else 0.0)
  {
    var p := PreviewOf(rows, existing.Keys);
    var written := WrittenRows(p, policy);
    hide PreviewOf, Held, ItemsFor, ApplyItems;
    ImportAddsRowsPlusDrift(b, rows, existing, policy, bucket);
    NoDriftWhenUnmoved(b, existing, written, bucket);
    SplitRowAmounts(p.valid, p.conflicts, bucket);
    HeldIgnoresAudit(b, BatchFor(raw, rows, existing, policy, expected), bucket);
  }

  /** The same across a run: preview, any other operations, apply. If the fingerprint given to `confirm` is
      the preview's and the batch is imported, the book moves from exactly the previewed positions. */
  lemma ConfirmedImportConserves(
      history: seq<Op>, meanwhile: seq<Op>, raw: string, rows: seq<RawRow>, existing: map<Key, View>,
      policy: Option<ConflictPolicy>, fingerprint: Fingerprint, bucket: Bucket)
    requires policy != Some(Replace)
    requires PlanOf(PreviewOf(rows, existing.Keys), existing, policy).Ok?
    requires IsFingerprint(ViewOf(Run(EMPTY_BOOK, history)), fingerprint) && IsFingerprint(existing, fingerprint)
    requires var b := Run(EMPTY_BOOK, history + meanwhile);
             && TextsDiffer(ViewOf(Run(EMPTY_BOOK, history)).Keys + existing.Keys + b.positions.Keys)
             && exists current :: IsFingerprint(ViewOf(b), current) &&
                  ApplyBatch(b, BatchFor(raw, rows, existing, policy, Some(fingerprint)), current).1 == Imported
    ensures var b, p := Run(EMPTY_BOOK, history + meanwhile), PreviewOf(rows, existing.Keys);
            var b' := Committed(b, BatchFor(raw, rows, existing, policy, Some(fingerprint)));
            && ViewOf(b) == ViewOf(Run(EMPTY_BOOK, history)) == existing
            && Held(b', bucket) == Held(b, bucket) + SeqSum(RowAmounts(p.valid, bucket))
                                   + (if policy == Some(Update) then SeqSum(RowAmounts(p.conflicts, bucket)) else 0.0)
  {
    var b, previewed := Run(EMPTY_BOOK, history + meanwhile), ViewOf(Run(EMPTY_BOOK, history));
    var batch := BatchFor(raw, rows, existing, policy, Some(fingerprint));
    hide PreviewOf, Held, Committed, Run, ViewOf, IsFingerprint;
    FingerprintPins(b, previewed, existing, fingerprint, batch);
    ImportConserves(b, raw, rows, existing, policy, Some(fingerprint), bucket);
  }

  lemma HeldIgnoresAudit(b: Book, batch: Batch, bucket: Bucket)
    ensures Held(Committed(b, batch), bucket) == Held(ApplyItems(b, batch.items), bucket)
  {
  }

  lemma NoDriftWhenUnmoved(b: Book, existing: map<Key, View>, rows: seq<Accepted>, bucket: Bucket)
    requires Unmoved(b, existing)
    ensures SeqSum(Drifts(b, existing, rows, bucket)) == 0.0
  {
    forall i | 0 <= i < |rows| ensures Drifts(b, existing, rows, bucket)[i] == 0.0 {
      assert KeyOf(rows[i]) in existing <==> KeyOf(rows[i]) in b.positions;
    }
    ZerosSumToZero(Drifts(b, existing, rows, bucket));
  }

  lemma SplitRowAmounts(first: seq<Accepted>, second: seq<Accepted>, bucket: Bucket)
    ensures SeqSum(RowAmounts(first + second, bucket)) == SeqSum(RowAmounts(first, bucket)) + SeqSum(RowAmounts(second, bucket))
  {
    SeqSumAppend(RowAmounts(first, bucket), RowAmounts(second, bucket));
    assert RowAmounts(first + second, bucket) == RowAmounts(first, bucket) + RowAmounts(second, bucket);
  }

  /** Under every policy, and also when nothing is written at all, a position that no written row names
      keeps fields and version. */
  lemma ImportLeavesOtherPositions(
      b: Book, raw: string, rows: seq<RawRow>, existing: map<Key, View>, policy: Option<ConflictPolicy>,
      expected: Option<Fingerprint>, other: Key)
    requires PlanOf(PreviewOf(rows, existing.Keys), existing, policy).Ok?
    requires forall r :: r in WrittenRows(PreviewOf(rows, existing.Keys), policy) ==> KeyOf(r) != other
    ensures var b' := Committed(b, BatchFor(raw, rows, existing, policy, expected));
            && (other in b'.positions <==> other in b.positions)
            && (other in b.positions ==> b'.positions[other] == b.positions[other])
  {
    var written := WrittenRows(PreviewOf(rows, existing.Keys), policy);
    var items := ItemsFor(written, existing, policy);
    hide PreviewOf, WrittenRows, ApplyItems;
    assert !Names(items, other) by {
      forall j | 0 <= j < |items| ensures items[j].identity.key != other {
        assert KeyOf(written[j]) != other;
      }
    }
    BatchElsewhere(b, items, other);
  }

  /** Under every policy each written row's position is its planned one, and a replaced position is the row
      itself. */
  lemma ImportWritesItsRows(
      b: Book, raw: string, rows: seq<RawRow>, existing: map<Key, View>, policy: Option<ConflictPolicy>,
      expected: Option<Fingerprint>, a: Accepted)
    requires PlanOf(PreviewOf(rows, existing.Keys), existing, policy).Ok?
    requires a in WrittenRows(PreviewOf(rows, existing.Keys), policy)
    ensures var b' := Committed(b, BatchFor(raw, rows, existing, policy, expected));
            && FieldsAt(b'.positions, KeyOf(a)) == Some(PlannedFields(a, existing, policy))
            && (policy == Some(Replace) ==> FieldsAt(b'.positions, KeyOf(a)) == Some(FieldsOf(a.input)))
  {
    var written := WrittenRows(PreviewOf(rows, existing.Keys), policy);
    var items := ItemsFor(written, existing, policy);
    PlannedKeysDistinct(rows, existing, policy);
    var i :| 0 <= i < |written| && written[i] == a;
    hide PreviewOf, WrittenRows, ApplyItems;
    assert items[i] == ItemFor(a, existing, policy);
    BatchAt(b, items, i);
  }

  /** The audit row shows its position as it is before the batch and after it. */
  predicate AuditIsTrue(row: AuditRow, b: Book, b': Book) {
    row.before == FieldsAt(b.positions, row.key) && row.after == FieldsAt(b'.positions, row.key)
  }

  /** Exactly when an audit row tells the truth, whatever others wrote between plan and apply: it is the row of
      a written position, or the planner read the skipped position as it is when the batch is applied. A
      skipped row always shows the planner's reading, before and after. */
  lemma AuditIsTrueIff(
      b: Book, raw: string, rows: seq<RawRow>, existing: map<Key, View>, policy: Option<ConflictPolicy>,
      expected: Option<Fingerprint>, i: nat)
    requires PlanOf(PreviewOf(rows, existing.Keys), existing, policy).Ok?
    requires var p := PreviewOf(rows, existing.Keys); i < |p.valid + p.conflicts|
    ensures var p, b' := PreviewOf(rows, existing.Keys), Committed(b, BatchFor(raw, rows, existing, policy, expected));
            var key, audit := KeyOf((p.valid + p.conflicts)[i]), b'.audits[|b.audits|].rows;
            && |b'.audits| == |b.audits| + 1 && i < |audit| && audit[i].key == key
            && (audit[i].action == Skipped <==> |WrittenRows(p, policy)| <= i)
            && (audit[i].action == Skipped ==> audit[i].before == audit[i].after == Before(existing, key))
            && (AuditIsTrue(audit[i], b, b') <==>
                  audit[i].action != Skipped || Before(existing, key) == FieldsAt(b.positions, key))
  {
    var p := PreviewOf(rows, existing.Keys);
    var written := WrittenRows(p, policy);
    var items := ItemsFor(written, existing, policy);
    var row := (p.valid + p.conflicts)[i];
    PlannedRowKeys(p, existing, policy, i);
    AuditRowIs(b, raw, rows, existing, policy, expected, i);
    WrittenKeys(b, items);
    PlannedKeysDistinct(rows, existing, policy);
    assert i < |written| ==> items[i].identity.key == KeyOf(row);
    hide PreviewOf, WrittenRows, ApplyItems, WrittenBy, PlannedRows, Committed, BatchFor;
    if i < |written| {
      assert Names(items, KeyOf(row));
      WrittenEffect(b, items, i);
    } else {
      SkippedIsNotNamed(rows, existing, policy, i);
      BatchElsewhere(b, items, KeyOf(row));
    }
  }

  /** Where an audit row of the batch comes from. */
  lemma AuditRowIs(
      b: Book, raw: string, rows: seq<RawRow>, existing: map<Key, View>, policy: Option<ConflictPolicy>,
      expected: Option<Fingerprint>, i: nat)
    requires PlanOf(PreviewOf(rows, existing.Keys), existing, policy).Ok?
    requires var p := PreviewOf(rows, existing.Keys); i < |p.valid + p.conflicts|
    ensures var p, b' := PreviewOf(rows, existing.Keys), Committed(b, BatchFor(raw, rows, existing, policy, expected));
            var items := ItemsFor(WrittenRows(p, policy), existing, policy);
            && |b'.audits| == |b.audits| + 1 && i < |b'.audits[|b.audits|].rows|
            && b'.audits[|b.audits|].rows[i] == AuditedRow(WrittenBy(b, items), PlannedRows(p, existing, policy)[i])
            && b'.positions == ApplyItems(b, items).positions
  {
    hide PreviewOf, ApplyItems, WrittenBy, AuditedRow, WrittenRows, PlannedRows;
  }

  /** Across a run with other writers: when the preview's fingerprint is given and the batch is imported, every
      audit row tells the truth, skipped ones included. */
  lemma ConfirmedAuditIsTrue(
      history: seq<Op>, meanwhile: seq<Op>, raw: string, rows: seq<RawRow>, existing: map<Key, View>,
      policy: Option<ConflictPolicy>, fingerprint: Fingerprint, i: nat)
    requires PlanOf(PreviewOf(rows, existing.Keys), existing, policy).Ok?
    requires var p := PreviewOf(rows, existing.Keys); i < |p.valid + p.conflicts|
    requires IsFingerprint(ViewOf(Run(EMPTY_BOOK, history)), fingerprint) && IsFingerprint(existing, fingerprint)
    requires var b := Run(EMPTY_BOOK, history + meanwhile);
             && TextsDiffer(ViewOf(Run(EMPTY_BOOK, history)).Keys + existing.Keys + b.positions.Keys)
             && exists current :: IsFingerprint(ViewOf(b), current) &&
                  ApplyBatch(b, BatchFor(raw, rows, existing, policy, Some(fingerprint)), current).1 == Imported
    ensures var b := Run(EMPTY_BOOK, history + meanwhile);
            var b' := Committed(b, BatchFor(raw, rows, existing, policy, Some(fingerprint)));
            |b'.audits| == |b.audits| + 1 && i < |b'.audits[|b.audits|].rows| && AuditIsTrue(b'.audits[|b.audits|].rows[i], b, b')
  {
    var b, previewed := Run(EMPTY_BOOK, history + meanwhile), ViewOf(Run(EMPTY_BOOK, history));
    hide PreviewOf, Committed, Run, IsFingerprint, TextsDiffer, AuditIsTrue;
    FingerprintPins(b, previewed, existing, fingerprint, BatchFor(raw, rows, existing, policy, Some(fingerprint)));
    AuditIsTrueIff(b, raw, rows, existing, policy, Some(fingerprint), i);
    ReadAsItIs(b, existing, KeyOf((PreviewOf(rows, existing.Keys).valid + PreviewOf(rows, existing.Keys).conflicts)[i]));
  }

  lemma ReadAsItIs(b: Book, existing: map<Key, View>, key: Key)
    requires Unmoved(b, existing)
    ensures Before(existing, key) == FieldsAt(b.positions, key)
  {
    assert key in existing <==> key in b.positions;
  }

  lemma PlannedRowKeys(p: Preview, existing: map<Key, View>, policy: Option<ConflictPolicy>, i: nat)
    requires i < |p.valid + p.conflicts|
    ensures var row := PlannedRows(p, existing, policy)[i];
            && row.key == KeyOf((p.valid + p.conflicts)[i])
            && row.before == Before(existing, row.key)
            && (row.action == Skipped <==> |WrittenRows(p, policy)| <= i)
  {
  }

  lemma SkippedIsNotNamed(rows: seq<RawRow>, existing: map<Key, View>, policy: Option<ConflictPolicy>, i: nat)
    requires var p := PreviewOf(rows, existing.Keys); |WrittenRows(p, policy)| <= i < |p.valid + p.conflicts|
    ensures var p := PreviewOf(rows, existing.Keys);
            !Names(ItemsFor(WrittenRows(p, policy), existing, policy), KeyOf((p.valid + p.conflicts)[i]))
  {
    var p := PreviewOf(rows, existing.Keys);
    var written := WrittenRows(p, policy);
    var items := ItemsFor(written, existing, policy);
    forall j | 0 <= j < |items| ensures items[j].identity.key != KeyOf((p.valid + p.conflicts)[i]) {
      AcceptedKeysDistinct(rows, existing.Keys, j, i);
      assert written[j] == (p.valid + p.conflicts)[j];
    }
  }
}
