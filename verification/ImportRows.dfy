/** From a row of the file to the stored position and the audit, in terms of the row's own fields. */
module ImportRows {
  import opened Options
  import opened PortfolioCsv
  import opened CsvRows
  import opened PortfolioBook
  import opened ImportProtocol

  /** The average cost counts for a bucket only if the bucket holds something. */
  function CostOf(row: RawRow, quantity: real): real
    requires Readable(row)
  {
    if quantity == 0.0 then 0.0 else row.averageCost.value
  }

  /** An input is stored as it is given; a bucket cost that is not given is the average cost if the bucket holds
      something, and zero otherwise. */
  lemma InputIsStored(i: PositionInput)
    ensures var f := FieldsOf(i);
            && f.core == i.core && f.tactical == i.tactical && f.averageCost == i.averageCost
            && (i.coreCost.Some? ==> f.coreCost == i.coreCost.value)
            && (i.coreCost.None? ==> f.coreCost == (if i.core == 0.0 then 0.0 else i.averageCost))
            && (i.tacticalCost.Some? ==> f.tacticalCost == i.tacticalCost.value)
            && (i.tacticalCost.None? ==> f.tacticalCost == (if i.tactical == 0.0 then 0.0 else i.averageCost))
            && f.coreReason == i.coreReason && f.tacticalReason == i.tacticalReason && f.operation == i.operation
  {
  }

  /** The position is what the row says. */
  predicate IsRow(f: Fields, row: RawRow)
    requires Readable(row)
  {
    && f.core == row.core.value && f.tactical == row.tactical.value && f.averageCost == row.averageCost.value
    && f.coreCost == CostOf(row, row.core.value) && f.tacticalCost == CostOf(row, row.tactical.value)
    && f.coreReason == "" && f.tacticalReason == "" && f.operation == "MANUAL"
  }

  /** The row's quantities are added to the position that was read; its average cost replaces the old one, bucket
      costs and reasons stay. */
  predicate IsSum(f: Fields, before: Fields, row: RawRow)
    requires Readable(row)
  {
    && f.core == before.core + row.core.value && f.tactical == before.tactical + row.tactical.value
    && f.averageCost == row.averageCost.value && f.coreCost == before.coreCost && f.tacticalCost == before.tacticalCost
    && f.coreReason == before.coreReason && f.tacticalReason == before.tacticalReason && f.operation == "UPDATE"
  }

  /** What becomes of a position named by a row: a new one is what the row says; a held one is left alone, replaced
      or added to, as the policy demands. */
  predicate Lands(row: RawRow, existing: map<Key, View>, policy: Option<ConflictPolicy>, before: Option<Fields>, after: Option<Fields>)
    requires Readable(row)
  {
    if KeyIn(row) !in existing then after.Some? && IsRow(after.value, row)
    else match policy
      case None => after == before
      case Some(Skip) => after == before
      case Some(Replace) => after.Some? && IsRow(after.value, row)
      case Some(Update) => after.Some? && IsSum(after.value, existing[KeyIn(row)].fields, row)
  }

  lemma AllReadable(rows: seq<RawRow>, held: set<Key>)
    ensures PreviewOf(rows, held).invalid == [] <==> forall i :: 0 <= i < |rows| ==> Readable(rows[i])
  {
    var p := PreviewOf(rows, held);
    if p.invalid != [] {
      RejectedIff(rows, held, p.invalid[0]);
      assert p.invalid[0] in p.invalid;
    }
    forall i | 0 <= i < |rows| ensures p.invalid == [] ==> Readable(rows[i]) {
      PassesIffReadable(rows[i]);
      if !Readable(rows[i]) {
        RejectedIff(rows, held, Rejected(i + 2, Check(rows[i]).reason));
      }
    }
  }

  /** The entry of the first row with its key. */
  function EntryOf(rows: seq<RawRow>, i: nat): Accepted
    requires i < |rows| && Check(rows[i]).Read?
  {
    Accepted(i + 2, Check(rows[i]).value)
  }

  lemma FirstRowIsAccepted(rows: seq<RawRow>, held: set<Key>, i: nat)
    requires i < |rows| && Readable(rows[i]) && !Repeats(rows, i)
    ensures Check(rows[i]).Read? && Carries(EntryOf(rows, i).input, rows[i]) && KeyOf(EntryOf(rows, i)) == KeyIn(rows[i])
    ensures KeyIn(rows[i]) !in held ==> EntryOf(rows, i) in PreviewOf(rows, held).valid
    ensures KeyIn(rows[i]) in held ==> EntryOf(rows, i) in PreviewOf(rows, held).conflicts
  {
    PassesIffReadable(rows[i]);
    AcceptedIff(rows, held, EntryOf(rows, i));
    hide Readable, Check, Repeats, PreviewOf;
  }

  /** A confirmation is refused for a row that is not readable, and otherwise for want of a policy if some row names
      a held key. */
  lemma RefusedIff(rows: seq<RawRow>, existing: map<Key, View>, policy: Option<ConflictPolicy>)
    ensures var r := PlanOf(PreviewOf(rows, existing.Keys), existing, policy);
            && (r == Err(InvalidRows) <==> exists i :: 0 <= i < |rows| && !Readable(rows[i]))
            && (r == Err(PolicyRequired) <==>
                  && policy == None && (forall i :: 0 <= i < |rows| ==> Readable(rows[i]))
                  && exists i :: 0 <= i < |rows| && KeyIn(rows[i]) in existing)
            && (r.Ok? ==> r.value.imported == |r.value.items|)
  {
    var p := PreviewOf(rows, existing.Keys);
    AllReadable(rows, existing.Keys);
    hide Readable, Repeats, PreviewOf, PlannedRows, WrittenRows;
    if p.conflicts != [] {
      AcceptedIff(rows, existing.Keys, p.conflicts[0]);
      assert p.conflicts[0] in p.conflicts;
    }
    if forall i :: 0 <= i < |rows| ==> Readable(rows[i]) {
      forall i | 0 <= i < |rows| ensures KeyIn(rows[i]) in existing ==> p.conflicts != [] {
        var first := FirstOfKey(rows, i);
        FirstRowIsAccepted(rows, existing.Keys, first);
      }
    }
  }

  lemma {:induction false} FirstOfKey(rows: seq<RawRow>, i: nat) returns (first: nat)
    requires i < |rows| && Readable(rows[i])
    ensures first < |rows| && Readable(rows[first]) && !Repeats(rows, first) && KeyIn(rows[first]) == KeyIn(rows[i])
  {
    hide Readable;
    if Repeats(rows, i) {
      var j: nat :| j < i && Readable(rows[j]) && KeyIn(rows[j]) == KeyIn(rows[i]);
      first := FirstOfKey(rows, j);
    } else {
      first := i;
    }
  }

  /** Whatever others wrote in between: once the batch is applied, the position that a row is the first to name is
      what the row and the policy make of it. */
  lemma RowLands(
      b: Book, raw: string, rows: seq<RawRow>, existing: map<Key, View>, policy: Option<ConflictPolicy>,
      expected: Option<Fingerprint>, i: nat)
    requires PlanOf(PreviewOf(rows, existing.Keys), existing, policy).Ok?
    requires i < |rows| && Readable(rows[i]) && !Repeats(rows, i)
    ensures var b' := Committed(b, BatchFor(raw, rows, existing, policy, expected));
            Lands(rows[i], existing, policy, FieldsAt(b.positions, KeyIn(rows[i])), FieldsAt(b'.positions, KeyIn(rows[i])))
  {
    var p, a := PreviewOf(rows, existing.Keys), EntryOf(rows, i);
    FirstRowIsAccepted(rows, existing.Keys, i);
    hide PreviewOf, Committed, BatchFor, Readable, Repeats, Check, PlanOf;
    if KeyIn(rows[i]) !in existing || Writes(policy) {
      assert a in WrittenRows(p, policy);
      ImportWritesItsRows(b, raw, rows, existing, policy, expected, a);
      PlannedIs(a, rows[i], existing, policy);
    } else {
      forall r | r in WrittenRows(p, policy) ensures KeyOf(r) != KeyIn(rows[i]) {
        AcceptedIff(rows, existing.Keys, r);
      }
      ImportLeavesOtherPositions(b, raw, rows, existing, policy, expected, KeyIn(rows[i]));
    }
  }

  lemma PlannedIs(a: Accepted, row: RawRow, existing: map<Key, View>, policy: Option<ConflictPolicy>)
    requires Readable(row) && Carries(a.input, row) && KeyOf(a) == KeyIn(row)
    ensures var f := PlannedFields(a, existing, policy);
            if policy == Some(Update) && KeyIn(row) in existing then IsSum(f, existing[KeyIn(row)].fields, row) else IsRow(f, row)
  {
  }

  /** What the audit says about a row: its line and key, what was done, and, for a row that is written, what the
      position was and what it became; for a skipped one, twice what the planner read. */
  predicate Tells(
      audit: AuditRow, i: nat, row: RawRow, existing: map<Key, View>, policy: Option<ConflictPolicy>,
      before: Option<Fields>, after: Option<Fields>)
    requires Readable(row)
  {
    var key := KeyIn(row);
    && audit.line == i + 2 && audit.key == key
    && (if key !in existing then audit == AuditRow(i + 2, key, Created, before, after)
        else match policy
          case None => audit == AuditRow(i + 2, key, Skipped, Some(existing[key].fields), Some(existing[key].fields))
          case Some(Skip) => audit == AuditRow(i + 2, key, Skipped, Some(existing[key].fields), Some(existing[key].fields))
          case Some(Replace) => audit == AuditRow(i + 2, key, Replaced, before, after)
          case Some(Update) => audit == AuditRow(i + 2, key, Updated, before, after))
  }

  lemma AuditedAt(rows: seq<RawRow>, existing: map<Key, View>, i: nat) returns (k: nat)
    requires i < |rows| && Readable(rows[i]) && !Repeats(rows, i)
    ensures var p := PreviewOf(rows, existing.Keys);
            && k < |p.valid + p.conflicts| && (p.valid + p.conflicts)[k] == EntryOf(rows, i)
            && (k < |p.valid| <==> KeyIn(rows[i]) !in existing)
  {
    var p, a := PreviewOf(rows, existing.Keys), EntryOf(rows, i);
    FirstRowIsAccepted(rows, existing.Keys, i);
    hide PreviewOf, Readable, Repeats, Check;
    if KeyIn(rows[i]) in existing {
      var j :| 0 <= j < |p.conflicts| && p.conflicts[j] == a;
      k := |p.valid| + j;
    } else {
      k :| 0 <= k < |p.valid| && p.valid[k] == a;
    }
  }

  lemma PlannedRowIs(p: Preview, existing: map<Key, View>, policy: Option<ConflictPolicy>, k: nat)
    requires k < |p.valid + p.conflicts|
    ensures var a := (p.valid + p.conflicts)[k];
            PlannedRows(p, existing, policy)[k] == if k < |p.valid| || Writes(policy) then WrittenRow(a, existing, policy) else SkippedRow(a, existing)
  {
  }

  /** The audit of the batch has one row for it, which tells what became of it; the audit is filed under the text and
      the policy's name, and the claim points to it. */
  lemma RowIsAudited(
      b: Book, raw: string, rows: seq<RawRow>, existing: map<Key, View>, policy: Option<ConflictPolicy>,
      expected: Option<Fingerprint>, i: nat) returns (k: nat)
    requires PlanOf(PreviewOf(rows, existing.Keys), existing, policy).Ok?
    requires i < |rows| && Readable(rows[i]) && !Repeats(rows, i)
    ensures var b' := Committed(b, BatchFor(raw, rows, existing, policy, expected));
            && |b'.audits| == |b.audits| + 1 && k < |b'.audits[|b.audits|].rows|
            && Tells(b'.audits[|b.audits|].rows[k], i, rows[i], existing, policy,
                     FieldsAt(b.positions, KeyIn(rows[i])), FieldsAt(b'.positions, KeyIn(rows[i])))
  {
    var p := PreviewOf(rows, existing.Keys);
    k := AuditedAt(rows, existing, i);
    FirstRowIsAccepted(rows, existing.Keys, i);
    AuditIsTrueIff(b, raw, rows, existing, policy, expected, k);
    AuditRowIs(b, raw, rows, existing, policy, expected, k);
    PlannedRowIs(p, existing, policy, k);
    hide PreviewOf, Committed, BatchFor, Readable, Repeats, Check, PlanOf, PlannedRows, WrittenBy, PlannedFields;
  }

  lemma AuditIsFiled(
      b: Book, raw: string, rows: seq<RawRow>, existing: map<Key, View>, policy: Option<ConflictPolicy>, expected: Option<Fingerprint>)
    requires PlanOf(PreviewOf(rows, existing.Keys), existing, policy).Ok?
    ensures var b' := Committed(b, BatchFor(raw, rows, existing, policy, expected));
            var name := match policy case None => "NONE" case Some(Skip) => "SKIP" case Some(Replace) => "REPLACE" case Some(Update) => "UPDATE";
            && b'.audits[..|b.audits|] == b.audits && |b'.audits| == |b.audits| + 1
            && b'.audits[|b.audits|].importHash == raw + "|" + name && b'.audits[|b.audits|].policy == name
            && b'.claims == b.claims[raw + "|" + name := |b.audits|]
  {
    var plan := PlanOf(PreviewOf(rows, existing.Keys), existing, policy).value;
    ItemsKeepClaims(b, plan.items);
    hide PreviewOf, PlanOf, ApplyItems, WrittenBy, AuditedRows;
  }
}
