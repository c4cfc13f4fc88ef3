/** Which rows of a file are accepted, and with what content, in terms of the rows' own fields. */
module CsvRows {
  import opened Options
  import opened PortfolioCsv

  /** All four fields can be read, no number is negative, and a cost is only given for a quantity. */
  predicate Readable(row: RawRow) {
    && row.identity.Read? && row.core.Read? && row.tactical.Read? && row.averageCost.Read?
    && 0.0 <= row.core.value && 0.0 <= row.tactical.value && 0.0 <= row.averageCost.value
    && (0.0 < row.core.value || 0.0 < row.tactical.value || row.averageCost.value == 0.0)
  }

  function KeyIn(row: RawRow): Key
    requires Readable(row)
  {
    row.identity.value.key
  }

  /** What a readable row says, as a manual position without bucket costs or reasons. */
  predicate Carries(input: PositionInput, row: RawRow)
    requires Readable(row)
  {
    && input.identity == row.identity.value
    && input.core == row.core.value && input.tactical == row.tactical.value && input.averageCost == row.averageCost.value
    && input.coreCost == None && input.tacticalCost == None
    && input.coreReason == "" && input.tacticalReason == "" && input.operation == "MANUAL"
  }

  const NEGATIVE := "quantities and average_cost must not be negative"
  const COST_OF_NOTHING := "zero quantity cannot carry a non-zero average cost"

  /** A row passes if and only if it is readable, and then carries what it says. Otherwise the first field that cannot
      be read gives the reason, or a negative number, or a cost without a quantity. */
  lemma PassesIffReadable(row: RawRow)
    ensures Check(row).Read? <==> Readable(row)
    ensures Readable(row) ==> Carries(Check(row).value, row)
    ensures row.identity.Unreadable? ==> Check(row) == Unreadable(row.identity.reason)
    ensures row.identity.Read? && row.core.Unreadable? ==> Check(row) == Unreadable(row.core.reason)
    ensures row.identity.Read? && row.core.Read? && row.tactical.Unreadable? ==> Check(row) == Unreadable(row.tactical.reason)
    ensures row.identity.Read? && row.core.Read? && row.tactical.Read? && row.averageCost.Unreadable? ==>
              Check(row) == Unreadable(row.averageCost.reason)
    ensures row.identity.Read? && row.core.Read? && row.tactical.Read? && row.averageCost.Read? && !Readable(row) ==>
              Check(row) == Unreadable(
                if row.core.value < 0.0 || row.tactical.value < 0.0 || row.averageCost.value < 0.0 then NEGATIVE else COST_OF_NOTHING)
  {
  }

  /** An earlier readable row has the row's key. */
  predicate Repeats(rows: seq<RawRow>, i: nat)
    requires i < |rows| && Readable(rows[i])
  {
    exists j :: 0 <= j < i && Readable(rows[j]) && KeyIn(rows[j]) == KeyIn(rows[i])
  }

  lemma HasKeyIff(row: RawRow, key: Key)
    ensures HasKey(row, key) <==> Readable(row) && KeyIn(row) == key
  {
    PassesIffReadable(row);
  }

  lemma RepeatsIff(rows: seq<RawRow>, i: nat)
    requires i < |rows| && Readable(rows[i])
    ensures Repeats(rows, i) <==> FirstWith(rows, KeyIn(rows[i])) < i
  {
    var key := KeyIn(rows[i]);
    hide HasKey, Readable, FirstWith;
    forall j | 0 <= j < |rows| ensures HasKey(rows[j], key) <==> Readable(rows[j]) && KeyIn(rows[j]) == key {
      HasKeyIff(rows[j], key);
    }
    if FirstWith(rows, key) < i {
      assert HasKey(rows[FirstWith(rows, key)], key);
    }
  }

  /** A row is invalid if and only if it is not readable; a readable one is a duplicate if and only if it repeats a
      key, and otherwise a conflict if and only if its key is held. */
  lemma VerdictIff(rows: seq<RawRow>, held: set<Key>, i: nat)
    requires i < |rows|
    ensures VerdictOf(rows, held, i) == InvalidRow <==> !Readable(rows[i])
    ensures Readable(rows[i]) ==>
              && (VerdictOf(rows, held, i) == DuplicateRow <==> Repeats(rows, i))
              && (VerdictOf(rows, held, i) == ConflictRow <==> !Repeats(rows, i) && KeyIn(rows[i]) in held)
              && (VerdictOf(rows, held, i) == ValidRow <==> !Repeats(rows, i) && KeyIn(rows[i]) !in held)
  {
    PassesIffReadable(rows[i]);
    if Readable(rows[i]) {
      RepeatsIff(rows, i);
    }
    hide Readable, FirstWith, Check, Repeats;
  }

  /** The row on the line; the first data line is line 2. */
  predicate OnLine(rows: seq<RawRow>, line: nat) {
    2 <= line < |rows| + 2
  }

  /** The row on the entry's line is readable, repeats no key, is held or not as asked, and the entry carries it. */
  predicate Belongs(rows: seq<RawRow>, held: set<Key>, a: Accepted, conflict: bool) {
    && OnLine(rows, a.line) && Readable(rows[a.line - 2]) && !Repeats(rows, a.line - 2)
    && (KeyIn(rows[a.line - 2]) in held <==> conflict) && Carries(a.input, rows[a.line - 2])
  }

  lemma PickedIff(rows: seq<RawRow>, held: set<Key>, v: Verdict, i: nat)
    ensures i in Picked(rows, held, |rows|, v) <==> i < |rows| && VerdictOf(rows, held, i) == v
  {
    PickedExactly(rows, held, |rows|, v);
    hide VerdictOf;
  }

  lemma AcceptedBelong(rows: seq<RawRow>, held: set<Key>, a: Accepted, conflict: bool)
    requires a in AcceptedUpTo(rows, held, |rows|, if conflict then ConflictRow else ValidRow)
    ensures Belongs(rows, held, a, conflict)
  {
    var v := if conflict then ConflictRow else ValidRow;
    var list, picked := AcceptedUpTo(rows, held, |rows|, v), Picked(rows, held, |rows|, v);
    AcceptedArePicked(rows, held, |rows|, v);
    hide AcceptedUpTo, Picked, VerdictOf, Check, Readable, Repeats, Carries;
    var k :| 0 <= k < |list| && list[k] == a;
    VerdictIff(rows, held, picked[k]);
    PassesIffReadable(rows[picked[k]]);
  }

  lemma BelongingAreAccepted(rows: seq<RawRow>, held: set<Key>, a: Accepted, conflict: bool)
    requires Belongs(rows, held, a, conflict)
    ensures a in AcceptedUpTo(rows, held, |rows|, if conflict then ConflictRow else ValidRow)
  {
    var v, i := if conflict then ConflictRow else ValidRow, a.line - 2;
    var list, picked := AcceptedUpTo(rows, held, |rows|, v), Picked(rows, held, |rows|, v);
    PassesIffReadable(rows[i]);
    VerdictIff(rows, held, i);
    PickedIff(rows, held, v, i);
    AcceptedArePicked(rows, held, |rows|, v);
    assert a == AcceptedRow(rows, i) by { hide Readable, Repeats, AcceptedUpTo, Picked, VerdictOf, Check; }
    hide AcceptedUpTo, Picked, VerdictOf, Check, Readable, Repeats, Carries, AcceptedRow;
    var k :| 0 <= k < |picked| && picked[k] == i;
    assert list[k] == a;
  }

  /** An entry is in the list of valid, or of conflicting, rows if and only if it belongs there. */
  lemma AcceptedIff(rows: seq<RawRow>, held: set<Key>, a: Accepted)
    ensures a in PreviewOf(rows, held).valid <==> Belongs(rows, held, a, false)
    ensures a in PreviewOf(rows, held).conflicts <==> Belongs(rows, held, a, true)
  {
    var p := PreviewOf(rows, held);
    if a in p.valid { AcceptedBelong(rows, held, a, false); }
    if a in p.conflicts { AcceptedBelong(rows, held, a, true); }
    if Belongs(rows, held, a, false) { BelongingAreAccepted(rows, held, a, false); }
    if Belongs(rows, held, a, true) { BelongingAreAccepted(rows, held, a, true); }
    hide AcceptedUpTo, RejectedUpTo, DuplicatesUpTo, Belongs;
  }

  lemma RejectedEntry(rows: seq<RawRow>, held: set<Key>, r: Rejected) returns (i: nat)
    requires r in RejectedUpTo(rows, held, |rows|)
    ensures i < |rows| && VerdictOf(rows, held, i) == InvalidRow && Check(rows[i]).Unreadable? && r == RejectedRow(rows, i)
  {
    var list := RejectedUpTo(rows, held, |rows|);
    RejectedArePicked(rows, held, |rows|);
    hide RejectedUpTo, Picked, VerdictOf, Check, RejectedRow;
    var k :| 0 <= k < |list| && list[k] == r;
    i := Picked(rows, held, |rows|, InvalidRow)[k];
  }

  lemma RejectedListed(rows: seq<RawRow>, held: set<Key>, i: nat)
    requires i < |rows| && VerdictOf(rows, held, i) == InvalidRow
    ensures RejectedRow(rows, i) in RejectedUpTo(rows, held, |rows|)
  {
    var list, picked := RejectedUpTo(rows, held, |rows|), Picked(rows, held, |rows|, InvalidRow);
    PickedIff(rows, held, InvalidRow, i);
    RejectedArePicked(rows, held, |rows|);
    assert Check(rows[i]).Unreadable?;
    hide RejectedUpTo, Picked, VerdictOf, Check, RejectedRow;
    var k :| 0 <= k < |picked| && picked[k] == i;
    assert list[k] == RejectedRow(rows, i);
  }

  predicate Explains(rows: seq<RawRow>, r: Rejected) {
    OnLine(rows, r.line) && !Readable(rows[r.line - 2]) && Check(rows[r.line - 2]) == Unreadable(r.reason)
  }

  /** An entry is in the list of invalid rows if and only if the row on its line is not readable and it gives the
      reason for that. */
  lemma RejectedIff(rows: seq<RawRow>, held: set<Key>, r: Rejected)
    ensures r in PreviewOf(rows, held).invalid <==> Explains(rows, r)
  {
    hide AcceptedUpTo, RejectedUpTo, DuplicatesUpTo, Readable, VerdictOf, Check;
    if r in PreviewOf(rows, held).invalid {
      var i := RejectedEntry(rows, held, r);
      PassesIffReadable(rows[i]);
    }
    if Explains(rows, r) {
      VerdictIff(rows, held, r.line - 2);
      RejectedListed(rows, held, r.line - 2);
    }
  }

  /** The row is readable and no row before it has its key. */
  predicate IsFirst(rows: seq<RawRow>, i: nat) {
    i < |rows| && Readable(rows[i]) && !Repeats(rows, i)
  }

  /** The row on the entry's line repeats the key that the row on the line it names is the first to have. */
  predicate NamesFirst(rows: seq<RawRow>, d: Duplicate) {
    && OnLine(rows, d.line) && OnLine(rows, d.firstLine) && d.firstLine < d.line
    && Readable(rows[d.line - 2]) && IsFirst(rows, d.firstLine - 2) && KeyIn(rows[d.firstLine - 2]) == KeyIn(rows[d.line - 2])
  }

  lemma DuplicateEntry(rows: seq<RawRow>, held: set<Key>, d: Duplicate) returns (i: nat)
    requires d in DuplicatesUpTo(rows, held, |rows|)
    ensures i < |rows| && VerdictOf(rows, held, i) == DuplicateRow && Check(rows[i]).Read? && d == DuplicateOf(rows, i)
  {
    var list := DuplicatesUpTo(rows, held, |rows|);
    DuplicatesArePicked(rows, held, |rows|);
    hide DuplicatesUpTo, Picked, VerdictOf, Check, DuplicateOf;
    var k :| 0 <= k < |list| && list[k] == d;
    i := Picked(rows, held, |rows|, DuplicateRow)[k];
  }

  lemma DuplicatesName(rows: seq<RawRow>, held: set<Key>, d: Duplicate)
    requires d in DuplicatesUpTo(rows, held, |rows|)
    ensures NamesFirst(rows, d)
  {
    hide DuplicatesUpTo, VerdictOf, Check, Readable, FirstWith, IsFirst, Repeats;
    var i := DuplicateEntry(rows, held, d);
    VerdictIff(rows, held, i);
    PassesIffReadable(rows[i]);
    FirstIsFirst(rows, i);
  }

  lemma NamingAreDuplicates(rows: seq<RawRow>, held: set<Key>, d: Duplicate)
    requires NamesFirst(rows, d)
    ensures d in DuplicatesUpTo(rows, held, |rows|)
  {
    var list, picked := DuplicatesUpTo(rows, held, |rows|), Picked(rows, held, |rows|, DuplicateRow);
    var i := d.line - 2;
    assert Repeats(rows, i) by { hide Readable; }
    hide Readable, FirstWith, IsFirst, Repeats, Check;
    VerdictIff(rows, held, i);
    PassesIffReadable(rows[i]);
    FirstIsFirst(rows, i);
    FirstIsOne(rows, FirstWith(rows, KeyIn(rows[i])), d.firstLine - 2);
    assert d == DuplicateOf(rows, i);
    DuplicatesArePicked(rows, held, |rows|);
    PickedIff(rows, held, DuplicateRow, i);
    hide DuplicatesUpTo, Picked, VerdictOf, DuplicateOf, NamesFirst;
    var k :| 0 <= k < |picked| && picked[k] == i;
    assert list[k] == d;
  }

  /** An entry is in the list of duplicates if and only if it names the first line of a repeated key. */
  lemma DuplicateIff(rows: seq<RawRow>, held: set<Key>, d: Duplicate)
    ensures d in PreviewOf(rows, held).duplicates <==> NamesFirst(rows, d)
  {
    if d in PreviewOf(rows, held).duplicates { DuplicatesName(rows, held, d); }
    if NamesFirst(rows, d) { NamingAreDuplicates(rows, held, d); }
    hide AcceptedUpTo, RejectedUpTo, DuplicatesUpTo, NamesFirst;
  }

  lemma FirstIsFirst(rows: seq<RawRow>, i: nat)
    requires i < |rows| && Readable(rows[i]) && Repeats(rows, i)
    ensures var first := FirstWith(rows, KeyIn(rows[i]));
            first < i && IsFirst(rows, first) && KeyIn(rows[first]) == KeyIn(rows[i])
  {
    var key := KeyIn(rows[i]);
    var first := FirstWith(rows, key);
    RepeatsIff(rows, i);
    hide HasKey, Readable, FirstWith;
    HasKeyIff(rows[first], key);
    forall j | 0 <= j < first ensures Readable(rows[j]) ==> KeyIn(rows[j]) != key {
      HasKeyIff(rows[j], key);
    }
  }

  lemma FirstIsOne(rows: seq<RawRow>, i: nat, j: nat)
    requires IsFirst(rows, i) && IsFirst(rows, j) && KeyIn(rows[i]) == KeyIn(rows[j])
    ensures i == j
  {
    hide Readable;
  }
}
