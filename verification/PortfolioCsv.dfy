/** Reading a portfolio CSV against the current holdings: every row gets exactly one verdict. */
module PortfolioCsv {
  import opened Options

  /** An instrument's natural key. */
  datatype Key = Key(market: string, symbol: string)

  datatype Identity = Identity(key: Key, name: string, assetType: string, currency: string, sector: string)

  datatype PositionInput = PositionInput(
    identity: Identity, core: real, tactical: real, averageCost: real,
    coreCost: Option<real>, tacticalCost: Option<real>,
    coreReason: string, tacticalReason: string, operation: string)

  /** A tokenized field as its own parser read it. */
  datatype Field<T> = Read(value: T) | Unreadable(reason: string)

  datatype RawRow = RawRow(identity: Field<Identity>, core: Field<real>, tactical: Field<real>, averageCost: Field<real>)

  datatype Accepted = Accepted(line: nat, input: PositionInput)
  datatype Rejected = Rejected(line: nat, reason: string)
  datatype Duplicate = Duplicate(line: nat, firstLine: nat)

  datatype Preview = Preview(
    totalRows: nat, valid: seq<Accepted>, invalid: seq<Rejected>, duplicates: seq<Duplicate>, conflicts: seq<Accepted>)

  const FIRST_DATA_LINE: nat := 2

  /** Validation of one row on its own; the first failing check gives the reason. */
  function Check(row: RawRow): Field<PositionInput> {
    match row
    case RawRow(Unreadable(reason), _, _, _) => Unreadable(reason)
    case RawRow(_, Unreadable(reason), _, _) => Unreadable(reason)
    case RawRow(_, _, Unreadable(reason), _) => Unreadable(reason)
    case RawRow(_, _, _, Unreadable(reason)) => Unreadable(reason)
    case RawRow(Read(identity), Read(core), Read(tactical), Read(cost)) =>
      if core < 0.0 || tactical < 0.0 || cost < 0.0 then Unreadable("quantities and average_cost must not be negative")
      else if core + tactical == 0.0 && cost != 0.0 then Unreadable("zero quantity cannot carry a non-zero average cost")
      else Read(PositionInput(identity, core, tactical, cost, None, None, "", "", "MANUAL"))
  }

  // ---------------------------------------------------------------------------------------------
  // What each row's verdict should be
  // ---------------------------------------------------------------------------------------------

  datatype Verdict = ValidRow | InvalidRow | DuplicateRow | ConflictRow

  predicate HasKey(row: RawRow, key: Key) {
    Check(row).Read? && Check(row).value.identity.key == key
  }

  /** The first well-formed row with the key, or the number of rows if there is none. */
  function FirstWith(rows: seq<RawRow>, key: Key): (i: nat)
    ensures i <= |rows|
    ensures i < |rows| ==> HasKey(rows[i], key)
    ensures forall j :: 0 <= j < i ==> !HasKey(rows[j], key)
  {
    if rows == [] then 0
    else if HasKey(rows[0], key) then 0
    else 1 + FirstWith(rows[1..], key)
  }

  function VerdictOf(rows: seq<RawRow>, held: set<Key>, i: nat): Verdict
    requires i < |rows|
  {
    match Check(rows[i])
    case Unreadable(_) => InvalidRow
    case Read(input) =>
      if FirstWith(rows, input.identity.key) < i then DuplicateRow
      else if input.identity.key in held then ConflictRow
      else ValidRow
  }

  /** The rows among the first `n` with the given verdict, in file order. */
  function Picked(rows: seq<RawRow>, held: set<Key>, n: nat, v: Verdict): (picked: seq<nat>)
    requires n <= |rows|
    ensures forall i :: i in picked ==> i < n && VerdictOf(rows, held, i) == v
  {
    if n == 0 then []
    else
      var before := Picked(rows, held, n - 1, v);
      if VerdictOf(rows, held, n - 1) == v then before + [n - 1] else before
  }

  function AcceptedRow(rows: seq<RawRow>, i: nat): Accepted
    requires i < |rows| && Check(rows[i]).Read?
  {
    Accepted(i + FIRST_DATA_LINE, Check(rows[i]).value)
  }

  function RejectedRow(rows: seq<RawRow>, i: nat): Rejected
    requires i < |rows| && Check(rows[i]).Unreadable?
  {
    Rejected(i + FIRST_DATA_LINE, Check(rows[i]).reason)
  }

  function DuplicateOf(rows: seq<RawRow>, i: nat): Duplicate
    requires i < |rows| && Check(rows[i]).Read?
  {
    Duplicate(i + FIRST_DATA_LINE, FirstWith(rows, Check(rows[i]).value.identity.key) + FIRST_DATA_LINE)
  }

  function AcceptedUpTo(rows: seq<RawRow>, held: set<Key>, n: nat, v: Verdict): seq<Accepted>
    requires n <= |rows| && v in {ValidRow, ConflictRow}
  {
    if n == 0 then []
    else
      AcceptedUpTo(rows, held, n - 1, v) +
      if VerdictOf(rows, held, n - 1) == v then [AcceptedRow(rows, n - 1)] else []
  }

  function RejectedUpTo(rows: seq<RawRow>, held: set<Key>, n: nat): seq<Rejected>
    requires n <= |rows|
  {
    if n == 0 then []
    else
      RejectedUpTo(rows, held, n - 1) +
      if VerdictOf(rows, held, n - 1) == InvalidRow then [RejectedRow(rows, n - 1)] else []
  }

  function DuplicatesUpTo(rows: seq<RawRow>, held: set<Key>, n: nat): seq<Duplicate>
    requires n <= |rows|
  {
    if n == 0 then []
    else
      DuplicatesUpTo(rows, held, n - 1) +
      if VerdictOf(rows, held, n - 1) == DuplicateRow then [DuplicateOf(rows, n - 1)] else []
  }

  /** The preview that the first `n` rows deserve, list by list. */
  function PreviewUpTo(rows: seq<RawRow>, held: set<Key>, n: nat): Preview
    requires n <= |rows|
  {
    Preview(n,
            AcceptedUpTo(rows, held, n, ValidRow),
            RejectedUpTo(rows, held, n),
            DuplicatesUpTo(rows, held, n),
            AcceptedUpTo(rows, held, n, ConflictRow))
  }

  function PreviewOf(rows: seq<RawRow>, held: set<Key>): Preview {
    PreviewUpTo(rows, held, |rows|)
  }

  /** The preview after row `i`, from the preview before it. */
  function AddRow(p: Preview, rows: seq<RawRow>, held: set<Key>, i: nat): Preview
    requires i < |rows|
  {
    match VerdictOf(rows, held, i)
    case InvalidRow => p.(totalRows := i + 1, invalid := p.invalid + [RejectedRow(rows, i)])
    case DuplicateRow => p.(totalRows := i + 1, duplicates := p.duplicates + [DuplicateOf(rows, i)])
    case ConflictRow => p.(totalRows := i + 1, conflicts := p.conflicts + [AcceptedRow(rows, i)])
    case ValidRow => p.(totalRows := i + 1, valid := p.valid + [AcceptedRow(rows, i)])
  }

  lemma AddRowIsNext(rows: seq<RawRow>, held: set<Key>, i: nat)
    requires i < |rows|
    ensures PreviewUpTo(rows, held, i + 1) == AddRow(PreviewUpTo(rows, held, i), rows, held, i)
  {
    hide AcceptedRow, RejectedRow, DuplicateOf, VerdictOf;
  }

  /** `seen` holds exactly the keys of well-formed rows before row `i`, with their first lines. */
  ghost predicate SeenBefore(rows: seq<RawRow>, seen: map<Key, nat>, i: nat) {
    && (forall key :: key in seen <==> FirstWith(rows, key) < i)
    && (forall key :: key in seen ==> seen[key] == FirstWith(rows, key) + FIRST_DATA_LINE)
  }

  lemma SeenAfterRow(rows: seq<RawRow>, seen: map<Key, nat>, i: nat)
    requires i < |rows| && SeenBefore(rows, seen, i)
    ensures Check(rows[i]).Unreadable? ==> SeenBefore(rows, seen, i + 1)
    ensures Check(rows[i]).Read? ==>
              var key := Check(rows[i]).value.identity.key;
              SeenBefore(rows, if key in seen then seen else seen[key := i + FIRST_DATA_LINE], i + 1)
  {
    hide Check, FirstWith;
    forall key ensures FirstWith(rows, key) <= i <==> FirstWith(rows, key) < i || HasKey(rows[i], key) {
      FirstAt(rows, i, key);
    }
  }

  lemma FirstAt(rows: seq<RawRow>, i: nat, key: Key)
    requires i < |rows|
    ensures FirstWith(rows, key) <= i <==> FirstWith(rows, key) < i || HasKey(rows[i], key)
  {
    hide HasKey;
  }

  /** One pass over the rows, remembering the line of every key already seen. */
  method ParsePortfolioCsv(rows: seq<RawRow>, held: set<Key>) returns (p: Preview)
    ensures p == PreviewOf(rows, held)
  {
    hide SeenBefore, PreviewUpTo;
    var seen: map<Key, nat> := map[];
    p := Preview(0, [], [], [], []);
    assert SeenBefore(rows, seen, 0) && p == PreviewUpTo(rows, held, 0) by { NothingRead(rows, held); }
    for i := 0 to |rows|
      invariant SeenBefore(rows, seen, i)
      invariant p == PreviewUpTo(rows, held, i)
    {
      SeenAfterRow(rows, seen, i);
      AddRowIsNext(rows, held, i);
      var line := i + FIRST_DATA_LINE;
      match Check(rows[i]) {
        case Unreadable(reason) =>
          p := p.(totalRows := i + 1, invalid := p.invalid + [Rejected(line, reason)]);
        case Read(input) =>
          var key := input.identity.key;
          SeenIsFirst(rows, seen, i, key);
          if key in seen {
            p := p.(totalRows := i + 1, duplicates := p.duplicates + [Duplicate(line, seen[key])]);
          } else {
            seen := seen[key := line];
            if key in held {
              p := p.(totalRows := i + 1, conflicts := p.conflicts + [Accepted(line, input)]);
            } else {
              p := p.(totalRows := i + 1, valid := p.valid + [Accepted(line, input)]);
            }
          }
      }
    }
  }

  lemma NothingRead(rows: seq<RawRow>, held: set<Key>)
    ensures SeenBefore(rows, map[], 0) && PreviewUpTo(rows, held, 0) == Preview(0, [], [], [], [])
  {
  }

  lemma SeenIsFirst(rows: seq<RawRow>, seen: map<Key, nat>, i: nat, key: Key)
    requires SeenBefore(rows, seen, i)
    ensures key in seen <==> FirstWith(rows, key) < i
    ensures key in seen ==> seen[key] == FirstWith(rows, key) + FIRST_DATA_LINE
  {
  }

  // ---------------------------------------------------------------------------------------------
  // What a preview tells
  // ---------------------------------------------------------------------------------------------

  lemma {:induction false} PickedMembers(rows: seq<RawRow>, held: set<Key>, n: nat, v: Verdict)
    requires n <= |rows|
    ensures forall i :: i in Picked(rows, held, n, v) <==> 0 <= i < n && VerdictOf(rows, held, i) == v
  {
    hide VerdictOf;
    if n > 0 {
      PickedMembers(rows, held, n - 1, v);
    }
  }

  /** Each list holds exactly the rows with its verdict, once each and in file order. */
  lemma {:induction false} PickedExactly(rows: seq<RawRow>, held: set<Key>, n: nat, v: Verdict)
    requires n <= |rows|
    ensures var picked := Picked(rows, held, n, v);
            && (forall i :: i in picked <==> 0 <= i < n && VerdictOf(rows, held, i) == v)
            && (forall a, b :: 0 <= a < b < |picked| ==> picked[a] < picked[b])
  {
    hide VerdictOf;
    PickedMembers(rows, held, n, v);
    if n > 0 {
      PickedExactly(rows, held, n - 1, v);
      var before, picked := Picked(rows, held, n - 1, v), Picked(rows, held, n, v);
      forall a, b | 0 <= a < b < |picked| ensures picked[a] < picked[b] {
        assert picked[a] in before;
      }
    }
  }

  lemma {:induction false} AcceptedArePicked(rows: seq<RawRow>, held: set<Key>, n: nat, v: Verdict)
    requires n <= |rows| && v in {ValidRow, ConflictRow}
    ensures var picked, list := Picked(rows, held, n, v), AcceptedUpTo(rows, held, n, v);
            |list| == |picked| && forall k :: 0 <= k < |list| ==>
              picked[k] < n && VerdictOf(rows, held, picked[k]) == v && Check(rows[picked[k]]).Read? &&
              list[k] == AcceptedRow(rows, picked[k])
  {
    hide AcceptedRow;
    if n > 0 {
      AcceptedArePicked(rows, held, n - 1, v);
    }
  }

  lemma {:induction false} DuplicatesArePicked(rows: seq<RawRow>, held: set<Key>, n: nat)
    requires n <= |rows|
    ensures var picked, list := Picked(rows, held, n, DuplicateRow), DuplicatesUpTo(rows, held, n);
            |list| == |picked| && forall k :: 0 <= k < |list| ==>
              picked[k] < n && VerdictOf(rows, held, picked[k]) == DuplicateRow && Check(rows[picked[k]]).Read? &&
              list[k] == DuplicateOf(rows, picked[k])
  {
    hide DuplicateOf;
    if n > 0 {
      DuplicatesArePicked(rows, held, n - 1);
    }
  }

  lemma {:induction false} RejectedArePicked(rows: seq<RawRow>, held: set<Key>, n: nat)
    requires n <= |rows|
    ensures var picked, list := Picked(rows, held, n, InvalidRow), RejectedUpTo(rows, held, n);
            |list| == |picked| && forall k :: 0 <= k < |list| ==>
              picked[k] < n && VerdictOf(rows, held, picked[k]) == InvalidRow && Check(rows[picked[k]]).Unreadable? &&
              list[k] == RejectedRow(rows, picked[k])
  {
    hide RejectedRow, Check, FirstWith;
    if n > 0 {
      RejectedArePicked(rows, held, n - 1);
    }
  }

  predicate AcceptedFrom(rows: seq<RawRow>, picked: seq<nat>, list: seq<Accepted>) {
    |list| == |picked| && forall k :: 0 <= k < |list| ==>
      picked[k] < |rows| && Check(rows[picked[k]]).Read? && list[k] == AcceptedRow(rows, picked[k])
  }

  predicate RejectedFrom(rows: seq<RawRow>, picked: seq<nat>, list: seq<Rejected>) {
    |list| == |picked| && forall k :: 0 <= k < |list| ==>
      picked[k] < |rows| && Check(rows[picked[k]]).Unreadable? && list[k] == RejectedRow(rows, picked[k])
  }

  predicate DuplicatesFrom(rows: seq<RawRow>, picked: seq<nat>, list: seq<Duplicate>) {
    |list| == |picked| && forall k :: 0 <= k < |list| ==>
      picked[k] < |rows| && Check(rows[picked[k]]).Read? && list[k] == DuplicateOf(rows, picked[k])
  }

  /** Each of the four lists of a preview is made, entry by entry, from the picked rows of its verdict. */
  lemma ListsAreTheirRows(rows: seq<RawRow>, held: set<Key>)
    ensures var p := PreviewOf(rows, held);
            && AcceptedFrom(rows, Picked(rows, held, |rows|, ValidRow), p.valid)
            && RejectedFrom(rows, Picked(rows, held, |rows|, InvalidRow), p.invalid)
            && DuplicatesFrom(rows, Picked(rows, held, |rows|, DuplicateRow), p.duplicates)
            && AcceptedFrom(rows, Picked(rows, held, |rows|, ConflictRow), p.conflicts)
  {
    AcceptedArePicked(rows, held, |rows|, ValidRow);
    RejectedArePicked(rows, held, |rows|);
    DuplicatesArePicked(rows, held, |rows|);
    AcceptedArePicked(rows, held, |rows|, ConflictRow);
    hide Picked, AcceptedUpTo, RejectedUpTo, DuplicatesUpTo, Check, VerdictOf;
  }

  lemma {:induction false} ListCounts(rows: seq<RawRow>, held: set<Key>, n: nat)
    requires n <= |rows|
    ensures |AcceptedUpTo(rows, held, n, ValidRow)| + |RejectedUpTo(rows, held, n)|
            + |DuplicatesUpTo(rows, held, n)| + |AcceptedUpTo(rows, held, n, ConflictRow)| == n
  {
    hide VerdictOf, AcceptedRow, RejectedRow, DuplicateOf;
    if n > 0 {
      ListCounts(rows, held, n - 1);
    }
  }

  /** The four lists together account for every row. */
  lemma PreviewCounts(rows: seq<RawRow>, held: set<Key>)
    ensures var p := PreviewOf(rows, held);
            |p.valid| + |p.invalid| + |p.duplicates| + |p.conflicts| == p.totalRows == |rows|
  {
    ListCounts(rows, held, |rows|);
  }

  function KeyOf(a: Accepted): Key {
    a.input.identity.key
  }

  /** The row behind an accepted entry: its line, its content and its verdict. */
  lemma AcceptedStands(rows: seq<RawRow>, held: set<Key>, v: Verdict, k: nat) returns (i: nat)
    requires v in {ValidRow, ConflictRow} && k < |AcceptedUpTo(rows, held, |rows|, v)|
    ensures var a := AcceptedUpTo(rows, held, |rows|, v)[k];
            && i < |rows| && VerdictOf(rows, held, i) == v && Check(rows[i]) == Read(a.input)
            && a.line == i + FIRST_DATA_LINE && FirstWith(rows, KeyOf(a)) == i
            && (KeyOf(a) in held <==> v == ConflictRow)
    ensures k < |Picked(rows, held, |rows|, v)| && i == Picked(rows, held, |rows|, v)[k]
  {
    AcceptedArePicked(rows, held, |rows|, v);
    i := Picked(rows, held, |rows|, v)[k];
    assert HasKey(rows[i], Check(rows[i]).value.identity.key);
  }

  /** No key is accepted twice, neither within a list nor across the two. */
  lemma AcceptedKeysDistinct(rows: seq<RawRow>, held: set<Key>, j: nat, k: nat)
    requires var p := PreviewOf(rows, held); j < k < |p.valid + p.conflicts|
    ensures var p := PreviewOf(rows, held); KeyOf((p.valid + p.conflicts)[j]) != KeyOf((p.valid + p.conflicts)[k])
  {
    var m := |PreviewOf(rows, held).valid|;
    hide VerdictOf, AcceptedUpTo, RejectedUpTo, DuplicatesUpTo, Picked, FirstWith;
    if k < m {
      ListKeysDistinct(rows, held, ValidRow, j, k);
    } else if m <= j {
      ListKeysDistinct(rows, held, ConflictRow, j - m, k - m);
    } else {
      var a := AcceptedStands(rows, held, ValidRow, j);
      var b := AcceptedStands(rows, held, ConflictRow, k - m);
    }
  }

  lemma ListKeysDistinct(rows: seq<RawRow>, held: set<Key>, v: Verdict, j: nat, k: nat)
    requires v in {ValidRow, ConflictRow} && j < k < |AcceptedUpTo(rows, held, |rows|, v)|
    ensures KeyOf(AcceptedUpTo(rows, held, |rows|, v)[j]) != KeyOf(AcceptedUpTo(rows, held, |rows|, v)[k])
  {
    hide VerdictOf, AcceptedUpTo, Picked, FirstWith;
    var a := AcceptedStands(rows, held, v, j);
    var b := AcceptedStands(rows, held, v, k);
    PickedExactly(rows, held, |rows|, v);
    assert a < b;
  }

  /** A duplicate names the earlier line on which its key was first well-formed. */
  lemma DuplicatesNameTheFirstLine(rows: seq<RawRow>, held: set<Key>, k: nat) returns (i: nat, first: nat)
    requires k < |PreviewOf(rows, held).duplicates|
    ensures first < i < |rows| && Check(rows[i]).Read? && VerdictOf(rows, held, i) == DuplicateRow
    ensures PreviewOf(rows, held).duplicates[k] == Duplicate(i + FIRST_DATA_LINE, first + FIRST_DATA_LINE)
    ensures HasKey(rows[first], Check(rows[i]).value.identity.key)
    ensures VerdictOf(rows, held, first) in {ValidRow, ConflictRow}
  {
    DuplicatesArePicked(rows, held, |rows|);
    i := Picked(rows, held, |rows|, DuplicateRow)[k];
    first := FirstWith(rows, Check(rows[i]).value.identity.key);
  }
}
