/** Optimistic versions of positions: which writes go through, and what that says about the writes in between. */
module VersionedWrites {
  import opened Options
  import opened PortfolioBook
  import opened PortfolioCsv

  /** A write goes through if and only if it names no version or the version its key is at, which is 0 for a key
      not held. It then replaces the fields, moves on the version and logs itself; otherwise nothing changes. */
  lemma WrittenIffVersionIsCurrent(b: Book, key: Key, f: Fields, expected: Option<nat>)
    ensures var version := if key in b.positions then b.positions[key].version else 0;
            var (b', ok) := Upsert(b, key, f, expected);
            && (ok <==> expected.None? || expected.value == version)
            && (!ok ==> b' == b)
            && (ok ==>
                  && b'.positions == b.positions[key := Position(f, version + 1)]
                  && b'.events == b.events + [Upserted(key, f.core, f.tactical, f.averageCost, f.coreReason, f.tacticalReason, f.operation)]
                  && b'.names == b.names && b'.claims == b.claims && b'.audits == b.audits)
  {
  }

  /** A step that writes the key: a manual entry for it that names no version or the current one, or an imported
      batch with an item for it. */
  predicate WritesTo(b: Book, op: Op, key: Key) {
    match op
    case Catalog(_) => false
    case Manual(i, _, expected) => i.key == key && (expected.None? || expected.value == VersionOf(b.positions, key))
    case Import(batch, current) =>
      ApplyBatch(b, batch, current).1 == Imported && exists item :: item in batch.items && item.identity.key == key
  }

  /** What the key holds, with its version. */
  function At(b: Book, key: Key): Option<Position> {
    if key in b.positions then Some(b.positions[key]) else None
  }

  lemma ItemMovesVersion(b: Book, item: Item, key: Key)
    ensures item.identity.key == key ==> VersionOf(b.positions, key) < VersionOf(ApplyItem(b, item).positions, key)
    ensures item.identity.key != key ==> At(ApplyItem(b, item), key) == At(b, key)
  {
  }

  lemma {:induction false} ItemsMoveVersion(b: Book, items: seq<Item>, key: Key)
    ensures if exists item :: item in items && item.identity.key == key
            then VersionOf(b.positions, key) < VersionOf(ApplyItems(b, items).positions, key)
            else At(ApplyItems(b, items), key) == At(b, key)
  {
    if items != [] {
      var n := |items| - 1;
      ItemsMoveVersion(b, items[..n], key);
      ItemMovesVersion(ApplyItems(b, items[..n]), items[n], key);
      assert items == items[..n] + [items[n]];
      hide ApplyItem;
    }
  }

  /** Exactly the writes move a version; every other step leaves the position as it is. */
  lemma VersionMovesIffWritten(b: Book, op: Op, key: Key)
    ensures WritesTo(b, op, key) ==> VersionOf(b.positions, key) < VersionOf(Step(b, op).positions, key)
    ensures !WritesTo(b, op, key) ==>
              At(Step(b, op), key) == At(b, key) && VersionOf(Step(b, op).positions, key) == VersionOf(b.positions, key)
  {
    if op.Import? {
      ItemsMoveVersion(b, op.batch.items, key);
    }
  }

  /** The book before step `k`. */
  function Before(ops: seq<Op>, k: nat): Book
    requires k <= |ops|
  {
    Run(EMPTY_BOOK, ops[..k])
  }

  lemma BeforeNext(ops: seq<Op>, k: nat)
    requires k < |ops|
    ensures Before(ops, k + 1) == Step(Before(ops, k), ops[k])
  {
    assert ops[..k + 1][..k] == ops[..k];
  }

  predicate WritesAt(ops: seq<Op>, k: nat, key: Key)
    requires k < |ops|
  {
    WritesTo(Before(ops, k), ops[k], key)
  }

  predicate Untouched(ops: seq<Op>, from: nat, to: nat, key: Key)
    requires from <= to <= |ops|
  {
    forall m :: from <= m < to ==> !WritesAt(ops, m, key)
  }

  lemma UntouchedNext(ops: seq<Op>, from: nat, to: nat, key: Key)
    requires from <= to <= |ops|
    ensures from == to ==> Untouched(ops, from, to, key)
    ensures from < to ==> (Untouched(ops, from, to, key) <==> Untouched(ops, from, to - 1, key) && !WritesAt(ops, to - 1, key))
  {
    hide WritesAt;
  }

  lemma VersionMovesAt(ops: seq<Op>, k: nat, key: Key)
    requires k < |ops|
    ensures WritesAt(ops, k, key) ==> VersionOf(Before(ops, k).positions, key) < VersionOf(Before(ops, k + 1).positions, key)
    ensures !WritesAt(ops, k, key) ==>
              && At(Before(ops, k + 1), key) == At(Before(ops, k), key)
              && VersionOf(Before(ops, k + 1).positions, key) == VersionOf(Before(ops, k).positions, key)
  {
    VersionMovesIffWritten(Before(ops, k), ops[k], key);
    BeforeNext(ops, k);
    hide WritesTo, Before, Step, VersionOf, At;
  }

  /** Between any two points of a run the version stays if and only if nothing writes the key; then so does the
      position. */
  lemma {:induction false} VersionTellsWhetherTouched(ops: seq<Op>, from: nat, to: nat, key: Key)
    requires from <= to <= |ops|
    ensures VersionOf(Before(ops, from).positions, key) <= VersionOf(Before(ops, to).positions, key)
    ensures VersionOf(Before(ops, from).positions, key) == VersionOf(Before(ops, to).positions, key) <==> Untouched(ops, from, to, key)
    ensures Untouched(ops, from, to, key) ==> At(Before(ops, from), key) == At(Before(ops, to), key)
  {
    hide WritesAt, Before, VersionOf, At, Untouched;
    UntouchedNext(ops, from, to, key);
    if from < to {
      VersionTellsWhetherTouched(ops, from, to - 1, key);
      VersionMovesAt(ops, to - 1, key);
    }
  }

  /** Step `k` is a manual entry for the key that names the version, and goes through. */
  predicate EntersAt(ops: seq<Op>, k: nat, key: Key, version: nat)
    requires k < |ops|
  {
    ops[k].Manual? && ops[k].identity.key == key && ops[k].expected == Some(version)
    && Upsert(Before(ops, k).(names := Catalogued(Before(ops, k).names, ops[k].identity)), key, ops[k].fields, Some(version)).1
  }

  /** In any run: an entry that names the version its writer read goes through if and only if no step since the
      read wrote the key; the position it replaces is then the one that was read. */
  lemma EntryGoesThroughIffUntouched(ops: seq<Op>, read: nat, k: nat, key: Key)
    requires read <= k < |ops| && ops[k].Manual? && ops[k].identity.key == key
    requires ops[k].expected == Some(VersionOf(Before(ops, read).positions, key))
    ensures EntersAt(ops, k, key, VersionOf(Before(ops, read).positions, key)) <==> Untouched(ops, read, k, key)
    ensures Untouched(ops, read, k, key) ==> At(Before(ops, k), key) == At(Before(ops, read), key)
  {
    VersionTellsWhetherTouched(ops, read, k, key);
    var named := Before(ops, k).(names := Catalogued(Before(ops, k).names, ops[k].identity));
    hide WritesTo, Before, Catalogued, Untouched;
    WrittenIffVersionIsCurrent(named, key, ops[k].fields, ops[k].expected);
  }

  /** So of all entries for one key that name the same version at most one goes through in any run. */
  lemma EntersOncePerVersion(ops: seq<Op>, j: nat, k: nat, key: Key, version: nat)
    requires j < |ops| && k < |ops| && EntersAt(ops, j, key, version) && EntersAt(ops, k, key, version)
    ensures j == k
  {
    if j < k {
      NoSecondEntry(ops, j, k, key, version);
    } else if k < j {
      NoSecondEntry(ops, k, j, key, version);
    }
  }

  lemma NoSecondEntry(ops: seq<Op>, j: nat, k: nat, key: Key, version: nat)
    requires j < k < |ops| && EntersAt(ops, j, key, version)
    ensures !EntersAt(ops, k, key, version)
  {
    var named := Before(ops, j).(names := Catalogued(Before(ops, j).names, ops[j].identity));
    WrittenIffVersionIsCurrent(named, key, ops[j].fields, Some(version));
    assert WritesAt(ops, j, key);
    if EntersAt(ops, k, key, version) {
      named := Before(ops, k).(names := Catalogued(Before(ops, k).names, ops[k].identity));
      WrittenIffVersionIsCurrent(named, key, ops[k].fields, Some(version));
      VersionTellsWhetherTouched(ops, j, k, key);
      assert false;
    }
  }
}
