/**
 The position book of one portfolio: versioned positions, the event log written with them, import
 claims and import audits. The portfolio row lock makes each operation one step.
 */
module PortfolioBook {
  import opened Options
  import opened PortfolioCsv

  datatype Fields = Fields(
    core: real, tactical: real, averageCost: real, coreCost: real, tacticalCost: real,
    coreReason: string, tacticalReason: string, operation: string)

  datatype Position = Position(fields: Fields, version: nat)

  /** A `portfolio.position_upserted` payload. It carries neither bucket costs nor the version. */
  datatype Event = Upserted(
    key: Key, core: real, tactical: real, averageCost: real,
    coreReason: string, tacticalReason: string, operation: string)

  datatype Action = Created | Replaced | Updated | Skipped

  datatype AuditRow = AuditRow(line: nat, key: Key, action: Action, before: Option<Fields>, after: Option<Fields>)

  datatype Audit = Audit(importHash: string, policy: string, rows: seq<AuditRow>)

  /** `names` is the instrument catalog, `claims` maps an import hash to its audit. */
  datatype Book = Book(
    positions: map<Key, Position>, names: map<Key, string>, events: seq<Event>,
    claims: map<string, nat>, audits: seq<Audit>)

  const EMPTY_BOOK := Book(map[], map[], [], map[], [])

  // ---------------------------------------------------------------------------------------------
  // Single writes
  // ---------------------------------------------------------------------------------------------

  function ResolveCost(given: Option<real>, averageCost: real, quantity: real): real {
    if given.Some? then given.value else if quantity != 0.0 then averageCost else 0.0
  }

  /** The position fields an input stands for. */
  function FieldsOf(i: PositionInput): Fields {
    Fields(i.core, i.tactical, i.averageCost,
           ResolveCost(i.coreCost, i.averageCost, i.core), ResolveCost(i.tacticalCost, i.averageCost, i.tactical),
           i.coreReason, i.tacticalReason, i.operation)
  }

  function VersionOf(positions: map<Key, Position>, key: Key): nat {
    if key in positions then positions[key].version else 0
  }

  function FieldsAt(positions: map<Key, Position>, key: Key): Option<Fields> {
    if key in positions then Some(positions[key].fields) else None
  }

  function EventOf(key: Key, f: Fields): Event {
    Upserted(key, f.core, f.tactical, f.averageCost, f.coreReason, f.tacticalReason, f.operation)
  }

  /** Puts the fields under the next version and logs the event. */
  function Write(b: Book, key: Key, f: Fields): Book {
    b.(positions := b.positions[key := Position(f, VersionOf(b.positions, key) + 1)],
       events := b.events + [EventOf(key, f)])
  }

  predicate VersionAccepted(b: Book, key: Key, expected: Option<nat>) {
    if key in b.positions then expected.None? || expected.value == b.positions[key].version
    else expected.None? || expected.value == 0
  }

  function Upsert(b: Book, key: Key, f: Fields, expected: Option<nat>): (Book, bool) {
    if VersionAccepted(b, key, expected) then (Write(b, key, f), true) else (b, false)
  }

  /** Catalog entries are created or their blank names filled, never renamed. */
  function Catalogued(names: map<Key, string>, i: Identity): map<Key, string> {
    if i.key in names && names[i.key] != "" then names else names[i.key := i.name]
  }

  // ---------------------------------------------------------------------------------------------
  // The fingerprint of the holdings
  // ---------------------------------------------------------------------------------------------

  datatype View = View(fields: Fields, name: string)

  function NameAt(names: map<Key, string>, key: Key): string {
    if key in names then names[key] else ""
  }

  function ViewOf(b: Book): map<Key, View> {
    map key | key in b.positions :: View(b.positions[key].fields, NameAt(b.names, key))
  }

  /** The hashed payload is a dictionary under a text key. The hash itself is taken to be injective, so
      a fingerprint is represented by its payload. */
  type Fingerprint = map<string, View>

  function KeyText(key: Key): string {
    key.market + "|" + key.symbol
  }

  /** `m` is a dictionary that some order of inserting the view's entries produces. */
  ghost predicate IsFingerprint(view: map<Key, View>, m: Fingerprint) {
    && (forall key :: key in view ==> KeyText(key) in m)
    && (forall text :: text in m ==> exists key :: key in view && KeyText(key) == text && m[text] == view[key])
  }

  // ---------------------------------------------------------------------------------------------
  // Import batches
  // ---------------------------------------------------------------------------------------------

  datatype Item = Item(identity: Identity, fields: Fields)

  datatype Batch = Batch(
    importHash: string, policy: string, items: seq<Item>, planned: seq<AuditRow>, expected: Option<Fingerprint>)

  function ApplyItem(b: Book, item: Item): Book {
    Write(b.(names := Catalogued(b.names, item.identity)), item.identity.key, item.fields)
  }

  function ApplyItems(b: Book, items: seq<Item>): Book {
    if items == [] then b else ApplyItem(ApplyItems(b, items[..|items| - 1]), items[|items| - 1])
  }

  datatype Written = Written(before: Option<Fields>, after: Option<Fields>)

  /** What each written key held right before and right after its (last) write. */
  function WrittenBy(b: Book, items: seq<Item>): map<Key, Written> {
    if items == [] then map[]
    else
      var prefix, last := items[..|items| - 1], items[|items| - 1];
      WrittenBy(b, prefix)[last.identity.key :=
        Written(FieldsAt(ApplyItems(b, prefix).positions, last.identity.key), Some(last.fields))]
  }

  function AuditedRow(written: map<Key, Written>, row: AuditRow): AuditRow {
    if row.key in written then row.(before := written[row.key].before, after := written[row.key].after)
    else row.(after := row.before)
  }

  function AuditedRows(written: map<Key, Written>, planned: seq<AuditRow>): seq<AuditRow> {
    seq(|planned|, i requires 0 <= i < |planned| => AuditedRow(written, planned[i]))
  }

  datatype BatchOutcome = Imported | AlreadyImported | PositionsChanged

  /** The book after a batch that passes both checks. */
  function Committed(b: Book, batch: Batch): Book {
    var written := ApplyItems(b, batch.items);
    written.(claims := b.claims[batch.importHash := |b.audits|],
             audits := b.audits + [Audit(batch.importHash, batch.policy,
                                         AuditedRows(WrittenBy(b, batch.items), batch.planned))])
  }

  function ApplyBatch(b: Book, batch: Batch, current: Fingerprint): (Book, BatchOutcome) {
    if batch.importHash in b.claims then (b, AlreadyImported)
    else if batch.expected.Some? && batch.expected.value != current then (b, PositionsChanged)
    else (Committed(b, batch), Imported)
  }

  // ---------------------------------------------------------------------------------------------
  // The adapter as an object
  // ---------------------------------------------------------------------------------------------

  class Adapter {
    var positions: map<Key, Position>
    var names: map<Key, string>
    var events: seq<Event>
    var claims: map<string, nat>
    var audits: seq<Audit>

    constructor ()
      ensures State() == EMPTY_BOOK
    {
      positions, names, events, claims, audits := map[], map[], [], map[], [];
    }

    ghost function State(): Book
      reads this
    {
      Book(positions, names, events, claims, audits)
    }

    /** The holdings' fingerprint, built row by row in the order the database returns them. */
    method PositionsFingerprint(rows: seq<Key>) returns (m: Fingerprint)
      requires forall key :: key in rows <==> key in positions
      ensures IsFingerprint(ViewOf(State()), m)
    {
      m := map[];
      for i := 0 to |rows|
        invariant forall j :: 0 <= j < i ==> KeyText(rows[j]) in m
        invariant forall text :: text in m ==>
                    exists key :: key in positions && KeyText(key) == text && m[text] == ViewOf(State())[key]
      {
        assert rows[i] in rows;
        m := m[KeyText(rows[i]) := View(positions[rows[i]].fields, NameAt(names, rows[i]))];
      }
    }

    method UpsertPosition(key: Key, f: Fields, expected: Option<nat>) returns (ok: bool)
      modifies this`positions, this`events
      ensures (State(), ok) == Upsert(old(State()), key, f, expected)
      ensures ok <==> expected.None? || expected.value == VersionOf(old(positions), key)
      ensures !ok ==> State() == old(State())
    {
      if key !in positions {
        if expected.Some? && expected.value != 0 {
          return false;
        }
        positions := positions[key := Position(f, 1)];
      } else {
        var record := positions[key];
        if expected.Some? && record.version != expected.value {
          return false;
        }
        positions := positions[key := Position(f, record.version + 1)];
      }
      events := events + [EventOf(key, f)];
      assert VersionAccepted(old(State()), key, expected);
      assert State() == Write(old(State()), key, f);
      ok := true;
    }

    method CatalogUpsert(i: Identity)
      modifies this`names
      ensures names == Catalogued(old(names), i)
    {
      if i.key !in names || names[i.key] == "" {
        names := names[i.key := i.name];
      }
    }

    /** One item of a batch, under the version just read. Its write cannot be refused. */
    method WriteItem(item: Item) returns (w: Written)
      modifies this`names, this`positions, this`events
      ensures State() == ApplyItem(old(State()), item)
      ensures w == Written(FieldsAt(old(positions), item.identity.key), Some(item.fields))
    {
      CatalogUpsert(item.identity);
      var key := item.identity.key;
      var before := FieldsAt(positions, key);
      var expected := if key in positions then Some(positions[key].version) else None;
      var ok := UpsertPosition(key, item.fields, expected);
      assert ok;
      w := Written(before, FieldsAt(positions, key));
    }

    /** The batch's writes, in order, with what each key held before and after. */
    method WriteItems(items: seq<Item>) returns (written: map<Key, Written>)
      modifies this`names, this`positions, this`events
      ensures State() == ApplyItems(old(State()), items)
      ensures written == WrittenBy(old(State()), items)
    {
      ghost var start := State();
      written := map[];
      for i := 0 to |items|
        invariant claims == old(claims) && audits == old(audits)
        invariant State() == ApplyItems(start, items[..i])
        invariant written == WrittenBy(start, items[..i])
      {
        var w := WriteItem(items[i]);
        written := written[items[i].identity.key := w];
        assert items[..i + 1][..i] == items[..i];
      }
      assert items[..|items|] == items;
    }

    /** The audit rows, rebuilt from what the writes did. */
    method AuditItems(written: map<Key, Written>, planned: seq<AuditRow>) returns (audited: seq<AuditRow>)
      ensures audited == AuditedRows(written, planned)
    {
      audited := [];
      for i := 0 to |planned|
        invariant audited == AuditedRows(written, planned)[..i]
      {
        audited := audited + [AuditedRow(written, planned[i])];
      }
    }

    /** Claim check, fingerprint check, the writes, the audit rebuilt from what they did, the claim. */
    method ApplyImportBatch(batch: Batch, rows: seq<Key>) returns (outcome: BatchOutcome, ghost current: Fingerprint)
      requires forall key :: key in rows <==> key in positions
      modifies this
      ensures IsFingerprint(ViewOf(old(State())), current)
      ensures (State(), outcome) == ApplyBatch(old(State()), batch, current)
    {
      hide IsFingerprint, ApplyItems, WrittenBy, AuditedRows;
      var fingerprint := PositionsFingerprint(rows);
      current := fingerprint;
      if batch.importHash in claims {
        outcome := AlreadyImported;
      } else if batch.expected.Some? && batch.expected.value != fingerprint {
        outcome := PositionsChanged;
      } else {
        var written := WriteItems(batch.items);
        var audited := AuditItems(written, batch.planned);
        ItemsKeepClaims(old(State()), batch.items);
        claims := claims[batch.importHash := |audits|];
        audits := audits + [Audit(batch.importHash, batch.policy, audited)];
        outcome := Imported;
        assert State() == Committed(old(State()), batch);
      }
    }
  }

  // ---------------------------------------------------------------------------------------------
  // The event log
  // ---------------------------------------------------------------------------------------------

  /** What the log says a position is. */
  datatype Projection = Projection(
    core: real, tactical: real, averageCost: real, coreReason: string, tacticalReason: string, operation: string)

  function ProjectionOf(f: Fields): Projection {
    Projection(f.core, f.tactical, f.averageCost, f.coreReason, f.tacticalReason, f.operation)
  }

  function Replay(events: seq<Event>): map<Key, Projection> {
    if events == [] then map[]
    else
      var e := events[|events| - 1];
      Replay(events[..|events| - 1])[
        e.key := Projection(e.core, e.tactical, e.averageCost, e.coreReason, e.tacticalReason, e.operation)]
  }

  function EventCount(events: seq<Event>, key: Key): nat {
    if events == [] then 0
    else EventCount(events[..|events| - 1], key) + if events[|events| - 1].key == key then 1 else 0
  }

  /** Folding the log rebuilds every position, and each version counts the position's events. */
  ghost predicate LogExplainsBook(b: Book) {
    && Replay(b.events) == (map key | key in b.positions :: ProjectionOf(b.positions[key].fields))
    && (forall key :: VersionOf(b.positions, key) == EventCount(b.events, key))
  }

  lemma WriteKeepsLog(b: Book, key: Key, f: Fields)
    requires LogExplainsBook(b)
    ensures LogExplainsBook(Write(b, key, f))
  {
    var b' := Write(b, key, f);
    assert b'.events[..|b'.events| - 1] == b.events;
    forall k ensures VersionOf(b'.positions, k) == EventCount(b'.events, k) {
      assert VersionOf(b.positions, k) == EventCount(b.events, k);
    }
  }

  lemma {:induction false} ItemsKeepLog(b: Book, items: seq<Item>)
    requires LogExplainsBook(b)
    ensures LogExplainsBook(ApplyItems(b, items))
  {
    if items != [] {
      ItemsKeepLog(b, items[..|items| - 1]);
      var before, last := ApplyItems(b, items[..|items| - 1]), items[|items| - 1];
      WriteKeepsLog(before.(names := Catalogued(before.names, last.identity)), last.identity.key, last.fields);
    }
  }

  // ---------------------------------------------------------------------------------------------
  // Whole runs
  // ---------------------------------------------------------------------------------------------

  /** A committed or refused operation. A manual entry catalogues its instrument first, in a transaction
      of its own; other services catalogue too. */
  datatype Op =
    | Catalog(identity: Identity)
    | Manual(identity: Identity, fields: Fields, expected: Option<nat>)
    | Import(batch: Batch, current: Fingerprint)

  function Step(b: Book, op: Op): Book {
    match op
    case Catalog(i) => b.(names := Catalogued(b.names, i))
    case Manual(i, f, expected) => Upsert(b.(names := Catalogued(b.names, i)), i.key, f, expected).0
    case Import(batch, current) => ApplyBatch(b, batch, current).0
  }

  function Run(b: Book, ops: seq<Op>): Book {
    if ops == [] then b else Step(Run(b, ops[..|ops| - 1]), ops[|ops| - 1])
  }

  /** Across manual entries, imports, version conflicts and refused batches the log explains the book. */
  lemma {:induction false} RunKeepsLog(b: Book, ops: seq<Op>)
    requires LogExplainsBook(b)
    ensures LogExplainsBook(Run(b, ops))
  {
    if ops != [] {
      RunKeepsLog(b, ops[..|ops| - 1]);
      var before := Run(b, ops[..|ops| - 1]);
      hide LogExplainsBook, Write, ApplyItems, AuditedRows, WrittenBy;
      match ops[|ops| - 1] {
        case Catalog(i) => LogIgnoresRest(before, Step(before, ops[|ops| - 1]));
        case Manual(i, f, expected) =>
          var named := before.(names := Catalogued(before.names, i));
          LogIgnoresRest(before, named);
          WriteKeepsLog(named, i.key, f);
        case Import(batch, current) =>
          if ApplyBatch(before, batch, current).1 == Imported {
            ItemsKeepLog(before, batch.items);
            LogIgnoresRest(ApplyItems(before, batch.items), Committed(before, batch));
          }
      }
    }
  }

  lemma LogIgnoresRest(b: Book, b': Book)
    requires LogExplainsBook(b) && b'.positions == b.positions && b'.events == b.events
    ensures LogExplainsBook(b')
  {
    forall key ensures VersionOf(b'.positions, key) == EventCount(b'.events, key) {
      assert VersionOf(b.positions, key) == EventCount(b.events, key);
    }
  }

  lemma LogExplainsEveryReachableBook(ops: seq<Op>)
    ensures LogExplainsBook(Run(EMPTY_BOOK, ops))
  {
    assert LogExplainsBook(EMPTY_BOOK);
    RunKeepsLog(EMPTY_BOOK, ops);
  }

  /** Claims are never given up, so of all batches with one import hash at most one is ever imported. */
  lemma {:induction false} ClaimsOnlyGrow(b: Book, ops: seq<Op>, hash: string)
    requires hash in b.claims
    ensures hash in Run(b, ops).claims
  {
    if ops != [] {
      ClaimsOnlyGrow(b, ops[..|ops| - 1], hash);
      if ops[|ops| - 1].Import? {
        ItemsKeepClaims(Run(b, ops[..|ops| - 1]), ops[|ops| - 1].batch.items);
      }
    }
  }

  lemma {:induction false} ItemsKeepClaims(b: Book, items: seq<Item>)
    ensures ApplyItems(b, items).claims == b.claims && ApplyItems(b, items).audits == b.audits
  {
    if items != [] {
      ItemsKeepClaims(b, items[..|items| - 1]);
    }
  }

  predicate ImportsAt(ops: seq<Op>, i: nat, hash: string)
    requires i < |ops|
  {
    ops[i].Import? && ops[i].batch.importHash == hash
    && ApplyBatch(Run(EMPTY_BOOK, ops[..i]), ops[i].batch, ops[i].current).1 == Imported
  }

  lemma {:induction false} RunAppend(b: Book, first: seq<Op>, rest: seq<Op>)
    ensures Run(b, first + rest) == Run(Run(b, first), rest)
  {
    if rest == [] {
      assert first + rest == first;
    } else {
      RunAppend(b, first, rest[..|rest| - 1]);
      assert (first + rest)[..|first + rest| - 1] == first + rest[..|rest| - 1];
    }
  }

  lemma ImportClaims(ops: seq<Op>, i: nat, z: nat, hash: string)
    requires i < z <= |ops| && ImportsAt(ops, i, hash)
    ensures hash in Run(EMPTY_BOOK, ops[..z]).claims
  {
    var after := Run(EMPTY_BOOK, ops[..i + 1]);
    assert ops[..i + 1][..i] == ops[..i];
    assert hash in after.claims;
    ClaimsOnlyGrow(after, ops[i + 1..z], hash);
    RunAppend(EMPTY_BOOK, ops[..i + 1], ops[i + 1..z]);
    assert ops[..i + 1] + ops[i + 1..z] == ops[..z];
  }

  lemma ImportedAtMostOnce(ops: seq<Op>, i: nat, j: nat, hash: string)
    requires i < |ops| && j < |ops| && ImportsAt(ops, i, hash) && ImportsAt(ops, j, hash)
    ensures i == j
  {
    if i < j {
      ImportClaims(ops, i, j, hash);
    } else if j < i {
      ImportClaims(ops, j, i, hash);
    }
  }
}
