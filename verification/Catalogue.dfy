/** The instrument names kept beside the positions: filled when blank, never changed. */
module Catalogue {
  import opened PortfolioCsv
  import opened PortfolioBook

  /** Cataloguing an instrument names it if it has no name yet, and touches no other. */
  lemma CataloguedIs(names: map<Key, string>, i: Identity, key: Key)
    ensures var after := Catalogued(names, i);
            && i.key in after && after[i.key] == (if i.key in names && |names[i.key]| > 0 then names[i.key] else i.name)
            && (key != i.key ==> (key in after <==> key in names) && NameAt(after, key) == NameAt(names, key))
  {
  }

  lemma {:induction false} ItemsKeepName(b: Book, items: seq<Item>, key: Key)
    requires NameAt(b.names, key) != ""
    ensures NameAt(ApplyItems(b, items).names, key) == NameAt(b.names, key)
  {
    if items != [] {
      ItemsKeepName(b, items[..|items| - 1], key);
      CataloguedIs(ApplyItems(b, items[..|items| - 1]).names, items[|items| - 1].identity, key);
    }
  }

  /** Whatever the run, an instrument that has a name keeps it. */
  lemma {:induction false} NamesAreKept(b: Book, ops: seq<Op>, key: Key)
    requires NameAt(b.names, key) != ""
    ensures NameAt(Run(b, ops).names, key) == NameAt(b.names, key)
  {
    if ops != [] {
      var before, last := Run(b, ops[..|ops| - 1]), ops[|ops| - 1];
      NamesAreKept(b, ops[..|ops| - 1], key);
      match last {
        case Catalog(i) => CataloguedIs(before.names, i, key);
        case Manual(i, f, expected) => CataloguedIs(before.names, i, key);
        case Import(batch, current) => ItemsKeepName(before, batch.items, key);
      }
    }
  }

  lemma {:induction false} ItemsName(b: Book, items: seq<Item>, i: nat)
    requires i < |items| && items[i].identity.name != ""
    ensures NameAt(ApplyItems(b, items).names, items[i].identity.key) != ""
  {
    var n := |items| - 1;
    if i < n {
      ItemsName(b, items[..n], i);
    }
    CataloguedIs(ApplyItems(b, items[..n]).names, items[n].identity, items[i].identity.key);
  }

  /** And whatever is entered or imported under a name has one afterwards. */
  lemma WrittenIsNamed(b: Book, batch: Batch, i: nat)
    requires i < |batch.items| && batch.items[i].identity.name != ""
    ensures NameAt(Committed(b, batch).names, batch.items[i].identity.key) != ""
  {
    ItemsName(b, batch.items, i);
  }
}
