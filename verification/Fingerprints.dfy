/**
 Texts joined with a bar, and what follows for the fingerprint of the holdings, which is a dictionary
 under such texts.
 */
module Fingerprints {
  import opened PortfolioCsv
  import opened PortfolioBook

  lemma BarIsFirst(a: string, b: string)
    requires '|' !in a
    ensures var s := a + "|" + b; s[|a|] == '|' && forall i :: 0 <= i < |a| ==> s[i] != '|'
  {
  }

  lemma BarIsLast(a: string, b: string)
    requires '|' !in b
    ensures var s := a + "|" + b; s[|a|] == '|' && forall i :: |a| < i < |s| ==> s[i] != '|'
  {
    var s := a + "|" + b;
    forall i | |a| < i < |s| ensures s[i] != '|' {
      assert s[i] == b[i - |a| - 1];
    }
  }

  lemma SplitAt(a: string, b: string, a': string, b': string)
    requires |a| == |a'| && a + "|" + b == a' + "|" + b'
    ensures a == a' && b == b'
  {
    var s, s' := a + "|" + b, a' + "|" + b';
    assert a == s[..|a|] && a' == s'[..|a|];
    assert b == s[|a| + 1..] && b' == s'[|a| + 1..];
  }

  /** Splitting at the first bar is unambiguous when the part before it has none. */
  lemma FirstBar(a: string, b: string, a': string, b': string)
    requires '|' !in a && '|' !in a' && a + "|" + b == a' + "|" + b'
    ensures a == a' && b == b'
  {
    BarIsFirst(a, b);
    BarIsFirst(a', b');
    SplitAt(a, b, a', b');
  }

  /** Likewise at the last bar when the part after it has none. */
  lemma LastBar(a: string, b: string, a': string, b': string)
    requires '|' !in b && '|' !in b' && a + "|" + b == a' + "|" + b'
    ensures a == a' && b == b'
  {
    BarIsLast(a, b);
    BarIsLast(a', b');
    SplitAt(a, b, a', b');
  }

  /** No two of the keys are spelled the same. */
  ghost predicate TextsDiffer(keys: set<Key>) {
    forall a, b :: a in keys && b in keys && KeyText(a) == KeyText(b) ==> a == b
  }

  /** Holdings under these keys that share a fingerprint are the same. */
  ghost predicate Faithful(keys: set<Key>) {
    forall v: map<Key, View>, v': map<Key, View>, m: Fingerprint ::
      v.Keys <= keys && v'.Keys <= keys && IsFingerprint(v, m) && IsFingerprint(v', m) ==> v == v'
  }

  lemma FingerprintCovers(keys: set<Key>, v: map<Key, View>, v': map<Key, View>, m: Fingerprint)
    requires TextsDiffer(keys) && v.Keys <= keys && v'.Keys <= keys
    requires IsFingerprint(v, m) && IsFingerprint(v', m)
    ensures forall key :: key in v ==> key in v' && v'[key] == v[key]
  {
    forall key | key in v ensures key in v' && v'[key] == v[key] {
      var here :| here in v && KeyText(here) == KeyText(key) && m[KeyText(key)] == v[here];
      var there :| there in v' && KeyText(there) == KeyText(key) && m[KeyText(key)] == v'[there];
      assert here in keys && there in keys && key in keys;
    }
  }

  lemma SharedFingerprintMeansEqual(keys: set<Key>, v: map<Key, View>, v': map<Key, View>, m: Fingerprint)
    requires TextsDiffer(keys) && v.Keys <= keys && v'.Keys <= keys
    requires IsFingerprint(v, m) && IsFingerprint(v', m)
    ensures v == v'
  {
    FingerprintCovers(keys, v, v', m);
    FingerprintCovers(keys, v', v, m);
  }

  /** Two keys with one spelling: holding either one gives the same fingerprint. */
  lemma SpelledAlike(a: Key, b: Key, view: View)
    requires KeyText(a) == KeyText(b)
    ensures var m: Fingerprint := map[KeyText(a) := view];
            IsFingerprint(map[a := view], m) && IsFingerprint(map[b := view], m)
  {
    assert a in map[a := view] && b in map[b := view];
  }

  /** Holding both gives it too, when the row order lets the first one overwrite the other; and in any order
      when the two rows look the same. */
  lemma HoldingBothIsAlike(a: Key, b: Key, va: View, vb: View)
    requires a != b && KeyText(a) == KeyText(b)
    ensures IsFingerprint(map[a := va, b := vb], map[KeyText(a) := va])
    ensures va == vb ==> forall m :: IsFingerprint(map[a := va, b := vb], m) ==> m == map[KeyText(a) := va]
  {
    var view, alone: Fingerprint := map[a := va, b := vb], map[KeyText(a) := va];
    assert a in view && b in view && view[a] == va;
    if va == vb {
      forall m | IsFingerprint(view, m) ensures m == alone {
        OneEntryOnly(a, b, va, m);
      }
    }
  }

  lemma OneEntryOnly(a: Key, b: Key, v: View, m: Fingerprint)
    requires KeyText(a) == KeyText(b) && IsFingerprint(map[a := v, b := v], m)
    ensures m == map[KeyText(a) := v]
  {
    var view := map[a := v, b := v];
    assert a in view && KeyText(a) in m;
    forall text | text in m ensures text == KeyText(a) && m[text] == v {
      var key :| key in view && KeyText(key) == text && m[text] == view[key];
      assert key == a || key == b;
    }
  }

  /** Exactly when the fingerprint is to be trusted: no two of the keys that may be held are spelled alike. */
  lemma FaithfulIffTextsDiffer(keys: set<Key>)
    ensures Faithful(keys) <==> TextsDiffer(keys)
  {
    if TextsDiffer(keys) {
      forall v: map<Key, View>, v': map<Key, View>, m: Fingerprint
        | v.Keys <= keys && v'.Keys <= keys && IsFingerprint(v, m) && IsFingerprint(v', m)
        ensures v == v'
      {
        SharedFingerprintMeansEqual(keys, v, v', m);
      }
    }
    if Faithful(keys) {
      hide TextsDiffer, IsFingerprint;
      forall a, b | a in keys && b in keys && KeyText(a) == KeyText(b) ensures a == b {
        FaithfulSeparates(keys, a, b);
      }
      assert TextsDiffer(keys) by { SeparatedTextsDiffer(keys); }
    }
  }

  lemma SeparatedTextsDiffer(keys: set<Key>)
    requires forall a, b :: a in keys && b in keys && KeyText(a) == KeyText(b) ==> a == b
    ensures TextsDiffer(keys)
  {
  }

  lemma FaithfulSeparates(keys: set<Key>, a: Key, b: Key)
    requires Faithful(keys) && a in keys && b in keys && KeyText(a) == KeyText(b)
    ensures a == b
  {
    hide IsFingerprint, KeyText;
    var view := View(Fields(0.0, 0.0, 0.0, 0.0, 0.0, "", "", ""), "");
    SpelledAlike(a, b, view);
    var v, v' := map[a := view], map[b := view];
    assert v.Keys <= keys && v'.Keys <= keys;
    assert a in v;
    assert v == v';
    assert a in v';
  }

  predicate PlainMarkets(keys: set<Key>) {
    forall key :: key in keys ==> '|' !in key.market
  }

  /** Markets without a bar are enough. */
  lemma PlainMarketsDiffer(keys: set<Key>)
    requires PlainMarkets(keys)
    ensures TextsDiffer(keys)
  {
    forall a, b | a in keys && b in keys && KeyText(a) == KeyText(b) ensures a == b {
      FirstBar(a.market, a.symbol, b.market, b.symbol);
    }
  }

  /** Two keys are spelled alike, but differ, exactly when one is the other with a part moved over a bar. */
  lemma SpelledAlikeIffShifted(a: Key, b: Key)
    requires |a.market| <= |b.market|
    ensures KeyText(a) == KeyText(b) && a != b <==>
              |a.market| < |b.market| && exists part: string ::
                b.market == a.market + "|" + part && a.symbol == part + "|" + b.symbol
  {
    if KeyText(a) == KeyText(b) && a != b {
      if |a.market| == |b.market| {
        SplitAt(a.market, a.symbol, b.market, b.symbol);
      }
      var s, n, m := KeyText(a), |a.market|, |b.market|;
      var part := b.market[n + 1..];
      assert s[..m] == b.market && s[m] == '|' && s[m + 1..] == b.symbol;
      assert s[..n] == a.market && s[n] == '|' && s[n + 1..] == a.symbol;
      assert b.market == s[..m] == s[..n] + [s[n]] + s[n + 1..m];
      assert a.symbol == s[n + 1..] == s[n + 1..m] + [s[m]] + s[m + 1..];
    }
    if part: string :| b.market == a.market + "|" + part && a.symbol == part + "|" + b.symbol {
      assert KeyText(a) == a.market + "|" + part + "|" + b.symbol == KeyText(b);
    }
  }
}
