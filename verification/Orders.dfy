/** Stable sorting by a total preorder, and what sorting has to do with filtering and permuting. */
module Orders {

  ghost predicate Preorder<T(!new)>(le: (T, T) -> bool) {
    && (forall x, y :: le(x, y) || le(y, x))
    && (forall x, y, z :: le(x, y) && le(y, z) ==> le(x, z))
  }

  ghost predicate Antisymmetric<T(!new)>(le: (T, T) -> bool) {
    forall x, y :: le(x, y) && le(y, x) ==> x == y
  }

  ghost predicate Linear<T(!new)>(le: (T, T) -> bool) {
    Preorder(le) && Antisymmetric(le)
  }

  ghost predicate AntisymmetricOn<T>(le: (T, T) -> bool, s: seq<T>) {
    forall x, y :: x in s && y in s && le(x, y) && le(y, x) ==> x == y
  }

  ghost predicate SortedBy<T>(le: (T, T) -> bool, s: seq<T>) {
    forall i, j :: 0 <= i < j < |s| ==> le(s[i], s[j])
  }

  /** Inserts before the first element that may follow, so equals keep their order. */
  function Insert<T>(le: (T, T) -> bool, x: T, s: seq<T>): (r: seq<T>)
    ensures |r| == |s| + 1
  {
    if s == [] || le(x, s[0]) then [x] + s else [s[0]] + Insert(le, x, s[1..])
  }

  function Sort<T>(le: (T, T) -> bool, s: seq<T>): (r: seq<T>)
    ensures |r| == |s|
  {
    if s == [] then [] else Insert(le, s[0], Sort(le, s[1..]))
  }

  function Filter<T>(p: T -> bool, s: seq<T>): (r: seq<T>)
    ensures |r| <= |s|
  {
    if s == [] then [] else if p(s[0]) then [s[0]] + Filter(p, s[1..]) else Filter(p, s[1..])
  }

  lemma {:induction false} InsertPermutes<T>(le: (T, T) -> bool, x: T, s: seq<T>)
    ensures multiset(Insert(le, x, s)) == multiset(s) + multiset{x}
  {
    if s != [] && !le(x, s[0]) {
      InsertPermutes(le, x, s[1..]);
      assert s == [s[0]] + s[1..];
    }
  }

  lemma {:induction false} SortPermutes<T>(le: (T, T) -> bool, s: seq<T>)
    ensures multiset(Sort(le, s)) == multiset(s)
  {
    if s != [] {
      SortPermutes(le, s[1..]);
      InsertPermutes(le, s[0], Sort(le, s[1..]));
      assert s == [s[0]] + s[1..];
    }
  }

  lemma SameMembers<T>(s: seq<T>, t: seq<T>)
    requires multiset(s) == multiset(t)
    ensures forall x :: x in s <==> x in t
  {
    forall x ensures x in s <==> x in t {
      assert x in s <==> x in multiset(s);
      assert x in t <==> x in multiset(t);
    }
  }

  lemma {:induction false} InsertSorted<T(!new)>(le: (T, T) -> bool, x: T, s: seq<T>)
    requires Preorder(le) && SortedBy(le, s)
    ensures SortedBy(le, Insert(le, x, s))
  {
    if s != [] && !le(x, s[0]) {
      InsertSorted(le, x, s[1..]);
      InsertPermutes(le, x, s[1..]);
      var rest := Insert(le, x, s[1..]);
      forall j | 0 <= j < |rest| ensures le(s[0], rest[j]) {
        assert rest[j] in multiset(rest);
        assert rest[j] == x || rest[j] in s[1..];
      }
    }
  }

  lemma {:induction false} SortSorts<T(!new)>(le: (T, T) -> bool, s: seq<T>)
    requires Preorder(le)
    ensures SortedBy(le, Sort(le, s))
  {
    if s != [] {
      SortSorts(le, s[1..]);
      InsertSorted(le, s[0], Sort(le, s[1..]));
    }
  }

  lemma {:induction false} FilterMembers<T>(p: T -> bool, s: seq<T>)
    ensures forall x :: x in Filter(p, s) <==> x in s && p(x)
  {
    if s != [] {
      FilterMembers(p, s[1..]);
    }
  }

  lemma FilterCons<T>(p: T -> bool, x: T, s: seq<T>)
    ensures Filter(p, [x] + s) == if p(x) then [x] + Filter(p, s) else Filter(p, s)
  {
    assert ([x] + s)[1..] == s;
  }

  lemma InsertCons<T>(le: (T, T) -> bool, x: T, y: T, s: seq<T>)
    ensures Insert(le, x, [y] + s) == if le(x, y) then [x] + ([y] + s) else [y] + Insert(le, x, s)
  {
    assert ([y] + s)[1..] == s;
  }

  lemma InsertFront<T>(le: (T, T) -> bool, x: T, s: seq<T>)
    requires forall y :: y in s ==> le(x, y)
    ensures Insert(le, x, s) == [x] + s
  {
    if s != [] {
      assert s[0] in s;
    }
  }

  lemma {:induction false} FilterInsert<T(!new)>(le: (T, T) -> bool, p: T -> bool, x: T, s: seq<T>)
    requires Preorder(le) && SortedBy(le, s)
    ensures Filter(p, Insert(le, x, s)) == if p(x) then Insert(le, x, Filter(p, s)) else Filter(p, s)
  {
    if s == [] {
    } else if le(x, s[0]) {
      FilterCons(p, x, s);
      FilterMembers(p, s);
      forall y | y in s ensures le(x, y) {
        var i :| 0 <= i < |s| && s[i] == y;
        assert le(s[0], y) || i == 0;
      }
      InsertFront(le, x, Filter(p, s));
    } else {
      FilterInsert(le, p, x, s[1..]);
      FilterCons(p, s[0], Insert(le, x, s[1..]));
      InsertCons(le, x, s[0], Filter(p, s[1..]));
    }
  }

  /** Filtering before or after a stable sort is the same. */
  lemma {:induction false} FilterSort<T(!new)>(le: (T, T) -> bool, p: T -> bool, s: seq<T>)
    requires Preorder(le)
    ensures Filter(p, Sort(le, s)) == Sort(le, Filter(p, s))
  {
    if s != [] {
      FilterSort(le, p, s[1..]);
      SortSorts(le, s[1..]);
      FilterInsert(le, p, s[0], Sort(le, s[1..]));
      SortCons(le, s[0], Filter(p, s[1..]));
    }
  }

  lemma SortCons<T>(le: (T, T) -> bool, x: T, s: seq<T>)
    ensures Sort(le, [x] + s) == Insert(le, x, Sort(le, s))
  {
    assert ([x] + s)[1..] == s;
  }

  lemma {:induction false} FilterNone<T>(p: T -> bool, s: seq<T>)
    requires forall i :: 0 <= i < |s| ==> !p(s[i])
    ensures Filter(p, s) == []
  {
    if s != [] {
      FilterNone(p, s[1..]);
    }
  }

  /** In a sorted sequence, a filter that keeps whatever precedes a kept element keeps a prefix. */
  lemma {:induction false} FilterKeepsPrefix<T(!new)>(le: (T, T) -> bool, p: T -> bool, s: seq<T>)
    requires SortedBy(le, s) && forall x, y :: le(x, y) && p(y) ==> p(x)
    ensures Filter(p, s) == s[..|Filter(p, s)|]
    ensures forall i :: 0 <= i < |s| ==> (p(s[i]) <==> i < |Filter(p, s)|)
  {
    if s == [] {
    } else if p(s[0]) {
      FilterKeepsPrefix(le, p, s[1..]);
    } else {
      FilterNone(p, s);
    }
  }

  lemma SameHead<T(!new)>(le: (T, T) -> bool, s: seq<T>, t: seq<T>)
    requires AntisymmetricOn(le, s) && Preorder(le) && SortedBy(le, s) && SortedBy(le, t)
    requires multiset(s) == multiset(t) && s != []
    ensures t != [] && s[0] == t[0]
  {
    SameMembers(s, t);
    assert s[0] in t;
    assert t[0] in s;
    var i :| 0 <= i < |t| && t[i] == s[0];
    var j :| 0 <= j < |s| && s[j] == t[0];
    assert le(s[0], t[0]) by { assert j == 0 || le(s[0], s[j]); assert le(s[0], s[0]); }
    assert le(t[0], s[0]) by { assert i == 0 || le(t[0], t[i]); assert le(t[0], t[0]); }
  }

  lemma TailMultiset<T>(s: seq<T>)
    requires s != []
    ensures multiset(s[1..]) == multiset(s) - multiset{s[0]}
  {
    assert s == [s[0]] + s[1..];
  }

  lemma TailSorted<T>(le: (T, T) -> bool, s: seq<T>)
    requires s != [] && SortedBy(le, s)
    ensures SortedBy(le, s[1..])
  {
  }

  /** When only equal elements tie, a permutation has only one sorted arrangement. */
  lemma {:induction false} SortedIsUnique<T(!new)>(le: (T, T) -> bool, s: seq<T>, t: seq<T>)
    requires Preorder(le) && AntisymmetricOn(le, s) && SortedBy(le, s) && SortedBy(le, t) && multiset(s) == multiset(t)
    ensures s == t
  {
    if s == [] {
      assert |multiset(t)| == 0;
    } else {
      SameHead(le, s, t);
      TailMultiset(s);
      TailMultiset(t);
      assert AntisymmetricOn(le, s[1..]);
      hide Preorder, AntisymmetricOn, SortedBy;
      TailSorted(le, s);
      TailSorted(le, t);
      SortedIsUnique(le, s[1..], t[1..]);
      assert s == [s[0]] + s[1..] && t == [t[0]] + t[1..];
    }
  }

  /** Two sequences sort to the same exactly when one is a permutation of the other. */
  lemma SortDecidesPermutation<T(!new)>(le: (T, T) -> bool, s: seq<T>, t: seq<T>)
    requires Preorder(le) && AntisymmetricOn(le, s)
    ensures Sort(le, s) == Sort(le, t) <==> multiset(s) == multiset(t)
  {
    SortPermutes(le, s);
    SortPermutes(le, t);
    SortSorts(le, s);
    SortSorts(le, t);
    if multiset(s) == multiset(t) {
      SameMembers(s, Sort(le, s));
      SortedIsUnique(le, Sort(le, s), Sort(le, t));
    }
  }

  /** A sorted sequence is its own sorting. */
  lemma {:induction false} SortOfSorted<T(!new)>(le: (T, T) -> bool, s: seq<T>)
    requires SortedBy(le, s)
    ensures Sort(le, s) == s
  {
    if s != [] {
      SortOfSorted(le, s[1..]);
      if |s| > 1 {
        assert le(s[0], s[1]);
      }
    }
  }

  // ---------------------------------------------------------------------------------------------
  // Sorting by a key
  // ---------------------------------------------------------------------------------------------

  /** The order of the keys, read off the elements. */
  function By<T, K>(key: T -> K, le: (K, K) -> bool): (T, T) -> bool {
    (x, y) => le(key(x), key(y))
  }

  function Map<T, K>(f: T -> K, s: seq<T>): (r: seq<K>)
    ensures |r| == |s|
    ensures forall i :: 0 <= i < |s| ==> r[i] == f(s[i])
  {
    if s == [] then [] else [f(s[0])] + Map(f, s[1..])
  }

  lemma ByIsPreorder<T(!new), K(!new)>(key: T -> K, le: (K, K) -> bool)
    requires Preorder(le)
    ensures Preorder(By(key, le))
  {
  }

  lemma MapInsert<T, K>(key: T -> K, le: (K, K) -> bool, x: T, s: seq<T>)
    ensures Map(key, Insert(By(key, le), x, s)) == Insert(le, key(x), Map(key, s))
  {
    if s == [] || By(key, le)(x, s[0]) {
      assert Map(key, [x] + s) == [key(x)] + Map(key, s);
    } else {
      MapInsert(key, le, x, s[1..]);
      var rest := Insert(By(key, le), x, s[1..]);
      assert Map(key, [s[0]] + rest) == [key(s[0])] + Map(key, rest);
      assert Map(key, s)[1..] == Map(key, s[1..]);
    }
  }

  /** Sorting by a key and reading the keys off is sorting the keys. */
  lemma {:induction false} MapSort<T, K>(key: T -> K, le: (K, K) -> bool, s: seq<T>)
    ensures Map(key, Sort(By(key, le), s)) == Sort(le, Map(key, s))
  {
    if s != [] {
      MapSort(key, le, s[1..]);
      MapInsert(key, le, s[0], Sort(By(key, le), s[1..]));
      assert Map(key, s)[1..] == Map(key, s[1..]);
    }
  }

  lemma MapAppend<T, K>(f: T -> K, s: seq<T>, t: seq<T>)
    ensures Map(f, s + t) == Map(f, s) + Map(f, t)
  {
  }

  lemma {:induction false} FilterAppend<T>(p: T -> bool, s: seq<T>, t: seq<T>)
    ensures Filter(p, s + t) == Filter(p, s) + Filter(p, t)
  {
    if s == [] {
      assert s + t == t;
    } else {
      hide Filter;
      FilterAppend(p, s[1..], t);
      FilterCons(p, s[0], s[1..]);
      FilterCons(p, s[0], s[1..] + t);
      assert s == [s[0]] + s[1..];
      assert s + t == [s[0]] + (s[1..] + t);
    }
  }

  lemma Split<T>(s: seq<T>, i: nat)
    requires i < |s|
    ensures s == s[..i] + ([s[i]] + s[i + 1..])
  {
  }

  lemma MapWithout<T, K>(f: T -> K, x: T, a: seq<T>, b: seq<T>)
    ensures multiset(Map(f, a + ([x] + b))) == multiset(Map(f, a + b)) + multiset{f(x)}
  {
    MapAppend(f, a, [x] + b);
    MapAppend(f, [x], b);
    MapAppend(f, a, b);
    assert Map(f, [x]) == [f(x)];
    hide Map;
  }

  lemma FilterWithout<T>(p: T -> bool, x: T, a: seq<T>, b: seq<T>)
    ensures multiset(Filter(p, a + ([x] + b))) == multiset(Filter(p, a + b)) + multiset(if p(x) then [x] else [])
  {
    FilterAppend(p, a, [x] + b);
    FilterAppend(p, [x], b);
    FilterAppend(p, a, b);
    assert Filter(p, [x]) == if p(x) then [x] else [];
    hide Filter;
  }

  lemma Occurs<T>(s: seq<T>, t: seq<T>) returns (a: seq<T>, b: seq<T>)
    requires s != [] && multiset(s) == multiset(t)
    ensures t == a + ([s[0]] + b) && multiset(a + b) == multiset(s[1..])
  {
    SameMembers(s, t);
    assert s[0] in t;
    var i :| 0 <= i < |t| && t[i] == s[0];
    a, b := t[..i], t[i + 1..];
    Split(t, i);
    TailMultiset(s);
  }

  /** A permutation maps to a permutation. */
  lemma {:induction false} MapPermutes<T, K>(f: T -> K, s: seq<T>, t: seq<T>)
    requires multiset(s) == multiset(t)
    ensures multiset(Map(f, s)) == multiset(Map(f, t))
  {
    if s == [] {
      assert |multiset(t)| == 0;
    } else {
      var a, b := Occurs(s, t);
      hide Map;
      MapPermutes(f, s[1..], a + b);
      MapWithout(f, s[0], a, b);
      MapWithout(f, s[0], [], s[1..]);
      assert [] + ([s[0]] + s[1..]) == s && [] + s[1..] == s[1..];
    }
  }

  /** A permutation filters to a permutation. */
  lemma {:induction false} FilterPermutes<T>(p: T -> bool, s: seq<T>, t: seq<T>)
    requires multiset(s) == multiset(t)
    ensures multiset(Filter(p, s)) == multiset(Filter(p, t))
  {
    if s == [] {
      assert |multiset(t)| == 0;
    } else {
      var a, b := Occurs(s, t);
      hide Filter;
      FilterPermutes(p, s[1..], a + b);
      FilterWithout(p, s[0], a, b);
      FilterWithout(p, s[0], [], s[1..]);
      assert [] + ([s[0]] + s[1..]) == s && [] + s[1..] == s[1..];
    }
  }
}
