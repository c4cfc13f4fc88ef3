/** Stripped text, and the linear orders behind the sort keys built from text and identifiers. */
module Texts {
  import opened Orders

  // ---------------------------------------------------------------------------------------------
  // Stripping
  // ---------------------------------------------------------------------------------------------

  /** The characters a text is stripped of. */
  predicate IsSpace(c: char) {
    || '\t' <= c <= '\r'
    || '\U{1C}' <= c <= ' '
    || c in {'\U{85}', '\U{A0}', '\U{1680}', '\U{2028}', '\U{2029}', '\U{202F}', '\U{205F}', '\U{3000}'}
    || '\U{2000}' <= c <= '\U{200A}'
  }

  predicate Stripped(s: string) {
    s == [] || (!IsSpace(s[0]) && !IsSpace(s[|s| - 1]))
  }

  function StripFront(s: string): (r: string)
    ensures r == [] || !IsSpace(r[0])
    ensures s == [] || !IsSpace(s[0]) ==> r == s
    ensures r == [] || (s != [] && r[|r| - 1] == s[|s| - 1])
  {
    if s != [] && IsSpace(s[0]) then StripFront(s[1..]) else s
  }

  function StripBack(s: string): (r: string)
    ensures r == [] || !IsSpace(r[|r| - 1])
    ensures s == [] || !IsSpace(s[|s| - 1]) ==> r == s
    ensures r == [] || (s != [] && r[0] == s[0])
  {
    if s != [] && IsSpace(s[|s| - 1]) then StripBack(s[..|s| - 1]) else s
  }

  function Strip(s: string): (r: string)
    ensures Stripped(r)
    ensures Stripped(s) ==> r == s
  {
    StripBack(StripFront(s))
  }

  lemma {:induction false} StrippedFront(s: string) returns (front: string)
    ensures s == front + StripFront(s) && forall c :: c in front ==> IsSpace(c)
  {
    if s != [] && IsSpace(s[0]) {
      var more := StrippedFront(s[1..]);
      front := [s[0]] + more;
      assert s == [s[0]] + s[1..];
    } else {
      front := [];
    }
  }

  lemma {:induction false} StrippedBack(s: string) returns (back: string)
    ensures s == StripBack(s) + back && forall c :: c in back ==> IsSpace(c)
  {
    if s != [] && IsSpace(s[|s| - 1]) {
      var more := StrippedBack(s[..|s| - 1]);
      back := more + [s[|s| - 1]];
      assert s == s[..|s| - 1] + [s[|s| - 1]];
    } else {
      back := [];
    }
  }

  /** Stripping takes away spaces on both sides, all of them, and nothing else. */
  lemma StripRemovesOuterSpace(s: string) returns (front: string, back: string)
    ensures s == front + Strip(s) + back && forall c :: c in front + back ==> IsSpace(c)
    ensures Strip(s) == [] || (!IsSpace(Strip(s)[0]) && !IsSpace(Strip(s)[|Strip(s)| - 1]))
  {
    front := StrippedFront(s);
    back := StrippedBack(StripFront(s));
  }

  /** Nothing is left once the text is stripped. */
  predicate Blank(s: string) {
    Strip(s) == ""
  }

  /** A required text: stripped, and something is left. */
  predicate IsText(s: string) {
    s != [] && Stripped(s)
  }

  /** Putting stripped text behind a prefix that starts with text leaves text. */
  lemma PrefixedText(prefix: string, s: string)
    requires prefix != [] && !IsSpace(prefix[0]) && IsText(s)
    ensures IsText(prefix + s)
  {
  }

  // ---------------------------------------------------------------------------------------------
  // Lexicographic order
  // ---------------------------------------------------------------------------------------------

  predicate Lex<T(==)>(le: (T, T) -> bool, s: seq<T>, t: seq<T>) {
    if s == [] then true
    else if t == [] then false
    else if s[0] == t[0] then Lex(le, s[1..], t[1..])
    else le(s[0], t[0])
  }

  lemma {:induction false} LexTotal<T(!new)>(le: (T, T) -> bool, s: seq<T>, t: seq<T>)
    requires Linear(le)
    ensures Lex(le, s, t) || Lex(le, t, s)
  {
    if s != [] && t != [] && s[0] == t[0] {
      LexTotal(le, s[1..], t[1..]);
    }
  }

  lemma {:induction false} LexTransitive<T(!new)>(le: (T, T) -> bool, s: seq<T>, t: seq<T>, u: seq<T>)
    requires Linear(le) && Lex(le, s, t) && Lex(le, t, u)
    ensures Lex(le, s, u)
  {
    if s != [] && s[0] == t[0] && t[0] == u[0] {
      LexTransitive(le, s[1..], t[1..], u[1..]);
    }
  }

  lemma {:induction false} LexAntisymmetric<T(!new)>(le: (T, T) -> bool, s: seq<T>, t: seq<T>)
    requires Linear(le) && Lex(le, s, t) && Lex(le, t, s)
    ensures s == t
  {
    if s != [] && t != [] {
      if s[0] == t[0] {
        LexAntisymmetric(le, s[1..], t[1..]);
        assert s == [s[0]] + s[1..] && t == [t[0]] + t[1..];
      }
    }
  }

  predicate CharLe(a: char, b: char) {
    a <= b
  }

  predicate IdLe(a: nat, b: nat) {
    a <= b
  }

  /** Text order: by code point. */
  predicate TextLe(s: string, t: string) {
    Lex(CharLe, s, t)
  }

  predicate IdsLe(s: seq<nat>, t: seq<nat>) {
    Lex(IdLe, s, t)
  }

  predicate TextsLe(s: seq<string>, t: seq<string>) {
    Lex(TextLe, s, t)
  }

  lemma IdLeLinear()
    ensures Linear(IdLe)
  {
  }

  lemma TextLeLinear()
    ensures Linear(TextLe)
  {
    assert Linear(CharLe);
    forall s, t ensures TextLe(s, t) || TextLe(t, s) { LexTotal(CharLe, s, t); }
    forall s, t, u | TextLe(s, t) && TextLe(t, u) ensures TextLe(s, u) { LexTransitive(CharLe, s, t, u); }
    forall s, t | TextLe(s, t) && TextLe(t, s) ensures s == t { LexAntisymmetric(CharLe, s, t); }
  }

  lemma IdsLeLinear()
    ensures Linear(IdsLe)
  {
    IdLeLinear();
    forall s, t ensures IdsLe(s, t) || IdsLe(t, s) { LexTotal(IdLe, s, t); }
    forall s, t, u | IdsLe(s, t) && IdsLe(t, u) ensures IdsLe(s, u) { LexTransitive(IdLe, s, t, u); }
    forall s, t | IdsLe(s, t) && IdsLe(t, s) ensures s == t { LexAntisymmetric(IdLe, s, t); }
  }

  lemma TextsLeLinear()
    ensures Linear(TextsLe)
  {
    TextLeLinear();
    forall s, t ensures TextsLe(s, t) || TextsLe(t, s) { LexTotal(TextLe, s, t); }
    forall s, t, u | TextsLe(s, t) && TextsLe(t, u) ensures TextsLe(s, u) { LexTransitive(TextLe, s, t, u); }
    forall s, t | TextsLe(s, t) && TextsLe(t, s) ensures s == t { LexAntisymmetric(TextLe, s, t); }
  }
}
