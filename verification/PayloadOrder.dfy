/** The order in which a payload lists what it holds, so that the same thesis always has the same text. */
module PayloadOrder {
  import opened Orders
  import opened Texts
  import opened Thesis
  import opened ThesisPayload

  // ---------------------------------------------------------------------------------------------
  // What the orders mean
  // ---------------------------------------------------------------------------------------------

  /** The first is a beginning of the second, or has the smaller element where they first differ. */
  ghost predicate Precedes<T(!new)>(less: (T, T) -> bool, s: seq<T>, t: seq<T>) {
    s <= t || exists k :: DiffersAt(less, s, t, k)
  }

  predicate DiffersAt<T(==)>(less: (T, T) -> bool, s: seq<T>, t: seq<T>, k: nat) {
    k < |s| && k < |t| && s[..k] == t[..k] && s[k] != t[k] && less(s[k], t[k])
  }

  lemma {:induction false} LexIff<T(!new)>(le: (T, T) -> bool, s: seq<T>, t: seq<T>)
    ensures Lex(le, s, t) <==> Precedes(le, s, t)
  {
    if s != [] && t != [] {
      if s[0] == t[0] {
        LexIff(le, s[1..], t[1..]);
        if s <= t {
          assert s[1..] <= t[1..];
        }
        if s[1..] <= t[1..] {
          assert s == [s[0]] + s[1..] && t == [t[0]] + t[1..];
        }
        if k: nat :| DiffersAt(le, s, t, k) {
          assert k > 0;
          assert s[1..][..k - 1] == s[..k][1..] && t[1..][..k - 1] == t[..k][1..];
          assert DiffersAt(le, s[1..], t[1..], k - 1);
        }
        if k: nat :| DiffersAt(le, s[1..], t[1..], k) {
          assert s[..k + 1] == [s[0]] + s[1..][..k] && t[..k + 1] == [t[0]] + t[1..][..k];
          assert DiffersAt(le, s, t, k + 1);
        }
      } else {
        if le(s[0], t[0]) {
          assert DiffersAt(le, s, t, 0);
        }
        if k: nat :| DiffersAt(le, s, t, k) {
          assert k > 0 ==> s[..k][0] == t[..k][0];
        }
      }
    }
  }

  predicate SmallerChar(a: char, b: char) {
    a < b
  }

  predicate SmallerId(a: nat, b: nat) {
    a < b
  }

  /** By code points, and by identifiers. */
  ghost predicate TextPrecedes(s: string, t: string) {
    Precedes(SmallerChar, s, t)
  }

  ghost predicate IdsPrecede(s: seq<nat>, t: seq<nat>) {
    Precedes(SmallerId, s, t)
  }

  lemma TextLeIff(s: string, t: string)
    ensures TextLe(s, t) <==> TextPrecedes(s, t)
  {
    LexIff(CharLe, s, t);
    forall k: nat ensures DiffersAt(CharLe, s, t, k) <==> DiffersAt(SmallerChar, s, t, k) {
    }
  }

  lemma IdsLeIff(s: seq<nat>, t: seq<nat>)
    ensures IdsLe(s, t) <==> IdsPrecede(s, t)
  {
    LexIff(IdLe, s, t);
    forall k: nat ensures DiffersAt(IdLe, s, t, k) <==> DiffersAt(SmallerId, s, t, k) {
    }
  }

  // ---------------------------------------------------------------------------------------------
  // The payload's lists
  // ---------------------------------------------------------------------------------------------

  /** By description, and equal descriptions by evidence. */
  ghost predicate ClaimPrecedes(a: RawClaim, b: RawClaim) {
    if a.description == b.description then IdsPrecede(a.evidence, b.evidence) else TextPrecedes(a.description, b.description)
  }

  /** By condition, then measurement, then threshold, then window. */
  ghost predicate ConditionPrecedes(a: RawCondition, b: RawCondition) {
    if a.condition != b.condition then TextPrecedes(a.condition, b.condition)
    else if a.measurement != b.measurement then TextPrecedes(a.measurement, b.measurement)
    else if a.threshold != b.threshold then TextPrecedes(a.threshold, b.threshold)
    else TextPrecedes(a.window, b.window)
  }

  lemma SameOrder<T>(le: (T, T) -> bool, precedes: (T, T) -> bool, s: seq<T>)
    requires SortedBy(le, s) && forall x, y :: le(x, y) ==> precedes(x, y)
    ensures SortedBy(precedes, s)
  {
  }

  lemma ClaimLeIsPrecedes(a: RawClaim, b: RawClaim)
    requires RawClaimLe(a, b)
    ensures ClaimPrecedes(a, b)
  {
    TextLeIff(a.description, b.description);
    IdsLeIff(a.evidence, b.evidence);
    hide TextLe, IdsLe, TextPrecedes, IdsPrecede;
  }

  lemma TextsLeStep(x: string, s: seq<string>, y: string, t: seq<string>)
    ensures TextsLe([x] + s, [y] + t) <==> if x == y then TextsLe(s, t) else TextLe(x, y)
  {
    assert ([x] + s)[1..] == s && ([y] + t)[1..] == t;
  }

  lemma ConditionLeIsPrecedes(a: RawCondition, b: RawCondition)
    requires RawConditionLe(a, b)
    ensures ConditionPrecedes(a, b)
  {
    TextsLeStep(a.condition, [a.measurement, a.threshold, a.window], b.condition, [b.measurement, b.threshold, b.window]);
    TextsLeStep(a.measurement, [a.threshold, a.window], b.measurement, [b.threshold, b.window]);
    TextsLeStep(a.threshold, [a.window], b.threshold, [b.window]);
    TextsLeStep(a.window, [], b.window, []);
    assert ConditionTexts(a) == [a.condition] + [a.measurement, a.threshold, a.window];
    assert ConditionTexts(b) == [b.condition] + [b.measurement, b.threshold, b.window];
    assert [a.measurement, a.threshold, a.window] == [a.measurement] + [a.threshold, a.window];
    assert [b.measurement, b.threshold, b.window] == [b.measurement] + [b.threshold, b.window];
    assert [a.threshold, a.window] == [a.threshold] + [a.window] && [b.threshold, b.window] == [b.threshold] + [b.window];
    assert [a.window] == [a.window] + [] && [b.window] == [b.window] + [];
    hide TextsLe, TextLe, TextPrecedes;
    TextLeIff(a.condition, b.condition);
    TextLeIff(a.measurement, b.measurement);
    TextLeIff(a.threshold, b.threshold);
    TextLeIff(a.window, b.window);
    SamePrecedes(a.window);
  }

  lemma SamePrecedes(s: string)
    ensures TextPrecedes(s, s)
  {
  }

  lemma ClaimsInOrder(claims: seq<Claim>)
    ensures SortedBy(ClaimPrecedes, Map(ClaimPayload, SortedClaims(claims)))
  {
    MapSort(ClaimPayload, RawClaimLe, claims);
    RawClaimLeLinear();
    SortSorts(RawClaimLe, Map(ClaimPayload, claims));
    hide RawClaimLe, ClaimPrecedes, Sort;
    forall a, b | RawClaimLe(a, b) ensures ClaimPrecedes(a, b) {
      ClaimLeIsPrecedes(a, b);
    }
    SameOrder(RawClaimLe, ClaimPrecedes, Sort(RawClaimLe, Map(ClaimPayload, claims)));
  }

  lemma ConditionsInOrder(conditions: seq<Condition>)
    ensures SortedBy(ConditionPrecedes, Map(ConditionPayload, SortedConditions(conditions)))
  {
    MapSort(ConditionPayload, RawConditionLe, conditions);
    RawConditionLeLinear();
    SortSorts(RawConditionLe, Map(ConditionPayload, conditions));
    hide RawConditionLe, ConditionPrecedes, Sort;
    forall a, b | RawConditionLe(a, b) ensures ConditionPrecedes(a, b) {
      ConditionLeIsPrecedes(a, b);
    }
    SameOrder(RawConditionLe, ConditionPrecedes, Sort(RawConditionLe, Map(ConditionPayload, conditions)));
  }

  lemma TextsInOrder(texts: seq<string>)
    ensures SortedBy(TextPrecedes, Sort(TextLe, texts))
  {
    TextLeLinear();
    SortSorts(TextLe, texts);
    hide TextLe, TextPrecedes, Sort;
    forall a, b | TextLe(a, b) ensures TextPrecedes(a, b) {
      TextLeIff(a, b);
    }
    SameOrder(TextLe, TextPrecedes, Sort(TextLe, texts));
  }

  lemma PillarsInOrder(pillars: seq<Pillar>)
    ensures SortedBy(TextPrecedes, Map(RawKey, Map(PillarPayload, SortedPillars(pillars))))
  {
    MapSort(PillarKey, TextLe, pillars);
    TextsInOrder(Map(PillarKey, pillars));
    var sorted := SortedPillars(pillars);
    assert Map(RawKey, Map(PillarPayload, sorted)) == Map(PillarKey, sorted);
  }

  /** A payload lists pillars by key, claims by description and evidence, conditions by their four texts and
      monitoring by text, all ascending. */
  lemma PayloadIsOrdered(c: Content)
    ensures var p := Payload(c);
            && SortedBy(TextPrecedes, Map(RawKey, p.pillars))
            && SortedBy(ClaimPrecedes, p.catalysts) && SortedBy(ClaimPrecedes, p.risks)
            && SortedBy(ConditionPrecedes, p.conditions) && SortedBy(TextPrecedes, p.monitoring)
  {
    PillarsInOrder(c.pillars);
    ClaimsInOrder(c.catalysts);
    ClaimsInOrder(c.risks);
    ConditionsInOrder(c.conditions);
    TextsInOrder(c.monitoring);
    hide TextPrecedes, ClaimPrecedes, ConditionPrecedes, Map, Sort;
  }

  /** And every claim's evidence in ascending order. */
  lemma EvidenceIsOrdered(c: Claim, i: nat, j: nat)
    requires i < j < |ClaimPayload(c).evidence|
    ensures ClaimPayload(c).evidence[i] <= ClaimPayload(c).evidence[j]
    ensures multiset(ClaimPayload(c).evidence) == multiset(c.evidence) && ClaimPayload(c).description == c.description
  {
    IdLeLinear();
    SortSorts(IdLe, c.evidence);
    SortPermutes(IdLe, c.evidence);
  }
}
