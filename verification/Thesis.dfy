/** Thesis content: evidence-backed claims, what a well-formed thesis is, and the evidence it rests on. */
module Thesis {
  import opened Enums
  import opened Texts

  datatype PillarStatus = PillarValid | PillarAtRisk | PillarInvalid
  datatype ChangeReason = NewEvidence | ScheduledReview | Event | HumanCorrection

  /** Evidence is named by its identifier; the text order of identifiers is their numeric order. */
  datatype Claim = Claim(description: string, evidence: seq<nat>) {
    predicate WellFormed() {
      IsText(description) && evidence != [] && Distinct(evidence)
    }
  }

  datatype Pillar = Pillar(key: string, claim: Claim, status: PillarStatus) {
    predicate WellFormed() {
      IsText(key) && claim.WellFormed()
    }
  }

  datatype Condition = Condition(condition: string, measurement: string, threshold: string, window: string) {
    predicate WellFormed() {
      IsText(condition) && IsText(measurement) && IsText(threshold) && IsText(window)
    }
  }

  datatype Content = Content(
    state: ThesisState, summary: string, pillars: seq<Pillar>, catalysts: seq<Claim>, risks: seq<Claim>,
    conditions: seq<Condition>, monitoring: seq<string>, reason: ChangeReason)
  {
    /** What the constructor demands of a thesis. */
    predicate WellFormed() {
      && IsText(summary)
      && pillars != [] && (forall p :: p in pillars ==> p.WellFormed())
      && DistinctKeys(pillars)
      && (forall c :: c in catalysts ==> c.WellFormed())
      && (forall c :: c in risks ==> c.WellFormed())
      && (forall c :: c in conditions ==> c.WellFormed())
      && (forall m :: m in monitoring ==> IsText(m))
      && (state == Broken ==> conditions != [])
    }
  }

  predicate Distinct<T(==)>(s: seq<T>) {
    forall i, j :: 0 <= i < j < |s| ==> s[i] != s[j]
  }

  predicate DistinctKeys(pillars: seq<Pillar>) {
    forall i, j :: 0 <= i < j < |pillars| ==> pillars[i].key != pillars[j].key
  }

  // ---------------------------------------------------------------------------------------------
  // Evidence in first-reference order
  // ---------------------------------------------------------------------------------------------

  /** Every reference, pillars first, then catalysts, then risks, with repetitions. */
  function References(c: Content): seq<nat> {
    PillarReferences(c.pillars) + ClaimReferences(c.catalysts + c.risks)
  }

  function ClaimReferences(claims: seq<Claim>): seq<nat> {
    if claims == [] then [] else ClaimReferences(claims[..|claims| - 1]) + claims[|claims| - 1].evidence
  }

  function PillarReferences(pillars: seq<Pillar>): seq<nat> {
    if pillars == [] then []
    else PillarReferences(pillars[..|pillars| - 1]) + pillars[|pillars| - 1].claim.evidence
  }

  /** The references without repetitions, each where it first occurs. */
  function Dedupe(refs: seq<nat>): (r: seq<nat>)
    ensures Distinct(r)
    ensures forall e :: e in r <==> e in refs
  {
    if refs == [] then []
    else
      var before := Dedupe(refs[..|refs| - 1]);
      var last := refs[|refs| - 1];
      assert refs == refs[..|refs| - 1] + [last];
      if last in before then before else before + [last]
  }

  /** The position of the first occurrence. */
  function FirstAt(refs: seq<nat>, e: nat): (i: nat)
    requires e in refs
    ensures i < |refs| && refs[i] == e && e !in refs[..i]
  {
    if refs[0] == e then 0
    else
      assert refs == [refs[0]] + refs[1..];
      var i := 1 + FirstAt(refs[1..], e);
      assert refs[..i] == [refs[0]] + refs[1..][..i - 1];
      i
  }

  lemma FirstAtIsUnique(refs: seq<nat>, e: nat, i: nat)
    requires i < |refs| && refs[i] == e && e !in refs[..i]
    ensures FirstAt(refs, e) == i
  {
    var f := FirstAt(refs, e);
  }

  /** Deduplication keeps first-reference order. */
  lemma {:induction false} DedupeKeepsFirstReferenceOrder(refs: seq<nat>, i: nat, j: nat)
    requires i < j < |Dedupe(refs)|
    ensures FirstAt(refs, Dedupe(refs)[i]) < FirstAt(refs, Dedupe(refs)[j])
  {
    var n := |refs| - 1;
    var before := refs[..n];
    var last := refs[n];
    var d := Dedupe(before);
    assert Dedupe(refs) == if last in d then d else d + [last];
    var a := Dedupe(refs)[i];
    assert a == d[i] && a in before;
    var fa := FirstAt(before, a);
    assert refs[..fa] == before[..fa];
    FirstAtIsUnique(refs, a, fa);
    if j < |d| {
      var b := d[j];
      assert b in before;
      var fb := FirstAt(before, b);
      assert refs[..fb] == before[..fb];
      FirstAtIsUnique(refs, b, fb);
      DedupeKeepsFirstReferenceOrder(before, i, j);
    } else {
      FirstAtIsUnique(refs, last, n);
    }
  }

  lemma {:induction false} DedupeAppend(refs: seq<nat>, more: seq<nat>, k: nat)
    requires k < |more|
    ensures Dedupe(refs + more[..k + 1])
         == if more[k] in Dedupe(refs + more[..k]) then Dedupe(refs + more[..k])
            else Dedupe(refs + more[..k]) + [more[k]]
  {
    var longer := refs + more[..k + 1];
    assert longer[..|longer| - 1] == refs + more[..k];
  }

  method AppendNew(found: seq<nat>, ids: seq<nat>, ghost refs: seq<nat>) returns (r: seq<nat>)
    requires found == Dedupe(refs)
    ensures r == Dedupe(refs + ids)
  {
    r := found;
    assert refs + ids[..0] == refs;
    for k := 0 to |ids|
      invariant r == Dedupe(refs + ids[..k])
    {
      DedupeAppend(refs, ids, k);
      if ids[k] !in r {
        r := r + [ids[k]];
      }
    }
    assert ids[..|ids|] == ids;
  }

  lemma PillarReferencesStep(pillars: seq<Pillar>, i: nat)
    requires i < |pillars|
    ensures PillarReferences(pillars[..i + 1]) == PillarReferences(pillars[..i]) + pillars[i].claim.evidence
  {
    assert pillars[..i + 1][..i] == pillars[..i];
  }

  lemma ClaimReferencesStep(claims: seq<Claim>, i: nat, refs: seq<nat>)
    requires i < |claims|
    ensures refs + ClaimReferences(claims[..i + 1]) == refs + ClaimReferences(claims[..i]) + claims[i].evidence
  {
    assert claims[..i + 1][..i] == claims[..i];
  }

  /** All evidence a thesis rests on, without repetitions, in first-reference order. */
  method EvidenceIds(c: Content) returns (ids: seq<nat>)
    ensures ids == Dedupe(References(c))
    ensures Distinct(ids) && forall e :: e in ids <==> e in References(c)
  {
    ids := [];
    for i := 0 to |c.pillars|
      invariant ids == Dedupe(PillarReferences(c.pillars[..i]))
    {
      ids := AppendNew(ids, c.pillars[i].claim.evidence, PillarReferences(c.pillars[..i]));
      PillarReferencesStep(c.pillars, i);
    }
    assert c.pillars[..|c.pillars|] == c.pillars;
    var claims := c.catalysts + c.risks;
    ghost var refs := PillarReferences(c.pillars);
    assert refs + ClaimReferences(claims[..0]) == refs;
    for i := 0 to |claims|
      invariant ids == Dedupe(refs + ClaimReferences(claims[..i]))
    {
      ids := AppendNew(ids, claims[i].evidence, refs + ClaimReferences(claims[..i]));
      ClaimReferencesStep(claims, i, refs);
    }
    assert claims[..|claims|] == claims;
  }

  /** What is referenced: the evidence of the pillars, the catalysts and the risks, and nothing else. */
  lemma {:induction false} ClaimReferencesMembers(claims: seq<Claim>, e: nat)
    ensures e in ClaimReferences(claims) <==> exists c :: c in claims && e in c.evidence
  {
    if claims != [] {
      var n := |claims| - 1;
      assert claims == claims[..n] + [claims[n]];
      ClaimReferencesMembers(claims[..n], e);
      if c :| c in claims[..n] && e in c.evidence {
        assert c in claims;
      }
    }
  }
}
