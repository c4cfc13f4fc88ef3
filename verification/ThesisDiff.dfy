/** Comparing two thesis contents, and when writing a thesis again adds a version. */
module ThesisDiff {
  import opened Enums
  import opened Orders
  import opened Texts
  import opened Thesis
  import opened ThesisPayload

  /** The differences; the lists the program shows are these sets in sorted order. */
  datatype Diff = Diff(
    stateChanged: bool, summaryChanged: bool,
    addedPillars: set<string>, removedPillars: set<string>, changedPillars: set<string>,
    addedCatalysts: set<Claim>, removedCatalysts: set<Claim>,
    addedRisks: set<Claim>, removedRisks: set<Claim>,
    addedConditions: set<Condition>, removedConditions: set<Condition>,
    addedMonitoring: set<string>, removedMonitoring: set<string>)
  {
    predicate IsMaterial() {
      || stateChanged || summaryChanged
      || addedPillars != {} || removedPillars != {} || changedPillars != {}
      || addedCatalysts != {} || removedCatalysts != {} || addedRisks != {} || removedRisks != {}
      || addedConditions != {} || removedConditions != {} || addedMonitoring != {} || removedMonitoring != {}
    }

    function Swap(): Diff {
      Diff(stateChanged, summaryChanged, removedPillars, addedPillars, changedPillars,
           removedCatalysts, addedCatalysts, removedRisks, addedRisks,
           removedConditions, addedConditions, removedMonitoring, addedMonitoring)
    }
  }

  function Members<T(==)>(s: seq<T>): set<T> {
    set x | x in s
  }

  /** The pillars by key; a later pillar would replace an earlier one with its key. */
  function ByKey(pillars: seq<Pillar>): map<string, Pillar> {
    if pillars == [] then map[]
    else ByKey(pillars[..|pillars| - 1])[pillars[|pillars| - 1].key := pillars[|pillars| - 1]]
  }

  function SemanticDiff(previous: Content, current: Content): Diff {
    var before, after := ByKey(previous.pillars), ByKey(current.pillars);
    Diff(
      previous.state != current.state,
      previous.summary != current.summary,
      after.Keys - before.Keys,
      before.Keys - after.Keys,
      (set k | k in before.Keys * after.Keys && before[k] != after[k]),
      Members(current.catalysts) - Members(previous.catalysts),
      Members(previous.catalysts) - Members(current.catalysts),
      Members(current.risks) - Members(previous.risks),
      Members(previous.risks) - Members(current.risks),
      Members(current.conditions) - Members(previous.conditions),
      Members(previous.conditions) - Members(current.conditions),
      Members(current.monitoring) - Members(previous.monitoring),
      Members(previous.monitoring) - Members(current.monitoring))
  }

  // ---------------------------------------------------------------------------------------------
  // The diff leads from the previous content to the current one, and back
  // ---------------------------------------------------------------------------------------------

  /** Takes `removed` out, which must be there, and puts `added` in, which must not be. */
  predicate LeadsTo<T(==)>(before: set<T>, removed: set<T>, added: set<T>, after: set<T>) {
    removed <= before && added !! before && before - removed + added == after
  }

  lemma DiffLeadsFromPreviousToCurrent(previous: Content, current: Content)
    ensures SemanticDiff(previous, current).stateChanged <==> previous.state != current.state
    ensures SemanticDiff(previous, current).summaryChanged <==> previous.summary != current.summary
    ensures var d := SemanticDiff(previous, current);
            && LeadsTo(Members(previous.catalysts), d.removedCatalysts, d.addedCatalysts, Members(current.catalysts))
            && LeadsTo(Members(previous.risks), d.removedRisks, d.addedRisks, Members(current.risks))
            && LeadsTo(Members(previous.conditions), d.removedConditions, d.addedConditions, Members(current.conditions))
            && LeadsTo(Members(previous.monitoring), d.removedMonitoring, d.addedMonitoring, Members(current.monitoring))
    ensures var d := SemanticDiff(previous, current);
            var before, after := ByKey(previous.pillars), ByKey(current.pillars);
            && LeadsTo(before.Keys, d.removedPillars, d.addedPillars, after.Keys)
            && (forall k :: k in before && k !in d.removedPillars ==> k in after && (k in d.changedPillars <==> before[k] != after[k]))
            && d.changedPillars <= before.Keys - d.removedPillars
    ensures SemanticDiff(current, previous) == SemanticDiff(previous, current).Swap()
  {
    var before, after := ByKey(previous.pillars), ByKey(current.pillars);
    hide ByKey;
    var there, back := SemanticDiff(previous, current), SemanticDiff(current, previous);
    assert there.changedPillars == back.changedPillars;
  }

  /** Nothing differs exactly when the two say the same as sets; order and change reason do not matter. */
  lemma ImmaterialIffSameSets(previous: Content, current: Content)
    ensures !SemanticDiff(previous, current).IsMaterial() <==>
      && previous.state == current.state && previous.summary == current.summary
      && ByKey(previous.pillars) == ByKey(current.pillars)
      && Members(previous.catalysts) == Members(current.catalysts)
      && Members(previous.risks) == Members(current.risks)
      && Members(previous.conditions) == Members(current.conditions)
      && Members(previous.monitoring) == Members(current.monitoring)
  {
    var before, after := ByKey(previous.pillars), ByKey(current.pillars);
    hide ByKey;
    SamePillars(before, after);
    SameSets(Members(previous.catalysts), Members(current.catalysts));
    SameSets(Members(previous.risks), Members(current.risks));
    SameSets(Members(previous.conditions), Members(current.conditions));
    SameSets(Members(previous.monitoring), Members(current.monitoring));
    hide Members;
  }

  lemma SameSets<T>(a: set<T>, b: set<T>)
    ensures a - b == {} && b - a == {} <==> a == b
  {
    if a - b == {} && b - a == {} {
      assert forall x :: x in a ==> x in b || x in a - b;
      assert forall x :: x in b ==> x in a || x in b - a;
    }
  }

  lemma SamePillars(before: map<string, Pillar>, after: map<string, Pillar>)
    ensures && after.Keys - before.Keys == {} && before.Keys - after.Keys == {}
            && (set k | k in before.Keys * after.Keys && before[k] != after[k]) == {}
        <==> before == after
  {
    SameSets(before.Keys, after.Keys);
    var changed := set k | k in before.Keys * after.Keys && before[k] != after[k];
    if before.Keys == after.Keys && changed == {} {
      forall k | k in before.Keys ensures before[k] == after[k] {
        assert k !in changed;
      }
    }
  }

  // ---------------------------------------------------------------------------------------------
  // Writing the same thesis again
  // ---------------------------------------------------------------------------------------------

  predicate Sorted(ids: seq<nat>) {
    forall i, j :: 0 <= i < j < |ids| ==> ids[i] <= ids[j]
  }

  /** Every claim lists its evidence in identifier order. */
  predicate EvidenceSorted(c: Content) {
    && (forall p :: p in c.pillars ==> Sorted(p.claim.evidence))
    && (forall x :: x in c.catalysts ==> Sorted(x.evidence))
    && (forall x :: x in c.risks ==> Sorted(x.evidence))
  }

  lemma SortedIffCanonical(c: Claim)
    ensures Sorted(c.evidence) <==> CanonClaim(c) == c
  {
    IdLeLinear();
    SortSorts(IdLe, c.evidence);
    if Sorted(c.evidence) {
      SortOfSorted(IdLe, c.evidence);
    }
  }

  lemma SameClaimsIffSorted(claims: seq<Claim>)
    ensures Members(Map(CanonClaim, SortedClaims(claims))) == Members(claims)
        <==> forall x :: x in claims ==> Sorted(x.evidence)
  {
    var sorted := SortedClaims(claims);
    var canon := Map(CanonClaim, sorted);
    MembersOfSort(By(ClaimPayload, RawClaimLe), claims);
    if forall x :: x in claims ==> Sorted(x.evidence) {
      forall i | 0 <= i < |sorted| ensures canon[i] == sorted[i] {
        assert sorted[i] in claims;
        SortedIffCanonical(sorted[i]);
      }
      assert canon == sorted;
    }
    if Members(canon) == Members(claims) {
      forall x | x in claims ensures Sorted(x.evidence) {
        assert x in Members(claims);
        assert x in canon;
        var i :| 0 <= i < |canon| && canon[i] == x;
        CanonClaimIsCanonical(sorted[i]);
        SortedIffCanonical(x);
      }
    }
  }

  lemma {:induction false} ByKeyFinds(pillars: seq<Pillar>)
    requires DistinctKeys(pillars)
    ensures forall p :: p in pillars ==> p.key in ByKey(pillars) && ByKey(pillars)[p.key] == p
    ensures forall k :: k in ByKey(pillars) ==> ByKey(pillars)[k] in pillars && ByKey(pillars)[k].key == k
  {
    if pillars != [] {
      var n := |pillars| - 1;
      ByKeyFinds(pillars[..n]);
      assert pillars == pillars[..n] + [pillars[n]];
    }
  }

  lemma CanonPillarMembers(pillars: seq<Pillar>)
    ensures forall q :: q in Map(CanonPillar, SortedPillars(pillars)) <==> exists p :: p in pillars && q == CanonPillar(p)
  {
    var sorted := SortedPillars(pillars);
    var canon := Map(CanonPillar, sorted);
    MembersOfSort(By(PillarKey, TextLe), pillars);
    forall q | q in canon ensures exists p :: p in pillars && q == CanonPillar(p) {
      var i :| 0 <= i < |canon| && canon[i] == q;
      assert sorted[i] in pillars;
    }
    forall p | p in pillars ensures CanonPillar(p) in canon {
      var i :| 0 <= i < |sorted| && sorted[i] == p;
      assert canon[i] == CanonPillar(p);
    }
  }

  lemma PillarMapsAgree(pillars: seq<Pillar>, canon: map<string, Pillar>, plain: map<string, Pillar>)
    requires forall p :: p in pillars ==> p.key in plain && plain[p.key] == p
    requires forall p :: p in pillars ==> p.key in canon && canon[p.key] == CanonPillar(p)
    requires forall k :: k in plain ==> plain[k] in pillars && plain[k].key == k
    requires forall k :: k in canon ==> k in plain
    ensures canon == plain <==> forall p :: p in pillars ==> CanonPillar(p) == p
  {
    hide CanonPillar;
    if forall p :: p in pillars ==> CanonPillar(p) == p {
      assert canon.Keys == plain.Keys;
      forall k | k in plain ensures canon[k] == plain[k] {
        assert plain[k] in pillars;
      }
    }
  }

  lemma CanonByKey(pillars: seq<Pillar>)
    requires DistinctKeys(pillars) && forall p :: p in pillars ==> p.WellFormed()
    ensures var canon := ByKey(Map(CanonPillar, SortedPillars(pillars)));
            && (forall p :: p in pillars ==> p.key in canon && canon[p.key] == CanonPillar(p))
            && (forall k :: k in canon ==> k in ByKey(pillars))
  {
    var rows := Map(CanonPillar, SortedPillars(pillars));
    PillarsReadBack(pillars);
    ByKeyFinds(pillars);
    ByKeyFinds(rows);
    CanonPillarMembers(pillars);
    hide ByKey, SortedPillars, Map;
    forall p | p in pillars ensures p.key in ByKey(rows) && ByKey(rows)[p.key] == CanonPillar(p) {
      assert CanonPillar(p) in rows;
    }
    forall k | k in ByKey(rows) ensures k in ByKey(pillars) {
      var q := ByKey(rows)[k];
      var p :| p in pillars && q == CanonPillar(p);
      assert p.key == k;
    }
  }

  lemma SamePillarsIffSorted(pillars: seq<Pillar>)
    requires DistinctKeys(pillars) && forall p :: p in pillars ==> p.WellFormed()
    ensures ByKey(Map(CanonPillar, SortedPillars(pillars))) == ByKey(pillars)
        <==> forall p :: p in pillars ==> Sorted(p.claim.evidence)
  {
    ByKeyFinds(pillars);
    CanonByKey(pillars);
    PillarMapsAgree(pillars, ByKey(Map(CanonPillar, SortedPillars(pillars))), ByKey(pillars));
    forall p: Pillar ensures Sorted(p.claim.evidence) <==> CanonPillar(p) == p {
      SortedIffCanonical(p.claim);
    }
    hide ByKey, SortedPillars, Map, Sorted, CanonPillar;
  }

  lemma CanonDiffersInEvidenceOrderOnly(c: Content)
    requires c.WellFormed()
    ensures !SemanticDiff(Canon(c), c).IsMaterial() <==> EvidenceSorted(c)
  {
    var canon := Canon(c);
    MembersOfSort(By(ConditionPayload, RawConditionLe), c.conditions);
    MembersOfSort(TextLe, c.monitoring);
    assert Members(canon.conditions) == Members(c.conditions);
    assert Members(canon.monitoring) == Members(c.monitoring);
    hide Members, ByKey, SortedPillars, SortedClaims, SortedConditions, Map, Sort, SemanticDiff, Sorted, IsText;
    ImmaterialIffSameSets(canon, c);
    SamePillarsIffSorted(c.pillars);
    SameClaimsIffSorted(c.catalysts);
    SameClaimsIffSorted(c.risks);
  }

  /**
   * A thesis whose payload is already stored is unchanged, so writing it adds no version, if and only
   * if every claim lists its evidence in order.
   */
  lemma RewriteIsImmaterialIffEvidenceSorted(stored: Content, c: Content)
    requires stored.WellFormed() && c.WellFormed() && Payload(stored) == Payload(c)
    ensures Parse(Payload(stored)).Some?
    ensures !SemanticDiff(Parse(Payload(stored)).value, c).IsMaterial() <==> EvidenceSorted(c)
  {
    hide Payload, Parse, Canon, SemanticDiff, EvidenceSorted;
    ReadBack(c);
    CanonDiffersInEvidenceOrderOnly(c);
  }

  /** Reading a thesis back and writing that adds no version. */
  lemma WritingBackIsImmaterial(c: Content)
    requires c.WellFormed()
    ensures Parse(Payload(c)).Some?
    ensures !SemanticDiff(Parse(Payload(c)).value, Parse(Payload(c)).value).IsMaterial()
  {
    ReadBack(c);
    ImmaterialIffSameSets(Canon(c), Canon(c));
  }

  /** One pillar whose claim lists evidence 2 before 1. */
  function Unsorted(): Content {
    Content(Valid, "s", [Pillar("k", Claim("d", [2, 1]), PillarValid)], [], [], [], [], NewEvidence)
  }

  /** The payload and hash of this thesis equal the stored ones, yet the diff finds a changed pillar. */
  lemma UnsortedEvidenceAddsAVersion()
    ensures var c := Unsorted();
            c.WellFormed() && Parse(Payload(c)).Some? && SemanticDiff(Parse(Payload(c)).value, c).IsMaterial()
  {
    var c := Unsorted();
    assert c.pillars[0] in c.pillars;
    assert c.WellFormed();
    assert !Sorted([2, 1]) by {
      var e: seq<nat> := [2, 1];
      assert e[0] > e[1];
    }
    RewriteIsImmaterialIffEvidenceSorted(c, c);
  }
}
