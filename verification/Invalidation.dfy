/** Evaluating invalidation conditions against observations, and the proposal this may lead to. */
module Invalidation {
  import opened Options
  import opened Orders
  import opened Enums
  import opened Texts
  import opened Thesis
  import opened ThesisPayload
  import opened ThesisDiff
  import opened Thresholds

  datatype Observation = Observation(measurement: string, value: real, observedAt: int, evidence: seq<nat>) {
    predicate WellFormed() {
      IsText(measurement) && evidence != [] && Distinct(evidence)
    }
  }

  datatype ReviewCandidate = ReviewCandidate(forceReview: bool, actions: seq<Action>, evidence: seq<nat>)

  datatype Evaluation = Evaluation(
    triggered: seq<Condition>, unsupported: seq<Condition>, proposed: Option<Content>, review: Option<ReviewCandidate>)

  // ---------------------------------------------------------------------------------------------
  // What is executable, and what triggers
  // ---------------------------------------------------------------------------------------------

  /** Case folding, as far as it can lead into the letters of the two window names. */
  function Fold(s: string): (r: string)
    ensures |r| == |s|
  {
    if s == [] then []
    else [if s[0] == '\U{17F}' then 's' else LowerChar(s[0])] + Fold(s[1..])
  }

  predicate Supported(c: Condition) {
    Fold(c.window) in {"single observation", "single_observation"}
  }

  predicate Unsupported(c: Condition) {
    !Supported(c)
  }

  predicate Triggers(c: Condition, o: Observation) {
    var threshold := ReadThreshold(c.threshold);
    o.measurement == c.measurement && threshold.Some? && threshold.value.Holds(o.value)
  }

  function TriggeredBy(c: Condition): Observation -> bool {
    o => Triggers(c, o)
  }

  // ---------------------------------------------------------------------------------------------
  // Evaluation
  // ---------------------------------------------------------------------------------------------

  /** What observations are sorted by: everything but the value. */
  datatype Key = Key(at: int, measurement: string, evidence: seq<nat>)

  function KeyOf(o: Observation): Key {
    Key(o.observedAt, o.measurement, o.evidence)
  }

  predicate KeyLe(a: Key, b: Key) {
    if a.at != b.at then a.at < b.at
    else if a.measurement != b.measurement then TextLe(a.measurement, b.measurement)
    else IdsLe(a.evidence, b.evidence)
  }

  function SortedObservations(observations: seq<Observation>): seq<Observation> {
    Sort(By(KeyOf, KeyLe), observations)
  }

  datatype Hit = Hit(condition: Condition, observation: Observation)

  function HitOn(c: Condition): Observation -> Hit {
    o => Hit(c, o)
  }

  /** One condition against the observations in the given order. */
  function HitsOf(c: Condition, observations: seq<Observation>): seq<Hit> {
    Map(HitOn(c), Filter(TriggeredBy(c), observations))
  }

  function Hits(conditions: seq<Condition>, observations: seq<Observation>): seq<Hit> {
    if conditions == [] then []
    else
      var n := |conditions| - 1;
      Hits(conditions[..n], observations) + HitsOf(conditions[n], observations)
  }

  function ConditionOfHit(h: Hit): Condition {
    h.condition
  }

  function EvidenceOf(hits: seq<Hit>): seq<nat> {
    if hits == [] then [] else EvidenceOf(hits[..|hits| - 1]) + hits[|hits| - 1].observation.evidence
  }

  const OBSERVED: string := "Invalidation observed: "

  function RiskOf(h: Hit): Claim {
    Claim(OBSERVED + h.condition.condition, h.observation.evidence)
  }

  function Proposal(content: Content, hits: seq<Hit>): Content {
    content.(state := Broken, risks := content.risks + Map(RiskOf, hits), reason := Event)
  }

  function Outcome(content: Content, hits: seq<Hit>): Evaluation {
    var triggered, unsupported := Map(ConditionOfHit, hits), Filter(Unsupported, content.conditions);
    if hits == [] || content.state == Broken then Evaluation(triggered, unsupported, None, None)
    else
      Evaluation(triggered, unsupported, Some(Proposal(content, hits)),
                 Some(ReviewCandidate(true, [Reduce, Exit], Dedupe(EvidenceOf(hits)))))
  }

  function HitsFor(content: Content, observations: seq<Observation>): seq<Hit> {
    Hits(SortedConditions(Filter(Supported, content.conditions)), SortedObservations(observations))
  }

  function Evaluated(content: Content, observations: seq<Observation>): Evaluation {
    Outcome(content, HitsFor(content, observations))
  }

  lemma HitsStep(conditions: seq<Condition>, i: nat, observations: seq<Observation>)
    requires i < |conditions|
    ensures Hits(conditions[..i + 1], observations) == Hits(conditions[..i], observations) + HitsOf(conditions[i], observations)
  {
    assert conditions[..i + 1][..i] == conditions[..i];
  }

  lemma HitsOfStep(c: Condition, observations: seq<Observation>, j: nat)
    requires j < |observations|
    ensures HitsOf(c, observations[..j + 1])
         == HitsOf(c, observations[..j]) + (if Triggers(c, observations[j]) then [Hit(c, observations[j])] else [])
  {
    var p, o := TriggeredBy(c), observations[j];
    assert observations[..j + 1] == observations[..j] + [o];
    FilterAppend(p, observations[..j], [o]);
    assert Filter(p, [o]) == if Triggers(c, o) then [o] else [];
    MapAppend(HitOn(c), Filter(p, observations[..j]), Filter(p, [o]));
    assert Map(HitOn(c), [o]) == [Hit(c, o)];
  }

  /** The evaluation itself: two nested loops that collect, in order, what triggers. */
  method EvaluateInvalidation(content: Content, observations: seq<Observation>) returns (r: Evaluation)
    ensures r == Evaluated(content, observations)
  {
    hide HitsOf, Triggers, Hits;
    var conditions, sorted := SortedConditions(Filter(Supported, content.conditions)), SortedObservations(observations);
    var triggered: seq<Hit> := [];
    NoHitsYet(sorted);
    assert conditions[..0] == [];
    for i := 0 to |conditions|
      invariant triggered == Hits(conditions[..i], sorted)
    {
      var c := conditions[i];
      ghost var before := triggered;
      NoneOf(c);
      assert sorted[..0] == [];
      for j := 0 to |sorted|
        invariant triggered == before + HitsOf(c, sorted[..j])
      {
        var o := sorted[j];
        HitsOfStep(c, sorted, j);
        if Triggers(c, o) {
          triggered := triggered + [Hit(c, o)];
        }
      }
      assert sorted[..|sorted|] == sorted;
      HitsStep(conditions, i, sorted);
    }
    assert conditions[..|conditions|] == conditions;
    r := Outcome(content, triggered);
  }

  lemma NoHitsYet(observations: seq<Observation>)
    ensures Hits([], observations) == []
  {
  }

  lemma NoneOf(c: Condition)
    ensures HitsOf(c, []) == []
  {
  }

  // ---------------------------------------------------------------------------------------------
  // Exactness
  // ---------------------------------------------------------------------------------------------

  lemma HitsOfMembers(c: Condition, observations: seq<Observation>, h: Hit)
    ensures h in HitsOf(c, observations) <==> h.condition == c && h.observation in observations && Triggers(c, h.observation)
  {
    var kept := Filter(TriggeredBy(c), observations);
    FilterMembers(TriggeredBy(c), observations);
    var hits := Map(HitOn(c), kept);
    if h in hits {
      var i :| 0 <= i < |hits| && hits[i] == h;
      assert hits[i] == Hit(c, kept[i]) && kept[i] in kept;
    }
    if h.condition == c && h.observation in kept {
      var i :| 0 <= i < |kept| && kept[i] == h.observation;
      assert hits[i] == h;
    }
  }

  lemma {:induction false} HitsMembers(conditions: seq<Condition>, observations: seq<Observation>, h: Hit)
    ensures h in Hits(conditions, observations) <==>
      h.condition in conditions && h.observation in observations && Triggers(h.condition, h.observation)
  {
    if conditions != [] {
      var n := |conditions| - 1;
      HitsMembers(conditions[..n], observations, h);
      HitsOfMembers(conditions[n], observations, h);
      assert conditions == conditions[..n] + [conditions[n]];
      hide HitsOf, Triggers;
    }
  }

  /** The triggered pairs are exactly the supported conditions with a matching observation beyond the threshold. */
  lemma TriggeredExactly(content: Content, observations: seq<Observation>, h: Hit)
    ensures h in HitsFor(content, observations) <==>
      && h.condition in content.conditions && Supported(h.condition)
      && h.observation in observations && Triggers(h.condition, h.observation)
  {
    var supported := Filter(Supported, content.conditions);
    FilterMembers(Supported, content.conditions);
    MembersOfSort(By(ConditionPayload, RawConditionLe), supported);
    MembersOfSort(By(KeyOf, KeyLe), observations);
    HitsMembers(SortedConditions(supported), SortedObservations(observations), h);
  }

  /** Something is proposed exactly when something triggers and the thesis is not broken already. */
  lemma ProposedExactlyWhen(content: Content, observations: seq<Observation>)
    ensures var r := Evaluated(content, observations);
            && (r.proposed.Some? <==> r.review.Some?)
            && (r.proposed.Some? <==>
                  && content.state != Broken
                  && exists c, o :: c in content.conditions && Supported(c) && o in observations && Triggers(c, o))
  {
    var hits := HitsFor(content, observations);
    hide HitsFor, Supported, Triggers;
    if c, o :| c in content.conditions && Supported(c) && o in observations && Triggers(c, o) {
      TriggeredExactly(content, observations, Hit(c, o));
      assert Hit(c, o) in hits;
    }
    if hits != [] {
      assert hits[0] in hits;
      TriggeredExactly(content, observations, hits[0]);
    }
  }

  /** Every condition is reported for what it is: triggered by some observation, unsupported, or neither. */
  lemma ReportedExactly(content: Content, observations: seq<Observation>, c: Condition)
    ensures var r := Evaluated(content, observations);
            && (c in r.unsupported <==> c in content.conditions && !Supported(c))
            && (c in r.triggered <==>
                  c in content.conditions && Supported(c) && exists o :: o in observations && Triggers(c, o))
  {
    var hits := HitsFor(content, observations);
    var triggered := Map(ConditionOfHit, hits);
    FilterMembers(Unsupported, content.conditions);
    hide HitsFor, Supported, Triggers;
    if c in triggered {
      var i :| 0 <= i < |triggered| && triggered[i] == c;
      assert hits[i] in hits && hits[i].condition == c;
      TriggeredExactly(content, observations, hits[i]);
    }
    if o :| c in content.conditions && Supported(c) && o in observations && Triggers(c, o) {
      TriggeredExactly(content, observations, Hit(c, o));
      var i :| 0 <= i < |hits| && hits[i] == Hit(c, o);
      assert triggered[i] == c;
    }
  }

  /** The hits of one condition come in the order of the observations' keys. */
  lemma HitsOfAreInOrder(c: Condition, observations: seq<Observation>)
    ensures SortedBy(KeyLe, Map(KeyOf, Filter(TriggeredBy(c), SortedObservations(observations))))
  {
    var p, le := TriggeredBy(c), By(KeyOf, KeyLe);
    KeyLeLinear();
    ByIsPreorder(KeyOf, KeyLe);
    FilterSort(le, p, observations);
    MapSort(KeyOf, KeyLe, Filter(p, observations));
    SortSorts(KeyLe, Map(KeyOf, Filter(p, observations)));
  }

  predicate ConditionLe(a: Condition, b: Condition) {
    RawConditionLe(ConditionPayload(a), ConditionPayload(b))
  }

  lemma SortedThenSame<T>(le: (T, T) -> bool, x: seq<T>, y: seq<T>, last: T)
    requires SortedBy(le, x) && le(last, last)
    requires (forall a :: a in x ==> le(a, last)) && forall b :: b in y ==> b == last
    ensures SortedBy(le, x + y)
  {
    var s := x + y;
    forall i, j | 0 <= i < j < |s| ensures le(s[i], s[j]) {
      assert i < |x| ==> s[i] in x;
      assert |x| <= i ==> s[i] in y;
      assert |x| <= j ==> s[j] in y;
    }
  }

  lemma ConditionsOfHits(conditions: seq<Condition>, observations: seq<Observation>)
    ensures forall c :: c in Map(ConditionOfHit, Hits(conditions, observations)) ==> c in conditions
  {
    var hits := Hits(conditions, observations);
    var of := Map(ConditionOfHit, hits);
    forall c | c in of ensures c in conditions {
      var i :| 0 <= i < |of| && of[i] == c;
      HitsMembers(conditions, observations, hits[i]);
      assert hits[i] in hits;
    }
  }

  lemma {:induction false} HitsKeepConditionOrder(conditions: seq<Condition>, observations: seq<Observation>)
    requires SortedBy(ConditionLe, conditions) && Preorder(ConditionLe)
    ensures SortedBy(ConditionLe, Map(ConditionOfHit, Hits(conditions, observations)))
  {
    if conditions != [] {
      var n := |conditions| - 1;
      var c := conditions[n];
      var before, last := Hits(conditions[..n], observations), HitsOf(c, observations);
      HitsKeepConditionOrder(conditions[..n], observations);
      MapAppend(ConditionOfHit, before, last);
      ConditionsOfHits(conditions[..n], observations);
      ConditionsOfHits([c], observations);
      assert Hits([c], observations) == Hits([], observations) + last;
      hide HitsOf, Hits, ConditionLe, Map;
      forall a | a in conditions[..n] ensures ConditionLe(a, c) {
        var k :| 0 <= k < n && conditions[k] == a;
      }
      SortedThenSame(ConditionLe, Map(ConditionOfHit, before), Map(ConditionOfHit, last), c);
    }
  }

  /** The triggered conditions come in the order of their texts, whatever order the thesis lists them in. */
  lemma TriggeredInOrder(content: Content, observations: seq<Observation>)
    ensures SortedBy(ConditionLe, Evaluated(content, observations).triggered)
  {
    var le, supported := By(ConditionPayload, RawConditionLe), Filter(Supported, content.conditions);
    RawConditionLeLinear();
    ByIsPreorder(ConditionPayload, RawConditionLe);
    SortSorts(le, supported);
    var conditions := SortedConditions(supported);
    forall i, j | 0 <= i < j < |conditions| ensures ConditionLe(conditions[i], conditions[j]) {
      assert le(conditions[i], conditions[j]);
    }
    hide SortedConditions, SortedObservations, Hits, Sort;
    HitsKeepConditionOrder(conditions, SortedObservations(observations));
  }

  // ---------------------------------------------------------------------------------------------
  // Order independence
  // ---------------------------------------------------------------------------------------------

  lemma KeyLeLinear()
    ensures Linear(KeyLe)
  {
    TextLeLinear();
    IdsLeLinear();
  }

  datatype Trace = Trace(condition: Condition, key: Key)

  function TraceOf(h: Hit): Trace {
    Trace(h.condition, KeyOf(h.observation))
  }

  function TraceOn(c: Condition): Key -> Trace {
    k => Trace(c, k)
  }

  lemma TracesOf(c: Condition, observations: seq<Observation>)
    ensures Map(TraceOf, HitsOf(c, SortedObservations(observations)))
         == Map(TraceOn(c), Sort(KeyLe, Map(KeyOf, Filter(TriggeredBy(c), observations))))
  {
    var p, le := TriggeredBy(c), By(KeyOf, KeyLe);
    KeyLeLinear();
    ByIsPreorder(KeyOf, KeyLe);
    FilterSort(le, p, observations);
    var kept := Sort(le, Filter(p, observations));
    MapSort(KeyOf, KeyLe, Filter(p, observations));
    assert Map(TraceOf, Map(HitOn(c), kept)) == Map(TraceOn(c), Map(KeyOf, kept));
  }

  /** Which observations trigger a condition, and under which keys, does not depend on their order. */
  lemma TracesOfPermutation(c: Condition, a: seq<Observation>, b: seq<Observation>)
    requires multiset(a) == multiset(b)
    ensures Map(TraceOf, HitsOf(c, SortedObservations(a))) == Map(TraceOf, HitsOf(c, SortedObservations(b)))
  {
    var p := TriggeredBy(c);
    TracesOf(c, a);
    TracesOf(c, b);
    FilterPermutes(p, a, b);
    MapPermutes(KeyOf, Filter(p, a), Filter(p, b));
    KeyLeLinear();
    SortDecidesPermutation(KeyLe, Map(KeyOf, Filter(p, a)), Map(KeyOf, Filter(p, b)));
  }

  lemma {:induction false} HitsOfPermutation(conditions: seq<Condition>, a: seq<Observation>, b: seq<Observation>)
    requires multiset(a) == multiset(b)
    ensures Map(TraceOf, Hits(conditions, SortedObservations(a))) == Map(TraceOf, Hits(conditions, SortedObservations(b)))
  {
    if conditions != [] {
      var n := |conditions| - 1;
      var x, y := SortedObservations(a), SortedObservations(b);
      HitsOfPermutation(conditions[..n], a, b);
      TracesOfPermutation(conditions[n], a, b);
      hide HitsOf, SortedObservations;
      MapAppend(TraceOf, Hits(conditions[..n], x), HitsOf(conditions[n], x));
      MapAppend(TraceOf, Hits(conditions[..n], y), HitsOf(conditions[n], y));
    }
  }

  lemma {:induction false} EvidenceDependsOnTraces(a: seq<Hit>, b: seq<Hit>)
    requires Map(TraceOf, a) == Map(TraceOf, b)
    ensures EvidenceOf(a) == EvidenceOf(b)
  {
    assert |Map(TraceOf, a)| == |a| && |Map(TraceOf, b)| == |b|;
    if a != [] {
      var n := |a| - 1;
      assert TraceOf(a[n]) == Map(TraceOf, a)[n] == TraceOf(b[n]);
      assert Map(TraceOf, a[..n]) == Map(TraceOf, a)[..n] && Map(TraceOf, b[..n]) == Map(TraceOf, b)[..n];
      EvidenceDependsOnTraces(a[..n], b[..n]);
    }
  }

  /** The outcome uses conditions and keys only, never the observed values or their original order. */
  lemma OutcomeDependsOnTraces(content: Content, a: seq<Hit>, b: seq<Hit>)
    requires Map(TraceOf, a) == Map(TraceOf, b)
    ensures Outcome(content, a) == Outcome(content, b)
  {
    EvidenceDependsOnTraces(a, b);
    assert |Map(TraceOf, a)| == |a| && |Map(TraceOf, b)| == |b|;
    forall i | 0 <= i < |a| ensures ConditionOfHit(a[i]) == ConditionOfHit(b[i]) && RiskOf(a[i]) == RiskOf(b[i]) {
      assert TraceOf(a[i]) == Map(TraceOf, a)[i] == TraceOf(b[i]);
    }
    assert Map(ConditionOfHit, a) == Map(ConditionOfHit, b);
    assert Map(RiskOf, a) == Map(RiskOf, b);
  }

  /** Permuting the observations, ties included, changes nothing. */
  lemma EvaluationIgnoresOrder(content: Content, a: seq<Observation>, b: seq<Observation>)
    requires multiset(a) == multiset(b)
    ensures Evaluated(content, a) == Evaluated(content, b)
  {
    var conditions := SortedConditions(Filter(Supported, content.conditions));
    HitsOfPermutation(conditions, a, b);
    OutcomeDependsOnTraces(content, HitsFor(content, a), HitsFor(content, b));
  }

  // ---------------------------------------------------------------------------------------------
  // The proposal
  // ---------------------------------------------------------------------------------------------

  lemma {:induction false} EvidenceOfHits(hits: seq<Hit>, e: nat)
    ensures e in EvidenceOf(hits) <==> exists h :: h in hits && e in h.observation.evidence
  {
    if hits != [] {
      var n := |hits| - 1;
      EvidenceOfHits(hits[..n], e);
      assert hits == hits[..n] + [hits[n]];
    }
  }

  lemma RisksAreWellFormed(hits: seq<Hit>)
    requires forall h :: h in hits ==> h.condition.WellFormed() && h.observation.WellFormed()
    ensures forall r :: r in Map(RiskOf, hits) ==> r.WellFormed()
  {
    var risks := Map(RiskOf, hits);
    forall r | r in risks ensures r.WellFormed() {
      var i :| 0 <= i < |risks| && risks[i] == r;
      assert hits[i] in hits && r == RiskOf(hits[i]);
      PrefixedText(OBSERVED, hits[i].condition.condition);
    }
  }

  /** A proposal satisfies every invariant of a thesis; only state, reason and appended risks differ. */
  lemma ProposalIsWellFormed(content: Content, observations: seq<Observation>)
    requires content.WellFormed() && forall o :: o in observations ==> o.WellFormed()
    ensures var r := Evaluated(content, observations);
            r.proposed.Some? ==>
              && r.proposed.value.WellFormed() && r.proposed.value.state == Broken && r.proposed.value.reason == Event
              && content.risks <= r.proposed.value.risks
              && r.proposed.value.(state := content.state, risks := content.risks, reason := content.reason) == content
  {
    var hits := HitsFor(content, observations);
    forall h | h in hits ensures h.condition.WellFormed() && h.observation.WellFormed() && h.condition in content.conditions {
      TriggeredExactly(content, observations, h);
    }
    RisksAreWellFormed(hits);
    hide HitsFor;
    if hits != [] {
      assert hits[0] in hits;
    }
  }

  /** The forced review cites, once each, exactly the triggering evidence, and the proposal rests on all of it. */
  lemma ReviewEvidenceIsCovered(content: Content, observations: seq<Observation>)
    ensures var r := Evaluated(content, observations);
            r.review.Some? ==>
              && r.proposed.Some? && Distinct(r.review.value.evidence)
              && (forall e :: e in r.review.value.evidence ==> e in Dedupe(References(r.proposed.value)))
              && (forall e :: e in r.review.value.evidence <==>
                    exists h :: h in HitsFor(content, observations) && e in h.observation.evidence)
  {
    var hits := HitsFor(content, observations);
    hide HitsFor;
    forall e ensures e in EvidenceOf(hits) <==> exists h :: h in hits && e in h.observation.evidence {
      EvidenceOfHits(hits, e);
    }
    if hits != [] && content.state != Broken {
      var p := Proposal(content, hits);
      forall e | e in EvidenceOf(hits) ensures e in References(p) {
        var h :| h in hits && e in h.observation.evidence;
        RiskIsReferenced(content, hits, h, e);
      }
    }
  }

  lemma RiskIsReferenced(content: Content, hits: seq<Hit>, h: Hit, e: nat)
    requires h in hits && e in h.observation.evidence
    ensures e in References(Proposal(content, hits))
  {
    var p := Proposal(content, hits);
    var risks := Map(RiskOf, hits);
    var i :| 0 <= i < |hits| && hits[i] == h;
    assert risks[i] == RiskOf(h);
    assert RiskOf(h) in p.catalysts + p.risks by {
      assert p.risks[|content.risks| + i] == risks[i];
    }
    ClaimReferencesMembers(p.catalysts + p.risks, e);
  }

  /**
   * A proposal differs materially from the content it was made from, and from whatever is stored
   * under that content's hash: a write that passes the staleness check always adds a version.
   */
  lemma ProposalIsMaterial(content: Content, observations: seq<Observation>, stored: Content)
    requires content.WellFormed() && stored.WellFormed() && Payload(stored) == Payload(content)
    ensures var r := Evaluated(content, observations);
            r.proposed.Some? ==>
              && SemanticDiff(content, r.proposed.value).IsMaterial()
              && Parse(Payload(stored)).Some?
              && SemanticDiff(Parse(Payload(stored)).value, r.proposed.value).IsMaterial()
  {
    ReadBack(content);
    hide HitsFor, Payload, Parse, Map, Filter, SortedClaims, SortedConditions, SortedPillars, Members, ByKey;
  }
}
