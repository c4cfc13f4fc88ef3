/** What an evaluation finds, reports and proposes, in terms of the thesis, the observations and the texts alone. */
module InvalidationRules {
  import opened Options
  import opened Orders
  import opened Enums
  import opened Texts
  import opened Thesis
  import opened ThesisPayload
  import opened Thresholds
  import opened Invalidation

  // ---------------------------------------------------------------------------------------------
  // What counts
  // ---------------------------------------------------------------------------------------------

  /** One of the two window names, in any mixture of cases. */
  predicate IsSingleObservation(window: string) {
    Spells(window, "single observation") || Spells(window, "single_observation")
  }

  /** The observation is of the condition's measurement, and its value is on the side of the bound that the
      condition's threshold text names. */
  ghost predicate Breaches(c: Condition, o: Observation) {
    o.measurement == c.measurement && exists shape: Shape :: Asserts(c.threshold, shape, o.value)
  }

  lemma {:induction false} FoldAt(s: string, k: nat)
    requires k < |s|
    ensures Fold(s)[k] == if s[k] == '\U{17F}' then 's' else LowerChar(s[k])
  {
    if k > 0 {
      FoldAt(s[1..], k - 1);
    }
  }

  lemma FoldSpells(s: string, name: string)
    requires forall k :: 0 <= k < |name| ==> name[k] in {' ', '_'} || 'a' <= name[k] <= 'z'
    ensures Fold(s) == name <==> Spells(s, name)
  {
    forall k | 0 <= k < |s| ensures Fold(s)[k] == if s[k] == '\U{17F}' then 's' else LowerChar(s[k]) {
      FoldAt(s, k);
    }
    hide Fold;
    if Spells(s, name) {
      forall k | 0 <= k < |s| ensures Fold(s)[k] == name[k] {
        assert SameLetter(s[k], name[k]);
      }
    }
    if Fold(s) == name {
      forall k | 0 <= k < |s| ensures SameLetter(s[k], name[k]) {
        assert Fold(s)[k] == name[k];
      }
    }
  }

  lemma SupportedIff(c: Condition)
    ensures Supported(c) <==> IsSingleObservation(c.window)
  {
    FoldSpells(c.window, "single observation");
    FoldSpells(c.window, "single_observation");
    hide Fold, Spells;
  }

  lemma TriggersIff(c: Condition, o: Observation)
    ensures Triggers(c, o) <==> Breaches(c, o)
  {
    HoldsIffInGrammar(c.threshold, o.value);
    hide ReadThreshold, Asserts, Threshold.Holds;
  }

  /** A pair is a hit if and only if the thesis has the condition, the observation was made, the condition's window
      is a single observation, and the observation breaches it. */
  lemma HitIff(content: Content, observations: seq<Observation>, h: Hit)
    ensures h in HitsFor(content, observations) <==>
      && h.condition in content.conditions && h.observation in observations
      && IsSingleObservation(h.condition.window) && Breaches(h.condition, h.observation)
  {
    TriggeredExactly(content, observations, h);
    SupportedIff(h.condition);
    TriggersIff(h.condition, h.observation);
    hide HitsFor, Supported, Triggers, IsSingleObservation, Breaches;
  }

  // ---------------------------------------------------------------------------------------------
  // The order of the hits
  // ---------------------------------------------------------------------------------------------

  function Join(blocks: seq<seq<Hit>>): seq<Hit> {
    if blocks == [] then [] else Join(blocks[..|blocks| - 1]) + blocks[|blocks| - 1]
  }

  /** The hits of one condition: each breaching observation as often as it was made, by instant and then by
      evidence, as all are of one measurement. */
  ghost predicate IsBlock(block: seq<Hit>, c: Condition, observations: seq<Observation>) {
    && (forall h: Hit :: multiset(block)[h] == if h.condition == c && Breaches(c, h.observation) then multiset(observations)[h.observation] else 0)
    && (forall i, j :: 0 <= i < j < |block| ==> NoLater(block[i].observation, block[j].observation))
  }

  predicate NoLater(a: Observation, b: Observation) {
    a.observedAt < b.observedAt || (a.observedAt == b.observedAt && IdsLe(a.evidence, b.evidence))
  }

  lemma KeyLeIsNoLater(a: Observation, b: Observation)
    requires KeyLe(KeyOf(a), KeyOf(b)) && a.measurement == b.measurement
    ensures NoLater(a, b)
  {
  }

  lemma {:induction false} FilterCount<T>(p: T -> bool, s: seq<T>, x: T)
    ensures multiset(Filter(p, s))[x] == if p(x) then multiset(s)[x] else 0
  {
    if s != [] {
      FilterCount(p, s[1..], x);
      assert s == [s[0]] + s[1..];
    }
  }

  lemma {:induction false} HitOnCount(c: Condition, s: seq<Observation>, h: Hit)
    ensures multiset(Map(HitOn(c), s))[h] == if h.condition == c then multiset(s)[h.observation] else 0
  {
    if s != [] {
      HitOnCount(c, s[1..], h);
      assert s == [s[0]] + s[1..];
      assert Map(HitOn(c), s) == [Hit(c, s[0])] + Map(HitOn(c), s[1..]);
    }
  }

  lemma HitsOfIsBlock(c: Condition, observations: seq<Observation>)
    ensures IsBlock(HitsOf(c, SortedObservations(observations)), c, observations)
  {
    var sorted, block := SortedObservations(observations), HitsOf(c, SortedObservations(observations));
    var kept := Filter(TriggeredBy(c), sorted);
    SortPermutes(By(KeyOf, KeyLe), observations);
    HitsOfAreInOrder(c, observations);
    hide Triggers, Asserts, KeyLe, Sort, Filter;
    forall h: Hit
      ensures multiset(block)[h] == if h.condition == c && Breaches(c, h.observation) then multiset(observations)[h.observation] else 0
    {
      HitOnCount(c, kept, h);
      FilterCount(TriggeredBy(c), sorted, h.observation);
      TriggersIff(c, h.observation);
    }
    forall k | 0 <= k < |block| ensures kept[k].measurement == c.measurement {
      FilterCount(TriggeredBy(c), sorted, kept[k]);
      TriggersIff(c, kept[k]);
      assert kept[k] in multiset(kept);
    }
    hide NoLater, KeyLe;
    forall i, j | 0 <= i < j < |block| ensures NoLater(block[i].observation, block[j].observation) {
      assert Map(KeyOf, kept)[i] == KeyOf(kept[i]) && Map(KeyOf, kept)[j] == KeyOf(kept[j]);
      KeyLeIsNoLater(kept[i], kept[j]);
    }
  }

  lemma {:induction false} HitsInBlocks(conditions: seq<Condition>, observations: seq<Observation>) returns (blocks: seq<seq<Hit>>)
    ensures Hits(conditions, SortedObservations(observations)) == Join(blocks) && |blocks| == |conditions|
    ensures forall k :: 0 <= k < |blocks| ==> IsBlock(blocks[k], conditions[k], observations)
  {
    hide IsBlock, HitsOf, SortedObservations;
    if conditions == [] {
      blocks := [];
    } else {
      var n := |conditions| - 1;
      var before := HitsInBlocks(conditions[..n], observations);
      HitsOfIsBlock(conditions[n], observations);
      blocks := before + [HitsOf(conditions[n], SortedObservations(observations))];
      assert blocks[..|blocks| - 1] == before;
    }
  }

  /** The hits come in blocks, one for each time the thesis lists a condition for a single observation, in the order
      of the conditions' texts. */
  lemma HitsComeInOrder(content: Content, observations: seq<Observation>) returns (conditions: seq<Condition>, blocks: seq<seq<Hit>>)
    ensures HitsFor(content, observations) == Join(blocks) && |blocks| == |conditions|
    ensures forall k :: 0 <= k < |blocks| ==> IsBlock(blocks[k], conditions[k], observations)
    ensures forall c :: multiset(conditions)[c] == if IsSingleObservation(c.window) then multiset(content.conditions)[c] else 0
    ensures SortedBy(ConditionLe, conditions)
  {
    var supported := Filter(Supported, content.conditions);
    conditions := SortedConditions(supported);
    SupportedInOrder(supported);
    SortPermutes(By(ConditionPayload, RawConditionLe), supported);
    hide SortedObservations, Hits, IsBlock, ConditionLe;
    blocks := HitsInBlocks(conditions, observations);
    hide Join, Filter, Sort;
    forall c ensures multiset(conditions)[c] == if IsSingleObservation(c.window) then multiset(content.conditions)[c] else 0 {
      FilterCount(Supported, content.conditions, c);
      SupportedIff(c);
    }
  }

  lemma SupportedInOrder(supported: seq<Condition>)
    ensures SortedBy(ConditionLe, SortedConditions(supported))
  {
    var le := By(ConditionPayload, RawConditionLe);
    RawConditionLeLinear();
    ByIsPreorder(ConditionPayload, RawConditionLe);
    SortSorts(le, supported);
    var conditions := SortedConditions(supported);
    hide SortedConditions, Sort, RawConditionLe;
    forall i, j | 0 <= i < j < |conditions| ensures ConditionLe(conditions[i], conditions[j]) {
      assert le(conditions[i], conditions[j]);
    }
  }

  // ---------------------------------------------------------------------------------------------
  // What is reported and proposed
  // ---------------------------------------------------------------------------------------------

  /** The triggered conditions are those of the hits, one for one; the unsupported ones are the thesis's conditions
      with any other window, each as often as it is listed. */
  lemma ReportIsTheHits(content: Content, observations: seq<Observation>)
    ensures var r, hits := Evaluated(content, observations), HitsFor(content, observations);
            && |r.triggered| == |hits| && (forall k :: 0 <= k < |hits| ==> r.triggered[k] == hits[k].condition)
            && (forall c :: multiset(r.unsupported)[c] == if IsSingleObservation(c.window) then 0 else multiset(content.conditions)[c])
  {
    hide HitsFor, IsSingleObservation;
    forall c
      ensures multiset(Evaluated(content, observations).unsupported)[c]
           == if IsSingleObservation(c.window) then 0 else multiset(content.conditions)[c]
    {
      FilterCount(Unsupported, content.conditions, c);
      SupportedIff(c);
    }
  }

  /** Something is proposed, and a review forced, if and only if the thesis is not broken and some observation
      breaches a condition on single observations. */
  lemma ProposedIff(content: Content, observations: seq<Observation>)
    ensures var r := Evaluated(content, observations);
            && (r.proposed.Some? <==> r.review.Some?)
            && (r.proposed.Some? <==>
                  && content.state != Broken
                  && exists c, o :: c in content.conditions && o in observations && IsSingleObservation(c.window) && Breaches(c, o))
  {
    var hits := HitsFor(content, observations);
    hide HitsFor, IsSingleObservation, Breaches, Proposal;
    if hits != [] {
      assert hits[0] in hits;
      HitIff(content, observations, hits[0]);
    }
    if exists c, o :: c in content.conditions && o in observations && IsSingleObservation(c.window) && Breaches(c, o) {
      var c, o :| c in content.conditions && o in observations && IsSingleObservation(c.window) && Breaches(c, o);
      HitIff(content, observations, Hit(c, o));
      assert Hit(c, o) in hits;
    }
  }

  /** One more risk for every hit. */
  predicate AddsRisks(before: seq<Claim>, after: seq<Claim>, hits: seq<Hit>) {
    && |after| == |before| + |hits|
    && (forall k :: 0 <= k < |before| ==> after[k] == before[k])
    && (forall k :: 0 <= k < |hits| ==>
          && after[|before| + k].description == "Invalidation observed: " + hits[k].condition.condition
          && after[|before| + k].evidence == hits[k].observation.evidence)
  }

  /** What is proposed is the thesis, broken by an event, with one more risk for every hit. The forced review is for
      a reduction or an exit, on the evidence of the new risks, each piece once, where it first occurs. */
  lemma ProposalIsTheHits(content: Content, observations: seq<Observation>)
    requires Evaluated(content, observations).proposed.Some?
    ensures var r, hits := Evaluated(content, observations), HitsFor(content, observations);
            var p := r.proposed.value;
            && p == content.(state := Broken, reason := Event, risks := p.risks) && AddsRisks(content.risks, p.risks, hits)
            && r.review.Some? && r.review.value.forceReview && r.review.value.actions == [Reduce, Exit]
            && r.review.value.evidence == Dedupe(ClaimReferences(p.risks[|content.risks|..]))
  {
    var hits := HitsFor(content, observations);
    RisksAreAdded(content.risks, hits);
    hide HitsFor, Dedupe, Map, RiskOf, AddsRisks, ClaimReferences, EvidenceOf;
    assert (content.risks + Map(RiskOf, hits))[|content.risks|..] == Map(RiskOf, hits);
    EvidenceOfRisks(hits);
  }

  lemma RisksAreAdded(before: seq<Claim>, hits: seq<Hit>)
    ensures AddsRisks(before, before + Map(RiskOf, hits), hits)
  {
  }

  lemma {:induction false} EvidenceOfRisks(hits: seq<Hit>)
    ensures ClaimReferences(Map(RiskOf, hits)) == EvidenceOf(hits)
  {
    if hits != [] {
      var n := |hits| - 1;
      EvidenceOfRisks(hits[..n]);
      assert Map(RiskOf, hits)[..n] == Map(RiskOf, hits[..n]);
    }
  }
}
