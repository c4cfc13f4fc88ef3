/**
 * The canonical stored form of a thesis. Hashing is taken to be injective, so a content hash is
 * represented by the payload it is computed from.
 */
module ThesisPayload {
  import opened Options
  import opened Orders
  import opened Enums
  import opened Texts
  import opened Thesis

  datatype RawClaim = RawClaim(description: string, evidence: seq<nat>)
  datatype RawPillar = RawPillar(key: string, claim: RawClaim, status: string)
  datatype RawCondition = RawCondition(condition: string, measurement: string, threshold: string, window: string)

  /** What a version row stores: anything of this shape may be read back. */
  datatype Record = Record(
    state: string, summary: string, pillars: seq<RawPillar>, catalysts: seq<RawClaim>, risks: seq<RawClaim>,
    conditions: seq<RawCondition>, monitoring: seq<string>, reason: string)

  function StateText(state: ThesisState): string {
    match state
    case Unknown => "UNKNOWN"
    case Valid => "VALID"
    case Strengthening => "STRENGTHENING"
    case Weakening => "WEAKENING"
    case Broken => "BROKEN"
  }

  function StatusText(status: PillarStatus): string {
    match status
    case PillarValid => "VALID"
    case PillarAtRisk => "AT_RISK"
    case PillarInvalid => "INVALID"
  }

  function ReasonText(reason: ChangeReason): string {
    match reason
    case NewEvidence => "NEW_EVIDENCE"
    case ScheduledReview => "SCHEDULED_REVIEW"
    case Event => "EVENT"
    case HumanCorrection => "HUMAN_CORRECTION"
  }

  function ParseState(text: string): Option<ThesisState> {
    if text == "UNKNOWN" then Some(Unknown)
    else if text == "VALID" then Some(Valid)
    else if text == "STRENGTHENING" then Some(Strengthening)
    else if text == "WEAKENING" then Some(Weakening)
    else if text == "BROKEN" then Some(Broken)
    else None
  }

  function ParseStatus(text: string): Option<PillarStatus> {
    if text == "VALID" then Some(PillarValid)
    else if text == "AT_RISK" then Some(PillarAtRisk)
    else if text == "INVALID" then Some(PillarInvalid)
    else None
  }

  function ParseReason(text: string): Option<ChangeReason> {
    if text == "NEW_EVIDENCE" then Some(NewEvidence)
    else if text == "SCHEDULED_REVIEW" then Some(ScheduledReview)
    else if text == "EVENT" then Some(Event)
    else if text == "HUMAN_CORRECTION" then Some(HumanCorrection)
    else None
  }

  // ---------------------------------------------------------------------------------------------
  // Printing
  // ---------------------------------------------------------------------------------------------

  /** A claim's stored form, which is also the key claims are sorted by. */
  function ClaimPayload(c: Claim): RawClaim {
    RawClaim(c.description, Sort(IdLe, c.evidence))
  }

  function PillarPayload(p: Pillar): RawPillar {
    RawPillar(p.key, ClaimPayload(p.claim), StatusText(p.status))
  }

  function ConditionPayload(c: Condition): RawCondition {
    RawCondition(c.condition, c.measurement, c.threshold, c.window)
  }

  function PillarKey(p: Pillar): string {
    p.key
  }

  function RawKey(p: RawPillar): string {
    p.key
  }

  predicate RawClaimLe(a: RawClaim, b: RawClaim) {
    if a.description == b.description then IdsLe(a.evidence, b.evidence) else TextLe(a.description, b.description)
  }

  function ConditionTexts(c: RawCondition): seq<string> {
    [c.condition, c.measurement, c.threshold, c.window]
  }

  predicate RawConditionLe(a: RawCondition, b: RawCondition) {
    TextsLe(ConditionTexts(a), ConditionTexts(b))
  }

  function SortedClaims(claims: seq<Claim>): seq<Claim> {
    Sort(By(ClaimPayload, RawClaimLe), claims)
  }

  function SortedPillars(pillars: seq<Pillar>): seq<Pillar> {
    Sort(By(PillarKey, TextLe), pillars)
  }

  function SortedConditions(conditions: seq<Condition>): seq<Condition> {
    Sort(By(ConditionPayload, RawConditionLe), conditions)
  }

  function Payload(c: Content): Record {
    Record(
      StateText(c.state), c.summary,
      Map(PillarPayload, SortedPillars(c.pillars)),
      Map(ClaimPayload, SortedClaims(c.catalysts)),
      Map(ClaimPayload, SortedClaims(c.risks)),
      Map(ConditionPayload, SortedConditions(c.conditions)),
      Sort(TextLe, c.monitoring),
      ReasonText(c.reason))
  }

  // ---------------------------------------------------------------------------------------------
  // Parsing: a record that breaks an invariant is corrupt
  // ---------------------------------------------------------------------------------------------

  function ParseAll<T, U>(parse: T -> Option<U>, s: seq<T>): (r: Option<seq<U>>)
    ensures r.Some? ==> |r.value| == |s| && forall i :: 0 <= i < |s| ==> parse(s[i]) == Some(r.value[i])
    ensures r.None? ==> exists i :: 0 <= i < |s| && parse(s[i]).None?
  {
    if s == [] then Some([])
    else
      var first := parse(s[0]);
      var rest := ParseAll(parse, s[1..]);
      if first.Some? && rest.Some? then Some([first.value] + rest.value)
      else if first.None? then None
      else
        assert exists i :: 0 <= i < |s[1..]| && parse(s[1..][i]).None?;
        None
  }

  function ParseText(s: string): (r: Option<string>)
    ensures r.Some? ==> IsText(r.value)
  {
    if Strip(s) == [] then None else Some(Strip(s))
  }

  function ParseClaim(raw: RawClaim): (r: Option<Claim>)
    ensures r.Some? ==> r.value.WellFormed()
  {
    var description := ParseText(raw.description);
    if description.Some? && raw.evidence != [] && Distinct(raw.evidence) then Some(Claim(description.value, raw.evidence))
    else None
  }

  function ParsePillar(raw: RawPillar): (r: Option<Pillar>)
    ensures r.Some? ==> r.value.WellFormed()
  {
    var key, claim, status := ParseText(raw.key), ParseClaim(raw.claim), ParseStatus(raw.status);
    if key.Some? && claim.Some? && status.Some? then Some(Pillar(key.value, claim.value, status.value)) else None
  }

  function ParseCondition(raw: RawCondition): (r: Option<Condition>)
    ensures r.Some? ==> r.value.WellFormed()
  {
    var condition, measurement := ParseText(raw.condition), ParseText(raw.measurement);
    var threshold, window := ParseText(raw.threshold), ParseText(raw.window);
    if condition.Some? && measurement.Some? && threshold.Some? && window.Some?
    then Some(Condition(condition.value, measurement.value, threshold.value, window.value))
    else None
  }

  function ParseClaims(raws: seq<RawClaim>): (r: Option<seq<Claim>>)
    ensures r.Some? ==> forall c :: c in r.value ==> c.WellFormed()
  {
    ParseAll(ParseClaim, raws)
  }

  function ParsePillars(raws: seq<RawPillar>): (r: Option<seq<Pillar>>)
    ensures r.Some? ==> forall p :: p in r.value ==> p.WellFormed()
  {
    ParseAll(ParsePillar, raws)
  }

  function ParseConditions(raws: seq<RawCondition>): (r: Option<seq<Condition>>)
    ensures r.Some? ==> forall c :: c in r.value ==> c.WellFormed()
  {
    ParseAll(ParseCondition, raws)
  }

  function ParseTexts(raws: seq<string>): (r: Option<seq<string>>)
    ensures r.Some? ==> forall m :: m in r.value ==> IsText(m)
  {
    ParseAll(ParseText, raws)
  }

  /** Reading a version row back; None is a corrupt row. */
  function Parse(r: Record): (c: Option<Content>)
    ensures c.Some? ==> c.value.WellFormed()
  {
    var state, reason, summary := ParseState(r.state), ParseReason(r.reason), ParseText(r.summary);
    var pillars, conditions := ParsePillars(r.pillars), ParseConditions(r.conditions);
    var catalysts, risks := ParseClaims(r.catalysts), ParseClaims(r.risks);
    var monitoring := ParseTexts(r.monitoring);
    if && state.Some? && reason.Some? && summary.Some? && pillars.Some? && conditions.Some?
       && catalysts.Some? && risks.Some? && monitoring.Some?
       && pillars.value != [] && DistinctKeys(pillars.value) && (state.value == Broken ==> conditions.value != [])
    then
      Some(Content(state.value, summary.value, pillars.value, catalysts.value, risks.value,
                   conditions.value, monitoring.value, reason.value))
    else None
  }

  // ---------------------------------------------------------------------------------------------
  // The canonical arrangement
  // ---------------------------------------------------------------------------------------------

  function CanonClaim(c: Claim): Claim {
    Claim(c.description, Sort(IdLe, c.evidence))
  }

  function CanonPillar(p: Pillar): Pillar {
    Pillar(p.key, CanonClaim(p.claim), p.status)
  }

  /** The same thesis with every list in its sorted order. */
  function Canon(c: Content): Content {
    Content(
      c.state, c.summary,
      Map(CanonPillar, SortedPillars(c.pillars)),
      Map(CanonClaim, SortedClaims(c.catalysts)),
      Map(CanonClaim, SortedClaims(c.risks)),
      SortedConditions(c.conditions),
      Sort(TextLe, c.monitoring),
      c.reason)
  }

  lemma RawClaimLeLinear()
    ensures Linear(RawClaimLe)
  {
    TextLeLinear();
    IdsLeLinear();
  }

  lemma RawConditionLeLinear()
    ensures Linear(RawConditionLe)
  {
    TextsLeLinear();
    forall a, b | RawConditionLe(a, b) && RawConditionLe(b, a) ensures a == b {
      var s, t := ConditionTexts(a), ConditionTexts(b);
      assert s == t;
      assert s[0] == t[0] && s[1] == t[1] && s[2] == t[2] && s[3] == t[3];
    }
  }

  lemma DistinctIsPermutationInvariant<T>(s: seq<T>, t: seq<T>)
    requires Distinct(s) && multiset(s) == multiset(t)
    ensures Distinct(t)
  {
    forall i, j | 0 <= i < j < |t| ensures t[i] != t[j] {
      if t[i] == t[j] {
        Twice(t, i, j);
        OnceEach(s, t[i]);
      }
    }
  }

  lemma Twice<T>(t: seq<T>, i: nat, j: nat)
    requires i < j < |t| && t[i] == t[j]
    ensures multiset(t)[t[i]] >= 2
  {
    assert t == t[..i] + [t[i]] + t[i + 1..j] + [t[j]] + t[j + 1..];
  }

  lemma {:induction false} OnceEach<T>(s: seq<T>, x: T)
    requires Distinct(s)
    ensures multiset(s)[x] <= 1
  {
    if s != [] {
      OnceEach(s[1..], x);
      assert s == [s[0]] + s[1..];
      if s[0] == x {
        assert x !in s[1..];
      }
    }
  }

  lemma SortedIds(ids: seq<nat>)
    ensures Sort(IdLe, Sort(IdLe, ids)) == Sort(IdLe, ids)
    ensures Distinct(ids) ==> Distinct(Sort(IdLe, ids))
  {
    IdLeLinear();
    SortSorts(IdLe, ids);
    SortOfSorted(IdLe, Sort(IdLe, ids));
    SortPermutes(IdLe, ids);
    if Distinct(ids) {
      DistinctIsPermutationInvariant(ids, Sort(IdLe, ids));
    }
  }

  lemma CanonClaimIsCanonical(c: Claim)
    ensures CanonClaim(CanonClaim(c)) == CanonClaim(c)
    ensures ClaimPayload(CanonClaim(c)) == ClaimPayload(c)
    ensures c.WellFormed() ==> ParseClaim(ClaimPayload(c)) == Some(CanonClaim(c)) && CanonClaim(c).WellFormed()
  {
    SortedIds(c.evidence);
  }

  lemma CanonPillarIsCanonical(p: Pillar)
    ensures CanonPillar(CanonPillar(p)) == CanonPillar(p)
    ensures PillarPayload(CanonPillar(p)) == PillarPayload(p)
    ensures p.WellFormed() ==> ParsePillar(PillarPayload(p)) == Some(CanonPillar(p))
  {
    CanonClaimIsCanonical(p.claim);
  }

  lemma MembersOfSort<T>(le: (T, T) -> bool, s: seq<T>)
    ensures forall x :: x in Sort(le, s) <==> x in s
  {
    SortPermutes(le, s);
    SameMembers(s, Sort(le, s));
  }

  lemma {:induction false} ParseAllMap<T, R, U>(show: T -> R, parse: R -> Option<U>, canon: T -> U, s: seq<T>)
    requires forall x :: x in s ==> parse(show(x)) == Some(canon(x))
    ensures ParseAll(parse, Map(show, s)) == Some(Map(canon, s))
  {
    var printed := Map(show, s);
    var r := ParseAll(parse, printed);
    forall i | 0 <= i < |s| ensures parse(printed[i]) == Some(canon(s[i])) {
      assert s[i] in s;
    }
    assert r.Some?;
    assert r.value == Map(canon, s);
  }

  lemma ClaimsReadBack(claims: seq<Claim>)
    requires forall c :: c in claims ==> c.WellFormed()
    ensures ParseClaims(Map(ClaimPayload, SortedClaims(claims))) == Some(Map(CanonClaim, SortedClaims(claims)))
  {
    MembersOfSort(By(ClaimPayload, RawClaimLe), claims);
    forall c | c in SortedClaims(claims) ensures ParseClaim(ClaimPayload(c)) == Some(CanonClaim(c)) {
      CanonClaimIsCanonical(c);
    }
    ParseAllMap(ClaimPayload, ParseClaim, CanonClaim, SortedClaims(claims));
  }

  function Itself<T>(x: T): T {
    x
  }

  lemma MapItself<T>(s: seq<T>)
    ensures Map(Itself, s) == s
  {
  }

  lemma ConditionsReadBack(conditions: seq<Condition>)
    requires forall c :: c in conditions ==> c.WellFormed()
    ensures ParseConditions(Map(ConditionPayload, SortedConditions(conditions))) == Some(SortedConditions(conditions))
  {
    MembersOfSort(By(ConditionPayload, RawConditionLe), conditions);
    ParseAllMap(ConditionPayload, ParseCondition, Itself, SortedConditions(conditions));
    MapItself(SortedConditions(conditions));
  }

  lemma MonitoringReadsBack(monitoring: seq<string>)
    requires forall m :: m in monitoring ==> IsText(m)
    ensures ParseTexts(Sort(TextLe, monitoring)) == Some(Sort(TextLe, monitoring))
  {
    MembersOfSort(TextLe, monitoring);
    ParseAllMap(Itself, ParseText, Itself, Sort(TextLe, monitoring));
    MapItself(Sort(TextLe, monitoring));
  }

  lemma PillarsReadBack(pillars: seq<Pillar>)
    requires (forall p :: p in pillars ==> p.WellFormed()) && DistinctKeys(pillars)
    ensures ParsePillars(Map(PillarPayload, SortedPillars(pillars))) == Some(Map(CanonPillar, SortedPillars(pillars)))
    ensures DistinctKeys(Map(CanonPillar, SortedPillars(pillars)))
  {
    MembersOfSort(By(PillarKey, TextLe), pillars);
    forall p | p in SortedPillars(pillars) ensures ParsePillar(PillarPayload(p)) == Some(CanonPillar(p)) {
      CanonPillarIsCanonical(p);
    }
    ParseAllMap(PillarPayload, ParsePillar, CanonPillar, SortedPillars(pillars));
    SortPermutes(By(PillarKey, TextLe), pillars);
    MapPermutes(PillarKey, pillars, SortedPillars(pillars));
    var before, after := Map(PillarKey, pillars), Map(PillarKey, SortedPillars(pillars));
    assert Distinct(before);
    DistinctIsPermutationInvariant(before, after);
    forall i, j | 0 <= i < j < |after|
      ensures Map(CanonPillar, SortedPillars(pillars))[i].key != Map(CanonPillar, SortedPillars(pillars))[j].key
    {
      assert after[i] != after[j];
    }
  }

  /** Reading a stored thesis back yields exactly its canonical arrangement, never a corrupt row. */
  lemma ReadBack(c: Content)
    requires c.WellFormed()
    ensures Parse(Payload(c)) == Some(Canon(c))
    ensures Canon(c).WellFormed()
  {
    PillarsReadBack(c.pillars);
    ClaimsReadBack(c.catalysts);
    ClaimsReadBack(c.risks);
    ConditionsReadBack(c.conditions);
    MonitoringReadsBack(c.monitoring);
    StatesReadBack(c);
    var r, canon := Payload(c), Canon(c);
    assert |canon.pillars| == |c.pillars| && |canon.conditions| == |c.conditions|;
    hide Map, Sort, SortedPillars, SortedClaims, SortedConditions, ParsePillars, ParseClaims, ParseConditions, ParseTexts;
    hide StateText, ParseState, ReasonText, ParseReason, DistinctKeys, IsText;
  }

  lemma StatesReadBack(c: Content)
    requires IsText(c.summary)
    ensures ParseState(StateText(c.state)) == Some(c.state)
    ensures ParseReason(ReasonText(c.reason)) == Some(c.reason)
    ensures ParseText(c.summary) == Some(c.summary)
  {
  }

  // ---------------------------------------------------------------------------------------------
  // Canonicalisation is idempotent, and stores the same payload
  // ---------------------------------------------------------------------------------------------

  /** Sorting by a key, canonicalising without touching the key, and doing it again changes nothing. */
  lemma CanonTwice<T(!new), K(!new)>(key: T -> K, le: (K, K) -> bool, canon: T -> T, s: seq<T>)
    requires Preorder(le)
    requires forall x :: key(canon(x)) == key(x) && canon(canon(x)) == canon(x)
    ensures var once := Map(canon, Sort(By(key, le), s)); Map(canon, Sort(By(key, le), once)) == once
  {
    var sorted := Sort(By(key, le), s);
    var once := Map(canon, sorted);
    ByIsPreorder(key, le);
    SortSorts(By(key, le), s);
    forall i, j | 0 <= i < j < |once| ensures By(key, le)(once[i], once[j]) {
      assert By(key, le)(sorted[i], sorted[j]);
      assert key(once[i]) == key(sorted[i]) && key(once[j]) == key(sorted[j]);
    }
    SortOfSorted(By(key, le), once);
    assert Map(canon, once) == once;
  }

  lemma CanonIsIdempotent(c: Content)
    ensures Canon(Canon(c)) == Canon(c)
  {
    TextLeLinear();
    RawClaimLeLinear();
    RawConditionLeLinear();
    forall x ensures ClaimPayload(CanonClaim(x)) == ClaimPayload(x) && CanonClaim(CanonClaim(x)) == CanonClaim(x) {
      CanonClaimIsCanonical(x);
    }
    forall p ensures PillarKey(CanonPillar(p)) == PillarKey(p) && CanonPillar(CanonPillar(p)) == CanonPillar(p) {
      CanonPillarIsCanonical(p);
    }
    CanonTwice(ClaimPayload, RawClaimLe, CanonClaim, c.catalysts);
    CanonTwice(ClaimPayload, RawClaimLe, CanonClaim, c.risks);
    CanonTwice(PillarKey, TextLe, CanonPillar, c.pillars);
    ByIsPreorder(ConditionPayload, RawConditionLe);
    SortSorts(By(ConditionPayload, RawConditionLe), c.conditions);
    SortOfSorted(By(ConditionPayload, RawConditionLe), SortedConditions(c.conditions));
    SortSorts(TextLe, c.monitoring);
    SortOfSorted(TextLe, Sort(TextLe, c.monitoring));
  }

  /** The stored form of a list of claims is their keys in order. */
  lemma ClaimsPayload(claims: seq<Claim>)
    ensures Map(ClaimPayload, SortedClaims(claims)) == Sort(RawClaimLe, Map(ClaimPayload, claims))
  {
    MapSort(ClaimPayload, RawClaimLe, claims);
  }

  lemma ConditionsPayload(conditions: seq<Condition>)
    ensures Map(ConditionPayload, SortedConditions(conditions)) == Sort(RawConditionLe, Map(ConditionPayload, conditions))
  {
    MapSort(ConditionPayload, RawConditionLe, conditions);
  }

  // ---------------------------------------------------------------------------------------------
  // The payload identifies a thesis up to the order its lists were written in
  // ---------------------------------------------------------------------------------------------

  datatype ClaimMeaning = ClaimMeaning(description: string, evidence: multiset<nat>)
  datatype PillarMeaning = PillarMeaning(key: string, claim: ClaimMeaning, status: PillarStatus)

  function MeaningOf(c: Claim): ClaimMeaning {
    ClaimMeaning(c.description, multiset(c.evidence))
  }

  function PillarMeaningOf(p: Pillar): PillarMeaning {
    PillarMeaning(p.key, MeaningOf(p.claim), p.status)
  }

  /** Equal but for the order of pillars, claims, conditions, monitoring texts and evidence references. */
  predicate SameThesis(a: Content, b: Content) {
    && a.state == b.state && a.summary == b.summary && a.reason == b.reason
    && multiset(Map(PillarMeaningOf, a.pillars)) == multiset(Map(PillarMeaningOf, b.pillars))
    && multiset(Map(MeaningOf, a.catalysts)) == multiset(Map(MeaningOf, b.catalysts))
    && multiset(Map(MeaningOf, a.risks)) == multiset(Map(MeaningOf, b.risks))
    && multiset(a.conditions) == multiset(b.conditions)
    && multiset(a.monitoring) == multiset(b.monitoring)
  }

  /** Two faithful pictures of the same elements agree on what is a permutation. */
  lemma PicturesAgree<T, K, M>(key: T -> K, meaning: T -> M, there: K -> M, back: M -> K, s: seq<T>, t: seq<T>)
    requires forall x :: there(key(x)) == meaning(x) && back(meaning(x)) == key(x)
    ensures multiset(Map(key, s)) == multiset(Map(key, t)) <==> multiset(Map(meaning, s)) == multiset(Map(meaning, t))
  {
    assert Map(there, Map(key, s)) == Map(meaning, s) && Map(there, Map(key, t)) == Map(meaning, t);
    assert Map(back, Map(meaning, s)) == Map(key, s) && Map(back, Map(meaning, t)) == Map(key, t);
    if multiset(Map(key, s)) == multiset(Map(key, t)) {
      MapPermutes(there, Map(key, s), Map(key, t));
    }
    if multiset(Map(meaning, s)) == multiset(Map(meaning, t)) {
      MapPermutes(back, Map(meaning, s), Map(meaning, t));
    }
  }

  function RawMeaning(raw: RawClaim): ClaimMeaning {
    ClaimMeaning(raw.description, multiset(raw.evidence))
  }

  ghost predicate Lists(s: seq<nat>, m: multiset<nat>) {
    multiset(s) == m
  }

  ghost function Arranged(m: ClaimMeaning): RawClaim {
    if exists s :: Lists(s, m.evidence)
    then var s :| Lists(s, m.evidence); RawClaim(m.description, Sort(IdLe, s))
    else RawClaim(m.description, [])
  }

  lemma ClaimPictures(c: Claim)
    ensures RawMeaning(ClaimPayload(c)) == MeaningOf(c)
    ensures Arranged(MeaningOf(c)) == ClaimPayload(c)
  {
    SortPermutes(IdLe, c.evidence);
    assert Lists(c.evidence, MeaningOf(c).evidence);
    var s :| Lists(s, MeaningOf(c).evidence) && Arranged(MeaningOf(c)) == RawClaim(c.description, Sort(IdLe, s));
    IdLeLinear();
    SortDecidesPermutation(IdLe, s, c.evidence);
  }

  lemma ClaimsPayloadDecides(a: seq<Claim>, b: seq<Claim>)
    ensures Map(ClaimPayload, SortedClaims(a)) == Map(ClaimPayload, SortedClaims(b))
        <==> multiset(Map(MeaningOf, a)) == multiset(Map(MeaningOf, b))
  {
    ClaimsPayload(a);
    ClaimsPayload(b);
    RawClaimLeLinear();
    SortDecidesPermutation(RawClaimLe, Map(ClaimPayload, a), Map(ClaimPayload, b));
    forall c ensures RawMeaning(ClaimPayload(c)) == MeaningOf(c) && Arranged(MeaningOf(c)) == ClaimPayload(c) {
      ClaimPictures(c);
    }
    PicturesAgree(ClaimPayload, MeaningOf, RawMeaning, Arranged, a, b);
  }

  function ConditionOf(raw: RawCondition): Condition {
    Condition(raw.condition, raw.measurement, raw.threshold, raw.window)
  }

  lemma ConditionsPayloadDecides(a: seq<Condition>, b: seq<Condition>)
    ensures Map(ConditionPayload, SortedConditions(a)) == Map(ConditionPayload, SortedConditions(b))
        <==> multiset(a) == multiset(b)
  {
    ConditionsPayload(a);
    ConditionsPayload(b);
    RawConditionLeLinear();
    SortDecidesPermutation(RawConditionLe, Map(ConditionPayload, a), Map(ConditionPayload, b));
    PicturesAgree(ConditionPayload, Itself, ConditionOf, ConditionPayload, a, b);
    MapItself(a);
    MapItself(b);
  }

  function RawPillarMeaning(raw: RawPillar): PillarMeaning {
    PillarMeaning(raw.key, RawMeaning(raw.claim), match ParseStatus(raw.status) case Some(s) => s case None => PillarInvalid)
  }

  ghost function ArrangedPillar(m: PillarMeaning): RawPillar {
    RawPillar(m.key, Arranged(m.claim), StatusText(m.status))
  }

  lemma PillarPictures(p: Pillar)
    ensures RawPillarMeaning(PillarPayload(p)) == PillarMeaningOf(p)
    ensures ArrangedPillar(PillarMeaningOf(p)) == PillarPayload(p)
  {
    ClaimPictures(p.claim);
  }

  lemma {:induction false} InsertSameOrder<T>(le: (T, T) -> bool, other: (T, T) -> bool, x: T, s: seq<T>)
    requires forall a, b :: le(a, b) == other(a, b)
    ensures Insert(le, x, s) == Insert(other, x, s)
  {
    if s != [] {
      InsertSameOrder(le, other, x, s[1..]);
    }
  }

  lemma {:induction false} SortSameOrder<T>(le: (T, T) -> bool, other: (T, T) -> bool, s: seq<T>)
    requires forall a, b :: le(a, b) == other(a, b)
    ensures Sort(le, s) == Sort(other, s)
  {
    if s != [] {
      SortSameOrder(le, other, s[1..]);
      InsertSameOrder(le, other, s[0], Sort(le, s[1..]));
    }
  }

  lemma PillarsPayload(pillars: seq<Pillar>)
    ensures Map(PillarPayload, SortedPillars(pillars)) == Sort(By(RawKey, TextLe), Map(PillarPayload, pillars))
  {
    MapSort(PillarPayload, By(RawKey, TextLe), pillars);
    var le, other := By(PillarPayload, By(RawKey, TextLe)), By(PillarKey, TextLe);
    forall a, b ensures le(a, b) == other(a, b) {
      assert RawKey(PillarPayload(a)) == PillarKey(a) && RawKey(PillarPayload(b)) == PillarKey(b);
    }
    SortSameOrder(le, other, pillars);
  }

  lemma PillarsPayloadDecides(a: seq<Pillar>, b: seq<Pillar>)
    requires DistinctKeys(a)
    ensures Map(PillarPayload, SortedPillars(a)) == Map(PillarPayload, SortedPillars(b))
        <==> multiset(Map(PillarMeaningOf, a)) == multiset(Map(PillarMeaningOf, b))
  {
    PillarsPayload(a);
    PillarsPayload(b);
    PillarKeysOrder(a);
    SortDecidesPermutation(By(RawKey, TextLe), Map(PillarPayload, a), Map(PillarPayload, b));
    hide Map, Sort, SortedPillars;
    forall p ensures RawPillarMeaning(PillarPayload(p)) == PillarMeaningOf(p) && ArrangedPillar(PillarMeaningOf(p)) == PillarPayload(p) {
      PillarPictures(p);
    }
    PicturesAgree(PillarPayload, PillarMeaningOf, RawPillarMeaning, ArrangedPillar, a, b);
  }

  lemma PillarKeysOrder(pillars: seq<Pillar>)
    requires DistinctKeys(pillars)
    ensures Preorder(By(RawKey, TextLe))
    ensures AntisymmetricOn(By(RawKey, TextLe), Map(PillarPayload, pillars))
  {
    TextLeLinear();
    ByIsPreorder(RawKey, TextLe);
    var raw := Map(PillarPayload, pillars);
    hide Preorder, TextLe, PillarPayload, Map;
    forall x, y | x in raw && y in raw && By(RawKey, TextLe)(x, y) && By(RawKey, TextLe)(y, x) ensures x == y {
      assert TextLe(x.key, y.key) && TextLe(y.key, x.key);
      var i :| 0 <= i < |raw| && raw[i] == x;
      var j :| 0 <= j < |raw| && raw[j] == y;
      assert raw[i] == PillarPayload(pillars[i]) && raw[j] == PillarPayload(pillars[j]);
      PayloadKeepsKey(pillars[i]);
      PayloadKeepsKey(pillars[j]);
    }
  }

  lemma PayloadKeepsKey(p: Pillar)
    ensures PillarPayload(p).key == p.key
  {
  }

  /** Two theses have the same payload, and so the same content hash, exactly when they differ in order only. */
  lemma PayloadDecidesMeaning(a: Content, b: Content)
    requires a.WellFormed()
    ensures Payload(a) == Payload(b) <==> SameThesis(a, b)
  {
    PillarsPayloadDecides(a.pillars, b.pillars);
    ClaimsPayloadDecides(a.catalysts, b.catalysts);
    ClaimsPayloadDecides(a.risks, b.risks);
    ConditionsPayloadDecides(a.conditions, b.conditions);
    TextLeLinear();
    SortDecidesPermutation(TextLe, a.monitoring, b.monitoring);
    TextsDecide(a, b);
    SameRecord(Payload(a), Payload(b));
    hide Map, Sort, SortedPillars, SortedClaims, SortedConditions, StateText, ReasonText;
  }

  lemma TextsDecide(a: Content, b: Content)
    ensures StateText(a.state) == StateText(b.state) <==> a.state == b.state
    ensures ReasonText(a.reason) == ReasonText(b.reason) <==> a.reason == b.reason
  {
    assert ParseState(StateText(a.state)) == Some(a.state) && ParseState(StateText(b.state)) == Some(b.state);
    assert ParseReason(ReasonText(a.reason)) == Some(a.reason) && ParseReason(ReasonText(b.reason)) == Some(b.reason);
  }

  lemma SameRecord(a: Record, b: Record)
    ensures a == b <==>
      && a.state == b.state && a.summary == b.summary && a.pillars == b.pillars && a.catalysts == b.catalysts
      && a.risks == b.risks && a.conditions == b.conditions && a.monitoring == b.monitoring && a.reason == b.reason
  {
  }

  /** A payload has one canonical thesis: equal payloads come from equal canonical arrangements. */
  lemma PayloadDecidesCanon(a: Content, b: Content)
    requires a.WellFormed() && b.WellFormed()
    ensures Payload(a) == Payload(b) <==> Canon(a) == Canon(b)
  {
    ReadBack(a);
    ReadBack(b);
    PayloadOfCanon(a);
    PayloadOfCanon(b);
  }

  lemma CanonClaimsKeepMeaning(claims: seq<Claim>)
    ensures multiset(Map(MeaningOf, Map(CanonClaim, SortedClaims(claims)))) == multiset(Map(MeaningOf, claims))
  {
    var sorted := SortedClaims(claims);
    SortPermutes(By(ClaimPayload, RawClaimLe), claims);
    MapPermutes(MeaningOf, sorted, claims);
    forall c ensures MeaningOf(CanonClaim(c)) == MeaningOf(c) {
      SortPermutes(IdLe, c.evidence);
    }
    assert Map(MeaningOf, Map(CanonClaim, sorted)) == Map(MeaningOf, sorted);
  }

  lemma CanonPillarsKeepMeaning(pillars: seq<Pillar>)
    ensures multiset(Map(PillarMeaningOf, Map(CanonPillar, SortedPillars(pillars)))) == multiset(Map(PillarMeaningOf, pillars))
  {
    var sorted := SortedPillars(pillars);
    SortPermutes(By(PillarKey, TextLe), pillars);
    MapPermutes(PillarMeaningOf, sorted, pillars);
    forall p ensures PillarMeaningOf(CanonPillar(p)) == PillarMeaningOf(p) {
      SortPermutes(IdLe, p.claim.evidence);
    }
    assert Map(PillarMeaningOf, Map(CanonPillar, sorted)) == Map(PillarMeaningOf, sorted);
  }

  /** Canonicalising keeps the thesis, so writing what was read back stores the same payload. */
  lemma PayloadOfCanon(c: Content)
    requires c.WellFormed()
    ensures SameThesis(c, Canon(c)) && Payload(Canon(c)) == Payload(c)
  {
    CanonPillarsKeepMeaning(c.pillars);
    CanonClaimsKeepMeaning(c.catalysts);
    CanonClaimsKeepMeaning(c.risks);
    SortPermutes(By(ConditionPayload, RawConditionLe), c.conditions);
    SortPermutes(TextLe, c.monitoring);
    PayloadDecidesMeaning(c, Canon(c));
  }
}
