/** What one write of a thesis reports, and when, in terms of the stored versions and the two contents. */
module WriteRules {
  import opened Options
  import opened Orders
  import opened Thesis
  import opened ThesisPayload
  import opened ThesisDiff
  import opened ThesisHistory
  import opened ThesisStore

  /** Some pillar, catalyst or risk cites it. */
  predicate Cites(c: Content, e: nat) {
    || (exists p :: p in c.pillars && e in p.claim.evidence)
    || (exists x :: x in c.catalysts && e in x.evidence)
    || (exists x :: x in c.risks && e in x.evidence)
  }

  lemma {:induction false} PillarReferencesMembers(pillars: seq<Pillar>, e: nat)
    ensures e in PillarReferences(pillars) <==> exists p :: p in pillars && e in p.claim.evidence
  {
    if pillars != [] {
      var n := |pillars| - 1;
      assert pillars == pillars[..n] + [pillars[n]];
      PillarReferencesMembers(pillars[..n], e);
      if p :| p in pillars[..n] && e in p.claim.evidence {
        assert p in pillars;
      }
    }
  }

  lemma ReferencesAreCited(c: Content, e: nat)
    ensures e in References(c) <==> Cites(c, e)
  {
    PillarReferencesMembers(c.pillars, e);
    ClaimReferencesMembers(c.catalysts + c.risks, e);
    hide PillarReferences, ClaimReferences;
    assert forall x :: x in c.catalysts + c.risks <==> x in c.catalysts || x in c.risks;
  }

  /** Every piece of cited evidence is available. */
  ghost predicate Covered(content: Content, available: set<nat>) {
    forall e :: Cites(content, e) ==> e in available
  }

  lemma MissingIs(content: Content, available: set<nat>)
    ensures forall e :: e in Missing(content, available) <==> Cites(content, e) && e !in available
    ensures Missing(content, available) == {} <==> Covered(content, available)
  {
    forall e ensures e in Missing(content, available) <==> Cites(content, e) && e !in available {
      ReferencesAreCited(content, e);
    }
  }

  /** The content says what the stored version, as it is read back, says: the same state and summary, and the same
      pillars by key, catalysts, risks, conditions and monitoring as sets. */
  ghost predicate SaysTheSame(stored: Content, content: Content) {
    var read := Canon(stored);
    && read.state == content.state && read.summary == content.summary
    && ByKey(read.pillars) == ByKey(content.pillars)
    && (forall x :: x in read.catalysts <==> x in content.catalysts)
    && (forall x :: x in read.risks <==> x in content.risks)
    && (forall x :: x in read.conditions <==> x in content.conditions)
    && (forall x :: x in read.monitoring <==> x in content.monitoring)
  }

  lemma SameMembersIff<T>(s: seq<T>, t: seq<T>)
    ensures Members(s) == Members(t) <==> forall x :: x in s <==> x in t
  {
    if Members(s) == Members(t) {
      forall x ensures x in s <==> x in t {
        assert x in s <==> x in Members(s);
        assert x in t <==> x in Members(t);
      }
    }
  }

  lemma MaterialIff(stored: Content, content: Content)
    ensures SemanticDiff(Canon(stored), content).IsMaterial() <==> !SaysTheSame(stored, content)
  {
    var read := Canon(stored);
    hide Canon, SemanticDiff, Diff.IsMaterial, ByKey, Members;
    ImmaterialIffSameSets(read, content);
    SameMembersIff(read.catalysts, content.catalysts);
    SameMembersIff(read.risks, content.risks);
    SameMembersIff(read.conditions, content.conditions);
    SameMembersIff(read.monitoring, content.monitoring);
  }

  /** A write reports, in this order: the evidence it cites that is not available; that the current version is not the
      expected one; that the current version says the same, by its id and number; or the version it adds, numbered one
      higher, 1 for the first. */
  lemma WriteReports(versions: seq<Version>, content: Content, available: set<nat>, expected: Option<Record>, id: nat)
    requires Lineage(versions)
    ensures var r := Verdict(versions, content, available, expected, id);
            && (r.EvidenceUnavailable? <==> !Covered(content, available))
            && (r.EvidenceUnavailable? ==> forall e :: e in r.missing <==> Cites(content, e) && e !in available)
            && (Covered(content, available) && versions == [] ==> r == Created(id, 1))
            && (Covered(content, available) && versions != [] ==>
                  var last := versions[|versions| - 1];
                  if expected.Some? && Payload(last.content) != expected.value then r == VersionStale
                  else if SaysTheSame(last.content, content) then r == Kept(last.id, |versions|)
                  else r == Created(id, |versions| + 1))
  {
    MissingIs(content, available);
    if versions != [] {
      LastIsWellFormed(versions);
      MaterialIff(versions[|versions| - 1].content, content);
    }
    hide Lineage, Missing, Covered, Cites, SaysTheSame, Payload, Canon, SemanticDiff, Diff.IsMaterial;
  }

  /** The version a write adds: under the given id, numbered one higher, child of the last one, stamped as given. */
  lemma AddedVersion(versions: seq<Version>, content: Content, createdAt: int, id: nat)
    ensures var v := NextVersion(versions, content, createdAt, id);
            && v.id == id && v.number == |versions| + 1 && v.createdAt == createdAt && v.content == content
            && (versions == [] ==> v.parent == None)
            && (versions != [] ==> v.parent == Some(versions[|versions| - 1].id))
  {
  }
}
