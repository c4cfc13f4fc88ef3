/** The committed history of one thesis: a chain of versions, and reading it as of an instant. */
module ThesisHistory {
  import opened Options
  import opened Thesis
  import opened ThesisPayload
  import opened ThesisDiff

  /** An immutable version row; its stored record and its hash are those of `content`. */
  datatype Version = Version(id: nat, number: nat, parent: Option<nat>, createdAt: int, content: Content)

  /** What was stored, read back, differs materially from its successor. */
  predicate Succeeds(previous: Version, next: Version) {
    && Parse(Payload(previous.content)).Some?
    && SemanticDiff(Parse(Payload(previous.content)).value, next.content).IsMaterial()
  }

  /** Version i + 1: the child of its predecessor, and materially different from it. */
  predicate Linked(versions: seq<Version>, i: nat)
    requires i < |versions|
  {
    && versions[i].number == i + 1 && versions[i].content.WellFormed()
    && (i == 0 ==> versions[i].parent == None)
    && (i > 0 ==> versions[i].parent == Some(versions[i - 1].id) && Succeeds(versions[i - 1], versions[i]))
  }

  /** Versions 1..n in a chain. */
  predicate Lineage(versions: seq<Version>) {
    && (forall i :: 0 <= i < |versions| ==> Linked(versions, i))
    && (forall i, j :: 0 <= i < j < |versions| ==> versions[i].id != versions[j].id)
  }

  lemma NumberTaken(versions: seq<Version>, n: nat)
    requires Lineage(versions)
    ensures n < |versions| ==> exists v :: v in versions && v.number == n + 1
  {
    if n < |versions| {
      assert versions[n] in versions && Linked(versions, n);
    }
  }

  /** No two committed versions share a number, an id or a parent: there is no fork. */
  lemma NoFork(versions: seq<Version>, i: nat, j: nat)
    requires Lineage(versions) && i < j < |versions|
    ensures versions[i].number != versions[j].number && versions[i].id != versions[j].id
    ensures versions[i].parent != versions[j].parent
  {
    hide Succeeds, Content.WellFormed;
    assert Linked(versions, i) && Linked(versions, j);
    assert forall k :: 0 <= k < j - 1 ==> versions[k].id != versions[j - 1].id;
  }

  // ---------------------------------------------------------------------------------------------
  // Reading the history as of an instant
  // ---------------------------------------------------------------------------------------------

  /** The order of as-of reads: creation time first, then version number. */
  predicate Later(a: Version, b: Version) {
    a.createdAt > b.createdAt || (a.createdAt == b.createdAt && a.number > b.number)
  }

  predicate Visible(v: Version, asOf: int) {
    v.createdAt <= asOf
  }

  /** What an as-of read returns: the latest visible version. */
  function LatestAsOf(versions: seq<Version>, asOf: int): (r: Option<Version>)
    ensures r.Some? ==> r.value in versions && Visible(r.value, asOf)
    ensures forall v :: v in versions && Visible(v, asOf) ==> r.Some? && !Later(v, r.value)
  {
    if versions == [] then None
    else
      var n := |versions| - 1;
      var before := LatestAsOf(versions[..n], asOf);
      assert versions == versions[..n] + [versions[n]];
      if Visible(versions[n], asOf) && (before.None? || Later(versions[n], before.value)) then Some(versions[n]) else before
  }

  /** What it is meant to return: the highest version that existed by then. */
  function HighestAsOf(versions: seq<Version>, asOf: int): Option<Version> {
    if versions == [] then None
    else if Visible(versions[|versions| - 1], asOf) then Some(versions[|versions| - 1])
    else HighestAsOf(versions[..|versions| - 1], asOf)
  }

  predicate CreatedInOrder(versions: seq<Version>) {
    forall i, j :: 0 <= i < j < |versions| ==> versions[i].createdAt <= versions[j].createdAt
  }

  predicate NumberedInOrder(versions: seq<Version>) {
    forall i, j :: 0 <= i < j < |versions| ==> versions[i].number < versions[j].number
  }

  lemma LineageIsNumberedInOrder(versions: seq<Version>)
    requires Lineage(versions)
    ensures NumberedInOrder(versions)
  {
    hide Succeeds, Content.WellFormed;
    forall i, j | 0 <= i < j < |versions| ensures versions[i].number < versions[j].number {
      assert Linked(versions, i) && Linked(versions, j);
    }
  }

  lemma {:induction false} InOrderReadsHighest(versions: seq<Version>, asOf: int)
    requires NumberedInOrder(versions) && CreatedInOrder(versions)
    ensures LatestAsOf(versions, asOf) == HighestAsOf(versions, asOf)
  {
    if versions != [] {
      var n := |versions| - 1;
      var last := versions[n];
      InOrderReadsHighest(versions[..n], asOf);
      var before := LatestAsOf(versions[..n], asOf);
      if before.Some? {
        var i :| 0 <= i < n && versions[i] == before.value;
        assert versions[i].createdAt <= last.createdAt && versions[i].number < last.number;
      }
    }
  }

  /** With clocks out of order, the read right after the lower-stamped version was added is wrong. */
  lemma OutOfOrderReadsWrong(versions: seq<Version>, i: nat, j: nat)
    requires i < j < |versions| && versions[i].createdAt > versions[j].createdAt
    ensures LatestAsOf(versions[..j + 1], versions[i].createdAt) != HighestAsOf(versions[..j + 1], versions[i].createdAt)
  {
    var seen, asOf := versions[..j + 1], versions[i].createdAt;
    assert seen[j] == versions[j] && seen[i] == versions[i] && seen[i] in seen;
    assert Visible(seen[i], asOf);
    assert HighestAsOf(seen, asOf) == Some(versions[j]);
    assert Later(versions[i], versions[j]);
  }

  ghost predicate ReadsRightThroughout(versions: seq<Version>) {
    forall n, asOf | 0 <= n <= |versions| :: LatestAsOf(versions[..n], asOf) == HighestAsOf(versions[..n], asOf)
  }

  /**
   * As-of reads give the highest version that existed, at every point of the history and for every
   * instant, if and only if creation times never decrease along the versions.
   */
  lemma ReadsRightIffCreatedInOrder(versions: seq<Version>)
    requires Lineage(versions)
    ensures ReadsRightThroughout(versions) <==> CreatedInOrder(versions)
  {
    LineageIsNumberedInOrder(versions);
    hide Lineage, LatestAsOf, HighestAsOf;
    if CreatedInOrder(versions) {
      forall n, asOf | 0 <= n <= |versions|
        ensures LatestAsOf(versions[..n], asOf) == HighestAsOf(versions[..n], asOf)
      {
        InOrderReadsHighest(versions[..n], asOf);
      }
    }
    if ReadsRightThroughout(versions) {
      forall i, j | 0 <= i < j < |versions| ensures versions[i].createdAt <= versions[j].createdAt {
        assert LatestAsOf(versions[..j + 1], versions[i].createdAt) == HighestAsOf(versions[..j + 1], versions[i].createdAt);
        if versions[i].createdAt > versions[j].createdAt {
          OutOfOrderReadsWrong(versions, i, j);
        }
      }
    }
  }
}
