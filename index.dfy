/** The write path and the shared index: the digest -> findings map that
    every refresh cycle rebuilds and every container event reads. */
module VulnerabilityIndexes {
  import opened Wrappers
  import opened Sequences
  import opened Vulnerabilities
  import opened Correlation

  // ---------------------------------------------------------------------
  // The reference grouping
  // ---------------------------------------------------------------------

  /** The image digests that occur in a fetched list. */
  function DigestsOf(vs: seq<Vulnerability>): set<string>
  {
    set v | v in vs :: v.imageDigest
  }

  /** The findings of one digest, in arrival order. */
  function OfDigest(vs: seq<Vulnerability>, d: string): seq<Vulnerability>
  {
    Filter(vs, (v: Vulnerability) => v.imageDigest == d)
  }

  /** `m[d] = append(m[d], v)` with `d` the finding's digest: a missing key
      reads as the empty list. */
  function AppendEntry(m: map<string, seq<Vulnerability>>, v: Vulnerability): map<string, seq<Vulnerability>>
  {
    m[v.imageDigest := (if v.imageDigest in m then m[v.imageDigest] else []) + [v]]
  }

  /** The generation a fetched list produces: every finding, in arrival
      order, appended to the list of its digest, starting from an empty map. */
  function Grouped(vs: seq<Vulnerability>): map<string, seq<Vulnerability>>
    decreases |vs|
  {
    if vs == [] then map[] else AppendEntry(Grouped(vs[..|vs| - 1]), vs[|vs| - 1])
  }

  /** A digest has findings exactly when it occurs in the fetched list. */
  lemma OfDigestEmpty(vs: seq<Vulnerability>, d: string)
    ensures OfDigest(vs, d) == [] <==> d !in DigestsOf(vs)
  {
    if d in DigestsOf(vs) {
      var v :| v in vs && v.imageDigest == d;
      FilterMembers(vs, (v: Vulnerability) => v.imageDigest == d, v);
    } else if OfDigest(vs, d) != [] {
      FilterMembers(vs, (v: Vulnerability) => v.imageDigest == d, OfDigest(vs, d)[0]);
    }
  }

  /** The generation is the fetched list grouped by digest: its keys are
      exactly the digests that were fetched, and each key holds the fetched
      list filtered to that digest, in arrival order. */
  lemma {:induction false} GroupedByDigest(vs: seq<Vulnerability>)
    ensures Grouped(vs).Keys == DigestsOf(vs)
    ensures forall d :: d in Grouped(vs) ==> Grouped(vs)[d] == OfDigest(vs, d)
  {
    if vs != [] {
      var init, v := vs[..|vs| - 1], vs[|vs| - 1];
      assert vs == init + [v];
      GroupedByDigest(init);
      var g, g', d := Grouped(init), Grouped(vs), v.imageDigest;
      assert g' == AppendEntry(g, v);
      assert DigestsOf(vs) == DigestsOf(init) + {d};
      forall e | e in g' ensures g'[e] == OfDigest(vs, e) {
        FilterSnoc(init, v, (v: Vulnerability) => v.imageDigest == e);
        OfDigestEmpty(init, e);
      }
    }
  }

  /** Every list of a generation is non-empty, and holds only fetched
      findings of its own digest. */
  lemma GroupedWellFormed(vs: seq<Vulnerability>)
    ensures forall d :: d in Grouped(vs) ==> |Grouped(vs)[d]| > 0
    ensures forall d, v :: d in Grouped(vs) && v in Grouped(vs)[d] ==> v in vs && v.imageDigest == d
  {
    GroupedByDigest(vs);
    forall d | d in Grouped(vs) ensures |Grouped(vs)[d]| > 0 {
      OfDigestEmpty(vs, d);
    }
    forall d, v | d in Grouped(vs) && v in Grouped(vs)[d] ensures v in vs && v.imageDigest == d {
      FilterMembers(vs, (v: Vulnerability) => v.imageDigest == d, v);
    }
  }

  /** The lists of a generation are never empty, which is what lets the
      correlation read the first finding of a list it looked up. */
  lemma GroupedNonEmpty(vs: seq<Vulnerability>)
    ensures NonEmptyGroups(Grouped(vs))
  {
    GroupedWellFormed(vs);
  }

  /** Each finding of the fetched list is stored under its own digest, as
      often as it was fetched. */
  lemma GroupedKeepsEveryFinding(vs: seq<Vulnerability>, v: Vulnerability)
    requires v in vs
    ensures v.imageDigest in Grouped(vs)
    ensures multiset(Grouped(vs)[v.imageDigest])[v] == multiset(vs)[v]
  {
    GroupedByDigest(vs);
    FilterMultiplicity(vs, (w: Vulnerability) => w.imageDigest == v.imageDigest, v);
  }

  // ---------------------------------------------------------------------
  // Size of a generation
  // ---------------------------------------------------------------------

  /** The sum of the lengths of all lists of a map. */
  ghost function TotalSize(m: map<string, seq<Vulnerability>>): nat
    decreases |m|
  {
    if m == map[] then 0
    else
      var k :| k in m;
      assert |m - {k}| < |m| by { assert (m - {k}).Keys == m.Keys - {k}; }
      |m[k]| + TotalSize(m - {k})
  }

  /** TotalSize does not depend on which key is taken first. */
  lemma {:induction false} TotalSizeAt(m: map<string, seq<Vulnerability>>, k: string)
    requires k in m
    ensures TotalSize(m) == |m[k]| + TotalSize(m - {k})
    decreases |m|
  {
    var j :| j in m && TotalSize(m) == |m[j]| + TotalSize(m - {j});
    if j != k {
      assert (m - {j}).Keys == m.Keys - {j};
      assert (m - {k}).Keys == m.Keys - {k};
      TotalSizeAt(m - {j}, k);
      TotalSizeAt(m - {k}, j);
      assert m - {j} - {k} == m - {k} - {j};
    }
  }

  /** Appending one finding adds exactly one to the total size. */
  lemma TotalSizeAppendEntry(m: map<string, seq<Vulnerability>>, v: Vulnerability)
    ensures TotalSize(AppendEntry(m, v)) == TotalSize(m) + 1
  {
    var m', d := AppendEntry(m, v), v.imageDigest;
    TotalSizeAt(m', d);
    assert m' - {d} == m - {d};
    if d in m {
      TotalSizeAt(m, d);
    } else {
      assert m - {d} == m;
    }
  }

  /** Nothing is dropped or duplicated: the lists of a generation hold, in
      all, exactly as many findings as were fetched. */
  lemma {:induction false} GroupedTotalSize(vs: seq<Vulnerability>)
    ensures TotalSize(Grouped(vs)) == |vs|
    decreases |vs|
  {
    if vs != [] {
      GroupedTotalSize(vs[..|vs| - 1]);
      TotalSizeAppendEntry(Grouped(vs[..|vs| - 1]), vs[|vs| - 1]);
    }
  }

  // ---------------------------------------------------------------------
  // The shared index
  // ---------------------------------------------------------------------

  /** Why a refresh cycle can fail before it reaches the index: sending,
      reading or decoding the token call, building or sending the request,
      reading the body, or decoding the JSON. A response with an error
      status is none of these: the code looks at neither call's status, so
      rejected credentials give an empty token, and an error body that
      decodes arrives as a successful fetch of whatever list it holds,
      usually none. */
  datatype FetchError = TokenError | RequestError | TransportError | ReadError | DecodeError

  /** The process-wide digest -> findings map. */
  class VulnerabilityIndex {
    var digests: map<string, seq<Vulnerability>>

    /** The fetched list the current generation was built from. */
    ghost var generation: seq<Vulnerability>

    /** Exactly one generation is visible: the grouping of one fetched
        list, whose lists are therefore never empty. */
    ghost predicate Valid()
      reads this
    {
      digests == Grouped(generation) && NonEmptyGroups(digests)
    }

    /** The index starts empty, before the first refresh. */
    constructor ()
      ensures Valid() && digests == map[] && generation == []
    {
      digests := map[];
      generation := [];
    }

    /** Deletes every key of the map, one at a time. */
    method Clear()
      modifies this`digests
      ensures digests == map[]
    {
      while digests != map[]
        decreases |digests|
      {
        var k :| k in digests;
        assert (digests - {k}).Keys == digests.Keys - {k};
        digests := digests - {k};
      }
    }

    /** The critical section of a refresh: empty the map, then append every
        fetched finding to the list of its digest. Afterwards the keys are
        exactly the fetched digests, so nothing of the previous generation
        survives unless it was fetched again. */
    method Refresh(vs: seq<Vulnerability>)
      modifies this
      ensures Valid() && generation == vs
      ensures digests == Grouped(vs)
    {
      Clear();
      for i := 0 to |vs|
        invariant digests == Grouped(vs[..i])
      {
        var v := vs[i];
        var d := v.imageDigest;
        assert vs[..i + 1][..i] == vs[..i];
        digests := digests[d := (if d in digests then digests[d] else []) + [v]];
      }
      assert vs[..|vs|] == vs;
      generation := vs;
      GroupedNonEmpty(vs);
    }

    /** One refresh cycle. A fetch that failed never reaches the critical
        section, so the previous generation stays in place. */
    method InvokeApi(fetched: Result<seq<Vulnerability>, FetchError>)
      requires Valid()
      modifies this
      ensures Valid()
      ensures fetched.Success? ==> digests == Grouped(fetched.value) && generation == fetched.value
      ensures fetched.Failure? ==> digests == old(digests) && generation == old(generation)
    {
      if fetched.Success? {
        Refresh(fetched.value);
      }
    }

    /** Point lookup of one digest. */
    method Lookup(digest: string) returns (findings: seq<Vulnerability>, ok: bool)
      requires Valid()
      ensures ok <==> digest in digests
      ensures ok <==> digest in DigestsOf(generation)
      ensures ok ==> findings == digests[digest] == OfDigest(generation, digest) && |findings| > 0
    {
      GroupedByDigest(generation);
      GroupedWellFormed(generation);
      ok := digest in digests;
      findings := if ok then digests[digest] else [];
    }

    /** The handler for a created pod: each container status, reduced to
        its image id, is correlated against the current generation. */
    method ObjectCreated(imageIds: seq<string>) returns (reports: seq<Outcome>)
      requires Valid()
      ensures |reports| == |imageIds|
      ensures forall i :: 0 <= i < |imageIds| ==> reports[i] == Correlate(digests, imageIds[i])
    {
      GroupedWellFormed(generation);
      reports := [];
      for i := 0 to |imageIds|
        invariant |reports| == i
        invariant forall j :: 0 <= j < i ==> reports[j] == Correlate(digests, imageIds[j])
      {
        var report := NoFindings;
        var digestId := ExtractDigest(imageIds[i]);
        if digestId.Some? {
          var digest, ok := Lookup(digestId.value);
          if ok {
            var issues, assessmentKey := ProcessFindings(digest);
            report := Report(issues, assessmentKey);
          }
        }
        reports := reports + [report];
      }
    }
  }

  // ---------------------------------------------------------------------
  // Worked examples
  // ---------------------------------------------------------------------

  /** Refreshing twice with the same list gives the same generation, and a
      cycle whose fetch fails afterwards leaves it in place. */
  method RefreshTwiceThenFail(vs: seq<Vulnerability>, error: FetchError)
    returns (first: map<string, seq<Vulnerability>>, second: map<string, seq<Vulnerability>>, third: map<string, seq<Vulnerability>>)
    ensures first == second == third == Grouped(vs)
  {
    var index := new VulnerabilityIndex();
    index.InvokeApi(Success(vs));
    first := index.digests;
    index.InvokeApi(Success(vs));
    second := index.digests;
    index.InvokeApi(Failure(error));
    third := index.digests;
  }

  /** An error response (an expired token, a throttled request) decodes
      to an empty list of findings, and the cycle then installs it: the
      previous generation is wiped rather than kept. */
  method ErrorResponseAfterRefresh(vs: seq<Vulnerability>) returns (before: map<string, seq<Vulnerability>>, after: map<string, seq<Vulnerability>>)
    ensures before == Grouped(vs)
    ensures after == map[]
  {
    var index := new VulnerabilityIndex();
    index.InvokeApi(Success(vs));
    before := index.digests;
    index.InvokeApi(Success([]));
    after := index.digests;
  }

  /** Two findings for one digest and one for a different digest: the
      first digest's list holds its two findings in arrival order, the
      second its one, and no other digest is present. */
  lemma GroupingOfTwoDigests(f1: Vulnerability, f2: Vulnerability, f3: Vulnerability)
    requires f1.imageDigest == f2.imageDigest != f3.imageDigest
    ensures Grouped([f1, f2, f3]) == map[f1.imageDigest := [f1, f2], f3.imageDigest := [f3]]
  {
    var a, b := f1.imageDigest, f3.imageDigest;
    var none: seq<Vulnerability> := [];
    assert [f1][..0] == none && Grouped(none) == map[];
    assert none + [f1] == [f1];
    assert Grouped([f1]) == map[a := [f1]];
    assert [f1, f2][..1] == [f1];
    assert [f1] + [f2] == [f1, f2];
    assert Grouped([f1, f2]) == map[a := [f1, f2]];
    assert [f1, f2, f3][..2] == [f1, f2];
    assert none + [f3] == [f3];
    assert Grouped([f1, f2, f3]) == map[a := [f1, f2]][b := [f3]];
  }

  /** The same grouping for the digests `sha256:aaa` and `sha256:bbb`. */
  lemma GroupingExample(f1: Vulnerability, f2: Vulnerability, f3: Vulnerability)
    requires f1.imageDigest == f2.imageDigest == DigestMarker + "aaa"
    requires f3.imageDigest == DigestMarker + "bbb"
    ensures Grouped([f1, f2, f3]) == map[DigestMarker + "aaa" := [f1, f2], DigestMarker + "bbb" := [f3]]
  {
    var a, b := DigestMarker + "aaa", DigestMarker + "bbb";
    assert a != b by { assert a[7] == 'a' && b[7] == 'b'; }
    GroupingOfTwoDigests(f1, f2, f3);
  }

  /** The two findings of the first digest fall in the High and the Medium
      bucket. */
  lemma ClassifyExample(f1: Vulnerability, f2: Vulnerability)
    requires f1.severity == "High" && f2.severity == "Medium"
    ensures Classify([f1, f2]) == Buckets([f1], [f2], [])
  {
    ClassifySnoc([], f1);
    assert [] + [f1] == [f1];
    ClassifySnoc([f1], f2);
    assert [f1] + [f2] == [f1, f2];
  }

  /** On that generation, a container running the first image is reported
      with one High and one Medium finding. */
  lemma EndToEndExample(f1: Vulnerability, f2: Vulnerability, f3: Vulnerability, repository: string)
    requires f1.imageDigest == f2.imageDigest == DigestMarker + "aaa"
    requires f3.imageDigest == DigestMarker + "bbb"
    requires f1.severity == "High" && f2.severity == "Medium" && f3.severity == "Low"
    ensures NonEmptyGroups(Grouped([f1, f2, f3]))
    ensures Correlate(Grouped([f1, f2, f3]), repository + DigestMarker + "aaa")
      == Report(Buckets([f1], [f2], []), AssessmentKey(f1.id))
  {
    var a := DigestMarker + "aaa";
    GroupingExample(f1, f2, f3);
    var g := Grouped([f1, f2, f3]);
    assert a in g && g[a] == [f1, f2];
    GroupedNonEmpty([f1, f2, f3]);
    ClassifyExample(f1, f2);
    assert ':' !in "aaa";
    ExtractDigestOfPinnedReference(repository, "aaa");
  }

  /** On that generation, a container running an image that is not indexed
      is not reported at all. */
  lemma EndToEndMissExample(f1: Vulnerability, f2: Vulnerability, f3: Vulnerability, repository: string)
    requires f1.imageDigest == f2.imageDigest == DigestMarker + "aaa"
    requires f3.imageDigest == DigestMarker + "bbb"
    ensures NonEmptyGroups(Grouped([f1, f2, f3]))
    ensures Correlate(Grouped([f1, f2, f3]), repository + DigestMarker + "ccc") == NoFindings
  {
    var a, b, c := DigestMarker + "aaa", DigestMarker + "bbb", DigestMarker + "ccc";
    assert a != c && b != c by { assert a[7] == 'a' && b[7] == 'b' && c[7] == 'c'; }
    GroupingExample(f1, f2, f3);
    assert c !in Grouped([f1, f2, f3]);
    GroupedNonEmpty([f1, f2, f3]);
    assert ':' !in "ccc";
    ExtractDigestOfPinnedReference(repository, "ccc");
  }
}
