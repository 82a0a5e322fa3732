/** The read path: from a container's image identifier to a severity
    report, given one generation of the digest index. */
module Correlation {
  import opened Wrappers
  import opened Sequences
  import opened GoStrings
  import opened Vulnerabilities

  /** The digest-algorithm marker searched in an image identifier. */
  const DigestMarker: string := "sha256:"

  /** The resource path segment that precedes an assessment key. */
  const AssessmentsMarker: string := "Microsoft.Security/assessments/"

  /** The three severity buckets, each in the order the findings arrived. */
  datatype Buckets = Buckets(high: seq<Vulnerability>, medium: seq<Vulnerability>, low: seq<Vulnerability>)

  /** What correlating one container yields. */
  datatype Outcome =
    | NoFindings
    | Report(issues: Buckets, assessmentKey: Option<string>)

  // ---------------------------------------------------------------------
  // Digest extraction
  // ---------------------------------------------------------------------

  /** The digest of an image identifier: everything from the last
      "sha256:" on, or None (correlation skipped) when there is none. */
  function ExtractDigest(imageId: string): (r: Option<string>)
    ensures r.None? <==> forall j :: !OccursAt(imageId, DigestMarker, j)
    ensures r.Some? ==>
      && |r.value| <= |imageId|
      && r.value == imageId[|imageId| - |r.value|..]
      && OccursAt(r.value, DigestMarker, 0)
      && forall j :: 0 < j ==> !OccursAt(r.value, DigestMarker, j)
  {
    var idx := LastIndex(imageId, DigestMarker);
    if idx < 0 then None
    else
      var d := imageId[idx..];
      assert OccursAt(d, DigestMarker, 0) by { OccursInSuffix(imageId, DigestMarker, idx, 0); }
      assert forall j :: 0 < j ==> !OccursAt(d, DigestMarker, j) by {
        forall j | 0 < j ensures !OccursAt(d, DigestMarker, j) {
          OccursInSuffix(imageId, DigestMarker, idx, j);
        }
      }
      Some(d)
  }

  // ---------------------------------------------------------------------
  // Assessment key
  // ---------------------------------------------------------------------

  /** The 36-character assessment key that immediately follows the last
      assessments marker of a finding's resource id, when the id has one
      and is long enough; None otherwise (no deep link). */
  function AssessmentKey(id: string): (r: Option<string>)
    ensures r.Some? ==> |r.value| == 36 && exists p :: IsLastOccurrence(id, AssessmentsMarker, p) && p + 67 <= |id| && r.value == id[p + 31..p + 67]
    ensures r.None? ==> forall p :: IsLastOccurrence(id, AssessmentsMarker, p) ==> |id| < p + 67
  {
    var idx := LastIndex(id, AssessmentsMarker);
    if idx < 0 || |id| < idx + 67 then None
    else Some(id[idx + 31..idx + 67])
  }

  lemma AssessmentsMarkerLength()
    ensures |AssessmentsMarker| == 31
  {
  }

  // ---------------------------------------------------------------------
  // Severity bucketing
  // ---------------------------------------------------------------------

  /** The reference classification: each bucket is the input filtered by
      its severity class. */
  function Classify(findings: seq<Vulnerability>): Buckets
  {
    Buckets(Filter(findings, IsHigh), Filter(findings, IsMedium), Filter(findings, IsLow))
  }

  /** Classifying one more finding appends it to exactly one bucket. */
  lemma ClassifySnoc(findings: seq<Vulnerability>, v: Vulnerability)
    ensures Classify(findings + [v]) ==
      var b := Classify(findings);
      if IsHigh(v) then b.(high := b.high + [v])
      else if IsMedium(v) then b.(medium := b.medium + [v])
      else b.(low := b.low + [v])
  {
    FilterSnoc(findings, v, IsHigh);
    FilterSnoc(findings, v, IsMedium);
    FilterSnoc(findings, v, IsLow);
  }

  /** The buckets partition the findings: their sizes add up to the number
      of findings, and together they hold every finding exactly as often as
      it was reported. */
  lemma {:induction false} ClassifyPartitions(findings: seq<Vulnerability>)
    ensures var b := Classify(findings);
      && |b.high| + |b.medium| + |b.low| == |findings|
      && multiset(b.high) + multiset(b.medium) + multiset(b.low) == multiset(findings)
  {
    if findings != [] {
      var init, v := findings[..|findings| - 1], findings[|findings| - 1];
      assert findings == init + [v];
      ClassifyPartitions(init);
      ClassifySnoc(init, v);
    }
  }

  /** Each bucket holds exactly the findings of its severity class. */
  lemma ClassifyMembers(findings: seq<Vulnerability>, v: Vulnerability)
    ensures var b := Classify(findings);
      && (v in b.high <==> v in findings && v.severity == "High")
      && (v in b.medium <==> v in findings && v.severity == "Medium")
      && (v in b.low <==> v in findings && v.severity != "High" && v.severity != "Medium")
  {
    FilterMembers(findings, IsHigh, v);
    FilterMembers(findings, IsMedium, v);
    FilterMembers(findings, IsLow, v);
  }

  /** A severity outside the two named ones, here "Critical", is counted as
      Low: it is neither dropped nor an error. */
  lemma CriticalCountsAsLow(v: Vulnerability)
    requires v.severity == "Critical"
    ensures Classify([v]) == Buckets([], [], [v])
  {
    assert [v][1..] == [];
  }

  /** ProcessFindings: buckets the findings of one image by severity and
      cuts the assessment key out of the first finding's id. Its caller only
      passes lists found in the index, which are never empty. */
  method ProcessFindings(digest: seq<Vulnerability>) returns (issues: Buckets, assessmentKey: Option<string>)
    requires |digest| > 0
    ensures issues == Classify(digest)
    ensures |issues.high| + |issues.medium| + |issues.low| == |digest|
    ensures assessmentKey == AssessmentKey(digest[0].id)
  {
    issues := Buckets([], [], []);
    for i := 0 to |digest|
      invariant issues == Classify(digest[..i])
    {
      var v := digest[i];
      if v.severity == "High" {
        issues := issues.(high := issues.high + [v]);
      } else if v.severity == "Medium" {
        issues := issues.(medium := issues.medium + [v]);
      } else {
        issues := issues.(low := issues.low + [v]);
      }
      ClassifySnoc(digest[..i], v);
      assert digest[..i + 1] == digest[..i] + [v];
    }
    assert digest[..|digest|] == digest;
    ClassifyPartitions(digest);
    assessmentKey := AssessmentKey(digest[0].id);
  }

  // ---------------------------------------------------------------------
  // Correlation of one container against one index generation
  // ---------------------------------------------------------------------

  /** Every digest of the index maps to at least one finding. */
  ghost predicate NonEmptyGroups(index: map<string, seq<Vulnerability>>)
  {
    forall d :: d in index ==> |index[d]| > 0
  }

  /** The reference for one container status: extract the digest, look it
      up, and report only when it is a key of the index. */
  function Correlate(index: map<string, seq<Vulnerability>>, imageId: string): Outcome
    requires NonEmptyGroups(index)
  {
    match ExtractDigest(imageId)
    case None => NoFindings
    case Some(d) =>
      if d in index then Report(Classify(index[d]), AssessmentKey(index[d][0].id))
      else NoFindings
  }

  /** A container is reported exactly when its image identifier carries a
      digest marker and the digest from the last marker on is a key of the
      index; the report then buckets that key's findings and its counts add
      up to their number. */
  lemma CorrelateAtLastMarker(index: map<string, seq<Vulnerability>>, imageId: string, p: int)
    requires NonEmptyGroups(index)
    requires IsLastOccurrence(imageId, DigestMarker, p)
    ensures Correlate(index, imageId) ==
      (if imageId[p..] in index
       then Report(Classify(index[imageId[p..]]), AssessmentKey(index[imageId[p..]][0].id))
       else NoFindings)
    ensures var r := Correlate(index, imageId);
      r.Report? ==> |r.issues.high| + |r.issues.medium| + |r.issues.low| == |index[imageId[p..]]|
  {
    LastIndexOfLastOccurrence(imageId, DigestMarker, p);
    if imageId[p..] in index {
      ClassifyPartitions(index[imageId[p..]]);
    }
  }

  /** An image identifier without a digest marker is skipped, whatever the
      index holds. */
  lemma CorrelateSkipsWithoutDigest(index: map<string, seq<Vulnerability>>, imageId: string)
    requires NonEmptyGroups(index)
    requires forall j :: !OccursAt(imageId, DigestMarker, j)
    ensures Correlate(index, imageId) == NoFindings
  {
  }

  // ---------------------------------------------------------------------
  // Worked examples
  // ---------------------------------------------------------------------

  /** A reference `<repository>@sha256:<hex>` whose hex part has no colon
      yields exactly `sha256:<hex>`, whatever precedes it (a registry port,
      a `docker-pullable://` scheme). */
  lemma {:induction false} ExtractDigestOfPinnedReference(repository: string, hex: string)
    requires ':' !in hex
    ensures ExtractDigest(repository + DigestMarker + hex) == Some(DigestMarker + hex)
  {
    var s := repository + DigestMarker + hex;
    var p := |repository|;
    assert s[p..p + 7] == DigestMarker;
    forall j | p < j && j + 7 <= |s| ensures !OccursAt(s, DigestMarker, j) {
      assert s[j + 6] == hex[j + 6 - p - 7] != ':';
      assert s[j..j + 7][6] == s[j + 6];
    }
    LastIndexOfLastOccurrence(s, DigestMarker, p);
    assert s[p..] == DigestMarker + hex;
  }

  /** The pinned reference of the worked example. */
  lemma ExtractDigestOfPinnedImage()
    ensures ExtractDigest("registry.example.com/app@" + "sha256:" + "abc123") == Some("sha256:" + "abc123")
  {
    assert ':' !in "abc123";
    ExtractDigestOfPinnedReference("registry.example.com/app@", "abc123");
  }

  /** An image reference that names only a tag. */
  const TaggedImage: string := "registry.example.com/app@latest"

  /** A tag-only image reference has no digest: correlation is skipped. */
  lemma ExtractDigestOfTaggedImage()
    ensures ExtractDigest(TaggedImage) == None
  {
    assert ':' !in TaggedImage;
    forall j ensures !OccursAt(TaggedImage, DigestMarker, j) {
      AbsentCharacter(TaggedImage, DigestMarker, ':', j);
    }
  }

  // ---------------------------------------------------------------------
  // The source as written (see the Findings section of the README)
  // ---------------------------------------------------------------------

  /** `status.ImageID[idx:]` with `idx` the result of LastIndex: Go panics
      when the marker is missing, since the slice then starts at -1. */
  function ExtractDigestAsWritten(imageId: string): (r: Evaluation<string>)
    ensures r.Panicked? <==> forall j :: !OccursAt(imageId, DigestMarker, j)
    ensures r.Evaluated? ==> ExtractDigest(imageId) == Some(r.value)
  {
    var idx := LastIndex(imageId, DigestMarker);
    if idx < 0 then Panicked else Evaluated(imageId[idx..])
  }

  /** A container that has not started yet reports an empty image id; the
      code as written panics on it, where the intended behaviour skips it. */
  lemma EmptyImageIdPanics()
    ensures ExtractDigestAsWritten("") == Panicked
    ensures ExtractDigest("") == None
  {
    forall j ensures !OccursAt("", DigestMarker, j) {
      AbsentCharacter("", DigestMarker, ':', j);
    }
  }

  /** `digest[0].Id[idx+31 : idx+67]`: Go panics only when the upper bound
      passes the end. Without a marker `idx` is -1 and the slice [30, 66)
      is taken from an id that has no assessment segment at all; with a
      marker too close to the end the slice panics. */
  function AssessmentKeyAsWritten(id: string): (r: Evaluation<string>)
    ensures (forall j :: !OccursAt(id, AssessmentsMarker, j)) ==>
      r == (if |id| < 66 then Panicked else Evaluated(id[30..66]))
    ensures forall p :: IsLastOccurrence(id, AssessmentsMarker, p) && |id| < p + 67 ==> r == Panicked
    ensures AssessmentKey(id).Some? ==> r == Evaluated(AssessmentKey(id).value)
  {
    forall p | IsLastOccurrence(id, AssessmentsMarker, p) ensures LastIndex(id, AssessmentsMarker) == p {
      LastIndexOfLastOccurrence(id, AssessmentsMarker, p);
    }
    var idx := LastIndex(id, AssessmentsMarker);
    if |id| < idx + 67 then Panicked else Evaluated(id[idx + 31..idx + 67])
  }

  /** Without an assessments marker the code as written does not fail:
      any id of at least 66 characters yields its characters [30, 66) as
      the key, where the intended behaviour gives no deep link. */
  lemma MissingMarkerYieldsBogusKey(id: string)
    requires |id| >= 66 && forall j :: !OccursAt(id, AssessmentsMarker, j)
    ensures AssessmentKeyAsWritten(id) == Evaluated(id[30..66])
    ensures AssessmentKey(id) == None
  {
  }

  /** A resource id whose provider segment is spelt in lower case
      (resource ids are case-insensitive). */
  const LowerCaseProviderId: string :=
    "/subscriptions/" + "00000000-0000-" + "0000-0000-" + "000000000000/" + "resourceGroups/" + "rg/providers/" +
    "microsoft." + "security/" + "assessments/" + "dbd0cb49-b563-" + "45e7-9724-" + "889e799fa648"

  /** That id has no assessments marker, so the code as written returns 36
      characters of its subscription path as the key. */
  lemma LowerCaseProviderYieldsBogusKey(id: string)
    requires id == LowerCaseProviderId
    ensures AssessmentKeyAsWritten(id) == Evaluated(id[30..66])
    ensures AssessmentKey(id) == None
  {
    assert |LowerCaseProviderId| >= 66 && 'M' !in LowerCaseProviderId;
    forall j ensures !OccursAt(id, AssessmentsMarker, j) {
      AbsentCharacter(id, AssessmentsMarker, 'M', j);
    }
    MissingMarkerYieldsBogusKey(id);
  }
}
