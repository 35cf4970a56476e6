/**
 * The certification engine of internal/crane/crane_engine.go: `CraneEngine`, its
 * `ExecuteChecks` pipeline, the check loop that classifies every check's outcome into
 * the Errors, Failed and Passed lists, the overall verdict, and the tag/digest advisory.
 *
 * Pulling, directory creation, draining the pipe, reference parsing and writing the
 * artefacts are reduced to their outcomes (`Setup`); the extraction is the modelled
 * `CraneUntar.Untar`, and each check's `Validate` is an oracle whose answers are the
 * `outcomes` argument.
 */
module Crane {
  import opened Wrappers
  import opened Plugin
  import CraneUntar

  // ----- Classification of one check -----

  /** The three result lists of a run. */
  datatype Bucket = PassedBucket | FailedBucket | ErrorsBucket

  /** Where an outcome goes: an error wins over the returned boolean. */
  function Classify(o: Outcome): (b: Bucket)
    ensures b == ErrorsBucket <==> o.err.Some?
    ensures b == FailedBucket <==> o.err.None? && !o.passed
    ensures b == PassedBucket <==> o.err.None? && o.passed
  {
    if o.err.Some? then ErrorsBucket else if !o.passed then FailedBucket else PassedBucket
  }

  /** Whether check `c` with outcome `o` is appended to bucket `b`. */
  predicate Lands(c: CheckInfo, o: Outcome, b: Bucket)
  {
    Classify(o) == b && !IsOptional(c)
  }

  /** `appendUnlessOptional`: an optional check's result is dropped. */
  function AppendUnlessOptional(results: seq<CheckResult>, result: CheckResult): (r: seq<CheckResult>)
    ensures IsOptional(result.check) ==> r == results
    ensures !IsOptional(result.check) ==> r == results + [result]
  {
    if result.check.metadata.level == OptionalLevel then results else results + [result]
  }

  /** The results a run of `checks` with `outcomes` appends to bucket `b`, in check order. */
  function Recorded(checks: seq<CheckInfo>, outcomes: seq<Outcome>, b: Bucket): seq<CheckResult>
    requires |checks| == |outcomes|
    decreases |checks|
  {
    if |checks| == 0 then []
    else
      var n := |checks| - 1;
      Recorded(checks[..n], outcomes[..n], b)
        + (if Lands(checks[n], outcomes[n], b) then [CheckResult(checks[n], outcomes[n].elapsedNanos)] else [])
  }

  /** The engine's verdict on a report: no errors and no failures. */
  predicate PassedOverall(r: Results)
  {
    r.errors == [] && r.failed == []
  }

  // ----- The engine -----

  /** The parts of an image reference that `name.ParseReference` yields. */
  datatype ParsedReference = ParsedReference(registry: string, repository: string, identifier: string)

  /**
   * Outcomes of the steps `ExecuteChecks` takes before running checks. The tar
   * stream and its faults are extracted by the model of `untar`.
   */
  datatype Setup = Setup(
    pullErr: Option<string>,
    tempDir: Result<string>,
    cacheDirErr: Option<string>,
    fsDirErr: Option<string>,
    stream: seq<CraneUntar.TarRead>,
    faults: CraneUntar.Faults,
    drainErr: Option<string>,
    reference: Result<ParsedReference>,
    certImageErr: Option<string>,
    rpmManifestErr: Option<string>)

  /** The directory the image file system is extracted into. */
  function FsPath(tempDir: string): string
  {
    tempDir + "/fs"
  }

  /** The directory of the layer cache. */
  function CachePath(tempDir: string): string
  {
    tempDir + "/cache"
  }

  /** The error `untar` returns on the setup's tar stream, extracting into an empty directory. */
  function UntarError(s: Setup): Option<string>
    requires s.tempDir.Ok?
  {
    var dst := FsPath(s.tempDir.value);
    CraneUntar.Extract(CraneUntar.DirectoryTree(dst), dst, s.stream, s.faults).err
  }

  /** Whether setup reaches the point where the engine stores the image reference. */
  predicate ReferenceStored(s: Setup)
  {
    && s.pullErr.None? && s.tempDir.Ok? && s.cacheDirErr.None? && s.fsDirErr.None?
    && UntarError(s).None? && s.drainErr.None? && s.reference.Ok?
  }

  /**
   * The fatal error of the setup, taken in the order the steps run; the rpm manifest
   * is written, and so can fail, only for a non-scratch image.
   */
  function SetupError(s: Setup, isScratch: bool): (r: Option<string>)
    ensures r.None? <==> ReferenceStored(s) && s.certImageErr.None? && (isScratch || s.rpmManifestErr.None?)
  {
    if s.pullErr.Some? then Some("failed to pull remote container: " + s.pullErr.value)
    else if s.tempDir.Err? then Some("failed to create temporary directory: " + s.tempDir.error)
    else if s.cacheDirErr.Some? then
      Some("failed to create cache directory: " + CachePath(s.tempDir.value) + ": " + s.cacheDirErr.value)
    else if s.fsDirErr.Some? then
      Some("failed to create container expansion directory: " + FsPath(s.tempDir.value) + ": " + s.fsDirErr.value)
    else if UntarError(s).Some? then Some("failed to extract tarball: " + UntarError(s).value)
    else if s.drainErr.Some? then Some("failed to drain io reader: " + s.drainErr.value)
    else if s.reference.Err? then Some("image uri could not be parsed: " + s.reference.error)
    else if s.certImageErr.Some? then Some("could not write cert image: " + s.certImageErr.value)
    else if !isScratch && s.rpmManifestErr.Some? then Some("could not write rpm manifest: " + s.rpmManifestErr.value)
    else None
  }

  class CraneEngine {
    const dockerConfig: string
    const image: string
    const checks: seq<CheckInfo>
    const platform: string
    const isScratch: bool
    const insecure: bool

    var imageRef: ImageReference
    var results: Results

    constructor (dockerConfig: string, image: string, checks: seq<CheckInfo>, platform: string, isScratch: bool, insecure: bool)
      ensures this.dockerConfig == dockerConfig && this.image == image && this.checks == checks
      ensures this.platform == platform && this.isScratch == isScratch && this.insecure == insecure
      ensures imageRef == ZeroImageReference && results == EmptyResults
    {
      this.dockerConfig := dockerConfig;
      this.image := image;
      this.checks := checks;
      this.platform := platform;
      this.isScratch := isScratch;
      this.insecure := insecure;
      imageRef := ZeroImageReference;
      results := EmptyResults;
    }

    /** `Results`: the report accumulated so far. */
    function Report(): (r: Results)
      reads this
      ensures r == results
    {
      results
    }

    /**
     * `ExecuteChecks`: a failing setup step returns its error before any check runs and
     * leaves the report untouched; otherwise every check is run and recorded.
     */
    method ExecuteChecks(setup: Setup, outcomes: seq<Outcome>) returns (err: Option<string>)
      requires |outcomes| == |checks|
      modifies this
      ensures err == SetupError(setup, isScratch)
      ensures imageRef == if ReferenceStored(setup)
        then ImageReference(image, FsPath(setup.tempDir.value), setup.reference.value.registry,
                            setup.reference.value.repository, setup.reference.value.identifier)
        else old(imageRef)
      ensures err.Some? ==> results == old(results)
      ensures err.None? ==> results == RunChecks(old(results), image, checks, outcomes)
    {
      if setup.pullErr.Some? {
        return Some("failed to pull remote container: " + setup.pullErr.value);
      }
      if setup.tempDir.Err? {
        return Some("failed to create temporary directory: " + setup.tempDir.error);
      }
      var tmpdir := setup.tempDir.value;
      var imageTarPath := CachePath(tmpdir);
      if setup.cacheDirErr.Some? {
        return Some("failed to create cache directory: " + imageTarPath + ": " + setup.cacheDirErr.value);
      }
      var containerFSPath := FsPath(tmpdir);
      if setup.fsDirErr.Some? {
        return Some("failed to create container expansion directory: " + containerFSPath + ": " + setup.fsDirErr.value);
      }
      var fs := new CraneUntar.FileSystem(CraneUntar.DirectoryTree(containerFSPath));
      var untarErr := CraneUntar.Untar(fs, containerFSPath, setup.stream, setup.faults);
      if untarErr.Some? {
        return Some("failed to extract tarball: " + untarErr.value);
      }
      if setup.drainErr.Some? {
        return Some("failed to drain io reader: " + setup.drainErr.value);
      }
      if setup.reference.Err? {
        return Some("image uri could not be parsed: " + setup.reference.error);
      }
      var reference := setup.reference.value;
      imageRef := ImageReference(image, containerFSPath, reference.registry, reference.repository, reference.identifier);
      if setup.certImageErr.Some? {
        return Some("could not write cert image: " + setup.certImageErr.value);
      }
      if !isScratch && setup.rpmManifestErr.Some? {
        return Some("could not write rpm manifest: " + setup.rpmManifestErr.value);
      }
      RecordChecks(outcomes);
      return None;
    }

    /**
     * The check loop and verdict: each check's result is appended to the list its
     * outcome selects unless the check is optional; the lists are extended, not reset;
     * the tested image is set once a check runs; the verdict reads the whole lists.
     */
    method RecordChecks(outcomes: seq<Outcome>)
      requires |outcomes| == |checks|
      modifies this
      ensures imageRef == old(imageRef)
      ensures results == RunChecks(old(results), image, checks, outcomes)
    {
      ghost var r0 := results;
      var i := 0;
      while i < |checks|
        invariant 0 <= i <= |checks|
        invariant imageRef == old(imageRef)
        invariant results == Partial(r0, image, checks, outcomes, i)
      {
        ghost var before := results;
        results := results.(testedImage := image);
        var ch := checks[i];
        var o := outcomes[i];
        var result := CheckResult(ch, o.elapsedNanos);
        if o.err.Some? {
          results := results.(errors := AppendUnlessOptional(results.errors, result));
        } else if !o.passed {
          results := results.(failed := AppendUnlessOptional(results.failed, result));
        } else {
          results := results.(passed := AppendUnlessOptional(results.passed, result));
        }
        assert results == RecordOne(before, image, ch, o);
        PartialStep(r0, image, checks, outcomes, i);
        i := i + 1;
      }
      assert checks[..|checks|] == checks;
      assert outcomes[..|outcomes|] == outcomes;
      if |results.errors| > 0 || |results.failed| > 0 {
        results := results.(passedOverall := false);
      } else {
        results := results.(passedOverall := true);
      }
    }
  }

  /** What the loop body does with one check: set the tested image, then file the result. */
  function RecordOne(r: Results, image: string, ch: CheckInfo, o: Outcome): Results
  {
    var r1 := r.(testedImage := image);
    var result := CheckResult(ch, o.elapsedNanos);
    if o.err.Some? then r1.(errors := AppendUnlessOptional(r1.errors, result))
    else if !o.passed then r1.(failed := AppendUnlessOptional(r1.failed, result))
    else r1.(passed := AppendUnlessOptional(r1.passed, result))
  }

  /** The report after the first `i` checks of the loop, before the verdict is computed. */
  function Partial(r: Results, image: string, checks: seq<CheckInfo>, outcomes: seq<Outcome>, i: nat): Results
    requires |checks| == |outcomes| && i <= |checks|
  {
    r.(testedImage := if i > 0 then image else r.testedImage,
       passed := r.passed + Recorded(checks[..i], outcomes[..i], PassedBucket),
       failed := r.failed + Recorded(checks[..i], outcomes[..i], FailedBucket),
       errors := r.errors + Recorded(checks[..i], outcomes[..i], ErrorsBucket))
  }

  lemma PartialStep(r: Results, image: string, checks: seq<CheckInfo>, outcomes: seq<Outcome>, i: nat)
    requires |checks| == |outcomes| && i < |checks|
    ensures Partial(r, image, checks, outcomes, i + 1) == RecordOne(Partial(r, image, checks, outcomes, i), image, checks[i], outcomes[i])
  {
    RecordedStep(checks, outcomes, i, PassedBucket);
    RecordedStep(checks, outcomes, i, FailedBucket);
    RecordedStep(checks, outcomes, i, ErrorsBucket);
  }

  /** Recording one more check extends each list by at most that check's result. */
  lemma RecordedStep(checks: seq<CheckInfo>, outcomes: seq<Outcome>, i: int, b: Bucket)
    requires |checks| == |outcomes| && 0 <= i < |checks|
    ensures Recorded(checks[..i + 1], outcomes[..i + 1], b) ==
      Recorded(checks[..i], outcomes[..i], b)
        + (if Lands(checks[i], outcomes[i], b) then [CheckResult(checks[i], outcomes[i].elapsedNanos)] else [])
  {
    assert checks[..i + 1][..i] == checks[..i];
    assert outcomes[..i + 1][..i] == outcomes[..i];
  }

  /** The report after running `checks` with `outcomes` on top of report `r`. */
  function RunChecks(r: Results, image: string, checks: seq<CheckInfo>, outcomes: seq<Outcome>): (r': Results)
    requires |checks| == |outcomes|
    ensures r'.passedOverall <==> PassedOverall(r')
    ensures r'.testedImage == if |checks| > 0 then image else r.testedImage
  {
    var errors := r.errors + Recorded(checks, outcomes, ErrorsBucket);
    var failed := r.failed + Recorded(checks, outcomes, FailedBucket);
    Results(
      if |checks| > 0 then image else r.testedImage,
      errors == [] && failed == [],
      r.passed + Recorded(checks, outcomes, PassedBucket),
      failed,
      errors)
  }

  // ----- Properties of the classification -----

  /** Position `i` of the run lands in bucket `b`. */
  predicate LandsAt(checks: seq<CheckInfo>, outcomes: seq<Outcome>, b: Bucket, i: int)
    requires |checks| == |outcomes|
  {
    0 <= i < |checks| && Lands(checks[i], outcomes[i], b)
  }

  /**
   * The positions of the checks whose results bucket `b` holds: strictly increasing,
   * exactly the landing positions, and giving the results in order.
   */
  function Sources(checks: seq<CheckInfo>, outcomes: seq<Outcome>, b: Bucket): (idx: seq<nat>)
    requires |checks| == |outcomes|
    ensures |idx| == |Recorded(checks, outcomes, b)|
    ensures forall k :: 0 <= k < |idx| ==> LandsAt(checks, outcomes, b, idx[k])
    ensures forall k :: 0 <= k < |idx| ==>
      idx[k] < |checks| && Recorded(checks, outcomes, b)[k] == CheckResult(checks[idx[k]], outcomes[idx[k]].elapsedNanos)
    ensures forall k, m :: 0 <= k < m < |idx| ==> idx[k] < idx[m]
    ensures forall i :: LandsAt(checks, outcomes, b, i) ==> i in idx
    decreases |checks|
  {
    if |checks| == 0 then []
    else
      var n := |checks| - 1;
      var front := Sources(checks[..n], outcomes[..n], b);
      assert forall i :: LandsAt(checks[..n], outcomes[..n], b, i) <==> (i < n && LandsAt(checks, outcomes, b, i));
      if Lands(checks[n], outcomes[n], b) then front + [n] else front
  }

  /** A result is in bucket `b` exactly when some non-optional check classified as `b` produced it. */
  lemma RecordedMembership(checks: seq<CheckInfo>, outcomes: seq<Outcome>, b: Bucket, res: CheckResult)
    requires |checks| == |outcomes|
    ensures res in Recorded(checks, outcomes, b) <==>
      exists i :: LandsAt(checks, outcomes, b, i) && res == CheckResult(checks[i], outcomes[i].elapsedNanos)
  {
    var rec := Recorded(checks, outcomes, b);
    var idx := Sources(checks, outcomes, b);
    if res in rec {
      var k :| 0 <= k < |rec| && rec[k] == res;
      assert LandsAt(checks, outcomes, b, idx[k]);
    }
    if exists i :: LandsAt(checks, outcomes, b, i) && res == CheckResult(checks[i], outcomes[i].elapsedNanos) {
      var i :| LandsAt(checks, outcomes, b, i) && res == CheckResult(checks[i], outcomes[i].elapsedNanos);
      var k :| 0 <= k < |idx| && idx[k] == i;
      assert rec[k] == res;
    }
  }

  /** Number of checks that are not optional. */
  function Enforced(checks: seq<CheckInfo>): nat
  {
    if |checks| == 0 then 0 else Enforced(checks[..|checks| - 1]) + (if IsOptional(checks[|checks| - 1]) then 0 else 1)
  }

  /** Every non-optional check lands in exactly one list: the three lists together hold one result per such check. */
  lemma {:induction false} PartitionCount(checks: seq<CheckInfo>, outcomes: seq<Outcome>)
    requires |checks| == |outcomes|
    ensures |Recorded(checks, outcomes, PassedBucket)| + |Recorded(checks, outcomes, FailedBucket)|
            + |Recorded(checks, outcomes, ErrorsBucket)| == Enforced(checks)
    decreases |checks|
  {
    if |checks| > 0 {
      var n := |checks| - 1;
      PartitionCount(checks[..n], outcomes[..n]);
    }
  }

  /** Recording is compositional: running two lists of checks appends their results. */
  lemma {:induction false} RecordedAppend(c1: seq<CheckInfo>, o1: seq<Outcome>, c2: seq<CheckInfo>, o2: seq<Outcome>, b: Bucket)
    requires |c1| == |o1| && |c2| == |o2|
    ensures Recorded(c1 + c2, o1 + o2, b) == Recorded(c1, o1, b) + Recorded(c2, o2, b)
    decreases |c2|
  {
    if |c2| == 0 {
      assert c1 + c2 == c1 && o1 + o2 == o1;
    } else {
      var n := |c2| - 1;
      var c := c1 + c2;
      var o := o1 + o2;
      assert c[..|c| - 1] == c1 + c2[..n];
      assert o[..|o| - 1] == o1 + o2[..n];
      assert c[|c| - 1] == c2[n] && o[|o| - 1] == o2[n];
      RecordedAppend(c1, o1, c2[..n], o2[..n], b);
    }
  }

  /** An optional check, whatever its outcome, changes none of the three lists. */
  lemma OptionalCheckIgnored(c1: seq<CheckInfo>, o1: seq<Outcome>, opt: CheckInfo, x: Outcome, c2: seq<CheckInfo>, o2: seq<Outcome>, b: Bucket)
    requires |c1| == |o1| && |c2| == |o2|
    requires IsOptional(opt)
    ensures Recorded(c1 + [opt] + c2, o1 + [x] + o2, b) == Recorded(c1 + c2, o1 + o2, b)
  {
    RecordedAppend(c1 + [opt], o1 + [x], c2, o2, b);
    RecordedAppend(c1, o1, [opt], [x], b);
    RecordedAppend(c1, o1, c2, o2, b);
    assert Recorded([opt], [x], b) == Recorded([], [], b) + [];
  }

  /** No optional check ever appears in a list. */
  lemma OptionalNeverRecorded(checks: seq<CheckInfo>, outcomes: seq<Outcome>, b: Bucket)
    requires |checks| == |outcomes|
    ensures forall res :: res in Recorded(checks, outcomes, b) ==> !IsOptional(res.check)
  {
    forall res | res in Recorded(checks, outcomes, b)
      ensures !IsOptional(res.check)
    {
      RecordedMembership(checks, outcomes, b, res);
    }
  }

  /** A non-optional check that errored or failed leaves its bucket non-empty. */
  lemma ProblemRecorded(checks: seq<CheckInfo>, outcomes: seq<Outcome>, i: int)
    requires |checks| == |outcomes| && 0 <= i < |checks| && !IsOptional(checks[i])
    ensures outcomes[i].err.Some? ==> |Recorded(checks, outcomes, ErrorsBucket)| > 0
    ensures outcomes[i].err.None? && !outcomes[i].passed ==> |Recorded(checks, outcomes, FailedBucket)| > 0
  {
    var idxE := Sources(checks, outcomes, ErrorsBucket);
    var idxF := Sources(checks, outcomes, FailedBucket);
  }

  /**
   * On a fresh report, the verdict is true exactly when every non-optional check
   * returned true without an error.
   */
  lemma VerdictIffAllEnforcedPass(image: string, checks: seq<CheckInfo>, outcomes: seq<Outcome>)
    requires |checks| == |outcomes|
    ensures RunChecks(EmptyResults, image, checks, outcomes).passedOverall <==>
      forall i :: 0 <= i < |checks| && !IsOptional(checks[i]) ==> outcomes[i].err.None? && outcomes[i].passed
  {
    if RunChecks(EmptyResults, image, checks, outcomes).passedOverall {
      forall i | 0 <= i < |checks| && !IsOptional(checks[i])
        ensures outcomes[i].err.None? && outcomes[i].passed
      {
        ProblemRecorded(checks, outcomes, i);
      }
    } else {
      var idxE := Sources(checks, outcomes, ErrorsBucket);
      var idxF := Sources(checks, outcomes, FailedBucket);
      assert |idxE| > 0 || |idxF| > 0;
      if |idxE| > 0 {
        assert LandsAt(checks, outcomes, ErrorsBucket, idxE[0]);
      } else {
        assert LandsAt(checks, outcomes, FailedBucket, idxF[0]);
      }
    }
  }

  /** A second run extends the first run's lists and recomputes the verdict over all of them. */
  lemma RunsAccumulate(r: Results, image: string, c1: seq<CheckInfo>, o1: seq<Outcome>, c2: seq<CheckInfo>, o2: seq<Outcome>)
    requires |c1| == |o1| && |c2| == |o2|
    ensures RunChecks(RunChecks(r, image, c1, o1), image, c2, o2) == RunChecks(r, image, c1 + c2, o1 + o2)
  {
    RecordedAppend(c1, o1, c2, o2, PassedBucket);
    RecordedAppend(c1, o1, c2, o2, FailedBucket);
    RecordedAppend(c1, o1, c2, o2, ErrorsBucket);
  }

  /** The rpm-manifest step is skipped for a scratch project, so its error cannot surface then, and
      a scratch setup fails only where the same setup would fail without the scratch flag. */
  lemma ScratchSkipsRpmManifest(s: Setup)
    ensures SetupError(s, true) == SetupError(s.(rpmManifestErr := None), true)
    ensures SetupError(s, false).None? ==> SetupError(s, true).None?
  {
  }

  // ----- Tag/digest advisory -----

  const DigestPrefix: string := "sha256:"

  const DigestReferenceMessage: string :=
    "You've provided an image by digest. "
    + "When submitting this image to Red Hat for certification, "
    + "no tag will be associated with this image. "
    + "If you would like to associate a tag with this image, "
    + "please rerun this tool replacing your image reference with a tag."

  const TagMessageHead: string := "This image's tag "
  const TagMessageMiddle: string := " will be paired with digest "
  const TagMessageTail: string :=
    " once this image has been published in accordance "
    + "with Red Hat Certification policy. "
    + "You may then add or remove any supplemental tags "
    + "through your Red Hat Connect portal as you see fit."

  /** `tagDigestBindingInfo`: the advisory message and whether it is a warning. */
  function TagDigestBindingInfo(providedIdentifier: string, resolvedDigest: string): (r: (string, bool))
    ensures r.1 <==> DigestPrefix <= providedIdentifier
  {
    if DigestPrefix <= providedIdentifier then (DigestReferenceMessage, true)
    else (TagMessageHead + providedIdentifier + TagMessageMiddle + resolvedDigest + TagMessageTail, false)
  }

  /** A digest reference gets one fixed warning, whatever digest it resolved to. */
  lemma DigestWarningIndependentOfDigest(id: string, d1: string, d2: string)
    requires DigestPrefix <= id
    ensures TagDigestBindingInfo(id, d1) == TagDigestBindingInfo(id, d2)
    ensures TagDigestBindingInfo(id, d1).0 == DigestReferenceMessage
  {
  }

  /** A tag reference's message embeds the tag and the digest, and both can be read back from it. */
  lemma TagMessageEmbedsBoth(tag: string, digest: string)
    requires !(DigestPrefix <= tag)
    ensures var msg := TagDigestBindingInfo(tag, digest).0;
      var start := |TagMessageHead| + |tag| + |TagMessageMiddle|;
      && !TagDigestBindingInfo(tag, digest).1
      && |msg| == start + |digest| + |TagMessageTail|
      && msg[|TagMessageHead|..|TagMessageHead| + |tag|] == tag
      && msg[start..start + |digest|] == digest
  {
    var msg := TagDigestBindingInfo(tag, digest).0;
    var start := |TagMessageHead| + |tag| + |TagMessageMiddle|;
    assert msg == TagMessageHead + tag + TagMessageMiddle + digest + TagMessageTail;
    assert msg[|TagMessageHead|..|TagMessageHead| + |tag|] == tag;
    assert msg[start..start + |digest|] == digest;
  }

  /** The two documented cases: a digest reference warns, a tag reference does not. */
  lemma BindingExamples(digest: string)
    ensures TagDigestBindingInfo("sha256:abc", digest).1
    ensures !TagDigestBindingInfo("v1.0", digest).1
  {
    assert DigestPrefix <= "sha256:abc";
    assert "v1.0"[0] != DigestPrefix[0];
  }
}
