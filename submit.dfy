/**
 * internal/submit/submit.go: the Pyxis client guard, the order of the steps `Submit`
 * takes before it hands the results to Pyxis, and the Connect URL builders.
 */
module Submit {
  import opened Wrappers
  import opened Pyxis

  /** The client settings `NewPyxisClient` passes on, with the 60-second HTTP timeout. */
  datatype ClientConfig = ClientConfig(host: string, token: string, projectID: string, timeoutSeconds: nat)

  /** `NewPyxisClient`: no client (nil) when any of the three settings is empty. */
  function NewPyxisClient(projectID: string, token: string, host: string): (r: Option<ClientConfig>)
    ensures r.None? <==> projectID == "" || token == "" || host == ""
    ensures r.Some? ==> r.value == ClientConfig(host, token, projectID, 60)
  {
    if projectID == "" || token == "" || host == "" then None
    else Some(ClientConfig(host, token, projectID, 60))
  }

  const CertImageFilename: string := "cert-image.json"
  const TestResultsFilename: string := "results.json"
  const RPMManifestFilename: string := "rpm-manifest.json"

  const RetrieveProjectPrefix: string := "could not retrieve project: "
  const NoProjectMessage: string := "no certification project was returned from pyxis"
  const OpenFilePrefix: string := "could not open file for submission: "
  const NoArtifactWriterMessage: string := "the artifact writer was either missing or was not supported, so results cannot be submitted"
  const FinalizePrefix: string := "unable to finalize data that would be sent to pyxis: "
  const SubmitPrefix: string := "could not submit to pyxis: "

  /** `path.Join(dir, name)` for a file name without slashes. */
  function JoinPath(dir: string, name: string): string
  {
    if dir == "" then name else dir + "/" + name
  }

  /** The index of the last `c` in `s`, if any. */
  function LastIndexOf(s: string, c: char): (r: Option<nat>)
    ensures r.Some? ==> r.value < |s| && s[r.value] == c && c !in s[r.value + 1..]
    ensures r.None? ==> c !in s
    decreases |s|
  {
    if |s| == 0 then None
    else if s[|s| - 1] == c then Some(|s| - 1)
    else
      var r := LastIndexOf(s[..|s| - 1], c);
      assert s == s[..|s| - 1] + [s[|s| - 1]];
      r
  }

  /** `s` without its trailing slashes. */
  function StripTrailingSlashes(s: string): (r: string)
    ensures r <= s
    ensures |r| == 0 || r[|r| - 1] != '/'
  {
    if |s| > 0 && s[|s| - 1] == '/' then StripTrailingSlashes(s[..|s| - 1]) else s
  }

  /** `filepath.Base`: the last element of a slash-separated path. */
  function Base(p: string): (r: string)
    ensures r != ""
    ensures r == "/" || '/' !in r
  {
    if p == "" then "."
    else
      var q := StripTrailingSlashes(p);
      if q == "" then "/"
      else match LastIndexOf(q, '/')
        case None => q
        case Some(i) => if i + 1 == |q| then "/" else q[i + 1..]
  }

  /** The base of `dir/name` is `name`, for a non-empty name without slashes. */
  lemma BaseOfJoin(dir: string, name: string)
    requires name != "" && '/' !in name
    ensures Base(JoinPath(dir, name)) == name
  {
    var p := JoinPath(dir, name);
    assert p[|p| - 1] == name[|name| - 1];
    assert StripTrailingSlashes(p) == p;
    if dir == "" {
      assert LastIndexOf(p, '/') == None;
    } else {
      assert p[|dir|] == '/';
      assert p[|dir| + 1..] == name;
      var r := LastIndexOf(p, '/');
      assert r.Some?;
    }
  }

  /** Where `Submit` finds the artifacts: no writer, a writer that is not on the file system, or a directory. */
  datatype ArtifactWriterKind = MissingWriter | UnsupportedWriter | FilesystemWriter(path: string)

  /** The answers `Submit` receives from Pyxis and the file system. */
  datatype SubmitEnv = SubmitEnv(
    project: Result<Option<CertProject>>,
    dockerConfigContents: Result<string>,
    writer: ArtifactWriterKind,
    openFailures: map<string, string>,
    finalizeErr: Option<string>,
    submitErr: Option<string>)

  /** The files handed to `NewCertificationInput`. */
  datatype CertificationInputOption =
    | WithCertImage(certImagePath: string)
    | WithPreflightResults(resultsPath: string)
    | WithArtifact(artifactPath: string, artifactName: string)
    | WithRPMManifest(rpmManifestPath: string)

  /** The file an option hands to `SubmitResults`. */
  function OptionPath(o: CertificationInputOption): string
  {
    match o
    case WithCertImage(path) => path
    case WithPreflightResults(path) => path
    case WithArtifact(path, _) => path
    case WithRPMManifest(path) => path
  }

  /** What `SubmitResults` is called with. */
  datatype CertificationInput = CertificationInput(project: CertProject, options: seq<CertificationInputOption>)

  /** The docker config sent along: the file's contents, unless there is none or Red Hat hosts the registry. */
  function DockerConfigJSON(dockerConfig: string, contents: string, p: CertProject): string
  {
    if dockerConfig == "" || p.container.hostedRegistry then "" else contents
  }

  /** A file `Submit` opens, and the name its open failure is reported under. */
  datatype RequiredFile = RequiredFile(path: string, reportedName: string)

  /** The error of the first required file that does not open. */
  function FirstOpenError(openFailures: map<string, string>, files: seq<RequiredFile>): (r: Option<string>)
    ensures r.None? <==> forall i :: 0 <= i < |files| ==> files[i].path !in openFailures
  {
    if |files| == 0 then None
    else if files[0].path in openFailures then OpenFailure(openFailures, files[0])
    else
      var r := FirstOpenError(openFailures, files[1..]);
      assert forall i :: 1 <= i < |files| ==> files[i] == files[1..][i - 1];
      r
  }

  function OpenFailure(openFailures: map<string, string>, f: RequiredFile): Option<string>
    requires f.path in openFailures
  {
    Some(OpenFilePrefix + f.reportedName + ": " + openFailures[f.path])
  }

  /** The reported error is that of the earliest file that does not open. */
  lemma {:induction false} FirstOpenErrorAt(openFailures: map<string, string>, files: seq<RequiredFile>, i: nat)
    requires i < |files| && files[i].path in openFailures
    requires forall j :: 0 <= j < i ==> files[j].path !in openFailures
    ensures FirstOpenError(openFailures, files) == OpenFailure(openFailures, files[i])
    decreases i
  {
    if i > 0 {
      assert forall j :: 0 <= j < i - 1 ==> files[1..][j] == files[j + 1];
      FirstOpenErrorAt(openFailures, files[1..], i - 1);
    }
  }

  class ContainerCertificationSubmitter {
    const certificationProjectID: string
    const pyxis: Option<ClientConfig>
    const dockerConfig: string
    const preflightLogFile: string
    const pyxisEnv: string

    constructor (certificationProjectID: string, pyxis: Option<ClientConfig>, dockerConfig: string,
                 preflightLogFile: string, pyxisEnv: string)
      ensures this.certificationProjectID == certificationProjectID && this.pyxis == pyxis
      ensures this.dockerConfig == dockerConfig && this.preflightLogFile == preflightLogFile
      ensures this.pyxisEnv == pyxisEnv
    {
      this.certificationProjectID := certificationProjectID;
      this.pyxis := pyxis;
      this.dockerConfig := dockerConfig;
      this.preflightLogFile := preflightLogFile;
      this.pyxisEnv := pyxisEnv;
    }

    /**
     * The files that must open, in the order they are opened, each with the name its
     * failure is reported under: the rpm manifest only for a non-scratch project.
     */
    function RequiredFiles(dir: string, p: CertProject): seq<RequiredFile>
    {
      [RequiredFile(JoinPath(dir, CertImageFilename), CertImageFilename),
       RequiredFile(JoinPath(dir, TestResultsFilename), TestResultsFilename),
       RequiredFile(preflightLogFile, preflightLogFile)]
        + (if !p.scratch then [RequiredFile(JoinPath(dir, RPMManifestFilename), RPMManifestFilename)] else [])
    }

    /** The error of the step that stops `Submit` before `SubmitResults`, in the order the steps run. */
    function PreSubmitError(env: SubmitEnv): (r: Option<string>)
      ensures r.None? <==>
        && env.project.Ok? && env.project.value.Some?
        && (dockerConfig == "" || env.dockerConfigContents.Ok?)
        && env.writer.FilesystemWriter?
        && (forall f :: f in RequiredFiles(env.writer.path, env.project.value.value) ==> f.path !in env.openFailures)
        && env.finalizeErr.None?
    {
      if env.project.Err? then Some(RetrieveProjectPrefix + env.project.error)
      else if env.project.value.None? then Some(NoProjectMessage)
      else if dockerConfig != "" && env.dockerConfigContents.Err? then
        Some(OpenFilePrefix + dockerConfig + ": " + env.dockerConfigContents.error)
      else if !env.writer.FilesystemWriter? then
        Some(NoArtifactWriterMessage)
      else if FirstOpenError(env.openFailures, RequiredFiles(env.writer.path, env.project.value.value)).Some? then
        FirstOpenError(env.openFailures, RequiredFiles(env.writer.path, env.project.value.value))
      else if env.finalizeErr.Some? then Some(FinalizePrefix + env.finalizeErr.value)
      else None
    }

    /** The input `SubmitResults` receives once every earlier step succeeded. */
    function Input(env: SubmitEnv): (r: CertificationInput)
      requires PreSubmitError(env).None?
      ensures var p := env.project.value.value;
        r.project == p.(container := p.container.(dockerConfigJSON := r.project.container.dockerConfigJSON))
      ensures var files := RequiredFiles(env.writer.path, env.project.value.value);
        |r.options| == |files| && forall i :: 0 <= i < |files| ==> OptionPath(r.options[i]) == files[i].path
    {
      var p := env.project.value.value;
      var dir := env.writer.path;
      var contents := if dockerConfig != "" then env.dockerConfigContents.value else "";
      var options := [WithCertImage(JoinPath(dir, CertImageFilename)),
                      WithPreflightResults(JoinPath(dir, TestResultsFilename)),
                      WithArtifact(preflightLogFile, Base(preflightLogFile))]
                     + (if !p.scratch then [WithRPMManifest(JoinPath(dir, RPMManifestFilename))] else []);
      CertificationInput(p.(container := p.container.(dockerConfigJSON := DockerConfigJSON(dockerConfig, contents, p))), options)
    }

    /**
     * `Submit`: the project is fetched, the docker config read and kept or stripped, the
     * artifact files opened, and the input built; the first failing step returns its error
     * and `SubmitResults` is called only when all of them succeeded.
     */
    method Submit(env: SubmitEnv) returns (err: Option<string>, submitted: Option<CertificationInput>)
      requires pyxis.Some?
      ensures submitted.Some? <==> PreSubmitError(env).None?
      ensures submitted.Some? ==> submitted.value == Input(env)
      ensures PreSubmitError(env).Some? ==> err == PreSubmitError(env)
      ensures PreSubmitError(env).None? ==>
        err == if env.submitErr.Some? then Some(SubmitPrefix + env.submitErr.value) else None
    {
      submitted := None;
      if env.project.Err? {
        return Some(RetrieveProjectPrefix + env.project.error), None;
      }
      if env.project.value.None? {
        return Some(NoProjectMessage), None;
      }
      var certProject := env.project.value.value;
      var original := certProject;
      var contents := "";
      if dockerConfig != "" {
        if env.dockerConfigContents.Err? {
          return Some(OpenFilePrefix + dockerConfig + ": " + env.dockerConfigContents.error), None;
        }
        contents := env.dockerConfigContents.value;
        certProject := certProject.(container := certProject.container.(dockerConfigJSON := contents));
      }
      if dockerConfig == "" {
        certProject := certProject.(container := certProject.container.(dockerConfigJSON := ""));
      }
      if certProject.container.hostedRegistry {
        certProject := certProject.(container := certProject.container.(dockerConfigJSON := ""));
      }
      if !env.writer.FilesystemWriter? {
        return Some(NoArtifactWriterMessage), None;
      }
      var dir := env.writer.path;
      var files := RequiredFiles(dir, original);
      assert RequiredFiles(dir, certProject) == files;
      var certImagePath := JoinPath(dir, CertImageFilename);
      if certImagePath in env.openFailures {
        FirstOpenErrorAt(env.openFailures, files, 0);
        return Some(OpenFilePrefix + CertImageFilename + ": " + env.openFailures[certImagePath]), None;
      }
      var resultsPath := JoinPath(dir, TestResultsFilename);
      if resultsPath in env.openFailures {
        FirstOpenErrorAt(env.openFailures, files, 1);
        return Some(OpenFilePrefix + TestResultsFilename + ": " + env.openFailures[resultsPath]), None;
      }
      if preflightLogFile in env.openFailures {
        FirstOpenErrorAt(env.openFailures, files, 2);
        return Some(OpenFilePrefix + preflightLogFile + ": " + env.openFailures[preflightLogFile]), None;
      }
      var options := [WithCertImage(certImagePath), WithPreflightResults(resultsPath),
                      WithArtifact(preflightLogFile, Base(preflightLogFile))];
      if !certProject.scratch {
        var rpmManifestPath := JoinPath(dir, RPMManifestFilename);
        if rpmManifestPath in env.openFailures {
          FirstOpenErrorAt(env.openFailures, files, 3);
          return Some(OpenFilePrefix + RPMManifestFilename + ": " + env.openFailures[rpmManifestPath]), None;
        }
        options := options + [WithRPMManifest(rpmManifestPath)];
      }
      if env.finalizeErr.Some? {
        return Some(FinalizePrefix + env.finalizeErr.value), None;
      }
      submitted := Some(CertificationInput(certProject, options));
      if env.submitErr.Some? {
        return Some(SubmitPrefix + env.submitErr.value), submitted;
      }
      return None, submitted;
    }

    // ----- Properties of the decision sequence -----

    /** A failed or empty project lookup stops `Submit` before any file is read or anything is submitted. */
    lemma ProjectFailureStopsEarly(env: SubmitEnv, other: SubmitEnv)
      requires env.project.Err? || env.project == Ok(None)
      requires other.project == env.project
      ensures PreSubmitError(env).Some?
      ensures PreSubmitError(env) == PreSubmitError(other)
    {
    }

    /** What Pyxis receives as the docker config. */
    lemma DockerConfigKeptOrStripped(env: SubmitEnv)
      requires PreSubmitError(env).None?
      ensures Input(env).project.container.dockerConfigJSON ==
        if dockerConfig == "" || env.project.value.value.container.hostedRegistry then ""
        else env.dockerConfigContents.value
    {
    }

    /** The rpm manifest is sent exactly when the project is not a scratch project. */
    lemma RpmManifestIffNotScratch(env: SubmitEnv)
      requires PreSubmitError(env).None?
      ensures (exists o :: o in Input(env).options && o.WithRPMManifest?) <==> !env.project.value.value.scratch
      ensures |Input(env).options| == if env.project.value.value.scratch then 3 else 4
    {
      var options := Input(env).options;
      if !env.project.value.value.scratch {
        assert options[3].WithRPMManifest?;
      }
    }

    /** The Privileged flag changes neither the steps' errors nor what is sent, beyond the flag itself. */
    lemma PrivilegedHasNoEffect(env: SubmitEnv, p: CertProject, privileged: bool)
      requires env.project == Ok(Some(p))
      ensures var env2 := env.(project := Ok(Some(p.(container := p.container.(privileged := privileged)))));
        && PreSubmitError(env) == PreSubmitError(env2)
        && (PreSubmitError(env).None? ==> Input(env).options == Input(env2).options)
    {
      var p2 := p.(container := p.container.(privileged := privileged));
      var env2 := env.(project := Ok(Some(p2)));
      if env.writer.FilesystemWriter? {
        assert RequiredFiles(env.writer.path, p) == RequiredFiles(env.writer.path, p2);
        assert FirstOpenError(env.openFailures, RequiredFiles(env.writer.path, p)) == FirstOpenError(env2.openFailures, RequiredFiles(env.writer.path, p2));
      }
    }

    // ----- Connect URLs -----

    /** `BuildConnectURL`: the production site unless a non-production environment is set. */
    function BuildConnectURL(projectID: string): (url: string)
      ensures pyxisEnv == "" || pyxisEnv == "prod" ==> url == "https://connect.redhat.com/projects/" + projectID
      ensures pyxisEnv != "" && pyxisEnv != "prod" ==>
        url == "https://connect." + pyxisEnv + ".redhat.com/projects/" + projectID
    {
      var connectURL := "https://connect.redhat.com/projects/" + projectID;
      if |pyxisEnv| > 0 && pyxisEnv != "prod" then "https://connect." + pyxisEnv + ".redhat.com/projects/" + projectID
      else connectURL
    }

    function BuildOverviewURL(projectID: string): string
    {
      BuildConnectURL(projectID) + "/overview"
    }

    function BuildScanResultsURL(projectID: string, imageID: string): string
    {
      BuildConnectURL(projectID) + "/images/" + imageID + "/scan-results"
    }

    /** Every Connect URL ends in the project id, and different projects get different URLs. */
    lemma ConnectURLEndsInProject(id1: string, id2: string)
      ensures |BuildConnectURL(id1)| >= |id1|
      ensures BuildConnectURL(id1)[|BuildConnectURL(id1)| - |id1|..] == id1
      ensures id1 != id2 ==> BuildConnectURL(id1) != BuildConnectURL(id2)
    {
      var u1 := BuildConnectURL(id1);
      var u2 := BuildConnectURL(id2);
      var prefix := u1[..|u1| - |id1|];
      assert u1 == prefix + id1;
      assert u2 == prefix + id2;
      if u1 == u2 {
        assert id1 == u1[|prefix|..];
      }
    }

    /** The overview and scan-results pages hang off the project's Connect URL and never coincide. */
    lemma PageURLsExtendConnectURL(projectID: string, imageID: string)
      ensures BuildConnectURL(projectID) <= BuildOverviewURL(projectID)
      ensures BuildConnectURL(projectID) <= BuildScanResultsURL(projectID, imageID)
      ensures BuildOverviewURL(projectID) != BuildScanResultsURL(projectID, imageID)
    {
      var c := BuildConnectURL(projectID);
      assert BuildOverviewURL(projectID)[|c| + 1] == 'o';
      assert BuildScanResultsURL(projectID, imageID) == c + ("/images/" + imageID + "/scan-results");
      assert BuildScanResultsURL(projectID, imageID)[|c| + 1] == 'i';
    }
  }
}
