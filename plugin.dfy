/**
 * The check and result records the engine exchanges with the plugin runtime
 * (`plugin.Check`, `plugin.Result`, `plugin.Results`). A check's behaviour is not
 * part of these records: what its `Validate` returned on a given run is an input
 * to the engine (`Outcome`).
 */
module Plugin {
  import opened Wrappers

  /** `Metadata().Level` of a check whose result is never recorded. */
  const OptionalLevel: string := "optional"

  datatype CheckMetadata = CheckMetadata(description: string, level: string, knowledgeBaseURL: string, checkURL: string)

  datatype CheckHelpText = CheckHelpText(message: string, suggestion: string)

  /** What the engine knows of a check: its `Name()`, `Metadata()` and `Help()`. */
  datatype CheckInfo = CheckInfo(name: string, metadata: CheckMetadata, help: CheckHelpText)

  /** One recorded check result with its elapsed time in nanoseconds. */
  datatype CheckResult = CheckResult(check: CheckInfo, elapsedNanos: int)

  /** The run report: three ordered result lists, the verdict and the tested image. */
  datatype Results = Results(
    testedImage: string,
    passedOverall: bool,
    passed: seq<CheckResult>,
    failed: seq<CheckResult>,
    errors: seq<CheckResult>)

  /** The zero value of `plugin.Results`. */
  const EmptyResults: Results := Results("", false, [], [], [])

  /**
   * What `plugin.ImageReference` records of the image under test; the image handle
   * itself (`ImageInfo`) is passed separately to the members that read it.
   */
  datatype ImageReference = ImageReference(imageURI: string, imageFSPath: string, imageRegistry: string, imageRepository: string, imageTagOrSha: string)

  /** The zero value of `plugin.ImageReference`. */
  const ZeroImageReference: ImageReference := ImageReference("", "", "", "", "")

  /** The artifact writer found in the context: none, or one whose `WriteFile` may fail. */
  datatype ArtifactWriter = NoWriter | Writer(writeErr: Option<string>)

  /** What a check's `Validate` returns: the verdict and an error, if any. */
  datatype Validation = Validation(passed: bool, err: Option<string>)

  /** What one call of a check's `Validate` returned, and how long it took. */
  datatype Outcome = Outcome(passed: bool, err: Option<string>, elapsedNanos: int)

  predicate IsOptional(c: CheckInfo)
  {
    c.metadata.level == OptionalLevel
  }
}
