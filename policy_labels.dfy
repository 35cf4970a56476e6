/**
 * The required-labels check of internal/policy/has_required_labels.go. A label is
 * missing when it is absent or empty (Go's map lookup yields `""` for an absent key).
 */
module PolicyHasRequiredLabels {
  import opened Wrappers
  import opened Plugin
  import opened Image
  import opened Sequences

  /** `requiredLabels`, in order. */
  const RequiredLabels: seq<string> := ["name", "vendor", "version", "release", "summary", "description"]

  /** Whether `name` is absent from `labels` or maps to the empty string. */
  predicate IsMissing(labels: map<string, string>, name: string)
  {
    name !in labels || labels[name] == ""
  }

  /** The labels of `required` that `labels` lacks, in the order of `required`. */
  function MissingFrom(required: seq<string>, labels: map<string, string>): (missing: seq<string>)
    ensures forall l :: l in missing <==> l in required && IsMissing(labels, l)
    decreases |required|
  {
    if |required| == 0 then []
    else
      var n := |required| - 1;
      MissingFrom(required[..n], labels) + (if IsMissing(labels, required[n]) then [required[n]] else [])
  }

  /**
   * The missing list is `required` with the present labels left out, in the order of
   * `required`; for a duplicate-free `required` it has no duplicates.
   */
  lemma {:induction false} MissingIsOrderedSubsequence(required: seq<string>, labels: map<string, string>)
    ensures IsSubsequence(MissingFrom(required, labels), required)
    ensures Distinct(required) ==> Distinct(MissingFrom(required, labels))
    decreases |required|
  {
    if |required| > 0 {
      var n := |required| - 1;
      var prefix := MissingFrom(required[..n], labels);
      MissingIsOrderedSubsequence(required[..n], labels);
      assert required[..n] + [required[n]] == required;
      if IsMissing(labels, required[n]) {
        assert MissingFrom(required, labels) == prefix + [required[n]];
        SubsequenceAppend(prefix, required[..n], required[n]);
      } else {
        assert MissingFrom(required, labels) == prefix;
        SubsequenceExtend(prefix, required[..n], required[n]);
      }
      assert IsSubsequence(MissingFrom(required, labels), required);
      if Distinct(required) {
        assert Distinct(required[..n]);
        assert required[n] !in required[..n];
      }
    }
  }

  /** The verdict of `validate`: pass when nothing is missing, never an error. */
  function LabelsVerdict(labels: map<string, string>): Validation
  {
    Validation(|MissingFrom(RequiredLabels, labels)| == 0, None)
  }

  /**
   * `validate`: the loop that collects the missing labels (which the source only logs)
   * and the verdict.
   */
  method ValidateLabels(labels: map<string, string>) returns (r: Validation, missingLabels: seq<string>)
    ensures missingLabels == MissingFrom(RequiredLabels, labels)
    ensures r == LabelsVerdict(labels)
  {
    missingLabels := [];
    var i := 0;
    while i < |RequiredLabels|
      invariant 0 <= i <= |RequiredLabels|
      invariant missingLabels == MissingFrom(RequiredLabels[..i], labels)
    {
      assert RequiredLabels[..i + 1][..i] == RequiredLabels[..i];
      var required := RequiredLabels[i];
      if required !in labels || labels[required] == "" {
        missingLabels := missingLabels + [required];
      }
      i := i + 1;
    }
    assert RequiredLabels[..|RequiredLabels|] == RequiredLabels;
    r := Validation(|missingLabels| == 0, None);
  }

  /** The check passes exactly when all six labels are present and non-empty. */
  lemma PassIffAllPresent(labels: map<string, string>)
    ensures LabelsVerdict(labels).err.None?
    ensures LabelsVerdict(labels).passed <==>
      forall l :: l in RequiredLabels ==> l in labels && labels[l] != ""
  {
    var missing := MissingFrom(RequiredLabels, labels);
    if |missing| > 0 {
      assert missing[0] in missing;
    }
  }

  /** Labels other than the six never change the verdict. */
  lemma ExtraLabelsIgnored(labels: map<string, string>, other: map<string, string>)
    requires forall l :: l in RequiredLabels ==> (l in labels <==> l in other)
    requires forall l :: l in RequiredLabels && l in labels ==> labels[l] == other[l]
    ensures LabelsVerdict(labels) == LabelsVerdict(other)
  {
    PassIffAllPresent(labels);
    PassIffAllPresent(other);
  }

  // ----- Fetching the labels -----

  /** What `getDataForValidate` as written can end in: labels and an error, or a nil dereference. */
  datatype LabelFetch = Fetched(labels: map<string, string>, err: Option<string>) | NilDereference

  /**
   * `getDataForValidate` as written: it reads `configFile.Config.Labels` before looking
   * at the error, and the config file is nil whenever `ConfigFile` fails.
   */
  function GetDataForValidateAsWritten(configFile: Result<ConfigFile>): (r: LabelFetch)
    ensures r == NilDereference <==> configFile.Err?
    ensures r.Fetched? ==> r.err.None? && r.labels == configFile.value.labels
  {
    match configFile
    case Err(_) => NilDereference
    case Ok(c) => Fetched(c.labels, None)
  }

  /** The error branch of `Validate` is never reached as written: a failing config fetch panics. */
  lemma ConfigErrorPanicsAsWritten(configFile: Result<ConfigFile>)
    requires configFile.Err?
    ensures GetDataForValidateAsWritten(configFile) == NilDereference
  {
  }

  /** `getDataForValidate` as intended: the error is looked at first. */
  function GetDataForValidate(configFile: Result<ConfigFile>): (r: Result<map<string, string>>)
    ensures configFile.Err? ==> r == Err(configFile.error)
    ensures configFile.Ok? ==> r == Ok(configFile.value.labels)
    ensures configFile.Ok? ==> GetDataForValidateAsWritten(configFile) == Fetched(r.value, None)
  {
    match configFile
    case Err(e) => Err(e)
    case Ok(c) => Ok(c.labels)
  }

  /** `Validate`, with the intended fetch: a config error becomes a wrapped error and a failure. */
  function Validate(info: ImageInfo): (r: Validation)
    ensures info.configFile.Err? ==>
      r == Validation(false, Some("could not retrieve image labels: " + info.configFile.error))
    ensures info.configFile.Ok? ==> r == LabelsVerdict(info.configFile.value.labels)
  {
    match GetDataForValidate(info.configFile)
    case Err(e) => Validation(false, Some("could not retrieve image labels: " + e))
    case Ok(labels) => LabelsVerdict(labels)
  }

  const Name: string := "HasRequiredLabel"

  const Description: string :=
    "Checking if the required labels (name, vendor, version, release, summary, description) are present in the container metadata."
  const HelpMessage: string :=
    "Check Check HasRequiredLabel encountered an error. Please review the preflight.log file for more information."
  const HelpSuggestion: string :=
    "Add the following labels to your Dockerfile or Containerfile: name, vendor, version, release, summary, description"

  /** `Metadata`; the documentation URL is defined in a file that is not part of this model. */
  function Metadata(certDocumentationURL: string): CheckMetadata
  {
    CheckMetadata(Description, "good", certDocumentationURL, certDocumentationURL)
  }

  function Help(): CheckHelpText
  {
    CheckHelpText(HelpMessage, HelpSuggestion)
  }

  /** What the engine records of this check. */
  function Info(certDocumentationURL: string): CheckInfo
  {
    CheckInfo(Name, Metadata(certDocumentationURL), Help())
  }
}
