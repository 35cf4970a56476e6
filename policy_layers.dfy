/** The layer-count check of internal/policy/max_layers.go. */
module PolicyMaxLayers {
  import opened Wrappers
  import opened Strings
  import opened Plugin
  import opened Image

  /** `acceptableLayerMax`. */
  const AcceptableLayerMax: nat := 40

  /** `validate`: the image passes when it has at most `AcceptableLayerMax` layers; never an error. */
  function ValidateLayers(layerCount: nat): (r: Validation)
    ensures r.err.None?
    ensures r.passed <==> layerCount <= AcceptableLayerMax
  {
    Validation(layerCount <= AcceptableLayerMax, None)
  }

  /** `Validate`: a failure to list the layers is a wrapped error; otherwise `validate` decides. */
  function Validate(info: ImageInfo): (r: Validation)
    ensures info.layerCount.Err? ==> r == Validation(false, Some("could not get image layers: " + info.layerCount.error))
    ensures info.layerCount.Ok? ==> r == ValidateLayers(info.layerCount.value)
  {
    match info.layerCount
    case Err(e) => Validation(false, Some("could not get image layers: " + e))
    case Ok(n) => ValidateLayers(n)
  }

  const Name: string := "LayerCountAcceptable"

  /** The description, with the ceiling printed by `%d` between its two fixed parts. */
  const Description: string := DescriptionLead + IntToString(AcceptableLayerMax) + DescriptionTail

  const DescriptionLead: string := "Checking if container has less than "
  const DescriptionTail: string :=
    " layers.  Too many layers within the container images can degrade container performance."

  /** `Metadata`; the documentation URL is defined in a file that is not part of this model. */
  function Metadata(certDocumentationURL: string): CheckMetadata
  {
    CheckMetadata(Description, "better", certDocumentationURL, certDocumentationURL)
  }

  const HelpMessage: string :=
    "Check LayerCountAcceptable encountered an error. Please review the preflight.log file for more information."
  const HelpSuggestion: string :=
    "Optimize your Dockerfile to consolidate and minimize the number of layers. Each RUN command will produce a new layer. Try combining RUN commands using && where possible."

  function Help(): CheckHelpText
  {
    CheckHelpText(HelpMessage, HelpSuggestion)
  }

  /** What the engine records of this check. */
  function Info(certDocumentationURL: string): CheckInfo
  {
    CheckInfo(Name, Metadata(certDocumentationURL), Help())
  }

  /** 40 layers pass and 41 fail. */
  lemma Boundary()
    ensures ValidateLayers(40).passed && !ValidateLayers(41).passed
  {
  }

  /**
   * The description promises fewer than 40 layers, yet an image with exactly 40 layers
   * passes: the text and the comparison disagree at the ceiling.
   */
  lemma DescriptionDisagreesAtMax()
    ensures Description == DescriptionLead + "40" + DescriptionTail
    ensures DescriptionLead[|DescriptionLead| - 10..] == "less than "
    ensures ValidateLayers(40).passed
  {
    assert NatToString(4) == "4";
    assert NatToString(40) == NatToString(4) + [DigitChar(0)] == "40";
    assert IntToString(AcceptableLayerMax) == "40";
  }

  /** Removing layers never turns a pass into a failure. */
  lemma FewerLayersStillPass(m: nat, n: nat)
    requires m <= n && ValidateLayers(n).passed
    ensures ValidateLayers(m).passed
  {
  }
}
