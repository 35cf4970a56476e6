/**
 * The base-image check of internal/policy/base_on_ubi.go: the image's uncompressed
 * layer hashes are sent to the certified-image lookup, and the image passes when at
 * least one certified image contains them.
 */
module PolicyBasedOnUbi {
  import opened Wrappers
  import opened Strings
  import opened Plugin
  import opened Image
  import Pyxis

  /** `CertifiedImagesContainingLayers`: the lookup's answer for a list of layer hashes. */
  type LayerLookup = seq<string> -> Result<seq<Pyxis.CertImage>>

  /** `getImageLayers`: the config's diff ids, or the config error unwrapped. */
  function GetImageLayers(info: ImageInfo): (r: Result<seq<string>>)
    ensures info.configFile.Err? ==> r == Err(info.configFile.error)
    ensures info.configFile.Ok? ==> r == Ok(info.configFile.value.diffIDs)
  {
    match info.configFile
    case Err(e) => Err(e)
    case Ok(c) => Ok(c.diffIDs)
  }

  /**
   * `%+q` of a list of hashes: each hash's `String()` quoted by `strconv.QuoteToASCII`,
   * space separated, in brackets.
   */
  function QuoteList(hashes: seq<string>): string
  {
    "[" + QuoteItems(hashes) + "]"
  }

  function QuoteItems(hashes: seq<string>): string
  {
    if |hashes| == 0 then ""
    else if |hashes| == 1 then QuoteASCII(hashes[0])
    else QuoteASCII(hashes[0]) + " " + QuoteItems(hashes[1..])
  }

  /** The quoted list is printable ASCII, whatever the hashes hold. */
  lemma {:induction false} QuoteListIsASCII(hashes: seq<string>)
    ensures forall k :: 0 <= k < |QuoteList(hashes)| ==> ' ' <= QuoteList(hashes)[k] <= '~'
  {
    QuoteItemsAreASCII(hashes);
  }

  lemma {:induction false} QuoteItemsAreASCII(hashes: seq<string>)
    ensures forall k :: 0 <= k < |QuoteItems(hashes)| ==> ' ' <= QuoteItems(hashes)[k] <= '~'
  {
    if |hashes| > 1 {
      QuoteItemsAreASCII(hashes[1..]);
    }
  }

  /** `certifiedImagesFound`: whether the lookup returned at least one image. */
  function CertifiedImagesFound(hashes: seq<string>, lookup: LayerLookup): (r: Result<bool>)
    ensures lookup(hashes).Err? ==> r == Err("pyxis query for uncompressed top layers ids "
      + QuoteList(hashes) + " failed: " + lookup(hashes).error)
    ensures lookup(hashes).Ok? ==> r == Ok(|lookup(hashes).value| >= 1)
  {
    match lookup(hashes)
    case Err(e) => Err("pyxis query for uncompressed top layers ids " + QuoteList(hashes) + " failed: " + e)
    case Ok(images) => Ok(|images| >= 1)
  }

  /** `validate`: a lookup failure is a wrapped error in a failing result. */
  function ValidateHashes(hashes: seq<string>, lookup: LayerLookup): (r: Validation)
    ensures r.err.Some? <==> lookup(hashes).Err?
    ensures r.passed <==> lookup(hashes).Ok? && |lookup(hashes).value| >= 1
  {
    match CertifiedImagesFound(hashes, lookup)
    case Err(e) => Validation(false, Some("unable to verify layer hashes: " + e))
    case Ok(found) => Validation(found, None)
  }

  /** `Validate`: a config failure is reported before the lookup is asked anything. */
  function Validate(info: ImageInfo, lookup: LayerLookup): (r: Validation)
    ensures r.err.Some? <==> info.configFile.Err? || lookup(info.configFile.value.diffIDs).Err?
    ensures r.passed <==>
      info.configFile.Ok? && lookup(info.configFile.value.diffIDs).Ok? && |lookup(info.configFile.value.diffIDs).value| >= 1
  {
    match GetImageLayers(info)
    case Err(e) => Validation(false, Some("could not get image layers: " + e))
    case Ok(hashes) => ValidateHashes(hashes, lookup)
  }

  /**
   * The outcomes: a config error fails with the wrapped error; a lookup error fails with
   * the doubly wrapped error; otherwise the check passes exactly when at least one
   * certified image came back, with no error.
   */
  lemma ValidateOutcomes(info: ImageInfo, lookup: LayerLookup)
    ensures info.configFile.Err? ==>
      Validate(info, lookup) == Validation(false, Some("could not get image layers: " + info.configFile.error))
    ensures info.configFile.Ok? && lookup(info.configFile.value.diffIDs).Err? ==>
      Validate(info, lookup) == Validation(false, Some("unable to verify layer hashes: "
        + ("pyxis query for uncompressed top layers ids " + QuoteList(info.configFile.value.diffIDs)
           + " failed: " + lookup(info.configFile.value.diffIDs).error)))
    ensures info.configFile.Ok? && lookup(info.configFile.value.diffIDs).Ok? ==>
      Validate(info, lookup) == Validation(|lookup(info.configFile.value.diffIDs).value| >= 1, None)
  {
  }

  /** The lookup is asked only about the diff ids, in order: lookups that agree there give the same result. */
  lemma OnlyDiffIDsAreQueried(info: ImageInfo, l1: LayerLookup, l2: LayerLookup)
    requires info.configFile.Ok? ==> l1(info.configFile.value.diffIDs) == l2(info.configFile.value.diffIDs)
    ensures Validate(info, l1) == Validate(info, l2)
  {
  }

  const Name: string := "BasedOnUbi"

  const Description: string :=
    "Checking if the container's base image is based upon the Red Hat Universal Base Image (UBI)"
  const HelpMessage: string :=
    "Check BasedOnUbi encountered an error. Please review the preflight.log file for more information."
  const HelpSuggestion: string :=
    "Change the FROM directive in your Dockerfile or Containerfile to FROM registry.access.redhat.com/ubi8/ubi"

  /** `Metadata`; the documentation URL is defined in a file that is not part of this model. */
  function Metadata(certDocumentationURL: string): CheckMetadata
  {
    CheckMetadata(Description, "best", certDocumentationURL, certDocumentationURL)
  }

  function Help(): CheckHelpText
  {
    CheckHelpText(HelpMessage, HelpSuggestion)
  }

  /** What the engine records of this check. */
  function Info(certDocumentationURL: string): CheckInfo
  {
    CheckInfo(Name, Metadata(certDocumentationURL), Help())
  }
}
