/**
 * What the core asks of an image handle (go-containerregistry's `v1.Image`): each
 * accessor's answer, or the error it returns, is part of the value.
 */
module Image {
  import opened Wrappers

  /** The parts of `v1.ConfigFile` the core reads; `created` is already rendered as text. */
  datatype ConfigFile = ConfigFile(
    architecture: string,
    created: string,
    dockerVersion: string,
    os: string,
    cmd: seq<string>,
    labels: map<string, string>,
    diffIDs: seq<string>)

  /** The parts of `v1.Manifest` the core reads: the config digest and the layer digests. */
  datatype Manifest = Manifest(configDigest: string, layerDigests: seq<string>)

  /** What reading one layer by diff id gives: the bytes copied from it, or the step that failed. */
  datatype LayerRead =
    | LookupFailed(lookupErr: string)
    | UncompressFailed(uncompressErr: string)
    | CopyFailed(copyErr: string)
    | Copied(written: int)

  /** The answers of the image accessors. */
  datatype ImageInfo = ImageInfo(
    configFile: Result<ConfigFile>,
    manifest: Result<Manifest>,
    digest: Result<string>,
    rawConfigFile: Result<string>,
    size: Result<int>,
    layerCount: Result<nat>,
    layerByDiffID: string -> LayerRead)
}
