/**
 * The records the core exchanges with the Red Hat certification service (the Go
 * package `internal/pyxis`), reduced to the fields the core reads or writes.
 */
module Pyxis {

  /** One uncompressed layer: its diff id and its size in bytes. */
  datatype Layer = Layer(layerID: string, size: int)

  datatype Label = Label(name: string, value: string)

  datatype Tag = Tag(addedDate: string, name: string)

  datatype Repository = Repository(pushDate: string, registry: string, repository: string, tags: seq<Tag>)

  datatype ParsedData = ParsedData(
    architecture: string,
    command: string,
    created: string,
    dockerVersion: string,
    imageID: string,
    labels: seq<Label>,
    layers: seq<string>,
    os: string,
    size: int,
    uncompressedLayerSizes: seq<Layer>)

  /** The `cert-image.json` record. */
  datatype CertImage = CertImage(
    dockerImageDigest: string,
    dockerImageID: string,
    imageID: string,
    architecture: string,
    parsedData: ParsedData,
    rawConfig: string,
    repositories: seq<Repository>,
    sumLayerSizeBytes: int,
    uncompressedTopLayerID: string)

  /** One entry of the `rpm-manifest.json` record. */
  datatype RPM = RPM(
    architecture: string,
    gpg: string,
    name: string,
    nvra: string,
    release: string,
    srpmName: string,
    srpmNevra: string,
    summary: string,
    version: string)

  datatype RPMManifest = RPMManifest(rpms: seq<RPM>)

  /** The container settings of a certification project. */
  datatype Container = Container(dockerConfigJSON: string, hostedRegistry: bool, privileged: bool)

  /**
   * A certification project; `scratch` is the answer of its `ScratchProject()` method,
   * whose definition is not part of this model.
   */
  datatype CertProject = CertProject(name: string, scratch: bool, container: Container)
}
