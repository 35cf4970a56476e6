/**
 * `writeCertImage`, `sumLayerSizeBytes` and `convertLabels` of
 * internal/crane/crane_engine.go: the `cert-image.json` record built from the image's
 * config, manifest, digest, raw config, size and uncompressed layers.
 */
module CraneCertImage {
  import opened Wrappers
  import opened Strings
  import opened Plugin
  import opened Pyxis
  import opened Image

  /**
   * How `writeCertImage` ends: the record built (and whether it was saved), an error,
   * or the index panic of `DiffIDs[0]` on an image without layers.
   */
  datatype CertImageOutcome = Done(record: CertImage, saved: bool) | Failed(err: string) | TopLayerPanic

  // ----- sumLayerSizeBytes -----

  /** The total size of `layers`. */
  function Sum(layers: seq<Layer>): int
  {
    if |layers| == 0 then 0 else Sum(layers[..|layers| - 1]) + layers[|layers| - 1].size
  }

  /** `sumLayerSizeBytes`: an accumulator loop over the layers. */
  method SumLayerSizeBytes(layers: seq<Layer>) returns (sum: int)
    ensures sum == Sum(layers)
  {
    sum := 0;
    var i := 0;
    while i < |layers|
      invariant 0 <= i <= |layers|
      invariant sum == Sum(layers[..i])
    {
      assert layers[..i + 1][..i] == layers[..i];
      sum := sum + layers[i].size;
      i := i + 1;
    }
    assert layers[..|layers|] == layers;
  }

  lemma {:induction false} SumAppend(a: seq<Layer>, b: seq<Layer>)
    ensures Sum(a + b) == Sum(a) + Sum(b)
    decreases |b|
  {
    if |b| == 0 {
      assert a + b == a;
    } else {
      var n := |b| - 1;
      assert (a + b)[..|a + b| - 1] == a + b[..n];
      SumAppend(a, b[..n]);
    }
  }

  /** With sizes that are byte counts, the total bounds every layer's size. */
  lemma {:induction false} SumBoundsEachLayer(layers: seq<Layer>, k: int)
    requires forall i :: 0 <= i < |layers| ==> layers[i].size >= 0
    requires 0 <= k < |layers|
    ensures 0 <= layers[k].size <= Sum(layers)
    decreases |layers|
  {
    var n := |layers| - 1;
    SumNonNegative(layers[..n]);
    if k < n {
      SumBoundsEachLayer(layers[..n], k);
    }
  }

  lemma {:induction false} SumNonNegative(layers: seq<Layer>)
    requires forall i :: 0 <= i < |layers| ==> layers[i].size >= 0
    ensures Sum(layers) >= 0
    decreases |layers|
  {
    if |layers| > 0 {
      SumNonNegative(layers[..|layers| - 1]);
    }
  }

  // ----- convertLabels -----

  /** `labels` holds every entry of `m` exactly once, as name/value pairs, in some order. */
  predicate IsLabelListOf(labels: seq<Label>, m: map<string, string>)
  {
    && |labels| == |m|
    && (forall i :: 0 <= i < |labels| ==> labels[i].name in m && m[labels[i].name] == labels[i].value)
    && (forall k :: k in m ==> Label(k, m[k]) in labels)
    && (forall i, j :: 0 <= i < j < |labels| ==> labels[i].name != labels[j].name)
  }

  /** `convertLabels`: one label per map entry, in the map's (unspecified) iteration order. */
  method ConvertLabels(m: map<string, string>) returns (labels: seq<Label>)
    ensures IsLabelListOf(labels, m)
  {
    labels := [];
    var remaining := m.Keys;
    while remaining != {}
      invariant remaining <= m.Keys
      invariant |labels| + |remaining| == |m|
      invariant forall i :: 0 <= i < |labels| ==>
        labels[i].name in m && labels[i].name !in remaining && m[labels[i].name] == labels[i].value
      invariant forall k :: k in m && k !in remaining ==> Label(k, m[k]) in labels
      invariant forall i, j :: 0 <= i < j < |labels| ==> labels[i].name != labels[j].name
      decreases |remaining|
    {
      var k :| k in remaining;
      labels := labels + [Label(k, m[k])];
      remaining := remaining - {k};
    }
  }

  /** A label list gives back the map it came from. */
  lemma LabelsDetermineMap(labels: seq<Label>, m1: map<string, string>, m2: map<string, string>)
    requires IsLabelListOf(labels, m1) && IsLabelListOf(labels, m2)
    ensures m1 == m2
  {
    forall k | k in m1
      ensures k in m2 && m2[k] == m1[k]
    {
      var i :| 0 <= i < |labels| && labels[i] == Label(k, m1[k]);
    }
    forall k | k in m2
      ensures k in m1
    {
      var i :| 0 <= i < |labels| && labels[i] == Label(k, m2[k]);
    }
  }

  /** A label in a list without repeated names occurs exactly once. */
  lemma {:induction false} OccursOnce(labels: seq<Label>, x: Label)
    requires forall i, j :: 0 <= i < j < |labels| ==> labels[i].name != labels[j].name
    ensures multiset(labels)[x] == if x in labels then 1 else 0
    decreases |labels|
  {
    if |labels| > 0 {
      var n := |labels| - 1;
      assert labels == labels[..n] + [labels[n]];
      OccursOnce(labels[..n], x);
      if x == labels[n] {
        assert x !in labels[..n];
      }
    }
  }

  /** Two conversions of the same map differ at most in order. */
  lemma ConversionsArePermutations(l1: seq<Label>, l2: seq<Label>, m: map<string, string>)
    requires IsLabelListOf(l1, m) && IsLabelListOf(l2, m)
    ensures multiset(l1) == multiset(l2)
  {
    forall x: Label
      ensures multiset(l1)[x] == multiset(l2)[x]
    {
      OccursOnce(l1, x);
      OccursOnce(l2, x);
      if x in l1 {
        var i :| 0 <= i < |l1| && l1[i] == x;
        assert Label(x.name, m[x.name]) in l2;
      }
      if x in l2 {
        var i :| 0 <= i < |l2| && l2[i] == x;
        assert Label(x.name, m[x.name]) in l1;
      }
    }
  }

  // ----- The layer loop -----

  /** One layer entry, or the error of the step that failed for it. */
  function LayerEntry(diffID: string, read: LayerRead): Result<Layer>
  {
    match read
    case LookupFailed(e) => Err("could not get layer by diff id: " + e)
    case UncompressFailed(e) => Err("could not get uncompressed layer: " + e)
    case CopyFailed(e) => Err("could not copy from layer: " + e)
    case Copied(n) => Ok(Layer(diffID, n))
  }

  /**
   * The uncompressed layer entries for `diffIDs`, or the first error met: one entry per
   * diff id, in order, whose size is the number of bytes copied from that layer.
   */
  function LayerSizes(diffIDs: seq<string>, lookup: string -> LayerRead): (r: Result<seq<Layer>>)
    ensures r.Ok? ==> |r.value| == |diffIDs|
    ensures r.Ok? ==> forall i :: 0 <= i < |diffIDs| ==>
      r.value[i].layerID == diffIDs[i] && lookup(diffIDs[i]) == Copied(r.value[i].size)
    decreases |diffIDs|
  {
    if |diffIDs| == 0 then Ok([])
    else
      var n := |diffIDs| - 1;
      match LayerSizes(diffIDs[..n], lookup)
      case Err(e) => Err(e)
      case Ok(front) =>
        match LayerEntry(diffIDs[n], lookup(diffIDs[n]))
        case Err(e) => Err(e)
        case Ok(layer) => Ok(front + [layer])
  }

  /** A failure on a prefix of the diff ids is the failure of the whole loop. */
  lemma {:induction false} LayerErrorPropagates(diffIDs: seq<string>, lookup: string -> LayerRead, k: nat)
    requires k <= |diffIDs|
    requires LayerSizes(diffIDs[..k], lookup).Err?
    ensures LayerSizes(diffIDs, lookup) == LayerSizes(diffIDs[..k], lookup)
    decreases |diffIDs| - k
  {
    if k < |diffIDs| {
      var n := |diffIDs| - 1;
      assert diffIDs[..n][..k] == diffIDs[..k];
      LayerErrorPropagates(diffIDs[..n], lookup, k);
    } else {
      assert diffIDs[..k] == diffIDs;
    }
  }

  /** The loop reports the error of the first layer that cannot be read. */
  lemma {:induction false} FirstLayerErrorWins(diffIDs: seq<string>, lookup: string -> LayerRead, k: nat)
    requires k < |diffIDs|
    requires forall j :: 0 <= j < k ==> lookup(diffIDs[j]).Copied?
    requires !lookup(diffIDs[k]).Copied?
    ensures LayerSizes(diffIDs, lookup) == Err(LayerEntry(diffIDs[k], lookup(diffIDs[k])).error)
  {
    PrefixReadable(diffIDs[..k], lookup);
    assert diffIDs[..k + 1][..k] == diffIDs[..k];
    LayerErrorPropagates(diffIDs, lookup, k + 1);
  }

  /** Every layer readable: the loop succeeds. */
  lemma {:induction false} PrefixReadable(diffIDs: seq<string>, lookup: string -> LayerRead)
    requires forall j :: 0 <= j < |diffIDs| ==> lookup(diffIDs[j]).Copied?
    ensures LayerSizes(diffIDs, lookup).Ok?
    decreases |diffIDs|
  {
    if |diffIDs| > 0 {
      var n := |diffIDs| - 1;
      PrefixReadable(diffIDs[..n], lookup);
    }
  }

  /** The layer loop of `writeCertImage`: stops at the first layer that cannot be read. */
  method ReadLayers(diffIDs: seq<string>, lookup: string -> LayerRead) returns (r: Result<seq<Layer>>)
    ensures r == LayerSizes(diffIDs, lookup)
  {
    var layerSizes: seq<Layer> := [];
    var i := 0;
    while i < |diffIDs|
      invariant 0 <= i <= |diffIDs|
      invariant LayerSizes(diffIDs[..i], lookup) == Ok(layerSizes)
    {
      assert diffIDs[..i + 1][..i] == diffIDs[..i];
      var entry := LayerEntry(diffIDs[i], lookup(diffIDs[i]));
      if entry.Err? {
        LayerErrorPropagates(diffIDs, lookup, i + 1);
        return Err(entry.error);
      }
      layerSizes := layerSizes + [entry.value];
      i := i + 1;
    }
    assert diffIDs[..|diffIDs|] == diffIDs;
    return Ok(layerSizes);
  }

  /** The manifest-layer loop of `writeCertImage`: the layer digests, in manifest order. */
  method LayerDigests(digests: seq<string>) returns (manifestLayers: seq<string>)
    ensures manifestLayers == digests
  {
    manifestLayers := [];
    var j := 0;
    while j < |digests|
      invariant 0 <= j <= |digests|
      invariant manifestLayers == digests[..j]
    {
      manifestLayers := manifestLayers + [digests[j]];
      j := j + 1;
    }
    assert digests[..|digests|] == digests;
  }

  // ----- The record -----

  /** The error of the first image accessor that fails, in the order `writeCertImage` calls them. */
  function FetchError(info: ImageInfo): Option<string>
  {
    if info.configFile.Err? then Some("failed to get image config file: " + info.configFile.error)
    else if info.manifest.Err? then Some("failed to get image manifest: " + info.manifest.error)
    else if info.digest.Err? then Some("failed to get image digest: " + info.digest.error)
    else if info.rawConfigFile.Err? then Some("failed to image raw config file: " + info.rawConfigFile.error)
    else if info.size.Err? then Some("failed to get image size: " + info.size.error)
    else None
  }

  /**
   * The shape of a cert-image record built for `ref` from the accessors' answers: both
   * image ids are the digest, the layer entries and their total come from `layers`,
   * the top-layer id is the first diff id, and there is exactly one repository
   * holding exactly one tag, named after the image's tag or digest.
   */
  predicate RecordOf(rec: CertImage, ref: ImageReference, info: ImageInfo, layers: seq<Layer>, addedDate: string)
    requires FetchError(info).None?
  {
    var config := info.configFile.value;
    var digest := info.digest.value;
    && rec.dockerImageDigest == digest
    && rec.imageID == digest
    && rec.dockerImageID == info.manifest.value.configDigest
    && rec.architecture == config.architecture
    && rec.rawConfig == info.rawConfigFile.value
    && rec.repositories == [Repository(addedDate, ref.imageRegistry, ref.imageRepository, [Tag(addedDate, ref.imageTagOrSha)])]
    && rec.sumLayerSizeBytes == Sum(layers)
    && |config.diffIDs| > 0
    && rec.uncompressedTopLayerID == config.diffIDs[0]
    && rec.parsedData.architecture == config.architecture
    && rec.parsedData.command == Join(config.cmd, ' ')
    && rec.parsedData.created == config.created
    && rec.parsedData.dockerVersion == config.dockerVersion
    && rec.parsedData.imageID == digest
    && IsLabelListOf(rec.parsedData.labels, config.labels)
    && rec.parsedData.layers == info.manifest.value.layerDigests
    && rec.parsedData.os == config.os
    && rec.parsedData.size == info.size.value
    && rec.parsedData.uncompressedLayerSizes == layers
  }

  /**
   * `writeCertImage`: the accessors are called in order and the first error is
   * returned; then every diff id's layer is read; an image without diff ids panics
   * on `DiffIDs[0]`; otherwise the record is built and handed to the writer, if any.
   */
  method WriteCertImage(ref: ImageReference, info: ImageInfo, addedDate: string, writer: ArtifactWriter)
    returns (outcome: CertImageOutcome)
    ensures FetchError(info).Some? ==> outcome == Failed(FetchError(info).value)
    ensures FetchError(info).None? && LayerSizes(info.configFile.value.diffIDs, info.layerByDiffID).Err? ==>
      outcome == Failed(LayerSizes(info.configFile.value.diffIDs, info.layerByDiffID).error)
    ensures FetchError(info).None? && LayerSizes(info.configFile.value.diffIDs, info.layerByDiffID).Ok? ==>
      if |info.configFile.value.diffIDs| == 0 then outcome == TopLayerPanic
      else if writer.Writer? && writer.writeErr.Some? then
        outcome == Failed("failed to save file to artifacts directory: " + writer.writeErr.value)
      else
        && outcome.Done?
        && outcome.saved == writer.Writer?
        && RecordOf(outcome.record, ref, info, LayerSizes(info.configFile.value.diffIDs, info.layerByDiffID).value, addedDate)
  {
    if info.configFile.Err? {
      return Failed("failed to get image config file: " + info.configFile.error);
    }
    var config := info.configFile.value;
    if info.manifest.Err? {
      return Failed("failed to get image manifest: " + info.manifest.error);
    }
    var manifest := info.manifest.value;
    if info.digest.Err? {
      return Failed("failed to get image digest: " + info.digest.error);
    }
    var digest := info.digest.value;
    if info.rawConfigFile.Err? {
      return Failed("failed to image raw config file: " + info.rawConfigFile.error);
    }
    if info.size.Err? {
      return Failed("failed to get image size: " + info.size.error);
    }
    var labels := ConvertLabels(config.labels);
    var diffIDs := config.diffIDs;
    var layersRead := ReadLayers(diffIDs, info.layerByDiffID);
    if layersRead.Err? {
      return Failed(layersRead.error);
    }
    var layerSizes := layersRead.value;
    var manifestLayers := LayerDigests(manifest.layerDigests);
    var sum := SumLayerSizeBytes(layerSizes);
    var tags := [Tag(addedDate, ref.imageTagOrSha)];
    var repositories := [Repository(addedDate, ref.imageRegistry, ref.imageRepository, tags)];
    if |diffIDs| == 0 {
      return TopLayerPanic;
    }
    var parsed := ParsedData(config.architecture, Join(config.cmd, ' '), config.created, config.dockerVersion,
                             digest, labels, manifestLayers, config.os, info.size.value, layerSizes);
    var certImage := CertImage(digest, manifest.configDigest, digest, config.architecture, parsed,
                               info.rawConfigFile.value, repositories, sum, diffIDs[0]);
    match writer {
      case NoWriter =>
        return Done(certImage, false);
      case Writer(writeErr) =>
        if writeErr.Some? {
          return Failed("failed to save file to artifacts directory: " + writeErr.value);
        }
        return Done(certImage, true);
    }
  }

  /**
   * In a built record, the layer entries follow the diff ids one for one, the total is
   * their sum, and the top-layer id is the id of the first entry.
   */
  lemma RecordLayersFollowDiffIDs(rec: CertImage, ref: ImageReference, info: ImageInfo, addedDate: string)
    requires FetchError(info).None?
    requires LayerSizes(info.configFile.value.diffIDs, info.layerByDiffID).Ok?
    requires RecordOf(rec, ref, info, LayerSizes(info.configFile.value.diffIDs, info.layerByDiffID).value, addedDate)
    ensures |rec.parsedData.uncompressedLayerSizes| == |info.configFile.value.diffIDs|
    ensures forall i :: 0 <= i < |rec.parsedData.uncompressedLayerSizes| ==>
      rec.parsedData.uncompressedLayerSizes[i].layerID == info.configFile.value.diffIDs[i]
    ensures rec.uncompressedTopLayerID == rec.parsedData.uncompressedLayerSizes[0].layerID
    ensures rec.sumLayerSizeBytes == Sum(rec.parsedData.uncompressedLayerSizes)
    ensures rec.dockerImageDigest == rec.imageID == rec.parsedData.imageID
    ensures |rec.repositories| == 1 && |rec.repositories[0].tags| == 1
    ensures rec.repositories[0].tags[0].name == ref.imageTagOrSha
  {
  }
}
