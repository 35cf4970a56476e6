# container-certification: a verified model of the certification engine

This project models the decision logic of the container certification plugin, in Dafny.
The plugin pulls a container image and extracts its file system. It writes the cert-image
and rpm-manifest records, runs the checks of a policy and aggregates their verdicts. It can
then submit the results to Red Hat's Pyxis service. The model covers:

- **the crane engine** (module `Crane`): the class `CraneEngine` with its `results` and
  `imageRef` fields, updated by `ExecuteChecks`. First come the ordered setup steps, each
  with its fatal error. Then the check loop sorts every outcome into Errors, Failed or
  Passed. An error wins over the boolean, and `"optional"` checks are dropped. Last comes
  the overall verdict. The module also holds the tag/digest advisory `tagDigestBindingInfo`.
- **tar extraction** (module `CraneUntar`): `untar` as a loop over the reads of an archive.
  The loop updates a file-system map held by a `FileSystem` object. It captures
  end-of-stream, read errors, nil headers, `os.MkdirAll` creating missing parents, files
  opened through a path lookup that follows symbolic links (with Linux's `ENOENT`,
  `ENOTDIR`, `EISDIR` and `ELOOP` errors) and without truncation, and symbolic links created
  on a best-effort basis.
- **the cert-image record** (module `CraneCertImage`):
  - `writeCertImage`, with its layer loop and its accessor errors in order;
  - `sumLayerSizeBytes`;
  - `convertLabels`, whose output follows Go's unspecified map order; the model picks keys nondeterministically.
- **the rpm manifest** (module `CraneRpm`):
  - `getBgName`;
  - the two fixed regular expressions, hand-written as string functions;
  - the NVRA and source-NEVRA formats;
  - the conversion loop of `writeRPMManifest`.
- **policy resolution** (modules `Policies`, `Checks`, `Exceptions`): `InitializeContainerChecks`
  maps a policy to its ordered list of checks. `GetContainerPolicyExceptions` makes the
  three-way choice between scratch, root and container.
- **submission** (module `Submit`):
  - the nil-client rule of `NewPyxisClient`;
  - the class `ContainerCertificationSubmitter` with `Submit`, which keeps or strips the docker config, opens the required files in order, builds the input and submits it;
  - the Connect URL builders.
- **the three checks whose logic is visible** (modules `PolicyHasRequiredLabels`,
  `PolicyMaxLayers`, `PolicyBasedOnUbi`).
- **the command-line formatter** (module `Cli`): `formatAsText` appends one line per result
  in three loops. `RunEFunctionWithCheck` runs the engine on a single check.

Shared records are in the modules `Wrappers` (`Option`, `Result`), `Strings` (Go's `strings.Split`,
`strings.Join`, prefix/suffix trimming, `%d`, `strconv.QuoteToASCII`), `Sequences` (subsequences and
duplicate-free lists), `Plugin` (checks and results), `Pyxis` (project
and cert-image records) and `Image` (what the engine reads of an image).

The model takes as inputs everything the engine gets from outside: registry and file-system
answers, elapsed times, the project Pyxis returns, and the outcomes of the checks whose code
is not included. `Crane.Setup`, `Image.ImageInfo` and `Submit.SubmitEnv` each hold the answers for
one run. Because of this, every contract holds for every possible answer.

The code has no path-traversal hardening: `untar` joins each entry name to the destination, at internal/crane/crane_engine.go:334 and :368,
and opens regular files through whatever links are already in place. The model follows the code
and asserts no containment. `CraneUntar.SymlinkRedirectsLaterFile` shows a link entry sending a
later file entry's bytes to the link's absolute target, outside the destination.
`CraneUntar.LinkFreeExtractionWritesOnlyTargets` shows that, without links, only the entries'
targets and the directories above them are created.

## Model

| member | source | states |
|---|---|---|
| Crane.AppendUnlessOptional | internal/crane/crane_engine.go:275-280 | a result of an `"optional"` check is dropped; any other result is appended at the end |
| Crane.CraneEngine.Report | internal/crane/crane_engine.go:306-308 | `Results` returns the stored report |
| Crane.SetupError | internal/crane/crane_engine.go:118-194 | setup fails exactly when the pull, the temp dir, the cache dir, the fs dir, the extraction, the drain, the reference parse or the cert image fails, or, for a non-scratch image only, the rpm manifest write fails |
| Crane.Classify | internal/crane/crane_engine.go:224-249 | an error sends a check to Errors whatever it returned; without an error, false goes to Failed and true to Passed |
| Crane.CraneEngine.ExecuteChecks | internal/crane/crane_engine.go:76-272 | the returned error is that of the first failing setup step, in the order pull, temp dir, cache dir, fs dir, extraction, drain, reference parse, cert image, rpm manifest (non-scratch only); the image reference is stored once the reference parsed; on an error the report is unchanged, otherwise it is the old report extended by the check loop |
| Crane.CraneEngine.RecordChecks | internal/crane/crane_engine.go:209-257 | the check loop turns the report into `RunChecks` of the old report and leaves the image reference alone |
| Crane.RunChecks | internal/crane/crane_engine.go:209-257 | the verdict is true exactly when Errors and Failed are both empty; the tested image is set only when at least one check ran |
| Crane.Sources | internal/crane/crane_engine.go:224-249 | every entry of a result list comes from a distinct check that lands there, in check order, with that check's info and elapsed time, and every check that lands there is in the list |
| Crane.RecordedMembership | internal/crane/crane_engine.go:224-249 | a result is in a list exactly when a non-optional check with that classification produced it |
| Crane.PartitionCount | internal/crane/crane_engine.go:224-249 | the three lists together hold exactly one entry per non-optional check |
| Crane.RecordedAppend | internal/crane/crane_engine.go:209-249 | running two check lists one after the other fills each result list in check order |
| Crane.OptionalCheckIgnored | internal/crane/crane_engine.go:215-221 | inserting an optional check anywhere, with any outcome, leaves all three lists unchanged |
| Crane.OptionalNeverRecorded | internal/crane/crane_engine.go:275-280 | no recorded result belongs to an optional check |
| Crane.ProblemRecorded | internal/crane/crane_engine.go:224-240 | an enforced check with an error makes Errors non-empty; one that returned false without an error makes Failed non-empty |
| Crane.VerdictIffAllEnforcedPass | internal/crane/crane_engine.go:253-257 | on a fresh report the verdict is true exactly when every non-optional check returned true without an error |
| Crane.RunsAccumulate | internal/crane/crane_engine.go:211-249 | a second run appends to the first run's lists; it never resets them |
| Crane.ScratchSkipsRpmManifest | internal/crane/crane_engine.go:191-195 | for a scratch image an rpm-manifest failure is irrelevant; a setup that succeeds for a non-scratch image succeeds for a scratch one |
| Crane.TagDigestBindingInfo | internal/crane/crane_engine.go:285-303 | the advisory is a warning exactly when the identifier starts with `sha256:` |
| Crane.DigestWarningIndependentOfDigest | internal/crane/crane_engine.go:286-292 | a digest reference gets the one fixed message, whatever digest it resolved to |
| Crane.TagMessageEmbedsBoth | internal/crane/crane_engine.go:295-302 | a tag reference's message is no warning, and the tag and the digest can be read back from fixed positions in it |
| Crane.BindingExamples | internal/crane/crane_engine.go:285-303 | `sha256:abc` warns and `v1.0` does not |
| CraneUntar.Overwrite | internal/crane/crane_engine.go:352-360 | writing into a file opened without truncation replaces its first bytes and keeps any longer old tail |
| CraneUntar.Untar | internal/crane/crane_engine.go:312-375 | the final file system and the returned error are those of `Extract` over the reads |
| CraneUntar.StopsAtEndOfArchive | internal/crane/crane_engine.go:319-322 | nothing after end-of-stream is read |
| CraneUntar.ReadErrorIsReturned | internal/crane/crane_engine.go:324-326 | a read error ends the extraction with that error |
| CraneUntar.NilHeaderSkipped | internal/crane/crane_engine.go:328-330 | a nil header can be removed without changing the result |
| CraneUntar.LocateStable | internal/crane/crane_engine.go:352 | adding paths to a file system does not change a lookup of a path's parent directories that already succeeded |
| CraneUntar.ResolveStable | internal/crane/crane_engine.go:352 | adding paths does not change a full lookup, links included, that already ended at an existing path |
| CraneUntar.AncestorsAreDirectories | internal/crane/crane_engine.go:344-352 | when the directory part of a path can be looked up, every directory above the path is a directory (following links) |
| CraneUntar.LinkFreeLookup | internal/crane/crane_engine.go:344-352 | without links, a successful lookup of a path ends at that very path |
| CraneUntar.Locate | internal/crane/crane_engine.go:352 | a lookup of the directory part fails only with `ENOENT`, `ENOTDIR` or `ELOOP`, and never gains link budget |
| CraneUntar.LocateKeepsLastElement | internal/crane/crane_engine.go:352 | the path a lookup of the directory part reaches ends in the last element of the path, which is not followed |
| CraneUntar.Resolve | internal/crane/crane_engine.go:352 | a full lookup fails only with `ENOENT`, `ENOTDIR` or `ELOOP`, never gains link budget, and never ends on a link |
| CraneUntar.Stat | internal/crane/crane_engine.go:344 | a successful `os.Stat` never reports a link, because links are followed |
| CraneUntar.Mkdir | internal/crane/crane_engine.go:345 | one `mkdir` step: a failure changes nothing; no existing path changes, every new path is a directory, and on success the path looked up is a directory |
| CraneUntar.MkdirAll | internal/crane/crane_engine.go:345 | `os.MkdirAll` never changes or removes an existing path, and everything it adds is a directory |
| CraneUntar.MkdirAllMakesDirectory | internal/crane/crane_engine.go:345 | when `os.MkdirAll` succeeds, the path and every directory above it are directories |
| CraneUntar.DirectoryEntryCreatesPath | internal/crane/crane_engine.go:341-348 | a directory entry whose target already exists, as anything, changes nothing; otherwise a mkdir failure is returned, or the target and every directory above it become directories, and nothing existing changes |
| CraneUntar.RegularFileWritten | internal/crane/crane_engine.go:351-360 | the target is looked up through links: a failed lookup gives `open <target>: <errno>`, a directory gives `is a directory`; otherwise the body is written at the path reached, a new file holds exactly the body, a longer old file keeps its tail, the body-read error is returned, and no other path changes |
| CraneUntar.SymlinkRedirectsLaterFile | internal/crane/crane_engine.go:351-372 | a link entry followed by a file entry of the same name leaves the link in place and writes the body where the link points |
| CraneUntar.SymlinkFailureNotFatal | internal/crane/crane_engine.go:366-372 | a symbolic link that cannot be created (a failure, a parent that cannot be looked up, an existing path) is skipped and extraction goes on |
| CraneUntar.Apply | internal/crane/crane_engine.go:341-372 | one entry never removes a path; directories and links stay as they were and files stay files |
| CraneUntar.Extract | internal/crane/crane_engine.go:312-375 | the extraction never removes a path; directories and links stay as they were and files stay files |
| CraneUntar.LinkFreeMkdirAll | internal/crane/crane_engine.go:345 | without links, `os.MkdirAll` adds only the path and the directories above it |
| CraneUntar.LinkFreeApply | internal/crane/crane_engine.go:341-364 | without links, a directory or file entry adds only its target and the directories above it, and no link |
| CraneUntar.LinkFreeExtractionWritesOnlyTargets | internal/crane/crane_engine.go:312-375 | with no link in the tree or in the archive, a path that is neither an entry's target nor above one is never created |
| CraneUntar.DirectoryTree | internal/crane/crane_engine.go:143-162 | the extraction starts from the destination and the directories above it, all directories |
| CraneCertImage.SumLayerSizeBytes | internal/crane/crane_engine.go:572-579 | the accumulator loop returns the sum of the layer sizes |
| CraneCertImage.SumAppend | internal/crane/crane_engine.go:572-579 | the sum over concatenated layer lists is the sum of the two sums |
| CraneCertImage.SumBoundsEachLayer | internal/crane/crane_engine.go:572-579 | with non-negative sizes, every layer's size lies between 0 and the total |
| CraneCertImage.SumNonNegative | internal/crane/crane_engine.go:572-579 | non-negative sizes give a non-negative total |
| CraneCertImage.ConvertLabels | internal/crane/crane_engine.go:581-593 | the output holds every map entry exactly once as a name/value pair and nothing else |
| CraneCertImage.LabelsDetermineMap | internal/crane/crane_engine.go:581-593 | a label list gives back the map it was converted from |
| CraneCertImage.ConversionsArePermutations | internal/crane/crane_engine.go:581-593 | two conversions of one map differ at most in order |
| CraneCertImage.LayerSizes | internal/crane/crane_engine.go:409-425 | on success there is one layer per diff id, in order, sized by the bytes copied from that layer |
| CraneCertImage.LayerErrorPropagates | internal/crane/crane_engine.go:410-425 | a failure on a prefix of the diff ids is the failure of the whole loop |
| CraneCertImage.FirstLayerErrorWins | internal/crane/crane_engine.go:410-425 | the loop reports the error of the first layer that cannot be looked up, uncompressed or copied |
| CraneCertImage.PrefixReadable | internal/crane/crane_engine.go:410-425 | when every layer reads, the loop succeeds |
| CraneCertImage.ReadLayers | internal/crane/crane_engine.go:410-431 | the layer loop returns exactly `LayerSizes`: the first failure, or one sized layer per diff id in order |
| CraneCertImage.LayerDigests | internal/crane/crane_engine.go:433-436 | the manifest-layer loop copies the layer digests one for one, in order |
| CraneCertImage.WriteCertImage | internal/crane/crane_engine.go:381-497 | accessor errors come first, in Go's order, then layer errors; with no diff id the top-layer lookup panics; otherwise the record has both digests equal to the image digest, one repository with one tag named by the tag or digest, the summed sizes, `DiffIDs[0]` as top layer and all parsed-data fields; a failed artifact write is returned, and a missing writer saves nothing |
| CraneCertImage.RecordLayersFollowDiffIDs | internal/crane/crane_engine.go:409-479 | the record's layers follow the diff ids one for one, and the top layer id is the first of them |
| CraneRpm.GetBgName | internal/crane/crane_engine.go:500-503 | the source-package name is a proper prefix of the source rpm name |
| CraneRpm.GetBgNameDropsVersionAndRelease | internal/crane/crane_engine.go:500-503 | `name-version-release` without dashes in version and release gives `name`, even when `name` has dashes |
| CraneRpm.GetBgNameOneDash | internal/crane/crane_engine.go:500-503 | with exactly one `-` the name is empty |
| CraneRpm.DashDigitFrom | internal/crane/crane_engine.go:520 | finds the leftmost `-<digit>` at or after a position, which is where `(-[0-9].*)` starts matching |
| CraneRpm.LineEnd | internal/crane/crane_engine.go:520 | `.*` stops at the first newline or at the end |
| CraneRpm.EndChopOfSourceRpm | internal/crane/crane_engine.go:520 | for `name-version-release.rpm` with a digit-led version, the release tail is `version-release` |
| CraneRpm.DashDigitMatch | internal/crane/crane_engine.go:520 | `(-[0-9].*)` matches exactly when the name holds a `-<digit>`; the match starts with it and stays on one line |
| CraneRpm.EndChop | internal/crane/crane_engine.go:520 | the tail is empty exactly when the name holds no `-<digit>`; otherwise it starts with that digit; it never spans lines |
| CraneRpm.KeyIDOnLine | internal/crane/crane_engine.go:526-528 | a line yields a key exactly when it holds `, Key ID `; the key is the rest of the line after its last marker, as the greedy `.*` places the group |
| CraneRpm.FirstKeyID | internal/crane/crane_engine.go:526-531 | the key comes from the first line that holds the marker; there is none exactly when no line holds it |
| CraneRpm.PgpKeyID | internal/crane/crane_engine.go:525-533 | the key never spans lines |
| CraneRpm.PgpKeyIDOfSignature | internal/crane/crane_engine.go:525-533 | `<prefix>, Key ID <key>` on one line gives `<key>` when the key holds no comma; a later marker on the line would win instead, as Go's greedy `.*` makes it |
| CraneRpm.PgpKeyIDWithoutMarker | internal/crane/crane_engine.go:525-533 | a signature without `, Key ID ` gives the empty key |
| CraneRpm.NoMarkerInLines | internal/crane/crane_engine.go:526-531 | no line of a marker-free text yields a key |
| CraneRpm.RpmsOfAt | internal/crane/crane_engine.go:513-548 | entry `i` of the converted list is the conversion of package `i` |
| CraneRpm.ConvertPackages | internal/crane/crane_engine.go:513-548 | one manifest entry per package, in order, each being that package's conversion |
| CraneRpm.WriteRPMManifest | internal/crane/crane_engine.go:505-570 | a package-list error still writes an empty manifest; otherwise one entry per package in order; the error is exactly a failed artifact write |
| CraneRpm.RpmOf | internal/crane/crane_engine.go:515-545 | name, version, release, summary and architecture are carried over and the NVRA is built from them; the source name is a proper prefix of the source rpm; the source fields are empty exactly when there is no source rpm; no signature gives an empty key, and the key never spans lines |
| CraneRpm.SourceFieldsOfWellFormedRpm | internal/crane/crane_engine.go:518-523 | for `name-version-release.rpm` the source name is `name` and the source NEVRA is `name-<epoch>:version-release` |
| CraneRpm.NvraNameRecoverable | internal/crane/crane_engine.go:539 | the NVRA is `name-version-release.arch`, and `getBgName` recovers `name` from it |
| Checks.InitializeContainerChecks | internal/checks/checks.go:22-64 | an error exactly for a policy other than the three, naming that policy |
| Checks.ContainerChecklist | internal/checks/checks.go:24-38 | the container policy runs HasLicense, HasUniqueTag, MaxLayers, HasNoProhibitedPackages, HasRequiredLabels, RunAsNonRoot, HasModifiedFiles, BasedOnUbi, in that order |
| Checks.RootChecklist | internal/checks/checks.go:39-52 | the root policy runs HasLicense, HasUniqueTag, MaxLayers, HasNoProhibitedPackages, HasRequiredLabels, HasModifiedFiles, BasedOnUbi, in that order |
| Checks.RootChecklistDropsRunAsNonRoot | internal/checks/checks.go:39-52 | the root policy's list is the container list without RunAsNonRoot, order kept |
| Checks.ScratchChecklist | internal/checks/checks.go:53-60 | the scratch policy runs exactly HasLicense, HasUniqueTag, MaxLayers, HasRequiredLabels, RunAsNonRoot |
| Checks.ChecklistsDistinct | internal/checks/checks.go:25-60 | no list runs a check twice |
| Checks.RootChecklistIsSubsequence | internal/checks/checks.go:25-52 | the root list is a subsequence of the container list |
| Checks.ScratchChecklistIsSubsequence | internal/checks/checks.go:25-60 | the scratch list is a subsequence of the container list |
| Checks.ChecksReceiveConfiguration | internal/checks/checks.go:27-37 | HasUniqueTag gets the docker config, and BasedOnUbi's client gets the Pyxis host, token and project id with a 60-second timeout |
| Checks.VisibleCheckInfos | internal/policy/has_required_labels.go:54-65 | HasRequiredLabels reports the name `HasRequiredLabel` at level `good`, and, as at max_layers.go:41-52 and base_on_ubi.go:71-82, MaxLayers reports `LayerCountAcceptable` at `better` and BasedOnUbi `BasedOnUbi` at `best`; the names differ and none of the three is optional |
| Exceptions.GetContainerPolicyExceptions | internal/exceptions/exceptions.go:18-35 | a lookup error gives the empty policy and a wrapped error; otherwise no error, scratch exactly for a scratch project, root exactly for a privileged non-scratch one, else container |
| Exceptions.ScratchIgnoresPrivileged | internal/exceptions/exceptions.go:26-28 | the Privileged flag has no effect on a scratch project |
| Exceptions.PolicyDependsOnFlagsOnly | internal/exceptions/exceptions.go:26-34 | only the scratch and privileged flags decide the policy |
| Exceptions.ResolvedPolicyHasChecklist | internal/exceptions/exceptions.go:21-34 | a resolved policy always has a checklist; the empty policy of a failed lookup is refused as unknown |
| Submit.NewPyxisClient | internal/submit/submit.go:35-46 | no client exactly when the project id, the token or the host is empty; otherwise a client with those settings and a 60-second timeout |
| Submit.Base | internal/submit/submit.go:150 | `filepath.Base` is never empty, and it is `/` or holds no `/` |
| Submit.BaseOfJoin | internal/submit/submit.go:150 | the artifact name of the log file `dir/name` is `name` |
| Submit.FirstOpenError | internal/submit/submit.go:118-173 | the open step succeeds exactly when no required file fails to open |
| Submit.FirstOpenErrorAt | internal/submit/submit.go:118-173 | the reported error is that of the earliest required file that fails, under its reported name |
| Submit.ContainerCertificationSubmitter.PreSubmitError | internal/submit/submit.go:63-178 | no error before `SubmitResults` exactly when a project came back, a given docker config was read, the writer is a file-system writer, every required file opened and the input was finalized |
| Submit.ContainerCertificationSubmitter.Input | internal/submit/submit.go:81-173 | the project sent differs from the fetched one only in its docker config, and the options hand over exactly the required files, in the order they were opened |
| Submit.ContainerCertificationSubmitter.Submit | internal/submit/submit.go:59-192 | the first failing step's error is returned, and `SubmitResults` is called exactly when every earlier step succeeded, with the project (its docker config kept or stripped) and the file list; its error is wrapped |
| Submit.ContainerCertificationSubmitter.ProjectFailureStopsEarly | internal/submit/submit.go:64-75 | a failed or empty project lookup stops `Submit` whatever the files and later answers are |
| Submit.ContainerCertificationSubmitter.DockerConfigKeptOrStripped | internal/submit/submit.go:81-106 | the config sent is empty when no docker config is given or the registry is hosted, else the file's contents |
| Submit.ContainerCertificationSubmitter.RpmManifestIffNotScratch | internal/submit/submit.go:147-173 | the rpm manifest is sent exactly for a non-scratch project, making 4 files instead of 3 |
| Submit.ContainerCertificationSubmitter.PrivilegedHasNoEffect | internal/submit/submit.go:153-173 | the Privileged flag changes neither the errors nor the files sent |
| Submit.ContainerCertificationSubmitter.BuildConnectURL | internal/submit/submit.go:194-203 | the production Connect URL for an empty or `prod` environment, the environment's own host otherwise |
| Submit.ContainerCertificationSubmitter.ConnectURLEndsInProject | internal/submit/submit.go:194-203 | the URL ends in the project id, and different projects get different URLs |
| Submit.ContainerCertificationSubmitter.PageURLsExtendConnectURL | internal/submit/submit.go:205-211 | the overview and scan-results URLs extend the Connect URL and never coincide |
| PolicyHasRequiredLabels.MissingFrom | internal/policy/has_required_labels.go:39-44 | a label is in the missing list exactly when it is required and absent or empty |
| PolicyHasRequiredLabels.MissingIsOrderedSubsequence | internal/policy/has_required_labels.go:39-44 | the missing list is a subsequence of the required list, in the required order, and repeats nothing when the required list repeats nothing |
| PolicyHasRequiredLabels.ValidateLabels | internal/policy/has_required_labels.go:36-52 | the loop collects exactly the missing labels and returns the verdict |
| PolicyHasRequiredLabels.PassIffAllPresent | internal/policy/has_required_labels.go:40-51 | no error, and a pass exactly when all six labels are present and non-empty |
| PolicyHasRequiredLabels.ExtraLabelsIgnored | internal/policy/has_required_labels.go:40-51 | labels other than the six never change the verdict |
| PolicyHasRequiredLabels.GetDataForValidateAsWritten | internal/policy/has_required_labels.go:31-34 | as written, the fetch dereferences a nil config exactly when the config fetch fails; otherwise it gives the labels and no error |
| PolicyHasRequiredLabels.ConfigErrorPanicsAsWritten | internal/policy/has_required_labels.go:31-34 | as written, a failing config fetch dereferences a nil config |
| PolicyHasRequiredLabels.GetDataForValidate | internal/policy/has_required_labels.go:31-34 | the corrected fetch returns the error or the labels, and agrees with the code whenever the fetch succeeds |
| PolicyHasRequiredLabels.Validate | internal/policy/has_required_labels.go:22-29 | a config error gives a failure with the wrapped error; otherwise `validate` decides |
| PolicyMaxLayers.ValidateLayers | internal/policy/max_layers.go:36-39 | no error, and a pass exactly when there are at most 40 layers |
| PolicyMaxLayers.Validate | internal/policy/max_layers.go:23-30 | a layer-listing error gives a failure with the wrapped error; otherwise `validate` decides |
| PolicyMaxLayers.Boundary | internal/policy/max_layers.go:15-38 | 40 layers pass and 41 fail |
| PolicyMaxLayers.DescriptionDisagreesAtMax | internal/policy/max_layers.go:20-47 | the description says "less than 40 layers", yet an image with exactly 40 layers passes |
| PolicyMaxLayers.FewerLayersStillPass | internal/policy/max_layers.go:38 | removing layers never turns a pass into a failure |
| PolicyBasedOnUbi.GetImageLayers | internal/policy/base_on_ubi.go:38-45 | the config's diff ids or the config error |
| PolicyBasedOnUbi.CertifiedImagesFound | internal/policy/base_on_ubi.go:49-58 | true exactly when the lookup returns at least one image; a lookup error is wrapped with the hashes, each quoted as `strconv.QuoteToASCII` does |
| PolicyBasedOnUbi.ValidateHashes | internal/policy/base_on_ubi.go:60-69 | an error exactly when the lookup fails; a pass exactly when the lookup returns at least one image |
| PolicyBasedOnUbi.Validate | internal/policy/base_on_ubi.go:28-35 | an error exactly when the config or the lookup fails; a pass exactly when the config's diff ids find at least one image |
| PolicyBasedOnUbi.QuoteListIsASCII | internal/policy/base_on_ubi.go:52 | the printed hash list is printable ASCII |
| PolicyBasedOnUbi.ValidateOutcomes | internal/policy/base_on_ubi.go:28-69 | a config error fails before any lookup; a lookup error fails with the doubly wrapped message; otherwise a pass exactly when at least one image was found, and never an error |
| PolicyBasedOnUbi.OnlyDiffIDsAreQueried | internal/policy/base_on_ubi.go:28-50 | the lookup is asked only about the diff ids, in order |
| Strings.EscapeASCII | internal/policy/base_on_ubi.go:52 | one character's `QuoteToASCII` form is non-empty printable ASCII |
| Strings.UnescapeEscape | internal/policy/base_on_ubi.go:52 | reading back the `QuoteToASCII` form gives the original text |
| Strings.EscapeInjective | internal/policy/base_on_ubi.go:52 | the `QuoteToASCII` escaping loses nothing, so distinct hashes print differently |
| Strings.EscapePlain | internal/policy/base_on_ubi.go:52 | printable ASCII without `"` or `\` (such as `sha256:<hex>`) is printed as it stands |
| Cli.Milliseconds | internal/cli/cli.go:57 | the nanoseconds divided by one million, truncated toward zero |
| Cli.TextOf | internal/cli/cli.go:54-73 | empty results give empty text |
| Cli.AppendLines | internal/cli/cli.go:56-60 | one loop appends one terminated line per result, in list order |
| Cli.FormatAsText | internal/cli/cli.go:54-73 | the three loops produce the report text, and no error is returned |
| Cli.ReportLines | internal/cli/cli.go:55-70 | read back line by line, all Passed lines come first, then Failed, then Errored, each group in list order, each line being the prefix, the name and ` in <n>ms`, with nothing after the last newline |
| Cli.LineCount | internal/cli/cli.go:56-70 | the report holds exactly one newline per result |
| Cli.RunEFunctionWithCheck | internal/cli/cli.go:22-49 | the engine runs the single check on the first argument, not scratch; its error is returned unchanged, and otherwise the report is printed with a final newline |
| Cli.SingleCheckOutput | internal/cli/cli.go:25-46 | a one-check run prints one line labelled by its verdict (an error wins), or only the newline when the check is optional |

## Left out

- Image pull, registry keychain, platform selection, insecure transport and the retry option are network I/O and library configuration. Their failures are the inputs `pullErr` and `reference` of `Crane.Setup`.
- The `io.Pipe` and goroutine that feed `untar` are concurrency. `untar` reads a finite sequence of reads, and the last one stands for end-of-stream or the pipe's error.
- Crane.CraneEngine.ExecuteChecks: the results of `writeCertImage` and `writeRPMManifest` are abstract errors in `Setup`. Those two operations are modelled on their own as `CraneCertImage.WriteCertImage` and `CraneRpm.WriteRPMManifest`.
- Crane.CraneEngine.ExecuteChecks: the post-loop tag/digest log line is logging. Only `Crane.TagDigestBindingInfo` is modelled.
- Removing the temp directory, the image cache and all logging have no effect on results.
- JSON marshalling and its error paths are left out. Both records are plain data, and the files' contents are not modelled.
- Elapsed times (`time.Since`) and the RFC 3339 date (`time.Now`) are inputs.
- `name.ParseReference` is an input: the registry, repository and identifier it yields.
- The Go regular-expression engine is left out. Only the two fixed patterns are written by hand, as leftmost-first greedy matching where `.` does not match a newline.
- CraneCertImage.ConvertLabels: Go's map iteration order is not modelled. The output is stated to be some ordering of the entries.
- The checks whose code is not part of this model, and the Pyxis HTTP client, are abstract answers: outcomes in `Plugin.Outcome`, the layer lookup in `PolicyBasedOnUbi`, the project in `Submit.SubmitEnv`. These checks are HasLicense, HasUniqueTag, RunAsNonRoot, HasModifiedFiles and HasNoProhibitedPackages.
- `ScratchProject()` is not part of this model. It appears as the `scratch` field of `Pyxis.CertProject`.
- `rpm.GetPackageList` is not part of this model. Its list or error is an input.
- CraneUntar.Target: `filepath.Join`'s lexical clean-up is not modelled.
- Submit.JoinPath: `path.Join`'s lexical clean-up is not modelled.
- Crane.CachePath and Crane.FsPath: `path.Join`'s lexical clean-up is not modelled. All of these concatenate with `/`.
- CraneUntar.Untar: file modes and permission errors are not modelled. A directory entry for an existing path of any kind changes nothing, as `os.Stat` succeeding does in the code.
- CraneUntar.Locate: paths are taken literally. Repeated or trailing separators and `.` or `..` elements are not interpreted by the lookup, and `/` itself and one-element relative paths are looked up without a root or working directory.
- CraneUntar.DirectoryTree: the extraction directory and the directories above it start as directories, and nothing else exists; the host file system beyond them is not modelled.
- Policies.Policy: the three constants' spellings are in a file that is not part of this model, so nothing states that `Unrecognized` never carries one of them; in the code those three strings are the other three constructors.
- Strings.EscapeASCII: Go strings are bytes, whereas the model's characters are Unicode scalar values, so the `\x` escapes of invalid UTF-8 are not modelled.
- CraneCertImage.SumLayerSizeBytes: does not model int64 wrap-around; sizes are unbounded integers.
- CraneRpm.GetBgName: requires a `-` in the source rpm name, because the code's slice panics without one. `CraneRpm.SourceRpmConvertible` carries this to the conversion loop.
- CraneCertImage.WriteCertImage: an image without diff ids is the explicit outcome `TopLayerPanic`, because `DiffIDs[0]` panics.
- Exceptions.GetContainerPolicyExceptions: requires a non-nil project when the lookup succeeds, because the code dereferences it unchecked.
- Submit.ContainerCertificationSubmitter.Submit: requires a client, because a nil `Pyxis` panics at the first call.
- Submit.ContainerCertificationSubmitter.Submit: opened files are their paths; closing them is not modelled.
- Submit.ContainerCertificationSubmitter.Submit: `NewCertificationInput`'s own validation is an abstract error.
- Submit.ContainerCertificationSubmitter.Submit: the log lines that print the URLs after a submission are not modelled.
- Cli.RunEFunctionWithCheck: requires one argument, because `args[0]` panics without one.
- Cli.RunEFunctionWithCheck: flag lookups are parameters, and logger set-up is not modelled.
- Cli.FormatAsText: builds a string of characters rather than UTF-8 bytes.
- `BindBaseFlags`, the plugin registrations, the cobra mains, flag binding, the file writer and the defaults file are glue outside this model. The defaults file's three file names are inlined.
- The commented-out checklist helpers at the end of crane_engine.go are not code.

## Findings

| source | as written | input that shows it | evidently intended | confidence | as-written member | corrected member |
|---|---|---|---|---|---|---|
| internal/policy/has_required_labels.go:31-34 | `getDataForValidate` reads `configFile.Config.Labels` before it looks at `err` | an image whose `ConfigFile()` returns a nil config and an error: the field access dereferences nil and panics, so the error branch of `Validate` (lines 24-26) is never reached | return the error, so that `Validate` fails with `could not retrieve image labels: ...` | high for a nil config on error, not executed | PolicyHasRequiredLabels.ConfigErrorPanicsAsWritten | PolicyHasRequiredLabels.Validate |
| internal/policy/max_layers.go:20-47 | the comment (:20) and the description (:47) say the image must have less than the maximum number of layers, while the comparison (:38) is `len(layers) <= acceptableLayerMax` | an image with exactly 40 layers passes, yet the description printed for the check says "less than 40 layers" | 40 is an acceptable maximum, as the constant's name says: the comparison is right and the text should say "at most 40" | medium, not executed | PolicyMaxLayers.DescriptionDisagreesAtMax | PolicyMaxLayers.Boundary |
