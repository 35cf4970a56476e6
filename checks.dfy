/**
 * `InitializeContainerChecks` of internal/checks/checks.go: the ordered list of checks
 * each policy runs.
 */
module Checks {
  import opened Wrappers
  import opened Policies
  import opened Sequences
  import Plugin
  import PolicyHasRequiredLabels
  import PolicyMaxLayers
  import PolicyBasedOnUbi

  /** `ContainerCheckConfig`. */
  datatype ContainerCheckConfig = ContainerCheckConfig(
    dockerConfig: string, pyxisAPIToken: string, certificationProjectID: string, pyxisHost: string)

  /** The arguments of `pyxis.NewPyxisClient`: host, token, project id and the HTTP timeout. */
  datatype PyxisClientConfig = PyxisClientConfig(host: string, token: string, projectID: string, timeoutSeconds: nat)

  /** The checks, with the configuration each one is built with. */
  datatype CheckVariant =
    | HasLicense
    | HasUniqueTag(dockerConfig: string)
    | MaxLayers
    | HasNoProhibitedPackages
    | HasRequiredLabels
    | RunAsNonRoot
    | HasModifiedFiles
    | BasedOnUbi(client: PyxisClientConfig)

  /** Which check a variant is, whatever it was configured with. */
  datatype CheckKind =
    | HasLicenseKind | HasUniqueTagKind | MaxLayersKind | HasNoProhibitedPackagesKind
    | HasRequiredLabelsKind | RunAsNonRootKind | HasModifiedFilesKind | BasedOnUbiKind

  function KindOf(v: CheckVariant): CheckKind
  {
    match v
    case HasLicense => HasLicenseKind
    case HasUniqueTag(_) => HasUniqueTagKind
    case MaxLayers => MaxLayersKind
    case HasNoProhibitedPackages => HasNoProhibitedPackagesKind
    case HasRequiredLabels => HasRequiredLabelsKind
    case RunAsNonRoot => RunAsNonRootKind
    case HasModifiedFiles => HasModifiedFilesKind
    case BasedOnUbi(_) => BasedOnUbiKind
  }

  function Kinds(l: seq<CheckVariant>): (ks: seq<CheckKind>)
    ensures |ks| == |l|
    ensures forall i :: 0 <= i < |l| ==> ks[i] == KindOf(l[i])
  {
    if |l| == 0 then [] else [KindOf(l[0])] + Kinds(l[1..])
  }

  /** The client BasedOnUbi queries: the project's Pyxis settings and a 60-second timeout. */
  function UbiClient(cfg: ContainerCheckConfig): PyxisClientConfig
  {
    PyxisClientConfig(cfg.pyxisHost, cfg.pyxisAPIToken, cfg.certificationProjectID, 60)
  }

  /** `InitializeContainerChecks`: a fixed list per policy, an error for any other policy. */
  function InitializeContainerChecks(p: Policy, cfg: ContainerCheckConfig): (r: Result<seq<CheckVariant>>)
    ensures r.Err? <==> p.Unrecognized?
    ensures r.Err? ==> r.error == "provided container policy " + PolicyText(p) + " is unknown"
  {
    match p
    case PolicyContainer =>
      Ok([HasLicense, HasUniqueTag(cfg.dockerConfig), MaxLayers, HasNoProhibitedPackages,
          HasRequiredLabels, RunAsNonRoot, HasModifiedFiles, BasedOnUbi(UbiClient(cfg))])
    case PolicyRoot =>
      Ok([HasLicense, HasUniqueTag(cfg.dockerConfig), MaxLayers, HasNoProhibitedPackages,
          HasRequiredLabels, HasModifiedFiles, BasedOnUbi(UbiClient(cfg))])
    case PolicyScratch =>
      Ok([HasLicense, HasUniqueTag(cfg.dockerConfig), MaxLayers, HasRequiredLabels, RunAsNonRoot])
    case Unrecognized(name) =>
      Err("provided container policy " + name + " is unknown")
  }

  /** `l` without the elements equal to `x`. */
  function Without<T(==)>(l: seq<T>, x: T): (r: seq<T>)
    ensures x !in r
    ensures forall y :: y in r ==> y in l
  {
    if |l| == 0 then [] else (if l[0] == x then [] else [l[0]]) + Without(l[1..], x)
  }

  /** The standard container policy runs these eight checks, in this order. */
  lemma ContainerChecklist(cfg: ContainerCheckConfig)
    ensures InitializeContainerChecks(PolicyContainer, cfg).Ok?
    ensures Kinds(InitializeContainerChecks(PolicyContainer, cfg).value) ==
      [HasLicenseKind, HasUniqueTagKind, MaxLayersKind, HasNoProhibitedPackagesKind,
       HasRequiredLabelsKind, RunAsNonRootKind, HasModifiedFilesKind, BasedOnUbiKind]
  {
  }


  /** Removing `y` from a concatenation removes it from both parts. */
  lemma {:induction false} WithoutAppend<T>(l1: seq<T>, l2: seq<T>, y: T)
    ensures Without(l1 + l2, y) == Without(l1, y) + Without(l2, y)
    decreases |l1|
  {
    if |l1| == 0 {
      assert l1 + l2 == l2;
    } else {
      assert (l1 + l2)[1..] == l1[1..] + l2;
      WithoutAppend(l1[1..], l2, y);
    }
  }

  /** Removing an element the list does not hold changes nothing. */
  lemma {:induction false} WithoutAbsent<T>(l: seq<T>, y: T)
    requires y !in l
    ensures Without(l, y) == l
    decreases |l|
  {
    if |l| > 0 {
      assert l[1..] + [] == l[1..];
      WithoutAbsent(l[1..], y);
      assert [l[0]] + l[1..] == l;
    }
  }

  /** The root-exception policy is the container policy without RunAsNonRoot, order kept. */
  lemma RootChecklistDropsRunAsNonRoot(cfg: ContainerCheckConfig)
    ensures InitializeContainerChecks(PolicyRoot, cfg).Ok? && InitializeContainerChecks(PolicyContainer, cfg).Ok?
    ensures InitializeContainerChecks(PolicyRoot, cfg).value ==
      Without(InitializeContainerChecks(PolicyContainer, cfg).value, RunAsNonRoot)
  {
    var before := [HasLicense, HasUniqueTag(cfg.dockerConfig), MaxLayers, HasNoProhibitedPackages, HasRequiredLabels];
    var after := [HasModifiedFiles, BasedOnUbi(UbiClient(cfg))];
    assert InitializeContainerChecks(PolicyContainer, cfg).value == before + [RunAsNonRoot] + after;
    assert InitializeContainerChecks(PolicyRoot, cfg).value == before + after;
    WithoutAppend(before + [RunAsNonRoot], after, RunAsNonRoot);
    WithoutAppend(before, [RunAsNonRoot], RunAsNonRoot);
    WithoutAbsent(before, RunAsNonRoot);
    WithoutAbsent(after, RunAsNonRoot);
    assert Without([RunAsNonRoot], RunAsNonRoot) == [];
  }

  /** The root-exception policy runs the container list's checks other than RunAsNonRoot. */
  lemma RootChecklist(cfg: ContainerCheckConfig)
    ensures InitializeContainerChecks(PolicyRoot, cfg).Ok?
    ensures Kinds(InitializeContainerChecks(PolicyRoot, cfg).value) ==
      [HasLicenseKind, HasUniqueTagKind, MaxLayersKind, HasNoProhibitedPackagesKind,
       HasRequiredLabelsKind, HasModifiedFilesKind, BasedOnUbiKind]
  {
  }

  /** The scratch-exception policy runs five checks; it leaves out the three that read the packages, the modified files and the base image. */
  lemma ScratchChecklist(cfg: ContainerCheckConfig)
    ensures InitializeContainerChecks(PolicyScratch, cfg).Ok?
    ensures Kinds(InitializeContainerChecks(PolicyScratch, cfg).value) ==
      [HasLicenseKind, HasUniqueTagKind, MaxLayersKind, HasRequiredLabelsKind, RunAsNonRootKind]
  {
  }

  /** The position of a check kind in the container policy's list. */
  function Rank(k: CheckKind): nat
  {
    match k
    case HasLicenseKind => 0
    case HasUniqueTagKind => 1
    case MaxLayersKind => 2
    case HasNoProhibitedPackagesKind => 3
    case HasRequiredLabelsKind => 4
    case RunAsNonRootKind => 5
    case HasModifiedFilesKind => 6
    case BasedOnUbiKind => 7
  }

  /** A list whose ranks rise from each element to the next holds no kind twice. */
  lemma AscendingIsDistinct(ks: seq<CheckKind>)
    requires forall i :: 0 < i < |ks| ==> Rank(ks[i - 1]) < Rank(ks[i])
    ensures Distinct(ks)
  {
    forall i, j | 0 <= i < j < |ks|
      ensures ks[i] != ks[j]
    {
      var k := i + 1;
      while k < j
        invariant i < k <= j
        invariant Rank(ks[i]) < Rank(ks[k])
      {
        k := k + 1;
      }
    }
  }

  /** No list holds the same check twice. */
  lemma ChecklistsDistinct(p: Policy, cfg: ContainerCheckConfig)
    requires !p.Unrecognized?
    ensures Distinct(Kinds(InitializeContainerChecks(p, cfg).value))
  {
    var ks := Kinds(InitializeContainerChecks(p, cfg).value);
    match p {
      case PolicyContainer =>
        ContainerChecklist(cfg);
      case PolicyRoot =>
        RootChecklist(cfg);
      case PolicyScratch =>
        ScratchChecklist(cfg);
    }
    AscendingIsDistinct(ks);
  }

  /** The root-exception list is a subsequence of the container list. */
  lemma RootChecklistIsSubsequence(cfg: ContainerCheckConfig)
    ensures IsSubsequence(InitializeContainerChecks(PolicyRoot, cfg).value, InitializeContainerChecks(PolicyContainer, cfg).value)
  {
    SubsequenceAt(InitializeContainerChecks(PolicyRoot, cfg).value, InitializeContainerChecks(PolicyContainer, cfg).value,
                  [0, 1, 2, 3, 4, 6, 7]);
  }

  /** The scratch-exception list is a subsequence of the container list. */
  lemma ScratchChecklistIsSubsequence(cfg: ContainerCheckConfig)
    ensures IsSubsequence(InitializeContainerChecks(PolicyScratch, cfg).value, InitializeContainerChecks(PolicyContainer, cfg).value)
  {
    SubsequenceAt(InitializeContainerChecks(PolicyScratch, cfg).value, InitializeContainerChecks(PolicyContainer, cfg).value,
                  [0, 1, 2, 4, 5]);
  }

  /** HasUniqueTag is built with the docker config; BasedOnUbi with the project's Pyxis settings. */
  lemma ChecksReceiveConfiguration(p: Policy, cfg: ContainerCheckConfig, i: int)
    requires InitializeContainerChecks(p, cfg).Ok?
    requires 0 <= i < |InitializeContainerChecks(p, cfg).value|
    ensures InitializeContainerChecks(p, cfg).value[i].HasUniqueTag? ==>
      InitializeContainerChecks(p, cfg).value[i].dockerConfig == cfg.dockerConfig
    ensures InitializeContainerChecks(p, cfg).value[i].BasedOnUbi? ==>
      InitializeContainerChecks(p, cfg).value[i].client ==
        PyxisClientConfig(cfg.pyxisHost, cfg.pyxisAPIToken, cfg.certificationProjectID, 60)
  {
  }

  /**
   * The three checks whose code is part of this model are recorded under distinct names,
   * at the levels good, better and best, and none of them is optional, so the engine
   * always records their verdicts.
   */
  lemma VisibleCheckInfos(certDocumentationURL: string)
    ensures var l := PolicyHasRequiredLabels.Info(certDocumentationURL);
      var m := PolicyMaxLayers.Info(certDocumentationURL);
      var u := PolicyBasedOnUbi.Info(certDocumentationURL);
      && l.name == "HasRequiredLabel" && l.metadata.level == "good" && !Plugin.IsOptional(l)
      && m.name == "LayerCountAcceptable" && m.metadata.level == "better" && !Plugin.IsOptional(m)
      && u.name == "BasedOnUbi" && u.metadata.level == "best" && !Plugin.IsOptional(u)
      && l.name != m.name && m.name != u.name && l.name != u.name
  {
  }
}
