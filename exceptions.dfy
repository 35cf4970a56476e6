/**
 * `GetContainerPolicyExceptions` of internal/exceptions/exceptions.go: the policy a
 * certification project is checked under, read from the project the Pyxis client
 * returns.
 */
module Exceptions {
  import opened Wrappers
  import opened Policies
  import opened Pyxis
  import Checks

  /**
   * `GetContainerPolicyExceptions` over the answer of `GetProject`: a fetch error gives the
   * empty policy and a wrapped error; otherwise scratch wins over privileged, and a project
   * with neither flag gets the standard container policy. The project is logged by name
   * before any flag is read, so a nil project with a nil error is a caller error.
   */
  function GetContainerPolicyExceptions(project: Result<Option<CertProject>>): (r: (Policy, Option<string>))
    requires project.Ok? ==> project.value.Some?
    ensures project.Err? ==> r == (Unrecognized(""), Some("could not retrieve project: " + project.error))
    ensures project.Ok? ==> r.1.None? && r.0 in {PolicyScratch, PolicyRoot, PolicyContainer}
    ensures project.Ok? ==> (r.0 == PolicyScratch <==> project.value.value.scratch)
    ensures project.Ok? ==> (r.0 == PolicyRoot <==> !project.value.value.scratch && project.value.value.container.privileged)
  {
    match project
    case Err(e) => (Unrecognized(""), Some("could not retrieve project: " + e))
    case Ok(p) =>
      var certProject := p.value;
      if certProject.scratch then (PolicyScratch, None)
      else if certProject.container.privileged then (PolicyRoot, None)
      else (PolicyContainer, None)
  }

  /** The Privileged flag has no effect on a scratch project. */
  lemma ScratchIgnoresPrivileged(p: CertProject, privileged: bool)
    requires p.scratch
    ensures GetContainerPolicyExceptions(Ok(Some(p))) ==
      GetContainerPolicyExceptions(Ok(Some(p.(container := p.container.(privileged := privileged)))))
  {
  }

  /** Only the two flags matter: every other project field leaves the policy unchanged. */
  lemma PolicyDependsOnFlagsOnly(p: CertProject, q: CertProject)
    requires p.scratch == q.scratch && p.container.privileged == q.container.privileged
    ensures GetContainerPolicyExceptions(Ok(Some(p))) == GetContainerPolicyExceptions(Ok(Some(q)))
  {
  }

  /**
   * Resolving and building fit together: a resolved policy always has a checklist, and the
   * empty policy of a failed lookup is rejected by the checklist builder.
   */
  lemma ResolvedPolicyHasChecklist(project: Result<Option<CertProject>>, cfg: Checks.ContainerCheckConfig)
    requires project.Ok? ==> project.value.Some?
    ensures project.Ok? ==> Checks.InitializeContainerChecks(GetContainerPolicyExceptions(project).0, cfg).Ok?
    ensures project.Err? ==>
      Checks.InitializeContainerChecks(GetContainerPolicyExceptions(project).0, cfg) ==
        Err("provided container policy  is unknown")
  {
  }
}
