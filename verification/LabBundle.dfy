/** The lab bundle: identity checks over four artifacts and one status for all. */
module LabBundle {
  import opened Wrappers
  import DispatchPlan
  import RouteHistory
  import Topology
  import Readiness

  datatype Manifest = Manifest(fleet: string, source: AgentId, approvalRequired: bool, approvalRecorded: bool)

  datatype Verdict = SyntheticReady | NeedsReview | Blocked

  /** The artifact is of the right shape and speaks of the manifest's fleet and source. */
  predicate ArtifactPasses(valid: bool, m: Manifest, fleet: string, source: AgentId) {
    valid && fleet == m.fleet && source == m.source
  }

  function Overall(m: Manifest, checks: seq<bool>, topology: Topology.Verdict, readiness: Readiness.Verdict): Verdict {
    if false in checks then Blocked
    else if topology.TopologyBlocked? then Blocked
    else if readiness.NotReady? then Blocked
    else if topology.NeedsReview? then NeedsReview
    else if readiness.NeedsReview? then NeedsReview
    else if m.approvalRequired && !m.approvalRecorded then NeedsReview
    else SyntheticReady
  }

  function ArtifactChecks(m: Manifest, config: DispatchPlan.RouteConfig, topology: Topology.Report,
                          history: RouteHistory.History, readiness: Readiness.Report): seq<bool> {
    [ArtifactPasses(DispatchPlan.ValidRoutes(config), m, config.fleet, config.source),
     ArtifactPasses(true, m, topology.fleet, topology.source),
     ArtifactPasses(history.reports >= 1, m, history.fleet, history.source),
     ArtifactPasses(true, m, readiness.fleet, readiness.source)]
  }

  function BundleVerdict(m: Manifest, config: DispatchPlan.RouteConfig, topology: Topology.Report,
                         history: RouteHistory.History, readiness: Readiness.Report): Verdict {
    Overall(m, ArtifactChecks(m, config, topology, history, readiness), topology.verdict, readiness.verdict)
  }

  /** All four artifacts are well formed and speak of the manifest's fleet and source. */
  predicate OneIdentity(m: Manifest, config: DispatchPlan.RouteConfig, topology: Topology.Report,
                        history: RouteHistory.History, readiness: Readiness.Report) {
    && DispatchPlan.ValidRoutes(config) && history.reports >= 1
    && config.fleet == m.fleet && topology.fleet == m.fleet && history.fleet == m.fleet && readiness.fleet == m.fleet
    && config.source == m.source && topology.source == m.source && history.source == m.source
    && readiness.source == m.source
  }

  /** The bundle is ready only if every gate below it is, and blocked as soon as one of them is. */
  lemma BundleNeedsEveryGate(m: Manifest, config: DispatchPlan.RouteConfig, topology: Topology.Report,
                             history: RouteHistory.History, readiness: Readiness.Report)
    ensures var v := BundleVerdict(m, config, topology, history, readiness);
      var same := OneIdentity(m, config, topology, history, readiness);
      && (v.SyntheticReady? <==>
            && same && topology.verdict.TopologyReady? && readiness.verdict.Ready?
            && (m.approvalRequired ==> m.approvalRecorded))
      && (v.Blocked? <==> !same || topology.verdict.TopologyBlocked? || readiness.verdict.NotReady?)
  {
    var checks := ArtifactChecks(m, config, topology, history, readiness);
    assert false in checks <==> exists i :: 0 <= i < 4 && !checks[i];
  }
}
