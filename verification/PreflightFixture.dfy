/**
 The preflight fixture: synthetic send reports that accept everything, run through route health,
 route history, readiness, topology and the lab bundle, and one status for the whole chain.
 */
module PreflightFixture {
  import opened Wrappers
  import opened Delivery
  import opened DispatchPlan
  import S = SendDryRun
  import H = RouteHealth
  import RouteHistory
  import Readiness
  import Topology
  import LabBundle

  datatype Manifest = Manifest(fleet: string, source: AgentId, observedAt: seq<TimeText>, reportPaths: nat)

  datatype Verdict = FixtureReady | NeedsReview | FixtureBlocked

  datatype FixtureError = BadManifest | BadRoutes | BadTopologyManifest | BadPolicy | IdentityMismatch | StepFailed

  datatype Inputs = Inputs(
    manifest: Manifest,
    config: RouteConfig,
    topology: Topology.Manifest,
    policy: Readiness.Policy,
    bundle: LabBundle.Manifest)

  predicate ValidManifest(m: Manifest) {
    && |m.observedAt| >= 2 && m.reportPaths == |m.observedAt|
    && forall i :: 0 <= i < |m.observedAt| ==> m.observedAt[i].Some?
  }

  predicate SameIdentity(m: Manifest, fleet: string, source: AgentId) {
    fleet == m.fleet && source == m.source
  }

  predicate ValidInputs(x: Inputs) {
    && ValidManifest(x.manifest)
    && ValidRoutes(x.config)
    && Topology.ValidManifest(x.topology)
    && Readiness.ValidPolicy(x.policy)
    && SameIdentity(x.manifest, x.config.fleet, x.config.source)
    && SameIdentity(x.manifest, x.topology.fleet, x.topology.source)
    && SameIdentity(x.manifest, x.policy.fleet, x.policy.source)
    && SameIdentity(x.manifest, x.bundle.fleet, x.bundle.source)
  }

  // ---------------------------------------------------------------- the synthetic evidence

  function ClearAction(route: Route): S.Action {
    S.Action("delivery-clear", route.target, "gossip-clear", Ready, S.SimAccepted, Accepted, None)
  }

  function ClearActions(routes: seq<Route>, n: nat): (actions: seq<S.Action>)
    requires n <= |routes|
    ensures |actions| == n && forall i {:trigger actions[i]} :: 0 <= i < n ==> actions[i] == ClearAction(routes[i])
  {
    if n == 0 then [] else ClearActions(routes, n - 1) + [ClearAction(routes[n - 1])]
  }

  method SyntheticSendReport(config: RouteConfig, at: TimeText) returns (r: H.SendReport)
    ensures r == H.SendReport(config.fleet, config.source, at, ClearActions(config.routes, |config.routes|))
  {
    var actions: seq<S.Action> := [];
    for i := 0 to |config.routes|
      invariant actions == ClearActions(config.routes, i)
    {
      actions := actions + [ClearAction(config.routes[i])];
    }
    r := H.SendReport(config.fleet, config.source, at, actions);
  }

  function ClearStatus(route: Route): H.Status {
    if route.mode.Disabled? then H.SwitchedOff else H.Healthy
  }

  /** A dated report that finds every route that is on healthy. */
  ghost predicate ClearReport(config: RouteConfig, r: H.HealthReport) {
    && r.fleet == config.fleet && r.source == config.source && r.at.Some? && |r.routes| == |config.routes|
    && forall i {:trigger r.routes[i]} :: 0 <= i < |r.routes| ==>
         r.routes[i].target == config.routes[i].target && r.routes[i].status == ClearStatus(config.routes[i])
  }

  /** Every route has an action, and it is an accepted one. */
  lemma {:induction false} EveryRouteAccepted(routes: seq<Route>, n: nat, i: nat)
    requires i < n <= |routes|
    ensures var last := H.LastAction(ClearActions(routes, |routes|), n, routes[i].target);
      last.Some? && last.value.simulated == S.SimAccepted
  {
    if ClearActions(routes, |routes|)[n - 1].target != routes[i].target {
      EveryRouteAccepted(routes, n - 1, i);
    }
  }

  lemma ClearEvidenceIsClear(config: RouteConfig, at: TimeText)
    requires at.Some?
    ensures ClearReport(config, H.HealthReport(config.fleet, config.source, at,
                                               H.HealthOf(config.routes, ClearActions(config.routes, |config.routes|),
                                                          [])))
  {
    var routes := config.routes;
    var hs := H.HealthOf(routes, ClearActions(routes, |routes|), []);
    forall i | 0 <= i < |routes| ensures hs[i].status == ClearStatus(routes[i]) {
      EveryRouteAccepted(routes, |routes|, i);
    }
  }

  // ---------------------------------------------------------------- the derived documents

  function ClearPolicy(template: Readiness.Policy, reports: nat, tracked: nat): Readiness.Policy {
    template.(minReports := reports, minTracked := tracked, allowed := [H.Healthy],
              trends := [RouteHistory.Stable, RouteHistory.SingleSample],
              noUnavailable := true, noUnknown := true, noDisabled := true, noWorsening := true,
              approvalRequired := false)
  }

  function ClearBundle(template: LabBundle.Manifest): LabBundle.Manifest {
    template.(approvalRequired := false, approvalRecorded := false)
  }

  /** The counts that block: unknown, unavailable and disabled routes. */
  predicate AnyBad(ss: seq<H.Status>) {
    multiset(ss)[H.Unknown] > 0 || multiset(ss)[H.Unavailable] > 0 || multiset(ss)[H.SwitchedOff] > 0
  }

  lemma AnyBadIff(ss: seq<H.Status>)
    ensures AnyBad(ss) <==> H.Unknown in ss || H.Unavailable in ss || H.SwitchedOff in ss
  {
    assert forall s :: multiset(ss)[s] > 0 <==> s in ss;
  }

  /** The outcome of the chain by its last five documents. */
  lemma OutputsTell(latest: H.HealthReport, history: RouteHistory.History, readiness: Readiness.Report,
                    topology: Topology.Report, bundle: LabBundle.Verdict)
    ensures var v := StatusForOutputs(latest, history, readiness, topology, bundle);
      var blocked := AnyBad(H.Statuses(latest.routes)) || AnyBad(RouteHistory.LastStatuses(history))
                     || readiness.verdict.NotReady? || topology.verdict.TopologyBlocked? || bundle.Blocked?;
      && (v == FixtureBlocked <==> blocked)
      && (v == FixtureReady <==>
            !blocked && readiness.verdict.Ready? && topology.verdict.TopologyReady? && bundle.SyntheticReady?)
  {
  }

  function StatusForOutputs(
    latest: H.HealthReport, history: RouteHistory.History, readiness: Readiness.Report, topology: Topology.Report,
    bundle: LabBundle.Verdict): Verdict
  {
    if AnyBad(H.Statuses(latest.routes)) then FixtureBlocked
    else if AnyBad(RouteHistory.LastStatuses(history)) then FixtureBlocked
    else if readiness.verdict.NotReady? then FixtureBlocked
    else if topology.verdict.TopologyBlocked? then FixtureBlocked
    else if bundle.Blocked? then FixtureBlocked
    else if readiness.verdict.NeedsReview? || topology.verdict.NeedsReview? || bundle.NeedsReview? then NeedsReview
    else FixtureReady
  }

  // ---------------------------------------------------------------- what the chain decides

  predicate NoneDisabled(config: RouteConfig) {
    forall i :: 0 <= i < |config.routes| ==> !config.routes[i].mode.Disabled?
  }

  predicate AllCovered(m: Topology.Manifest, config: RouteConfig) {
    forall i :: 0 <= i < |m.expected| && m.expected[i] != m.source ==> RouteFor(config.routes, m.expected[i]).Some?
  }

  function CoveredCount(m: Topology.Manifest, config: RouteConfig): nat {
    Topology.Covered(m, |m.expected|, config.routes)
  }

  method BuildReports(config: RouteConfig, times: seq<TimeText>) returns (reports: seq<H.HealthReport>)
    requires ValidRoutes(config) && forall k :: 0 <= k < |times| ==> times[k].Some?
    ensures |reports| == |times| && forall k {:trigger reports[k]} :: 0 <= k < |reports| ==>
      ClearReport(config, reports[k])
  {
    reports := [];
    for k := 0 to |times|
      invariant |reports| == k
      invariant forall j {:trigger reports[j]} :: 0 <= j < k ==> ClearReport(config, reports[j])
    {
      var send := SyntheticSendReport(config, times[k]);
      var health := H.BuildRouteHealth(config, Some(send), None, times[k]);
      ClearEvidenceIsClear(config, times[k]);
      reports := reports + [health.value];
    }
  }

  lemma ClearReportSaysOnce(config: RouteConfig, r: H.HealthReport, i: nat)
    requires ValidRoutes(config) && ClearReport(config, r) && i < |config.routes|
    ensures RouteHistory.SaysOnce(r, config.routes[i].target, ClearStatus(config.routes[i]))
  {
    assert r.routes[i].target == config.routes[i].target;
  }

  /** Every entry of the history belongs to a configured route, and is as steady as the route is clear. */
  lemma HistoryOfClear(config: RouteConfig, reports: seq<H.HealthReport>, h: RouteHistory.History, e: nat)
    returns (i: nat)
    requires ValidRoutes(config) && |reports| >= 2 && RouteHistory.IsHistory(reports, h) && e < |h.entries|
    requires forall k {:trigger reports[k]} :: 0 <= k < |reports| ==> ClearReport(config, reports[k])
    ensures i < |config.routes| && config.routes[i].target == h.entries[e].target
    ensures h.entries[e].last == ClearStatus(config.routes[i]) && h.entries[e].trend == RouteHistory.Stable
  {
    var sorted := RouteHistory.InOrder(reports);
    RouteHistory.InOrderSorts(reports);
    assert RouteHistory.IsEntry(sorted, h.entries[e]);
    var k, j := SampledSomewhere(sorted, |sorted|, h.entries[e].target);
    assert sorted[k] in multiset(sorted);
    assert sorted[k] in reports;
    i := j;
    forall m | 0 <= m < |reports|
      ensures RouteHistory.SaysOnce(reports[m], h.entries[e].target, ClearStatus(config.routes[i]))
    {
      ClearReportSaysOnce(config, reports[m], i);
    }
    RouteHistory.SteadyIsStable(reports, h, e, ClearStatus(config.routes[i]));
  }

  lemma {:induction false} SampledSomewhere(reports: seq<H.HealthReport>, n: nat, target: AgentId)
    returns (k: nat, j: nat)
    requires n <= |reports| && RouteHistory.SamplesOf(reports, n, target) != []
    ensures k < n && j < |reports[k].routes| && reports[k].routes[j].target == target
  {
    var last := reports[n - 1];
    if RouteHistory.SamplesIn(last, |last.routes|, target) != [] {
      k := n - 1;
      j := SampledIn(last, |last.routes|, target);
    } else {
      k, j := SampledSomewhere(reports, n - 1, target);
    }
  }

  lemma {:induction false} SampledIn(report: H.HealthReport, n: nat, target: AgentId) returns (j: nat)
    requires n <= |report.routes| && RouteHistory.SamplesIn(report, n, target) != []
    ensures j < n && report.routes[j].target == target
  {
    if report.routes[n - 1].target == target {
      j := n - 1;
    } else {
      j := SampledIn(report, n - 1, target);
    }
  }

  function ClearStatuses(routes: seq<Route>): (ss: seq<H.Status>)
    ensures |ss| == |routes| && forall i {:trigger ss[i]} :: 0 <= i < |routes| ==> ss[i] == ClearStatus(routes[i])
  {
    seq(|routes|, i requires 0 <= i < |routes| => ClearStatus(routes[i]))
  }

  /** Every entry is stable, and the last statuses are just those the routes stand for. */
  ghost predicate Mirrors(config: RouteConfig, h: RouteHistory.History) {
    && (forall e {:trigger h.entries[e]} :: 0 <= e < |h.entries| ==> h.entries[e].trend.Stable?)
    && (forall s :: s in RouteHistory.LastStatuses(h) <==> s in ClearStatuses(config.routes))
  }

  lemma HistoryMirrors(config: RouteConfig, reports: seq<H.HealthReport>, h: RouteHistory.History)
    requires ValidRoutes(config) && |reports| >= 2 && RouteHistory.IsHistory(reports, h)
    requires forall k {:trigger reports[k]} :: 0 <= k < |reports| ==> ClearReport(config, reports[k])
    ensures Mirrors(config, h)
  {
    var last, clear := RouteHistory.LastStatuses(h), ClearStatuses(config.routes);
    forall e {:trigger h.entries[e]} | 0 <= e < |h.entries| ensures h.entries[e].trend.Stable? && last[e] in clear {
      var i := HistoryOfClear(config, reports, h, e);
      assert clear[i] == last[e];
    }
    forall i | 0 <= i < |clear| ensures clear[i] in last {
      RouteIsTracked(config, reports, h, i);
      var e :| 0 <= e < |h.entries| && h.entries[e].last == ClearStatus(config.routes[i]);
      assert last[e] == clear[i];
    }
  }

  lemma ClearStatusesDisabled(config: RouteConfig)
    ensures H.SwitchedOff in ClearStatuses(config.routes) <==> !NoneDisabled(config)
    ensures forall s :: s in ClearStatuses(config.routes) ==> s.SwitchedOff? || s.Healthy?
  {
    var ss := ClearStatuses(config.routes);
    if i :| 0 <= i < |config.routes| && config.routes[i].mode.Disabled? {
      assert ss[i] == H.SwitchedOff;
    }
  }

  /** The statuses last seen are those of the configured routes. */
  lemma HistoryStatuses(config: RouteConfig, reports: seq<H.HealthReport>, h: RouteHistory.History)
    requires ValidRoutes(config) && |reports| >= 2 && RouteHistory.IsHistory(reports, h)
    requires forall k {:trigger reports[k]} :: 0 <= k < |reports| ==> ClearReport(config, reports[k])
    ensures forall e {:trigger h.entries[e]} :: 0 <= e < |h.entries| ==>
      h.entries[e].trend.Stable? && (h.entries[e].last.Healthy? || h.entries[e].last.SwitchedOff?)
    ensures Readiness.LastCount(h, H.Unknown) == 0 && Readiness.LastCount(h, H.Unavailable) == 0
    ensures Readiness.LastCount(h, H.SwitchedOff) == 0 <==> NoneDisabled(config)
    ensures Readiness.TrendCount(h, RouteHistory.Worsening) == 0
    ensures h.entries == [] <==> config.routes == []
  {
    HistoryMirrors(config, reports, h);
    MirroredStatuses(config, h);
    Readiness.TrendCountedIff(h, RouteHistory.Worsening);
  }

  lemma MirroredStatuses(config: RouteConfig, h: RouteHistory.History)
    requires Mirrors(config, h)
    ensures forall e {:trigger h.entries[e]} :: 0 <= e < |h.entries| ==>
      h.entries[e].last.Healthy? || h.entries[e].last.SwitchedOff?
    ensures Readiness.LastCount(h, H.Unknown) == 0 && Readiness.LastCount(h, H.Unavailable) == 0
    ensures Readiness.LastCount(h, H.SwitchedOff) == 0 <==> NoneDisabled(config)
    ensures h.entries == [] <==> config.routes == []
  {
    var last, clear := RouteHistory.LastStatuses(h), ClearStatuses(config.routes);
    ClearStatusesDisabled(config);
    forall e {:trigger h.entries[e]} | 0 <= e < |h.entries|
      ensures h.entries[e].last.Healthy? || h.entries[e].last.SwitchedOff?
    {
      assert last[e] in last;
    }
    assert last != [] ==> last[0] in clear;
    assert clear != [] ==> clear[0] in last;
  }

  lemma RouteIsTracked(config: RouteConfig, reports: seq<H.HealthReport>, h: RouteHistory.History, i: nat)
    requires ValidRoutes(config) && |reports| >= 2 && RouteHistory.IsHistory(reports, h) && i < |config.routes|
    requires forall k {:trigger reports[k]} :: 0 <= k < |reports| ==> ClearReport(config, reports[k])
    ensures exists e :: 0 <= e < |h.entries| && h.entries[e].last == ClearStatus(config.routes[i])
  {
    forall m | 0 <= m < |reports|
      ensures RouteHistory.SaysOnce(reports[m], config.routes[i].target, ClearStatus(config.routes[i]))
    {
      ClearReportSaysOnce(config, reports[m], i);
    }
    RouteHistory.SteadyIsTracked(reports, h, config.routes[i].target, ClearStatus(config.routes[i]));
    var e :| 0 <= e < |h.entries| && h.entries[e].target == config.routes[i].target;
    RouteHistory.SteadyIsStable(reports, h, e, ClearStatus(config.routes[i]));
  }

  /** The counters of one clear report. */
  lemma ClearReportBadIff(config: RouteConfig, r: H.HealthReport)
    requires ClearReport(config, r)
    ensures AnyBad(H.Statuses(r.routes)) <==> !NoneDisabled(config)
  {
    var ss := H.Statuses(r.routes);
    assert forall s :: multiset(ss)[s] > 0 <==> s in ss;
    forall i | 0 <= i < |ss| ensures ss[i] == ClearStatus(config.routes[i]) {
      assert ss[i] == r.routes[i].status;
    }
    if !NoneDisabled(config) {
      var i :| 0 <= i < |config.routes| && config.routes[i].mode.Disabled?;
      assert ss[i] == H.SwitchedOff;
    }
  }

  lemma {:induction false} HealthFound(config: RouteConfig, r: H.HealthReport, n: nat, target: AgentId)
    requires ClearReport(config, r) && n <= |config.routes|
    ensures var route, health := RouteAmong(config.routes, n, target), Topology.HealthAmong(r.routes, n, target);
      && route.Some? == health.Some?
      && (route.Some? ==> health.value.status == ClearStatus(route.value) && route.value in config.routes)
  {
    if n > 0 {
      assert r.routes[n - 1].target == config.routes[n - 1].target;
      HealthFound(config, r, n - 1, target);
    }
  }

  /** Without disabled routes the topology counts exactly the covered agents as reached. */
  lemma TopologyOfClear(m: Topology.Manifest, config: RouteConfig, r: H.HealthReport)
    requires Topology.ValidManifest(m) && ClearReport(config, r) && NoneDisabled(config)
    ensures var es := Topology.Edges(m, |m.expected|, config.routes, r.routes);
      && |es| == |m.expected| - 1
      && Topology.SummaryOf(es).healthy == CoveredCount(m, config)
      && Topology.SummaryOf(es).missingRoutes == |es| - CoveredCount(m, config)
    ensures CoveredCount(m, config) <= |m.expected| - 1
    ensures CoveredCount(m, config) == |m.expected| - 1 <==> AllCovered(m, config)
  {
    forall t ensures Topology.ReachedIfRouted(t, config.routes, r.routes) {
      HealthFound(config, r, |config.routes|, t);
    }
    Topology.HealthyRoutesReach(m, |m.expected|, config.routes, r.routes);
    Topology.EdgeCount(m, |m.expected|, config.routes, r.routes);
    Topology.CoveredIff(m, |m.expected|, config.routes);
    assert m.expected[..|m.expected|] == m.expected;
  }

  /** The condition on the inputs under which the fixture is ready, as its maker could check it. */
  predicate ReadyCondition(x: Inputs) {
    && NoneDisabled(x.config)
    && AllCovered(x.topology, x.config)
    && x.topology.minHealthy <= |x.topology.expected| - 1
    && x.topology.minReachable <= |x.topology.expected|
  }

  /** The condition for a manual review: agents are left uncovered, and the manifest puts up with it. */
  predicate ReviewCondition(x: Inputs) {
    && NoneDisabled(x.config)
    && !AllCovered(x.topology, x.config)
    && !x.topology.requireAllRoutes && !x.topology.requireNoUnhealthy
    && x.topology.minHealthy <= CoveredCount(x.topology, x.config)
    && x.topology.minReachable <= 1 + CoveredCount(x.topology, x.config)
  }

  function DecidedBy(x: Inputs): Verdict {
    if ReadyCondition(x) then FixtureReady else if ReviewCondition(x) then NeedsReview else FixtureBlocked
  }

  /** The derived policy wants every route healthy, and stable or seen once. */
  lemma ClearPolicyAccepts(template: Readiness.Policy, reports: nat, tracked: nat, e: RouteHistory.Entry)
    ensures Readiness.RouteReady(ClearPolicy(template, reports, tracked), e) <==>
      e.last.Healthy? && (e.trend.Stable? || e.trend.SingleSample?)
  {
  }

  /** All else the derived policy demands, and that no approval is asked for any more. */
  lemma DerivedDocumentsTell(policy: Readiness.Policy, bundle: LabBundle.Manifest, reports: nat, tracked: nat)
    ensures var p := ClearPolicy(policy, reports, tracked);
      && p.fleet == policy.fleet && p.source == policy.source && p.minReports == reports && p.minTracked == tracked
      && p.noUnavailable && p.noUnknown && p.noDisabled && p.noWorsening && !p.approvalRequired
    ensures var b := ClearBundle(bundle);
      b.fleet == bundle.fleet && b.source == bundle.source && !b.approvalRequired && !b.approvalRecorded
  {
  }

  /** The derived policy is valid exactly with a route to track, and met exactly with no route disabled. */
  lemma ClearPolicyMet(x: Inputs, reports: seq<H.HealthReport>, h: RouteHistory.History)
    requires ValidInputs(x) && |reports| >= 2 && RouteHistory.IsHistory(reports, h)
    requires forall k {:trigger reports[k]} :: 0 <= k < |reports| ==> ClearReport(x.config, reports[k])
    ensures var p := ClearPolicy(x.policy, |reports|, |h.entries|);
      && (Readiness.ValidPolicy(p) <==> x.config.routes != [])
      && (Readiness.Meets(p, h) && Readiness.EveryRouteReady(p, h) <==> NoneDisabled(x.config))
    ensures AnyBad(RouteHistory.LastStatuses(h)) <==> !NoneDisabled(x.config)
  {
    HistoryStatuses(x.config, reports, h);
    var p := ClearPolicy(x.policy, |reports|, |h.entries|);
    if NoneDisabled(x.config) {
      Readiness.CountedIff(h, H.SwitchedOff);
      assert Readiness.EveryRouteReady(p, h);
    }
  }

  /** Three-way comparison of what the last steps report with the condition on the inputs. */
  lemma FinalVerdict(x: Inputs, latest: H.HealthReport, h: RouteHistory.History, readiness: Readiness.Report,
                     topology: Topology.Report)
    requires ValidInputs(x) && ClearReport(x.config, latest) && h.reports >= 1
    requires SameIdentity(x.manifest, h.fleet, h.source) && SameIdentity(x.manifest, readiness.fleet, readiness.source)
    requires SameIdentity(x.manifest, topology.fleet, topology.source)
    requires AnyBad(RouteHistory.LastStatuses(h)) <==> !NoneDisabled(x.config)
    requires readiness.verdict.NotReady? <==> !NoneDisabled(x.config)
    requires !readiness.verdict.NeedsReview?
    requires topology.edges == Topology.Edges(x.topology, |x.topology.expected|, x.config.routes, latest.routes)
    requires topology.summary == Topology.SummaryOf(topology.edges)
    requires topology.verdict.TopologyBlocked? <==> !Topology.Tolerable(x.topology, topology.summary, true)
    requires topology.verdict.TopologyReady? <==>
      Topology.Tolerable(x.topology, topology.summary, true) && topology.summary.healthy == |topology.edges|
    ensures StatusForOutputs(latest, h, readiness, topology,
                             LabBundle.BundleVerdict(ClearBundle(x.bundle), x.config, topology, h, readiness))
         == DecidedBy(x)
  {
    ClearReportBadIff(x.config, latest);
    var m := ClearBundle(x.bundle);
    LabBundle.BundleNeedsEveryGate(m, x.config, topology, h, readiness);
    if NoneDisabled(x.config) {
      TopologyOfClear(x.topology, x.config, latest);
    }
  }

  /**
   The chain of six steps succeeds exactly on valid inputs with a route, and its verdict is decided
   by the routes and the topology manifest alone.
   */
  method BuildPreflight(x: Inputs) returns (r: Result<Verdict, FixtureError>)
    ensures r.Ok? <==> ValidInputs(x) && x.config.routes != []
    ensures r.Ok? ==> r.value == DecidedBy(x)
  {
    var times := x.manifest.observedAt;
    for i := 0 to |times|
      invariant forall j :: 0 <= j < i ==> times[j].Some?
    {
      if times[i].None? {
        return Err(BadManifest);
      }
    }
    if |times| < 2 || x.manifest.reportPaths != |times| {
      return Err(BadManifest);
    }
    var routesOk := ValidateRoutes(x.config);
    if !routesOk {
      return Err(FixtureError.BadRoutes);
    }
    var topologyOk := Topology.ValidateManifest(x.topology);
    if !topologyOk {
      return Err(BadTopologyManifest);
    }
    if !Readiness.ValidPolicy(x.policy) {
      return Err(BadPolicy);
    }
    var fleet, source := x.manifest.fleet, x.manifest.source;
    if x.config.fleet != fleet || x.config.source != source || x.topology.fleet != fleet
      || x.topology.source != source || x.policy.fleet != fleet || x.policy.source != source
      || x.bundle.fleet != fleet || x.bundle.source != source
    {
      return Err(IdentityMismatch);
    }
    r := RunChain(x);
  }

  method RunChain(x: Inputs) returns (r: Result<Verdict, FixtureError>)
    requires ValidInputs(x)
    ensures r.Ok? <==> x.config.routes != []
    ensures r.Ok? ==> r.value == DecidedBy(x)
  {
    var reports := BuildReports(x.config, x.manifest.observedAt);
    assert forall k :: 0 <= k < |reports| ==> ClearReport(x.config, reports[k]);
    var history := RouteHistory.BuildHistory(reports);
    ClearPolicyMet(x, reports, history.value);
    var readiness := Readiness.BuildReadiness(ClearPolicy(x.policy, |reports|, |history.value.entries|), history.value);
    if readiness.Err? {
      return Err(StepFailed);
    }
    var latest := reports[|reports| - 1];
    var topology := BuildClearTopology(x, latest);
    FinalVerdict(x, latest, history.value, readiness.value, topology);
    var bundle := LabBundle.BundleVerdict(ClearBundle(x.bundle), x.config, topology, history.value, readiness.value);
    return Ok(StatusForOutputs(latest, history.value, readiness.value, topology, bundle));
  }

  method BuildClearTopology(x: Inputs, latest: H.HealthReport) returns (topology: Topology.Report)
    requires ValidInputs(x) && ClearReport(x.config, latest)
    ensures SameIdentity(x.manifest, topology.fleet, topology.source)
    ensures topology.edges == Topology.Edges(x.topology, |x.topology.expected|, x.config.routes, latest.routes)
    ensures topology.summary == Topology.SummaryOf(topology.edges)
    ensures topology.verdict.TopologyBlocked? <==> !Topology.Tolerable(x.topology, topology.summary, true)
    ensures topology.verdict.TopologyReady? <==>
      Topology.Tolerable(x.topology, topology.summary, true) && topology.summary.healthy == |topology.edges|
  {
    assert Topology.ValidHealth(latest) by {
      assert forall i {:trigger latest.routes[i]} :: 0 <= i < |latest.routes| ==>
        latest.routes[i].target == x.config.routes[i].target;
    }
    var built := Topology.BuildTopology(x.topology, x.config, latest);
    topology := built.value;
  }
}
