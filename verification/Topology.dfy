/** Topology coverage: which expected agents the source reaches over healthy configured routes. */
module Topology {
  import opened Wrappers
  import opened CheckOutcome
  import opened DispatchPlan
  import opened RouteHealth

  datatype Manifest = Manifest(
    fleet: string,
    source: AgentId,
    expected: seq<AgentId>,
    requireAllRoutes: bool,
    requireNoUnhealthy: bool,
    minHealthy: nat,
    minReachable: nat)

  datatype Reach = Reachable | Weak | Unreachable | Off | Unclear | NoHealth | NoRoute

  datatype Edge = Edge(target: AgentId, configured: bool, reach: Reach)

  datatype Verdict = TopologyReady | NeedsReview | TopologyBlocked

  datatype Summary = Summary(
    missingRoutes: nat,
    missingHealth: nat,
    healthy: nat,
    weak: nat,
    unreachable: nat,
    edges: nat)

  datatype Report = Report(fleet: string, source: AgentId, verdict: Verdict, edges: seq<Edge>, summary: Summary)

  datatype TopologyError = BadManifest | InvalidRouteConfig | BadHealthReport

  predicate ValidManifest(m: Manifest) {
    && m.source in m.expected
    && forall i, j :: 0 <= i < j < |m.expected| ==> m.expected[i] != m.expected[j]
  }

  predicate ValidHealth(h: HealthReport) {
    && h.at.Some?
    && forall i, j :: 0 <= i < j < |h.routes| ==> h.routes[i].target != h.routes[j].target
  }

  method ValidateManifest(m: Manifest) returns (ok: bool)
    ensures ok <==> ValidManifest(m)
  {
    var seen: set<AgentId> := {};
    for i := 0 to |m.expected|
      invariant forall a :: a in seen <==> a in m.expected[..i]
      invariant forall j, k :: 0 <= j < k < i ==> m.expected[j] != m.expected[k]
    {
      if m.expected[i] in seen {
        var j :| 0 <= j < i && m.expected[j] == m.expected[i];
        return false;
      }
      seen := seen + {m.expected[i]};
    }
    assert m.expected[..|m.expected|] == m.expected;
    return m.source in seen;
  }

  method ValidateHealth(h: HealthReport) returns (ok: bool)
    ensures ok <==> ValidHealth(h)
  {
    if h.at.None? {
      return false;
    }
    var seen: set<AgentId> := {};
    for i := 0 to |h.routes|
      invariant forall t :: t in seen <==> exists j :: 0 <= j < i && h.routes[j].target == t
      invariant forall j, k :: 0 <= j < k < i ==> h.routes[j].target != h.routes[k].target
    {
      if h.routes[i].target in seen {
        return false;
      }
      seen := seen + {h.routes[i].target};
    }
    return true;
  }

  function HealthAmong(routes: seq<HealthRoute>, n: nat, target: AgentId): Option<HealthRoute>
    requires n <= |routes|
  {
    if n == 0 then None
    else if routes[n - 1].target == target then Some(routes[n - 1])
    else HealthAmong(routes, n - 1, target)
  }

  function ReachFor(route: Option<Route>, health: Option<HealthRoute>): Reach {
    if route.None? then NoRoute
    else if health.None? then NoHealth
    else match health.value.status
      case Healthy => Reachable
      case Degraded => Weak
      case Unavailable => Unreachable
      case SwitchedOff => Off
      case Unknown => Unclear
  }

  function EdgeTo(target: AgentId, routes: seq<Route>, health: seq<HealthRoute>): Edge {
    var route := RouteFor(routes, target);
    Edge(target, route.Some?, ReachFor(route, HealthAmong(health, |health|, target)))
  }

  /** The edges to the first `n` expected agents, without the source itself. */
  function Edges(m: Manifest, n: nat, routes: seq<Route>, health: seq<HealthRoute>): (es: seq<Edge>)
    requires n <= |m.expected|
  {
    if n == 0 then []
    else
      var before := Edges(m, n - 1, routes, health);
      if m.expected[n - 1] == m.source then before else before + [EdgeTo(m.expected[n - 1], routes, health)]
  }

  /** The number of edges with the given reach. */
  function Count(es: seq<Edge>, reach: Reach): nat {
    if es == [] then 0
    else Count(es[..|es| - 1], reach) + if es[|es| - 1].reach == reach then 1 else 0
  }

  lemma CountSnoc(es: seq<Edge>, e: Edge, reach: Reach)
    ensures Count(es + [e], reach) == Count(es, reach) + if e.reach == reach then 1 else 0
  {
    assert (es + [e])[..|es|] == es;
  }

  function SummaryOf(es: seq<Edge>): Summary {
    Summary(Count(es, NoRoute), Count(es, NoHealth), Count(es, Reachable), Count(es, Weak),
            Count(es, Unreachable) + Count(es, Off) + Count(es, Unclear), |es|)
  }

  method Summarize(es: seq<Edge>) returns (s: Summary)
    ensures s == SummaryOf(es)
    ensures s.missingRoutes + s.missingHealth + s.healthy + s.weak + s.unreachable == s.edges == |es|
  {
    var missingRoutes: nat, missingHealth: nat, healthy: nat, weak: nat, unreachable: nat := 0, 0, 0, 0, 0;
    for i := 0 to |es|
      invariant missingRoutes == Count(es[..i], NoRoute) && missingHealth == Count(es[..i], NoHealth)
      invariant healthy == Count(es[..i], Reachable) && weak == Count(es[..i], Weak)
      invariant unreachable == Count(es[..i], Unreachable) + Count(es[..i], Off) + Count(es[..i], Unclear)
      invariant missingRoutes + missingHealth + healthy + weak + unreachable == i
    {
      assert es[..i + 1] == es[..i] + [es[i]];
      forall reach ensures Count(es[..i + 1], reach) == Count(es[..i], reach) + if es[i].reach == reach then 1 else 0 {
        CountSnoc(es[..i], es[i], reach);
      }
      match es[i].reach
      case NoRoute => missingRoutes := missingRoutes + 1;
      case NoHealth => missingHealth := missingHealth + 1;
      case Reachable => healthy := healthy + 1;
      case Weak => weak := weak + 1;
      case _ => unreachable := unreachable + 1;
    }
    assert es[..|es|] == es;
    s := Summary(missingRoutes, missingHealth, healthy, weak, unreachable, |es|);
  }

  function Checks(m: Manifest, s: Summary, identities: seq<CheckStatus>): seq<CheckStatus> {
    identities + [
      if s.missingRoutes > 0 then (if m.requireAllRoutes then Failed else ManualReview) else Passed,
      if s.missingHealth > 0 then ManualReview else Passed,
      if s.healthy < m.minHealthy then Failed else Passed,
      if 1 + s.healthy < m.minReachable then Failed else Passed,
      if s.edges - s.healthy > 0 then (if m.requireNoUnhealthy then Failed else ManualReview) else Passed]
  }

  function Overall(checks: seq<CheckStatus>): Verdict {
    if Failed in checks then TopologyBlocked else if ManualReview in checks then NeedsReview else TopologyReady
  }

  function IdentityCheck(m: Manifest, fleet: string, source: AgentId): CheckStatus {
    if fleet == m.fleet && source == m.source then Passed else Failed
  }

  /** The thresholds and the strict requirements hold, and all documents speak of one source. */
  predicate Tolerable(m: Manifest, s: Summary, same: bool) {
    && same
    && m.minHealthy <= s.healthy && m.minReachable <= 1 + s.healthy
    && (m.requireAllRoutes ==> s.missingRoutes == 0)
    && (m.requireNoUnhealthy ==> s.healthy == s.edges)
  }

  predicate SameSource(m: Manifest, config: RouteConfig, health: HealthReport) {
    config.fleet == m.fleet == health.fleet && config.source == m.source == health.source
  }

  /** What the report says of valid inputs. */
  ghost predicate Reports(m: Manifest, config: RouteConfig, health: HealthReport, r: Report) {
    && r.fleet == m.fleet && r.source == m.source
    && r.edges == Edges(m, |m.expected|, config.routes, health.routes) && r.summary == SummaryOf(r.edges)
    && (r.verdict.TopologyBlocked? <==> !Tolerable(m, r.summary, SameSource(m, config, health)))
    && (r.verdict.TopologyReady? <==>
          Tolerable(m, r.summary, SameSource(m, config, health)) && r.summary.healthy == |r.edges|)
  }

  method BuildTopology(m: Manifest, config: RouteConfig, health: HealthReport)
    returns (r: Result<Report, TopologyError>)
    ensures r.Ok? <==> ValidManifest(m) && ValidRoutes(config) && ValidHealth(health)
    ensures r.Ok? ==> Reports(m, config, health, r.value)
  {
    var ok := ValidateManifest(m);
    if !ok {
      return Err(BadManifest);
    }
    ok := ValidateRoutes(config);
    if !ok {
      return Err(InvalidRouteConfig);
    }
    ok := ValidateHealth(health);
    if !ok {
      return Err(BadHealthReport);
    }
    var edges := BuildEdges(m, config.routes, health.routes);
    var report := Assess(m, config, health, edges);
    return Ok(report);
  }

  method BuildEdges(m: Manifest, routes: seq<Route>, health: seq<HealthRoute>) returns (edges: seq<Edge>)
    ensures edges == Edges(m, |m.expected|, routes, health)
  {
    edges := [];
    for n := 0 to |m.expected|
      invariant edges == Edges(m, n, routes, health)
    {
      if m.expected[n] != m.source {
        edges := edges + [EdgeTo(m.expected[n], routes, health)];
      }
    }
  }

  method Assess(m: Manifest, config: RouteConfig, health: HealthReport, edges: seq<Edge>) returns (r: Report)
    requires edges == Edges(m, |m.expected|, config.routes, health.routes)
    ensures Reports(m, config, health, r)
  {
    var summary := Summarize(edges);
    var identities := [IdentityCheck(m, config.fleet, config.source), IdentityCheck(m, health.fleet, health.source)];
    VerdictOf(m, summary, identities, SameSource(m, config, health));
    r := Report(m.fleet, m.source, Overall(Checks(m, summary, identities)), edges, summary);
  }

  /** Blocked exactly when something is intolerable; ready exactly when nothing even needs a review. */
  lemma VerdictOf(m: Manifest, s: Summary, identities: seq<CheckStatus>, same: bool)
    requires s.missingRoutes + s.missingHealth + s.healthy + s.weak + s.unreachable == s.edges
    requires |identities| == 2 && ManualReview !in identities
    requires same <==> identities[0].Passed? && identities[1].Passed?
    ensures Overall(Checks(m, s, identities)).TopologyBlocked? <==> !Tolerable(m, s, same)
    ensures Overall(Checks(m, s, identities)).TopologyReady? <==> Tolerable(m, s, same) && s.healthy == s.edges
  {
    var cs := Checks(m, s, identities);
    assert cs[0] == identities[0] && cs[1] == identities[1];
    assert Failed in cs <==> exists i :: 0 <= i < 7 && cs[i] == Failed;
    assert ManualReview in cs <==> exists i :: 0 <= i < 7 && cs[i] == ManualReview;
    assert Failed in identities <==> identities[0].Failed? || identities[1].Failed?;
    assert !identities[0].ManualReview? && !identities[1].ManualReview?;
  }

  // ---------------------------------------------------------------- coverage

  /** An expected agent other than the source, with a route. */
  predicate IsCovered(m: Manifest, routes: seq<Route>, agent: AgentId) {
    agent != m.source && RouteFor(routes, agent).Some?
  }

  /** How many of the first `n` expected agents are covered. */
  function Covered(m: Manifest, n: nat, routes: seq<Route>): nat
    requires n <= |m.expected|
  {
    if n == 0 then 0 else Covered(m, n - 1, routes) + if IsCovered(m, routes, m.expected[n - 1]) then 1 else 0
  }

  lemma {:induction false} EdgeCount(m: Manifest, n: nat, routes: seq<Route>, health: seq<HealthRoute>)
    requires n <= |m.expected| && forall i, j :: 0 <= i < j < |m.expected| ==> m.expected[i] != m.expected[j]
    ensures |Edges(m, n, routes, health)| == n - if m.source in m.expected[..n] then 1 else 0
  {
    if n > 0 {
      EdgeCount(m, n - 1, routes, health);
      assert m.expected[..n] == m.expected[..n - 1] + [m.expected[n - 1]];
    }
  }

  ghost predicate ReachedIfRouted(target: AgentId, routes: seq<Route>, health: seq<HealthRoute>) {
    EdgeTo(target, routes, health).reach == if RouteFor(routes, target).Some? then Reachable else NoRoute
  }

  lemma EdgeCounts(es: seq<Edge>, e: Edge, routed: bool)
    requires e.reach == if routed then Reachable else NoRoute
    ensures Count(es + [e], Reachable) == Count(es, Reachable) + if routed then 1 else 0
    ensures Count(es + [e], NoRoute) == Count(es, NoRoute) + if routed then 0 else 1
  {
    CountSnoc(es, e, Reachable);
    CountSnoc(es, e, NoRoute);
  }

  /** Reachable edges are the covered agents, and the other edges lack a route. */
  predicate ReachesCovered(m: Manifest, n: nat, routes: seq<Route>, es: seq<Edge>)
    requires n <= |m.expected|
  {
    Count(es, Reachable) == Covered(m, n, routes) && Count(es, NoRoute) == |es| - Covered(m, n, routes)
  }

  lemma NextReached(m: Manifest, n: nat, routes: seq<Route>, health: seq<HealthRoute>)
    requires 0 < n <= |m.expected| && ReachesCovered(m, n - 1, routes, Edges(m, n - 1, routes, health))
    requires ReachedIfRouted(m.expected[n - 1], routes, health)
    ensures ReachesCovered(m, n, routes, Edges(m, n, routes, health))
  {
    var agent, before := m.expected[n - 1], Edges(m, n - 1, routes, health);
    if agent != m.source {
      EdgeCounts(before, EdgeTo(agent, routes, health), IsCovered(m, routes, agent));
    }
  }

  /** When every configured route is reported healthy, an edge is reachable if it has a route and missing one if not. */
  lemma {:induction false} HealthyRoutesReach(m: Manifest, n: nat, routes: seq<Route>, health: seq<HealthRoute>)
    requires n <= |m.expected| && forall t :: ReachedIfRouted(t, routes, health)
    ensures ReachesCovered(m, n, routes, Edges(m, n, routes, health))
  {
    if n > 0 {
      HealthyRoutesReach(m, n - 1, routes, health);
      NextReached(m, n, routes, health);
    }
  }

  /** Everything expected is covered exactly when the count is as large as it can be. */
  lemma {:induction false} CoveredIff(m: Manifest, n: nat, routes: seq<Route>)
    requires n <= |m.expected| && forall i, j :: 0 <= i < j < |m.expected| ==> m.expected[i] != m.expected[j]
    ensures var most := n - if m.source in m.expected[..n] then 1 else 0;
      && Covered(m, n, routes) <= most
      && (Covered(m, n, routes) == most <==>
            forall i :: 0 <= i < n && m.expected[i] != m.source ==> RouteFor(routes, m.expected[i]).Some?)
  {
    if n > 0 {
      CoveredIff(m, n - 1, routes);
      assert m.expected[..n] == m.expected[..n - 1] + [m.expected[n - 1]];
    }
  }

  // ---------------------------------------------------------------- what an edge says

  lemma {:induction false} EdgesAreExpected(m: Manifest, n: nat, routes: seq<Route>, health: seq<HealthRoute>)
    requires n <= |m.expected|
    ensures var es := Edges(m, n, routes, health);
      && (forall e :: e in es ==> e.target != m.source && e.target in m.expected[..n]
                                  && e == EdgeTo(e.target, routes, health))
      && (forall t :: t in m.expected[..n] && t != m.source ==> exists e :: e in es && e.target == t)
  {
    if n > 0 {
      EdgesAreExpected(m, n - 1, routes, health);
      assert m.expected[..n] == m.expected[..n - 1] + [m.expected[n - 1]];
      var before, es := Edges(m, n - 1, routes, health), Edges(m, n, routes, health);
      var edge := EdgeTo(m.expected[n - 1], routes, health);
      forall t | t in m.expected[..n] && t != m.source ensures exists e :: e in es && e.target == t {
        if t in m.expected[..n - 1] {
          var e :| e in before && e.target == t;
          assert e in es;
        } else {
          assert edge in es && edge.target == t;
        }
      }
    }
  }

  predicate HasRoute(routes: seq<Route>, target: AgentId) {
    exists r :: r in routes && r.target == target
  }

  /** The report says this of the route to the target. */
  predicate Says(health: seq<HealthRoute>, target: AgentId, status: Status) {
    exists h :: h in health && h.target == target && h.status == status
  }

  predicate SaysNothing(health: seq<HealthRoute>, target: AgentId) {
    forall h :: h in health ==> h.target != target
  }

  lemma {:induction false} HealthFound(health: seq<HealthRoute>, n: nat, target: AgentId)
    requires n <= |health| && forall i, j :: 0 <= i < j < |health| ==> health[i].target != health[j].target
    ensures var found := HealthAmong(health, n, target);
      if found.Some? then found.value in health[..n] && found.value.target == target
      else forall i :: 0 <= i < n ==> health[i].target != target
  {
    if n > 0 {
      HealthFound(health, n - 1, target);
      assert health[..n] == health[..n - 1] + [health[n - 1]];
    }
  }

  /** The edge to an agent by whether a route leads to it and what the health report says of that. */
  lemma EdgeTells(target: AgentId, config: RouteConfig, h: HealthReport)
    requires ValidRoutes(config) && ValidHealth(h)
    ensures var e := EdgeTo(target, config.routes, h.routes);
      var routed := HasRoute(config.routes, target);
      && e.target == target && (e.configured <==> routed)
      && (e.reach == NoRoute <==> !routed)
      && (e.reach == NoHealth <==> routed && SaysNothing(h.routes, target))
      && (e.reach == Reachable <==> routed && Says(h.routes, target, Healthy))
      && (e.reach == Weak <==> routed && Says(h.routes, target, Degraded))
      && (e.reach == Unreachable <==> routed && Says(h.routes, target, Unavailable))
      && (e.reach == Off <==> routed && Says(h.routes, target, SwitchedOff))
      && (e.reach == Unclear <==> routed && Says(h.routes, target, Unknown))
  {
    RouteFound(config, target);
    HealthFound(h.routes, |h.routes|, target);
    assert h.routes[..|h.routes|] == h.routes;
    var found := HealthAmong(h.routes, |h.routes|, target);
    if found.Some? {
      forall x | x in h.routes && x.target == target ensures x == found.value {
        var i :| 0 <= i < |h.routes| && h.routes[i] == x;
        var j :| 0 <= j < |h.routes| && h.routes[j] == found.value;
      }
    }
  }

  lemma RouteFound(config: RouteConfig, target: AgentId)
    requires ValidRoutes(config)
    ensures RouteFor(config.routes, target).Some? <==> HasRoute(config.routes, target)
  {
    var routes := config.routes;
    RouteForFinds(routes, |routes|, target);
    if r :| r in routes && r.target == target {
      var i :| 0 <= i < |routes| && routes[i] == r;
    }
    if RouteFor(routes, target).Some? {
      var i :| 0 <= i < |routes| && routes[i].target == target;
      assert routes[i] in routes;
    }
  }
}
