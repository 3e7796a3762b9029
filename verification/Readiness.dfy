/** The readiness gate: a policy over a route-health history. */
module Readiness {
  import opened Wrappers
  import opened CheckOutcome
  import opened RouteHealth
  import opened RouteHistory

  datatype Policy = Policy(
    fleet: string,
    source: AgentId,
    minReports: int,
    minTracked: int,
    allowed: seq<Status>,
    trends: seq<Trend>,
    noUnavailable: bool,
    noUnknown: bool,
    noDisabled: bool,
    noWorsening: bool,
    approvalRequired: bool)

  datatype Verdict = Ready | NeedsReview | NotReady

  datatype Report = Report(
    fleet: string,
    source: AgentId,
    verdict: Verdict,
    checks: seq<CheckStatus>,
    routesReady: seq<bool>)

  datatype ReadinessError = BadPolicy | BadHistory | ReadinessFleetMismatch | ReadinessSourceMismatch

  predicate ValidPolicy(p: Policy) {
    p.minReports >= 1 && p.minTracked >= 1 && p.allowed != [] && p.trends != []
  }

  function LastCount(h: History, s: Status): nat {
    multiset(LastStatuses(h))[s]
  }

  function TrendCount(h: History, t: Trend): nat {
    multiset(Trends(h))[t]
  }

  function Check(passed: bool): CheckStatus {
    if passed then Passed else Failed
  }

  function RouteReady(p: Policy, e: Entry): bool {
    e.last in p.allowed && e.trend in p.trends && !(p.noWorsening && e.trend.Worsening?)
  }

  function Overall(checks: seq<CheckStatus>, routesReady: seq<bool>): Verdict {
    if Failed in checks then NotReady
    else if false in routesReady then NotReady
    else if ManualReview in checks then NeedsReview
    else Ready
  }

  /** What the policy demands of the history as a whole. */
  predicate Meets(p: Policy, h: History) {
    && h.reports >= p.minReports
    && |h.entries| >= p.minTracked
    && (p.noUnavailable ==> LastCount(h, Unavailable) == 0)
    && (p.noUnknown ==> LastCount(h, Unknown) == 0)
    && (p.noDisabled ==> LastCount(h, SwitchedOff) == 0)
    && (p.noWorsening ==> TrendCount(h, Worsening) == 0)
  }

  predicate EveryRouteReady(p: Policy, h: History) {
    forall i {:trigger h.entries[i]} :: 0 <= i < |h.entries| ==> RouteReady(p, h.entries[i])
  }

  /** The verdict follows the policy: approval that is still required is the only reason for a review. */
  method BuildReadiness(p: Policy, h: History) returns (r: Result<Report, ReadinessError>)
    ensures r.Ok? <==> ValidPolicy(p) && h.reports >= 1 && p.fleet == h.fleet && p.source == h.source
    ensures r.Ok? ==> r.value.fleet == h.fleet && r.value.source == h.source
    ensures r.Ok? ==> (r.value.verdict.NotReady? <==> !(Meets(p, h) && EveryRouteReady(p, h)))
    ensures r.Ok? ==> (r.value.verdict.NeedsReview? <==> Meets(p, h) && EveryRouteReady(p, h) && p.approvalRequired)
    ensures r.Ok? ==> |r.value.routesReady| == |h.entries| && forall i {:trigger h.entries[i]} ::
      0 <= i < |h.entries| ==>
        (r.value.routesReady[i] <==>
           h.entries[i].last in p.allowed && h.entries[i].trend in p.trends
           && (p.noWorsening ==> h.entries[i].trend != Worsening))
  {
    if p.minReports < 1 || p.minTracked < 1 || p.allowed == [] || p.trends == [] {
      return Err(BadPolicy);
    }
    if h.reports < 1 {
      return Err(BadHistory);
    }
    if p.fleet != h.fleet {
      return Err(ReadinessFleetMismatch);
    }
    if p.source != h.source {
      return Err(ReadinessSourceMismatch);
    }
    var checks := [Check(h.reports >= p.minReports), Check(|h.entries| >= p.minTracked)];
    if p.noUnavailable {
      checks := checks + [Check(LastCount(h, Unavailable) == 0)];
    }
    if p.noUnknown {
      checks := checks + [Check(LastCount(h, Unknown) == 0)];
    }
    if p.noDisabled {
      checks := checks + [Check(LastCount(h, SwitchedOff) == 0)];
    }
    if p.noWorsening {
      checks := checks + [Check(TrendCount(h, Worsening) == 0)];
    }
    assert Failed in checks <==> !Meets(p, h);
    assert ManualReview !in checks;
    var ready: seq<bool> := [];
    for i := 0 to |h.entries|
      invariant |ready| == i
      invariant forall j {:trigger ready[j]} :: 0 <= j < i ==> ready[j] == RouteReady(p, h.entries[j])
    {
      var e := h.entries[i];
      ready := ready + [e.last in p.allowed && e.trend in p.trends && !(p.noWorsening && e.trend == Worsening)];
    }
    assert false in ready <==> !EveryRouteReady(p, h) by {
      assert forall j :: 0 <= j < |h.entries| ==> ready[j] == RouteReady(p, h.entries[j]);
    }
    ghost var before := checks;
    if p.approvalRequired {
      checks := checks + [ManualReview];
      assert Failed in checks <==> Failed in before;
    }
    return Ok(Report(h.fleet, h.source, Overall(checks, ready), checks, ready));
  }

  /** A status is counted last in some route exactly when the count is positive. */
  lemma CountedIff(h: History, s: Status)
    ensures LastCount(h, s) > 0 <==> exists i :: 0 <= i < |h.entries| && h.entries[i].last == s
  {
    var ss := LastStatuses(h);
    assert s in multiset(ss) <==> s in ss;
    if i :| 0 <= i < |h.entries| && h.entries[i].last == s {
      assert ss[i] == s;
    }
    if s in ss {
      var i :| 0 <= i < |ss| && ss[i] == s;
      assert h.entries[i].last == s;
    }
  }

  lemma TrendCountedIff(h: History, t: Trend)
    ensures TrendCount(h, t) > 0 <==> exists i :: 0 <= i < |h.entries| && h.entries[i].trend == t
  {
    var ts := Trends(h);
    assert t in multiset(ts) <==> t in ts;
    if i :| 0 <= i < |h.entries| && h.entries[i].trend == t {
      assert ts[i] == t;
    }
    if t in ts {
      var i :| 0 <= i < |ts| && ts[i] == t;
      assert h.entries[i].trend == t;
    }
  }
}
