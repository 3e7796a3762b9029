/** Route health: what the last send and retry evidence says about every configured route. */
module RouteHealth {
  import opened Wrappers
  import opened Delivery
  import opened DispatchPlan
  import S = SendDryRun
  import R = RetryPlan

  datatype Status = Healthy | Degraded | Unavailable | SwitchedOff | Unknown

  datatype HealthRoute = HealthRoute(target: AgentId, mode: Mode, status: Status)

  datatype HealthReport = HealthReport(fleet: string, source: AgentId, at: TimeText, routes: seq<HealthRoute>)

  datatype SendReport = SendReport(fleet: string, source: AgentId, at: TimeText, actions: seq<S.Action>)

  datatype RetryReport = RetryReport(fleet: string, source: AgentId, retries: seq<R.Retry>)

  datatype HealthError = BadRouteConfig | EvidenceFleetMismatch | EvidenceSourceMismatch

  /** The last of the first `n` actions toward the target. */
  function LastAction(actions: seq<S.Action>, n: nat, target: AgentId): Option<S.Action>
    requires n <= |actions|
  {
    if n == 0 then None
    else if actions[n - 1].target == target then Some(actions[n - 1])
    else LastAction(actions, n - 1, target)
  }

  function LastRetry(retries: seq<R.Retry>, n: nat, target: AgentId): Option<R.Retry>
    requires n <= |retries|
  {
    if n == 0 then None
    else if retries[n - 1].target == target then Some(retries[n - 1])
    else LastRetry(retries, n - 1, target)
  }

  predicate GivenUp(d: R.RetryDecision) {
    d.MaxAttemptsReached? || d.NonRetryableError? || d.PastExpiry?
  }

  predicate StillTrying(d: R.RetryDecision) {
    d.DueNow? || d.WaitingBackoff?
  }

  predicate Landed(s: State) {
    s.Accepted? || s.Duplicate?
  }

  function StatusFromAction(a: S.Action, retry: Option<R.Retry>): Status {
    match a.simulated
    case SimAccepted => Healthy
    case SimDuplicate => Healthy
    case SimNoResponse => if retry.Some? && GivenUp(retry.value.decision) then Unavailable else Degraded
    case SimRejected => if retry.Some? && StillTrying(retry.value.decision) then Degraded else Unavailable
    case NotSent =>
      if a.decision.RouteDisabled? then SwitchedOff
      else if Landed(a.stateAfter) then Healthy
      else if a.stateAfter.Pending? then Unknown
      else Unavailable
  }

  function StatusFromRetry(retry: Option<R.Retry>): Status {
    if retry.None? then Unknown
    else if StillTrying(retry.value.decision) then Degraded
    else if GivenUp(retry.value.decision) then Unavailable
    else if Landed(retry.value.state) then Healthy
    else Unavailable
  }

  function RouteStatus(route: Route, action: Option<S.Action>, retry: Option<R.Retry>): Status {
    if route.mode.Disabled? then SwitchedOff
    else if action.Some? then StatusFromAction(action.value, retry)
    else StatusFromRetry(retry)
  }

  function ActionsOf(send: Option<SendReport>): seq<S.Action> {
    if send.Some? then send.value.actions else []
  }

  function RetriesOf(plan: Option<RetryReport>): seq<R.Retry> {
    if plan.Some? then plan.value.retries else []
  }

  function HealthOf(routes: seq<Route>, actions: seq<S.Action>, retries: seq<R.Retry>): (hs: seq<HealthRoute>)
    ensures |hs| == |routes|
    ensures forall i {:trigger hs[i]} :: 0 <= i < |routes| ==>
      hs[i].target == routes[i].target && hs[i].mode == routes[i].mode
  {
    seq(|routes|, i requires 0 <= i < |routes| =>
      HealthRoute(routes[i].target, routes[i].mode,
                  RouteStatus(routes[i], LastAction(actions, |actions|, routes[i].target),
                              LastRetry(retries, |retries|, routes[i].target))))
  }

  predicate SameSource(config: RouteConfig, send: Option<SendReport>, plan: Option<RetryReport>) {
    && (send.Some? ==> send.value.fleet == config.fleet && send.value.source == config.source)
    && (plan.Some? ==> plan.value.fleet == config.fleet && plan.value.source == config.source)
  }

  /** One pass over the evidence: later entries for a target replace earlier ones. */
  method LatestActions(actions: seq<S.Action>) returns (latest: map<AgentId, S.Action>)
    ensures forall t :: LastAction(actions, |actions|, t) == if t in latest then Some(latest[t]) else None
  {
    latest := map[];
    for i := 0 to |actions|
      invariant forall t :: LastAction(actions, i, t) == if t in latest then Some(latest[t]) else None
    {
      latest := latest[actions[i].target := actions[i]];
    }
  }

  method LatestRetries(retries: seq<R.Retry>) returns (latest: map<AgentId, R.Retry>)
    ensures forall t :: LastRetry(retries, |retries|, t) == if t in latest then Some(latest[t]) else None
  {
    latest := map[];
    for i := 0 to |retries|
      invariant forall t :: LastRetry(retries, i, t) == if t in latest then Some(latest[t]) else None
    {
      latest := latest[retries[i].target := retries[i]];
    }
  }

  method BuildRouteHealth(config: RouteConfig, send: Option<SendReport>, plan: Option<RetryReport>, now: TimeText)
    returns (r: Result<HealthReport, HealthError>)
    ensures r.Ok? <==> ValidRoutes(config) && SameSource(config, send, plan)
    ensures r.Ok? ==>
      && r.value.fleet == config.fleet && r.value.source == config.source && r.value.at == now
      && r.value.routes == HealthOf(config.routes, ActionsOf(send), RetriesOf(plan))
  {
    var routesOk := ValidateRoutes(config);
    if !routesOk {
      return Err(BadRouteConfig);
    }
    if (send.Some? && send.value.fleet != config.fleet) || (plan.Some? && plan.value.fleet != config.fleet) {
      return Err(EvidenceFleetMismatch);
    }
    if (send.Some? && send.value.source != config.source) || (plan.Some? && plan.value.source != config.source) {
      return Err(EvidenceSourceMismatch);
    }
    var actions := LatestActions(ActionsOf(send));
    var retries := LatestRetries(RetriesOf(plan));
    var routes: seq<HealthRoute> := [];
    for i := 0 to |config.routes|
      invariant routes == HealthOf(config.routes, ActionsOf(send), RetriesOf(plan))[..i]
    {
      var route := config.routes[i];
      var action := if route.target in actions then Some(actions[route.target]) else None;
      var retry := if route.target in retries then Some(retries[route.target]) else None;
      routes := routes + [HealthRoute(route.target, route.mode, RouteStatus(route, action, retry))];
    }
    return Ok(HealthReport(config.fleet, config.source, now, routes));
  }

  function Statuses(routes: seq<HealthRoute>): (ss: seq<Status>)
    ensures |ss| == |routes| && forall i {:trigger ss[i]} :: 0 <= i < |routes| ==> ss[i] == routes[i].status
  {
    seq(|routes|, i requires 0 <= i < |routes| => routes[i].status)
  }

  /** The five counters of the summary. */
  method Tally(statuses: seq<Status>) returns (counts: map<Status, nat>)
    ensures forall s :: s in counts && counts[s] == multiset(statuses)[s]
    ensures counts[Healthy] + counts[Degraded] + counts[Unavailable] + counts[SwitchedOff] + counts[Unknown]
      == |statuses|
  {
    counts := map[Healthy := 0, Degraded := 0, Unavailable := 0, SwitchedOff := 0, Unknown := 0];
    forall s: Status ensures s in counts && counts[s] == 0 {
      assert s.Healthy? || s.Degraded? || s.Unavailable? || s.SwitchedOff? || s.Unknown?;
    }
    for i := 0 to |statuses|
      invariant forall s :: s in counts && counts[s] == multiset(statuses[..i])[s]
      invariant counts[Healthy] + counts[Degraded] + counts[Unavailable] + counts[SwitchedOff] + counts[Unknown] == i
    {
      assert statuses[..i + 1] == statuses[..i] + [statuses[i]];
      counts := counts[statuses[i] := counts[statuses[i]] + 1];
    }
    assert statuses[..|statuses|] == statuses;
  }

  // ---------------------------------------------------------------- what a status says

  /** A route is healthy exactly when it is on and the newest evidence about it is a landed delivery. */
  lemma HealthyIff(route: Route, action: Option<S.Action>, retry: Option<R.Retry>)
    ensures RouteStatus(route, action, retry).Healthy? <==>
      && !route.mode.Disabled?
      && (if action.Some?
          then action.value.simulated.SimAccepted? || action.value.simulated.SimDuplicate?
               || (action.value.simulated.NotSent? && !action.value.decision.RouteDisabled?
                   && Landed(action.value.stateAfter))
          else retry.Some? && retry.value.decision.AlreadyTerminal? && Landed(retry.value.state))
  {
  }

  /** A send that went out decides the route's status whatever came before it. */
  lemma {:induction false} NewestEvidenceDecides(actions: seq<S.Action>, n: nat, k: nat, target: AgentId)
    requires k < n <= |actions| && actions[k].target == target
    requires forall j :: k < j < n ==> actions[j].target != target
    ensures LastAction(actions, n, target) == Some(actions[k])
  {
    if k < n - 1 {
      NewestEvidenceDecides(actions, n - 1, k, target);
    }
  }

  /** The retry plan has given the delivery up. */
  predicate GaveUp(retry: Option<R.Retry>) {
    retry.Some? && (retry.value.decision == R.MaxAttemptsReached || retry.value.decision == R.NonRetryableError
                    || retry.value.decision == R.PastExpiry)
  }

  /** The retry plan has it tried again. */
  predicate Goes(retry: Option<R.Retry>) {
    retry.Some? && (retry.value.decision == R.DueNow || retry.value.decision == R.WaitingBackoff)
  }

  /** The delivery was not sent, for another reason than a disabled route. */
  predicate Unsent(a: S.Action) {
    a.simulated == S.NotSent && a.decision != RouteDisabled
  }

  /**
   Each status by what the newest evidence says of a route that is on: a landed delivery is healthy; silence,
   or a rejection that is tried again, or a bare retry, is degraded; what was given up or ended otherwise is
   unavailable; no evidence, or a delivery that is still pending unsent, leaves it unknown.
   */
  lemma StatusTells(route: Route, action: Option<S.Action>, retry: Option<R.Retry>)
    ensures var status := RouteStatus(route, action, retry);
      && (route.mode == Disabled ==> status == SwitchedOff)
      && (route.mode != Disabled && action.Some? ==>
            && (status == SwitchedOff <==>
                  action.value.simulated == S.NotSent && action.value.decision == RouteDisabled)
            && (status == Healthy <==>
                  || action.value.simulated == S.SimAccepted || action.value.simulated == S.SimDuplicate
                  || (Unsent(action.value) && action.value.stateAfter in {Accepted, Duplicate}))
            && (status == Degraded <==>
                  || (action.value.simulated == S.SimNoResponse && !GaveUp(retry))
                  || (action.value.simulated == S.SimRejected && Goes(retry)))
            && (status == Unknown <==> Unsent(action.value) && action.value.stateAfter == Pending)
            && (status == Unavailable <==>
                  || (action.value.simulated == S.SimNoResponse && GaveUp(retry))
                  || (action.value.simulated == S.SimRejected && !Goes(retry))
                  || (Unsent(action.value) && action.value.stateAfter in {Rejected, Expired})))
      && (route.mode != Disabled && action == None ==>
            && status != SwitchedOff
            && (status == Unknown <==> retry == None)
            && (status == Degraded <==> Goes(retry))
            && (status == Healthy <==>
                  retry.Some? && retry.value.decision == R.AlreadyTerminal
                  && (retry.value.state == Accepted || retry.value.state == Duplicate)))
  {
  }

  /** The evidence about a target that comes last, if there is any. */
  ghost predicate NewestAction(actions: seq<S.Action>, target: AgentId, found: Option<S.Action>) {
    if found.Some? then
      exists k :: 0 <= k < |actions| && actions[k] == found.value && actions[k].target == target
        && forall j :: k < j < |actions| ==> actions[j].target != target
    else forall j :: 0 <= j < |actions| ==> actions[j].target != target
  }

  ghost predicate NewestRetry(retries: seq<R.Retry>, target: AgentId, found: Option<R.Retry>) {
    if found.Some? then
      exists k :: 0 <= k < |retries| && retries[k] == found.value && retries[k].target == target
        && forall j :: k < j < |retries| ==> retries[j].target != target
    else forall j :: 0 <= j < |retries| ==> retries[j].target != target
  }

  lemma {:induction false} LastActionIsNewest(actions: seq<S.Action>, n: nat, target: AgentId)
    requires n <= |actions| && forall j :: n <= j < |actions| ==> actions[j].target != target
    ensures NewestAction(actions, target, LastAction(actions, n, target))
  {
    if n > 0 && actions[n - 1].target != target {
      LastActionIsNewest(actions, n - 1, target);
    }
  }

  lemma {:induction false} LastRetryIsNewest(retries: seq<R.Retry>, n: nat, target: AgentId)
    requires n <= |retries| && forall j :: n <= j < |retries| ==> retries[j].target != target
    ensures NewestRetry(retries, target, LastRetry(retries, n, target))
  {
    if n > 0 && retries[n - 1].target != target {
      LastRetryIsNewest(retries, n - 1, target);
    }
  }

  lemma NewestActionIsOne(actions: seq<S.Action>, target: AgentId, a: Option<S.Action>, b: Option<S.Action>)
    requires NewestAction(actions, target, a) && NewestAction(actions, target, b)
    ensures a == b
  {
  }

  lemma NewestRetryIsOne(retries: seq<R.Retry>, target: AgentId, a: Option<R.Retry>, b: Option<R.Retry>)
    requires NewestRetry(retries, target, a) && NewestRetry(retries, target, b)
    ensures a == b
  {
  }

  /** A report judges each route by the newest action and the newest retry toward its target. */
  lemma HealthByNewest(routes: seq<Route>, actions: seq<S.Action>, retries: seq<R.Retry>, i: nat,
                       action: Option<S.Action>, retry: Option<R.Retry>)
    requires i < |routes|
    requires NewestAction(actions, routes[i].target, action) && NewestRetry(retries, routes[i].target, retry)
    ensures HealthOf(routes, actions, retries)[i].status == RouteStatus(routes[i], action, retry)
  {
    LastActionIsNewest(actions, |actions|, routes[i].target);
    LastRetryIsNewest(retries, |retries|, routes[i].target);
    NewestActionIsOne(actions, routes[i].target, action, LastAction(actions, |actions|, routes[i].target));
    NewestRetryIsOne(retries, routes[i].target, retry, LastRetry(retries, |retries|, routes[i].target));
  }
}
