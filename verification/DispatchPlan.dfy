/** The dispatch plan: what the sender would do about each delivery, given its routes. */
module DispatchPlan {
  import opened Wrappers
  import opened Delivery

  datatype Mode = FileDrop | Loopback | Disabled

  datatype Route = Route(target: AgentId, mode: Mode, address: string)

  datatype RouteConfig = RouteConfig(fleet: string, source: AgentId, routes: seq<Route>)

  datatype Decision = Ready | SkippedTerminal | PastExpiry | MissingRoute | RouteDisabled

  datatype Send = PostGossip | CopyEnvelope | NoSend

  datatype Dispatch = Dispatch(
    id: string,
    target: AgentId,
    message: string,
    state: State,
    decision: Decision,
    mode: Option<Mode>,
    send: Send,
    address: Option<string>,
    attempts: nat,
    reason: Option<string>)

  predicate ValidRoutes(config: RouteConfig) {
    forall i, j :: 0 <= i < j < |config.routes| ==> config.routes[i].target != config.routes[j].target
  }

  /** The loop that meets every target once. */
  method ValidateRoutes(config: RouteConfig) returns (ok: bool)
    ensures ok <==> ValidRoutes(config)
  {
    var seen: set<AgentId> := {};
    for i := 0 to |config.routes|
      invariant forall t :: t in seen <==> exists j :: 0 <= j < i && config.routes[j].target == t
      invariant forall j, k :: 0 <= j < k < i ==> config.routes[j].target != config.routes[k].target
    {
      if config.routes[i].target in seen {
        return false;
      }
      seen := seen + {config.routes[i].target};
    }
    return true;
  }

  /** The last of the first `n` routes that leads to the target. */
  function RouteAmong(routes: seq<Route>, n: nat, target: AgentId): Option<Route>
    requires n <= |routes|
  {
    if n == 0 then None
    else if routes[n - 1].target == target then Some(routes[n - 1])
    else RouteAmong(routes, n - 1, target)
  }

  function RouteFor(routes: seq<Route>, target: AgentId): Option<Route> {
    RouteAmong(routes, |routes|, target)
  }

  /** With unique targets the lookup finds exactly the configured route. */
  lemma {:induction false} RouteForFinds(routes: seq<Route>, n: nat, target: AgentId)
    requires n <= |routes| && forall i, j :: 0 <= i < j < |routes| ==> routes[i].target != routes[j].target
    ensures RouteAmong(routes, n, target).None? <==> forall i :: 0 <= i < n ==> routes[i].target != target
    ensures forall i :: 0 <= i < n && routes[i].target == target ==> RouteAmong(routes, n, target) == Some(routes[i])
  {
    if n > 0 {
      RouteForFinds(routes, n - 1, target);
    }
  }

  /** The routes by their targets. */
  method RoutesByTarget(routes: seq<Route>) returns (byTarget: map<AgentId, Route>)
    ensures forall t :: RouteFor(routes, t) == if t in byTarget then Some(byTarget[t]) else None
  {
    byTarget := map[];
    for i := 0 to |routes|
      invariant forall t :: RouteAmong(routes, i, t) == if t in byTarget then Some(byTarget[t]) else None
    {
      byTarget := byTarget[routes[i].target := routes[i]];
    }
  }

  function Entry(d: Delivery, decision: Decision, route: Option<Route>, reason: Option<string>): Dispatch {
    var mode := if route.Some? then Some(route.value.mode) else None;
    var send := if mode == Some(Loopback) then PostGossip else if mode == Some(FileDrop) then CopyEnvelope else NoSend;
    Dispatch(d.id, d.target, d.message, d.state, decision, mode, send,
             if send.NoSend? then None else Some(route.value.address), d.attempts, reason)
  }

  /** The entry with the way to send it, if its route has one. */
  method DispatchEntry(d: Delivery, decision: Decision, route: Option<Route>, reason: Option<string>)
    returns (entry: Dispatch)
    ensures entry == Entry(d, decision, route, reason)
  {
    entry := Dispatch(d.id, d.target, d.message, d.state, decision, None, NoSend, None, d.attempts, reason);
    if route.Some? {
      entry := entry.(mode := Some(route.value.mode));
      match route.value.mode {
        case Loopback => entry := entry.(send := PostGossip, address := Some(route.value.address));
        case FileDrop => entry := entry.(send := CopyEnvelope, address := Some(route.value.address));
        case Disabled =>
      }
    }
  }

  function DispatchFor(d: Delivery, routes: seq<Route>): Dispatch {
    var route := RouteFor(routes, d.target);
    if d.state.Expired? then Entry(d, PastExpiry, route, Some("delivery expired"))
    else if Terminal(d.state) then Entry(d, SkippedTerminal, route, Some("delivery already terminal"))
    else if route.None? then Entry(d, MissingRoute, None, Some("no configured route for target"))
    else if route.value.mode.Disabled? then Entry(d, RouteDisabled, route, Some("route disabled"))
    else Entry(d, Ready, route, None)
  }

  function Plan(ds: seq<Delivery>, routes: seq<Route>): (plan: seq<Dispatch>)
    ensures |plan| == |ds|
    ensures forall i {:trigger plan[i]} :: 0 <= i < |ds| ==> plan[i] == DispatchFor(ds[i], routes)
  {
    seq(|ds|, i requires 0 <= i < |ds| => DispatchFor(ds[i], routes))
  }

  /** The plan looks at the deliveries as they are once the overdue ones have expired. */
  method BuildDispatchPlan(l: Ledger, config: RouteConfig, now: TimeText)
    returns (r: Result<seq<Dispatch>, DeliveryError>)
    ensures r == if !ValidLedger(l) then Err(DuplicateDeliveryId)
                 else if !ValidRoutes(config) then Err(BadRoutes)
                 else if config.fleet != l.fleet then Err(FleetMismatch)
                 else if config.source != l.source then Err(SourceMismatch)
                 else if now.None? || !ExpiriesReadable(l.deliveries) then Err(UnreadableTime)
                 else Ok(Plan(ExpireAll(l.deliveries, now.value), config.routes))
  {
    var valid := ValidateState(l);
    if !valid {
      return Err(DuplicateDeliveryId);
    }
    valid := ValidateRoutes(config);
    if !valid {
      return Err(BadRoutes);
    }
    if config.fleet != l.fleet {
      return Err(FleetMismatch);
    }
    if config.source != l.source {
      return Err(SourceMismatch);
    }
    var refreshed := ExpirePending(l, now);
    if refreshed.Err? {
      return Err(refreshed.error);
    }
    var ds := refreshed.value.deliveries;
    var byTarget := RoutesByTarget(config.routes);
    var plan: seq<Dispatch> := [];
    for i := 0 to |ds|
      invariant plan == Plan(ds[..i], config.routes)
    {
      assert ds[..i + 1] == ds[..i] + [ds[i]];
      var d := ds[i];
      var entry: Dispatch;
      var route := if d.target in byTarget then Some(byTarget[d.target]) else None;
      if d.state.Expired? {
        entry := DispatchEntry(d, PastExpiry, route, Some("delivery expired"));
      } else if Terminal(d.state) {
        entry := DispatchEntry(d, SkippedTerminal, route, Some("delivery already terminal"));
      } else if route.None? {
        entry := DispatchEntry(d, MissingRoute, None, Some("no configured route for target"));
      } else if route.value.mode.Disabled? {
        entry := DispatchEntry(d, RouteDisabled, route, Some("route disabled"));
      } else {
        entry := DispatchEntry(d, Ready, route, None);
      }
      plan := plan + [entry];
    }
    assert ds[..|ds|] == ds;
    return Ok(plan);
  }

  /** A delivery is dispatched exactly when it is live, unexpired, and its route is configured and enabled. */
  lemma ReadyIff(d: Delivery, routes: seq<Route>, now: int)
    requires ExpiryReadable(d)
    ensures DispatchFor(ExpireOne(d, now), routes).decision.Ready?
       <==> d.state.Pending? && now < d.expiresAt.value
            && RouteFor(routes, d.target).Some? && !RouteFor(routes, d.target).value.mode.Disabled?
    ensures DispatchFor(d, routes).send.NoSend? <==>
      RouteFor(routes, d.target).None? || RouteFor(routes, d.target).value.mode.Disabled?
  {
  }

  predicate RoutedBy(routes: seq<Route>, target: AgentId, mode: Mode) {
    exists r :: r in routes && r.target == target && r.mode == mode
  }

  /** What the plan says of a delivery, by its state and the route to its target. */
  lemma DispatchTells(d: Delivery, config: RouteConfig)
    requires ValidRoutes(config)
    ensures var p := DispatchFor(d, config.routes);
      && p.id == d.id && p.target == d.target && p.message == d.message && p.state == d.state
      && p.attempts == d.attempts
      && (p.decision.PastExpiry? <==> d.state == Expired)
      && (p.decision.SkippedTerminal? <==> d.state == Accepted || d.state == Duplicate || d.state == Rejected)
      && (p.decision.MissingRoute? <==> d.state == Pending && forall r :: r in config.routes ==> r.target != d.target)
      && (p.decision.RouteDisabled? <==> d.state == Pending && RoutedBy(config.routes, d.target, Disabled))
      && (p.decision.Ready? <==> d.state == Pending && (RoutedBy(config.routes, d.target, Loopback)
                                                       || RoutedBy(config.routes, d.target, FileDrop)))
    ensures forall r :: r in config.routes && r.target == d.target ==>
      WayTells(DispatchFor(d, config.routes), r)
    ensures (forall r :: r in config.routes ==> r.target != d.target) ==>
      var p := DispatchFor(d, config.routes); p.mode == None && p.send == NoSend && p.address == None
  {
    var routes := config.routes;
    RouteForFinds(routes, |routes|, d.target);
    if RouteFor(routes, d.target).Some? {
      var i :| 0 <= i < |routes| && routes[i].target == d.target;
      forall r | r in routes && r.target == d.target ensures r == routes[i] {
        var k :| 0 <= k < |routes| && routes[k] == r;
      }
    }
  }

  /** The dispatch names the route's mode, and its address where something is sent over it. */
  predicate WayTells(p: Dispatch, r: Route) {
    && p.mode == Some(r.mode)
    && (r.mode.Loopback? ==> p.send == PostGossip && p.address == Some(r.address))
    && (r.mode.FileDrop? ==> p.send == CopyEnvelope && p.address == Some(r.address))
    && (r.mode.Disabled? ==> p.send == NoSend && p.address == None)
  }
}
