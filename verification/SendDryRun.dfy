/** The send dry run: the plan carried out against synthetic outcomes. */
module SendDryRun {
  import opened Wrappers
  import opened Delivery
  import opened DispatchPlan

  datatype Simulated = SimAccepted | SimDuplicate | SimRejected | SimNoResponse | NotSent

  /** `result` is one of the four outcomes of a send. */
  datatype Outcome = Outcome(target: AgentId, message: string, result: Simulated, reason: Option<string>)

  datatype Outcomes = Outcomes(fleet: string, source: AgentId, outcomes: seq<Outcome>)

  datatype Action = Action(
    id: string,
    target: AgentId,
    message: string,
    decision: Decision,
    simulated: Simulated,
    stateAfter: State,
    reason: Option<string>)

  predicate ValidOutcomes(os: seq<Outcome>) {
    && (forall o :: o in os ==> !o.result.NotSent?)
    && (forall i, j :: 0 <= i < j < |os| ==> os[i].target != os[j].target || os[i].message != os[j].message)
  }

  /** The loop that meets every pair once, each with an outcome of a send. */
  method ValidateOutcomes(os: seq<Outcome>) returns (ok: bool)
    ensures ok <==> ValidOutcomes(os)
  {
    var seen: set<(AgentId, string)> := {};
    for i := 0 to |os|
      invariant forall k :: k in seen <==> exists j :: 0 <= j < i && (os[j].target, os[j].message) == k
      invariant forall j :: 0 <= j < i ==> !os[j].result.NotSent?
      invariant forall j, k :: 0 <= j < k < i ==> os[j].target != os[k].target || os[j].message != os[k].message
    {
      if os[i].result.NotSent? {
        assert os[i] in os;
        return false;
      }
      if (os[i].target, os[i].message) in seen {
        return false;
      }
      seen := seen + {(os[i].target, os[i].message)};
    }
    return true;
  }

  type OutcomeTable = map<(AgentId, string), Outcome>

  /** The table holds the outcomes that the first `n` entries configure. */
  ghost predicate Tabulates(byTarget: OutcomeTable, os: seq<Outcome>, n: nat)
    requires n <= |os|
  {
    forall t, m :: ChosenAmong(os, n, t, m) ==
      if (t, m) in byTarget then byTarget[(t, m)]
      else Outcome(t, m, SimNoResponse, Some("no synthetic outcome configured"))
  }

  /** The outcomes by target and message. */
  method OutcomesByTarget(os: seq<Outcome>) returns (byTarget: OutcomeTable)
    ensures Tabulates(byTarget, os, |os|)
  {
    byTarget := map[];
    for i := 0 to |os|
      invariant Tabulates(byTarget, os, i)
    {
      byTarget := byTarget[(os[i].target, os[i].message) := os[i]];
    }
  }

  function ChosenAmong(os: seq<Outcome>, n: nat, target: AgentId, message: string): (o: Outcome)
    requires n <= |os|
    ensures o.target == target && o.message == message
  {
    if n == 0 then Outcome(target, message, SimNoResponse, Some("no synthetic outcome configured"))
    else if os[n - 1].target == target && os[n - 1].message == message then os[n - 1]
    else ChosenAmong(os, n - 1, target, message)
  }

  /** The configured outcome of a send, or silence. */
  function Chosen(os: seq<Outcome>, target: AgentId, message: string): (o: Outcome)
    ensures o.target == target && o.message == message
  {
    ChosenAmong(os, |os|, target, message)
  }

  /** An absent or empty reason falls back to a default text. */
  function ReasonOr(reason: Option<string>, default: string): string {
    if reason.None? || reason.value == "" then default else reason.value
  }

  /** What a send does to its delivery. */
  function Sent(d: Delivery, o: Outcome, at: int): Delivery {
    match o.result
    case SimAccepted => Received(d, Accepted, o.reason, Some(at))
    case SimDuplicate => Received(d, Duplicate, o.reason, Some(at))
    case SimRejected => Refused(d, ReasonOr(o.reason, "synthetic rejection"), Some(at))
    case SimNoResponse => Unanswered(d, ReasonOr(o.reason, "synthetic no response"), Some(at))
    case NotSent => d
  }

  /** One dispatch carried out: a ready one goes to the first delivery of its pair, at `i`. */
  function SendAt(before: seq<Delivery>, i: nat, p: Dispatch, os: seq<Outcome>, at: int): (after: seq<Delivery>)
    ensures |after| == |before|
  {
    if p.decision.Ready? && i < |before| then before[i := Sent(before[i], Chosen(os, p.target, p.message), at)]
    else before
  }

  /**
   The loop's effect on the deliveries after `n` dispatches of the plan. Sends never change a
   target or a message, so it does not matter that the lookup is done in the list as it was.
   */
  function CarryOut(ds: seq<Delivery>, plan: seq<Dispatch>, n: nat, os: seq<Outcome>, at: int): (es: seq<Delivery>)
    requires n <= |plan|
    ensures |es| == |ds|
    decreases n
  {
    if n == 0 then ds
    else SendAt(CarryOut(ds, plan, n - 1, os, at), FirstMatch(ds, plan[n - 1].target, plan[n - 1].message),
                plan[n - 1], os, at)
  }

  /** Same deliveries in the same places, whatever became of them. */
  ghost predicate SameDeliveries(ds: seq<Delivery>, es: seq<Delivery>) {
    |es| == |ds| && forall i {:trigger es[i]} :: 0 <= i < |ds| ==>
      es[i].id == ds[i].id && es[i].target == ds[i].target && es[i].message == ds[i].message
  }

  lemma SameDeliveriesFirstMatch(ds: seq<Delivery>, es: seq<Delivery>, target: AgentId, message: string)
    requires SameDeliveries(ds, es)
    ensures FirstMatch(es, target, message) == FirstMatch(ds, target, message)
  {
    var i, j := FirstMatch(ds, target, message), FirstMatch(es, target, message);
    FirstMatchIsFirst(ds, target, message);
    FirstMatchIsFirst(es, target, message);
    assert i < |ds| ==> Matches(es[i], target, message);
    assert j < |es| ==> Matches(ds[j], target, message);
  }

  lemma {:induction false} CarryOutKeepsDeliveries(ds: seq<Delivery>, plan: seq<Dispatch>, n: nat, os: seq<Outcome>,
                                                   at: int)
    requires n <= |plan|
    ensures SameDeliveries(ds, CarryOut(ds, plan, n, os, at))
  {
    if n > 0 {
      CarryOutKeepsDeliveries(ds, plan, n - 1, os, at);
    }
  }

  method ApplyReadyOutcome(l: Ledger, p: Dispatch, o: Outcome, at: int)
    returns (r: Result<Ledger, DeliveryError>, action: Action)
    requires o.target == p.target && o.message == p.message && !o.result.NotSent?
    ensures var i := FirstMatch(l.deliveries, p.target, p.message);
      if ValidLedger(l) && i < |l.deliveries| then
        var after := Sent(l.deliveries[i], o, at);
        && r == Ok(l.(deliveries := l.deliveries[i := after]))
        && action == Action(p.id, p.target, p.message, p.decision, o.result, after.state, o.reason)
      else r.Err?
  {
    action := Action(p.id, p.target, p.message, p.decision, o.result, p.state, o.reason);
    match o.result {
      case SimAccepted =>
        r := ApplyReceipt(l, Receipt(l.fleet, p.target, p.message, Accepted, Some(at), o.reason));
      case SimDuplicate =>
        r := ApplyReceipt(l, Receipt(l.fleet, p.target, p.message, Duplicate, Some(at), o.reason));
      case SimRejected =>
        r := ApplyError(l, p.target, p.message, ReasonOr(o.reason, "synthetic rejection"), Some(at));
      case SimNoResponse =>
        r := RecordNoResponse(l, p.target, p.message, ReasonOr(o.reason, "synthetic no response"), Some(at));
    }
    if r.Ok? {
      var found := FindDelivery(r.value, p.target, p.message);
      SameDeliveriesFirstMatch(l.deliveries, r.value.deliveries, p.target, p.message);
      if found.Some? {
        action := action.(stateAfter := r.value.deliveries[found.value].state);
      }
    }
  }

  /** The action logged for a dispatch whose delivery, if it has one, is left as `after[i]`. */
  function ActionAfter(after: seq<Delivery>, i: nat, p: Dispatch, os: seq<Outcome>): Action {
    if p.decision.Ready? && i < |after| then
      var o := Chosen(os, p.target, p.message);
      Action(p.id, p.target, p.message, p.decision, o.result, after[i].state, o.reason)
    else Action(p.id, p.target, p.message, p.decision, NotSent, p.state, p.reason)
  }

  function ActionOf(ds: seq<Delivery>, plan: seq<Dispatch>, k: nat, os: seq<Outcome>, at: int): Action
    requires k < |plan|
  {
    ActionAfter(CarryOut(ds, plan, k + 1, os, at), FirstMatch(ds, plan[k].target, plan[k].message), plan[k], os)
  }

  function Actions(ds: seq<Delivery>, plan: seq<Dispatch>, os: seq<Outcome>, at: int): (acts: seq<Action>)
    ensures |acts| == |plan|
    ensures forall k {:trigger acts[k]} :: 0 <= k < |plan| ==> acts[k] == ActionOf(ds, plan, k, os, at)
  {
    seq(|plan|, k requires 0 <= k < |plan| => ActionOf(ds, plan, k, os, at))
  }

  /** The plan of a ledger has one dispatch a delivery, for the same pair. */
  predicate PlanOf(plan: seq<Dispatch>, ds: seq<Delivery>) {
    |plan| == |ds| && forall k {:trigger plan[k]} :: 0 <= k < |plan| ==> Matches(ds[k], plan[k].target, plan[k].message)
  }

  /** One ready dispatch, looked up in the list as it is by now. */
  method SendReady(l: Ledger, p: Dispatch, byTarget: OutcomeTable, at: int, ghost os: seq<Outcome>,
                   ghost ds: seq<Delivery>)
    returns (after: Ledger, action: Action)
    requires Tabulates(byTarget, os, |os|)
    requires SameDeliveries(ds, l.deliveries) && ValidLedger(l.(deliveries := ds)) && ValidOutcomes(os)
    requires p.decision.Ready? && exists k :: 0 <= k < |ds| && Matches(ds[k], p.target, p.message)
    ensures after == l.(deliveries := SendAt(l.deliveries, FirstMatch(ds, p.target, p.message), p, os, at))
    ensures action == ActionAfter(after.deliveries, FirstMatch(ds, p.target, p.message), p, os)
  {
    ChosenIsAnOutcome(os, p.target, p.message);
    FirstMatchIsFirst(ds, p.target, p.message);
    SameDeliveriesFirstMatch(ds, l.deliveries, p.target, p.message);
    assert ValidLedger(l);
    var chosen := if (p.target, p.message) in byTarget then byTarget[(p.target, p.message)]
                  else Outcome(p.target, p.message, SimNoResponse, Some("no synthetic outcome configured"));
    assert chosen == Chosen(os, p.target, p.message);
    var applied, a := ApplyReadyOutcome(l, p, chosen, at);
    after, action := applied.value, a;
  }

  method CarryOutPlan(l: Ledger, plan: seq<Dispatch>, os: seq<Outcome>, at: int)
    returns (actions: seq<Action>, updated: Ledger)
    requires ValidLedger(l) && ValidOutcomes(os) && PlanOf(plan, l.deliveries)
    ensures updated == l.(deliveries := CarryOut(l.deliveries, plan, |plan|, os, at))
    ensures actions == Actions(l.deliveries, plan, os, at)
  {
    updated, actions := l, [];
    var byTarget := OutcomesByTarget(os);
    for k := 0 to |plan|
      invariant updated == l.(deliveries := CarryOut(l.deliveries, plan, k, os, at))
      invariant |actions| == k
      invariant forall i {:trigger actions[i]} :: 0 <= i < k ==> actions[i] == ActionOf(l.deliveries, plan, i, os, at)
    {
      var p := plan[k];
      if !p.decision.Ready? {
        actions := actions + [Action(p.id, p.target, p.message, p.decision, NotSent, p.state, p.reason)];
      } else {
        CarryOutKeepsDeliveries(l.deliveries, plan, k, os, at);
        assert Matches(l.deliveries[k], p.target, p.message);
        var after, action := SendReady(updated, p, byTarget, at, os, l.deliveries);
        updated, actions := after, actions + [action];
      }
    }
  }

  datatype Report = Report(actions: seq<Action>, updated: Ledger)

  method RunDryRun(l: Ledger, config: RouteConfig, outcomes: Outcomes, now: TimeText)
    returns (r: Result<Report, DeliveryError>)
    ensures r.Ok? <==> ValidOutcomes(outcomes.outcomes) && outcomes.fleet == l.fleet && outcomes.source == l.source
                       && ValidLedger(l) && ValidRoutes(config) && config.fleet == l.fleet && config.source == l.source
                       && now.Some? && ExpiriesReadable(l.deliveries)
    ensures r.Ok? ==>
      var ds := ExpireAll(l.deliveries, now.value);
      var plan := Plan(ds, config.routes);
      && r.value.updated == l.(deliveries := CarryOut(ds, plan, |plan|, outcomes.outcomes, now.value))
      && r.value.actions == Actions(ds, plan, outcomes.outcomes, now.value)
  {
    var valid := ValidateOutcomes(outcomes.outcomes);
    if !valid {
      return Err(BadOutcomes);
    }
    if outcomes.fleet != l.fleet {
      return Err(FleetMismatch);
    }
    if outcomes.source != l.source {
      return Err(SourceMismatch);
    }
    var planned := BuildDispatchPlan(l, config, now);
    if planned.Err? {
      return Err(planned.error);
    }
    var plan := planned.value;
    var refreshed := ExpirePending(l, now);
    var actions, updated := CarryOutPlan(refreshed.value, plan, outcomes.outcomes, now.value);
    return Ok(Report(actions, updated));
  }

  lemma {:induction false} ChosenAmongIsAnOutcome(os: seq<Outcome>, n: nat, target: AgentId, message: string)
    requires n <= |os| && forall o :: o in os ==> !o.result.NotSent?
    ensures !ChosenAmong(os, n, target, message).result.NotSent?
  {
    if n > 0 {
      assert os[n - 1] in os;
      ChosenAmongIsAnOutcome(os, n - 1, target, message);
    }
  }

  lemma ChosenIsAnOutcome(os: seq<Outcome>, target: AgentId, message: string)
    requires ValidOutcomes(os)
    ensures !Chosen(os, target, message).result.NotSent?
  {
    ChosenAmongIsAnOutcome(os, |os|, target, message);
  }

  // ---------------------------------------------------------------- what a dry run preserves

  /** No delivery before this one is for the same target and message. */
  ghost predicate NoTwinBefore(ds: seq<Delivery>, i: nat)
    requires i < |ds|
  {
    forall j :: 0 <= j < i ==> !Matches(ds[j], ds[i].target, ds[i].message)
  }

  predicate IsReady(d: Delivery, routes: seq<Route>) {
    DispatchFor(d, routes).decision.Ready?
  }

  /** Every delivery that will be sent is the first one of its (target, message) pair. */
  ghost predicate ReadyComeFirst(ds: seq<Delivery>, routes: seq<Route>) {
    forall i {:trigger IsReady(ds[i], routes)} :: 0 <= i < |ds| && IsReady(ds[i], routes) ==> NoTwinBefore(ds, i)
  }

  lemma FirstIsSelfIff(ds: seq<Delivery>, i: nat)
    requires i < |ds|
    ensures FirstMatch(ds, ds[i].target, ds[i].message) <= i
    ensures FirstMatch(ds, ds[i].target, ds[i].message) == i <==> NoTwinBefore(ds, i)
  {
    FirstMatchIsFirst(ds, ds[i].target, ds[i].message);
  }

  /** The delivery a run leaves at position `i`, if sends go where they are meant to. */
  function Meant(d: Delivery, routes: seq<Route>, os: seq<Outcome>, at: int): Delivery {
    if IsReady(d, routes) then Sent(d, Chosen(os, d.target, d.message), at) else d
  }

  /** Every dispatch is for the delivery in its place, which is the first of its pair if it is to be sent. */
  ghost predicate AimsTrue(ds: seq<Delivery>, plan: seq<Dispatch>) {
    |plan| == |ds| && forall k: nat {:trigger plan[k]} :: k < |plan| ==>
      && plan[k].target == ds[k].target && plan[k].message == ds[k].message
      && (plan[k].decision.Ready? ==> NoTwinBefore(ds, k))
  }

  lemma {:induction false} CarriedOutAt(ds: seq<Delivery>, plan: seq<Dispatch>, os: seq<Outcome>, at: int, n: nat,
                                        i: nat)
    requires AimsTrue(ds, plan) && n <= |ds| && i < |ds|
    ensures CarryOut(ds, plan, n, os, at)[i]
         == if i < n && plan[i].decision.Ready? then Sent(ds[i], Chosen(os, ds[i].target, ds[i].message), at) else ds[i]
  {
    if n > 0 {
      CarriedOutAt(ds, plan, os, at, n - 1, i);
      if plan[n - 1].decision.Ready? {
        FirstIsSelfIff(ds, n - 1);
      }
    }
  }

  lemma DispatchNames(d: Delivery, routes: seq<Route>)
    ensures DispatchFor(d, routes).target == d.target && DispatchFor(d, routes).message == d.message
  {
  }

  lemma PlanAimsTrue(ds: seq<Delivery>, routes: seq<Route>)
    requires ReadyComeFirst(ds, routes)
    ensures AimsTrue(ds, Plan(ds, routes))
  {
    var plan := Plan(ds, routes);
    forall k: nat {:trigger plan[k]} | k < |plan|
      ensures plan[k].target == ds[k].target && plan[k].message == ds[k].message
      ensures plan[k].decision.Ready? ==> NoTwinBefore(ds, k)
    {
      DispatchNames(ds[k], routes);
      assert plan[k].decision.Ready? ==> IsReady(ds[k], routes);
    }
  }

  lemma CarriedOutAsMeant(ds: seq<Delivery>, routes: seq<Route>, os: seq<Outcome>, at: int, n: nat, i: nat)
    requires n <= |ds| && i < |ds| && ReadyComeFirst(ds, routes)
    ensures CarryOut(ds, Plan(ds, routes), n, os, at)[i] == if i < n then Meant(ds[i], routes, os, at) else ds[i]
  {
    PlanAimsTrue(ds, routes);
    CarriedOutAt(ds, Plan(ds, routes), os, at, n, i);
    assert Plan(ds, routes)[i] == DispatchFor(ds[i], routes);
  }

  /** A delivery behind another of its pair is never touched. */
  lemma {:induction false} LaterTwinsUntouched(ds: seq<Delivery>, plan: seq<Dispatch>, os: seq<Outcome>, at: int,
                                               i: nat, n: nat)
    requires i < |ds| && !NoTwinBefore(ds, i) && n <= |plan|
    ensures CarryOut(ds, plan, n, os, at)[i] == ds[i]
  {
    if n > 0 {
      LaterTwinsUntouched(ds, plan, os, at, i, n - 1);
      FirstMatchIsFirst(ds, plan[n - 1].target, plan[n - 1].message);
    }
  }

  /** Each delivery was attempted once more if its dispatch was ready, and not at all otherwise. */
  ghost predicate AttemptsMatchPlan(ds: seq<Delivery>, es: seq<Delivery>, routes: seq<Route>) {
    |es| == |ds| && forall i :: 0 <= i < |ds| ==>
      es[i].attempts == ds[i].attempts + if IsReady(ds[i], routes) then 1 else 0
  }

  /**
   The attempt counts follow the plan exactly when no delivery to be sent stands behind another
   one for the same target and message.
   */
  lemma AttemptsMatchPlanIff(ds: seq<Delivery>, routes: seq<Route>, os: seq<Outcome>, at: int)
    requires ValidOutcomes(os)
    ensures AttemptsMatchPlan(ds, CarryOut(ds, Plan(ds, routes), |ds|, os, at), routes) <==> ReadyComeFirst(ds, routes)
  {
    var plan := Plan(ds, routes);
    if ReadyComeFirst(ds, routes) {
      forall i | 0 <= i < |ds|
        ensures CarryOut(ds, plan, |ds|, os, at)[i].attempts
             == ds[i].attempts + if IsReady(ds[i], routes) then 1 else 0
      {
        CarriedOutAsMeant(ds, routes, os, at, |ds|, i);
        ChosenIsAnOutcome(os, ds[i].target, ds[i].message);
      }
    } else {
      var i :| 0 <= i < |ds| && IsReady(ds[i], routes) && !NoTwinBefore(ds, i);
      LaterTwinsUntouched(ds, plan, os, at, i, |ds|);
    }
  }

  /** One action of a plan that aims true. */
  lemma ActionAimsTrue(ds: seq<Delivery>, plan: seq<Dispatch>, os: seq<Outcome>, at: int, i: nat)
    requires AimsTrue(ds, plan) && i < |ds|
    ensures var act := ActionOf(ds, plan, i, os, at);
      if plan[i].decision.Ready? then
        var o := Chosen(os, ds[i].target, ds[i].message);
        act.id == plan[i].id && act.simulated == o.result && act.stateAfter == Sent(ds[i], o, at).state
      else act.id == plan[i].id && act.simulated == NotSent && act.stateAfter == plan[i].state
  {
    CarriedOutAt(ds, plan, os, at, i + 1, i);
    if plan[i].decision.Ready? {
      FirstIsSelfIff(ds, i);
    }
  }

  /** The action for a delivery, once nothing but its own send can reach it. */
  lemma ActionReports(ds: seq<Delivery>, routes: seq<Route>, os: seq<Outcome>, at: int, i: nat)
    requires ValidOutcomes(os) && ReadyComeFirst(ds, routes) && i < |ds|
    ensures var act := Actions(ds, Plan(ds, routes), os, at)[i];
      var ready := IsReady(ds[i], routes);
      && act.id == ds[i].id
      && act.stateAfter == Meant(ds[i], routes, os, at).state
      && act.simulated == if ready then Chosen(os, ds[i].target, ds[i].message).result else NotSent
  {
    PlanAimsTrue(ds, routes);
    ActionAimsTrue(ds, Plan(ds, routes), os, at, i);
    assert Plan(ds, routes)[i] == DispatchFor(ds[i], routes);
    DispatchKeepsId(ds[i], routes);
  }

  lemma DispatchKeepsId(d: Delivery, routes: seq<Route>)
    ensures DispatchFor(d, routes).id == d.id && DispatchFor(d, routes).state == d.state
  {
  }

  /**
   With no such twins: order, ids, targets and messages stay, terminal deliveries and those not
   sent are untouched, and the state each action reports is the final state of its delivery.
   */
  lemma DryRunConserves(ds: seq<Delivery>, routes: seq<Route>, os: seq<Outcome>, at: int)
    requires ValidOutcomes(os) && ReadyComeFirst(ds, routes)
    ensures var es, acts := CarryOut(ds, Plan(ds, routes), |ds|, os, at), Actions(ds, Plan(ds, routes), os, at);
      && SameDeliveries(ds, es) && |acts| == |ds|
      && (forall i :: 0 <= i < |ds| ==> es[i] == Meant(ds[i], routes, os, at) && acts[i].stateAfter == es[i].state)
      && (forall i :: 0 <= i < |ds| && Terminal(ds[i].state) ==> es[i] == ds[i] && acts[i].simulated.NotSent?)
  {
    CarryOutKeepsDeliveries(ds, Plan(ds, routes), |ds|, os, at);
    forall i | 0 <= i < |ds|
      ensures CarryOut(ds, Plan(ds, routes), |ds|, os, at)[i] == Meant(ds[i], routes, os, at)
      ensures Actions(ds, Plan(ds, routes), os, at)[i].stateAfter == Meant(ds[i], routes, os, at).state
      ensures Terminal(ds[i].state) ==> Actions(ds, Plan(ds, routes), os, at)[i].simulated.NotSent?
    {
      CarriedOutAsMeant(ds, routes, os, at, |ds|, i);
      ActionReports(ds, routes, os, at, i);
    }
  }

  // ---------------------------------------------------------------- what each outcome does

  predicate ListedFor(os: seq<Outcome>, d: Delivery, o: Outcome) {
    o in os && o.target == d.target && o.message == d.message
  }

  /** A listed outcome is the one chosen; with none listed there is silence. */
  lemma {:induction false} ChosenIsListed(os: seq<Outcome>, n: nat, d: Delivery)
    requires ValidOutcomes(os) && n <= |os|
    ensures var o := ChosenAmong(os, n, d.target, d.message);
      if exists k :: 0 <= k < n && ListedFor(os, d, os[k]) then ListedFor(os, d, o)
      else o.result == SimNoResponse && o.reason == Some("no synthetic outcome configured")
  {
    if n > 0 {
      ChosenIsListed(os, n - 1, d);
      assert os[n - 1] in os;
    }
  }

  lemma ListedIsOne(os: seq<Outcome>, d: Delivery, o: Outcome, x: Outcome)
    requires ValidOutcomes(os) && ListedFor(os, d, o) && ListedFor(os, d, x)
    ensures o == x
  {
    var i :| 0 <= i < |os| && os[i] == o;
    var j :| 0 <= j < |os| && os[j] == x;
  }

  /** The error kept with the delivery: the outcome's reason, or the default where it gives none. */
  predicate Explains(error: Option<string>, reason: Option<string>, default: string) {
    error == if reason == None || reason == Some("") then Some(default) else reason
  }

  /** The delivery after a send with this outcome, field by field. */
  predicate SentEffect(d: Delivery, e: Delivery, result: Simulated, reason: Option<string>, at: int) {
    && e.id == d.id && e.target == d.target && e.message == d.message && e.expiresAt == d.expiresAt
    && e.attempts == d.attempts + 1 && e.lastAttemptAt == Some(Some(at))
    && (result == SimAccepted ==> e.state == Accepted && e.lastReceipt == Some(Accepted) && e.lastError == reason)
    && (result == SimDuplicate ==> e.state == Duplicate && e.lastReceipt == Some(Duplicate) && e.lastError == reason)
    && (result == SimRejected ==>
          e.state == Rejected && e.lastReceipt == None && Explains(e.lastError, reason, "synthetic rejection"))
    && (result == SimNoResponse ==>
          e.state == d.state && e.lastReceipt == None && Explains(e.lastError, reason, "synthetic no response"))
  }

  lemma SentHasEffect(d: Delivery, o: Outcome, at: int)
    requires !o.result.NotSent?
    ensures SentEffect(d, Sent(d, o, at), o.result, o.reason, at)
  {
  }

  /** The delivery was sent with the outcome listed for it, or with silence if none is, and the action says so. */
  ghost predicate SentAsListed(os: seq<Outcome>, d: Delivery, e: Delivery, act: Action, at: int) {
    && act.stateAfter == e.state
    && (forall o :: ListedFor(os, d, o) ==>
          SentEffect(d, e, o.result, o.reason, at) && act.simulated == o.result && act.reason == o.reason)
    && ((forall o :: !ListedFor(os, d, o)) ==>
          && SentEffect(d, e, SimNoResponse, Some("no synthetic outcome configured"), at)
          && act.simulated == SimNoResponse && act.reason == Some("no synthetic outcome configured"))
  }

  /** Pending, with a configured route that is on. */
  predicate Sendable(d: Delivery, routes: seq<Route>) {
    d.state == Pending && (RoutedBy(routes, d.target, Loopback) || RoutedBy(routes, d.target, FileDrop))
  }

  /**
   Every delivery after the run, if no delivery to be sent stands behind another for its target and message:
   one that is pending over a route that is on is sent as listed for it; any other is untouched.
   */
  lemma DryRunSendsAsListed(ds: seq<Delivery>, config: RouteConfig, os: seq<Outcome>, at: int, i: nat)
    requires ValidOutcomes(os) && ValidRoutes(config) && ReadyComeFirst(ds, config.routes) && i < |ds|
    ensures var plan := Plan(ds, config.routes);
      var e, act := CarryOut(ds, plan, |ds|, os, at)[i], Actions(ds, plan, os, at)[i];
      && act.id == ds[i].id && act.target == ds[i].target && act.message == ds[i].message
      && if Sendable(ds[i], config.routes) then SentAsListed(os, ds[i], e, act, at)
         else e == ds[i] && act.simulated == NotSent && act.stateAfter == ds[i].state
  {
    var d, routes := ds[i], config.routes;
    DispatchTells(d, config);
    CarriedOutAsMeant(ds, routes, os, at, |ds|, i);
    ActionReports(ds, routes, os, at, i);
    ActionIsMeant(ds, routes, os, at, i);
    if Sendable(d, routes) {
      ChosenAsListed(os, d, at);
    }
  }

  lemma ChosenAsListed(os: seq<Outcome>, d: Delivery, at: int)
    requires ValidOutcomes(os)
    ensures var o := Chosen(os, d.target, d.message);
      && SentEffect(d, Sent(d, o, at), o.result, o.reason, at)
      && (forall x :: ListedFor(os, d, x) ==> x == o)
      && ((forall x :: !ListedFor(os, d, x)) ==>
            o.result == SimNoResponse && o.reason == Some("no synthetic outcome configured"))
  {
    var o := Chosen(os, d.target, d.message);
    ChosenIsAnOutcome(os, d.target, d.message);
    SentHasEffect(d, o, at);
    ChosenIsListed(os, |os|, d);
    forall x | ListedFor(os, d, x) ensures x == o {
      var k :| 0 <= k < |os| && os[k] == x;
      ListedIsOne(os, d, x, o);
    }
  }

  /** The other fields of an action. */
  lemma ActionIsMeant(ds: seq<Delivery>, routes: seq<Route>, os: seq<Outcome>, at: int, i: nat)
    requires ReadyComeFirst(ds, routes) && i < |ds|
    ensures var act := Actions(ds, Plan(ds, routes), os, at)[i];
      && act.id == ds[i].id && act.target == ds[i].target && act.message == ds[i].message
      && (IsReady(ds[i], routes) ==> act.reason == Chosen(os, ds[i].target, ds[i].message).reason)
  {
    PlanAimsTrue(ds, routes);
    assert Plan(ds, routes)[i] == DispatchFor(ds[i], routes);
    DispatchNames(ds[i], routes);
    DispatchKeepsId(ds[i], routes);
    if IsReady(ds[i], routes) {
      FirstIsSelfIff(ds, i);
    }
  }

  /** Two deliveries of one message: the send meant for the second is booked on the finished first. */
  lemma TwinTakesTheSend(first: Delivery, second: Delivery, route: Route, at: int)
    requires first.target == second.target == route.target && first.message == second.message
    requires first.state.Rejected? && second.state.Pending? && !route.mode.Disabled?
    ensures var ds, os := [first, second], [Outcome(route.target, first.message, SimAccepted, None)];
      var es := CarryOut(ds, Plan(ds, [route]), 2, os, at);
      es[0].state == Accepted && es[0].attempts == first.attempts + 1 && es[1] == second
  {
    var ds, os := [first, second], [Outcome(route.target, first.message, SimAccepted, None)];
    var plan := Plan(ds, [route]);
    assert RouteFor([route], route.target) == Some(route);
    assert plan == [DispatchFor(first, [route]), DispatchFor(second, [route])];
    assert CarryOut(ds, plan, 1, os, at) == ds;
  }

  // ---------------------------------------------------------------- accounting

  function Tally(n: nat, counts: nat -> bool): nat {
    if n == 0 then 0 else Tally(n - 1, counts) + if counts(n - 1) then 1 else 0
  }

  datatype Summary = Summary(accepted: nat, duplicate: nat, rejected: nat, noResponse: nat, notSent: nat)

  function Simulates(acts: seq<Action>, s: Simulated): nat -> bool {
    (i: nat) => i < |acts| && acts[i].simulated == s
  }

  method SummarizeActions(acts: seq<Action>) returns (s: Summary)
    ensures s.accepted == Tally(|acts|, Simulates(acts, SimAccepted))
    ensures s.duplicate == Tally(|acts|, Simulates(acts, SimDuplicate))
    ensures s.rejected == Tally(|acts|, Simulates(acts, SimRejected))
    ensures s.noResponse == Tally(|acts|, Simulates(acts, SimNoResponse))
    ensures s.notSent == Tally(|acts|, Simulates(acts, NotSent))
    ensures s.accepted + s.duplicate + s.rejected + s.noResponse + s.notSent == |acts|
  {
    s := Summary(0, 0, 0, 0, 0);
    for i := 0 to |acts|
      invariant s.accepted == Tally(i, Simulates(acts, SimAccepted))
      invariant s.duplicate == Tally(i, Simulates(acts, SimDuplicate))
      invariant s.rejected == Tally(i, Simulates(acts, SimRejected))
      invariant s.noResponse == Tally(i, Simulates(acts, SimNoResponse))
      invariant s.notSent == Tally(i, Simulates(acts, NotSent))
      invariant s.accepted + s.duplicate + s.rejected + s.noResponse + s.notSent == i
    {
      match acts[i].simulated {
        case SimAccepted => s := s.(accepted := s.accepted + 1);
        case SimDuplicate => s := s.(duplicate := s.duplicate + 1);
        case SimRejected => s := s.(rejected := s.rejected + 1);
        case SimNoResponse => s := s.(noResponse := s.noResponse + 1);
        case NotSent => s := s.(notSent := s.notSent + 1);
      }
    }
  }

  function InState(ds: seq<Delivery>, s: State): nat -> bool {
    (i: nat) => i < |ds| && ds[i].state == s
  }

  function NewlyExpired(ds: seq<Delivery>, now: int): nat -> bool {
    (i: nat) => i < |ds| && Overdue(ds[i], now)
  }

  function One(b: bool): nat {
    if b then 1 else 0
  }

  lemma {:induction false} TallyBalances(n: nat, p: nat -> bool, q: nat -> bool, x: nat -> bool, a: nat -> bool,
                                         b: nat -> bool, c: nat -> bool)
    requires forall i: nat :: i < n ==> One(p(i)) == One(q(i)) + One(x(i)) + One(a(i)) + One(b(i)) + One(c(i))
    ensures Tally(n, p) == Tally(n, q) + Tally(n, x) + Tally(n, a) + Tally(n, b) + Tally(n, c)
  {
    if n > 0 {
      TallyBalances(n - 1, p, q, x, a, b, c);
      assert One(p(n - 1)) == One(q(n - 1)) + One(x(n - 1)) + One(a(n - 1)) + One(b(n - 1)) + One(c(n - 1));
    }
  }

  /** One delivery before, after expiry, and as meant to be sent. */
  lemma OneIsAccountedFor(d: Delivery, routes: seq<Route>, os: seq<Outcome>, now: int)
    requires ValidOutcomes(os)
    ensures var live := ExpireOne(d, now);
      var sim := if IsReady(live, routes) then Chosen(os, live.target, live.message).result else NotSent;
      One(d.state.Pending?)
      == One(Meant(live, routes, os, now).state.Pending?) + One(Overdue(d, now))
         + One(sim.SimAccepted?) + One(sim.SimDuplicate?) + One(sim.SimRejected?)
  {
    ChosenIsAnOutcome(os, d.target, d.message);
  }

  /** Every delivery pending before the run is pending after it, newly expired, or settled by one of its sends. */
  lemma PendingIsAccountedFor(ds: seq<Delivery>, routes: seq<Route>, os: seq<Outcome>, now: int)
    requires ValidOutcomes(os) && ReadyComeFirst(ExpireAll(ds, now), routes)
    ensures var live := ExpireAll(ds, now);
      var es, acts := CarryOut(live, Plan(live, routes), |live|, os, now), Actions(live, Plan(live, routes), os, now);
      Tally(|ds|, InState(ds, Pending))
      == Tally(|ds|, InState(es, Pending)) + Tally(|ds|, NewlyExpired(ds, now))
         + Tally(|ds|, Simulates(acts, SimAccepted)) + Tally(|ds|, Simulates(acts, SimDuplicate))
         + Tally(|ds|, Simulates(acts, SimRejected))
  {
    var live := ExpireAll(ds, now);
    var es, acts := CarryOut(live, Plan(live, routes), |live|, os, now), Actions(live, Plan(live, routes), os, now);
    var p, q, x := InState(ds, Pending), InState(es, Pending), NewlyExpired(ds, now);
    var a, b, c := Simulates(acts, SimAccepted), Simulates(acts, SimDuplicate), Simulates(acts, SimRejected);
    forall i: nat | i < |ds|
      ensures One(p(i)) == One(q(i)) + One(x(i)) + One(a(i)) + One(b(i)) + One(c(i))
    {
      OneIsAccountedFor(ds[i], routes, os, now);
      CarriedOutAsMeant(live, routes, os, now, |live|, i);
      ActionReports(live, routes, os, now, i);
    }
    TallyBalances(|ds|, p, q, x, a, b, c);
  }
}
