/** The gates an agent applies to a command before it runs it. */
module AgentPolicy {
  import opened Wrappers
  import opened FleetControl
  import opened MirrorAudit
  import FleetDelivery

  /** A configured remote session lease; `None` fields are absent. */
  datatype SessionLease = SessionLease(
    leaseId: string,
    revoked: bool,
    fleet: Option<string>,
    agent: Option<AgentId>,
    expiresAt: Time,
    scopes: Option<seq<string>>,
    requiresLocalAdb: Option<bool>)

  datatype TtlLimit = NoLimit | BadLimit | Seconds(limit: int)

  /** What the agent allows one mirror source; a list is `None` when it is no list of texts. */
  datatype Binding = Binding(
    enabled: bool,
    leaseIds: Option<seq<string>>,
    kinds: Option<seq<string>>,
    maxTtl: TtlLimit,
    requireVisibleSession: bool,
    requireLocalAdb: bool,
    launchComponents: Option<seq<string>>,
    scenarios: Option<seq<string>>)

  datatype Config = Config(
    agent: AgentId,
    fleet: string,
    allowedKinds: seq<string>,
    sessionLeases: seq<SessionLease>,
    bindings: map<AgentId, Binding>,
    visibleSessionActive: bool,
    localAdbEnabled: bool)

  /** `ParserRaises` is the one that is no answer: the error of the time parser leaves the agent's round. */
  datatype Refusal =
    | WrongSchema
    | WrongAgent
    | CommandExpired
    | ParserRaises
    | KindDenied
    | SessionLeaseAbsent
    | SessionLeaseInactive
    | SessionLeaseRevoked
    | SessionLeaseWrongFleet
    | SessionLeaseWrongAgent
    | SessionLeaseMissingExpiry
    | SessionLeaseExpired
    | SessionLeaseBadExpiry
    | SessionLeaseBadScopes
    | SessionLeaseScopeDenied
    | SessionLeaseDisallowsAdb
    | OriginMissing
    | SourceMissing
    | IntentMissing
    | SourceNotBound
    | BindingDisabled
    | PolicyBadLeaseIds
    | LeaseNotBound
    | PolicyBadKinds
    | KindNotBound
    | PolicyBadTtl
    | TtlInvalid
    | TtlExceeded
    | ConsentMissing
    | AdbNotRequired
    | AdbUnavailable
    | PayloadInvalid
    | PolicyBadComponents
    | ComponentNotAllowed
    | PolicyBadScenarios
    | ScenarioNotAllowed

  function FindLease(leases: seq<SessionLease>, id: string): (found: Option<SessionLease>)
    ensures found.Some? ==> found.value in leases && found.value.leaseId == id
  {
    if leases == [] then None
    else if leases[0].leaseId == id then Some(leases[0])
    else FindLease(leases[1..], id)
  }

  /** `None` lets the command through. */
  function SessionLeaseRefusal(config: Config, c: Command, now: int): Option<Refusal> {
    if c.kind in PASSIVE_KINDS then None
    else if c.lease == "" then Some(SessionLeaseAbsent)
    else
      match FindLease(config.sessionLeases, c.lease)
      case None => Some(SessionLeaseInactive)
      case Some(lease) =>
        if lease.revoked then Some(SessionLeaseRevoked)
        else if lease.fleet.Some? && lease.fleet.value != config.fleet then Some(SessionLeaseWrongFleet)
        else if lease.agent.Some? && lease.agent.value != config.agent then Some(SessionLeaseWrongAgent)
        else if lease.expiresAt.Absent? then Some(SessionLeaseMissingExpiry)
        else if lease.expiresAt.Unreadable? then Some(SessionLeaseBadExpiry)
        else if lease.expiresAt.instant <= now then Some(SessionLeaseExpired)
        else if lease.scopes.None? then Some(SessionLeaseBadScopes)
        else if "*" !in lease.scopes.value && c.kind !in lease.scopes.value then Some(SessionLeaseScopeDenied)
        else if c.requiresLocalAdb && lease.requiresLocalAdb == Some(false) then Some(SessionLeaseDisallowsAdb)
        else None
  }

  function TtlRefusal(limit: TtlLimit, c: Command): Option<Refusal> {
    match limit
    case NoLimit => None
    case BadLimit => Some(PolicyBadTtl)
    case Seconds(most) =>
      if most <= 0 then Some(PolicyBadTtl)
      else if !c.issuedAt.At? || !c.expiresAt.At? then Some(TtlInvalid)
      else
        var ttl := c.expiresAt.instant - c.issuedAt.instant;
        if ttl <= 0 || ttl > most then Some(TtlExceeded) else None
  }

  function PayloadRefusal(policy: Binding, c: Command): Option<Refusal> {
    if c.payload.None? then Some(PayloadInvalid)
    else if c.kind == "app.launch_allowlisted" then
      var component := c.payload.value.component;
      if policy.launchComponents.None? then Some(PolicyBadComponents)
      else if component.None? || component.value !in policy.launchComponents.value then Some(ComponentNotAllowed)
      else None
    else if c.kind == "uiautomator.run_allowlisted_scenario" then
      var scenario := c.payload.value.scenario;
      if policy.scenarios.None? then Some(PolicyBadScenarios)
      else if scenario.None? || scenario.value !in policy.scenarios.value then Some(ScenarioNotAllowed)
      else None
    else None
  }

  /** What the binding of the command's source objects to. */
  function BindingRefusal(policy: Binding, config: Config, c: Command): Option<Refusal> {
    if !policy.enabled then Some(BindingDisabled)
    else if c.lease == "" then Some(SessionLeaseAbsent)
    else if policy.leaseIds.None? then Some(PolicyBadLeaseIds)
    else if c.lease !in policy.leaseIds.value then Some(LeaseNotBound)
    else if policy.kinds.None? then Some(PolicyBadKinds)
    else if c.kind !in policy.kinds.value then Some(KindNotBound)
    else
      var ttl := TtlRefusal(policy.maxTtl, c);
      if ttl.Some? then ttl
      else if policy.requireVisibleSession && !config.visibleSessionActive then Some(ConsentMissing)
      else if policy.requireLocalAdb && c.kind in MIRROR_ADB_KINDS && !c.requiresLocalAdb then Some(AdbNotRequired)
      else if policy.requireLocalAdb && c.requiresLocalAdb && c.kind in MIRROR_ADB_KINDS && !config.localAdbEnabled
      then Some(AdbUnavailable)
      else PayloadRefusal(policy, c)
  }

  function MirrorRefusal(config: Config, c: Command): Option<Refusal> {
    if c.origin != Some("mirror") && c.source.None? && c.intent.None? then None
    else if c.origin != Some("mirror") then Some(OriginMissing)
    else if c.source.None? || c.source.value == "" then Some(SourceMissing)
    else if c.intent.None? || c.intent.value == "" then Some(IntentMissing)
    else if c.source.value !in config.bindings then Some(SourceNotBound)
    else BindingRefusal(config.bindings[c.source.value], config, c)
  }

  /** All gates in order; the command runs if this is `None`. */
  function Gate(config: Config, c: Command, now: int): Option<Refusal> {
    if !c.schemaMatches then Some(WrongSchema)
    else if c.target != config.agent then Some(WrongAgent)
    else if c.expiresAt.Unreadable? then Some(ParserRaises)
    else if c.expiresAt.Absent? || c.expiresAt.instant <= now then Some(CommandExpired)
    else if c.kind !in config.allowedKinds then Some(KindDenied)
    else
      var session := SessionLeaseRefusal(config, c, now);
      if session.Some? then session else MirrorRefusal(config, c)
  }

  // ---------------------------------------------------------------- what the gates let through

  /** Lease `i` is the first one configured under the command's lease id. */
  predicate ClaimsLease(config: Config, c: Command, i: nat) {
    && i < |config.sessionLeases| && config.sessionLeases[i].leaseId == c.lease
    && forall j :: 0 <= j < i ==> config.sessionLeases[j].leaseId != c.lease
  }

  lemma {:induction false} FindLeaseFindsFirst(leases: seq<SessionLease>, id: string, i: nat)
    requires i < |leases| && leases[i].leaseId == id && forall j :: 0 <= j < i ==> leases[j].leaseId != id
    ensures FindLease(leases, id) == Some(leases[i])
  {
    if i > 0 {
      FindLeaseFindsFirst(leases[1..], id, i - 1);
    }
  }

  lemma {:induction false} FindLeaseMisses(leases: seq<SessionLease>, id: string)
    ensures FindLease(leases, id).None? <==> forall i :: 0 <= i < |leases| ==> leases[i].leaseId != id
  {
    if leases != [] {
      FindLeaseMisses(leases[1..], id);
      assert forall i :: 1 <= i < |leases| ==> leases[i] == leases[1..][i - 1];
    }
  }

  /** The session lease is live and reaches this agent, this fleet and the command. */
  predicate SessionCovers(lease: SessionLease, config: Config, c: Command, now: int) {
    && !lease.revoked && lease.expiresAt.At? && now < lease.expiresAt.instant
    && (lease.fleet == None || lease.fleet == Some(config.fleet))
    && (lease.agent == None || lease.agent == Some(config.agent))
    && lease.scopes.Some? && ("*" in lease.scopes.value || c.kind in lease.scopes.value)
    && (c.requiresLocalAdb ==> lease.requiresLocalAdb != Some(false))
  }

  /** A passive command needs no session lease; any other needs the first one of its id to cover it. */
  ghost predicate InSession(config: Config, c: Command, now: int) {
    || c.kind == "agent.status" || c.kind == "agent.capabilities"
    || (c.lease != "" && exists i: nat ::
          ClaimsLease(config, c, i) && SessionCovers(config.sessionLeases[i], config, c, now))
  }

  /** The command lives no longer than the binding's limit, if there is one. */
  predicate LivesWithin(limit: TtlLimit, c: Command) {
    match limit
    case NoLimit => true
    case BadLimit => false
    case Seconds(most) =>
      c.issuedAt.At? && c.expiresAt.At? && c.issuedAt.instant < c.expiresAt.instant <= c.issuedAt.instant + most
  }

  /** What the command launches or runs is on the binding's list. */
  predicate PayloadListed(policy: Binding, c: Command) {
    && c.payload.Some?
    && (c.kind == "app.launch_allowlisted" ==>
          policy.launchComponents.Some? && c.payload.value.component.Some?
          && c.payload.value.component.value in policy.launchComponents.value)
    && (c.kind == "uiautomator.run_allowlisted_scenario" ==>
          policy.scenarios.Some? && c.payload.value.scenario.Some?
          && c.payload.value.scenario.value in policy.scenarios.value)
  }

  /** The binding of the source allows the command. */
  predicate BindingAllows(policy: Binding, config: Config, c: Command) {
    && policy.enabled && c.lease != ""
    && policy.leaseIds.Some? && c.lease in policy.leaseIds.value
    && policy.kinds.Some? && c.kind in policy.kinds.value
    && LivesWithin(policy.maxTtl, c)
    && (policy.requireVisibleSession ==> config.visibleSessionActive)
    && (policy.requireLocalAdb && ActsThroughAdb(c.kind) ==> c.requiresLocalAdb && config.localAdbEnabled)
    && PayloadListed(policy, c)
  }

  /** Either nothing says the command is mirrored, or all of it does and its source is bound to it. */
  predicate MirrorAllowed(config: Config, c: Command) {
    || (c.origin != Some("mirror") && c.source == None && c.intent == None)
    || (&& c.origin == Some("mirror") && c.intent.Some? && c.intent.value != "" && c.source.Some?
        && c.source.value != "" && c.source.value in config.bindings
        && BindingAllows(config.bindings[c.source.value], config, c))
  }

  lemma SessionLeaseIff(config: Config, c: Command, now: int)
    ensures SessionLeaseRefusal(config, c, now).None? <==> InSession(config, c, now)
  {
    FindLeaseMisses(config.sessionLeases, c.lease);
    if i: nat :| ClaimsLease(config, c, i) {
      FindLeaseFindsFirst(config.sessionLeases, c.lease, i);
    } else if FindLease(config.sessionLeases, c.lease).Some? {
      var i := FirstClaimed(config, c, |config.sessionLeases|);
    }
  }

  lemma {:induction false} FirstClaimed(config: Config, c: Command, n: nat) returns (i: nat)
    requires n <= |config.sessionLeases| && exists k :: 0 <= k < n && config.sessionLeases[k].leaseId == c.lease
    ensures ClaimsLease(config, c, i)
  {
    if exists k :: 0 <= k < n - 1 && config.sessionLeases[k].leaseId == c.lease {
      i := FirstClaimed(config, c, n - 1);
    } else {
      i := n - 1;
    }
  }

  lemma TtlIff(limit: TtlLimit, c: Command)
    ensures TtlRefusal(limit, c).None? <==> LivesWithin(limit, c)
  {
  }

  lemma PayloadIff(policy: Binding, c: Command)
    ensures PayloadRefusal(policy, c).None? <==> PayloadListed(policy, c)
  {
  }

  lemma BindingIff(policy: Binding, config: Config, c: Command)
    ensures BindingRefusal(policy, config, c).None? <==> BindingAllows(policy, config, c)
  {
    TtlIff(policy.maxTtl, c);
    PayloadIff(policy, c);
  }

  lemma MirrorIff(config: Config, c: Command)
    ensures MirrorRefusal(config, c).None? <==> MirrorAllowed(config, c)
  {
    if c.source.Some? && c.source.value in config.bindings {
      BindingIff(config.bindings[c.source.value], config, c);
    }
  }

  /**
   A command runs exactly if it is this agent's, unexpired and of an allowed kind, its session lease is live
   and covers it unless it is passive, and it is not mirrored or its source's binding allows it.
   */
  lemma RunsIff(config: Config, c: Command, now: int)
    ensures Gate(config, c, now).None? <==>
      && c.schemaMatches && c.target == config.agent
      && c.expiresAt.At? && now < c.expiresAt.instant && c.kind in config.allowedKinds
      && InSession(config, c, now) && MirrorAllowed(config, c)
  {
    SessionLeaseIff(config, c, now);
    MirrorIff(config, c);
  }

  // ---------------------------------------------------------------- what a refusal says

  /** What is wrong with the session lease when it is refused for this reason. */
  predicate SessionFails(lease: SessionLease, config: Config, c: Command, now: int, why: Refusal) {
    match why
    case SessionLeaseRevoked => lease.revoked
    case SessionLeaseWrongFleet => lease.fleet.Some? && lease.fleet.value != config.fleet
    case SessionLeaseWrongAgent => lease.agent.Some? && lease.agent.value != config.agent
    case SessionLeaseMissingExpiry => lease.expiresAt.Absent?
    case SessionLeaseBadExpiry => lease.expiresAt.Unreadable?
    case SessionLeaseExpired => lease.expiresAt.At? && lease.expiresAt.instant <= now
    case SessionLeaseBadScopes => lease.scopes.None?
    case SessionLeaseScopeDenied => lease.scopes.Some? && c.kind !in lease.scopes.value && "*" !in lease.scopes.value
    case SessionLeaseDisallowsAdb => c.requiresLocalAdb && lease.requiresLocalAdb == Some(false)
    case _ => false
  }

  /** What is wrong with a mirrored command under the binding that refuses it for this reason. */
  predicate BindingFails(policy: Binding, config: Config, c: Command, why: Refusal) {
    match why
    case BindingDisabled => !policy.enabled
    case PolicyBadLeaseIds => policy.leaseIds.None?
    case LeaseNotBound => policy.leaseIds.Some? && c.lease !in policy.leaseIds.value
    case PolicyBadKinds => policy.kinds.None?
    case KindNotBound => policy.kinds.Some? && c.kind !in policy.kinds.value
    case PolicyBadTtl => policy.maxTtl.BadLimit? || (policy.maxTtl.Seconds? && policy.maxTtl.limit <= 0)
    case TtlInvalid => policy.maxTtl.Seconds? && !(c.issuedAt.At? && c.expiresAt.At?)
    case TtlExceeded => policy.maxTtl.Seconds? && !LivesWithin(policy.maxTtl, c)
    case ConsentMissing => policy.requireVisibleSession && !config.visibleSessionActive
    case AdbNotRequired => policy.requireLocalAdb && ActsThroughAdb(c.kind) && !c.requiresLocalAdb
    case AdbUnavailable => policy.requireLocalAdb && ActsThroughAdb(c.kind) && !config.localAdbEnabled
    case PayloadInvalid => c.payload.None?
    case PolicyBadComponents => c.kind == "app.launch_allowlisted" && policy.launchComponents.None?
    case PolicyBadScenarios => c.kind == "uiautomator.run_allowlisted_scenario" && policy.scenarios.None?
    case ComponentNotAllowed => c.kind == "app.launch_allowlisted" && !PayloadListed(policy, c)
    case ScenarioNotAllowed => c.kind == "uiautomator.run_allowlisted_scenario" && !PayloadListed(policy, c)
    case _ => false
  }

  /** What is wrong with a command that is refused for this reason. */
  ghost predicate Fails(config: Config, c: Command, now: int, why: Refusal) {
    match why
    case WrongSchema => !c.schemaMatches
    case WrongAgent => c.target != config.agent
    case ParserRaises => c.expiresAt.Unreadable?
    case CommandExpired => c.expiresAt.At? ==> c.expiresAt.instant <= now
    case KindDenied => c.kind !in config.allowedKinds
    case SessionLeaseAbsent => c.lease == ""
    case SessionLeaseInactive => forall l :: l in config.sessionLeases ==> l.leaseId != c.lease
    case OriginMissing => c.origin != Some("mirror") && (c.source.Some? || c.intent.Some?)
    case SourceMissing => c.origin == Some("mirror") && (c.source == None || c.source == Some(""))
    case IntentMissing => c.origin == Some("mirror") && (c.intent == None || c.intent == Some(""))
    case SourceNotBound => c.source.Some? && c.source.value !in config.bindings
    case _ =>
      || (exists l :: l in config.sessionLeases && l.leaseId == c.lease && SessionFails(l, config, c, now, why))
      || (c.source.Some? && c.source.value in config.bindings
          && BindingFails(config.bindings[c.source.value], config, c, why))
  }

  lemma SessionRefusalFails(config: Config, c: Command, now: int)
    requires SessionLeaseRefusal(config, c, now).Some?
    ensures Fails(config, c, now, SessionLeaseRefusal(config, c, now).value)
  {
    FindLeaseMisses(config.sessionLeases, c.lease);
    var found := FindLease(config.sessionLeases, c.lease);
    if found.Some? && c.lease != "" {
      assert found.value in config.sessionLeases;
      assert SessionFails(found.value, config, c, now, SessionLeaseRefusal(config, c, now).value);
    }
  }

  lemma BindingRefusalFails(policy: Binding, config: Config, c: Command)
    requires BindingRefusal(policy, config, c).Some?
    ensures var why := BindingRefusal(policy, config, c).value;
      if c.lease == "" then why.BindingDisabled? || why.SessionLeaseAbsent? else BindingFails(policy, config, c, why)
    ensures BindingRefusal(policy, config, c) == Some(BindingDisabled) ==> !policy.enabled
  {
    TtlIff(policy.maxTtl, c);
    PayloadIff(policy, c);
  }

  lemma MirrorRefusalFails(config: Config, c: Command, now: int)
    requires MirrorRefusal(config, c).Some?
    ensures Fails(config, c, now, MirrorRefusal(config, c).value)
  {
    if c.source.Some? && c.source.value in config.bindings {
      var policy := config.bindings[c.source.value];
      if BindingRefusal(policy, config, c).Some? {
        BindingRefusalFails(policy, config, c);
      }
    }
  }

  /** A refusal names something that is wrong. */
  lemma RefusalNamesDefect(config: Config, c: Command, now: int)
    requires Gate(config, c, now).Some?
    ensures Fails(config, c, now, Gate(config, c, now).value)
  {
    if SessionLeaseRefusal(config, c, now).Some? {
      SessionRefusalFails(config, c, now);
    } else if MirrorRefusal(config, c).Some? {
      MirrorRefusalFails(config, c, now);
    }
  }

  /** The refusals that find fault with how a mirror command is put together. */
  predicate FormFault(r: Option<Refusal>) {
    r.Some? && (r.value.WrongSchema? || r.value.OriginMissing? || r.value.SourceMissing? || r.value.IntentMissing?
                || r.value.SessionLeaseAbsent? || r.value.PayloadInvalid?)
  }

  lemma WellMadePassesMirror(config: Config, c: Command)
    requires c.origin == Some("mirror") && c.source.Some? && c.source.value != ""
    requires c.intent.Some? && c.intent.value != ""
    requires c.lease != "" && c.payload.Some?
    ensures !FormFault(MirrorRefusal(config, c))
  {
  }

  lemma WellMadePassesSession(config: Config, c: Command, now: int)
    requires c.lease != ""
    ensures !FormFault(SessionLeaseRefusal(config, c, now))
  {
  }

  /** A command the controller made of an intent never fails for how it was made. */
  lemma MirrorCommandsAreWellMade(s: Fleet, intent: Intent, submitted: int, config: Config, now: int)
    requires SubmitIntent(s, intent, submitted).1.IntentQueued?
    ensures Convertible(intent) && !FormFault(Gate(config, MirrorCommand(intent), now))
  {
    QueuedIffCovered(s, intent, submitted);
    WellMadePassesMirror(config, MirrorCommand(intent));
    WellMadePassesSession(config, MirrorCommand(intent), now);
  }

  /** Mirror metadata cannot ride on a command of another origin, nor a mirror command on no source. */
  lemma OnlyBoundSourcesMirror(config: Config, c: Command, now: int)
    requires Gate(config, c, now).None?
    requires c.source.Some? || c.intent.Some? || c.origin == Some("mirror")
    ensures c.origin == Some("mirror") && c.source.Some? && c.source.value in config.bindings
    ensures var policy := config.bindings[c.source.value];
      policy.enabled && policy.leaseIds.Some? && c.lease in policy.leaseIds.value
      && policy.kinds.Some? && c.kind in policy.kinds.value
  {
  }

  /**
   End to end: an intent whose command was enqueued and which an agent lets through was covered by
   a live lease at the controller, and its kind and lease are allowed by the agent's binding for
   exactly the source that lease names.
   */
  lemma MirrorIsAuthorizedTwice(s: Fleet, intent: Intent, submitted: int, config: Config, now: int)
    requires SubmitIntent(s, intent, submitted).1 == IntentQueued(MirrorCommandId(intent.intentId), Queued)
    requires Convertible(intent) && Gate(config, MirrorCommand(intent), now).None?
    ensures EndsWith(Get(SubmitIntent(s, intent, submitted).0.commands, intent.target), MirrorCommand(intent))
    ensures intent.leaseId in s.leases && Covers(s.leases[intent.leaseId], intent, submitted)
    ensures BoundTo(config, s.leases[intent.leaseId], intent) && now < intent.expiresAt.instant
  {
    QueuedIffCovered(s, intent, submitted);
    OnlyBoundSourcesMirror(config, MirrorCommand(intent), now);
  }

  predicate EndsWith(queue: seq<Command>, c: Command) {
    queue != [] && queue[|queue| - 1] == c
  }

  /** The agent is the lease's target and binds the lease's source to this lease and kind. */
  predicate BoundTo(config: Config, lease: Lease, intent: Intent) {
    && lease.target == config.agent && lease.source in config.bindings
    && intent.kind in lease.kinds && intent.kind in config.allowedKinds
    && var binding := config.bindings[lease.source];
       (&& binding.enabled
        && binding.leaseIds.Some? && intent.leaseId in binding.leaseIds.value
        && binding.kinds.Some? && intent.kind in binding.kinds.value)
  }

  /**
   An intent attached to an existing command enqueues nothing. In every reachable state what runs for
   it is a command delivered to or queued for the same target under the same key: the lease that covers
   the intent says nothing about that command's source and kind.
   */
  lemma AttachedToHeldCommand(ops: seq<Op>, intent: Intent, submitted: int, commandId: string)
    requires SubmitIntent(Run(ops), intent, submitted).1 == IntentQueued(commandId, Attached)
    ensures Convertible(intent)
    ensures var s := Run(ops);
      && SubmitIntent(s, intent, submitted).0.commands == s.commands
      && SubmitIntent(s, intent, submitted).0.index == s.index
    ensures exists c :: c in Held(ops, intent.target) && c.key == intent.key.value && c.commandId == commandId
  {
    var s, agent := Run(ops), intent.target;
    FleetDelivery.RunKeepsQueues(ops);
    assert FleetDelivery.AgentInvariant(Get(s.commands, agent), s.index, FleetDelivery.History(ops), agent);
    AttachedByKey(s, intent, submitted, commandId);
    assert (agent, intent.key.value) in s.index;
    var c :| c in Held(ops, agent) && c.key == intent.key.value;
  }

  lemma AttachedByKey(s: Fleet, intent: Intent, submitted: int, commandId: string)
    requires SubmitIntent(s, intent, submitted).1 == IntentQueued(commandId, Attached)
    ensures Convertible(intent) && (intent.target, intent.key.value) in s.index
    ensures s.index[(intent.target, intent.key.value)] == commandId
    ensures SubmitIntent(s, intent, submitted).0.commands == s.commands
    ensures SubmitIntent(s, intent, submitted).0.index == s.index
  {
  }

  /** The commands delivered to an agent in a run, then those queued for it. */
  ghost function Held(ops: seq<Op>, agent: AgentId): seq<Command> {
    FleetDelivery.Pick(FleetDelivery.History(ops), FleetDelivery.Delivered, agent) + Get(Run(ops).commands, agent)
  }
}
