/**
 The fleet controller: command queues with idempotency keys, mirror leases, and mirror
 intents that become commands.

 A text field that the program insists on is "" when it is absent, no text, or empty. Each
 handler call is one atomic step with one reading `now` of the clock. The idempotency index is
 keyed by the pair of agent and key.
 */
module FleetControl {
  import opened Wrappers

  /** A time field: absent or no text, a text that does not parse, or an instant. */
  datatype Time = Absent | Unreadable | At(instant: int)

  datatype CommandPayload = CommandPayload(component: Option<string>, scenario: Option<string>)

  /** `payload` is `None` when it is no object; `origin`, `source` and `intent` are mirror metadata. */
  datatype Command = Command(
    schemaMatches: bool,
    commandId: string,
    target: AgentId,
    fleet: string,
    issuedAt: Time,
    expiresAt: Time,
    key: string,
    kind: string,
    lease: string,
    requiresLocalAdb: bool,
    payload: Option<CommandPayload>,
    origin: Option<string>,
    source: Option<string>,
    intent: Option<string>)

  const PASSIVE_KINDS := {"agent.status", "agent.capabilities"}
  const MIRROR_ADB_KINDS := {"android.foreground_snapshot", "app.launch_allowlisted",
                             "uiautomator.run_allowlisted_scenario"}

  datatype FleetError =
    | UnsupportedSchema
    | Missing(field: string)
    | BadTime
    | AlreadyExpired
    | SourceIsTarget
    | NoAllowedKinds
    | LeaseMissing
    | MalformedIntent

  datatype Lease = Lease(
    fleet: string,
    source: AgentId,
    target: AgentId,
    expiresAt: Time,
    kinds: seq<string>,
    requiresLocalAdb: bool,
    revoked: bool)

  /** `kinds` is `None` unless it is a list of non-empty texts. */
  datatype LeaseRequest = LeaseRequest(
    schemaMatches: bool,
    leaseId: string,
    operatorId: string,
    source: AgentId,
    target: AgentId,
    fleet: string,
    purpose: string,
    consentMode: string,
    indicatorRequired: Option<bool>,
    emergencyStop: Option<bool>,
    expiresAt: Time,
    kinds: Option<seq<string>>,
    requiresLocalAdb: bool,
    revoked: bool)

  /** A JSON flag: only `True` passes an identity test, `Truthy` only a truth test. */
  datatype Flag = NoFlag | Falsy | Truthy | True

  /** `convertible`: the numeric limits and the payload object convert. */
  datatype Intent = Intent(
    schemaMatches: bool,
    intentId: string,
    source: AgentId,
    target: AgentId,
    leaseId: string,
    fleet: string,
    kind: string,
    issuedAt: Option<Time>,
    expiresAt: Time,
    key: Option<string>,
    requiresLocalAdb: Flag,
    hasReason: bool,
    convertible: bool,
    payload: CommandPayload)

  datatype MirrorState = QueuedForTarget | Completed | Rejected | Failed | TimedOut | Skipped

  /** What the controller's part of an event was; `Reported` marks a result of the target. */
  datatype Decision = Queued | Attached | Refused | Reported

  datatype MirrorError =
    | IntentExpired
    | NoLease
    | LeaseRevoked
    | FleetMismatch
    | SourceNotAllowed
    | TargetNotAllowed
    | LeaseWithoutExpiry
    | LeaseBadExpiry
    | LeaseExpired
    | KindNotAllowed
    | AdbRequirementMissing
    | QueueRejected

  datatype CommandResult = CommandResult(schemaMatches: bool, commandId: string, agent: AgentId, status: string)

  datatype IntentStatus = IntentStatus(
    leaseId: string,
    source: AgentId,
    target: AgentId,
    commandId: string,
    state: MirrorState,
    decision: Decision,
    error: Option<MirrorError>,
    targetResult: Option<CommandResult>)

  datatype MirrorEvent = MirrorEvent(
    intentId: string,
    leaseId: string,
    source: AgentId,
    target: AgentId,
    commandId: string,
    state: MirrorState,
    decision: Decision,
    error: Option<MirrorError>,
    targetResult: Option<CommandResult>)

  type Index = map<(AgentId, string), string>

  datatype Fleet = Fleet(
    commands: map<AgentId, seq<Command>>,
    index: Index,
    results: seq<CommandResult>,
    leases: map<string, Lease>,
    intents: map<string, IntentStatus>,
    events: map<string, seq<MirrorEvent>>,
    commandIndex: map<string, seq<string>>)

  const EMPTY_FLEET := Fleet(map[], map[], [], map[], map[], map[], map[])

  datatype Reply =
    | CommandQueued(commandId: string)
    | CommandDuplicate(existing: string)
    | Handed(command: Command)
    | NoCommand
    | ResultAccepted
    | LeaseAccepted
    | Revoked
    | IntentQueued(attachedTo: string, decision: Decision)
    | IntentRejected(why: MirrorError)
    | IntentDuplicate(status: IntentStatus)
    | Failure(error: FleetError)

  function Get<K, V>(m: map<K, seq<V>>, k: K): seq<V> {
    if k in m then m[k] else []
  }

  // ---------------------------------------------------------------- queue

  /** Queued commands always have a readable expiry, so the sweep never meets the other cases' errors. */
  predicate Expired(c: Command, now: int) {
    match c.expiresAt
    case Absent => true
    case Unreadable => false
    case At(t) => t <= now
  }

  function CommandFault(c: Command, now: int): Option<FleetError> {
    if !c.schemaMatches then Some(UnsupportedSchema)
    else if c.commandId == "" then Some(Missing("command_id"))
    else if c.target == "" then Some(Missing("target_agent_id"))
    else if c.key == "" then Some(Missing("idempotency_key"))
    else if c.expiresAt.Unreadable? then Some(BadTime)
    else if Expired(c, now) then Some(AlreadyExpired)
    else if c.kind == "" then Some(Missing("kind"))
    else if c.kind !in PASSIVE_KINDS && c.lease == "" then Some(Missing("remote_session_lease_id"))
    else None
  }

  function QueueCommand(s: Fleet, c: Command, now: int): (Fleet, Reply) {
    var fault := CommandFault(c, now);
    if fault.Some? then (s, Failure(fault.value))
    else if (c.target, c.key) in s.index then (s, CommandDuplicate(s.index[(c.target, c.key)]))
    else (s.(index := s.index[(c.target, c.key) := c.commandId],
             commands := s.commands[c.target := Get(s.commands, c.target) + [c]]),
          CommandQueued(c.commandId))
  }

  /** The sweep of a queue: what stays, what is handed out, what is dropped, and the index left. */
  datatype Sweep = Sweep(kept: seq<Command>, selected: Option<Command>, dropped: seq<Command>, index: Index)

  function SweepQueue(agent: AgentId, queue: seq<Command>, index: Index, now: int): Sweep {
    if queue == [] then Sweep([], None, [], index)
    else
      var s, c := SweepQueue(agent, queue[..|queue| - 1], index, now), queue[|queue| - 1];
      if Expired(c, now) then s.(dropped := s.dropped + [c], index := s.index - {(agent, c.key)})
      else if s.selected.None? then s.(selected := Some(c))
      else s.(kept := s.kept + [c])
  }

  function NextCommand(s: Fleet, agent: AgentId, now: int): (Fleet, Reply) {
    var sweep := SweepQueue(agent, Get(s.commands, agent), s.index, now);
    (s.(commands := s.commands[agent := sweep.kept], index := sweep.index),
     if sweep.selected.Some? then Handed(sweep.selected.value) else NoCommand)
  }

  // ---------------------------------------------------------------- leases

  function LeaseFault(q: LeaseRequest, now: int): Option<FleetError> {
    if !q.schemaMatches then Some(UnsupportedSchema)
    else if q.leaseId == "" then Some(Missing("lease_id"))
    else if q.operatorId == "" then Some(Missing("operator_id"))
    else if q.source == "" then Some(Missing("source_agent_id"))
    else if q.target == "" then Some(Missing("target_agent_id"))
    else if q.source == q.target then Some(SourceIsTarget)
    else if q.fleet == "" then Some(Missing("fleet_id"))
    else if q.purpose == "" then Some(Missing("purpose"))
    else if q.consentMode == "" then Some(Missing("consent_mode"))
    else if q.indicatorRequired.None? then Some(Missing("active_indicator_required"))
    else if q.emergencyStop.None? then Some(Missing("emergency_stop_supported"))
    else if q.expiresAt.Absent? then Some(Missing("expires_at"))
    else if q.expiresAt.Unreadable? then Some(BadTime)
    else if q.expiresAt.instant <= now then Some(AlreadyExpired)
    else if q.kinds.None? then Some(Missing("allowed_command_kinds"))
    else if q.kinds.value == [] then Some(NoAllowedKinds)
    else None
  }

  function CreateLease(s: Fleet, q: LeaseRequest, now: int): (Fleet, Reply) {
    var fault := LeaseFault(q, now);
    if fault.Some? then (s, Failure(fault.value))
    else
      var lease := Lease(q.fleet, q.source, q.target, q.expiresAt, q.kinds.value, q.requiresLocalAdb, q.revoked);
      (s.(leases := s.leases[q.leaseId := lease]), LeaseAccepted)
  }

  function RevokeLease(s: Fleet, leaseId: string): (Fleet, Reply) {
    if leaseId !in s.leases then (s, Failure(LeaseMissing))
    else (s.(leases := s.leases[leaseId := s.leases[leaseId].(revoked := true)]), Revoked)
  }

  // ---------------------------------------------------------------- intents

  function LeaseError(lease: Lease, intent: Intent, now: int): Option<MirrorError> {
    if lease.revoked then Some(LeaseRevoked)
    else if lease.fleet != intent.fleet then Some(FleetMismatch)
    else if lease.source != intent.source then Some(SourceNotAllowed)
    else if lease.target != intent.target then Some(TargetNotAllowed)
    else if lease.expiresAt.Absent? then Some(LeaseWithoutExpiry)
    else if lease.expiresAt.Unreadable? then Some(LeaseBadExpiry)
    else if lease.expiresAt.instant <= now then Some(LeaseExpired)
    else if intent.kind !in lease.kinds then Some(KindNotAllowed)
    else if intent.kind in MIRROR_ADB_KINDS && lease.requiresLocalAdb && !intent.requiresLocalAdb.True?
    then Some(AdbRequirementMissing)
    else None
  }

  function MirrorCommandId(intentId: string): string {
    "mirror-" + intentId
  }

  /** The fields the conversion to a command reads without a default are there and convert. */
  predicate Convertible(intent: Intent) {
    && intent.issuedAt.Some? && intent.key.Some? && !intent.requiresLocalAdb.NoFlag?
    && intent.hasReason && intent.convertible
  }

  function MirrorCommand(intent: Intent): Command
    requires Convertible(intent)
  {
    Command(true, MirrorCommandId(intent.intentId), intent.target, intent.fleet, intent.issuedAt.value,
            intent.expiresAt,
            intent.key.value, intent.kind, intent.leaseId,
            intent.requiresLocalAdb.True? || intent.requiresLocalAdb.Truthy?, Some(intent.payload),
            Some("mirror"), Some(intent.source), Some(intent.intentId))
  }

  function AppendEvent(s: Fleet, e: MirrorEvent): Fleet {
    s.(events := s.events[e.leaseId := Get(s.events, e.leaseId) + [e]])
  }

  /** Stores the status of a fresh intent and logs the decision about it. */
  function Decide(s: Fleet, intent: Intent, commandId: string, state: MirrorState, decision: Decision,
                  error: Option<MirrorError>): Fleet {
    var status := IntentStatus(intent.leaseId, intent.source, intent.target, commandId, state, decision, error, None);
    var event := MirrorEvent(intent.intentId, intent.leaseId, intent.source, intent.target, commandId, state, decision,
                             error, None);
    AppendEvent(s.(intents := s.intents[intent.intentId := status]), event)
  }

  function RejectIntent(s: Fleet, intent: Intent, why: MirrorError): (Fleet, Reply) {
    (Decide(s, intent, MirrorCommandId(intent.intentId), Rejected, Refused, Some(why)), IntentRejected(why))
  }

  function IntentFault(intent: Intent): Option<FleetError> {
    if !intent.schemaMatches then Some(UnsupportedSchema)
    else if intent.intentId == "" then Some(Missing("mirror_intent_id"))
    else if intent.source == "" then Some(Missing("source_agent_id"))
    else if intent.target == "" then Some(Missing("target_agent_id"))
    else None
  }

  /** Why the controller will not even try to queue the intent. */
  function IntentError(s: Fleet, intent: Intent, now: int): Option<MirrorError> {
    if !intent.expiresAt.At? || intent.expiresAt.instant <= now then Some(IntentExpired)
    else if intent.leaseId !in s.leases then Some(NoLease)
    else LeaseError(s.leases[intent.leaseId], intent, now)
  }

  function SubmitIntent(s: Fleet, intent: Intent, now: int): (Fleet, Reply) {
    var fault := IntentFault(intent);
    if fault.Some? then (s, Failure(fault.value))
    else if intent.intentId in s.intents then (s, IntentDuplicate(s.intents[intent.intentId]))
    else if intent.leaseId == "" then (s, Failure(Missing("lease_id")))
    else
      var why := IntentError(s, intent, now);
      if why.Some? then RejectIntent(s, intent, why.value)
      else if !Convertible(intent) then (s, Failure(MalformedIntent))
      else
        var (t, reply) := QueueCommand(s, MirrorCommand(intent), now);
        if reply.Failure? then RejectIntent(s, intent, QueueRejected)
        else
          var attached := reply.CommandDuplicate?;
          var commandId := if attached then reply.existing else MirrorCommandId(intent.intentId);
          var decision := if attached then Attached else Queued;
          var u := Decide(t, intent, commandId, QueuedForTarget, decision, None);
          (u.(commandIndex := u.commandIndex[commandId := Get(u.commandIndex, commandId) + [intent.intentId]]),
           IntentQueued(commandId, decision))
  }

  // ---------------------------------------------------------------- results

  function StateFromStatus(status: string): MirrorState {
    if status == "completed" then Completed
    else if status == "rejected" then Rejected
    else if status == "failed" then Failed
    else if status == "timeout" then TimedOut
    else if status == "skipped" then Skipped
    else Failed
  }

  function ApplyToIntent(s: Fleet, intentId: string, r: CommandResult): Fleet {
    if intentId !in s.intents then s
    else
      var state := StateFromStatus(r.status);
      var status := s.intents[intentId].(state := state, targetResult := Some(r));
      AppendEvent(s.(intents := s.intents[intentId := status]),
        MirrorEvent(intentId, status.leaseId, status.source, status.target, r.commandId, state, Reported, None,
                    Some(r)))
  }

  function ApplyToIntents(s: Fleet, ids: seq<string>, r: CommandResult): Fleet {
    if ids == [] then s
    else ApplyToIntent(ApplyToIntents(s, ids[..|ids| - 1], r), ids[|ids| - 1], r)
  }

  function RecordResult(s: Fleet, r: CommandResult): (Fleet, Reply) {
    if !r.schemaMatches then (s, Failure(UnsupportedSchema))
    else if r.commandId == "" then (s, Failure(Missing("command_id")))
    else if r.agent == "" then (s, Failure(Missing("agent_id")))
    else
      (ApplyToIntents(s.(results := s.results + [r]), Get(s.commandIndex, r.commandId), r), ResultAccepted)
  }

  // ---------------------------------------------------------------- the controller object

  class FleetState {
    var commands: map<AgentId, seq<Command>>
    var index: Index
    var results: seq<CommandResult>
    var leases: map<string, Lease>
    var intents: map<string, IntentStatus>
    var events: map<string, seq<MirrorEvent>>
    var commandIndex: map<string, seq<string>>

    ghost function Contents(): Fleet
      reads this
    {
      Fleet(commands, index, results, leases, intents, events, commandIndex)
    }

    constructor ()
      ensures Contents() == EMPTY_FLEET
    {
      commands, index, results := map[], map[], [];
      leases, intents, events, commandIndex := map[], map[], map[], map[];
    }

    method Queue(c: Command, now: int) returns (reply: Reply)
      modifies this
      ensures (Contents(), reply) == QueueCommand(old(Contents()), c, now)
    {
      var fault := CommandFault(c, now);
      if fault.Some? {
        return Failure(fault.value);
      }
      if (c.target, c.key) in index {
        return CommandDuplicate(index[(c.target, c.key)]);
      }
      index := index[(c.target, c.key) := c.commandId];
      commands := commands[c.target := Get(commands, c.target) + [c]];
      return CommandQueued(c.commandId);
    }

    /** Drops what has expired, frees its key, hands out the first command left and keeps the rest. */
    method Next(agent: AgentId, now: int) returns (reply: Reply)
      modifies this
      ensures (Contents(), reply) == NextCommand(old(Contents()), agent, now)
    {
      var queue := Get(commands, agent);
      var kept: seq<Command> := [];
      var selected: Option<Command> := None;
      ghost var dropped: seq<Command> := [];
      for i := 0 to |queue|
        invariant Sweep(kept, selected, dropped, index) == SweepQueue(agent, queue[..i], old(index), now)
        invariant Contents() == old(Contents()).(index := index)
      {
        assert queue[..i + 1][..i] == queue[..i];
        var c := queue[i];
        if Expired(c, now) {
          index := index - {(agent, c.key)};
          dropped := dropped + [c];
        } else if selected.None? {
          selected := Some(c);
        } else {
          kept := kept + [c];
        }
      }
      assert queue[..|queue|] == queue;
      commands := commands[agent := kept];
      reply := if selected.Some? then Handed(selected.value) else NoCommand;
    }

    method Create(q: LeaseRequest, now: int) returns (reply: Reply)
      modifies this
      ensures (Contents(), reply) == CreateLease(old(Contents()), q, now)
    {
      var fault := LeaseFault(q, now);
      if fault.Some? {
        return Failure(fault.value);
      }
      leases := leases[q.leaseId := Lease(q.fleet, q.source, q.target, q.expiresAt, q.kinds.value, q.requiresLocalAdb,
                                          q.revoked)];
      return LeaseAccepted;
    }

    method Revoke(leaseId: string) returns (reply: Reply)
      modifies this
      ensures (Contents(), reply) == RevokeLease(old(Contents()), leaseId)
    {
      if leaseId !in leases {
        return Failure(LeaseMissing);
      }
      leases := leases[leaseId := leases[leaseId].(revoked := true)];
      return Revoked;
    }

    method Reject(intent: Intent, why: MirrorError) returns (reply: Reply)
      modifies this
      ensures (Contents(), reply) == RejectIntent(old(Contents()), intent, why)
    {
      var commandId := MirrorCommandId(intent.intentId);
      intents := intents[intent.intentId :=
        IntentStatus(intent.leaseId, intent.source, intent.target, commandId, Rejected, Refused, Some(why), None)];
      events := events[intent.leaseId := Get(events, intent.leaseId) +
        [MirrorEvent(intent.intentId, intent.leaseId, intent.source, intent.target, commandId, Rejected, Refused,
                     Some(why), None)]];
      return IntentRejected(why);
    }

    method Submit(intent: Intent, now: int) returns (reply: Reply)
      modifies this
      ensures (Contents(), reply) == SubmitIntent(old(Contents()), intent, now)
    {
      var fault := IntentFault(intent);
      if fault.Some? {
        return Failure(fault.value);
      }
      if intent.intentId in intents {
        return IntentDuplicate(intents[intent.intentId]);
      }
      if intent.leaseId == "" {
        return Failure(Missing("lease_id"));
      }
      if !intent.expiresAt.At? || intent.expiresAt.instant <= now {
        reply := Reject(intent, IntentExpired);
        return;
      }
      if intent.leaseId !in leases {
        reply := Reject(intent, NoLease);
        return;
      }
      var error := LeaseError(leases[intent.leaseId], intent, now);
      if error.Some? {
        reply := Reject(intent, error.value);
        return;
      }
      if !Convertible(intent) {
        return Failure(MalformedIntent);
      }
      var queued := Queue(MirrorCommand(intent), now);
      if queued.Failure? {
        reply := Reject(intent, QueueRejected);
        return;
      }
      var attached := queued.CommandDuplicate?;
      var commandId := if attached then queued.existing else MirrorCommandId(intent.intentId);
      var decision := if attached then Attached else Queued;
      intents := intents[intent.intentId :=
        IntentStatus(intent.leaseId, intent.source, intent.target, commandId, QueuedForTarget, decision, None, None)];
      commandIndex := commandIndex[commandId := Get(commandIndex, commandId) + [intent.intentId]];
      events := events[intent.leaseId := Get(events, intent.leaseId) +
        [MirrorEvent(intent.intentId, intent.leaseId, intent.source, intent.target, commandId, QueuedForTarget,
                     decision, None, None)]];
      return IntentQueued(commandId, decision);
    }

    method Record(r: CommandResult) returns (reply: Reply)
      modifies this
      ensures (Contents(), reply) == RecordResult(old(Contents()), r)
    {
      if !r.schemaMatches {
        return Failure(UnsupportedSchema);
      }
      if r.commandId == "" {
        return Failure(Missing("command_id"));
      }
      if r.agent == "" {
        return Failure(Missing("agent_id"));
      }
      results := results + [r];
      var ids := Get(commandIndex, r.commandId);
      ghost var start := Contents();
      for i := 0 to |ids|
        invariant Contents() == ApplyToIntents(start, ids[..i], r)
      {
        assert ids[..i + 1][..i] == ids[..i];
        if ids[i] in intents {
          var state := StateFromStatus(r.status);
          var current := intents[ids[i]].(state := state, targetResult := Some(r));
          intents := intents[ids[i] := current];
          events := events[current.leaseId := Get(events, current.leaseId) +
            [MirrorEvent(ids[i], current.leaseId, current.source, current.target, r.commandId, state, Reported, None,
                         Some(r))]];
        }
      }
      assert ids[..|ids|] == ids;
      return ResultAccepted;
    }
  }

  // ---------------------------------------------------------------- steps

  datatype Op =
    | OpQueue(command: Command, now: int)
    | OpNext(agent: AgentId, now: int)
    | OpCreate(request: LeaseRequest, now: int)
    | OpRevoke(leaseId: string)
    | OpSubmit(intent: Intent, now: int)
    | OpResult(result: CommandResult)

  function Step(s: Fleet, op: Op): (Fleet, Reply) {
    match op
    case OpQueue(c, now) => QueueCommand(s, c, now)
    case OpNext(agent, now) => NextCommand(s, agent, now)
    case OpCreate(q, now) => CreateLease(s, q, now)
    case OpRevoke(id) => RevokeLease(s, id)
    case OpSubmit(intent, now) => SubmitIntent(s, intent, now)
    case OpResult(r) => RecordResult(s, r)
  }

  /** The controller after a run of operations from the empty state. */
  function Run(ops: seq<Op>): Fleet {
    if ops == [] then EMPTY_FLEET
    else Step(Run(ops[..|ops| - 1]), ops[|ops| - 1]).0
  }
}
