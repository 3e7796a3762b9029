/**
 What the controller's operations do, told by the fields of commands, leases, intents and results and
 by the clock.
 */
module FleetEffects {
  import opened Wrappers
  import opened FleetControl
  import opened FleetDelivery
  import opened MirrorAudit

  // ---------------------------------------------------------------- commands and the clock

  /** All a command must have to be queued at that time. */
  predicate Queueable(c: Command, now: int) {
    && c.schemaMatches && c.commandId != "" && c.target != "" && c.key != "" && c.kind != ""
    && c.expiresAt.At? && now < c.expiresAt.instant
    && (c.kind != "agent.status" && c.kind != "agent.capabilities" ==> c.lease != "")
  }

  /**
   A command is queued exactly if it is complete, has not expired and its key is free for its target; with
   its key taken it is a duplicate of the command that took it, and otherwise an error; neither changes anything.
   */
  lemma QueuedIff(s: Fleet, c: Command, now: int)
    ensures var (t, reply) := QueueCommand(s, c, now);
      && (reply.CommandQueued? <==> Queueable(c, now) && (c.target, c.key) !in s.index)
      && (reply.CommandDuplicate? <==> Queueable(c, now) && (c.target, c.key) in s.index)
      && (reply.CommandQueued? ==>
            && reply.commandId == c.commandId && t.index == s.index[(c.target, c.key) := c.commandId]
            && Get(t.commands, c.target) == Get(s.commands, c.target) + [c]
            && forall a :: a != c.target ==> Get(t.commands, a) == Get(s.commands, a))
      && (reply.CommandDuplicate? ==> reply.existing == s.index[(c.target, c.key)])
      && (!reply.CommandQueued? ==> t == s)
  {
  }

  /** The defect that the refusal of a command names. */
  predicate CommandLacks(c: Command, now: int, error: FleetError) {
    match error
    case UnsupportedSchema => !c.schemaMatches
    case Missing(field) =>
      || (field == "command_id" && c.commandId == "") || (field == "target_agent_id" && c.target == "")
      || (field == "idempotency_key" && c.key == "") || (field == "kind" && c.kind == "")
      || (field == "remote_session_lease_id" && c.lease == "")
    case BadTime => c.expiresAt.Unreadable?
    case AlreadyExpired => c.expiresAt.Absent? || (c.expiresAt.At? && c.expiresAt.instant <= now)
    case _ => false
  }

  lemma RefusedCommandLacks(s: Fleet, c: Command, now: int)
    requires QueueCommand(s, c, now).1.Failure?
    ensures CommandLacks(c, now, QueueCommand(s, c, now).1.error)
  {
  }

  /** The queued command's expiry, which a queue only holds readable. */
  function ExpiryOf(c: Command): int {
    if c.expiresAt.At? then c.expiresAt.instant else 0
  }

  /** The first command in the queue that has not expired. */
  predicate FirstLive(queue: seq<Command>, c: Command, now: int) {
    exists i :: 0 <= i < |queue| && queue[i] == c && now < ExpiryOf(c)
      && forall j :: 0 <= j < i ==> ExpiryOf(queue[j]) <= now
  }

  lemma {:induction false} SweepTakesFirst(agent: AgentId, queue: seq<Command>, index: Index, now: int)
    requires forall c :: c in queue ==> c.expiresAt.At?
    ensures var s := SweepQueue(agent, queue, index, now);
      if s.selected.Some? then FirstLive(queue, s.selected.value, now)
      else forall c :: c in queue ==> ExpiryOf(c) <= now
  {
    if queue != [] {
      var n := |queue| - 1;
      var init, c := queue[..n], queue[n];
      assert queue == init + [c];
      SweepTakesFirst(agent, init, index, now);
      var t := SweepQueue(agent, init, index, now);
      if t.selected.Some? {
        var i :| 0 <= i < |init| && init[i] == t.selected.value && now < ExpiryOf(t.selected.value)
          && forall j :: 0 <= j < i ==> ExpiryOf(init[j]) <= now;
        assert queue[i] == t.selected.value && forall j :: 0 <= j < i ==> queue[j] == init[j];
      } else {
        assert forall j :: 0 <= j < n ==> queue[j] == init[j] && init[j] in init;
        assert queue[n] == c;
      }
    }
  }

  /** What a reachable queue holds: commands of the agent with readable expiries and distinct keys, all indexed. */
  ghost predicate OrderlyQueue(s: Fleet, agent: AgentId) {
    var queue := Get(s.commands, agent);
    && (forall c :: c in queue ==> c.target == agent && c.expiresAt.At?)
    && DistinctKeys(queue)
    && forall c :: c in queue ==> (agent, c.key) in s.index && s.index[(agent, c.key)] == c.commandId
  }

  lemma PartOfDistinct(d: seq<Command>, q: seq<Command>)
    requires DistinctKeys(d + q)
    ensures DistinctKeys(q)
  {
    forall i, j | 0 <= i < j < |q| ensures q[i].key != q[j].key {
      assert (d + q)[|d| + i] == q[i] && (d + q)[|d| + j] == q[j];
    }
  }

  lemma LedgerIsOrderly(s: Fleet, agent: AgentId, d: seq<Command>, e: seq<Command>, x: nat)
    requires Ledger(s.index, agent, d, Get(s.commands, agent), e, x)
    ensures OrderlyQueue(s, agent)
  {
    var q := Get(s.commands, agent);
    PartOfDistinct(d, q);
    assert forall c :: c in q ==> c in d + q;
  }

  lemma ReachedQueueIsOrderly(ops: seq<Op>, agent: AgentId)
    ensures OrderlyQueue(Run(ops), agent)
  {
    RunKeepsQueues(ops);
    assert AgentInvariant(Get(Run(ops).commands, agent), Run(ops).index, History(ops), agent);
    LedgerIsOrderly(Run(ops), agent, Pick(History(ops), Delivered, agent), Pick(History(ops), Enqueued, agent),
                    |Pick(History(ops), Dropped, agent)|);
  }

  /** Polling at that time: who is handed out, and who stays in the queue. */
  ghost predicate PolledQueue(queue: seq<Command>, left: seq<Command>, reply: Reply, now: int) {
    && (reply == NoCommand <==> forall c :: c in queue ==> ExpiryOf(c) <= now)
    && (reply != NoCommand ==> reply.Handed? && FirstLive(queue, reply.command, now))
    && Subseq(left, queue)
    && forall c :: c in queue ==> (c in left <==> now < ExpiryOf(c) && reply != Handed(c))
  }

  /** Polling at that time: whose key is freed. */
  ghost predicate PolledIndex(queue: seq<Command>, index: Index, index': Index, agent: AgentId, now: int) {
    && (forall c :: c in queue ==> ((agent, c.key) in index' <==> now < ExpiryOf(c)))
    && (forall k :: k in index' ==> k in index && index'[k] == index[k])
    && (forall k :: k in index && k !in index' ==> k.0 == agent && exists c :: c in queue && c.key == k.1)
  }

  lemma SweptKeyIsFree(s: Fleet, agent: AgentId, now: int, c: Command)
    requires OrderlyQueue(s, agent) && c in Get(s.commands, agent)
    ensures (agent, c.key) in NextCommand(s, agent, now).0.index <==> now < ExpiryOf(c)
  {
    var queue := Get(s.commands, agent);
    var sweep := SweepQueue(agent, queue, s.index, now);
    SweepSplits(agent, queue, s.index, now);
    if now < ExpiryOf(c) {
      forall x | x in sweep.dropped ensures x.key != c.key {
        var i :| 0 <= i < |queue| && queue[i] == x;
        var j :| 0 <= j < |queue| && queue[j] == c;
        assert i < j ==> queue[i].key != queue[j].key;
        assert j < i ==> queue[j].key != queue[i].key;
      }
    } else {
      assert c in sweep.dropped;
      assert (agent, c.key) in set x | x in sweep.dropped :: (agent, x.key);
    }
  }

  lemma HandedIsNotKept(sweep: Sweep)
    requires DistinctKeys(Front(sweep) + sweep.kept) && sweep.selected.Some?
    ensures sweep.selected.value !in sweep.kept
  {
    forall i | 0 <= i < |sweep.kept| ensures sweep.kept[i] != sweep.selected.value {
      var all := Front(sweep) + sweep.kept;
      assert all[0] == sweep.selected.value && all[i + 1] == sweep.kept[i];
    }
  }

  lemma LiveIsKeptOrHanded(s: Fleet, agent: AgentId, now: int, c: Command)
    requires OrderlyQueue(s, agent) && c in Get(s.commands, agent)
    ensures c in Get(NextCommand(s, agent, now).0.commands, agent)
      <==> now < ExpiryOf(c) && NextCommand(s, agent, now).1 != Handed(c)
  {
    var queue := Get(s.commands, agent);
    var sweep := SweepQueue(agent, queue, s.index, now);
    SweepSplits(agent, queue, s.index, now);
    SweepKeepsLive(agent, queue, s.index, now, c);
    SubseqDistinct(Front(sweep) + sweep.kept, queue);
    if sweep.selected == Some(c) {
      HandedIsNotKept(sweep);
    }
    if c in sweep.kept {
      assert c in Front(sweep) + sweep.kept;
    }
  }

  /**
   In every reachable state polling hands out the first command whose expiry is still to come, drops just
   those whose expiry has passed and frees their keys, keeps the rest in order, and answers that there is
   nothing exactly if all have expired.
   */
  lemma PolledIffLive(ops: seq<Op>, agent: AgentId, now: int)
    ensures var s := Run(ops);
      var (t, reply) := NextCommand(s, agent, now);
      && (forall c :: c in Get(s.commands, agent) ==> c.expiresAt.At?)
      && PolledQueue(Get(s.commands, agent), Get(t.commands, agent), reply, now)
      && PolledIndex(Get(s.commands, agent), s.index, t.index, agent, now)
      && forall a :: a != agent ==> Get(t.commands, a) == Get(s.commands, a)
  {
    ReachedQueueIsOrderly(ops, agent);
    PolledQueueByClock(Run(ops), agent, now);
    PolledIndexByClock(Run(ops), agent, now);
  }

  lemma PolledQueueByClock(s: Fleet, agent: AgentId, now: int)
    requires OrderlyQueue(s, agent)
    ensures var (t, reply) := NextCommand(s, agent, now);
      PolledQueue(Get(s.commands, agent), Get(t.commands, agent), reply, now)
  {
    var queue := Get(s.commands, agent);
    var (t, reply) := NextCommand(s, agent, now);
    var sweep := SweepQueue(agent, queue, s.index, now);
    SweepOrder(agent, queue, s.index, now);
    SweepTakesFirst(agent, queue, s.index, now);
    forall c | c in queue ensures c in Get(t.commands, agent) <==> now < ExpiryOf(c) && reply != Handed(c) {
      LiveIsKeptOrHanded(s, agent, now, c);
    }
    KeptIsSubseq(sweep, queue);
    if sweep.selected.Some? {
      var i :| 0 <= i < |queue| && queue[i] == sweep.selected.value && now < ExpiryOf(queue[i]);
    }
  }

  lemma PolledIndexByClock(s: Fleet, agent: AgentId, now: int)
    requires OrderlyQueue(s, agent)
    ensures PolledIndex(Get(s.commands, agent), s.index, NextCommand(s, agent, now).0.index, agent, now)
  {
    var queue := Get(s.commands, agent);
    var t := NextCommand(s, agent, now).0;
    var sweep := SweepQueue(agent, queue, s.index, now);
    SweepIndex(agent, queue, s.index, now);
    SweepMembers(agent, queue, s.index, now);
    forall c | c in queue ensures (agent, c.key) in t.index <==> now < ExpiryOf(c) {
      SweptKeyIsFree(s, agent, now, c);
    }
    forall k | k in s.index && k !in t.index ensures k.0 == agent && exists c :: c in queue && c.key == k.1 {
      var c :| c in sweep.dropped && k == (agent, c.key);
      assert c in queue;
    }
  }

  lemma KeptIsSubseq(sweep: Sweep, queue: seq<Command>)
    requires Subseq(Front(sweep) + sweep.kept, queue)
    ensures Subseq(sweep.kept, queue)
  {
    if sweep.selected.Some? {
      TailIsSubseq(sweep.selected.value, sweep.kept);
      SubseqTransitive(sweep.kept, Front(sweep) + sweep.kept, queue);
    } else {
      assert Front(sweep) + sweep.kept == sweep.kept;
    }
  }

  lemma {:induction false} TailIsSubseq(x: Command, cs: seq<Command>)
    ensures Subseq(cs, [x] + cs)
  {
    if cs != [] {
      var n := |cs| - 1;
      TailIsSubseq(x, cs[..n]);
      SubseqSnoc(cs[..n], [x] + cs[..n], cs[n]);
      assert cs == cs[..n] + [cs[n]] && [x] + cs == ([x] + cs[..n]) + [cs[n]];
    }
  }

  /** A queued command was taken before its expiry, so it is handed out only then. */
  lemma HandedBeforeExpiry(ops: seq<Op>, agent: AgentId, now: int, c: Command)
    requires NextCommand(Run(ops), agent, now).1 == Handed(c)
    ensures c.target == agent && c.expiresAt.At? && now < c.expiresAt.instant
  {
    ReachedQueueIsOrderly(ops, agent);
    PolledIffLive(ops, agent, now);
  }

  // ---------------------------------------------------------------- results

  /** The last event of the log about the intent. */
  function LastEventOf(es: seq<MirrorEvent>, id: string): Option<MirrorEvent> {
    if es == [] then None
    else if es[|es| - 1].intentId == id then Some(es[|es| - 1])
    else LastEventOf(es[..|es| - 1], id)
  }

  lemma LastEventSnoc(es: seq<MirrorEvent>, e: MirrorEvent, id: string)
    ensures LastEventOf(es + [e], id) == if e.intentId == id then Some(e) else LastEventOf(es, id)
  {
    assert (es + [e])[..|es|] == es;
  }

  /** The result has reached the intent: it is stored, names the state, and is the last event of the lease about it. */
  ghost predicate Reached(t: Fleet, id: string, r: CommandResult) {
    && id in t.intents && t.intents[id].targetResult == Some(r) && NamedBy(t.intents[id].state, r.status)
    && var last := LastEventOf(Get(t.events, t.intents[id].leaseId), id);
       && last.Some? && last.value.decision.Reported? && last.value.targetResult == Some(r)
       && last.value.state == t.intents[id].state && last.value.commandId == r.commandId
  }

  lemma ReportReaches(s: Fleet, id: string, r: CommandResult)
    requires id in s.intents
    ensures Reached(ApplyToIntent(s, id, r), id, r)
  {
    var status := s.intents[id];
    var state := StateFromStatus(r.status);
    var e := MirrorEvent(id, status.leaseId, status.source, status.target, r.commandId, state, Reported, None, Some(r));
    LastEventSnoc(Get(s.events, status.leaseId), e, id);
  }

  lemma OtherReportSpares(s: Fleet, id: string, r: CommandResult, other: string)
    requires Reached(s, id, r) && other != id
    ensures Reached(ApplyToIntent(s, other, r), id, r)
  {
    if other in s.intents {
      var status := s.intents[other];
      var state := StateFromStatus(r.status);
      var e := MirrorEvent(other, status.leaseId, status.source, status.target, r.commandId, state, Reported, None,
                           Some(r));
      LastEventSnoc(Get(s.events, status.leaseId), e, id);
    }
  }

  lemma {:induction false} ReportsReach(s: Fleet, ids: seq<string>, r: CommandResult, id: string)
    requires id in ids && id in s.intents && Distinct(ids)
    ensures Reached(ApplyToIntents(s, ids, r), id, r)
  {
    var n := |ids| - 1;
    var init := ids[..n];
    assert ids == init + [ids[n]];
    ReportsKeepIdentity(s, init, r, id);
    if ids[n] == id {
      ReportReaches(ApplyToIntents(s, init, r), id, r);
    } else {
      assert id in init;
      ReportsReach(s, init, r, id);
      OtherReportSpares(ApplyToIntents(s, init, r), id, r, ids[n]);
    }
  }

  lemma {:induction false} ReportsKeepResults(s: Fleet, ids: seq<string>, r: CommandResult)
    ensures ApplyToIntents(s, ids, r).results == s.results
  {
    if ids != [] {
      ReportsKeepResults(s, ids[..|ids| - 1], r);
    }
  }

  /**
   A complete result is accepted and reaches just the intents that wait for its command: it is stored with
   them, its text names their state, and their lease's log ends, as far as they are concerned, with it.
   */
  lemma ResultReaches(s: Fleet, r: CommandResult)
    requires MirrorInvariant(s)
    ensures var (t, reply) := RecordResult(s, r);
      && (reply == ResultAccepted <==> r.schemaMatches && r.commandId != "" && r.agent != "")
      && (reply != ResultAccepted ==> reply.Failure? && t == s)
      && (reply == ResultAccepted ==> t.results == s.results + [r])
      && (reply == ResultAccepted ==> forall id :: id in s.intents ==>
            if !s.intents[id].decision.Refused? && s.intents[id].commandId == r.commandId then Reached(t, id, r)
            else id in t.intents && t.intents[id] == s.intents[id])
  {
    var (t, reply) := RecordResult(s, r);
    if reply == ResultAccepted {
      var u, ids := s.(results := s.results + [r]), Get(s.commandIndex, r.commandId);
      assert Waiting(ids, r.commandId, s.intents);
      ReportsKeepResults(u, ids, r);
      forall id | id in s.intents
        ensures if id in ids then Reached(t, id, r) else id in t.intents && t.intents[id] == s.intents[id]
      {
        if id in ids {
          ReportsReach(u, ids, r, id);
        } else {
          ReportsSpareRefused(u, ids, r, id);
        }
      }
    }
  }

  /** The last result recorded for a command. */
  function LastResult(results: seq<CommandResult>, commandId: string): Option<CommandResult> {
    if results == [] then None
    else if results[|results| - 1].commandId == commandId then Some(results[|results| - 1])
    else LastResult(results[..|results| - 1], commandId)
  }

  lemma LastResultSnoc(results: seq<CommandResult>, r: CommandResult, commandId: string)
    ensures LastResult(results + [r], commandId)
         == if r.commandId == commandId then Some(r) else LastResult(results, commandId)
  {
    assert (results + [r])[..|results|] == results;
  }

  /** What is stored with an intent follows from the results recorded for its command. */
  predicate FollowsResults(results: seq<CommandResult>, status: IntentStatus) {
    if status.targetResult.None? then
      if status.decision.Refused? then status.state.Rejected? else status.state.QueuedForTarget?
    else
      && status.targetResult == LastResult(results, status.commandId)
      && NamedBy(status.state, status.targetResult.value.status)
  }

  lemma ResultKeepsFollowing(s: Fleet, r: CommandResult, id: string)
    requires MirrorInvariant(s) && id in s.intents && FollowsResults(s.results, s.intents[id])
    ensures var t := RecordResult(s, r).0;
      id in t.intents && FollowsResults(t.results, t.intents[id])
  {
    ResultReaches(s, r);
    ResultOnIntent(s, r, id);
    LastResultSnoc(s.results, r, s.intents[id].commandId);
    assert SoundStatus(s.intents[id]);
  }

  /** Only results are recorded, and only submissions add intents, which then have no result. */
  lemma OnlySubmissionsAddIntents(s: Fleet, op: Op, id: string)
    requires !op.OpResult? && id in Step(s, op).0.intents
    ensures Step(s, op).0.results == s.results
    ensures id !in s.intents ==> Unreported(Step(s, op).0.intents[id])
  {
    if op.OpSubmit? {
      SubmitCases(s, op.intent, op.now);
      EndAddsUnreported(s, op.intent, op.now, Step(s, op).0, id);
    }
  }

  /** Decided about, and no result yet. */
  predicate Unreported(status: IntentStatus) {
    && status.targetResult.None?
    && if status.decision.Refused? then status.state.Rejected? else status.state.QueuedForTarget?
  }

  lemma EndAddsUnreported(s: Fleet, intent: Intent, now: int, after: Fleet, id: string)
    requires SubmitEnds(s, intent, now, after) && id in after.intents
    ensures after.results == s.results && (id !in s.intents ==> Unreported(after.intents[id]))
  {
    if after == s {
    } else if why :| intent.intentId !in s.intents && after == RejectIntent(s, intent, why).0 {
      RejectAddsUnreported(s, intent, why, id);
    } else {
      var commandId, attached :| after == Taken(s, intent, now, commandId, attached);
      TakenAddsUnreported(s, intent, now, commandId, attached, id);
    }
  }

  lemma RejectAddsUnreported(s: Fleet, intent: Intent, why: MirrorError, id: string)
    requires id in RejectIntent(s, intent, why).0.intents
    ensures var t := RejectIntent(s, intent, why).0;
      t.results == s.results && (id !in s.intents ==> Unreported(t.intents[id]))
  {
  }

  lemma TakenAddsUnreported(s: Fleet, intent: Intent, now: int, commandId: string, attached: bool, id: string)
    requires Convertible(intent) && id in Taken(s, intent, now, commandId, attached).intents
    ensures var t := Taken(s, intent, now, commandId, attached);
      t.results == s.results && (id !in s.intents ==> Unreported(t.intents[id]))
  {
  }

  lemma {:induction false} ReportsAddNoIntents(s: Fleet, ids: seq<string>, r: CommandResult)
    ensures ApplyToIntents(s, ids, r).intents.Keys == s.intents.Keys
  {
    if ids != [] {
      ReportsAddNoIntents(s, ids[..|ids| - 1], r);
    }
  }

  /** In every reachable state an intent is in the state its command's last result names, if one has reached it. */
  lemma {:induction false} StatesFollowResults(ops: seq<Op>, id: string)
    requires id in Run(ops).intents
    ensures FollowsResults(Run(ops).results, Run(ops).intents[id])
  {
    var n := |ops| - 1;
    var s, op := Run(ops[..n]), ops[n];
    EventLogReplays(ops[..n]);
    if op.OpResult? {
      ReportsAddNoIntents(s.(results := s.results + [op.result]), Get(s.commandIndex, op.result.commandId), op.result);
      StatesFollowResults(ops[..n], id);
      ResultKeepsFollowing(s, op.result, id);
    } else {
      OnlySubmissionsAddIntents(s, op, id);
      if id in s.intents {
        StatesFollowResults(ops[..n], id);
        StepOnIntent(s, op, id);
      }
    }
  }

  // ---------------------------------------------------------------- leases and intents

  /** A lease is stored exactly if the request is complete, between two agents, not expired, and allows something. */
  lemma LeaseAcceptedIff(s: Fleet, q: LeaseRequest, now: int)
    ensures var (t, reply) := CreateLease(s, q, now);
      && (reply == LeaseAccepted <==>
            && q.schemaMatches && q.leaseId != "" && q.operatorId != "" && q.source != "" && q.target != ""
            && q.source != q.target && q.fleet != "" && q.purpose != "" && q.consentMode != ""
            && q.indicatorRequired.Some? && q.emergencyStop.Some?
            && q.expiresAt.At? && now < q.expiresAt.instant && q.kinds.Some? && q.kinds.value != [])
      && (reply != LeaseAccepted ==> reply.Failure? && LeaseLacks(q, now, reply.error) && t == s)
      && (reply == LeaseAccepted ==>
            && t == s.(leases := t.leases) && t.leases.Keys == s.leases.Keys + {q.leaseId}
            && (forall id :: id in s.leases && id != q.leaseId ==> t.leases[id] == s.leases[id])
            && var lease := t.leases[q.leaseId];
               && lease.fleet == q.fleet && lease.source == q.source && lease.target == q.target
               && lease.expiresAt == q.expiresAt && lease.kinds == q.kinds.value
               && lease.requiresLocalAdb == q.requiresLocalAdb && lease.revoked == q.revoked)
  {
  }

  /** The defect that the refusal of a lease names. */
  predicate LeaseLacks(q: LeaseRequest, now: int, error: FleetError) {
    match error
    case UnsupportedSchema => !q.schemaMatches
    case Missing(field) =>
      || (field == "lease_id" && q.leaseId == "") || (field == "operator_id" && q.operatorId == "")
      || (field == "source_agent_id" && q.source == "") || (field == "target_agent_id" && q.target == "")
      || (field == "fleet_id" && q.fleet == "") || (field == "purpose" && q.purpose == "")
      || (field == "consent_mode" && q.consentMode == "")
      || (field == "active_indicator_required" && q.indicatorRequired.None?)
      || (field == "emergency_stop_supported" && q.emergencyStop.None?)
      || (field == "expires_at" && q.expiresAt.Absent?) || (field == "allowed_command_kinds" && q.kinds.None?)
    case SourceIsTarget => q.source == q.target
    case BadTime => q.expiresAt.Unreadable?
    case AlreadyExpired => q.expiresAt.At? && q.expiresAt.instant <= now
    case NoAllowedKinds => q.kinds == Some([])
    case _ => false
  }

  /** What is wrong with an intent that is rejected for this reason. */
  predicate RejectedFor(s: Fleet, intent: Intent, now: int, why: MirrorError) {
    match why
    case IntentExpired => intent.expiresAt.At? ==> intent.expiresAt.instant <= now
    case NoLease => intent.leaseId !in s.leases
    case QueueRejected => intent.key == Some("") || intent.kind == ""
    case _ => intent.leaseId in s.leases && LeaseFails(s.leases[intent.leaseId], intent, now, why)
  }

  predicate LeaseFails(lease: Lease, intent: Intent, now: int, why: MirrorError) {
    match why
    case LeaseRevoked => lease.revoked
    case FleetMismatch => lease.fleet != intent.fleet
    case SourceNotAllowed => lease.source != intent.source
    case TargetNotAllowed => lease.target != intent.target
    case LeaseWithoutExpiry => lease.expiresAt.Absent?
    case LeaseBadExpiry => lease.expiresAt.Unreadable?
    case LeaseExpired => lease.expiresAt.At? && lease.expiresAt.instant <= now
    case KindNotAllowed => intent.kind !in lease.kinds
    case AdbRequirementMissing =>
      ActsThroughAdb(intent.kind) && lease.requiresLocalAdb && intent.requiresLocalAdb != True
    case _ => false
  }

  lemma LeaseErrorFails(lease: Lease, intent: Intent, now: int)
    requires LeaseError(lease, intent, now).Some?
    ensures LeaseFails(lease, intent, now, LeaseError(lease, intent, now).value)
  {
  }

  /** A rejection names a defect, and is stored with the intent and as the last event of the lease it claimed. */
  lemma RejectionNamesDefect(s: Fleet, intent: Intent, now: int)
    requires SubmitIntent(s, intent, now).1.IntentRejected?
    ensures var (t, reply) := SubmitIntent(s, intent, now);
      && RejectedFor(s, intent, now, reply.why)
      && intent.intentId !in s.intents
      && StoredAndLogged(s, t, intent, "mirror-" + intent.intentId, Rejected, Some(reply.why))
  {
    if intent.leaseId in s.leases && LeaseError(s.leases[intent.leaseId], intent, now).Some? {
      LeaseErrorFails(s.leases[intent.leaseId], intent, now);
    }
    RejectionIsStored(s, intent, SubmitIntent(s, intent, now).1.why);
  }

  lemma RejectionIsStored(s: Fleet, intent: Intent, why: MirrorError)
    ensures StoredAndLogged(s, RejectIntent(s, intent, why).0, intent, "mirror-" + intent.intentId, Rejected, Some(why))
  {
  }

  /** The decision about an intent is stored with its identity, and logged last under its lease. */
  predicate StoredAndLogged(s: Fleet, t: Fleet, intent: Intent, commandId: string, state: MirrorState,
                            error: Option<MirrorError>) {
    && intent.intentId in t.intents && Stored(t.intents[intent.intentId], intent, commandId, state, error)
    && |Get(t.events, intent.leaseId)| == |Get(s.events, intent.leaseId)| + 1
    && Logged(Get(t.events, intent.leaseId)[|Get(s.events, intent.leaseId)|], intent, commandId, state, error)
  }

  predicate Stored(status: IntentStatus, intent: Intent, commandId: string, state: MirrorState,
                   error: Option<MirrorError>) {
    && status.leaseId == intent.leaseId && status.source == intent.source && status.target == intent.target
    && status.commandId == commandId && status.state == state && status.error == error && status.targetResult.None?
  }

  predicate Logged(e: MirrorEvent, intent: Intent, commandId: string, state: MirrorState, error: Option<MirrorError>) {
    && e.intentId == intent.intentId && e.leaseId == intent.leaseId && e.source == intent.source
    && e.target == intent.target && e.commandId == commandId && e.state == state && e.error == error
    && e.targetResult.None?
  }

  /** The command an intent becomes says what the intent says, and where it comes from. */
  predicate SpeaksForIntent(c: Command, intent: Intent) {
    && c.schemaMatches && c.commandId == "mirror-" + intent.intentId && c.target == intent.target
    && c.fleet == intent.fleet && Some(c.issuedAt) == intent.issuedAt && c.expiresAt == intent.expiresAt
    && Some(c.key) == intent.key && c.kind == intent.kind && c.lease == intent.leaseId
    && (c.requiresLocalAdb <==> intent.requiresLocalAdb == True || intent.requiresLocalAdb == Truthy)
    && c.payload == Some(intent.payload) && c.origin == Some("mirror") && c.source == Some(intent.source)
    && c.intent == Some(intent.intentId)
  }

  /**
   An intent that is taken is stored and logged as queued. Either its command, which speaks for it, ends the
   target's queue, or its key was taken and it waits for the command that took it.
   */
  lemma TakenIntentTells(s: Fleet, intent: Intent, now: int)
    requires SubmitIntent(s, intent, now).1.IntentQueued?
    ensures var (t, reply) := SubmitIntent(s, intent, now);
      && StoredAndLogged(s, t, intent, reply.attachedTo, QueuedForTarget, None)
      && (reply.decision.Queued? || reply.decision.Attached?)
      && (reply.decision.Attached? ==>
            && t.commands == s.commands && t.index == s.index && intent.key.Some?
            && (intent.target, intent.key.value) in s.index
            && reply.attachedTo == s.index[(intent.target, intent.key.value)])
      && (reply.decision.Queued? ==>
            && reply.attachedTo == "mirror-" + intent.intentId
            && var queue := Get(t.commands, intent.target);
               queue != [] && queue[..|queue| - 1] == Get(s.commands, intent.target)
               && SpeaksForIntent(queue[|queue| - 1], intent))
  {
    SubmitQueues(s, intent, now);
    var (t, reply) := SubmitIntent(s, intent, now);
    QueuedIff(s, MirrorCommand(intent), now);
    TakenIsStored(s, intent, now, reply.attachedTo, reply.decision.Attached?);
  }

  lemma TakenIsStored(s: Fleet, intent: Intent, now: int, commandId: string, attached: bool)
    requires Convertible(intent)
    ensures StoredAndLogged(s, Taken(s, intent, now, commandId, attached), intent, commandId, QueuedForTarget, None)
  {
  }

  /** The defect that the refusal of a submission names. */
  predicate IntentLacks(intent: Intent, error: FleetError) {
    match error
    case UnsupportedSchema => !intent.schemaMatches
    case Missing(field) =>
      || (field == "mirror_intent_id" && intent.intentId == "") || (field == "source_agent_id" && intent.source == "")
      || (field == "target_agent_id" && intent.target == "") || (field == "lease_id" && intent.leaseId == "")
    case MalformedIntent =>
      || intent.issuedAt == None || intent.key == None || intent.requiresLocalAdb == NoFlag || !intent.hasReason
      || !intent.convertible
    case _ => false
  }

  /** A submission that is refused or repeats a stored intent changes nothing, and is answered with why. */
  lemma UntakenIntentTells(s: Fleet, intent: Intent, now: int)
    ensures var (t, reply) := SubmitIntent(s, intent, now);
      && (reply.Failure? ==> t == s && IntentLacks(intent, reply.error))
      && (reply.IntentDuplicate? <==>
            && intent.schemaMatches && intent.intentId != "" && intent.source != "" && intent.target != ""
            && intent.intentId in s.intents)
      && (reply.IntentDuplicate? ==> t == s && reply.status == s.intents[intent.intentId])
  {
  }

  /** A result is refused for what it lacks, and only an unknown lease cannot be revoked. */
  lemma OtherRefusalsTell(s: Fleet, r: CommandResult, leaseId: string)
    ensures var reply := RecordResult(s, r).1;
      && (reply == Failure(UnsupportedSchema) <==> !r.schemaMatches)
      && (reply == Failure(Missing("command_id")) <==> r.schemaMatches && r.commandId == "")
      && (reply == Failure(Missing("agent_id")) <==> r.schemaMatches && r.commandId != "" && r.agent == "")
    ensures var (t, reply) := RevokeLease(s, leaseId);
      && (reply == Revoked <==> leaseId in s.leases)
      && (reply != Revoked ==> reply == Failure(LeaseMissing) && t == s)
  {
  }
}
