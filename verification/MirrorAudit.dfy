/** What the mirror event log says about the intents, in every reachable state. */
module MirrorAudit {
  import opened Wrappers
  import opened FleetControl

  type Intents = map<string, IntentStatus>

  /** The last state each intent is given in a log. */
  function Replay(es: seq<MirrorEvent>): map<string, MirrorState> {
    if es == [] then map[]
    else Replay(es[..|es| - 1])[es[|es| - 1].intentId := es[|es| - 1].state]
  }

  /** The events in which the controller decided about an intent. */
  function Decisions(es: seq<MirrorEvent>): seq<MirrorEvent> {
    if es == [] then []
    else Decisions(es[..|es| - 1]) + if es[|es| - 1].decision.Reported? then [] else [es[|es| - 1]]
  }

  /** The stored states of the intents under one lease. */
  function StatusTable(intents: Intents, lease: string): map<string, MirrorState> {
    map id | id in intents && intents[id].leaseId == lease :: intents[id].state
  }

  /** An event carries the identity its intent is stored with. */
  predicate EventMatches(e: MirrorEvent, lease: string, intents: Intents) {
    && e.leaseId == lease
    && e.intentId in intents
    && var status := intents[e.intentId];
       && status.leaseId == lease && status.commandId == e.commandId
       && status.source == e.source && status.target == e.target
  }

  ghost predicate OneDecisionEach(ds: seq<MirrorEvent>, lease: string, intents: Intents) {
    && (forall i, j :: 0 <= i < j < |ds| ==> ds[i].intentId != ds[j].intentId)
    && (forall d :: d in ds ==>
          d.intentId in intents && d.decision == intents[d.intentId].decision && d.error == intents[d.intentId].error)
    && (forall id :: id in intents && intents[id].leaseId == lease ==> exists d :: d in ds && d.intentId == id)
  }

  /** The log of one lease replays to the status table and decides each of its intents once. */
  ghost predicate LeaseLog(es: seq<MirrorEvent>, lease: string, intents: Intents) {
    && (forall e :: e in es ==> EventMatches(e, lease, intents))
    && Replay(es) == StatusTable(intents, lease)
    && OneDecisionEach(Decisions(es), lease, intents)
  }

  predicate Distinct(ids: seq<string>) {
    forall i, j :: 0 <= i < j < |ids| ==> ids[i] != ids[j]
  }

  /** The intents waiting for a command's results: all it was queued for or attached to, once each. */
  ghost predicate Waiting(ids: seq<string>, commandId: string, intents: Intents) {
    && Distinct(ids)
    && forall id :: id in ids <==>
      id in intents && intents[id].decision != Refused && intents[id].commandId == commandId
  }

  /** The state is the one that the text of a result's status names; any other text is a failure. */
  predicate NamedBy(state: MirrorState, text: string) {
    && (state.Completed? <==> text == "completed")
    && (state.Rejected? <==> text == "rejected")
    && (state.TimedOut? <==> text == "timeout")
    && (state.Skipped? <==> text == "skipped")
    && (state.Failed? <==>
          text == "failed" || text !in {"completed", "rejected", "failed", "timeout", "skipped"})
  }

  predicate SoundStatus(status: IntentStatus) {
    && !status.decision.Reported?
    && (status.decision.Refused? ==> status.state.Rejected? && status.error.Some? && status.targetResult.None?)
    && (!status.decision.Refused? ==> status.error.None?)
    && (!status.decision.Refused? && status.targetResult.None? ==> status.state.QueuedForTarget?)
    && (status.targetResult.Some? ==> NamedBy(status.state, status.targetResult.value.status))
  }

  ghost predicate MirrorInvariant(s: Fleet) {
    && (forall lease :: LeaseLog(Get(s.events, lease), lease, s.intents))
    && (forall commandId :: Waiting(Get(s.commandIndex, commandId), commandId, s.intents))
    && (forall id :: id in s.intents ==> SoundStatus(s.intents[id]))
  }

  // ---------------------------------------------------------------- appending events

  lemma ReplaySnoc(es: seq<MirrorEvent>, e: MirrorEvent)
    ensures Replay(es + [e]) == Replay(es)[e.intentId := e.state]
    ensures Decisions(es + [e]) == Decisions(es) + if e.decision.Reported? then [] else [e]
  {
    assert (es + [e])[..|es|] == es;
  }

  lemma {:induction false} DecisionsAreEvents(es: seq<MirrorEvent>)
    ensures forall d :: d in Decisions(es) ==> d in es && !d.decision.Reported?
  {
    if es != [] {
      DecisionsAreEvents(es[..|es| - 1]);
    }
  }

  lemma TableGrows(intents: Intents, lease: string, id: string, status: IntentStatus)
    requires status.leaseId == lease
    ensures StatusTable(intents[id := status], lease) == StatusTable(intents, lease)[id := status.state]
  {
  }

  lemma DecisionJoins(ds: seq<MirrorEvent>, lease: string, intents: Intents, e: MirrorEvent, status: IntentStatus)
    requires OneDecisionEach(ds, lease, intents) && e.intentId !in intents
    requires e.decision == status.decision && e.error == status.error
    ensures OneDecisionEach(ds + [e], lease, intents[e.intentId := status])
  {
    var intents' := intents[e.intentId := status];
    assert forall i :: 0 <= i < |ds| ==> ds[i] in ds;
    forall id | id in intents' && intents'[id].leaseId == lease ensures exists d :: d in ds + [e] && d.intentId == id {
      if id == e.intentId {
        assert e in ds + [e];
      } else {
        var d :| d in ds && d.intentId == id;
        assert d in ds + [e];
      }
    }
  }

  /** A decision about a new intent. */
  lemma DecisionExtends(es: seq<MirrorEvent>, lease: string, intents: Intents, e: MirrorEvent, status: IntentStatus)
    requires LeaseLog(es, lease, intents) && e.intentId !in intents
    requires EventMatches(e, lease, intents[e.intentId := status])
    requires e.decision == status.decision && !e.decision.Reported? && e.error == status.error
    requires e.state == status.state
    ensures LeaseLog(es + [e], lease, intents[e.intentId := status])
  {
    ReplaySnoc(es, e);
    DecisionJoins(Decisions(es), lease, intents, e, status);
    var intents' := intents[e.intentId := status];
    TableGrows(intents, lease, e.intentId, status);
    forall x | x in es + [e] ensures EventMatches(x, lease, intents') {
      if x in es {
        assert EventMatches(x, lease, intents);
      }
    }
  }

  /** State and result of an intent do not matter to the decisions. */
  lemma ReportKeepsDecisions(ds: seq<MirrorEvent>, lease: string, intents: Intents, id: string, status: IntentStatus)
    requires OneDecisionEach(ds, lease, intents) && id in intents
    requires status == intents[id].(state := status.state, targetResult := status.targetResult)
    ensures OneDecisionEach(ds, lease, intents[id := status])
  {
  }

  /** A target result for a known intent. */
  lemma ReportExtends(es: seq<MirrorEvent>, lease: string, intents: Intents, e: MirrorEvent, status: IntentStatus)
    requires LeaseLog(es, lease, intents)
    requires EventMatches(e, lease, intents) && e.decision.Reported?
    requires status == intents[e.intentId].(state := e.state, targetResult := status.targetResult)
    ensures LeaseLog(es + [e], lease, intents[e.intentId := status])
  {
    ReplaySnoc(es, e);
    var intents' := intents[e.intentId := status];
    TableGrows(intents, lease, e.intentId, status);
    ReportKeepsDecisions(Decisions(es), lease, intents, e.intentId, status);
    forall x | x in es + [e] ensures EventMatches(x, lease, intents') {
      assert EventMatches(x, lease, intents);
    }
  }

  /** Nothing happens to the log of another lease. */
  lemma OtherLease(es: seq<MirrorEvent>, lease: string, intents: Intents, id: string, status: IntentStatus)
    requires LeaseLog(es, lease, intents)
    requires status.leaseId != lease && (id in intents ==> intents[id].leaseId != lease)
    ensures LeaseLog(es, lease, intents[id := status])
  {
    DecisionsAreEvents(es);
    assert StatusTable(intents[id := status], lease) == StatusTable(intents, lease);
    forall e | e in es ensures e.intentId != id && EventMatches(e, lease, intents[id := status]) {
      assert EventMatches(e, lease, intents);
    }
    OtherDecisions(Decisions(es), lease, intents, id, status);
  }

  lemma OtherDecisions(ds: seq<MirrorEvent>, lease: string, intents: Intents, id: string, status: IntentStatus)
    requires OneDecisionEach(ds, lease, intents) && status.leaseId != lease
    requires id in intents ==> intents[id].leaseId != lease
    requires forall d :: d in ds ==> d.intentId != id
    ensures OneDecisionEach(ds, lease, intents[id := status])
  {
  }

  // ---------------------------------------------------------------- steps

  lemma DecideKeepsLogs(s: Fleet, intent: Intent, commandId: string, state: MirrorState, decision: Decision,
                        error: Option<MirrorError>)
    requires forall lease :: LeaseLog(Get(s.events, lease), lease, s.intents)
    requires intent.intentId !in s.intents && !decision.Reported?
    ensures var t := Decide(s, intent, commandId, state, decision, error);
      forall lease :: LeaseLog(Get(t.events, lease), lease, t.intents)
  {
    var t := Decide(s, intent, commandId, state, decision, error);
    var status := IntentStatus(intent.leaseId, intent.source, intent.target, commandId, state, decision, error, None);
    var e := MirrorEvent(intent.intentId, intent.leaseId, intent.source, intent.target, commandId, state, decision,
                         error, None);
    forall lease ensures LeaseLog(Get(t.events, lease), lease, t.intents) {
      if lease == intent.leaseId {
        DecisionExtends(Get(s.events, lease), lease, s.intents, e, status);
      } else {
        OtherLease(Get(s.events, lease), lease, s.intents, intent.intentId, status);
      }
    }
  }

  lemma RejectKeeps(s: Fleet, intent: Intent, why: MirrorError)
    requires MirrorInvariant(s) && intent.intentId !in s.intents
    ensures MirrorInvariant(RejectIntent(s, intent, why).0)
  {
    DecideKeepsLogs(s, intent, MirrorCommandId(intent.intentId), Rejected, Refused, Some(why));
    var t := RejectIntent(s, intent, why).0;
    forall commandId ensures Waiting(Get(t.commandIndex, commandId), commandId, t.intents) {
      assert Waiting(Get(s.commandIndex, commandId), commandId, s.intents);
    }
  }

  /** One command's list of waiting intents once the intent waits for `commandId`. */
  lemma TakenWaits(ids: seq<string>, c: string, intents: Intents, id: string, status: IntentStatus)
    requires Waiting(ids, c, intents) && id !in intents && !status.decision.Refused?
    ensures Waiting(if c == status.commandId then ids + [id] else ids, c, intents[id := status])
  {
  }

  /** The controller takes an intent: its decision is logged and it waits for the command's results. */
  lemma TakeKeeps(s: Fleet, intent: Intent, commandId: string, decision: Decision)
    requires MirrorInvariant(s) && intent.intentId !in s.intents && (decision.Queued? || decision.Attached?)
    ensures var u := Decide(s, intent, commandId, QueuedForTarget, decision, None);
      var ids := Get(u.commandIndex, commandId) + [intent.intentId];
      MirrorInvariant(u.(commandIndex := u.commandIndex[commandId := ids]))
  {
    DecideKeepsLogs(s, intent, commandId, QueuedForTarget, decision, None);
    var u := Decide(s, intent, commandId, QueuedForTarget, decision, None);
    var t := u.(commandIndex := u.commandIndex[commandId := Get(u.commandIndex, commandId) + [intent.intentId]]);
    forall c ensures Waiting(Get(t.commandIndex, c), c, t.intents) {
      TakenWaits(Get(s.commandIndex, c), c, s.intents, intent.intentId, u.intents[intent.intentId]);
    }
  }

  lemma SameMirrorKeeps(s: Fleet, t: Fleet)
    requires MirrorInvariant(s) && t.events == s.events && t.intents == s.intents && t.commandIndex == s.commandIndex
    ensures MirrorInvariant(t)
  {
    forall lease ensures LeaseLog(Get(t.events, lease), lease, t.intents) {
      assert LeaseLog(Get(s.events, lease), lease, s.intents);
    }
    forall c ensures Waiting(Get(t.commandIndex, c), c, t.intents) {
      assert Waiting(Get(s.commandIndex, c), c, s.intents);
    }
  }

  /** What the controller does once it takes the intent. */
  function Taken(s: Fleet, intent: Intent, now: int, commandId: string, attached: bool): Fleet
    requires Convertible(intent)
  {
    var t := QueueCommand(s, MirrorCommand(intent), now).0;
    var u := Decide(t, intent, commandId, QueuedForTarget, if attached then Attached else Queued, None);
    u.(commandIndex := u.commandIndex[commandId := Get(u.commandIndex, commandId) + [intent.intentId]])
  }

  /** The three ways a submission ends: nothing stored, a rejection stored, or the intent taken. */
  ghost predicate SubmitEnds(s: Fleet, intent: Intent, now: int, after: Fleet) {
    || after == s
    || (intent.intentId !in s.intents && exists why :: after == RejectIntent(s, intent, why).0)
    || (intent.intentId !in s.intents && Convertible(intent)
        && exists commandId, attached :: after == Taken(s, intent, now, commandId, attached))
  }

  lemma SubmitCases(s: Fleet, intent: Intent, now: int)
    ensures SubmitEnds(s, intent, now, SubmitIntent(s, intent, now).0)
  {
    var (after, reply) := SubmitIntent(s, intent, now);
    if reply.IntentRejected? {
      assert after == RejectIntent(s, intent, reply.why).0;
    } else if reply.IntentQueued? {
      assert after == Taken(s, intent, now, reply.attachedTo, reply.decision.Attached?);
    }
  }

  lemma TakenKeeps(s: Fleet, intent: Intent, now: int, commandId: string, attached: bool)
    requires MirrorInvariant(s) && intent.intentId !in s.intents && Convertible(intent)
    ensures MirrorInvariant(Taken(s, intent, now, commandId, attached))
  {
    var t := QueueCommand(s, MirrorCommand(intent), now).0;
    SameMirrorKeeps(s, t);
    TakeKeeps(t, intent, commandId, if attached then Attached else Queued);
  }

  lemma SubmitKeeps(s: Fleet, intent: Intent, now: int, after: Fleet)
    requires MirrorInvariant(s) && SubmitEnds(s, intent, now, after)
    ensures MirrorInvariant(after)
  {
    if after == s {
    } else if why :| intent.intentId !in s.intents && after == RejectIntent(s, intent, why).0 {
      RejectKeeps(s, intent, why);
    } else {
      var commandId, attached :| after == Taken(s, intent, now, commandId, attached);
      TakenKeeps(s, intent, now, commandId, attached);
    }
  }

  lemma ReportKeeps(s: Fleet, id: string, r: CommandResult)
    requires MirrorInvariant(s) && id in Get(s.commandIndex, r.commandId)
    ensures MirrorInvariant(ApplyToIntent(s, id, r)) && ApplyToIntent(s, id, r).commandIndex == s.commandIndex
  {
    assert Waiting(Get(s.commandIndex, r.commandId), r.commandId, s.intents);
    var state := StateFromStatus(r.status);
    var status := s.intents[id].(state := state, targetResult := Some(r));
    var e := MirrorEvent(id, status.leaseId, status.source, status.target, r.commandId, state, Reported, None, Some(r));
    var t := ApplyToIntent(s, id, r);
    assert t.intents == s.intents[id := status];
    forall lease ensures LeaseLog(Get(t.events, lease), lease, t.intents) {
      if lease == status.leaseId {
        ReportExtends(Get(s.events, lease), lease, s.intents, e, status);
      } else {
        OtherLease(Get(s.events, lease), lease, s.intents, id, status);
      }
    }
    forall c ensures Waiting(Get(t.commandIndex, c), c, t.intents) {
      assert Waiting(Get(s.commandIndex, c), c, s.intents);
    }
  }

  lemma {:induction false} ReportsKeep(s: Fleet, ids: seq<string>, r: CommandResult)
    requires MirrorInvariant(s) && forall id :: id in ids ==> id in Get(s.commandIndex, r.commandId)
    ensures MirrorInvariant(ApplyToIntents(s, ids, r)) && ApplyToIntents(s, ids, r).commandIndex == s.commandIndex
  {
    if ids != [] {
      assert ids == ids[..|ids| - 1] + [ids[|ids| - 1]];
      ReportsKeep(s, ids[..|ids| - 1], r);
      ReportKeeps(ApplyToIntents(s, ids[..|ids| - 1], r), ids[|ids| - 1], r);
    }
  }

  lemma ResultKeepsMirror(s: Fleet, r: CommandResult)
    requires MirrorInvariant(s)
    ensures MirrorInvariant(RecordResult(s, r).0)
  {
    var t := s.(results := s.results + [r]);
    SameMirrorKeeps(s, t);
    ReportsKeep(t, Get(t.commandIndex, r.commandId), r);
  }

  /** Operations on commands and leases leave intents, events and waiting lists alone. */
  lemma OtherOpsKeepMirror(s: Fleet, op: Op)
    requires !op.OpSubmit? && !op.OpResult?
    ensures var t := Step(s, op).0;
      t.events == s.events && t.intents == s.intents && t.commandIndex == s.commandIndex
  {
  }

  lemma StepKeepsMirror(s: Fleet, op: Op)
    requires MirrorInvariant(s)
    ensures MirrorInvariant(Step(s, op).0)
  {
    match op {
      case OpSubmit(intent, now) =>
        SubmitCases(s, intent, now);
        SubmitKeeps(s, intent, now, Step(s, op).0);
      case OpResult(r) => ResultKeepsMirror(s, r);
      case _ =>
        OtherOpsKeepMirror(s, op);
        SameMirrorKeeps(s, Step(s, op).0);
    }
  }

  /**
   In every reachable state: replaying a lease's events gives the stored state of each of its
   intents, each intent has exactly one decision event, and it waits for results exactly once,
   under its stored command, if and only if the controller did not reject it.
   */
  lemma {:induction false} EventLogReplays(ops: seq<Op>)
    ensures MirrorInvariant(Run(ops))
  {
    if ops != [] {
      EventLogReplays(ops[..|ops| - 1]);
      StepKeepsMirror(Run(ops[..|ops| - 1]), ops[|ops| - 1]);
    }
  }

  // ---------------------------------------------------------------- intents over time

  lemma {:induction false} ReportsSpareRefused(s: Fleet, ids: seq<string>, r: CommandResult, id: string)
    requires id in s.intents && id !in ids
    ensures id in ApplyToIntents(s, ids, r).intents && ApplyToIntents(s, ids, r).intents[id] == s.intents[id]
  {
    if ids != [] {
      assert ids == ids[..|ids| - 1] + [ids[|ids| - 1]];
      ReportsSpareRefused(s, ids[..|ids| - 1], r, id);
    }
  }

  lemma {:induction false} ReportsKeepIdentity(s: Fleet, ids: seq<string>, r: CommandResult, id: string)
    requires id in s.intents
    ensures id in ApplyToIntents(s, ids, r).intents
    ensures var now := ApplyToIntents(s, ids, r).intents[id];
      s.intents[id] == now.(state := s.intents[id].state, targetResult := s.intents[id].targetResult)
  {
    if ids != [] {
      ReportsKeepIdentity(s, ids[..|ids| - 1], r, id);
    }
  }

  lemma DecideOnIntent(s: Fleet, intent: Intent, commandId: string, state: MirrorState, decision: Decision,
                       error: Option<MirrorError>, id: string)
    requires id in s.intents && id != intent.intentId
    ensures var t := Decide(s, intent, commandId, state, decision, error);
      id in t.intents && t.intents[id] == s.intents[id]
  {
  }

  lemma TakenOnIntent(s: Fleet, intent: Intent, now: int, commandId: string, attached: bool, id: string)
    requires Convertible(intent) && id in s.intents && id != intent.intentId
    ensures var t := Taken(s, intent, now, commandId, attached);
      id in t.intents && t.intents[id] == s.intents[id]
  {
    var t := QueueCommand(s, MirrorCommand(intent), now).0;
    assert t.intents == s.intents;
    DecideOnIntent(t, intent, commandId, QueuedForTarget, if attached then Attached else Queued, None, id);
  }

  lemma SubmitOnIntent(s: Fleet, intent: Intent, now: int, id: string)
    requires id in s.intents
    ensures var t := SubmitIntent(s, intent, now).0;
      id in t.intents && t.intents[id] == s.intents[id]
  {
    SubmitCases(s, intent, now);
    EndOnIntent(s, intent, now, SubmitIntent(s, intent, now).0, id);
  }

  lemma EndOnIntent(s: Fleet, intent: Intent, now: int, after: Fleet, id: string)
    requires SubmitEnds(s, intent, now, after) && id in s.intents
    ensures id in after.intents && after.intents[id] == s.intents[id]
  {
    if after == s {
    } else if why :| intent.intentId !in s.intents && after == RejectIntent(s, intent, why).0 {
      DecideOnIntent(s, intent, MirrorCommandId(intent.intentId), Rejected, Refused, Some(why), id);
    } else {
      var commandId, attached :| after == Taken(s, intent, now, commandId, attached);
      TakenOnIntent(s, intent, now, commandId, attached, id);
    }
  }

  lemma SubmitKeepsLeases(s: Fleet, intent: Intent, now: int)
    ensures SubmitIntent(s, intent, now).0.leases == s.leases
  {
  }

  lemma ResultOnIntent(s: Fleet, r: CommandResult, id: string)
    requires MirrorInvariant(s) && id in s.intents
    ensures var t := RecordResult(s, r).0;
      && id in t.intents
      && s.intents[id] == t.intents[id].(state := s.intents[id].state, targetResult := s.intents[id].targetResult)
      && (s.intents[id].decision.Refused? ==> t.intents[id] == s.intents[id])
  {
    var u := s.(results := s.results + [r]);
    var ids := Get(s.commandIndex, r.commandId);
    assert Waiting(ids, r.commandId, s.intents);
    ReportsKeepIdentity(u, ids, r, id);
    if id !in ids {
      ReportsSpareRefused(u, ids, r, id);
    }
  }

  /** Only a target result changes a stored intent, never its identity, and never a rejected one. */
  lemma StepOnIntent(s: Fleet, op: Op, id: string)
    requires MirrorInvariant(s) && id in s.intents
    ensures var t := Step(s, op).0;
      && id in t.intents
      && s.intents[id] == t.intents[id].(state := s.intents[id].state, targetResult := s.intents[id].targetResult)
      && (s.intents[id].decision.Refused? || !op.OpResult? ==> t.intents[id] == s.intents[id])
  {
    match op {
      case OpSubmit(intent, now) => SubmitOnIntent(s, intent, now, id);
      case OpResult(r) => ResultOnIntent(s, r, id);
      case _ => OtherOpsKeepMirror(s, op);
    }
  }

  /** An intent the controller rejected is stored unchanged for the rest of the run. */
  lemma {:induction false} RejectionIsFinal(ops: seq<Op>, more: seq<Op>, id: string)
    requires id in Run(ops).intents && Run(ops).intents[id].decision.Refused?
    ensures id in Run(ops + more).intents && Run(ops + more).intents[id] == Run(ops).intents[id]
    decreases |more|
  {
    if more == [] {
      assert ops + more == ops;
    } else {
      var n := |more| - 1;
      RejectionIsFinal(ops, more[..n], id);
      EventLogReplays(ops + more[..n]);
      assert (ops + more)[..|ops + more| - 1] == ops + more[..n];
      StepOnIntent(Run(ops + more[..n]), more[n], id);
    }
  }

  // ---------------------------------------------------------------- lease safety

  /** All that must hold of a lease for the controller to queue an intent under it. */
  predicate Covers(lease: Lease, intent: Intent, now: int) {
    && !lease.revoked
    && lease.expiresAt.At? && lease.expiresAt.instant > now
    && lease.fleet == intent.fleet && lease.source == intent.source && lease.target == intent.target
    && intent.kind in lease.kinds
    && (ActsThroughAdb(intent.kind) && lease.requiresLocalAdb ==> intent.requiresLocalAdb.True?)
  }

  predicate ActsThroughAdb(kind: string) {
    || kind == "android.foreground_snapshot" || kind == "app.launch_allowlisted"
    || kind == "uiautomator.run_allowlisted_scenario"
  }

  /** What an intent itself must have to become a command. */
  predicate Ready(s: Fleet, intent: Intent, now: int) {
    && intent.schemaMatches && intent.intentId != "" && intent.source != "" && intent.target != ""
    && intent.intentId !in s.intents && intent.leaseId != ""
    && intent.expiresAt.At? && intent.expiresAt.instant > now
    && intent.issuedAt.Some? && intent.key.Some? && !intent.requiresLocalAdb.NoFlag? && intent.hasReason
    && intent.convertible && intent.key.value != "" && intent.kind != ""
  }

  /** An intent becomes a command exactly when it is ready and a live lease covers it. */
  lemma QueuedIffCovered(s: Fleet, intent: Intent, now: int)
    ensures SubmitIntent(s, intent, now).1.IntentQueued?
       <==> Ready(s, intent, now) && intent.leaseId in s.leases && Covers(s.leases[intent.leaseId], intent, now)
  {
  }

  /** The lease table after a run in which a lease was revoked and not created again. */
  lemma {:induction false} RevokedStaysRevoked(s: Fleet, ops: seq<Op>, leaseId: string)
    requires leaseId in s.leases && s.leases[leaseId].revoked
    requires forall op :: op in ops && op.OpCreate? ==> op.request.leaseId != leaseId
    ensures leaseId in RunFrom(s, ops).leases && RunFrom(s, ops).leases[leaseId].revoked
    decreases |ops|
  {
    if ops != [] {
      var init, op := ops[..|ops| - 1], ops[|ops| - 1];
      assert ops == init + [op];
      RevokedStaysRevoked(s, init, leaseId);
      LeasesStep(RunFrom(s, init), op, leaseId);
    }
  }

  function RunFrom(s: Fleet, ops: seq<Op>): Fleet {
    if ops == [] then s else Step(RunFrom(s, ops[..|ops| - 1]), ops[|ops| - 1]).0
  }

  lemma {:induction false} ReportsKeepLeases(s: Fleet, ids: seq<string>, r: CommandResult)
    ensures ApplyToIntents(s, ids, r).leases == s.leases
  {
    if ids != [] {
      ReportsKeepLeases(s, ids[..|ids| - 1], r);
    }
  }

  lemma CreateSparesOthers(s: Fleet, q: LeaseRequest, now: int, leaseId: string)
    requires leaseId in s.leases && q.leaseId != leaseId
    ensures leaseId in CreateLease(s, q, now).0.leases && CreateLease(s, q, now).0.leases[leaseId] == s.leases[leaseId]
  {
  }

  lemma RevokeOnLease(s: Fleet, id: string, leaseId: string)
    requires leaseId in s.leases
    ensures leaseId in RevokeLease(s, id).0.leases
    ensures RevokeLease(s, id).0.leases[leaseId]
      == s.leases[leaseId].(revoked := s.leases[leaseId].revoked || id == leaseId)
  {
  }

  /** A lease changes only by its own creation or revocation. */
  lemma LeasesStep(s: Fleet, op: Op, leaseId: string)
    requires leaseId in s.leases && !(op.OpCreate? && op.request.leaseId == leaseId)
    ensures leaseId in Step(s, op).0.leases
    ensures Step(s, op).0.leases[leaseId]
      == s.leases[leaseId].(revoked := s.leases[leaseId].revoked || op == OpRevoke(leaseId))
  {
    match op {
      case OpSubmit(intent, now) => SubmitKeepsLeases(s, intent, now);
      case OpResult(r) => ReportsKeepLeases(s.(results := s.results + [r]), Get(s.commandIndex, r.commandId), r);
      case OpCreate(q, now) => CreateSparesOthers(s, q, now, leaseId);
      case OpRevoke(id) => RevokeOnLease(s, id, leaseId);
      case _ =>
    }
  }

  /** From a revocation on, until the lease is created anew, no intent under it is queued. */
  lemma RevokedLeaseIsQuiet(s: Fleet, ops: seq<Op>, intent: Intent, now: int)
    requires intent.leaseId in s.leases
    requires forall op :: op in ops && op.OpCreate? ==> op.request.leaseId != intent.leaseId
    ensures !SubmitIntent(RunFrom(RevokeLease(s, intent.leaseId).0, ops), intent, now).1.IntentQueued?
  {
    var revoked := RevokeLease(s, intent.leaseId).0;
    RevokedStaysRevoked(revoked, ops, intent.leaseId);
    QueuedIffCovered(RunFrom(revoked, ops), intent, now);
  }
}
