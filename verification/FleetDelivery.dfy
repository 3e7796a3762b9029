/** What the queue protocol guarantees over every run of the controller. */
module FleetDelivery {
  import opened Wrappers
  import opened FleetControl

  // ---------------------------------------------------------------- subsequences

  /** `a` is left of `b` after striking out some elements. */
  ghost predicate Subseq<T>(a: seq<T>, b: seq<T>)
    decreases |b|
  {
    || a == []
    || (b != [] && Subseq(a, b[..|b| - 1]))
    || (b != [] && a[|a| - 1] == b[|b| - 1] && Subseq(a[..|a| - 1], b[..|b| - 1]))
  }

  lemma {:induction false} SubseqReflexive<T>(a: seq<T>)
    ensures Subseq(a, a)
  {
    if a != [] {
      SubseqReflexive(a[..|a| - 1]);
    }
  }

  lemma SubseqSnoc<T>(a: seq<T>, b: seq<T>, x: T)
    requires Subseq(a, b)
    ensures Subseq(a, b + [x]) && Subseq(a + [x], b + [x])
  {
    assert (b + [x])[..|b|] == b && (a + [x])[..|a|] == a;
  }

  lemma {:induction false} SubseqTransitive<T>(a: seq<T>, b: seq<T>, c: seq<T>)
    requires Subseq(a, b) && Subseq(b, c)
    ensures Subseq(a, c)
    decreases |c|
  {
    if a != [] && b != [] && c != [] {
      var b', c' := b[..|b| - 1], c[..|c| - 1];
      if Subseq(b, c') {
        SubseqTransitive(a, b, c');
      } else if Subseq(a, b') {
        SubseqTransitive(a, b', c');
      } else {
        SubseqTransitive(a[..|a| - 1], b', c');
      }
    }
  }

  lemma {:induction false} SubseqBehind<T>(p: seq<T>, a: seq<T>, b: seq<T>)
    requires Subseq(a, b)
    ensures Subseq(p + a, p + b)
    decreases |b|
  {
    if b == [] {
      assert p + a == p + b;
      SubseqReflexive(p + a);
    } else {
      var b' := b[..|b| - 1];
      assert p + b == (p + b') + [b[|b| - 1]];
      if Subseq(a, b') {
        SubseqBehind(p, a, b');
        SubseqSnoc(p + a, p + b', b[|b| - 1]);
      } else {
        var a' := a[..|a| - 1];
        SubseqBehind(p, a', b');
        assert p + a == (p + a') + [b[|b| - 1]];
        SubseqSnoc(p + a', p + b', b[|b| - 1]);
      }
    }
  }

  lemma {:induction false} SubseqMembers<T>(a: seq<T>, b: seq<T>)
    requires Subseq(a, b)
    ensures forall x :: x in a ==> x in b
    ensures |a| <= |b|
    decreases |b|
  {
    if a != [] {
      var b' := b[..|b| - 1];
      assert b == b' + [b[|b| - 1]];
      if Subseq(a, b') {
        SubseqMembers(a, b');
      } else {
        assert a == a[..|a| - 1] + [a[|a| - 1]];
        SubseqMembers(a[..|a| - 1], b');
      }
    }
  }

  predicate DistinctKeys(cs: seq<Command>) {
    forall i, j :: 0 <= i < j < |cs| ==> cs[i].key != cs[j].key
  }

  lemma {:induction false} SubseqDistinct(a: seq<Command>, b: seq<Command>)
    requires Subseq(a, b) && DistinctKeys(b)
    ensures DistinctKeys(a)
    decreases |b|
  {
    if a != [] {
      var b' := b[..|b| - 1];
      assert b == b' + [b[|b| - 1]];
      if Subseq(a, b') {
        SubseqDistinct(a, b');
      } else {
        var a' := a[..|a| - 1];
        assert a == a' + [a[|a| - 1]];
        SubseqDistinct(a', b');
        SubseqMembers(a', b');
        forall i | 0 <= i < |a'| ensures a[i].key != a[|a'|].key {
          assert a'[i] in b';
        }
      }
    }
  }

  // ---------------------------------------------------------------- the sweep

  function Front(s: Sweep): seq<Command> {
    if s.selected.Some? then [s.selected.value] else []
  }

  lemma {:induction false} SweepIndex(agent: AgentId, queue: seq<Command>, index: Index, now: int)
    ensures var s := SweepQueue(agent, queue, index, now);
      s.index == index - (set c | c in s.dropped :: (agent, c.key))
  {
    if queue != [] {
      var init, c := queue[..|queue| - 1], queue[|queue| - 1];
      SweepIndex(agent, init, index, now);
      var t, s := SweepQueue(agent, init, index, now), SweepQueue(agent, queue, index, now);
      if Expired(c, now) {
        assert (set x | x in s.dropped :: (agent, x.key))
          == (set x | x in t.dropped :: (agent, x.key)) + {(agent, c.key)};
      }
    }
  }

  lemma {:induction false} SweepMembers(agent: AgentId, queue: seq<Command>, index: Index, now: int)
    ensures var s := SweepQueue(agent, queue, index, now);
      && (forall c :: c in Front(s) + s.kept ==> !Expired(c, now))
      && (forall c :: c in s.dropped ==> c in queue && Expired(c, now))
      && (forall c :: c in queue && Expired(c, now) ==> c in s.dropped)
  {
    if queue != [] {
      var init, c := queue[..|queue| - 1], queue[|queue| - 1];
      assert queue == init + [c];
      SweepMembers(agent, init, index, now);
    }
  }

  lemma {:induction false} SweepOrder(agent: AgentId, queue: seq<Command>, index: Index, now: int)
    ensures var s := SweepQueue(agent, queue, index, now);
      && Subseq(Front(s) + s.kept, queue)
      && (s.selected.None? ==> s.kept == [])
      && |queue| == |Front(s)| + |s.kept| + |s.dropped|
  {
    if queue != [] {
      var init, c := queue[..|queue| - 1], queue[|queue| - 1];
      assert queue == init + [c];
      SweepOrder(agent, init, index, now);
      var t, s := SweepQueue(agent, init, index, now), SweepQueue(agent, queue, index, now);
      SubseqSnoc(Front(t) + t.kept, init, c);
      if !Expired(c, now) {
        assert Front(s) + s.kept == Front(t) + t.kept + [c];
      }
    }
  }

  /** The sweep splits the queue: expired commands go, the first other one is taken, the rest stay in order. */
  lemma SweepSplits(agent: AgentId, queue: seq<Command>, index: Index, now: int)
    ensures var s := SweepQueue(agent, queue, index, now);
      && Subseq(Front(s) + s.kept, queue)
      && (s.selected.None? ==> s.kept == [])
      && (forall c :: c in Front(s) + s.kept ==> !Expired(c, now))
      && (forall c :: c in s.dropped ==> c in queue && Expired(c, now))
      && (forall c :: c in queue && Expired(c, now) ==> c in s.dropped)
      && |queue| == |Front(s)| + |s.kept| + |s.dropped|
      && s.index == index - (set c | c in s.dropped :: (agent, c.key))
  {
    SweepOrder(agent, queue, index, now);
    SweepMembers(agent, queue, index, now);
    SweepIndex(agent, queue, index, now);
  }

  // ---------------------------------------------------------------- the history

  datatype Fate = Enqueued | Delivered | Dropped

  datatype Fact = Fact(fate: Fate, agent: AgentId, command: Command)

  function Mark(fate: Fate, agent: AgentId, cs: seq<Command>): seq<Fact> {
    seq(|cs|, i requires 0 <= i < |cs| => Fact(fate, agent, cs[i]))
  }

  function QueueFacts(c: Command, reply: Reply): seq<Fact> {
    if reply.CommandQueued? then [Fact(Enqueued, c.target, c)] else []
  }

  function SubmitFacts(intent: Intent, reply: Reply): seq<Fact> {
    if reply.IntentQueued? && reply.decision.Queued? && Convertible(intent)
    then [Fact(Enqueued, intent.target, MirrorCommand(intent))] else []
  }

  /** What an operation did to the queues. */
  function Facts(s: Fleet, op: Op): seq<Fact> {
    var (after, reply) := Step(s, op);
    match op
    case OpQueue(c, _) => QueueFacts(c, reply)
    case OpSubmit(intent, _) => SubmitFacts(intent, reply)
    case OpNext(agent, now) =>
      var sweep := SweepQueue(agent, Get(s.commands, agent), s.index, now);
      Mark(Dropped, agent, sweep.dropped) + (if reply.Handed? then [Fact(Delivered, agent, reply.command)] else [])
    case _ => []
  }

  function History(ops: seq<Op>): seq<Fact> {
    if ops == [] then []
    else History(ops[..|ops| - 1]) + Facts(Run(ops[..|ops| - 1]), ops[|ops| - 1])
  }

  /** The commands of one agent that met one fate, in order. */
  function Pick(log: seq<Fact>, fate: Fate, agent: AgentId): seq<Command> {
    if log == [] then []
    else
      var x := log[|log| - 1];
      Pick(log[..|log| - 1], fate, agent) + if x.fate == fate && x.agent == agent then [x.command] else []
  }

  lemma {:induction false} PickConcat(a: seq<Fact>, b: seq<Fact>, fate: Fate, agent: AgentId)
    ensures Pick(a + b, fate, agent) == Pick(a, fate, agent) + Pick(b, fate, agent)
    decreases |b|
  {
    if b == [] {
      assert a + b == a;
    } else {
      assert (a + b)[..|a + b| - 1] == a + b[..|b| - 1];
      PickConcat(a, b[..|b| - 1], fate, agent);
    }
  }

  lemma {:induction false} PickMark(fate: Fate, agent: AgentId, cs: seq<Command>, f: Fate, a: AgentId)
    ensures Pick(Mark(fate, agent, cs), f, a) == if f == fate && a == agent then cs else []
    decreases |cs|
  {
    if cs != [] {
      var n := |cs| - 1;
      assert Mark(fate, agent, cs)[..n] == Mark(fate, agent, cs[..n]);
      PickMark(fate, agent, cs[..n], f, a);
      assert cs == cs[..n] + [cs[n]];
    }
  }

  // ---------------------------------------------------------------- the invariant

  /** The index entries of an agent are those of the commands it was handed or still has queued. */
  ghost predicate IndexMatches(index: Index, agent: AgentId, held: seq<Command>) {
    && DistinctKeys(held)
    && (forall c :: c in held ==> (agent, c.key) in index && index[(agent, c.key)] == c.commandId)
    && (forall k :: (agent, k) in index ==> exists c :: c in held && c.key == k)
  }

  /**
   For one agent: delivered and still queued commands together have distinct keys, are just the
   commands the index knows, follow the order of enqueueing, and account for every command
   enqueued and not dropped.
   */
  ghost predicate Ledger(index: Index, agent: AgentId, delivered: seq<Command>, queue: seq<Command>,
                         enqueued: seq<Command>, dropped: nat) {
    && IndexMatches(index, agent, delivered + queue)
    && Subseq(delivered + queue, enqueued)
    && |enqueued| == |delivered| + dropped + |queue|
    && (forall c :: c in queue ==> c.target == agent && c.expiresAt.At?)
  }

  ghost predicate AgentInvariant(queue: seq<Command>, index: Index, log: seq<Fact>, agent: AgentId) {
    Ledger(index, agent, Pick(log, Delivered, agent), queue, Pick(log, Enqueued, agent), |Pick(log, Dropped, agent)|)
  }

  ghost predicate QueueInvariant(s: Fleet, log: seq<Fact>) {
    forall agent :: AgentInvariant(Get(s.commands, agent), s.index, log, agent)
  }

  lemma IndexTakesKey(index: Index, agent: AgentId, held: seq<Command>, c: Command)
    requires IndexMatches(index, agent, held) && (agent, c.key) !in index
    ensures IndexMatches(index[(agent, c.key) := c.commandId], agent, held + [c])
  {
    var index', held' := index[(agent, c.key) := c.commandId], held + [c];
    assert c in held';
    forall k | (agent, k) in index' ensures exists x :: x in held' && x.key == k {
      if k != c.key {
        var x :| x in held && x.key == k;
        assert x in held';
      }
    }
  }

  lemma EnqueueLedger(index: Index, agent: AgentId, d: seq<Command>, q: seq<Command>, e: seq<Command>, x: nat,
                      c: Command)
    requires Ledger(index, agent, d, q, e, x) && (agent, c.key) !in index
    requires c.target == agent && c.expiresAt.At?
    ensures Ledger(index[(agent, c.key) := c.commandId], agent, d, q + [c], e + [c], x)
  {
    assert d + (q + [c]) == (d + q) + [c];
    IndexTakesKey(index, agent, d + q, c);
    SubseqSnoc(d + q, e, c);
  }

  lemma {:induction false} EnqueueKeepsAgent(queue: seq<Command>, index: Index, log: seq<Fact>, agent: AgentId,
                                             c: Command)
    requires AgentInvariant(queue, index, log, agent)
    requires c.target == agent && c.expiresAt.At? && (agent, c.key) !in index
    ensures AgentInvariant(queue + [c], index[(agent, c.key) := c.commandId], log + [Fact(Enqueued, agent, c)], agent)
  {
    var fact := [Fact(Enqueued, agent, c)];
    assert fact == Mark(Enqueued, agent, [c]);
    forall f ensures Pick(log + fact, f, agent) == Pick(log, f, agent) + if f == Enqueued then [c] else [] {
      PickConcat(log, fact, f, agent);
      PickMark(Enqueued, agent, [c], f, agent);
    }
    assert Pick(log, Delivered, agent) + [] == Pick(log, Delivered, agent);
    EnqueueLedger(index, agent, Pick(log, Delivered, agent), queue, Pick(log, Enqueued, agent),
                  |Pick(log, Dropped, agent)|, c);
  }

  /** Facts and index entries of other agents do not matter. */
  lemma OtherAgentKeeps(queue: seq<Command>, index: Index, index': Index, log: seq<Fact>, facts: seq<Fact>,
                        agent: AgentId)
    requires AgentInvariant(queue, index, log, agent)
    requires forall k :: (agent, k) in index' <==> (agent, k) in index
    requires forall k :: (agent, k) in index ==> index'[(agent, k)] == index[(agent, k)]
    requires forall f :: Pick(facts, f, agent) == []
    ensures AgentInvariant(queue, index', log + facts, agent)
  {
    forall f ensures Pick(log + facts, f, agent) == Pick(log, f, agent) {
      PickConcat(log, facts, f, agent);
    }
  }

  /** Striking out commands together with their index entries keeps the match. */
  lemma IndexLosesKeys(index: Index, agent: AgentId, held: seq<Command>, left: seq<Command>, gone: seq<Command>)
    requires IndexMatches(index, agent, held) && Subseq(left, held)
    requires forall c :: c in held ==> c in left || c in gone
    requires forall c, x :: c in left && x in gone ==> c.key != x.key
    ensures IndexMatches(index - (set c | c in gone :: (agent, c.key)), agent, left)
  {
    var index' := index - (set c | c in gone :: (agent, c.key));
    SubseqDistinct(left, held);
    SubseqMembers(left, held);
    forall k | (agent, k) in index' ensures exists c :: c in left && c.key == k {
      var c :| c in held && c.key == k;
      assert c in left;
    }
  }

  lemma SweepLedger(index: Index, agent: AgentId, d: seq<Command>, q: seq<Command>, e: seq<Command>, x: nat, now: int)
    requires Ledger(index, agent, d, q, e, x)
    ensures var s := SweepQueue(agent, q, index, now);
      Ledger(s.index, agent, d + Front(s), s.kept, e, x + |s.dropped|)
  {
    var s := SweepQueue(agent, q, index, now);
    SweepSplits(agent, q, index, now);
    var left := d + Front(s) + s.kept;
    assert left == d + (Front(s) + s.kept);
    SubseqBehind(d, Front(s) + s.kept, q);
    SubseqTransitive(left, d + q, e);
    SubseqMembers(Front(s) + s.kept, q);
    SweptKeysGone(d, q, s, agent, now);
    forall c | c in d + q ensures c in left || c in s.dropped {
      SweepKeepsLive(agent, q, index, now, c);
    }
    IndexLosesKeys(index, agent, d + q, left, s.dropped);
    assert forall c :: c in s.kept ==> c in Front(s) + s.kept;
  }

  lemma SweepFacts(log: seq<Fact>, agent: AgentId, dropped: seq<Command>, front: seq<Command>, f: Fate)
    ensures var facts := Mark(Dropped, agent, dropped) + Mark(Delivered, agent, front);
      Pick(log + facts, f, agent)
      == Pick(log, f, agent) + if f == Dropped then dropped else if f == Delivered then front else []
  {
    var facts := Mark(Dropped, agent, dropped) + Mark(Delivered, agent, front);
    PickConcat(log, facts, f, agent);
    PickConcat(Mark(Dropped, agent, dropped), Mark(Delivered, agent, front), f, agent);
    PickMark(Dropped, agent, dropped, f, agent);
    PickMark(Delivered, agent, front, f, agent);
    assert dropped + [] == dropped && [] + front == front;
  }

  lemma SweepKeepsAgent(queue: seq<Command>, index: Index, log: seq<Fact>, agent: AgentId, now: int)
    requires AgentInvariant(queue, index, log, agent)
    ensures var s := SweepQueue(agent, queue, index, now);
      AgentInvariant(s.kept, s.index, log + (Mark(Dropped, agent, s.dropped) + Mark(Delivered, agent, Front(s))), agent)
  {
    var s := SweepQueue(agent, queue, index, now);
    forall f
      ensures Pick(log + (Mark(Dropped, agent, s.dropped) + Mark(Delivered, agent, Front(s))), f, agent)
           == Pick(log, f, agent) + if f == Dropped then s.dropped else if f == Delivered then Front(s) else []
    {
      SweepFacts(log, agent, s.dropped, Front(s), f);
    }
    SweepLedger(index, agent, Pick(log, Delivered, agent), queue, Pick(log, Enqueued, agent),
                |Pick(log, Dropped, agent)|, now);
    assert Pick(log, Enqueued, agent) + [] == Pick(log, Enqueued, agent);
  }

  /** No key of a dropped command is also the key of one that was delivered or is left. */
  lemma SweptKeysGone(d: seq<Command>, queue: seq<Command>, s: Sweep, agent: AgentId, now: int)
    requires DistinctKeys(d + queue)
    requires forall c :: c in s.dropped ==> c in queue && Expired(c, now)
    requires forall c :: c in Front(s) + s.kept ==> c in queue && !Expired(c, now)
    ensures forall c, x :: c in d + Front(s) + s.kept && x in s.dropped ==> c.key != x.key
  {
    forall c, x | c in d + Front(s) + s.kept && x in s.dropped ensures c.key != x.key {
      var all := d + queue;
      var j :| 0 <= j < |queue| && queue[j] == x;
      assert all[|d| + j] == x;
      if c in d {
        var i :| 0 <= i < |d| && d[i] == c;
        assert all[i] == c;
      } else {
        assert c in Front(s) + s.kept;
        var i :| 0 <= i < |queue| && queue[i] == c;
        assert all[|d| + i] == c;
      }
    }
  }

  lemma {:induction false} SweepKeepsLive(agent: AgentId, queue: seq<Command>, index: Index, now: int, c: Command)
    ensures c in queue && !Expired(c, now) ==>
      c in Front(SweepQueue(agent, queue, index, now)) + SweepQueue(agent, queue, index, now).kept
  {
    if queue != [] {
      assert queue == queue[..|queue| - 1] + [queue[|queue| - 1]];
      SweepKeepsLive(agent, queue[..|queue| - 1], index, now, c);
    }
  }

  lemma QueueStepKeeps(s: Fleet, log: seq<Fact>, c: Command, now: int)
    requires QueueInvariant(s, log)
    ensures var (t, reply) := QueueCommand(s, c, now);
      QueueInvariant(t, log + QueueFacts(c, reply))
  {
    var (t, reply) := QueueCommand(s, c, now);
    if reply.CommandQueued? {
      var fact := [Fact(Enqueued, c.target, c)];
      assert fact[..0] == [];
      forall agent ensures AgentInvariant(Get(t.commands, agent), t.index, log + fact, agent) {
        if agent == c.target {
          EnqueueKeepsAgent(Get(s.commands, agent), s.index, log, agent, c);
        } else {
          OtherAgentKeeps(Get(s.commands, agent), s.index, t.index, log, fact, agent);
        }
      }
    } else {
      assert log + [] == log;
    }
  }

  lemma NextStepKeeps(s: Fleet, log: seq<Fact>, agent: AgentId, now: int)
    requires QueueInvariant(s, log)
    ensures QueueInvariant(NextCommand(s, agent, now).0, log + Facts(s, OpNext(agent, now)))
  {
    var t := NextCommand(s, agent, now).0;
    var sweep := SweepQueue(agent, Get(s.commands, agent), s.index, now);
    var facts := Mark(Dropped, agent, sweep.dropped) + Mark(Delivered, agent, Front(sweep));
    assert facts == Facts(s, OpNext(agent, now));
    SweepSplits(agent, Get(s.commands, agent), s.index, now);
    forall a ensures AgentInvariant(Get(t.commands, a), t.index, log + facts, a) {
      if a == agent {
        SweepKeepsAgent(Get(s.commands, agent), s.index, log, agent, now);
      } else {
        forall f ensures Pick(facts, f, a) == [] {
          PickConcat(Mark(Dropped, agent, sweep.dropped), Mark(Delivered, agent, Front(sweep)), f, a);
          PickMark(Dropped, agent, sweep.dropped, f, a);
          PickMark(Delivered, agent, Front(sweep), f, a);
        }
        OtherAgentKeeps(Get(s.commands, a), s.index, t.index, log, facts, a);
      }
    }
  }

  /** Results, leases and decisions about intents leave the queues alone. */
  lemma {:induction false} ResultsKeepQueues(s: Fleet, ids: seq<string>, r: CommandResult)
    ensures ApplyToIntents(s, ids, r).commands == s.commands && ApplyToIntents(s, ids, r).index == s.index
  {
    if ids != [] {
      ResultsKeepQueues(s, ids[..|ids| - 1], r);
    }
  }

  /** Submitting an intent touches the queues just as queueing its command does, if it gets that far. */
  lemma SubmitQueues(s: Fleet, intent: Intent, now: int)
    ensures var (after, reply) := SubmitIntent(s, intent, now);
      if reply.IntentQueued? then
        Convertible(intent) &&
        var (t, queued) := QueueCommand(s, MirrorCommand(intent), now);
        after.commands == t.commands && after.index == t.index && (reply.decision.Queued? <==> queued.CommandQueued?)
      else after.commands == s.commands && after.index == s.index
  {
  }

  lemma SameQueuesKeep(s: Fleet, t: Fleet, log: seq<Fact>)
    requires QueueInvariant(s, log) && t.commands == s.commands && t.index == s.index
    ensures QueueInvariant(t, log)
  {
    forall agent ensures AgentInvariant(Get(t.commands, agent), t.index, log, agent) {
      assert AgentInvariant(Get(s.commands, agent), s.index, log, agent);
    }
  }

  lemma SubmitKeepsQueues(s: Fleet, log: seq<Fact>, intent: Intent, now: int, after: Fleet, reply: Reply)
    requires QueueInvariant(s, log) && (after, reply) == SubmitIntent(s, intent, now)
    ensures QueueInvariant(after, log + SubmitFacts(intent, reply))
  {
    SubmitQueues(s, intent, now);
    if reply.IntentQueued? {
      QueueStepKeeps(s, log, MirrorCommand(intent), now);
      var (t, queued) := QueueCommand(s, MirrorCommand(intent), now);
      assert SubmitFacts(intent, reply) == QueueFacts(MirrorCommand(intent), queued);
      SameQueuesKeep(t, after, log + SubmitFacts(intent, reply));
    } else {
      assert log + SubmitFacts(intent, reply) == log;
      SameQueuesKeep(s, after, log);
    }
  }

  lemma StepKeepsQueues(s: Fleet, log: seq<Fact>, op: Op)
    requires QueueInvariant(s, log)
    ensures QueueInvariant(Step(s, op).0, log + Facts(s, op))
  {
    assert log + [] == log;
    var (after, reply) := Step(s, op);
    match op {
      case OpQueue(c, now) => QueueStepKeeps(s, log, c, now);
      case OpNext(agent, now) => NextStepKeeps(s, log, agent, now);
      case OpSubmit(intent, now) => SubmitKeepsQueues(s, log, intent, now, after, reply);
      case OpResult(r) =>
        ResultsKeepQueues(s.(results := s.results + [r]), Get(s.commandIndex, r.commandId), r);
        SameQueuesKeep(s, after, log);
      case OpCreate(q, now) => SameQueuesKeep(s, after, log);
      case OpRevoke(id) => SameQueuesKeep(s, after, log);
    }
  }

  lemma {:induction false} RunKeepsQueues(ops: seq<Op>)
    ensures QueueInvariant(Run(ops), History(ops))
  {
    if ops != [] {
      RunKeepsQueues(ops[..|ops| - 1]);
      StepKeepsQueues(Run(ops[..|ops| - 1]), History(ops[..|ops| - 1]), ops[|ops| - 1]);
    }
  }

  // ---------------------------------------------------------------- what a run guarantees

  /** No two commands handed to an agent in a run carry the same idempotency key. */
  lemma {:induction false} DeliveredAtMostOnce(ops: seq<Op>, agent: AgentId)
    ensures DistinctKeys(Pick(History(ops), Delivered, agent))
  {
    RunKeepsQueues(ops);
    var d, q := Pick(History(ops), Delivered, agent), Get(Run(ops).commands, agent);
    assert AgentInvariant(q, Run(ops).index, History(ops), agent);
    forall i, j | 0 <= i < j < |d| ensures d[i].key != d[j].key {
      assert (d + q)[i] == d[i] && (d + q)[j] == d[j];
    }
  }

  /** The commands handed to an agent form a subsequence of those enqueued for it: first in, first out. */
  lemma {:induction false} DeliveredInOrder(ops: seq<Op>, agent: AgentId)
    ensures Subseq(Pick(History(ops), Delivered, agent) + Get(Run(ops).commands, agent),
                   Pick(History(ops), Enqueued, agent))
    ensures Subseq(Pick(History(ops), Delivered, agent), Pick(History(ops), Enqueued, agent))
  {
    RunKeepsQueues(ops);
    var d, q := Pick(History(ops), Delivered, agent), Get(Run(ops).commands, agent);
    assert AgentInvariant(q, Run(ops).index, History(ops), agent);
    assert d + [] == d && Subseq([], q);
    SubseqBehind(d, [], q);
    SubseqTransitive(d, d + q, Pick(History(ops), Enqueued, agent));
  }

  ghost predicate HasKey(cs: seq<Command>, key: string) {
    exists c :: c in cs && c.key == key
  }

  lemma HeldKeys(index: Index, agent: AgentId, d: seq<Command>, q: seq<Command>, key: string)
    requires IndexMatches(index, agent, d + q)
    ensures (agent, key) in index <==> HasKey(d, key) || HasKey(q, key)
  {
    assert forall c :: c in d + q <==> c in d || c in q;
  }

  lemma KeysApart(d: seq<Command>, q: seq<Command>, key: string)
    requires DistinctKeys(d + q)
    ensures !(HasKey(d, key) && HasKey(q, key))
  {
    forall x, y | x in d && y in q ensures x.key != y.key {
      var i :| 0 <= i < |d| && d[i] == x;
      var j :| 0 <= j < |q| && q[j] == y;
      assert (d + q)[i] == x && (d + q)[|d| + j] == y;
    }
  }

  /** A key is taken in the index exactly while its command is queued or once it was delivered, never both. */
  lemma {:induction false} IndexIsQueuedOrDelivered(ops: seq<Op>, agent: AgentId, key: string)
    ensures var queued := HasKey(Get(Run(ops).commands, agent), key);
      var delivered := HasKey(Pick(History(ops), Delivered, agent), key);
      && ((agent, key) in Run(ops).index <==> queued || delivered)
      && !(queued && delivered)
  {
    RunKeepsQueues(ops);
    var d, q := Pick(History(ops), Delivered, agent), Get(Run(ops).commands, agent);
    assert AgentInvariant(q, Run(ops).index, History(ops), agent);
    HeldKeys(Run(ops).index, agent, d, q, key);
    KeysApart(d, q, key);
  }

  /** Every command ever enqueued for an agent was delivered, was dropped as expired, or is still queued. */
  lemma {:induction false} NoCommandLost(ops: seq<Op>, agent: AgentId)
    ensures var log := History(ops);
      |Pick(log, Enqueued, agent)|
      == |Pick(log, Delivered, agent)| + |Pick(log, Dropped, agent)| + |Get(Run(ops).commands, agent)|
  {
    RunKeepsQueues(ops);
    assert AgentInvariant(Get(Run(ops).commands, agent), Run(ops).index, History(ops), agent);
  }

  /** A key freed by expiry can be queued again; one that was delivered answers `duplicate` forever. */
  lemma {:induction false} DeliveredKeyStaysTaken(ops: seq<Op>, c: Command, d: Command, now: int)
    requires CommandFault(c, now).None?
    requires d in Pick(History(ops), Delivered, c.target) && d.key == c.key
    ensures QueueCommand(Run(ops), c, now) == (Run(ops), CommandDuplicate(d.commandId))
  {
    RunKeepsQueues(ops);
    assert AgentInvariant(Get(Run(ops).commands, c.target), Run(ops).index, History(ops), c.target);
    assert d in Pick(History(ops), Delivered, c.target) + Get(Run(ops).commands, c.target);
  }
}
