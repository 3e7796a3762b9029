/** When the receiver remembers a message id, told by the clock readings of its calls. */
module ReplayWindow {
  import opened Wrappers
  import opened Gossip
  import opened HttpReceiver

  // ---------------------------------------------------------------- one call

  /** The remembered ids whose window has passed at that time. */
  function Passed(seen: map<string, HttpReceiver.Seen>, now: real, ttl: real): set<string> {
    set id | id in seen && now - seen[id].acceptedAt > ttl
  }

  lemma PruneByClock(r: Receiver, now: real)
    ensures var after := Prune(r, now);
      && after == r.(seen := after.seen, expired := after.expired)
      && (forall id :: id in after.seen <==> id in r.seen && now - r.seen[id].acceptedAt <= r.ttl)
      && (forall id :: id in after.seen ==> after.seen[id] == r.seen[id])
      && after.expired == r.expired + |Passed(r.seen, now, r.ttl)|
  {
    assert r.seen.Keys - Prune(r, now).seen.Keys == Passed(r.seen, now, r.ttl);
  }

  /** The call accepts a payload under this id. */
  predicate TakesId(x: Record, id: string) {
    x.call.Gossip? && x.verdict.Some? && x.verdict.value.Accepted? && x.call.payload.messageId.id == Some(id)
  }

  /**
   A call forgets just the ids whose window has passed when it begins, counts them, and remembers the one
   it accepts, if any, by the digest of its payload and the time it stamps it with.
   */
  lemma CallForgetsPassed(digest: Digest, r: Receiver, c: Call)
    ensures var (after, record) := Step(digest, r, c);
      && after.expired == r.expired + |Passed(r.seen, c.pruneAt, r.ttl)|
      && (forall id :: id in after.seen <==>
            TakesId(record, id) || (id in r.seen && c.pruneAt - r.seen[id].acceptedAt <= r.ttl))
      && (forall id :: id in after.seen ==>
            if TakesId(record, id) then after.seen[id] == Seen(digest(c.payload), c.stampAt)
            else after.seen[id] == r.seen[id])
  {
    PruneByClock(r, c.pruneAt);
    if c.Gossip? {
      ProcessSeen(digest, Prune(r, c.pruneAt), c.payload, c.stampAt);
      AcceptKeepsExpired(digest, Prune(r, c.pruneAt), c.payload, c.stampAt);
    }
  }

  lemma AcceptKeepsExpired(digest: Digest, r: Receiver, p: Payload, stampAt: real)
    ensures Process(digest, r, p, stampAt).0.expired == r.expired
  {
  }

  // ---------------------------------------------------------------- runs

  /** The last call of the log that accepted this id. */
  function LastTaken(log: seq<Record>, id: string): Option<nat> {
    if log == [] then None
    else if TakesId(log[|log| - 1], id) then Some(|log| - 1)
    else LastTaken(log[..|log| - 1], id)
  }

  lemma {:induction false} LastTakenIsLast(log: seq<Record>, id: string)
    ensures var last := LastTaken(log, id);
      && (last.Some? ==> last.value < |log| && TakesId(log[last.value], id)
                         && forall k :: last.value < k < |log| ==> !TakesId(log[k], id))
      && (last.None? ==> forall k :: 0 <= k < |log| ==> !TakesId(log[k], id))
  {
    if log != [] && !TakesId(log[|log| - 1], id) {
      LastTakenIsLast(log[..|log| - 1], id);
      assert forall k :: 0 <= k < |log| - 1 ==> log[..|log| - 1][k] == log[k];
    }
  }

  lemma LastTakenSnoc(log: seq<Record>, x: Record, id: string)
    ensures LastTaken(log + [x], id) == if TakesId(x, id) then Some(|log|) else LastTaken(log, id)
  {
    assert (log + [x])[..|log|] == log;
  }

  /** Every call since the last acceptance of the id began within the window that it opened. */
  predicate Open(log: seq<Record>, id: string, ttl: real) {
    && LastTaken(log, id).Some?
    && var j := LastTaken(log, id).value;
       j < |log| && log[j].call.Gossip?
       && forall k :: j < k < |log| ==> log[k].call.pruneAt - log[j].call.stampAt <= ttl
  }

  /** The id is remembered just while the window of its last acceptance is open, by that acceptance. */
  predicate RemembersOpen(digest: Digest, r: Receiver, log: seq<Record>, id: string) {
    && (id in r.seen <==> Open(log, id, r.ttl))
    && (id in r.seen ==>
          var x := log[LastTaken(log, id).value].call; r.seen[id] == Seen(digest(x.payload), x.stampAt))
  }

  lemma OpenSnoc(log: seq<Record>, x: Record, id: string, ttl: real)
    ensures TakesId(x, id) ==> Open(log + [x], id, ttl)
    ensures !TakesId(x, id) ==>
      (Open(log + [x], id, ttl) <==>
         Open(log, id, ttl) && x.call.pruneAt - log[LastTaken(log, id).value].call.stampAt <= ttl)
  {
    LastTakenSnoc(log, x, id);
    LastTakenIsLast(log, id);
    if LastTaken(log, id).Some? {
      var j := LastTaken(log, id).value;
      assert (log + [x])[j] == log[j] && (log + [x])[|log|] == x;
      assert forall k :: j < k < |log| ==> (log + [x])[k] == log[k];
    }
  }

  lemma RemembersOpenStep(digest: Digest, r: Receiver, log: seq<Record>, c: Call, id: string)
    requires RemembersOpen(digest, r, log, id)
    ensures var (after, record) := Step(digest, r, c); RemembersOpen(digest, after, log + [record], id)
  {
    var (after, record) := Step(digest, r, c);
    CallForgetsPassed(digest, r, c);
    OpenSnoc(log, record, id, r.ttl);
    LastTakenSnoc(log, record, id);
    if id in after.seen && !TakesId(record, id) {
      assert (log + [record])[LastTaken(log, id).value] == log[LastTaken(log, id).value];
    }
  }

  /** In every reachable state, whatever the clock did: an id is remembered just while its window is open. */
  lemma {:induction false} RememberedIffOpen(digest: Digest, fleet: string, ttl: real, calls: seq<Call>, id: string)
    ensures var (r, log) := Run(digest, fleet, ttl, calls); RemembersOpen(digest, r, log, id)
  {
    if calls != [] {
      var init := calls[..|calls| - 1];
      RememberedIffOpen(digest, fleet, ttl, init, id);
      var (r, log) := Run(digest, fleet, ttl, init);
      RemembersOpenStep(digest, r, log, calls[|calls| - 1], id);
    }
  }

  // ---------------------------------------------------------------- the verdict

  /** The window of the id's last acceptance is still open when a call begins at that time. */
  predicate OpenAt(log: seq<Record>, id: string, ttl: real, now: real) {
    Open(log, id, ttl) && now - log[LastTaken(log, id).value].call.stampAt <= ttl
  }

  /** What the payload accepted last under the id hashes to. */
  function LastDigest(digest: Digest, log: seq<Record>, id: string, ttl: real): int
    requires Open(log, id, ttl)
  {
    digest(log[LastTaken(log, id).value].call.payload)
  }

  /** A payload that can be processed: it has an id and no defect. */
  predicate Sendable(p: Payload) {
    && p.messageId.id.Some? && p.schemaMatches && !p.hasForbiddenField && p.fleet.Some? && p.sender.Some?
    && p.entries != [] && forall i :: 0 <= i < |p.entries| ==> p.entries[i].Some?
  }

  lemma SendableIff(p: Payload)
    ensures Sendable(p) <==> p.messageId.id.Some? && ValidateEnvelope(p).None?
  {
  }

  /** The payload was merged, and answered by how the merge went. */
  predicate AnsweredByMerge(r: Receiver, after: Receiver, p: Payload, v: Verdict) {
    var m := Merge(r.fleet, r.table, 0, p);
    after.table == m.table && if m.fault.None? then v.Accepted? else v == Rejected(Invalid(m.fault.value))
  }

  /** The verdict on a payload by what its id stands for, if it is remembered. */
  lemma ProcessBySeen(digest: Digest, r: Receiver, p: Payload, stampAt: real)
    requires Sendable(p)
    ensures var (after, v) := Process(digest, r, p, stampAt);
      var id := p.messageId.id.value;
      && (v.Duplicate? <==> id in r.seen && r.seen[id].digest == digest(p))
      && (v == Rejected(ReplayConflict) <==> id in r.seen && r.seen[id].digest != digest(p))
      && (if id in r.seen then after.table == r.table else AnsweredByMerge(r, after, p, v))
  {
    SendableIff(p);
  }

  /** The verdict on a payload by the window of its id. */
  predicate ByWindow(digest: Digest, r: Receiver, after: Receiver, v: Verdict, p: Payload, open: bool, last: int) {
    && (v.Duplicate? <==> open && last == digest(p))
    && (v == Rejected(ReplayConflict) <==> open && last != digest(p))
    && (if open then after.table == r.table else AnsweredByMerge(r, after, p, v))
  }

  lemma RememberedAt(digest: Digest, r: Receiver, log: seq<Record>, id: string, now: real)
    requires RemembersOpen(digest, r, log, id)
    ensures id in Prune(r, now).seen <==> OpenAt(log, id, r.ttl, now)
    ensures id in Prune(r, now).seen ==> Prune(r, now).seen[id].digest == LastDigest(digest, log, id, r.ttl)
  {
    PruneByClock(r, now);
  }

  lemma AcceptByWindow(digest: Digest, r: Receiver, log: seq<Record>, p: Payload, pruneAt: real, stampAt: real)
    requires Sendable(p) && RemembersOpen(digest, r, log, p.messageId.id.value)
    ensures var (after, v) := Accept(digest, r, p, pruneAt, stampAt);
      var id := p.messageId.id.value;
      var open := OpenAt(log, id, r.ttl, pruneAt);
      ByWindow(digest, r, after, v, p, open, if open then LastDigest(digest, log, id, r.ttl) else 0)
  {
    RememberedAt(digest, r, log, p.messageId.id.value, pruneAt);
    ProcessBySeen(digest, Prune(r, pruneAt), p, stampAt);
  }

  /**
   After any calls: a payload that repeats the last one accepted under its id, while the window of that
   acceptance is open, is a duplicate; another payload under the id is a conflict; in all other cases the
   payload is merged. Duplicates and conflicts change nothing in the table.
   */
  lemma VerdictByWindow(digest: Digest, fleet: string, ttl: real, calls: seq<Call>, p: Payload, pruneAt: real,
                        stampAt: real)
    requires Sendable(p)
    ensures var (r, log) := Run(digest, fleet, ttl, calls);
      var (after, v) := Accept(digest, r, p, pruneAt, stampAt);
      var id := p.messageId.id.value;
      var open := OpenAt(log, id, ttl, pruneAt);
      && (v.Duplicate? <==> open && LastDigest(digest, log, id, ttl) == digest(p))
      && (v == Rejected(ReplayConflict) <==> open && LastDigest(digest, log, id, ttl) != digest(p))
      && (if open then after.table == r.table else AnsweredByMerge(r, after, p, v))
  {
    var (r, log) := Run(digest, fleet, ttl, calls);
    RememberedIffOpen(digest, fleet, ttl, calls, p.messageId.id.value);
    AcceptByWindow(digest, r, log, p, pruneAt, stampAt);
  }

  /** A payload without an id or with a defect is refused for that, and only counted. */
  lemma UnsendableIsRefused(digest: Digest, r: Receiver, p: Payload, pruneAt: real, stampAt: real)
    requires !Sendable(p)
    ensures var (after, v) := Accept(digest, r, p, pruneAt, stampAt);
      && after == Prune(r, pruneAt).(rejected := r.rejected + 1)
      && v.Rejected?
      && (p.messageId.id.None? ==> v.why == MissingMessageId)
      && (p.messageId.id.Some? ==> v.why.Invalid? && HasDefect(p, v.why.fault))
  {
    SendableIff(p);
  }

  ghost predicate AnsweredUpTo(digest: Digest, fleet: string, ttl: real, calls: seq<Call>, n: nat)
    requires n <= |calls|
  {
    Answers(Run(digest, fleet, ttl, calls[..n]).1, calls[..n])
  }

  lemma AnsweredNext(digest: Digest, fleet: string, ttl: real, calls: seq<Call>, n: nat)
    requires 0 < n <= |calls| && AnsweredUpTo(digest, fleet, ttl, calls, n - 1)
    ensures AnsweredUpTo(digest, fleet, ttl, calls, n)
  {
    var (r, log) := Run(digest, fleet, ttl, calls[..n - 1]);
    assert calls[..n] == calls[..n - 1] + [calls[n - 1]];
    RunSnoc(digest, fleet, ttl, calls[..n - 1], calls[n - 1]);
    AnswersSnoc(log, calls, n - 1, Step(digest, r, calls[n - 1]).1);
  }

  lemma {:induction false} LogAnswersCalls(digest: Digest, fleet: string, ttl: real, calls: seq<Call>, n: nat)
    requires n <= |calls|
    ensures AnsweredUpTo(digest, fleet, ttl, calls, n)
  {
    if n > 0 {
      LogAnswersCalls(digest, fleet, ttl, calls, n - 1);
      AnsweredNext(digest, fleet, ttl, calls, n);
    }
  }

  /** If no call began later than this one does, only the last acceptance and the present time matter. */
  lemma OpenIffRecent(digest: Digest, fleet: string, ttl: real, calls: seq<Call>, id: string, now: real)
    requires forall i :: 0 <= i < |calls| ==> calls[i].pruneAt <= now
    ensures var log := Run(digest, fleet, ttl, calls).1;
      var last := LastTaken(log, id);
      && (last.Some? ==> last.value < |log| && log[last.value].call.Gossip?)
      && (OpenAt(log, id, ttl, now) <==> last.Some? && now - log[last.value].call.stampAt <= ttl)
  {
    var log := Run(digest, fleet, ttl, calls).1;
    LogAnswersCalls(digest, fleet, ttl, calls, |calls|);
    assert calls[..|calls|] == calls;
    LastTakenIsLast(log, id);
    forall k | 0 <= k < |log| ensures log[k].call.pruneAt <= now {
      assert log[k].call == calls[k];
    }
  }
}
