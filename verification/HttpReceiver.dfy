/**
 The loopback receiver: a gossip table behind a replay window.

 A message id is remembered with the digest of its payload until the window has passed.
 Each call reads the clock twice, once to prune and once to stamp an acceptance.
 `digest` stands for SHA-256 over the canonical JSON; the only thing used of it, and only
 where a theorem says so, is that equal digests mean equal payloads.
 */
module HttpReceiver {
  import opened Wrappers
  import opened Gossip

  /**
   The message id is `None` when it is absent, no text, or empty. `rest` is all else that the digest
   covers and no branch looks at: the other fields, and the texts behind times and numbers.
   */
  datatype Header = Header(id: Option<string>, rest: string)

  type Payload = Envelope<Header>
  type Digest = Payload -> int

  ghost predicate Faithful(digest: Digest) {
    forall p, q :: digest(p) == digest(q) ==> p == q
  }

  datatype Seen = Seen(digest: int, acceptedAt: real)

  datatype Receiver = Receiver(
    fleet: string,
    ttl: real,
    table: Table,
    seen: map<string, Seen>,
    accepted: nat,
    duplicate: nat,
    rejected: nat,
    expired: nat)

  datatype Refusal = MissingMessageId | Invalid(fault: Fault) | ReplayConflict

  /** Not `answered`: the receipt, which sums the table up, raised, and the caller got an error. */
  datatype Verdict = Accepted(answered: bool) | Duplicate(answered: bool) | Rejected(why: Refusal)

  function Start(fleet: string, ttl: real): Receiver {
    Receiver(fleet, ttl, map[], map[], 0, 0, 0, 0)
  }

  predicate Outdated(s: Seen, now: real, ttl: real) {
    now - s.acceptedAt > ttl
  }

  function Live(seen: map<string, Seen>, now: real, ttl: real): map<string, Seen> {
    map id | id in seen && !Outdated(seen[id], now, ttl) :: seen[id]
  }

  function Prune(r: Receiver, now: real): Receiver {
    var live := Live(r.seen, now, r.ttl);
    r.(seen := live, expired := r.expired + |r.seen.Keys - live.Keys|)
  }

  function Refuse(r: Receiver, why: Refusal): (Receiver, Verdict) {
    (r.(rejected := r.rejected + 1), Rejected(why))
  }

  /** A duplicate whose receipt raises is caught as an error and counted as rejected as well. */
  function Repeat(r: Receiver): (Receiver, Verdict) {
    var answered := Summarizable(r.table);
    (r.(duplicate := r.duplicate + 1, rejected := r.rejected + if answered then 0 else 1), Duplicate(answered))
  }

  /** A payload under a fresh id: merged, remembered and counted before the receipt is made. */
  function Merged(digest: Digest, r: Receiver, p: Payload, id: string, stampAt: real): (Receiver, Verdict) {
    var m := Merge(r.fleet, r.table, 0, p);
    if m.fault.Some? then Refuse(r.(table := m.table), Invalid(m.fault.value))
    else
      (r.(table := m.table, seen := r.seen[id := Seen(digest(p), stampAt)], accepted := r.accepted + 1),
       Accepted(Summarizable(m.table)))
  }

  /** One call, once the outdated ids are pruned. */
  function Process(digest: Digest, r: Receiver, p: Payload, stampAt: real): (result: (Receiver, Verdict))
    ensures result.0.fleet == r.fleet && result.0.ttl == r.ttl
  {
    if p.messageId.id.None? then Refuse(r, MissingMessageId)
    else
      match ValidateEnvelope(p)
      case Some(fault) => Refuse(r, Invalid(fault))
      case None =>
        var id := p.messageId.id.value;
        if id in r.seen && r.seen[id].digest == digest(p) then Repeat(r)
        else if id in r.seen then Refuse(r, ReplayConflict)
        else Merged(digest, r, p, id, stampAt)
  }

  /** One call: `pruneAt` and `stampAt` are its two clock readings. */
  function Accept(digest: Digest, r: Receiver, p: Payload, pruneAt: real, stampAt: real): (result: (Receiver, Verdict))
    ensures result.0.fleet == r.fleet && result.0.ttl == r.ttl
  {
    Process(digest, Prune(r, pruneAt), p, stampAt)
  }

  class PeerHttpState {
    const digest: Digest
    const fleet: string
    const ttl: real
    const gossip: GossipState
    var seen: map<string, Seen>
    var accepted: nat
    var duplicate: nat
    var rejected: nat
    var expired: nat

    ghost predicate Valid()
      reads this
    {
      gossip.fleet == fleet
    }

    /** The state as a value. */
    ghost function Contents(): Receiver
      reads this, gossip
    {
      Receiver(fleet, ttl, gossip.observations, seen, accepted, duplicate, rejected, expired)
    }

    constructor (digest: Digest, fleet: string, observer: AgentId, ttl: real)
      requires ttl > 0.0
      ensures Valid() && fresh(gossip) && this.digest == digest
      ensures Contents() == Start(fleet, ttl)
    {
      this.digest, this.fleet, this.ttl := digest, fleet, ttl;
      gossip := new GossipState(fleet, observer);
      seen := map[];
      accepted, duplicate, rejected, expired := 0, 0, 0, 0;
    }

    method PruneSeenMessages(now: real)
      requires Valid()
      modifies this
      ensures Valid() && Contents() == Prune(old(Contents()), now)
    {
      var outdated := set id | id in seen && Outdated(seen[id], now, ttl);
      expired := expired + |outdated|;
      assert outdated == seen.Keys - Live(seen, now, ttl).Keys;
      assert seen - outdated == Live(seen, now, ttl);
      seen := seen - outdated;
    }

    /** `wallClock` is the time the receipt's summary is made at. */
    method AcceptGossip(p: Payload, pruneAt: real, stampAt: real, wallClock: int) returns (verdict: Verdict)
      requires Valid()
      modifies this, gossip
      ensures Valid()
      ensures (Contents(), verdict) == Accept(digest, old(Contents()), p, pruneAt, stampAt)
    {
      PruneSeenMessages(pruneAt);
      var fault := ValidateEnvelope(p);
      if p.messageId.id.None? || fault.Some? {
        rejected := rejected + 1;
        return Rejected(if p.messageId.id.None? then MissingMessageId else Invalid(fault.value));
      }
      var id := p.messageId.id.value;
      if id in seen && seen[id].digest == digest(p) {
        verdict := AnswerDuplicate(wallClock);
      } else if id in seen {
        rejected := rejected + 1;
        verdict := Rejected(ReplayConflict);
      } else {
        verdict := TakeIn(p, id, stampAt, wallClock);
      }
    }

    /** A receipt that raises is caught with the other errors. */
    method AnswerDuplicate(wallClock: int) returns (verdict: Verdict)
      requires Valid()
      modifies this
      ensures Valid() && (Contents(), verdict) == Repeat(old(Contents()))
    {
      duplicate := duplicate + 1;
      var receipt := gossip.Summary(wallClock);
      if receipt.Err? {
        rejected := rejected + 1;
      }
      return Duplicate(receipt.Ok?);
    }

    /** Merges and remembers a payload; a receipt that raises is no longer caught. */
    method TakeIn(p: Payload, id: string, stampAt: real, wallClock: int) returns (verdict: Verdict)
      requires Valid()
      modifies this, gossip
      ensures Valid() && (Contents(), verdict) == Merged(digest, old(Contents()), p, id, stampAt)
    {
      var fault := gossip.MergeEnvelope(p);
      if fault.Some? {
        rejected := rejected + 1;
        return Rejected(Invalid(fault.value));
      }
      seen := seen[id := Seen(digest(p), stampAt)];
      accepted := accepted + 1;
      var receipt := gossip.Summary(wallClock);
      return Accepted(receipt.Ok?);
    }
  }

  // ---------------------------------------------------------------- runs

  /** A call with its clock readings, or a summary or health request, which only prunes, answered or not. */
  datatype Call =
    | Gossip(payload: Payload, pruneAt: real, stampAt: real)
    | Inspect(pruneAt: real)

  datatype Record = Record(call: Call, verdict: Option<Verdict>)

  function Step(digest: Digest, r: Receiver, c: Call): (result: (Receiver, Record))
    ensures result.0.fleet == r.fleet && result.0.ttl == r.ttl && result.1.call == c
  {
    match c
    case Inspect(now) => (Prune(r, now), Record(c, None))
    case Gossip(p, pruneAt, stampAt) =>
      var (after, verdict) := Accept(digest, r, p, pruneAt, stampAt);
      (after, Record(c, Some(verdict)))
  }

  /** The receiver after a run of calls, and what it answered. */
  function Run(digest: Digest, fleet: string, ttl: real, calls: seq<Call>): (result: (Receiver, seq<Record>))
    ensures |result.1| == |calls|
    ensures result.0.fleet == fleet && result.0.ttl == ttl
  {
    if calls == [] then (Start(fleet, ttl), [])
    else
      var (r, log) := Run(digest, fleet, ttl, calls[..|calls| - 1]);
      var (after, record) := Step(digest, r, calls[|calls| - 1]);
      (after, log + [record])
  }

  function Count(log: seq<Record>, counts: Record -> bool): nat {
    if log == [] then 0
    else Count(log[..|log| - 1], counts) + if counts(log[|log| - 1]) then 1 else 0
  }

  lemma CountSnoc(log: seq<Record>, record: Record, counts: Record -> bool)
    ensures Count(log + [record], counts) == Count(log, counts) + if counts(record) then 1 else 0
  {
    assert (log + [record])[..|log|] == log;
  }

  predicate IsAccepted(x: Record) { x.verdict.Some? && x.verdict.value.Accepted? }
  predicate IsDuplicate(x: Record) { x.verdict.Some? && x.verdict.value.Duplicate? }
  predicate IsRejected(x: Record) { x.verdict.Some? && x.verdict.value.Rejected? }
  predicate IsTwiceCounted(x: Record) { IsDuplicate(x) && !x.verdict.value.answered }
  predicate IsGossip(x: Record) { x.call.Gossip? }

  lemma PruneCounts(r: Receiver, now: real)
    ensures |Prune(r, now).seen| + Prune(r, now).expired == |r.seen| + r.expired
  {
    var live := Live(r.seen, now, r.ttl);
    assert r.seen.Keys == live.Keys + (r.seen.Keys - live.Keys);
    assert |r.seen.Keys| == |live.Keys| + |r.seen.Keys - live.Keys|;
    assert |r.seen| == |r.seen.Keys| && |live| == |live.Keys|;
  }

  lemma ProcessCounts(digest: Digest, r: Receiver, p: Payload, stampAt: real)
    ensures var (after, verdict) := Process(digest, r, p, stampAt);
      && after.accepted - |after.seen| == r.accepted - |r.seen| && after.expired == r.expired
      && after.accepted == r.accepted + (if verdict.Accepted? then 1 else 0)
      && after.duplicate == r.duplicate + (if verdict.Duplicate? then 1 else 0)
      && after.rejected == r.rejected + (if verdict.Rejected? || verdict == Duplicate(false) then 1 else 0)
  {
  }

  lemma AcceptCounts(digest: Digest, r: Receiver, p: Payload, pruneAt: real, stampAt: real)
    ensures var (after, verdict) := Accept(digest, r, p, pruneAt, stampAt);
      && after.accepted - |after.seen| - after.expired == r.accepted - |r.seen| - r.expired
      && after.accepted == r.accepted + (if verdict.Accepted? then 1 else 0)
      && after.duplicate == r.duplicate + (if verdict.Duplicate? then 1 else 0)
      && after.rejected == r.rejected + (if verdict.Rejected? || verdict == Duplicate(false) then 1 else 0)
  {
    PruneCounts(r, pruneAt);
    ProcessCounts(digest, Prune(r, pruneAt), p, stampAt);
  }

  /**
   Accounting in every reachable state, whatever the clock does and the payloads say: each acceptance
   is either still remembered or counted as expired, and every call is counted once, a replay conflict
   among the rejections, except that a duplicate whose receipt raises counts as rejected too.
   */
  lemma {:induction false} Accounting(digest: Digest, fleet: string, ttl: real, calls: seq<Call>)
    ensures var (r, log) := Run(digest, fleet, ttl, calls);
      && r.accepted == |r.seen| + r.expired
      && r.accepted == Count(log, IsAccepted)
      && r.duplicate == Count(log, IsDuplicate)
      && r.rejected == Count(log, IsRejected) + Count(log, IsTwiceCounted)
      && r.accepted + r.duplicate + r.rejected == Count(log, IsGossip) + Count(log, IsTwiceCounted)
  {
    if calls != [] {
      var init, c := calls[..|calls| - 1], calls[|calls| - 1];
      Accounting(digest, fleet, ttl, init);
      var (r, log) := Run(digest, fleet, ttl, init);
      var (after, record) := Step(digest, r, c);
      match c {
        case Inspect(now) => PruneCounts(r, now);
        case Gossip(p, pruneAt, stampAt) => AcceptCounts(digest, r, p, pruneAt, stampAt);
      }
      CountSnoc(log, record, IsAccepted);
      CountSnoc(log, record, IsDuplicate);
      CountSnoc(log, record, IsRejected);
      CountSnoc(log, record, IsTwiceCounted);
      CountSnoc(log, record, IsGossip);
    }
  }

  /** The call repeats a remembered payload while some stored observation cannot be summed up. */
  predicate RepeatsUnanswerably(digest: Digest, r: Receiver, c: Call) {
    && c.Gossip? && ValidateEnvelope(c.payload).None?
    && RemembersPayload(digest, Live(r.seen, c.pruneAt, r.ttl), c.payload)
    && !Summarizable(r.table)
  }

  predicate RemembersPayload(digest: Digest, seen: map<string, Seen>, p: Payload) {
    p.messageId.id.Some? && p.messageId.id.value in seen && seen[p.messageId.id.value].digest == digest(p)
  }

  lemma TwiceCountedStep(digest: Digest, r: Receiver, c: Call)
    ensures IsTwiceCounted(Step(digest, r, c).1) <==> RepeatsUnanswerably(digest, r, c)
  {
  }

  lemma RunSnoc(digest: Digest, fleet: string, ttl: real, calls: seq<Call>, c: Call)
    ensures var (r, log) := Run(digest, fleet, ttl, calls);
      var (after, record) := Step(digest, r, c);
      Run(digest, fleet, ttl, calls + [c]) == (after, log + [record])
  {
    assert (calls + [c])[..|calls|] == calls;
  }

  /** Call `k` of the run is such a repetition, judged by the state before it. */
  predicate UnanswerableAt(digest: Digest, fleet: string, ttl: real, calls: seq<Call>, k: nat)
    requires k < |calls|
  {
    RepeatsUnanswerably(digest, Run(digest, fleet, ttl, calls[..k]).0, calls[k])
  }

  lemma TwiceCountedSnoc(digest: Digest, fleet: string, ttl: real, calls: seq<Call>, n: nat)
    requires n < |calls|
    ensures Count(Run(digest, fleet, ttl, calls[..n + 1]).1, IsTwiceCounted)
         == Count(Run(digest, fleet, ttl, calls[..n]).1, IsTwiceCounted)
            + if UnanswerableAt(digest, fleet, ttl, calls, n) then 1 else 0
  {
    var init, c := calls[..n], calls[n];
    var (r, log) := Run(digest, fleet, ttl, init);
    assert calls[..n + 1] == init + [c];
    RunSnoc(digest, fleet, ttl, init, c);
    TwiceCountedStep(digest, r, c);
    CountSnoc(log, Step(digest, r, c).1, IsTwiceCounted);
  }

  /** How many of the first `n` numbers have the property. */
  function Occurrences(n: nat, p: nat -> bool): nat {
    if n == 0 then 0 else Occurrences(n - 1, p) + if p(n - 1) then 1 else 0
  }

  lemma {:induction false} NoOccurrenceIff(n: nat, p: nat -> bool)
    ensures Occurrences(n, p) == 0 <==> forall k: nat :: k < n ==> !p(k)
  {
    if n > 0 {
      NoOccurrenceIff(n - 1, p);
    }
  }

  function Unanswerable(digest: Digest, fleet: string, ttl: real, calls: seq<Call>): nat -> bool {
    (k: nat) => k < |calls| && UnanswerableAt(digest, fleet, ttl, calls, k)
  }

  lemma {:induction false} TwiceCounted(digest: Digest, fleet: string, ttl: real, calls: seq<Call>, n: nat)
    requires n <= |calls|
    ensures Count(Run(digest, fleet, ttl, calls[..n]).1, IsTwiceCounted)
         == Occurrences(n, Unanswerable(digest, fleet, ttl, calls))
  {
    if n > 0 {
      TwiceCounted(digest, fleet, ttl, calls, n - 1);
      TwiceCountedSnoc(digest, fleet, ttl, calls, n - 1);
    }
  }

  /**
   The three counters add up to the number of gossip calls exactly when no duplicate was met while
   the table held an observation that cannot be summed up.
   */
  lemma EachCallCountedOnceIff(digest: Digest, fleet: string, ttl: real, calls: seq<Call>)
    ensures var (r, log) := Run(digest, fleet, ttl, calls);
      r.accepted + r.duplicate + r.rejected == Count(log, IsGossip)
      <==> forall k: nat :: k < |calls| ==> !Unanswerable(digest, fleet, ttl, calls)(k)
  {
    Accounting(digest, fleet, ttl, calls);
    TwiceCounted(digest, fleet, ttl, calls, |calls|);
    assert calls[..|calls|] == calls;
    NoOccurrenceIff(|calls|, Unanswerable(digest, fleet, ttl, calls));
  }

  /** A payload about one agent nobody knows, alive, with a time that does not parse. */
  function GarbledPayload(fleet: string): Payload {
    var status := Status(true, true, true, None, None, Some(30));
    Envelope(true, false, Some(fleet), Some("peer"), Header(Some("m"), ""), 1,
             [Some(Observation("a", None, Some(1), "peer", status))])
  }

  lemma GarbledMerge(fleet: string)
    ensures ValidateEnvelope(GarbledPayload(fleet)).None?
    ensures var m := Merge(fleet, map[], 0, GarbledPayload(fleet));
      m.fault.None? && m.table.Keys == {"a"} && !Summarizable(m.table)
  {
    var p := GarbledPayload(fleet);
    var os := Observations(p);
    assert os[..0] == [] && |os| == 1;
    assert MergeAll(map[], os) == Done(map["a" := os[0]]);
  }

  /** A receiver that has accepted the garbled payload, with no answer, and nothing else. */
  function Garbled(digest: Digest, fleet: string, ttl: real, at: real): Receiver {
    var p := GarbledPayload(fleet);
    Receiver(fleet, ttl, Merge(fleet, map[], 0, p).table, map["m" := Seen(digest(p), at)], 1, 0, 0, 0)
  }

  lemma GarbledOnce(digest: Digest, fleet: string, ttl: real, at: real)
    ensures Accept(digest, Start(fleet, ttl), GarbledPayload(fleet), at, at)
      == (Garbled(digest, fleet, ttl, at), Accepted(false))
  {
    GarbledMerge(fleet);
    var start := Start(fleet, ttl);
    assert Live(start.seen, at, ttl) == map[] && Prune(start, at) == start;
  }

  lemma GarbledAgain(digest: Digest, fleet: string, ttl: real, at: real)
    requires ttl > 0.0
    ensures var once := Garbled(digest, fleet, ttl, at);
      Accept(digest, once, GarbledPayload(fleet), at, at) == (once.(duplicate := 1, rejected := 1), Duplicate(false))
  {
    GarbledMerge(fleet);
    var once := Garbled(digest, fleet, ttl, at);
    assert Live(once.seen, at, ttl) == once.seen && Prune(once, at) == once;
  }

  /** Posted twice inside the window it makes three counts of two calls. */
  lemma DuplicateCountedTwice(digest: Digest, fleet: string, ttl: real, at: real)
    requires ttl > 0.0
    ensures var c := Gossip(GarbledPayload(fleet), at, at);
      var (r, log) := Run(digest, fleet, ttl, [c, c]);
      r.accepted == 1 && r.duplicate == 1 && r.rejected == 1 && Count(log, IsGossip) == 2
  {
    var c := Gossip(GarbledPayload(fleet), at, at);
    GarbledOnce(digest, fleet, ttl, at);
    GarbledAgain(digest, fleet, ttl, at);
    RunSnoc(digest, fleet, ttl, [], c);
    RunSnoc(digest, fleet, ttl, [c], c);
    assert [] + [c] == [c] && [c] + [c] == [c, c];
    var x, y := Record(c, Some(Accepted(false))), Record(c, Some(Duplicate(false)));
    assert [] + [x] == [x];
    CountSnoc([], x, IsGossip);
    CountSnoc([x], y, IsGossip);
  }

  // ---------------------------------------------------------------- replay dedupe is transparent

  /** Merging `o` again would change nothing. */
  predicate Absorbed(t: Table, o: Observation) {
    o.agent in t && IsNewer(o, t[o.agent]) != Some(true)
  }

  predicate AllAbsorbed(t: Table, os: seq<Observation>) {
    forall o :: o in os ==> Absorbed(t, o)
  }

  /** Whatever is merged next, an absorbed observation stays absorbed. */
  lemma AbsorbKeeps(t: Table, o: Observation, p: Observation)
    requires Absorbed(t, o)
    ensures Absorbed(Absorb(t, p).table, o)
  {
  }

  lemma {:induction false} MergeKeepsAbsorbed(t: Table, os: seq<Observation>, o: Observation)
    requires Absorbed(t, o)
    ensures Absorbed(MergeAll(t, os).table, o)
  {
    if os != [] {
      MergeKeepsAbsorbed(t, os[..|os| - 1], o);
      if MergeAll(t, os[..|os| - 1]).Done? {
        AbsorbKeeps(MergeAll(t, os[..|os| - 1]).table, o, os[|os| - 1]);
      }
    }
  }

  lemma AbsorbSettles(t: Table, p: Observation)
    requires Absorb(t, p).Done?
    ensures Absorbed(Absorb(t, p).table, p)
  {
  }

  lemma {:induction false} DoneAbsorbsAll(t: Table, os: seq<Observation>)
    requires MergeAll(t, os).Done?
    ensures AllAbsorbed(MergeAll(t, os).table, os)
  {
    if os != [] {
      var n := |os| - 1;
      DoneAbsorbsAll(t, os[..n]);
      var u := MergeAll(t, os[..n]).table;
      assert os == os[..n] + [os[n]];
      forall o | o in os ensures Absorbed(Absorb(u, os[n]).table, o) {
        if o in os[..n] {
          AbsorbKeeps(u, o, os[n]);
        } else {
          AbsorbSettles(u, os[n]);
        }
      }
    }
  }

  lemma {:induction false} AbsorbedMergeIsIdle(t: Table, os: seq<Observation>)
    requires AllAbsorbed(t, os)
    ensures MergeAll(t, os).table == t
  {
    if os != [] {
      var n := |os| - 1;
      assert os == os[..n] + [os[n]] && Absorbed(t, os[n]);
      AbsorbedMergeIsIdle(t, os[..n]);
    }
  }

  /** The calls whose payload a receiver without a replay window would have merged. */
  predicate ReachesMerge(x: Record) {
    x.verdict.Some? && x.call.Gossip? &&
    match x.verdict.value
    case Accepted(_) => true
    case Duplicate(_) => true
    case Rejected(why) => why == Invalid(BadValue)
  }

  /** The plain merge of every such payload, in call order. */
  function PlainTable(fleet: string, log: seq<Record>): Table {
    if log == [] then map[]
    else
      var t, x := PlainTable(fleet, log[..|log| - 1]), log[|log| - 1];
      if ReachesMerge(x) then Merge(fleet, t, 0, x.call.payload).table else t
  }

  ghost predicate Remembers(digest: Digest, seen: map<string, Seen>, id: string, p: Payload) {
    id in seen && seen[id].digest == digest(p) && ValidateEnvelope(p).None?
  }

  /** Merging the payload again would change nothing. */
  ghost predicate Settled(fleet: string, t: Table, p: Payload)
    requires ValidateEnvelope(p).None?
  {
    p.fleet == Some(fleet) && AllAbsorbed(t, Observations(p))
  }

  /** Every remembered id stands for a settled payload. */
  ghost predicate RememberedSettled(digest: Digest, r: Receiver) {
    forall id, p {:trigger Remembers(digest, r.seen, id, p)} ::
      Remembers(digest, r.seen, id, p) ==> Settled(r.fleet, r.table, p)
  }

  lemma SettledMerge(fleet: string, t: Table, p: Payload)
    requires ValidateEnvelope(p).None? && Settled(fleet, t, p)
    ensures Merge(fleet, t, 0, p).table == t
  {
    AbsorbedMergeIsIdle(t, Observations(p));
  }

  lemma MergeKeepsSettled(fleet: string, t: Table, p: Payload, q: Payload)
    requires ValidateEnvelope(q).None? && Settled(fleet, t, q)
    ensures Settled(fleet, Merge(fleet, t, 0, p).table, q)
  {
    if ValidateEnvelope(p).None? {
      forall o | o in Observations(q) ensures Absorbed(MergeAll(t, Observations(p)).table, o) {
        MergeKeepsAbsorbed(t, Observations(p), o);
      }
    }
  }

  lemma MergeSettles(fleet: string, t: Table, p: Payload)
    requires Merge(fleet, t, 0, p).fault.None?
    ensures ValidateEnvelope(p).None? && Settled(fleet, Merge(fleet, t, 0, p).table, p)
  {
    DoneAbsorbsAll(t, Observations(p));
  }

  lemma PruneRemembers(digest: Digest, r: Receiver, now: real)
    requires RememberedSettled(digest, r)
    ensures RememberedSettled(digest, Prune(r, now))
  {
    forall id, p | Remembers(digest, Prune(r, now).seen, id, p) ensures Settled(r.fleet, r.table, p) {
      assert Remembers(digest, r.seen, id, p);
    }
  }

  /** After pruning, a merge of `p`, remembered only when it went through. */
  lemma MergeRemembers(digest: Digest, r: Receiver, p: Payload, id: string, stampAt: real)
    requires Faithful(digest) && RememberedSettled(digest, r)
    ensures var m := Merge(r.fleet, r.table, 0, p);
      && RememberedSettled(digest, r.(table := m.table))
      && (m.fault.None? ==>
            RememberedSettled(digest, r.(table := m.table, seen := r.seen[id := Seen(digest(p), stampAt)])))
  {
    var m := Merge(r.fleet, r.table, 0, p);
    forall q: Payload | ValidateEnvelope(q).None? && Settled(r.fleet, r.table, q) ensures Settled(r.fleet, m.table, q) {
      MergeKeepsSettled(r.fleet, r.table, p, q);
    }
    if m.fault.None? {
      MergeSettles(r.fleet, r.table, p);
      var seen := r.seen[id := Seen(digest(p), stampAt)];
      forall i, q | Remembers(digest, seen, i, q) ensures Settled(r.fleet, m.table, q) {
        if i != id {
          assert Remembers(digest, r.seen, i, q);
        }
      }
    }
  }

  /** One call keeps the invariant and moves the table as the plain merge would. */
  lemma AcceptTransparent(digest: Digest, r: Receiver, p: Payload, pruneAt: real, stampAt: real)
    requires Faithful(digest) && RememberedSettled(digest, r)
    ensures var (after, verdict) := Accept(digest, r, p, pruneAt, stampAt);
      && RememberedSettled(digest, after)
      && after.table == if ReachesMerge(Record(Gossip(p, pruneAt, stampAt), Some(verdict)))
                        then Merge(r.fleet, r.table, 0, p).table else r.table
  {
    var pruned := Prune(r, pruneAt);
    PruneRemembers(digest, r, pruneAt);
    if p.messageId.id.Some? && ValidateEnvelope(p).None? {
      var id := p.messageId.id.value;
      if id in pruned.seen {
        if pruned.seen[id].digest == digest(p) {
          assert Remembers(digest, pruned.seen, id, p);
          SettledMerge(r.fleet, r.table, p);
        }
      } else {
        MergeRemembers(digest, pruned, p, id, stampAt);
      }
    }
  }

  /**
   The replay window never shows: after any calls the table is the plain merge of every payload
   that was accepted, answered as a duplicate, or refused half-way for a bad timestamp, even
   when an id was accepted again after its window.
   */
  lemma {:induction false} DedupeIsTransparent(digest: Digest, fleet: string, ttl: real, calls: seq<Call>)
    requires Faithful(digest)
    ensures var (r, log) := Run(digest, fleet, ttl, calls);
      r.table == PlainTable(fleet, log) && RememberedSettled(digest, r)
  {
    if calls != [] {
      var init, c := calls[..|calls| - 1], calls[|calls| - 1];
      DedupeIsTransparent(digest, fleet, ttl, init);
      var (r, log) := Run(digest, fleet, ttl, init);
      var (after, record) := Step(digest, r, c);
      assert (log + [record])[..|log|] == log;
      match c {
        case Inspect(now) => PruneRemembers(digest, r, now);
        case Gossip(p, pruneAt, stampAt) => AcceptTransparent(digest, r, p, pruneAt, stampAt);
      }
    }
  }

  // ---------------------------------------------------------------- bad timestamps

  predicate Applied(x: Record) {
    IsAccepted(x) || IsDuplicate(x)
  }

  /** The plain merge of just the accepted and duplicate payloads, in call order. */
  function AppliedTable(fleet: string, log: seq<Record>): Table {
    if log == [] then map[]
    else
      var t, x := AppliedTable(fleet, log[..|log| - 1]), log[|log| - 1];
      if Applied(x) && x.call.Gossip? then Merge(fleet, t, 0, x.call.payload).table else t
  }

  /** Every time and number in the payload converts. */
  predicate ReadableCall(c: Call) {
    c.Gossip? && ValidateEnvelope(c.payload).None? ==>
      && AllReadable(Observations(c.payload))
      && forall o :: o in Observations(c.payload) ==> o.status.staleAfterSeconds.Some?
  }

  lemma {:induction false} MergeKeepsSummarizable(t: Table, os: seq<Observation>)
    requires Summarizable(t) && forall o :: o in os ==> Renderable(o)
    ensures Summarizable(MergeAll(t, os).table)
  {
    if os != [] {
      assert os == os[..|os| - 1] + [os[|os| - 1]];
      MergeKeepsSummarizable(t, os[..|os| - 1]);
      assert Renderable(os[|os| - 1]);
    }
  }

  lemma {:induction false} ReadableMergeFinishes(t: Table, os: seq<Observation>)
    requires TableReadable(t) && AllReadable(os)
    ensures MergeAll(t, os).Done? && TableReadable(MergeAll(t, os).table)
  {
    if os != [] {
      assert os == os[..|os| - 1] + [os[|os| - 1]];
      ReadableMergeFinishes(t, os[..|os| - 1]);
      assert Readable(os[|os| - 1]);
    }
  }

  lemma ReadableMerge(t: Table, c: Call)
    requires c.Gossip? && ReadableCall(c) && ValidateEnvelope(c.payload).None? && TableReadable(t) && Summarizable(t)
    ensures var u := MergeAll(t, Observations(c.payload));
      u.Done? && TableReadable(u.table) && Summarizable(u.table)
  {
    var os := Observations(c.payload);
    ReadableMergeFinishes(t, os);
    forall o | o in os ensures Renderable(o) {
      assert Readable(o);
    }
    MergeKeepsSummarizable(t, os);
  }

  lemma ProcessReadable(digest: Digest, r: Receiver, c: Call, stampAt: real)
    requires c.Gossip? && ReadableCall(c) && TableReadable(r.table) && Summarizable(r.table)
    ensures var (after, verdict) := Process(digest, r, c.payload, stampAt);
      && TableReadable(after.table) && Summarizable(after.table)
      && verdict != Rejected(Invalid(BadValue)) && verdict != Accepted(false) && verdict != Duplicate(false)
  {
    if ValidateEnvelope(c.payload).None? {
      ReadableMerge(r.table, c);
    }
  }

  lemma AcceptReadable(digest: Digest, r: Receiver, c: Call)
    requires c.Gossip? && ReadableCall(c) && TableReadable(r.table) && Summarizable(r.table)
    ensures var (after, verdict) := Accept(digest, r, c.payload, c.pruneAt, c.stampAt);
      && TableReadable(after.table) && Summarizable(after.table)
      && verdict != Rejected(Invalid(BadValue)) && verdict != Accepted(false) && verdict != Duplicate(false)
  {
    ProcessReadable(digest, Prune(r, c.pruneAt), c, c.stampAt);
  }

  ghost predicate AllAnswered(log: seq<Record>) {
    forall i :: 0 <= i < |log| ==> log[i].verdict != Some(Accepted(false)) && log[i].verdict != Some(Duplicate(false))
  }

  /** With values that convert every accepted or duplicate payload is answered. */
  lemma {:induction false} ReadableRunAnswers(digest: Digest, fleet: string, ttl: real, calls: seq<Call>)
    requires forall c :: c in calls ==> ReadableCall(c)
    ensures var (r, log) := Run(digest, fleet, ttl, calls);
      TableReadable(r.table) && Summarizable(r.table) && AllAnswered(log)
  {
    if calls != [] {
      var init, c := calls[..|calls| - 1], calls[|calls| - 1];
      assert calls == init + [c];
      ReadableRunAnswers(digest, fleet, ttl, init);
      assert c in calls && ReadableCall(c);
      if c.Gossip? {
        AcceptReadable(digest, Run(digest, fleet, ttl, init).0, c);
      }
    }
  }

  lemma {:induction false} NoneTwiceCounted(log: seq<Record>)
    requires AllAnswered(log)
    ensures Count(log, IsTwiceCounted) == 0
  {
    if log != [] {
      NoneTwiceCounted(log[..|log| - 1]);
    }
  }

  /** And every call is counted once. */
  lemma ReadableAccounting(digest: Digest, fleet: string, ttl: real, calls: seq<Call>)
    requires forall c :: c in calls ==> ReadableCall(c)
    ensures var (r, log) := Run(digest, fleet, ttl, calls);
      r.accepted + r.duplicate + r.rejected == Count(log, IsGossip)
  {
    ReadableRunAnswers(digest, fleet, ttl, calls);
    NoneTwiceCounted(Run(digest, fleet, ttl, calls).1);
    Accounting(digest, fleet, ttl, calls);
  }

  /** With values that convert the table is the plain merge of the accepted and duplicate payloads. */
  lemma {:induction false} ReadableDedupeIsTransparent(digest: Digest, fleet: string, ttl: real, calls: seq<Call>)
    requires Faithful(digest) && forall c :: c in calls ==> ReadableCall(c)
    ensures var (r, log) := Run(digest, fleet, ttl, calls);
      r.table == AppliedTable(fleet, log) && TableReadable(r.table)
  {
    ReadableRunAnswers(digest, fleet, ttl, calls);
    if calls != [] {
      var init, c := calls[..|calls| - 1], calls[|calls| - 1];
      assert calls == init + [c];
      ReadableDedupeIsTransparent(digest, fleet, ttl, init);
      DedupeIsTransparent(digest, fleet, ttl, init);
      ReadableRunAnswers(digest, fleet, ttl, init);
      var (r, log) := Run(digest, fleet, ttl, init);
      var (after, record) := Step(digest, r, c);
      assert (log + [record])[..|log|] == log;
      assert c in calls && ReadableCall(c);
      if c.Gossip? {
        AcceptTransparent(digest, r, c.payload, c.pruneAt, c.stampAt);
        AcceptReadable(digest, r, c);
      }
    }
  }

  /** The comparison with the stored observation raises. */
  predicate HitsBadValue(t: Table, o: Observation) {
    o.agent in t && IsNewer(o, t[o.agent]).None?
  }

  lemma {:induction false} StopPoint(t: Table, os: seq<Observation>) returns (k: nat)
    requires MergeAll(t, os).Stopped?
    ensures k < |os| && MergeAll(t, os[..k]) == Done(MergeAll(t, os).table)
    ensures HitsBadValue(MergeAll(t, os).table, os[k])
  {
    var n := |os| - 1;
    if MergeAll(t, os[..n]).Stopped? {
      k := StopPoint(t, os[..n]);
      assert os[..n][..k] == os[..k];
    } else {
      k := n;
    }
  }

  /** The merge of the observations meets nothing new before it ends or raises. */
  predicate TeachesNothing(t: Table, os: seq<Observation>) {
    AllAbsorbed(t, os) || exists k :: 0 <= k < |os| && AllAbsorbed(t, os[..k]) && HitsBadValue(t, os[k])
  }

  lemma MergeIsIdleIff(t: Table, os: seq<Observation>)
    ensures MergeAll(t, os).table == t <==> TeachesNothing(t, os)
  {
    if MergeAll(t, os).table == t {
      if MergeAll(t, os).Stopped? {
        var k := StopPoint(t, os);
        DoneAbsorbsAll(t, os[..k]);
      } else {
        DoneAbsorbsAll(t, os);
      }
    }
    if AllAbsorbed(t, os) {
      AbsorbedMergeIsIdle(t, os);
    } else if k :| 0 <= k < |os| && AllAbsorbed(t, os[..k]) && HitsBadValue(t, os[k]) {
      AbsorbedMergeIsIdle(t, os[..k]);
      if MergeAll(t, os[..k]).Stopped? {
        StopsEarly(t, os, k);
      } else {
        assert os[..k + 1][..k] == os[..k];
        StopsEarly(t, os, k + 1);
      }
    }
  }

  /** Nothing keeps the payload from being merged: a fresh id, a valid envelope, the receiver's fleet. */
  predicate GetsMerged(r: Receiver, p: Payload, pruneAt: real) {
    && p.messageId.id.Some? && ValidateEnvelope(p).None? && p.fleet == Some(r.fleet)
    && p.messageId.id.value !in Live(r.seen, pruneAt, r.ttl)
  }

  /** The caller is answered with an error. */
  predicate ErrorReply(v: Verdict) {
    v.Rejected? || !v.answered
  }

  /**
   A call answered with an error leaves the table alone exactly when its payload never got to the
   merge or the merge met nothing new; otherwise a refused payload has taught the receiver something,
   be it that the merge raised half-way or the receipt after it.
   */
  lemma ErrorReplyIsCleanIff(digest: Digest, r: Receiver, p: Payload, pruneAt: real, stampAt: real)
    requires ErrorReply(Accept(digest, r, p, pruneAt, stampAt).1)
    ensures Accept(digest, r, p, pruneAt, stampAt).0.table == r.table
       <==> (GetsMerged(r, p, pruneAt) ==> TeachesNothing(r.table, Observations(p)))
  {
    if GetsMerged(r, p, pruneAt) {
      MergeIsIdleIff(r.table, Observations(p));
    }
  }

  /** The other way for a payload to be answered with an error: it is merged and remembered, and the receipt raises. */
  lemma UnansweredPayloadTeaches(digest: Digest, fleet: string, ttl: real, at: real)
    ensures var (after, verdict) := Accept(digest, Start(fleet, ttl), GarbledPayload(fleet), at, at);
      && ErrorReply(verdict) && "a" in after.table && "m" in after.seen && after.accepted == 1
  {
    GarbledOnce(digest, fleet, ttl, at);
    GarbledMerge(fleet);
  }

  /** A payload of two observations. */
  function HalfMerged(fleet: string, news: Observation, bad: Observation): Payload {
    Envelope(true, false, Some(fleet), Some("peer"), Header(Some("m"), ""), 1, [Some(news), Some(bad)])
  }

  /**
   A payload of two observations, the second about a known agent and with an unreadable time: the merge
   raises half-way.
   */
  lemma RefusedPayloadTeaches(digest: Digest, r: Receiver, known: Observation, news: Observation, bad: Observation,
                              now: real)
    requires known.agent in r.table && r.table[known.agent] == known
    requires news.agent !in r.table && bad.agent == known.agent && bad.observedAt.None?
    requires "m" !in r.seen
    ensures var p := HalfMerged(r.fleet, news, bad);
      var (after, verdict) := Accept(digest, r, p, now, now);
      && verdict == Rejected(Invalid(BadValue))
      && after.table == r.table[news.agent := news] && after.table != r.table
  {
    var p := HalfMerged(r.fleet, news, bad);
    var os := Observations(p);
    assert os == [news, bad];
    assert os[..1] == [news] && os[..1][..0] == [];
    assert MergeAll(r.table, os[..1]) == Done(r.table[news.agent := news]);
  }

  // ---------------------------------------------------------------- the replay window

  function Started(c: Call): real { c.pruneAt }
  function Ended(c: Call): real { if c.Gossip? then c.stampAt else c.pruneAt }

  /** The clock never runs backwards, within a call or between calls. */
  ghost predicate Monotone(calls: seq<Call>) {
    && (forall i :: 0 <= i < |calls| ==> Started(calls[i]) <= Ended(calls[i]))
    && (forall i, j :: 0 <= i < j < |calls| ==> Ended(calls[i]) <= Started(calls[j]))
  }

  predicate AcceptsId(x: Record, id: string) {
    IsAccepted(x) && x.call.Gossip? && x.call.payload.messageId.id == Some(id)
  }

  /** An earlier acceptance is still remembered, by a stamp no older, or lies a whole window back. */
  predicate Guarded(r: Receiver, x: Record, id: string, now: real)
    requires AcceptsId(x, id)
  {
    || (id in r.seen && r.seen[id].acceptedAt >= Ended(x.call))
    || now - Ended(x.call) > r.ttl
  }

  /** What a call does to the remembered ids. */
  lemma ProcessSeen(digest: Digest, r: Receiver, p: Payload, stampAt: real)
    ensures var (after, verdict) := Process(digest, r, p, stampAt);
      if verdict.Accepted?
      then p.messageId.id.Some? && p.messageId.id.value !in r.seen
           && after.seen == r.seen[p.messageId.id.value := Seen(digest(p), stampAt)]
      else after.seen == r.seen
  {
  }

  lemma AcceptSeen(digest: Digest, r: Receiver, p: Payload, pruneAt: real, stampAt: real)
    ensures var (after, verdict) := Accept(digest, r, p, pruneAt, stampAt);
      var live := Live(r.seen, pruneAt, r.ttl);
      if verdict.Accepted?
      then p.messageId.id.Some? && p.messageId.id.value !in live
           && after.seen == live[p.messageId.id.value := Seen(digest(p), stampAt)]
      else after.seen == live
  {
    ProcessSeen(digest, Prune(r, pruneAt), p, stampAt);
  }

  lemma GuardedStep(digest: Digest, r: Receiver, x: Record, id: string, now: real, c: Call)
    requires AcceptsId(x, id) && Ended(x.call) <= now <= Started(c) <= Ended(c)
    requires Guarded(r, x, id, now)
    ensures var (after, record) := Step(digest, r, c);
      && Guarded(after, x, id, Ended(c))
      && (AcceptsId(record, id) ==> Ended(c) - Ended(x.call) > r.ttl)
  {
    match c {
      case Inspect(at) =>
      case Gossip(p, pruneAt, stampAt) => AcceptSeen(digest, r, p, pruneAt, stampAt);
    }
  }

  lemma AcceptedIsGuarded(digest: Digest, r: Receiver, c: Call, id: string)
    requires AcceptsId(Step(digest, r, c).1, id)
    ensures Guarded(Step(digest, r, c).0, Step(digest, r, c).1, id, Ended(c))
  {
    AcceptSeen(digest, r, c.payload, c.pruneAt, c.stampAt);
  }

  ghost predicate AllGuarded(r: Receiver, log: seq<Record>, now: real) {
    forall i, id :: 0 <= i < |log| && AcceptsId(log[i], id) ==> Guarded(r, log[i], id, now)
  }

  ghost predicate AllApart(log: seq<Record>, ttl: real) {
    forall i, j, id :: 0 <= i < j < |log| && AcceptsId(log[i], id) && AcceptsId(log[j], id) ==>
      Ended(log[j].call) - Ended(log[i].call) > ttl
  }

  ghost predicate Answers(log: seq<Record>, calls: seq<Call>) {
    |log| == |calls| && forall i :: 0 <= i < |log| ==> log[i].call == calls[i]
  }

  lemma ApartSnoc(log: seq<Record>, record: Record, ttl: real)
    requires AllApart(log, ttl) && ApartFrom(log, record, ttl)
    ensures AllApart(log + [record], ttl)
  {
  }

  /** The new record lies a whole window behind every acceptance of its id. */
  ghost predicate ApartFrom(log: seq<Record>, record: Record, ttl: real) {
    forall i, id :: 0 <= i < |log| && AcceptsId(log[i], id) && AcceptsId(record, id) ==>
      Ended(record.call) - Ended(log[i].call) > ttl
  }

  /** What a step from `r` to `after` does to every earlier acceptance. */
  ghost predicate KeepsGuards(r: Receiver, after: Receiver, record: Record, now: real, c: Call) {
    forall x, id :: AcceptsId(x, id) && Ended(x.call) <= now && Guarded(r, x, id, now) ==>
      && Guarded(after, x, id, Ended(c))
      && (AcceptsId(record, id) ==> Ended(c) - Ended(x.call) > r.ttl)
  }

  lemma StepKeepsGuards(digest: Digest, r: Receiver, now: real, c: Call)
    requires now <= Started(c) <= Ended(c)
    ensures KeepsGuards(r, Step(digest, r, c).0, Step(digest, r, c).1, now, c)
  {
    var (after, record) := Step(digest, r, c);
    forall x, id | AcceptsId(x, id) && Ended(x.call) <= now && Guarded(r, x, id, now)
      ensures Guarded(after, x, id, Ended(c))
      ensures AcceptsId(record, id) ==> Ended(c) - Ended(x.call) > r.ttl
    {
      GuardedStep(digest, r, x, id, now, c);
    }
  }

  lemma OldGuardsKept(r: Receiver, after: Receiver, log: seq<Record>, record: Record, now: real, c: Call)
    requires AllGuarded(r, log, now) && KeepsGuards(r, after, record, now, c) && record.call == c
    requires forall i :: 0 <= i < |log| ==> Ended(log[i].call) <= now
    ensures AllGuarded(after, log, Ended(c)) && ApartFrom(log, record, r.ttl)
  {
  }

  lemma GuardedSnoc(r: Receiver, log: seq<Record>, record: Record, now: real)
    requires AllGuarded(r, log, now)
    requires forall id :: AcceptsId(record, id) ==> Guarded(r, record, id, now)
    ensures AllGuarded(r, log + [record], now)
  {
  }

  lemma ApartStep(digest: Digest, r: Receiver, log: seq<Record>, now: real, c: Call)
    requires AllGuarded(r, log, now) && AllApart(log, r.ttl)
    requires forall i :: 0 <= i < |log| ==> Ended(log[i].call) <= now
    requires now <= Started(c) <= Ended(c)
    ensures var (after, record) := Step(digest, r, c);
      AllGuarded(after, log + [record], Ended(c)) && AllApart(log + [record], r.ttl)
  {
    var (after, record) := Step(digest, r, c);
    StepKeepsGuards(digest, r, now, c);
    OldGuardsKept(r, after, log, record, now, c);
    forall id | AcceptsId(record, id) ensures Guarded(after, record, id, Ended(c)) {
      AcceptedIsGuarded(digest, r, c, id);
    }
    GuardedSnoc(after, log, record, Ended(c));
    ApartSnoc(log, record, r.ttl);
  }

  lemma AllBefore(log: seq<Record>, calls: seq<Call>, n: nat)
    requires n < |calls| && Monotone(calls) && Answers(log, calls[..n])
    ensures forall i :: 0 <= i < |log| ==> Ended(log[i].call) <= Started(calls[n])
  {
    forall i | 0 <= i < |log| ensures Ended(log[i].call) <= Started(calls[n]) {
      assert log[i].call == calls[i];
    }
  }

  lemma GuardsAge(r: Receiver, log: seq<Record>, now: real, later: real)
    requires AllGuarded(r, log, now) && now <= later
    ensures AllGuarded(r, log, later)
  {
  }

  /** What the first `n` calls have left, by the time the last of them ended. */
  ghost predicate ApartAfter(r: Receiver, log: seq<Record>, ttl: real, calls: seq<Call>, n: nat)
    requires n <= |calls|
  {
    && r.ttl == ttl && Answers(log, calls[..n]) && AllApart(log, ttl)
    && (n > 0 ==> AllGuarded(r, log, Ended(calls[n - 1])))
  }

  lemma AnswersSnoc(log: seq<Record>, calls: seq<Call>, n: nat, record: Record)
    requires n < |calls| && Answers(log, calls[..n]) && record.call == calls[n]
    ensures Answers(log + [record], calls[..n + 1])
  {
  }

  lemma NextApart(digest: Digest, r: Receiver, log: seq<Record>, ttl: real, calls: seq<Call>, n: nat)
    requires n < |calls| && Monotone(calls) && ApartAfter(r, log, ttl, calls, n)
    ensures var (after, record) := Step(digest, r, calls[n]); ApartAfter(after, log + [record], ttl, calls, n + 1)
  {
    var c := calls[n];
    AllBefore(log, calls, n);
    if n > 0 {
      GuardsAge(r, log, Ended(calls[n - 1]), Started(c));
    }
    ApartStep(digest, r, log, Started(c), c);
    AnswersSnoc(log, calls, n, Step(digest, r, c).1);
  }

  ghost predicate RunsApart(digest: Digest, fleet: string, ttl: real, calls: seq<Call>, n: nat)
    requires n <= |calls|
  {
    var (r, log) := Run(digest, fleet, ttl, calls[..n]);
    ApartAfter(r, log, ttl, calls, n)
  }

  lemma RunsApartStep(digest: Digest, fleet: string, ttl: real, calls: seq<Call>, n: nat)
    requires n < |calls| && Monotone(calls) && RunsApart(digest, fleet, ttl, calls, n)
    ensures RunsApart(digest, fleet, ttl, calls, n + 1)
  {
    var (r, log) := Run(digest, fleet, ttl, calls[..n]);
    RunSnoc(digest, fleet, ttl, calls[..n], calls[n]);
    assert calls[..n + 1] == calls[..n] + [calls[n]];
    NextApart(digest, r, log, ttl, calls, n);
  }

  lemma {:induction false} ApartUpTo(digest: Digest, fleet: string, ttl: real, calls: seq<Call>, n: nat)
    requires Monotone(calls) && n <= |calls|
    ensures RunsApart(digest, fleet, ttl, calls, n)
  {
    if n > 0 {
      ApartUpTo(digest, fleet, ttl, calls, n - 1);
      RunsApartStep(digest, fleet, ttl, calls, n - 1);
    }
  }

  /** Two acceptances of one message id are always more than the window apart. */
  lemma AcceptancesApart(digest: Digest, fleet: string, ttl: real, calls: seq<Call>)
    requires Monotone(calls)
    ensures var (r, log) := Run(digest, fleet, ttl, calls);
      Answers(log, calls) && AllApart(log, ttl) && (calls != [] ==> AllGuarded(r, log, Ended(calls[|calls| - 1])))
  {
    ApartUpTo(digest, fleet, ttl, calls, |calls|);
    assert calls[..|calls|] == calls;
  }
}
