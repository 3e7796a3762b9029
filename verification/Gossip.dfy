/**
 Peer gossip: the last-writer-wins table of peer observations.

 Times are whole instants. `observedAt == None` stands for a text that the time parser refuses, and
 `sequence` or `staleAfterSeconds` of `None` for a text that is no number. The program only discovers
 them when it compares two observations of one agent, or when it sums the table up.
 */
module Gossip {
  import opened Wrappers

  /** The status fields an observation carries; no branch of the merge looks at them. */
  datatype Status = Status(
    alive: bool,
    centralReachable: bool,
    localAdbAvailable: bool,
    batteryPercent: Option<int>,
    lastCommandStatus: Option<string>,
    staleAfterSeconds: Option<int>)

  datatype Observation = Observation(
    agent: AgentId,
    observedAt: Option<int>,
    sequence: Option<int>,
    heardFrom: AgentId,
    status: Status)

  /** An entry of `None` is one that is no object or lacks a required field. */
  datatype Envelope<M> = Envelope(
    schemaMatches: bool,
    hasForbiddenField: bool,
    fleet: Option<string>,
    sender: Option<AgentId>,
    messageId: M,
    hopTtl: int,
    entries: seq<Option<Observation>>)

  datatype Fault =
    | UnsupportedSchema
    | ForbiddenField
    | MissingFleet
    | MissingSender
    | MissingObservations
    | IncompleteObservation
    | FleetMismatch
    | BadValue
    | HopsExhausted

  function ValidateEnvelope<M>(e: Envelope<M>): Option<Fault> {
    if !e.schemaMatches then Some(UnsupportedSchema)
    else if e.hasForbiddenField then Some(ForbiddenField)
    else if e.fleet.None? then Some(MissingFleet)
    else if e.sender.None? then Some(MissingSender)
    else if |e.entries| == 0 then Some(MissingObservations)
    else if exists i :: 0 <= i < |e.entries| && e.entries[i].None? then Some(IncompleteObservation)
    else None
  }

  /** The observations of an envelope that passed validation, in order. */
  function Observations<M>(e: Envelope<M>): (os: seq<Observation>)
    requires ValidateEnvelope(e).None?
    ensures |os| == |e.entries| > 0
    ensures forall i :: 0 <= i < |os| ==> e.entries[i] == Some(os[i])
  {
    seq(|e.entries|, i requires 0 <= i < |e.entries| => e.entries[i].value)
  }

  // ---------------------------------------------------------------- the order

  /** Comparing the observation never raises. */
  predicate Readable(o: Observation) {
    o.observedAt.Some? && o.sequence.Some?
  }

  /** Later time first, then the higher heartbeat sequence. */
  predicate Later(c: Observation, p: Observation)
    requires Readable(c) && Readable(p)
  {
    if c.observedAt != p.observedAt then c.observedAt.value > p.observedAt.value
    else c.sequence.value > p.sequence.value
  }

  /** `None` is the error of the time parser or, between equal times, of a sequence that is no number. */
  function IsNewer(candidate: Observation, previous: Observation): Option<bool> {
    if candidate.observedAt.None? || previous.observedAt.None? then None
    else if candidate.observedAt != previous.observedAt then
      Some(candidate.observedAt.value > previous.observedAt.value)
    else if candidate.sequence.None? || previous.sequence.None? then None
    else Some(candidate.sequence.value > previous.sequence.value)
  }

  lemma NewerIsLater(candidate: Observation, previous: Observation)
    requires Readable(candidate) && Readable(previous)
    ensures IsNewer(candidate, previous) == Some(Later(candidate, previous))
  {
  }

  // ---------------------------------------------------------------- the merge

  type Table = map<AgentId, Observation>

  /** How far one envelope's loop got: to the end, or up to a bad value. */
  datatype Progress = Done(table: Table) | Stopped(table: Table)

  function Absorb(t: Table, o: Observation): Progress {
    if o.agent !in t then Done(t[o.agent := o])
    else match IsNewer(o, t[o.agent])
      case None => Stopped(t)
      case Some(newer) => Done(if newer then t[o.agent := o] else t)
  }

  function MergeAll(t: Table, os: seq<Observation>): Progress {
    if os == [] then Done(t)
    else
      match MergeAll(t, os[..|os| - 1])
      case Stopped(u) => Stopped(u)
      case Done(u) => Absorb(u, os[|os| - 1])
  }

  /** What one call leaves behind: the table, the rejection counter and the error. */
  datatype MergeOutcome = MergeOutcome(table: Table, rejected: nat, fault: Option<Fault>)

  function Merge<M>(fleet: string, t: Table, rejected: nat, e: Envelope<M>): MergeOutcome {
    match ValidateEnvelope(e)
    case Some(fault) => MergeOutcome(t, rejected + 1, Some(fault))
    case None =>
      if e.fleet.value != fleet then MergeOutcome(t, rejected, Some(FleetMismatch))
      else
        match MergeAll(t, Observations(e))
        case Done(u) => MergeOutcome(u, rejected, None)
        case Stopped(u) => MergeOutcome(u, rejected, Some(BadValue))
  }

  // ---------------------------------------------------------------- the summary

  datatype PeerStatus = UnknownStatus | Stale | Alive

  /** Only an alive observation has its time and its staleness limit read. */
  predicate Renderable(o: Observation) {
    o.status.alive ==> o.observedAt.Some? && o.status.staleAfterSeconds.Some?
  }

  function StatusFor(o: Observation, now: int): PeerStatus
    requires Renderable(o)
  {
    if !o.status.alive then UnknownStatus
    else if now - o.observedAt.value > o.status.staleAfterSeconds.value then Stale
    else Alive
  }

  /** The whole table can be summed up. */
  predicate Summarizable(t: Table) {
    forall a :: a in t ==> Renderable(t[a])
  }

  function SummaryOf(t: Table, now: int): Result<map<AgentId, PeerStatus>, Fault> {
    if Summarizable(t) then Ok(map a | a in t :: StatusFor(t[a], now)) else Err(BadValue)
  }

  class GossipState {
    const fleet: string
    const observer: AgentId
    var observations: Table
    var forbiddenCount: nat

    constructor (fleet: string, observer: AgentId)
      ensures this.fleet == fleet && this.observer == observer
      ensures observations == map[] && forbiddenCount == 0
    {
      this.fleet, this.observer := fleet, observer;
      observations, forbiddenCount := map[], 0;
    }

    /** The loop stops where a comparison meets a bad value and keeps what it merged so far. */
    method MergeEnvelope<M>(e: Envelope<M>) returns (fault: Option<Fault>)
      modifies this
      ensures MergeOutcome(observations, forbiddenCount, fault)
           == Merge(fleet, old(observations), old(forbiddenCount), e)
    {
      fault := ValidateEnvelope(e);
      if fault.Some? {
        forbiddenCount := forbiddenCount + 1;
        return;
      }
      if e.fleet.value != fleet {
        return Some(FleetMismatch);
      }
      var os := Observations(e);
      for i := 0 to |os|
        invariant forbiddenCount == old(forbiddenCount)
        invariant MergeAll(old(observations), os[..i]) == Done(observations)
      {
        assert os[..i + 1][..i] == os[..i];
        var o := os[i];
        if o.agent in observations {
          var newer := IsNewer(o, observations[o.agent]);
          if newer.None? {
            StopsEarly(old(observations), os, i + 1);
            return Some(BadValue);
          }
          if newer.value {
            observations := observations[o.agent := o];
          }
        } else {
          observations := observations[o.agent := o];
        }
      }
      assert os[..|os|] == os;
    }

    /** The known agents with their status, unless one of the observations raises. */
    method Summary(now: int) returns (r: Result<map<AgentId, PeerStatus>, Fault>)
      ensures r == SummaryOf(observations, now)
    {
      var peers: map<AgentId, PeerStatus> := map[];
      var rest := observations.Keys;
      while rest != {}
        invariant rest <= observations.Keys && peers.Keys == observations.Keys - rest
        invariant forall a :: a in peers ==> Renderable(observations[a]) && peers[a] == StatusFor(observations[a], now)
        decreases rest
      {
        var a :| a in rest;
        if !Renderable(observations[a]) {
          return Err(BadValue);
        }
        peers := peers[a := StatusFor(observations[a], now)];
        rest := rest - {a};
      }
      assert peers.Keys == observations.Keys;
      assert peers == SummaryOf(observations, now).value;
      return Ok(peers);
    }
  }

  lemma StopsEarly(t: Table, os: seq<Observation>, n: nat)
    requires n <= |os| && MergeAll(t, os[..n]).Stopped?
    ensures MergeAll(t, os) == MergeAll(t, os[..n])
    decreases |os| - n
  {
    if n < |os| {
      assert os[..n + 1][..n] == os[..n];
      StopsEarly(t, os, n + 1);
    } else {
      assert os[..n] == os;
    }
  }

  // ---------------------------------------------------------------- what a merge and a summary say

  /** The envelope has the defect that a validation fault names. */
  predicate HasDefect<M>(e: Envelope<M>, fault: Fault) {
    match fault
    case UnsupportedSchema => !e.schemaMatches
    case ForbiddenField => e.hasForbiddenField
    case MissingFleet => e.fleet.None?
    case MissingSender => e.sender.None?
    case MissingObservations => e.entries == []
    case IncompleteObservation => exists i :: 0 <= i < |e.entries| && e.entries[i].None?
    case _ => false
  }

  /** A merge is counted as refused exactly for an envelope with a defect, and then names it and changes nothing. */
  lemma RefusedIff<M>(fleet: string, t: Table, rejected: nat, e: Envelope<M>)
    ensures var m := Merge(fleet, t, rejected, e);
      && (m.rejected == if exists fault :: HasDefect(e, fault) then rejected + 1 else rejected)
      && (m.rejected > rejected ==> m.table == t && m.fault.Some? && HasDefect(e, m.fault.value))
      && (m.fault == Some(FleetMismatch) <==> m.rejected == rejected && e.fleet != Some(fleet))
      && (m.fault == Some(FleetMismatch) ==> m.table == t)
  {
    var fault := ValidateEnvelope(e);
    if fault.Some? {
      assert HasDefect(e, fault.value);
    } else if defect :| HasDefect(e, defect) {
      assert false;
    }
  }

  /** Neither of the two is known to be newer: a time is unreadable, or at equal times a sequence is. */
  predicate Incomparable(o: Observation, p: Observation) {
    || o.observedAt.None? || p.observedAt.None?
    || (o.observedAt == p.observedAt && (o.sequence.None? || p.sequence.None?))
  }

  /** An observation replaces a known one exactly if it is comparable and later, or as late and of higher sequence. */
  lemma ReplacesIff(t: Table, o: Observation)
    requires o.agent in t && t[o.agent] != o
    ensures var p := t[o.agent];
      && (Absorb(t, o).Stopped? <==> Incomparable(o, p))
      && (Absorb(t, o).table == t[o.agent := o] <==>
            && !Incomparable(o, p)
            && (o.observedAt.value > p.observedAt.value
                || (o.observedAt == p.observedAt && o.sequence.value > p.sequence.value)))
      && (Absorb(t, o).table == t || Absorb(t, o).table == t[o.agent := o])
  {
    assert t[o.agent := o][o.agent] == o;
  }

  /** Observation `k` meets a known one it cannot be compared with, where all before it went through. */
  predicate StopsAt(t: Table, os: seq<Observation>, k: nat)
    requires k < |os|
  {
    && MergeAll(t, os[..k]).Done?
    && var u := MergeAll(t, os[..k]).table; os[k].agent in u && Incomparable(os[k], u[os[k].agent])
  }

  /** A merge stops exactly where it first meets such an observation. */
  lemma {:induction false} MergeStopsIff(t: Table, os: seq<Observation>)
    ensures MergeAll(t, os).Stopped? <==> exists k :: 0 <= k < |os| && StopsAt(t, os, k)
    decreases |os|
  {
    if MergeAll(t, os).Stopped? {
      var n := |os| - 1;
      MergeStopsIff(t, os[..n]);
      if MergeAll(t, os[..n]).Done? {
        assert StopsAt(t, os, n);
      } else {
        var k :| 0 <= k < n && StopsAt(t, os[..n], k);
        assert os[..n][..k] == os[..k];
        assert StopsAt(t, os, k);
      }
    }
    if k :| 0 <= k < |os| && StopsAt(t, os, k) {
      assert os[..k + 1][..k] == os[..k];
      StopsEarly(t, os, k + 1);
    }
  }

  /**
   The summary fails exactly when an alive observation lacks a readable time or limit. Otherwise each known
   agent is alive until its limit has passed since it was observed, and stale from then on; one that was not
   observed alive is neither.
   */
  lemma SummaryShows(t: Table, now: int)
    ensures SummaryOf(t, now).Ok? <==>
      forall a :: a in t && t[a].status.alive ==> t[a].observedAt.Some? && t[a].status.staleAfterSeconds.Some?
    ensures SummaryOf(t, now).Ok? ==> SummaryOf(t, now).value.Keys == t.Keys
    ensures SummaryOf(t, now).Ok? ==> forall a :: a in t ==>
      var status := SummaryOf(t, now).value[a];
      && (status.UnknownStatus? <==> !t[a].status.alive)
      && (t[a].status.alive ==>
            (status.Alive? <==> now <= t[a].observedAt.value + t[a].status.staleAfterSeconds.value)
            && (status.Stale? <==> now > t[a].observedAt.value + t[a].status.staleAfterSeconds.value))
  {
    if SummaryOf(t, now).Ok? {
      assert forall a :: a in t ==> Renderable(t[a]);
    } else {
      var a :| a in t && !Renderable(t[a]);
    }
  }

  // ---------------------------------------------------------------- the relay

  /** The relayed copy: one hop fewer, every observation now heard from the relaying sender. */
  function RelayCopy<M>(e: Envelope<M>, sender: AgentId, id: M): Envelope<M>
    requires ValidateEnvelope(e).None?
  {
    var os := Observations(e);
    e.(sender := Some(sender), messageId := id, hopTtl := e.hopTtl - 1,
       entries := seq(|os|, i requires 0 <= i < |os| => Some(os[i].(heardFrom := sender))))
  }

  method RelayEnvelope<M>(e: Envelope<M>, sender: AgentId, id: M) returns (r: Result<Envelope<M>, Fault>)
    ensures r == match ValidateEnvelope(e)
                 case Some(fault) => Err(fault)
                 case None => if e.hopTtl <= 0 then Err(HopsExhausted) else Ok(RelayCopy(e, sender, id))
    ensures r.Ok? ==> ValidateEnvelope(r.value).None?
  {
    var fault := ValidateEnvelope(e);
    if fault.Some? {
      return Err(fault.value);
    }
    if e.hopTtl <= 0 {
      return Err(HopsExhausted);
    }
    var os := Observations(e);
    var entries: seq<Option<Observation>> := [];
    for i := 0 to |os|
      invariant |entries| == i
      invariant forall j :: 0 <= j < i ==> entries[j] == Some(os[j].(heardFrom := sender))
    {
      entries := entries + [Some(os[i].(heardFrom := sender))];
    }
    assert entries == RelayCopy(e, sender, id).entries;
    return Ok(Envelope(true, false, e.fleet, Some(sender), id, e.hopTtl - 1, entries));
  }

  // ------------------------------------------------- what a fold over many envelopes holds

  predicate AllReadable(os: seq<Observation>) {
    forall o :: o in os ==> Readable(o)
  }

  predicate TableReadable(t: Table) {
    forall a :: a in t ==> t[a].agent == a && Readable(t[a])
  }

  /** Entry `i` is the first of the observations of `a` that no other one is later than. */
  predicate IsFirstLatest(os: seq<Observation>, a: AgentId, i: nat)
    requires AllReadable(os)
  {
    && i < |os| && os[i].agent == a
    && (forall j :: 0 <= j < |os| && os[j].agent == a ==> !Later(os[j], os[i]))
    && (forall j :: 0 <= j < i && os[j].agent == a ==> Later(os[i], os[j]))
  }

  /** The table holds just the observed agents, and for each its first-among-latest entry. */
  ghost predicate HoldsFirstLatest(t: Table, os: seq<Observation>)
    requires AllReadable(os)
  {
    && (forall i :: 0 <= i < |os| ==> os[i].agent in t)
    && (forall a :: a in t ==> exists i: nat :: IsFirstLatest(os, a, i) && t[a] == os[i])
  }

  /** An observation that does not displace entry `i` leaves it first-among-latest. */
  lemma FirstLatestKept(os: seq<Observation>, o: Observation, a: AgentId, i: nat)
    requires AllReadable(os) && Readable(o) && IsFirstLatest(os, a, i)
    requires o.agent == a ==> !Later(o, os[i])
    ensures AllReadable(os + [o]) && IsFirstLatest(os + [o], a, i)
  {
  }

  /** A later observation becomes the first-among-latest one of its agent. */
  lemma FirstLatestReplaced(os: seq<Observation>, o: Observation, i: nat)
    requires AllReadable(os) && Readable(o) && IsFirstLatest(os, o.agent, i)
    requires Later(o, os[i])
    ensures AllReadable(os + [o]) && IsFirstLatest(os + [o], o.agent, |os|)
  {
    forall j | 0 <= j < |os| && os[j].agent == o.agent ensures Later(o, os[j]) {
      assert Readable(os[i]) && Readable(os[j]) && !Later(os[j], os[i]);
    }
  }

  lemma FirstLatestStep(t: Table, os: seq<Observation>, o: Observation)
    requires AllReadable(os) && Readable(o) && HoldsFirstLatest(t, os)
    ensures AllReadable(os + [o])
    ensures Absorb(t, o).Done? && HoldsFirstLatest(Absorb(t, o).table, os + [o])
  {
    assert AllReadable(os + [o]);
    if o.agent in t {
      var i: nat :| IsFirstLatest(os, o.agent, i) && t[o.agent] == os[i];
      assert Readable(os[i]);
      NewerIsLater(o, os[i]);
    }
    var u := Absorb(t, o).table;
    forall a | a in u ensures exists i: nat :: IsFirstLatest(os + [o], a, i) && u[a] == (os + [o])[i] {
      FirstLatestOf(t, os, o, a);
    }
  }

  /** The entry of one agent after the step. */
  lemma FirstLatestOf(t: Table, os: seq<Observation>, o: Observation, a: AgentId)
    requires AllReadable(os) && Readable(o) && HoldsFirstLatest(t, os) && AllReadable(os + [o])
    requires a in Absorb(t, o).table
    ensures exists i: nat :: IsFirstLatest(os + [o], a, i) && Absorb(t, o).table[a] == (os + [o])[i]
  {
    if a !in t {
      assert IsFirstLatest(os + [o], a, |os|);
    } else {
      var i: nat :| IsFirstLatest(os, a, i) && t[a] == os[i];
      assert Readable(os[i]);
      NewerIsLater(o, os[i]);
      if a == o.agent && Later(o, os[i]) {
        FirstLatestReplaced(os, o, i);
      } else {
        FirstLatestKept(os, o, a, i);
      }
    }
  }

  /**
   Merging is exactly "first among the latest": the table holds just the agents that were
   observed, and for each of them the earliest-merged observation with the greatest
   (time, sequence) stamp.
   */
  lemma {:induction false} MergeHoldsFirstLatest(os: seq<Observation>)
    requires AllReadable(os)
    ensures MergeAll(map[], os).Done?
    ensures HoldsFirstLatest(MergeAll(map[], os).table, os)
  {
    if os != [] {
      var n := |os| - 1;
      assert os == os[..n] + [os[n]];
      MergeHoldsFirstLatest(os[..n]);
      FirstLatestStep(MergeAll(map[], os[..n]).table, os[..n], os[n]);
    }
  }

  /** Two observations carry the same merge stamp. */
  predicate SameStamp(o: Observation, p: Observation) {
    o.observedAt == p.observedAt && o.sequence == p.sequence
  }

  /** The same observations in any order and with any repetitions give the same agents and stamps. */
  lemma MergeIgnoresOrder(os: seq<Observation>, ps: seq<Observation>)
    requires AllReadable(os)
    requires forall o :: o in os <==> o in ps
    ensures AllReadable(ps)
    ensures var t, u := MergeAll(map[], os).table, MergeAll(map[], ps).table;
      t.Keys == u.Keys && forall a :: a in t ==> SameStamp(t[a], u[a])
  {
    assert AllReadable(ps);
    MergeHoldsFirstLatest(os);
    MergeHoldsFirstLatest(ps);
    var t, u := MergeAll(map[], os).table, MergeAll(map[], ps).table;
    forall a | a in t ensures a in u && SameStamp(t[a], u[a]) {
      var i: nat :| IsFirstLatest(os, a, i) && t[a] == os[i];
      assert os[i] in ps;
      var j: nat :| IsFirstLatest(ps, a, j) && u[a] == ps[j];
      assert ps[j] in os && os[i] in ps;
      var i' :| 0 <= i' < |os| && os[i'] == ps[j];
      var j' :| 0 <= j' < |ps| && ps[j'] == os[i];
      assert !Later(os[i'], os[i]) && !Later(ps[j'], ps[j]);
    }
    forall a | a in u ensures a in t {
      var j: nat :| IsFirstLatest(ps, a, j) && u[a] == ps[j];
      assert ps[j] in os;
    }
  }

  // ------------------------------------------------- envelopes

  /** A run of merge calls into an empty table. */
  function MergeRun<M>(fleet: string, es: seq<Envelope<M>>): Table {
    if es == [] then map[]
    else Merge(fleet, MergeRun(fleet, es[..|es| - 1]), 0, es[|es| - 1]).table
  }

  /** A valid envelope of this fleet whose observations all have readable times. */
  predicate Mergeable<M>(fleet: string, e: Envelope<M>) {
    ValidateEnvelope(e).None? && e.fleet == Some(fleet) && AllReadable(Observations(e))
  }

  function Flatten<M>(fleet: string, es: seq<Envelope<M>>): (os: seq<Observation>)
    requires forall e :: e in es ==> Mergeable(fleet, e)
    ensures forall o :: o in os <==> exists e :: e in es && Mergeable(fleet, e) && o in Observations(e)
  {
    if es == [] then []
    else
      var init, e := es[..|es| - 1], es[|es| - 1];
      assert es == init + [e];
      assert e in es && Mergeable(fleet, e);
      Flatten(fleet, init) + Observations(e)
  }

  lemma {:induction false} MergeAllConcat(t: Table, os: seq<Observation>, ps: seq<Observation>)
    requires MergeAll(t, os).Done?
    ensures MergeAll(t, os + ps) == MergeAll(MergeAll(t, os).table, ps)
  {
    if ps == [] {
      assert os + ps == os;
    } else {
      var n := |ps| - 1;
      assert (os + ps)[..|os + ps| - 1] == os + ps[..n];
      MergeAllConcat(t, os, ps[..n]);
    }
  }

  lemma {:induction false} MergeRunFlattens<M>(fleet: string, es: seq<Envelope<M>>)
    requires forall e :: e in es ==> Mergeable(fleet, e)
    ensures AllReadable(Flatten(fleet, es))
    ensures MergeAll(map[], Flatten(fleet, es)) == Done(MergeRun(fleet, es))
  {
    if es != [] {
      var init, e := es[..|es| - 1], es[|es| - 1];
      assert es == init + [e];
      MergeRunFlattens(fleet, init);
      assert Mergeable(fleet, e);
      MergeHoldsFirstLatest(Flatten(fleet, es));
      MergeAllConcat(map[], Flatten(fleet, init), Observations(e));
    }
  }

  /**
   Merging valid envelopes of one fleet in any order, any of them any number of times, ends in
   the same set of known agents and the same stamp for each of them.
   */
  lemma EnvelopeOrderIrrelevant<M>(fleet: string, es: seq<Envelope<M>>, fs: seq<Envelope<M>>)
    requires forall e :: e in es ==> Mergeable(fleet, e)
    requires forall e :: e in es <==> e in fs
    ensures MergeRun(fleet, es).Keys == MergeRun(fleet, fs).Keys
    ensures forall a :: a in MergeRun(fleet, es) ==>
      SameStamp(MergeRun(fleet, es)[a], MergeRun(fleet, fs)[a])
  {
    MergeRunFlattens(fleet, es);
    MergeRunFlattens(fleet, fs);
    var os, ps := Flatten(fleet, es), Flatten(fleet, fs);
    forall o ensures o in os <==> o in ps {
      if o in os { var e :| e in es && Mergeable(fleet, e) && o in Observations(e); assert e in fs; }
      if o in ps { var e :| e in fs && Mergeable(fleet, e) && o in Observations(e); assert e in es; }
    }
    MergeIgnoresOrder(os, ps);
  }
}
