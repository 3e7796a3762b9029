/**
 The file-drop round: every node starts with its own heartbeat envelope, hands it to its
 out-neighbours, and then relays what it holds in a number of synchronous passes.

 An inbox is a directory of envelope files. `name` stands for the program's file naming and
 `place` for its choice of a node's directory; nothing is assumed about them where a theorem does
 not say so, so nodes may share a directory and files may overwrite each other. A message id is
 kept as the structure its text is built from.
 */
module MeshRound {
  import opened Wrappers
  import opened Gossip

  datatype MessageId =
    | Heartbeat(agent: AgentId)
    | Relayed(sender: AgentId, pass: nat, previous: MessageId)

  type Letter = Envelope<MessageId>

  datatype FileKey =
    | SelfFile(agent: AgentId, id: MessageId)
    | DirectFile(source: AgentId, target: AgentId, id: MessageId)
    | RelayFile(pass: nat, source: AgentId, target: AgentId, id: MessageId)

  type Naming = FileKey -> string
  type Layout = AgentId -> string
  type Inbox = map<string, Letter>

  datatype Link = Link(source: AgentId, target: AgentId)

  /**
   A heartbeat entry of the scenario with the document its path leads to; `wellFormed` if it passes as
   a heartbeat.
   */
  datatype Beat = Beat(
    agent: AgentId,
    wellFormed: bool,
    documentFleet: string,
    documentAgent: AgentId,
    observedAt: Option<int>,
    sequence: int,
    status: Status)

  datatype Scenario = Scenario(
    fleet: string,
    round: string,
    nodes: seq<AgentId>,
    beats: seq<Beat>,
    links: seq<Link>,
    maxHopTtl: int,
    relayPasses: int,
    staleAfterSeconds: int)

  datatype RoundError = InvalidScenario | EmptyFilePart | HeartbeatRefused | UnreadableTime

  /** The constraints every theorem needs; the program checks them and a few bounds more. */
  predicate Coherent(sc: Scenario) {
    && (forall b :: b in sc.beats ==> b.agent in sc.nodes)
    && (forall i, j :: 0 <= i < j < |sc.beats| ==> sc.beats[i].agent != sc.beats[j].agent)
    && (forall l :: l in sc.links ==> l.source in sc.nodes && l.target in sc.nodes && l.source != l.target)
    && sc.maxHopTtl >= 0
  }

  predicate ValidScenario(sc: Scenario) {
    && sc.fleet != "" && sc.round != ""
    && |sc.nodes| > 0
    && (forall i, j :: 0 <= i < j < |sc.nodes| ==> sc.nodes[i] != sc.nodes[j])
    && |sc.beats| > 0
    && Coherent(sc)
    && sc.maxHopTtl <= 8
    && 0 <= sc.relayPasses <= 4
    && sc.staleAfterSeconds >= 1
  }

  predicate DocumentMatches(sc: Scenario, b: Beat) {
    b.documentFleet == sc.fleet && b.documentAgent == b.agent && b.wellFormed
  }

  predicate DocumentsMatch(sc: Scenario) {
    forall b :: b in sc.beats ==> DocumentMatches(sc, b)
  }

  /** Every heartbeat carries a time that parses; nothing looks at it before the summaries. */
  predicate TimesReadable(sc: Scenario) {
    forall b :: b in sc.beats ==> b.observedAt.Some?
  }

  // ---------------------------------------------------------------- the validator

  /** The node list: not empty, no agent twice. */
  method CheckNodes(nodes: seq<AgentId>) returns (ok: bool)
    ensures ok <==> |nodes| > 0 && forall i, j :: 0 <= i < j < |nodes| ==> nodes[i] != nodes[j]
  {
    var seen: set<AgentId> := {};
    for i := 0 to |nodes|
      invariant forall a :: a in seen <==> a in nodes[..i]
      invariant forall j, k :: 0 <= j < k < i ==> nodes[j] != nodes[k]
    {
      if nodes[i] in seen {
        var j :| 0 <= j < i && nodes[j] == nodes[i];
        return false;
      }
      seen := seen + {nodes[i]};
    }
    return |nodes| > 0;
  }

  /** Every heartbeat entry is for a node, and no node has two. */
  method CheckBeats(nodes: seq<AgentId>, beats: seq<Beat>) returns (ok: bool)
    ensures ok <==> |beats| > 0 && (forall b :: b in beats ==> b.agent in nodes)
                    && forall i, j :: 0 <= i < j < |beats| ==> beats[i].agent != beats[j].agent
  {
    if |beats| == 0 {
      return false;
    }
    var seen: set<AgentId> := {};
    for i := 0 to |beats|
      invariant forall a :: a in seen <==> exists j :: 0 <= j < i && beats[j].agent == a
      invariant forall j :: 0 <= j < i ==> beats[j].agent in nodes
      invariant forall j, k :: 0 <= j < k < i ==> beats[j].agent != beats[k].agent
    {
      if beats[i].agent !in nodes {
        assert beats[i] in beats;
        return false;
      }
      if beats[i].agent in seen {
        return false;
      }
      seen := seen + {beats[i].agent};
    }
    return true;
  }

  method CheckLinks(nodes: seq<AgentId>, links: seq<Link>) returns (ok: bool)
    ensures ok <==> forall l :: l in links ==> l.source in nodes && l.target in nodes && l.source != l.target
  {
    for i := 0 to |links|
      invariant forall j :: 0 <= j < i ==>
        links[j].source in nodes && links[j].target in nodes && links[j].source != links[j].target
    {
      if links[i].source !in nodes || links[i].target !in nodes || links[i].source == links[i].target {
        assert links[i] in links;
        return false;
      }
    }
    return true;
  }

  /** The checks in the program's order; the first that fails refuses the scenario. */
  method ValidateScenario(sc: Scenario) returns (ok: bool)
    ensures ok <==> ValidScenario(sc)
  {
    if sc.fleet == "" || sc.round == "" {
      return false;
    }
    var nodesOk := CheckNodes(sc.nodes);
    var beatsOk := CheckBeats(sc.nodes, sc.beats);
    var linksOk := CheckLinks(sc.nodes, sc.links);
    if !nodesOk || !beatsOk || !linksOk {
      return false;
    }
    if sc.maxHopTtl < 0 || sc.maxHopTtl > 8 || sc.relayPasses < 0 || sc.relayPasses > 4 {
      return false;
    }
    return sc.staleAfterSeconds >= 1;
  }

  // ---------------------------------------------------------------- letters

  function BeatObservation(sc: Scenario, b: Beat, heardFrom: AgentId): Observation {
    Observation(b.agent, b.observedAt, Some(b.sequence), heardFrom,
                b.status.(alive := true, staleAfterSeconds := Some(sc.staleAfterSeconds)))
  }

  /** The observation says of its agent what the heartbeat says and no more, by the scenario's limit. */
  predicate Tells(sc: Scenario, b: Beat, o: Observation) {
    && o.agent == b.agent && o.observedAt == b.observedAt && o.sequence == Some(b.sequence)
    && o.status.alive && o.status.staleAfterSeconds == Some(sc.staleAfterSeconds)
    && o.status.centralReachable == b.status.centralReachable
    && o.status.localAdbAvailable == b.status.localAdbAvailable
    && o.status.batteryPercent == b.status.batteryPercent
    && o.status.lastCommandStatus == b.status.lastCommandStatus
  }

  /** The letter carries one observation, heard from its sender, about the agent of a heartbeat. */
  ghost predicate LetterTells(sc: Scenario, a: AgentId, e: Letter) {
    && e.sender.Some? && |e.entries| == 1 && e.entries[0].Some?
    && e.entries[0].value.heardFrom == e.sender.value
    && exists b :: b in sc.beats && b.agent == a && Tells(sc, b, e.entries[0].value)
  }

  function BaseLetter(sc: Scenario, b: Beat): Letter {
    Envelope(true, false, Some(sc.fleet), Some(b.agent), Heartbeat(b.agent), sc.maxHopTtl,
             [Some(BeatObservation(sc, b, b.agent))])
  }

  /** What a node passes on: not its own letter, and only while hops remain. */
  predicate Relayable(e: Letter, holder: AgentId) {
    e.sender != Some(holder) && e.hopTtl > 0 && ValidateEnvelope(e).None?
  }

  function RelayLetter(e: Letter, holder: AgentId, pass: nat): Letter
    requires Relayable(e, holder)
  {
    RelayCopy(e, holder, Relayed(holder, pass, e.messageId))
  }

  function Origin(id: MessageId): AgentId {
    match id
    case Heartbeat(a) => a
    case Relayed(_, _, previous) => Origin(previous)
  }

  function Hops(id: MessageId): nat {
    match id
    case Heartbeat(_) => 0
    case Relayed(_, _, previous) => 1 + Hops(previous)
  }

  function KeyOf(holder: AgentId, id: MessageId): FileKey {
    match id
    case Heartbeat(a) => if a == holder then SelfFile(a, id) else DirectFile(a, holder, id)
    case Relayed(s, pass, _) => RelayFile(pass, s, holder, id)
  }

  // ---------------------------------------------------------------- what should be delivered

  ghost function OwnLetters(sc: Scenario, beats: seq<Beat>, v: AgentId): set<Letter> {
    set b | b in beats && b.agent == v :: BaseLetter(sc, b)
  }

  ghost function DirectLetters(sc: Scenario, links: seq<Link>, v: AgentId): set<Letter> {
    set l, b | l in links && l.target == v && b in sc.beats && b.agent == l.source :: BaseLetter(sc, b)
  }

  ghost function RelayedLetters(sc: Scenario, links: seq<Link>, v: AgentId, pass: nat): set<Letter>
    requires pass >= 1
    decreases pass, 0
  {
    set l, e | l in links && l.target == v && e in Delivered(sc, l.source, pass - 1) && Relayable(e, l.source)
      :: RelayLetter(e, l.source, pass)
  }

  /** The letters node `v` holds after `pass` relay passes if no file is ever overwritten by another. */
  ghost function Delivered(sc: Scenario, v: AgentId, pass: nat): set<Letter>
    decreases pass, 1
  {
    if pass == 0 then OwnLetters(sc, sc.beats, v) + DirectLetters(sc, sc.links, v)
    else Delivered(sc, v, pass - 1) + RelayedLetters(sc, sc.links, v, pass)
  }

  // ---------------------------------------------------------------- provenance

  /** Letter `e` is what `s` made in pass `q` of a letter it held with that id. */
  ghost predicate RelayOfHeld(sc: Scenario, s: AgentId, q: nat, previous: MessageId, e: Letter)
    requires q >= 1
  {
    exists x :: x in Delivered(sc, s, q - 1) && x.messageId == previous && Relayable(x, s) && e == RelayLetter(x, s, q)
  }

  /** The history of a delivered letter: either a base letter, or the relay of one held a pass earlier. */
  lemma {:induction false} DeliveredHistory(sc: Scenario, v: AgentId, pass: nat, e: Letter)
    requires Coherent(sc) && e in Delivered(sc, v, pass)
    ensures match e.messageId
      case Heartbeat(a) =>
        (a == v || Link(a, v) in sc.links) && exists b :: b in sc.beats && b.agent == a && e == BaseLetter(sc, b)
      case Relayed(s, q, previous) =>
        1 <= q <= pass && Link(s, v) in sc.links && RelayOfHeld(sc, s, q, previous, e)
  {
    if pass == 0 {
      if e in OwnLetters(sc, sc.beats, v) {
      } else {
        var l, b :| l in sc.links && l.target == v && b in sc.beats && b.agent == l.source && e == BaseLetter(sc, b);
        assert Link(b.agent, v) == l;
      }
    } else if e in Delivered(sc, v, pass - 1) {
      DeliveredHistory(sc, v, pass - 1, e);
    } else {
      var l, x :| l in sc.links && l.target == v && x in Delivered(sc, l.source, pass - 1)
        && Relayable(x, l.source) && e == RelayLetter(x, l.source, pass);
      assert Link(l.source, v) == l;
    }
  }

  /**
   Every letter in every inbox at every pass: hops used and hops left add up to the limit, no
   more hops than passes, and the one observation is the origin's heartbeat, changed only in
   whom it was heard from, which is the sender.
   */
  lemma {:induction false} Provenance(sc: Scenario, v: AgentId, pass: nat, e: Letter)
    requires Coherent(sc) && e in Delivered(sc, v, pass)
    ensures ValidateEnvelope(e).None? && e.fleet == Some(sc.fleet)
    ensures e.hopTtl >= 0 && e.hopTtl + Hops(e.messageId) == sc.maxHopTtl
    ensures Hops(e.messageId) <= pass
    ensures e.sender.Some?
    ensures exists b :: (b in sc.beats && b.agent == Origin(e.messageId)
                         && e.entries == [Some(BeatObservation(sc, b, e.sender.value))])
    ensures LetterTells(sc, Origin(e.messageId), e)
    ensures e.sender == Some(v) <==> e.messageId == Heartbeat(v)
    decreases e.messageId
  {
    DeliveredHistory(sc, v, pass, e);
    match e.messageId {
      case Heartbeat(a) =>
        if a != v { assert Link(a, v) in sc.links; }
      case Relayed(s, q, previous) =>
        var x :| x in Delivered(sc, s, q - 1) && x.messageId == previous
          && Relayable(x, s) && e == RelayLetter(x, s, q);
        Provenance(sc, s, q - 1, x);
        RelayKeepsBeat(sc, x, s, q);
        assert Link(s, v) in sc.links;
    }
  }

  lemma RelayKeepsBeat(sc: Scenario, x: Letter, s: AgentId, q: nat)
    requires Relayable(x, s) && x.sender.Some?
    requires exists b :: (b in sc.beats && b.agent == Origin(x.messageId)
                          && x.entries == [Some(BeatObservation(sc, b, x.sender.value))])
    ensures exists b :: (b in sc.beats && b.agent == Origin(x.messageId)
                         && RelayLetter(x, s, q).entries == [Some(BeatObservation(sc, b, s))])
  {
    var b :| b in sc.beats && b.agent == Origin(x.messageId)
      && x.entries == [Some(BeatObservation(sc, b, x.sender.value))];
    assert Observations(x) == [BeatObservation(sc, b, x.sender.value)];
    assert RelayLetter(x, s, q).entries == [Some(BeatObservation(sc, b, s))];
  }

  lemma BaseLettersAgree(sc: Scenario, a: AgentId, e: Letter, f: Letter)
    requires Coherent(sc)
    requires exists b :: b in sc.beats && b.agent == a && e == BaseLetter(sc, b)
    requires exists c :: c in sc.beats && c.agent == a && f == BaseLetter(sc, c)
    ensures e == f
  {
    var b :| b in sc.beats && b.agent == a && e == BaseLetter(sc, b);
    var c :| c in sc.beats && c.agent == a && f == BaseLetter(sc, c);
    assert b == c;
  }

  /** A message id names one letter in the whole round. */
  lemma {:induction false} IdDeterminesLetter(sc: Scenario, v: AgentId, p: nat, e: Letter, w: AgentId, q: nat,
                                              f: Letter)
    requires Coherent(sc) && e in Delivered(sc, v, p) && f in Delivered(sc, w, q)
    requires e.messageId == f.messageId
    ensures e == f
    decreases e.messageId
  {
    DeliveredHistory(sc, v, p, e);
    DeliveredHistory(sc, w, q, f);
    match e.messageId {
      case Heartbeat(a) => BaseLettersAgree(sc, a, e, f);
      case Relayed(s, r, previous) =>
        var x := RelaySource(sc, s, r, previous, e);
        var y := RelaySource(sc, s, r, previous, f);
        IdDeterminesLetter(sc, s, r - 1, x, s, r - 1, y);
    }
  }

  /** The letter a relayed one was made of. */
  lemma RelaySource(sc: Scenario, s: AgentId, q: nat, previous: MessageId, e: Letter) returns (x: Letter)
    requires q >= 1 && RelayOfHeld(sc, s, q, previous, e)
    ensures x in Delivered(sc, s, q - 1) && x.messageId == previous && Relayable(x, s) && e == RelayLetter(x, s, q)
  {
    x :| x in Delivered(sc, s, q - 1) && x.messageId == previous && Relayable(x, s) && e == RelayLetter(x, s, q);
  }

  lemma {:induction false} DeliveredGrows(sc: Scenario, v: AgentId, p: nat, q: nat)
    requires p <= q
    ensures Delivered(sc, v, p) <= Delivered(sc, v, q)
    decreases q
  {
    if p < q {
      DeliveredGrows(sc, v, p, q - 1);
    }
  }

  // ---------------------------------------------------------------- bounded reachability

  /** A directed walk of exactly `n` links. */
  ghost predicate Walk(links: seq<Link>, from: AgentId, to: AgentId, n: nat)
    decreases n
  {
    if n == 0 then from == to
    else exists m :: Link(m, to) in links && Walk(links, from, m, n - 1)
  }

  ghost predicate HasBeat(sc: Scenario, a: AgentId) {
    exists b :: b in sc.beats && b.agent == a
  }

  function Min(a: int, b: int): int {
    if a <= b then a else b
  }

  /** The law of the round: who may be known at `v` after `passes` passes. */
  ghost predicate Reaches(sc: Scenario, a: AgentId, v: AgentId, passes: nat) {
    HasBeat(sc, a) && (a == v || exists n: nat :: 1 <= n <= 1 + Min(passes, sc.maxHopTtl) && Walk(sc.links, a, v, n))
  }

  /** A letter got here along a walk one link longer than its number of relays. */
  lemma {:induction false} LetterWalked(sc: Scenario, v: AgentId, p: nat, e: Letter)
    requires Coherent(sc) && e in Delivered(sc, v, p)
    ensures e.messageId != Heartbeat(v) ==>
      Walk(sc.links, Origin(e.messageId), v, 1 + Hops(e.messageId))
    decreases e.messageId
  {
    DeliveredHistory(sc, v, p, e);
    match e.messageId {
      case Heartbeat(a) =>
        if a != v {
          WalkOn(sc.links, a, a, 0, v);
        }
      case Relayed(s, q, previous) =>
        var x := RelaySource(sc, s, q, previous, e);
        Provenance(sc, s, q - 1, x);
        LetterWalked(sc, s, q - 1, x);
        WalkOn(sc.links, Origin(previous), s, 1 + Hops(previous), v);
    }
  }

  lemma WalkOn(links: seq<Link>, from: AgentId, m: AgentId, n: nat, to: AgentId)
    requires Walk(links, from, m, n) && Link(m, to) in links
    ensures Walk(links, from, to, n + 1)
  {
  }

  /** Along every walk the limits allow, a letter does arrive. */
  lemma {:induction false} WalkDelivers(sc: Scenario, a: AgentId, v: AgentId, p: nat, n: nat) returns (e: Letter)
    requires Coherent(sc) && HasBeat(sc, a) && Walk(sc.links, a, v, n)
    requires 1 <= n <= 1 + Min(p, sc.maxHopTtl)
    ensures e in Delivered(sc, v, p) && Origin(e.messageId) == a && Hops(e.messageId) == n - 1
    ensures e.messageId != Heartbeat(v)
    decreases n
  {
    var m :| Link(m, v) in sc.links && Walk(sc.links, a, m, n - 1);
    if n == 1 {
      var b :| b in sc.beats && b.agent == a;
      e := BaseLetter(sc, b);
      assert Link(a, v).target == v && Link(a, v) in sc.links;
      assert e in DirectLetters(sc, sc.links, v);
      DeliveredGrows(sc, v, 0, p);
    } else {
      var x := WalkDelivers(sc, a, m, p - 1, n - 1);
      Provenance(sc, m, p - 1, x);
      assert Relayable(x, m);
      e := RelayLetter(x, m, p);
      assert Link(m, v).target == v;
      assert e in RelayedLetters(sc, sc.links, v, p);
    }
  }

  /** What can be delivered is exactly bounded-hop reachability, for every graph. */
  lemma DeliveredIffReaches(sc: Scenario, a: AgentId, v: AgentId, passes: nat)
    requires Coherent(sc)
    ensures (exists e :: e in Delivered(sc, v, passes) && Origin(e.messageId) == a) <==> Reaches(sc, a, v, passes)
  {
    if e :| e in Delivered(sc, v, passes) && Origin(e.messageId) == a {
      Provenance(sc, v, passes, e);
      LetterWalked(sc, v, passes, e);
    }
    if Reaches(sc, a, v, passes) {
      if a == v {
        var b :| b in sc.beats && b.agent == a;
        assert BaseLetter(sc, b) in OwnLetters(sc, sc.beats, v);
        DeliveredGrows(sc, v, 0, passes);
        assert Origin(BaseLetter(sc, b).messageId) == a;
      } else {
        var n: nat :| 1 <= n <= 1 + Min(passes, sc.maxHopTtl) && Walk(sc.links, a, v, n);
        var e := WalkDelivers(sc, a, v, passes, n);
      }
    }
  }

  // ---------------------------------------------------------------- the simulation

  function Passes(sc: Scenario): nat {
    if sc.relayPasses < 0 then 0 else sc.relayPasses
  }

  /** No two of the letters bound for one inbox get the same file name. */
  ghost predicate DistinctFiles(name: Naming, sc: Scenario) {
    forall v, e, f {:trigger name(KeyOf(v, e.messageId)), name(KeyOf(v, f.messageId))} ::
      e in Delivered(sc, v, Passes(sc)) && f in Delivered(sc, v, Passes(sc)) && e != f
      ==> name(KeyOf(v, e.messageId)) != name(KeyOf(v, f.messageId))
  }

  /**
   An inbox agrees with a set of letters: its files are letters of the set under their own
   names, and where naming is distinct it holds all of them.
   */
  ghost predicate Agrees(name: Naming, sc: Scenario, v: AgentId, inbox: Inbox, letters: set<Letter>) {
    && (forall f :: f in inbox ==> inbox[f] in letters && f == name(KeyOf(v, inbox[f].messageId)))
    && (DistinctFiles(name, sc) ==> letters <= inbox.Values)
  }

  lemma WriteKeepsAll(name: Naming, sc: Scenario, v: AgentId, p: nat, inbox: Inbox, letters: set<Letter>, e: Letter)
    requires Agrees(name, sc, v, inbox, letters) && DistinctFiles(name, sc)
    requires p <= Passes(sc) && letters + {e} <= Delivered(sc, v, p)
    ensures letters + {e} <= inbox[name(KeyOf(v, e.messageId)) := e].Values
  {
    var file := name(KeyOf(v, e.messageId));
    var after := inbox[file := e];
    DeliveredGrows(sc, v, p, Passes(sc));
    forall x | x in letters + {e} ensures x in after.Values {
      if x in letters && x != e {
        var f :| f in inbox && inbox[f] == x;
        assert f in after && after[f] == x;
      } else {
        assert file in after && after[file] == x;
      }
    }
  }

  lemma WriteAgrees(name: Naming, sc: Scenario, v: AgentId, p: nat, inbox: Inbox, letters: set<Letter>, e: Letter)
    requires Coherent(sc) && Agrees(name, sc, v, inbox, letters)
    requires p <= Passes(sc) && letters + {e} <= Delivered(sc, v, p)
    ensures Agrees(name, sc, v, inbox[name(KeyOf(v, e.messageId)) := e], letters + {e})
  {
    if DistinctFiles(name, sc) {
      WriteKeepsAll(name, sc, v, p, inbox, letters, e);
    }
  }

  /** The letters of an inbox, in any order. */
  ghost predicate ListsInbox(order: seq<Letter>, inbox: Inbox) {
    forall e :: e in order <==> e in inbox.Values
  }

  /** The letters of an inbox; the listing order is left open, the program sorts by file name. */
  method ListInbox(inbox: Inbox) returns (letters: seq<Letter>)
    ensures ListsInbox(letters, inbox)
  {
    letters := [];
    var files := inbox.Keys;
    while files != {}
      invariant files <= inbox.Keys
      invariant forall e :: e in letters <==> exists f :: f in inbox && f !in files && inbox[f] == e
      decreases files
    {
      var f :| f in files;
      files := files - {f};
      letters := letters + [inbox[f]];
    }
  }

  /** The inboxes by directory. */
  type Inboxes = map<string, Inbox>

  ghost predicate OneForEachNode(place: Layout, sc: Scenario, inboxes: Inboxes) {
    inboxes.Keys == (set v | v in sc.nodes :: place(v))
  }

  /** No two nodes share a directory. */
  predicate Private(place: Layout, sc: Scenario) {
    forall u, v :: u in sc.nodes && v in sc.nodes && place(u) == place(v) ==> u == v
  }

  lemma NodeHasInbox(place: Layout, sc: Scenario, inboxes: Inboxes, v: AgentId)
    requires OneForEachNode(place, sc, inboxes) && v in sc.nodes
    ensures place(v) in inboxes
  {
  }

  // ---------------------------------------------------------------- what holds for every layout and naming

  /** A letter that some heartbeat of the scenario speaks through. */
  ghost predicate Genuine(sc: Scenario, e: Letter) {
    && ValidateEnvelope(e).None? && e.fleet == Some(sc.fleet) && e.sender.Some?
    && exists b :: b in sc.beats && e.entries == [Some(BeatObservation(sc, b, e.sender.value))]
  }

  lemma GenuineTells(sc: Scenario, e: Letter)
    requires Genuine(sc, e)
    ensures |e.entries| == 1 && e.entries[0].Some? && LetterTells(sc, e.entries[0].value.agent, e)
  {
    var b :| b in sc.beats && e.entries == [Some(BeatObservation(sc, b, e.sender.value))];
    assert Tells(sc, b, e.entries[0].value);
  }

  ghost predicate GenuineInbox(sc: Scenario, inbox: Inbox) {
    forall f :: f in inbox ==> Genuine(sc, inbox[f])
  }

  lemma BaseIsGenuine(sc: Scenario, b: Beat)
    requires b in sc.beats
    ensures Genuine(sc, BaseLetter(sc, b))
  {
    assert BaseLetter(sc, b).entries == [Some(BeatObservation(sc, b, b.agent))];
  }

  lemma RelayIsGenuine(sc: Scenario, e: Letter, holder: AgentId, pass: nat)
    requires Genuine(sc, e) && Relayable(e, holder)
    ensures Genuine(sc, RelayLetter(e, holder, pass))
  {
    var b :| b in sc.beats && e.entries == [Some(BeatObservation(sc, b, e.sender.value))];
    assert Observations(e) == [BeatObservation(sc, b, e.sender.value)];
    assert RelayLetter(e, holder, pass).entries == [Some(BeatObservation(sc, b, holder))];
  }

  /** The file of a node's own letter. */
  function OwnFile(name: Naming, a: AgentId): string {
    name(SelfFile(a, Heartbeat(a)))
  }

  /** The file of a node's own letter never gets the name of a file sent to it. */
  ghost predicate SelfApart(name: Naming) {
    forall k: FileKey, l: FileKey :: k.SelfFile? && !l.SelfFile? ==> name(k) != name(l)
  }

  /** Nor does the own file of another node in the same directory. */
  ghost predicate OwnFilesApart(name: Naming, place: Layout, sc: Scenario) {
    && SelfApart(name)
    && forall a, b {:trigger OwnFile(name, a), OwnFile(name, b)} ::
         a in sc.nodes && b in sc.nodes && a != b && place(a) == place(b) ==> OwnFile(name, a) != OwnFile(name, b)
  }

  /** The own letter of a heartbeat lies where its node wrote it. */
  ghost predicate OwnKept(name: Naming, place: Layout, sc: Scenario, inboxes: Inboxes, b: Beat) {
    && place(b.agent) in inboxes && OwnFile(name, b.agent) in inboxes[place(b.agent)]
    && inboxes[place(b.agent)][OwnFile(name, b.agent)] == BaseLetter(sc, b)
  }

  /**
   The inboxes hold letters of the scenario only and, where own files are kept apart, the own letters
   of the first `n` heartbeats.
   */
  ghost predicate Sound(name: Naming, place: Layout, sc: Scenario, n: nat, inboxes: Inboxes)
    requires n <= |sc.beats|
  {
    && OneForEachNode(place, sc, inboxes)
    && AllGenuine(sc, inboxes)
    && (OwnFilesApart(name, place, sc) ==> AllOwnKept(name, place, sc, n, inboxes))
  }

  ghost predicate AllGenuine(sc: Scenario, inboxes: Inboxes) {
    forall d :: d in inboxes ==> GenuineInbox(sc, inboxes[d])
  }

  ghost predicate AllOwnKept(name: Naming, place: Layout, sc: Scenario, n: nat, inboxes: Inboxes)
    requires n <= |sc.beats|
  {
    forall j {:trigger sc.beats[j]} :: 0 <= j < n ==> OwnKept(name, place, sc, inboxes, sc.beats[j])
  }

  /** Files sent to an inbox leave the own files in it alone. */
  ghost predicate SparesOwn(name: Naming, before: Inbox, after: Inbox) {
    SelfApart(name) ==>
      forall a :: OwnFile(name, a) in before ==>
        OwnFile(name, a) in after && after[OwnFile(name, a)] == before[OwnFile(name, a)]
  }

  lemma SentFileSpares(name: Naming, inbox: Inbox, key: FileKey, e: Letter)
    requires !key.SelfFile?
    ensures SparesOwn(name, inbox, inbox[name(key) := e])
  {
  }

  lemma ReplacedKeepsAll(name: Naming, place: Layout, sc: Scenario, before: Inboxes, d: string, updated: Inbox)
    requires AllOwnKept(name, place, sc, |sc.beats|, before) && SelfApart(name)
    requires d in before && SparesOwn(name, before[d], updated)
    ensures AllOwnKept(name, place, sc, |sc.beats|, before[d := updated])
  {
    forall j | 0 <= j < |sc.beats| ensures OwnKept(name, place, sc, before[d := updated], sc.beats[j]) {
      ReplacedKeepsOwn(name, place, sc, before, d, updated, sc.beats[j]);
    }
  }

  lemma ReplacedIsSound(name: Naming, place: Layout, sc: Scenario, before: Inboxes, d: string, updated: Inbox)
    requires Sound(name, place, sc, |sc.beats|, before) && d in before
    requires GenuineInbox(sc, updated) && SparesOwn(name, before[d], updated)
    ensures Sound(name, place, sc, |sc.beats|, before[d := updated])
  {
    if OwnFilesApart(name, place, sc) {
      ReplacedKeepsAll(name, place, sc, before, d, updated);
    }
  }

  lemma ReplacedKeepsOwn(name: Naming, place: Layout, sc: Scenario, before: Inboxes, d: string, updated: Inbox, b: Beat)
    requires OwnKept(name, place, sc, before, b) && SelfApart(name)
    requires d in before && SparesOwn(name, before[d], updated)
    ensures OwnKept(name, place, sc, before[d := updated], b)
  {
  }

  // ---------------------------------------------------------------- own letters

  /** All inboxes once the first `n` heartbeat entries have been read. */
  ghost predicate OwnPlaced(name: Naming, place: Layout, sc: Scenario, n: nat, inboxes: Inboxes)
    requires n <= |sc.beats|
  {
    && Sound(name, place, sc, n, inboxes)
    && (Private(place, sc) ==>
          forall v {:trigger place(v)} :: v in sc.nodes ==>
            Agrees(name, sc, v, inboxes[place(v)], OwnLetters(sc, sc.beats[..n], v)))
  }

  /** All inboxes after a relay pass; pass 0 is the direct delivery. */
  ghost predicate PassDone(name: Naming, place: Layout, sc: Scenario, pass: nat, inboxes: Inboxes) {
    && Sound(name, place, sc, |sc.beats|, inboxes)
    && (Private(place, sc) ==>
          forall v {:trigger place(v)} :: v in sc.nodes ==>
            Agrees(name, sc, v, inboxes[place(v)], Delivered(sc, v, pass)))
  }

  lemma OwnLettersStep(sc: Scenario, i: nat, v: AgentId)
    requires i < |sc.beats|
    ensures OwnLetters(sc, sc.beats[..i + 1], v)
         == OwnLetters(sc, sc.beats[..i], v) + (if sc.beats[i].agent == v then {BaseLetter(sc, sc.beats[i])} else {})
  {
    assert sc.beats[..i + 1] == sc.beats[..i] + [sc.beats[i]];
  }

  lemma OwnLettersDelivered(sc: Scenario, i: nat, v: AgentId)
    requires i <= |sc.beats|
    ensures OwnLetters(sc, sc.beats[..i], v) <= Delivered(sc, v, 0)
  {
  }

  /** The inbox of `v` after the heartbeat entry `b` has been read. */
  function AfterOwn(name: Naming, sc: Scenario, v: AgentId, b: Beat, inbox: Inbox): Inbox {
    if b.agent == v then inbox[name(SelfFile(v, Heartbeat(v))) := BaseLetter(sc, b)] else inbox
  }

  lemma OwnStep(name: Naming, sc: Scenario, i: nat, v: AgentId, inbox: Inbox)
    requires Coherent(sc) && i < |sc.beats| && Agrees(name, sc, v, inbox, OwnLetters(sc, sc.beats[..i], v))
    ensures Agrees(name, sc, v, AfterOwn(name, sc, v, sc.beats[i], inbox), OwnLetters(sc, sc.beats[..i + 1], v))
  {
    OwnLettersStep(sc, i, v);
    if v == sc.beats[i].agent {
      OwnLettersDelivered(sc, i + 1, v);
      WriteAgrees(name, sc, v, 0, inbox, OwnLetters(sc, sc.beats[..i], v), BaseLetter(sc, sc.beats[i]));
    }
  }

  lemma OwnPlacedSound(name: Naming, place: Layout, sc: Scenario, i: nat, before: Inboxes, after: Inboxes)
    requires Coherent(sc) && i < |sc.beats| && Sound(name, place, sc, i, before)
    requires var b := sc.beats[i];
      && place(b.agent) in before
      && after == before[place(b.agent) := before[place(b.agent)][OwnFile(name, b.agent) := BaseLetter(sc, b)]]
    ensures Sound(name, place, sc, i + 1, after)
  {
    var b := sc.beats[i];
    assert b in sc.beats;
    BaseIsGenuine(sc, b);
    if OwnFilesApart(name, place, sc) {
      forall j | 0 <= j < i + 1 ensures OwnKept(name, place, sc, after, sc.beats[j]) {
        if j < i {
          assert OwnKept(name, place, sc, before, sc.beats[j]) && sc.beats[j] in sc.beats;
          assert sc.beats[j].agent != b.agent;
        }
      }
    }
  }

  method PlaceOwn(name: Naming, place: Layout, sc: Scenario, i: nat, before: Inboxes) returns (after: Inboxes)
    requires Coherent(sc) && i < |sc.beats| && OwnPlaced(name, place, sc, i, before)
    ensures OwnPlaced(name, place, sc, i + 1, after)
  {
    var b := sc.beats[i];
    assert b in sc.beats;
    NodeHasInbox(place, sc, before, b.agent);
    var d, letter := place(b.agent), BaseLetter(sc, b);
    after := before[d := before[d][name(SelfFile(b.agent, letter.messageId)) := letter]];
    OwnPlacedSound(name, place, sc, i, before, after);
    if Private(place, sc) {
      forall v | v in sc.nodes ensures Agrees(name, sc, v, after[place(v)], OwnLetters(sc, sc.beats[..i + 1], v)) {
        assert after[place(v)] == AfterOwn(name, sc, v, b, before[place(v)]);
        OwnStep(name, sc, i, v, before[place(v)]);
      }
    }
  }

  /** The base letters of the first `i` heartbeat entries. */
  ghost predicate BasesUpTo(sc: Scenario, i: nat, bases: map<AgentId, Letter>)
    requires i <= |sc.beats|
  {
    && (forall a :: a in bases ==> exists j :: 0 <= j < i && sc.beats[j].agent == a)
    && (forall j :: 0 <= j < i ==>
          sc.beats[j].agent in bases && bases[sc.beats[j].agent] == BaseLetter(sc, sc.beats[j]))
  }

  lemma BasesStep(sc: Scenario, i: nat, bases: map<AgentId, Letter>)
    requires Coherent(sc) && i < |sc.beats| && BasesUpTo(sc, i, bases)
    ensures BasesUpTo(sc, i + 1, bases[sc.beats[i].agent := BaseLetter(sc, sc.beats[i])])
  {
  }

  lemma BasesComplete(sc: Scenario, bases: map<AgentId, Letter>)
    requires BasesUpTo(sc, |sc.beats|, bases)
    ensures BasesMatch(sc, bases)
  {
    forall a | a in bases ensures HasBeat(sc, a) {
      var j :| 0 <= j < |sc.beats| && sc.beats[j].agent == a;
      assert sc.beats[j] in sc.beats;
    }
  }

  /** One empty directory for each node, or for several that share it. */
  method MakeInboxes(name: Naming, place: Layout, sc: Scenario) returns (inboxes: Inboxes)
    ensures OwnPlaced(name, place, sc, 0, inboxes)
  {
    var directories := set v | v in sc.nodes :: place(v);
    inboxes := map d | d in directories :: map[];
    assert sc.beats[..0] == [];
    forall v | v in sc.nodes ensures Agrees(name, sc, v, inboxes[place(v)], OwnLetters(sc, sc.beats[..0], v)) {
      NodeHasInbox(place, sc, inboxes, v);
    }
  }

  predicate MatchUpTo(sc: Scenario, n: nat)
    requires n <= |sc.beats|
  {
    forall j :: 0 <= j < n ==> DocumentMatches(sc, sc.beats[j])
  }

  lemma AllMatch(sc: Scenario)
    ensures MatchUpTo(sc, |sc.beats|) <==> DocumentsMatch(sc)
  {
    assert forall j :: 0 <= j < |sc.beats| ==> sc.beats[j] in sc.beats;
  }

  /** What the loop over the heartbeat entries has done after `n` of them. */
  ghost predicate PlacedUpTo(name: Naming, place: Layout, sc: Scenario, n: nat, inboxes: Inboxes,
                             bases: map<AgentId, Letter>)
    requires n <= |sc.beats|
  {
    MatchUpTo(sc, n) && OwnPlaced(name, place, sc, n, inboxes) && BasesUpTo(sc, n, bases)
  }

  method PlaceNext(name: Naming, place: Layout, sc: Scenario, i: nat, inboxes: Inboxes, bases: map<AgentId, Letter>)
    returns (placed: Inboxes, more: map<AgentId, Letter>)
    requires Coherent(sc) && i < |sc.beats| && DocumentMatches(sc, sc.beats[i])
    requires PlacedUpTo(name, place, sc, i, inboxes, bases)
    ensures PlacedUpTo(name, place, sc, i + 1, placed, more)
  {
    BasesStep(sc, i, bases);
    placed := PlaceOwn(name, place, sc, i, inboxes);
    more := bases[sc.beats[i].agent := BaseLetter(sc, sc.beats[i])];
  }

  method PlaceOwnLetters(name: Naming, place: Layout, sc: Scenario)
    returns (matched: bool, inboxes: Inboxes, bases: map<AgentId, Letter>)
    requires Coherent(sc)
    ensures matched <==> DocumentsMatch(sc)
    ensures matched ==> OwnPlaced(name, place, sc, |sc.beats|, inboxes) && BasesMatch(sc, bases)
  {
    inboxes := MakeInboxes(name, place, sc);
    bases := map[];
    for i := 0 to |sc.beats|
      invariant PlacedUpTo(name, place, sc, i, inboxes, bases)
    {
      var b := sc.beats[i];
      if b.documentFleet != sc.fleet || b.documentAgent != b.agent || !b.wellFormed {
        assert b in sc.beats && !DocumentMatches(sc, b);
        return false, inboxes, bases;
      }
      inboxes, bases := PlaceNext(name, place, sc, i, inboxes, bases);
    }
    BasesComplete(sc, bases);
    AllMatch(sc);
    matched := true;
  }

  // ---------------------------------------------------------------- direct deliveries

  /** The inbox of `v` after the direct delivery over one link. */
  function AfterDirect(name: Naming, v: AgentId, l: Link, bases: map<AgentId, Letter>, inbox: Inbox): Inbox {
    if l.target == v && l.source in bases
    then inbox[name(DirectFile(l.source, v, bases[l.source].messageId)) := bases[l.source]]
    else inbox
  }

  ghost predicate BasesMatch(sc: Scenario, bases: map<AgentId, Letter>) {
    && (forall a :: a in bases ==> HasBeat(sc, a))
    && (forall b :: b in sc.beats ==> b.agent in bases && bases[b.agent] == BaseLetter(sc, b))
  }

  /** What node `v` should hold once the first `i` links have been served. */
  ghost function HeldAfterLinks(sc: Scenario, i: nat, v: AgentId): set<Letter>
    requires i <= |sc.links|
  {
    OwnLetters(sc, sc.beats, v) + DirectLetters(sc, sc.links[..i], v)
  }

  lemma HeldAfterLink(sc: Scenario, i: nat, v: AgentId, bases: map<AgentId, Letter>)
    requires Coherent(sc) && BasesMatch(sc, bases) && i < |sc.links|
    ensures var l := sc.links[i];
      HeldAfterLinks(sc, i + 1, v)
      == HeldAfterLinks(sc, i, v) + (if l.target == v && l.source in bases then {bases[l.source]} else {})
    ensures HeldAfterLinks(sc, i + 1, v) <= Delivered(sc, v, 0)
  {
    var l := sc.links[i];
    assert sc.links[..i + 1] == sc.links[..i] + [l];
    if l.source in bases {
      var b :| b in sc.beats && b.agent == l.source;
    }
    assert DirectLetters(sc, sc.links[..i + 1], v) <= DirectLetters(sc, sc.links, v);
  }

  lemma DirectStep(name: Naming, sc: Scenario, i: nat, v: AgentId, bases: map<AgentId, Letter>, inbox: Inbox)
    requires Coherent(sc) && BasesMatch(sc, bases) && i < |sc.links|
    requires Agrees(name, sc, v, inbox, HeldAfterLinks(sc, i, v))
    ensures Agrees(name, sc, v, AfterDirect(name, v, sc.links[i], bases, inbox), HeldAfterLinks(sc, i + 1, v))
  {
    var l, held := sc.links[i], HeldAfterLinks(sc, i, v);
    HeldAfterLink(sc, i, v, bases);
    if l.target == v && l.source in bases {
      var b :| b in sc.beats && b.agent == l.source;
      WriteAgrees(name, sc, v, 0, inbox, held, bases[l.source]);
    } else {
      assert held == HeldAfterLinks(sc, i + 1, v);
    }
  }

  /** All inboxes once the first `i` links have been served. */
  ghost predicate LinksServed(name: Naming, place: Layout, sc: Scenario, i: nat, inboxes: Inboxes)
    requires i <= |sc.links|
  {
    && Sound(name, place, sc, |sc.beats|, inboxes)
    && (Private(place, sc) ==>
          forall v {:trigger place(v)} :: v in sc.nodes ==>
            Agrees(name, sc, v, inboxes[place(v)], HeldAfterLinks(sc, i, v)))
  }

  lemma DirectStarts(name: Naming, place: Layout, sc: Scenario, inboxes: Inboxes)
    requires OwnPlaced(name, place, sc, |sc.beats|, inboxes)
    ensures LinksServed(name, place, sc, 0, inboxes)
  {
    assert sc.beats[..|sc.beats|] == sc.beats;
    assert forall v :: HeldAfterLinks(sc, 0, v) == OwnLetters(sc, sc.beats, v);
  }

  lemma DirectEnds(name: Naming, place: Layout, sc: Scenario, inboxes: Inboxes)
    requires LinksServed(name, place, sc, |sc.links|, inboxes)
    ensures PassDone(name, place, sc, 0, inboxes)
  {
    assert sc.links[..|sc.links|] == sc.links;
    assert forall v :: HeldAfterLinks(sc, |sc.links|, v) == Delivered(sc, v, 0);
  }

  lemma LinkEndsHaveInboxes(place: Layout, sc: Scenario, i: nat, inboxes: Inboxes)
    requires Coherent(sc) && i < |sc.links| && OneForEachNode(place, sc, inboxes)
    ensures sc.links[i].source in sc.nodes && sc.links[i].target in sc.nodes
    ensures place(sc.links[i].source) in inboxes && place(sc.links[i].target) in inboxes
  {
    assert sc.links[i] in sc.links;
    NodeHasInbox(place, sc, inboxes, sc.links[i].source);
    NodeHasInbox(place, sc, inboxes, sc.links[i].target);
  }

  /** The direct delivery over one link, as far as nodes have directories of their own. */
  lemma DirectAgrees(name: Naming, place: Layout, sc: Scenario, i: nat, bases: map<AgentId, Letter>, before: Inboxes,
                     updated: Inbox, v: AgentId)
    requires Coherent(sc) && BasesMatch(sc, bases) && i < |sc.links| && v in sc.nodes
    requires LinksServed(name, place, sc, i, before) && Private(place, sc)
    requires var l := sc.links[i];
      && l.target in sc.nodes && place(l.target) in before
      && updated == AfterDirect(name, l.target, l, bases, before[place(l.target)])
    ensures var after := before[place(sc.links[i].target) := updated];
      place(v) in after && Agrees(name, sc, v, after[place(v)], HeldAfterLinks(sc, i + 1, v))
  {
    var l := sc.links[i];
    var after := before[place(l.target) := updated];
    NodeHasInbox(place, sc, before, v);
    assert Agrees(name, sc, v, before[place(v)], HeldAfterLinks(sc, i, v));
    DirectStep(name, sc, i, v, bases, before[place(v)]);
    if v != l.target {
      assert place(v) != place(l.target);
    }
  }

  /** The inbox at the end of one link. */
  method SendDirect(name: Naming, sc: Scenario, l: Link, bases: map<AgentId, Letter>, inbox: Inbox)
    returns (updated: Inbox)
    requires BasesMatch(sc, bases) && GenuineInbox(sc, inbox)
    ensures updated == AfterDirect(name, l.target, l, bases, inbox)
    ensures GenuineInbox(sc, updated) && SparesOwn(name, inbox, updated)
  {
    updated := inbox;
    if l.source in bases {
      var letter := bases[l.source];
      ghost var b :| b in sc.beats && b.agent == l.source;
      BaseIsGenuine(sc, b);
      SentFileSpares(name, inbox, DirectFile(l.source, l.target, letter.messageId), letter);
      updated := inbox[name(DirectFile(l.source, l.target, letter.messageId)) := letter];
    }
  }

  method ServeLink(name: Naming, place: Layout, sc: Scenario, i: nat, bases: map<AgentId, Letter>, before: Inboxes)
    returns (after: Inboxes)
    requires Coherent(sc) && BasesMatch(sc, bases) && i < |sc.links| && LinksServed(name, place, sc, i, before)
    ensures LinksServed(name, place, sc, i + 1, after)
  {
    LinkEndsHaveInboxes(place, sc, i, before);
    var d := place(sc.links[i].target);
    var updated := SendDirect(name, sc, sc.links[i], bases, before[d]);
    after := before[d := updated];
    ReplacedIsSound(name, place, sc, before, d, updated);
    if Private(place, sc) {
      forall v | v in sc.nodes ensures Agrees(name, sc, v, after[place(v)], HeldAfterLinks(sc, i + 1, v)) {
        DirectAgrees(name, place, sc, i, bases, before, updated, v);
      }
    }
  }

  method DeliverDirect(name: Naming, place: Layout, sc: Scenario, start: Inboxes, bases: map<AgentId, Letter>)
    returns (inboxes: Inboxes)
    requires Coherent(sc) && BasesMatch(sc, bases)
    requires OwnPlaced(name, place, sc, |sc.beats|, start)
    ensures PassDone(name, place, sc, 0, inboxes)
  {
    inboxes := start;
    DirectStarts(name, place, sc, inboxes);
    for i := 0 to |sc.links|
      invariant LinksServed(name, place, sc, i, inboxes)
    {
      inboxes := ServeLink(name, place, sc, i, bases, inboxes);
    }
    DirectEnds(name, place, sc, inboxes);
  }

  // ---------------------------------------------------------------- relay passes

  ghost function RelaysOf(letters: seq<Letter>, holder: AgentId, pass: nat): set<Letter> {
    set e | e in letters && Relayable(e, holder) :: RelayLetter(e, holder, pass)
  }

  lemma RelaysOfStep(letters: seq<Letter>, holder: AgentId, pass: nat, k: nat)
    requires k < |letters|
    ensures RelaysOf(letters[..k + 1], holder, pass)
         == RelaysOf(letters[..k], holder, pass)
            + (if Relayable(letters[k], holder) then {RelayLetter(letters[k], holder, pass)} else {})
  {
    assert letters[..k + 1] == letters[..k] + [letters[k]];
  }

  /** What the letters of a snapshot and the target's inbox are where nodes have directories of their own. */
  ghost predicate InStep(name: Naming, sc: Scenario, l: Link, pass: nat, letters: seq<Letter>, start: Inbox,
                         held: set<Letter>)
    requires pass >= 1
  {
    && (forall e :: e in letters ==> e in Delivered(sc, l.source, pass - 1))
    && held <= Delivered(sc, l.target, pass) && Agrees(name, sc, l.target, start, held)
  }

  /** One letter more. */
  lemma RelayOne(name: Naming, sc: Scenario, l: Link, pass: nat, letters: seq<Letter>, start: Inbox, inbox: Inbox,
                 held: set<Letter>, k: nat)
    requires Coherent(sc) && l in sc.links && 1 <= pass <= Passes(sc)
    requires k < |letters| && Relayable(letters[k], l.source)
    requires InStep(name, sc, l, pass, letters, start, held)
    requires Agrees(name, sc, l.target, inbox, held + RelaysOf(letters[..k], l.source, pass))
    requires RelaysOf(letters[..k], l.source, pass) <= Delivered(sc, l.target, pass)
    ensures var relayed := RelayLetter(letters[k], l.source, pass);
      && Agrees(name, sc, l.target, inbox[name(RelayFile(pass, l.source, l.target, relayed.messageId)) := relayed],
                held + RelaysOf(letters[..k + 1], l.source, pass))
      && RelaysOf(letters[..k + 1], l.source, pass) <= Delivered(sc, l.target, pass)
  {
    var e, sent := letters[k], RelaysOf(letters[..k], l.source, pass);
    var relayed := RelayLetter(e, l.source, pass);
    assert e in letters;
    RelaysOfStep(letters, l.source, pass, k);
    assert relayed in RelayedLetters(sc, sc.links, l.target, pass);
    WriteAgrees(name, sc, l.target, pass, inbox, held + sent, relayed);
    assert held + sent + {relayed} == held + (sent + {relayed});
  }

  /** The inner loop: one link, every letter of the source's snapshot. */
  method RelayAlong(name: Naming, sc: Scenario, l: Link, pass: nat, letters: seq<Letter>, start: Inbox,
                    ghost apart: bool, ghost held: set<Letter>)
    returns (inbox: Inbox)
    requires Coherent(sc) && l in sc.links && 1 <= pass <= Passes(sc)
    requires GenuineInbox(sc, start) && forall e :: e in letters ==> Genuine(sc, e)
    requires apart ==> InStep(name, sc, l, pass, letters, start, held)
    ensures GenuineInbox(sc, inbox) && SparesOwn(name, start, inbox)
    ensures apart ==> Agrees(name, sc, l.target, inbox, held + RelaysOf(letters, l.source, pass))
  {
    inbox := start;
    for k := 0 to |letters|
      invariant GenuineInbox(sc, inbox) && SparesOwn(name, start, inbox)
      invariant apart ==> Agrees(name, sc, l.target, inbox, held + RelaysOf(letters[..k], l.source, pass))
      invariant apart ==> RelaysOf(letters[..k], l.source, pass) <= Delivered(sc, l.target, pass)
    {
      var e := letters[k];
      assert e in letters;
      RelaysOfStep(letters, l.source, pass, k);
      if e.sender == Some(l.source) || e.hopTtl <= 0 {
        continue;
      }
      var r := RelayEnvelope(e, l.source, Relayed(l.source, pass, e.messageId));
      var relayed := r.value;
      assert relayed == RelayLetter(e, l.source, pass);
      RelayIsGenuine(sc, e, l.source, pass);
      if apart {
        RelayOne(name, sc, l, pass, letters, start, inbox, held, k);
      }
      var key := RelayFile(pass, l.source, l.target, relayed.messageId);
      SentFileSpares(name, inbox, key, relayed);
      inbox := inbox[name(key) := relayed];
    }
    assert letters[..|letters|] == letters;
  }

  ghost function HeldInPass(sc: Scenario, pass: nat, i: nat, v: AgentId): set<Letter>
    requires pass >= 1 && i <= |sc.links|
  {
    Delivered(sc, v, pass - 1) + RelayedLetters(sc, sc.links[..i], v, pass)
  }

  lemma HeldInPassStep(sc: Scenario, pass: nat, i: nat, v: AgentId, letters: seq<Letter>)
    requires pass >= 1 && i < |sc.links|
    requires forall e :: e in letters ==> e in Delivered(sc, sc.links[i].source, pass - 1)
    ensures HeldInPass(sc, pass, i, v) <= HeldInPass(sc, pass, i + 1, v) <= Delivered(sc, v, pass)
    ensures sc.links[i].target != v ==> HeldInPass(sc, pass, i + 1, v) == HeldInPass(sc, pass, i, v)
    ensures sc.links[i].target == v ==>
      HeldInPass(sc, pass, i, v) + RelaysOf(letters, sc.links[i].source, pass) <= HeldInPass(sc, pass, i + 1, v)
    ensures sc.links[i].target == v
            && (forall e :: e in Delivered(sc, sc.links[i].source, pass - 1) ==> e in letters) ==>
      HeldInPass(sc, pass, i, v) + RelaysOf(letters, sc.links[i].source, pass) == HeldInPass(sc, pass, i + 1, v)
  {
    assert sc.links[..i + 1] == sc.links[..i] + [sc.links[i]];
  }

  /** All inboxes once the first `i` links have been served in the pass. */
  ghost predicate PassServed(name: Naming, place: Layout, sc: Scenario, pass: nat, i: nat, inboxes: Inboxes)
    requires pass >= 1 && i <= |sc.links|
  {
    && Sound(name, place, sc, |sc.beats|, inboxes)
    && (Private(place, sc) ==>
          forall v {:trigger place(v)} :: v in sc.nodes ==>
            Agrees(name, sc, v, inboxes[place(v)], HeldInPass(sc, pass, i, v)))
  }

  lemma PassStarts(name: Naming, place: Layout, sc: Scenario, pass: nat, inboxes: Inboxes)
    requires pass >= 1 && PassDone(name, place, sc, pass - 1, inboxes)
    ensures PassServed(name, place, sc, pass, 0, inboxes)
  {
    assert forall v :: HeldInPass(sc, pass, 0, v) == Delivered(sc, v, pass - 1);
  }

  lemma PassEnds(name: Naming, place: Layout, sc: Scenario, pass: nat, inboxes: Inboxes)
    requires pass >= 1 && PassServed(name, place, sc, pass, |sc.links|, inboxes)
    ensures PassDone(name, place, sc, pass, inboxes)
  {
    assert sc.links[..|sc.links|] == sc.links;
    assert forall v :: HeldInPass(sc, pass, |sc.links|, v) == Delivered(sc, v, pass);
  }

  /** A listing of an inbox that agrees holds letters of the protocol, all of them where naming is distinct. */
  lemma ListingIsDelivered(name: Naming, sc: Scenario, v: AgentId, inbox: Inbox, letters: seq<Letter>,
                           held: set<Letter>)
    requires Agrees(name, sc, v, inbox, held) && ListsInbox(letters, inbox)
    ensures forall e :: e in letters ==> e in held
    ensures DistinctFiles(name, sc) ==> forall e :: e in held ==> e in letters
  {
    forall e | e in letters ensures e in held {
      assert e in inbox.Values;
    }
  }

  /** More letters to account for, as far as naming does not tell them apart. */
  lemma AgreesGrows(name: Naming, sc: Scenario, v: AgentId, inbox: Inbox, small: set<Letter>, large: set<Letter>)
    requires Agrees(name, sc, v, inbox, small) && small <= large
    requires DistinctFiles(name, sc) ==> small == large
    ensures Agrees(name, sc, v, inbox, large)
  {
  }

  lemma RelayedInboxAgrees(name: Naming, sc: Scenario, pass: nat, i: nat, letters: seq<Letter>, source: Inbox,
                           updated: Inbox)
    requires Coherent(sc) && 1 <= pass && i < |sc.links| && ListsInbox(letters, source)
    requires Agrees(name, sc, sc.links[i].source, source, Delivered(sc, sc.links[i].source, pass - 1))
    requires Agrees(name, sc, sc.links[i].target, updated,
                    HeldInPass(sc, pass, i, sc.links[i].target) + RelaysOf(letters, sc.links[i].source, pass))
    ensures Agrees(name, sc, sc.links[i].target, updated, HeldInPass(sc, pass, i + 1, sc.links[i].target))
  {
    var l := sc.links[i];
    ListingIsDelivered(name, sc, l.source, source, letters, Delivered(sc, l.source, pass - 1));
    HeldInPassStep(sc, pass, i, l.target, letters);
    AgreesGrows(name, sc, l.target, updated, HeldInPass(sc, pass, i, l.target) + RelaysOf(letters, l.source, pass),
                HeldInPass(sc, pass, i + 1, l.target));
  }

  lemma OneInboxChanges(name: Naming, place: Layout, sc: Scenario, pass: nat, i: nat, before: Inboxes, updated: Inbox)
    requires pass >= 1 && i < |sc.links| && PassServed(name, place, sc, pass, i, before) && Private(place, sc)
    requires sc.links[i].target in sc.nodes && place(sc.links[i].target) in before
    requires Agrees(name, sc, sc.links[i].target, updated, HeldInPass(sc, pass, i + 1, sc.links[i].target))
    ensures var after := before[place(sc.links[i].target) := updated];
      && (forall v :: v in sc.nodes ==> place(v) in after)
      && (forall v :: v in sc.nodes ==> Agrees(name, sc, v, after[place(v)], HeldInPass(sc, pass, i + 1, v)))
  {
    var after := before[place(sc.links[i].target) := updated];
    forall v | v in sc.nodes
      ensures place(v) in after && Agrees(name, sc, v, after[place(v)], HeldInPass(sc, pass, i + 1, v))
    {
      NodeHasInbox(place, sc, before, v);
      HeldInPassStep(sc, pass, i, v, []);
    }
  }

  /** The letters of the snapshot that go along one link of a pass. */
  method RelayFrom(name: Naming, sc: Scenario, pass: nat, i: nat, source: Inbox, start: Inbox, ghost apart: bool)
    returns (updated: Inbox)
    requires Coherent(sc) && 1 <= pass <= Passes(sc) && i < |sc.links|
    requires GenuineInbox(sc, source) && GenuineInbox(sc, start)
    requires apart ==> Agrees(name, sc, sc.links[i].source, source, Delivered(sc, sc.links[i].source, pass - 1))
    requires apart ==> Agrees(name, sc, sc.links[i].target, start, HeldInPass(sc, pass, i, sc.links[i].target))
    ensures GenuineInbox(sc, updated) && SparesOwn(name, start, updated)
    ensures apart ==> Agrees(name, sc, sc.links[i].target, updated, HeldInPass(sc, pass, i + 1, sc.links[i].target))
  {
    var l := sc.links[i];
    assert l in sc.links;
    var letters := ListInbox(source);
    forall e | e in letters ensures Genuine(sc, e) {
      assert e in source.Values;
    }
    if apart {
      ListingIsDelivered(name, sc, l.source, source, letters, Delivered(sc, l.source, pass - 1));
      HeldInPassStep(sc, pass, i, l.target, []);
    }
    updated := RelayAlong(name, sc, l, pass, letters, start, apart, HeldInPass(sc, pass, i, l.target));
    if apart {
      RelayedInboxAgrees(name, sc, pass, i, letters, source, updated);
    }
  }

  method RelayLink(name: Naming, place: Layout, sc: Scenario, pass: nat, i: nat, snapshot: Inboxes, before: Inboxes)
    returns (after: Inboxes)
    requires Coherent(sc) && 1 <= pass <= Passes(sc) && i < |sc.links|
    requires PassDone(name, place, sc, pass - 1, snapshot) && PassServed(name, place, sc, pass, i, before)
    ensures PassServed(name, place, sc, pass, i + 1, after)
  {
    var l := sc.links[i];
    LinkEndsHaveInboxes(place, sc, i, snapshot);
    LinkEndsHaveInboxes(place, sc, i, before);
    var d := place(l.target);
    var updated := RelayFrom(name, sc, pass, i, snapshot[place(l.source)], before[d], Private(place, sc));
    ReplacedIsSound(name, place, sc, before, d, updated);
    if Private(place, sc) {
      OneInboxChanges(name, place, sc, pass, i, before, updated);
    }
    after := before[d := updated];
  }

  /** One synchronous pass over all links, reading only the inboxes as they were when it began. */
  method RelayPass(name: Naming, place: Layout, sc: Scenario, pass: nat, snapshot: Inboxes) returns (inboxes: Inboxes)
    requires Coherent(sc) && 1 <= pass <= Passes(sc)
    requires PassDone(name, place, sc, pass - 1, snapshot)
    ensures PassDone(name, place, sc, pass, inboxes)
  {
    inboxes := snapshot;
    PassStarts(name, place, sc, pass, inboxes);
    for i := 0 to |sc.links|
      invariant PassServed(name, place, sc, pass, i, inboxes)
    {
      inboxes := RelayLink(name, place, sc, pass, i, snapshot, inboxes);
    }
    PassEnds(name, place, sc, pass, inboxes);
  }

  // ---------------------------------------------------------------- the summaries

  /** The table is the merge of the whole inbox, in some order. */
  ghost predicate Summarizes(fleet: string, inbox: Inbox, known: Table) {
    exists order :: ListsInbox(order, inbox) && known == MergeRun(fleet, order)
  }

  /** Merges a whole inbox, skipping what the merge refuses, and sums the table up. */
  method SummarizeNode(fleet: string, observer: AgentId, inbox: Inbox, now: int)
    returns (known: Table, summary: Result<map<AgentId, PeerStatus>, Fault>)
    ensures Summarizes(fleet, inbox, known) && summary == SummaryOf(known, now)
  {
    var state := new GossipState(fleet, observer);
    var letters := ListInbox(inbox);
    for i := 0 to |letters|
      invariant state.observations == MergeRun(fleet, letters[..i])
    {
      assert letters[..i + 1][..i] == letters[..i];
      MergeIgnoresCounter(fleet, state.observations, state.forbiddenCount, 0, letters[i]);
      var fault := state.MergeEnvelope(letters[i]);
    }
    assert letters[..|letters|] == letters;
    assert ListsInbox(letters, inbox);
    known := state.observations;
    summary := state.Summary(now);
  }

  lemma MergeIgnoresCounter(fleet: string, t: Table, m: nat, n: nat, e: Letter)
    ensures Merge(fleet, t, m, e).table == Merge(fleet, t, n, e).table
  {
  }

  /** The table holds exactly the agents the letters are about, each as one of them says. */
  ghost predicate KnowsFrom(es: seq<Letter>, t: Table) {
    && (forall e :: e in es && e.entries != [] && e.entries[0].Some? ==> e.entries[0].value.agent in t)
    && (forall a :: a in t ==> exists e :: e in es && e.entries == [Some(t[a])] && t[a].agent == a)
  }

  lemma MergeOne(fleet: string, t: Table, e: Letter)
    requires ValidateEnvelope(e).None? && e.fleet == Some(fleet) && |e.entries| == 1 && e.entries[0].Some?
    ensures Merge(fleet, t, 0, e).table == Absorb(t, e.entries[0].value).table
  {
    var os := Observations(e);
    assert os == [e.entries[0].value];
    assert os[..0] == [];
    assert MergeAll(t, os) == Absorb(t, os[0]);
  }

  lemma AbsorbKnows(es: seq<Letter>, e: Letter, t: Table, o: Observation)
    requires KnowsFrom(es, t) && e.entries == [Some(o)]
    ensures KnowsFrom(es + [e], Absorb(t, o).table)
  {
    assert e in es + [e] && forall x :: x in es ==> x in es + [e];
    if o.agent !in t || IsNewer(o, t[o.agent]) == Some(true) {
      assert Absorb(t, o).table == t[o.agent := o];
      WriteKnows(es, e, t, o);
    } else {
      assert Absorb(t, o).table == t;
    }
  }

  lemma WriteKnows(es: seq<Letter>, e: Letter, t: Table, o: Observation)
    requires KnowsFrom(es, t) && e.entries == [Some(o)]
    ensures KnowsFrom(es + [e], t[o.agent := o])
  {
    assert e in es + [e] && forall x :: x in es ==> x in es + [e];
  }

  /** Letters with one observation each teach exactly the agents they are about, readable times or not. */
  lemma {:induction false} MergeRunKnows(fleet: string, es: seq<Letter>)
    requires forall e :: e in es ==>
      ValidateEnvelope(e).None? && e.fleet == Some(fleet) && |e.entries| == 1 && e.entries[0].Some?
    ensures KnowsFrom(es, MergeRun(fleet, es))
  {
    if es != [] {
      var init, e := es[..|es| - 1], es[|es| - 1];
      assert es == init + [e];
      MergeRunKnows(fleet, init);
      MergeOne(fleet, MergeRun(fleet, init), e);
      AbsorbKnows(init, e, MergeRun(fleet, init), e.entries[0].value);
    }
  }

  /**
   A summary lists only agents that reach the node, each with its own heartbeat, and, where naming is
   distinct, all of them.
   */
  ghost predicate KnowsWhoReaches(name: Naming, sc: Scenario, v: AgentId, passes: nat, known: Table) {
    && (forall a :: a in known ==> Reaches(sc, a, v, passes) && FromLetter(sc, v, passes, known[a]))
    && (DistinctFiles(name, sc) ==> forall a :: Reaches(sc, a, v, passes) ==> a in known)
  }

  ghost predicate FromLetter(sc: Scenario, v: AgentId, passes: nat, o: Observation) {
    exists e :: e in Delivered(sc, v, passes) && e.entries == [Some(o)] && e.sender == Some(o.heardFrom)
  }

  /** What a summary needs of a letter that was delivered. */
  ghost predicate Teachable(sc: Scenario, v: AgentId, passes: nat, e: Letter) {
    && e in Delivered(sc, v, passes) && ValidateEnvelope(e).None? && e.fleet == Some(sc.fleet)
    && |e.entries| == 1 && e.entries[0].Some? && e.entries[0].value.agent == Origin(e.messageId)
    && e.sender == Some(e.entries[0].value.heardFrom)
  }

  lemma DeliveredIsTeachable(sc: Scenario, v: AgentId, passes: nat, e: Letter)
    requires Coherent(sc) && e in Delivered(sc, v, passes)
    ensures Teachable(sc, v, passes, e)
  {
    Provenance(sc, v, passes, e);
  }

  lemma KnownReaches(sc: Scenario, v: AgentId, passes: nat, order: seq<Letter>, known: Table, a: AgentId)
    requires Coherent(sc) && (forall e :: e in order ==> Teachable(sc, v, passes, e))
    requires KnowsFrom(order, known) && a in known
    ensures Reaches(sc, a, v, passes) && FromLetter(sc, v, passes, known[a])
  {
    var e :| e in order && e.entries == [Some(known[a])] && known[a].agent == a;
    assert Teachable(sc, v, passes, e);
    DeliveredIffReaches(sc, a, v, passes);
  }

  lemma ReacherIsKnown(sc: Scenario, v: AgentId, passes: nat, order: seq<Letter>, known: Table, a: AgentId)
    requires Coherent(sc) && (forall e :: e in order ==> Teachable(sc, v, passes, e))
    requires KnowsFrom(order, known) && Reaches(sc, a, v, passes)
    requires forall e :: e in Delivered(sc, v, passes) ==> e in order
    ensures a in known
  {
    DeliveredIffReaches(sc, a, v, passes);
    var e :| e in Delivered(sc, v, passes) && Origin(e.messageId) == a;
    assert e in order && Teachable(sc, v, passes, e);
  }

  lemma SummaryReaches(name: Naming, sc: Scenario, v: AgentId, passes: nat, inbox: Inbox, order: seq<Letter>)
    requires Coherent(sc) && Agrees(name, sc, v, inbox, Delivered(sc, v, passes)) && ListsInbox(order, inbox)
    ensures KnowsWhoReaches(name, sc, v, passes, MergeRun(sc.fleet, order))
  {
    OrderTeachable(name, sc, v, passes, inbox, order);
    MergeRunKnows(sc.fleet, order);
    var known := MergeRun(sc.fleet, order);
    forall a | a in known ensures Reaches(sc, a, v, passes) && FromLetter(sc, v, passes, known[a]) {
      KnownReaches(sc, v, passes, order, known, a);
    }
    if DistinctFiles(name, sc) {
      forall a | Reaches(sc, a, v, passes) ensures a in known {
        ReacherIsKnown(sc, v, passes, order, known, a);
      }
    }
  }

  lemma OrderTeachable(name: Naming, sc: Scenario, v: AgentId, passes: nat, inbox: Inbox, order: seq<Letter>)
    requires Coherent(sc) && Agrees(name, sc, v, inbox, Delivered(sc, v, passes)) && ListsInbox(order, inbox)
    ensures forall e :: e in order ==> Teachable(sc, v, passes, e)
  {
    forall e | e in order ensures Teachable(sc, v, passes, e) {
      assert e in inbox.Values;
      DeliveredIsTeachable(sc, v, passes, e);
    }
  }

  /** The letter's one observation can be summed up. */
  predicate LetterRenderable(e: Letter) {
    |e.entries| == 1 && e.entries[0].Some? && Renderable(e.entries[0].value)
  }

  ghost predicate LettersReadable(inboxes: Inboxes) {
    forall d, f :: d in inboxes && f in inboxes[d] ==> LetterRenderable(inboxes[d][f])
  }

  /** Letters about one agent carry the time of one heartbeat. */
  lemma SameAgentSameTime(sc: Scenario, e: Letter, f: Letter)
    requires Coherent(sc) && Genuine(sc, e) && Genuine(sc, f)
    requires e.entries[0].value.agent == f.entries[0].value.agent
    ensures LetterRenderable(e) <==> LetterRenderable(f)
  {
    var b :| b in sc.beats && e.entries == [Some(BeatObservation(sc, b, e.sender.value))];
    var c :| c in sc.beats && f.entries == [Some(BeatObservation(sc, c, f.sender.value))];
    assert b == c;
  }

  /** An inbox can be summed up exactly when the times of all letters left in it parse. */
  lemma SummarizableIff(sc: Scenario, inbox: Inbox, order: seq<Letter>)
    requires Coherent(sc) && GenuineInbox(sc, inbox) && ListsInbox(order, inbox)
    ensures Summarizable(MergeRun(sc.fleet, order)) <==> forall f :: f in inbox ==> LetterRenderable(inbox[f])
  {
    var known := MergeRun(sc.fleet, order);
    forall e | e in order ensures Genuine(sc, e) {
      assert e in inbox.Values;
    }
    MergeRunKnows(sc.fleet, order);
    forall f | f in inbox
      ensures inbox[f].entries[0].value.agent in known
      ensures Renderable(known[inbox[f].entries[0].value.agent]) <==> LetterRenderable(inbox[f])
    {
      assert inbox[f] in inbox.Values && inbox[f] in order;
      var a := inbox[f].entries[0].value.agent;
      var e :| e in order && e.entries == [Some(known[a])] && known[a].agent == a;
      SameAgentSameTime(sc, e, inbox[f]);
    }
    forall a | a in known ensures exists f :: f in inbox && inbox[f].entries == [Some(known[a])] {
      var e :| e in order && e.entries == [Some(known[a])] && known[a].agent == a;
      assert e in inbox.Values;
    }
  }

  /** A letter whose time does not parse speaks for a heartbeat whose time does not. */
  lemma ReadableLetters(sc: Scenario, inboxes: Inboxes)
    requires TimesReadable(sc) && AllGenuine(sc, inboxes)
    ensures LettersReadable(inboxes)
  {
    forall d, f | d in inboxes && f in inboxes[d] ensures LetterRenderable(inboxes[d][f]) {
      assert GenuineInbox(sc, inboxes[d]) && Genuine(sc, inboxes[d][f]);
      var e := inboxes[d][f];
      var b :| b in sc.beats && e.entries == [Some(BeatObservation(sc, b, e.sender.value))];
    }
  }

  /** Where own letters are kept, every time of the scenario shows. */
  lemma OwnLettersShow(name: Naming, place: Layout, sc: Scenario, inboxes: Inboxes)
    requires Sound(name, place, sc, |sc.beats|, inboxes) && OwnFilesApart(name, place, sc) && LettersReadable(inboxes)
    ensures TimesReadable(sc)
  {
    forall b | b in sc.beats ensures b.observedAt.Some? {
      var j :| 0 <= j < |sc.beats| && sc.beats[j] == b;
      assert OwnKept(name, place, sc, inboxes, sc.beats[j]);
      assert LetterRenderable(inboxes[place(b.agent)][OwnFile(name, b.agent)]);
    }
  }

  /** A table entry is the observation of a letter in the inbox, which tells what a heartbeat of the agent says. */
  ghost predicate EntryTells(sc: Scenario, inbox: Inbox, known: Table, a: AgentId)
    requires a in known
  {
    exists f :: f in inbox && inbox[f].entries == [Some(known[a])] && LetterTells(sc, a, inbox[f])
  }

  ghost predicate TableTells(sc: Scenario, inbox: Inbox, known: Table) {
    forall a :: a in known ==> EntryTells(sc, inbox, known, a)
  }

  lemma SummaryTells(sc: Scenario, inbox: Inbox, order: seq<Letter>)
    requires GenuineInbox(sc, inbox) && ListsInbox(order, inbox)
    ensures TableTells(sc, inbox, MergeRun(sc.fleet, order))
  {
    var known := MergeRun(sc.fleet, order);
    forall e | e in order ensures Genuine(sc, e) {
      assert e in inbox.Values;
    }
    MergeRunKnows(sc.fleet, order);
    forall a | a in known ensures EntryTells(sc, inbox, known, a) {
      var e :| e in order && e.entries == [Some(known[a])] && known[a].agent == a;
      GenuineTells(sc, e);
      assert e in inbox.Values;
      var f :| f in inbox && inbox[f] == e;
    }
  }

  /** What the summary of a node says of the round. */
  ghost predicate SummaryOfNode(name: Naming, place: Layout, sc: Scenario, passes: nat, inboxes: Inboxes, v: AgentId,
                                known: Table)
  {
    && place(v) in inboxes && Summarizes(sc.fleet, inboxes[place(v)], known)
    && TableTells(sc, inboxes[place(v)], known)
    && (Private(place, sc) ==> KnowsWhoReaches(name, sc, v, passes, known))
  }

  method SummarizeOne(name: Naming, place: Layout, sc: Scenario, v: AgentId, inboxes: Inboxes, passes: nat, now: int)
    returns (known: Table, rendered: bool)
    requires Coherent(sc) && PassDone(name, place, sc, passes, inboxes) && v in sc.nodes
    ensures SummaryOfNode(name, place, sc, passes, inboxes, v, known) && (rendered <==> Summarizable(known))
    ensures rendered <==> forall f :: f in inboxes[place(v)] ==> LetterRenderable(inboxes[place(v)][f])
  {
    NodeHasInbox(place, sc, inboxes, v);
    var inbox := inboxes[place(v)];
    var summary;
    known, summary := SummarizeNode(sc.fleet, v, inbox, now);
    rendered := summary.Ok?;
    ghost var order :| ListsInbox(order, inbox) && known == MergeRun(sc.fleet, order);
    SummarizableIff(sc, inbox, order);
    SummaryTells(sc, inbox, order);
    if Private(place, sc) {
      SummaryReaches(name, sc, v, passes, inbox, order);
    }
  }

  lemma AllInboxesReadable(place: Layout, sc: Scenario, inboxes: Inboxes)
    requires OneForEachNode(place, sc, inboxes)
    requires forall j :: 0 <= j < |sc.nodes| ==> InboxReadable(inboxes, place(sc.nodes[j]))
    ensures LettersReadable(inboxes)
  {
    forall d | d in inboxes ensures InboxReadable(inboxes, d) {
      var v :| v in sc.nodes && place(v) == d;
      var j :| 0 <= j < |sc.nodes| && sc.nodes[j] == v;
    }
  }

  /** Node after node; the first summary that raises ends the round. */
  method SummarizeAll(name: Naming, place: Layout, sc: Scenario, inboxes: Inboxes, passes: nat, now: int)
    returns (r: Result<map<AgentId, Table>, RoundError>)
    requires Coherent(sc) && PassDone(name, place, sc, passes, inboxes)
    ensures r.Ok? <==> LettersReadable(inboxes)
    ensures r.Err? ==> r.error == UnreadableTime
    ensures r.Ok? ==> r.value.Keys == (set v | v in sc.nodes)
    ensures r.Ok? ==> forall v :: v in r.value ==>
      SummaryOfNode(name, place, sc, passes, inboxes, v, r.value[v]) && Summarizable(r.value[v])
  {
    var summaries: map<AgentId, Table> := map[];
    for i := 0 to |sc.nodes|
      invariant summaries.Keys == (set v | v in sc.nodes[..i])
      invariant forall v :: v in summaries ==>
        SummaryOfNode(name, place, sc, passes, inboxes, v, summaries[v]) && Summarizable(summaries[v])
      invariant forall j :: 0 <= j < i ==> InboxReadable(inboxes, place(sc.nodes[j]))
    {
      assert sc.nodes[..i + 1] == sc.nodes[..i] + [sc.nodes[i]];
      var v := sc.nodes[i];
      assert v in sc.nodes;
      var known, rendered := SummarizeOne(name, place, sc, v, inboxes, passes, now);
      if !rendered {
        return Err(UnreadableTime);
      }
      summaries := summaries[v := known];
    }
    assert sc.nodes[..|sc.nodes|] == sc.nodes;
    AllInboxesReadable(place, sc, inboxes);
    return Ok(summaries);
  }

  ghost predicate InboxReadable(inboxes: Inboxes, d: string) {
    d in inboxes && forall f :: f in inboxes[d] ==> LetterRenderable(inboxes[d][f])
  }

  /**
   The whole round, for any choice of directories and file names. A scenario that is valid and matches
   its documents ends with inboxes that hold letters of its heartbeats only. It is reported exactly when
   the times of all letters left in them parse: just when all its times parse, as long as own files are
   kept apart. What a node then knows of an agent is what the agent's heartbeat says, as a letter left in
   the node's directory brought it, heard from the letter's sender. Where nodes have directories of their
   own, every node knows only agents that reach it within the hop and pass limits and, when no two files
   share a name, exactly those.
   */
  method SimulateRound(name: Naming, place: Layout, sc: Scenario, now: int)
    returns (r: Result<map<AgentId, Table>, RoundError>, inboxes: Inboxes)
    ensures r.Err? ==> r.error == if !ValidScenario(sc) then InvalidScenario
                                  else if !DocumentsMatch(sc) then HeartbeatRefused else UnreadableTime
    ensures r.Ok? ==> ValidScenario(sc) && DocumentsMatch(sc)
    ensures ValidScenario(sc) && DocumentsMatch(sc) ==> (r.Ok? <==> LettersReadable(inboxes))
    ensures ValidScenario(sc) && DocumentsMatch(sc) && TimesReadable(sc) ==> r.Ok?
    ensures OwnFilesApart(name, place, sc) ==>
      (r.Ok? <==> ValidScenario(sc) && DocumentsMatch(sc) && TimesReadable(sc))
    ensures ValidScenario(sc) && DocumentsMatch(sc) ==> PassDone(name, place, sc, sc.relayPasses, inboxes)
    ensures ValidScenario(sc) && DocumentsMatch(sc) && Private(place, sc) ==>
      (DistinctFiles(name, sc) <==> Complete(place, sc, inboxes))
    ensures r.Ok? ==> r.value.Keys == (set v | v in sc.nodes)
    ensures r.Ok? ==> forall v :: v in r.value ==>
      SummaryOfNode(name, place, sc, sc.relayPasses, inboxes, v, r.value[v]) && Summarizable(r.value[v])
    ensures r.Ok? ==> forall v :: v in r.value ==>
      place(v) in inboxes && forall a :: a in r.value[v] ==> EntryTells(sc, inboxes[place(v)], r.value[v], a)
  {
    inboxes := map[];
    var valid := ValidateScenario(sc);
    if !valid {
      return Err(InvalidScenario), inboxes;
    }
    var matched, own, bases := PlaceOwnLetters(name, place, sc);
    if !matched {
      return Err(HeartbeatRefused), own;
    }
    inboxes := DeliverDirect(name, place, sc, own, bases);
    for pass := 0 to sc.relayPasses
      invariant PassDone(name, place, sc, pass, inboxes)
    {
      inboxes := RelayPass(name, place, sc, pass + 1, inboxes);
    }
    if Private(place, sc) {
      CompleteIffDistinct(name, place, sc, inboxes);
    }
    if TimesReadable(sc) {
      ReadableLetters(sc, inboxes);
    }
    r := SummarizeAll(name, place, sc, inboxes, sc.relayPasses, now);
    if OwnFilesApart(name, place, sc) && r.Ok? {
      OwnLettersShow(name, place, sc, inboxes);
    }
  }

  // ---------------------------------------------------------------- when file names collide

  /** Every inbox holds all the letters bound for its node. */
  ghost predicate Complete(place: Layout, sc: Scenario, inboxes: Inboxes) {
    forall v :: v in sc.nodes ==> place(v) in inboxes && inboxes[place(v)].Values == Delivered(sc, v, Passes(sc))
  }

  /** The round loses no letter exactly when no two letters of one inbox share a file name. */
  lemma CompleteIffDistinct(name: Naming, place: Layout, sc: Scenario, inboxes: Inboxes)
    requires Coherent(sc) && PassDone(name, place, sc, Passes(sc), inboxes) && Private(place, sc)
    ensures DistinctFiles(name, sc) <==> Complete(place, sc, inboxes)
  {
    if Complete(place, sc, inboxes) {
      forall v, e, f | e in Delivered(sc, v, Passes(sc)) && f in Delivered(sc, v, Passes(sc)) && e != f
        ensures name(KeyOf(v, e.messageId)) != name(KeyOf(v, f.messageId))
      {
        DeliveredHistory(sc, v, Passes(sc), e);
        assert v in sc.nodes;
        var inbox := inboxes[place(v)];
        assert Agrees(name, sc, v, inbox, Delivered(sc, v, Passes(sc)));
        assert e in inbox.Values && f in inbox.Values;
      }
    }
    if DistinctFiles(name, sc) {
      forall v | v in sc.nodes
        ensures place(v) in inboxes && inboxes[place(v)].Values == Delivered(sc, v, Passes(sc))
      {
        NodeHasInbox(place, sc, inboxes, v);
        assert Agrees(name, sc, v, inboxes[place(v)], Delivered(sc, v, Passes(sc)));
      }
    }
  }
}
