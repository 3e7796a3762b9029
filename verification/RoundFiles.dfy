/**
 The round with the program's own directories and file names. Both are made of parts from which
 unsafe characters, outer dots and dashes, and what is past 120 characters are removed, so nodes can
 share a directory and letters can overwrite each other. There is a condition on scenarios under
 which neither happens, and there are scenarios in which each does.
 */
module RoundFiles {
  import opened Wrappers
  import opened Gossip
  import opened MeshRound

  // ---------------------------------------------------------------- file parts

  predicate SafeChar(c: char) {
    'a' <= c <= 'z' || 'A' <= c <= 'Z' || '0' <= c <= '9' || c == '_' || c == '.' || c == '-'
  }

  predicate Edge(c: char) {
    c == '.' || c == '-'
  }

  /** Every run of unsafe characters becomes one dash. */
  function Replaced(s: string, inRun: bool): string {
    if s == "" then ""
    else if SafeChar(s[0]) then [s[0]] + Replaced(s[1..], false)
    else (if inRun then "" else "-") + Replaced(s[1..], true)
  }

  function StripLeft(s: string): string {
    if s != "" && Edge(s[0]) then StripLeft(s[1..]) else s
  }

  function StripRight(s: string): string {
    if s != "" && Edge(s[|s| - 1]) then StripRight(s[..|s| - 1]) else s
  }

  function Cut(s: string): string {
    if |s| <= 120 then s else s[..120]
  }

  /** The part of a file name that stands for a text; the program refuses an empty one. */
  function SafePart(s: string): string {
    Cut(StripRight(StripLeft(Replaced(s, false))))
  }

  predicate AllSafe(s: string) {
    forall i :: 0 <= i < |s| ==> SafeChar(s[i])
  }

  predicate NoEdges(s: string) {
    s != "" && !Edge(s[0]) && !Edge(s[|s| - 1])
  }

  /** A text that is its own file part. */
  predicate IsFilePart(s: string) {
    |s| <= 120 && AllSafe(s) && NoEdges(s)
  }

  lemma {:induction false} SafeIsNotReplaced(s: string, inRun: bool)
    requires AllSafe(s)
    ensures Replaced(s, inRun) == s
  {
    if s != "" {
      SafeIsNotReplaced(s[1..], false);
    }
  }

  lemma {:induction false} ReplacedIsSafe(s: string, inRun: bool)
    ensures AllSafe(Replaced(s, inRun)) && |Replaced(s, inRun)| <= |s|
  {
    if s != "" {
      ReplacedIsSafe(s[1..], !SafeChar(s[0]));
    }
  }

  lemma {:induction false} StripLeftStrips(s: string)
    ensures |StripLeft(s)| <= |s| && (AllSafe(s) ==> AllSafe(StripLeft(s)))
    ensures StripLeft(s) == "" || !Edge(StripLeft(s)[0])
  {
    if s != "" && Edge(s[0]) {
      StripLeftStrips(s[1..]);
    }
  }

  lemma {:induction false} StripRightStrips(s: string)
    ensures |StripRight(s)| <= |s| && (AllSafe(s) ==> AllSafe(StripRight(s)))
    ensures StripRight(s) == "" || !Edge(StripRight(s)[|StripRight(s)| - 1])
    ensures StripRight(s) == s[..|StripRight(s)|]
  {
    if s != "" && Edge(s[|s| - 1]) {
      StripRightStrips(s[..|s| - 1]);
    }
  }

  /** Safe texts without outer dots and dashes are only cut. */
  lemma SafeTextIsCut(s: string)
    requires AllSafe(s) && NoEdges(s)
    ensures SafePart(s) == Cut(s)
  {
    SafeIsNotReplaced(s, false);
  }

  /** A text is its own file part exactly if it is safe, short, and has no dot or dash at either end. */
  lemma FilePartIff(s: string)
    ensures s != "" && SafePart(s) == s <==> IsFilePart(s)
  {
    if IsFilePart(s) {
      SafeTextIsCut(s);
    }
    var replaced := Replaced(s, false);
    var left := StripLeft(replaced);
    ReplacedIsSafe(s, false);
    StripLeftStrips(replaced);
    StripRightStrips(left);
  }

  predicate NoneSafe(s: string) {
    forall i :: 0 <= i < |s| ==> !SafeChar(s[i])
  }

  lemma {:induction false} ReplacedAfterSafe(a: string, rest: string, inRun: bool)
    requires AllSafe(a) && a != ""
    ensures Replaced(a + rest, inRun) == a + Replaced(rest, false)
  {
    assert (a + rest)[1..] == a[1..] + rest;
    if |a| == 1 {
      assert a[1..] + rest == rest;
    } else {
      ReplacedAfterSafe(a[1..], rest, false);
    }
  }

  lemma {:induction false} ReplacedRun(u: string, rest: string, inRun: bool)
    requires NoneSafe(u) && u != ""
    ensures Replaced(u + rest, inRun) == (if inRun then "" else "-") + Replaced(rest, true)
  {
    assert (u + rest)[1..] == u[1..] + rest;
    if |u| == 1 {
      assert u[1..] + rest == rest;
    } else {
      ReplacedRun(u[1..], rest, true);
    }
  }

  lemma JoinedHasNoEdges(a: string, b: string)
    requires NoEdges(a) && NoEdges(b)
    ensures NoEdges(a + ("-" + b))
  {
    var t := a + ("-" + b);
    assert t[0] == a[0] && t[|t| - 1] == b[|b| - 1];
  }

  lemma ReplacedBetween(a: string, u: string, b: string)
    requires AllSafe(a) && a != "" && AllSafe(b) && NoneSafe(u) && u != ""
    ensures Replaced(a + (u + b), false) == a + ("-" + b)
  {
    ReplacedAfterSafe(a, u + b, false);
    ReplacedRun(u, b, false);
    SafeIsNotReplaced(b, true);
  }

  lemma NothingStripped(t: string)
    requires NoEdges(t) && |t| <= 120
    ensures Cut(StripRight(StripLeft(t))) == t
  {
  }

  /** Whatever stands between two safe texts, one dash is left of it. */
  lemma UnsafeRunBecomesDash(a: string, u: string, b: string)
    requires IsFilePart(a) && IsFilePart(b) && NoneSafe(u) && u != "" && |a| + 1 + |b| <= 120
    ensures SafePart(a + (u + b)) == a + ("-" + b)
  {
    ReplacedBetween(a, u, b);
    JoinedHasNoEdges(a, b);
    NothingStripped(a + ("-" + b));
  }

  predicate AllEdges(s: string) {
    forall i :: 0 <= i < |s| ==> Edge(s[i])
  }

  lemma {:induction false} StripLeftOff(e: string, s: string)
    requires AllEdges(e) && s != "" && !Edge(s[0])
    ensures StripLeft(e + s) == s
  {
    if e == "" {
      assert e + s == s;
    } else {
      assert (e + s)[1..] == e[1..] + s;
      StripLeftOff(e[1..], s);
    }
  }

  lemma {:induction false} StripRightOff(s: string, e: string)
    requires AllEdges(e) && s != "" && !Edge(s[|s| - 1])
    ensures StripRight(s + e) == s
  {
    if e == "" {
      assert s + e == s;
    } else {
      assert (s + e)[..|s + e| - 1] == s + e[..|e| - 1];
      StripRightOff(s, e[..|e| - 1]);
    }
  }

  /** Dots and dashes around a file part go. */
  lemma OuterEdgesGo(e: string, a: string, f: string)
    requires IsFilePart(a) && AllEdges(e) && AllEdges(f)
    ensures SafePart(e + (a + f)) == a
  {
    SafeIsNotReplaced(e + (a + f), false);
    StripLeftOff(e, a + f);
    StripRightOff(a, f);
  }

  // ---------------------------------------------------------------- file names

  function PassText(n: nat): string {
    if n < 10 then ['0' + n as char] else PassText(n / 10) + ['0' + (n % 10) as char]
  }

  function MessageText(round: string, id: MessageId): string {
    match id
    case Heartbeat(a) => round + "-" + a + "-heartbeat"
    case Relayed(s, pass, previous) =>
      round + "-" + s + "-relay-" + PassText(pass) + "-" + MessageText(round, previous)
  }

  function Join(parts: seq<string>): string {
    if parts == [] then ""
    else if |parts| == 1 then parts[0]
    else parts[0] + ("-" + Join(parts[1..]))
  }

  function Parts(round: string, key: FileKey): seq<string> {
    match key
    case SelfFile(a, id) => ["self", SafePart(a), SafePart(MessageText(round, id))]
    case DirectFile(s, t, id) => ["direct", SafePart(s), "to", SafePart(t), SafePart(MessageText(round, id))]
    case RelayFile(pass, s, t, id) =>
      ["relay-pass-" + PassText(pass), SafePart(s), "to", SafePart(t), SafePart(MessageText(round, id))]
  }

  function FileName(round: string, key: FileKey): string {
    Join(Parts(round, key)) + ".json"
  }

  /** The naming of a round. */
  function Names(round: string): Naming {
    key => FileName(round, key)
  }

  function FirstLetter(key: FileKey): char {
    match key
    case SelfFile(_, _) => 's'
    case DirectFile(_, _, _) => 'd'
    case RelayFile(_, _, _, _) => 'r'
  }

  lemma NameStarts(round: string, key: FileKey)
    ensures |FileName(round, key)| > 0 && FileName(round, key)[0] == FirstLetter(key)
  {
    var parts := Parts(round, key);
    assert Join(parts)[0] == parts[0][0];
  }

  /** A node's own file is never overwritten by what others send. */
  lemma OwnFileIsSafe(round: string)
    ensures SelfApart(Names(round))
  {
    forall k: FileKey, l: FileKey | k.SelfFile? && !l.SelfFile? ensures Names(round)(k) != Names(round)(l) {
      NameStarts(round, k);
      NameStarts(round, l);
    }
  }

  /** Nor by another node's own file, if every node has a directory of its own. */
  lemma PrivateKeepsOwn(sc: Scenario)
    requires Private(SafePart, sc)
    ensures OwnFilesApart(Names(sc.round), SafePart, sc)
  {
    OwnFileIsSafe(sc.round);
  }

  // ---------------------------------------------------------------- names that tell letters apart

  predicate DashFree(s: string) {
    forall i :: 0 <= i < |s| ==> s[i] != '-'
  }

  /** What stands before the first dash can be read back. */
  lemma FirstSegment(a: string, b: string, x: string, y: string)
    requires DashFree(a) && DashFree(b) && a + ("-" + x) == b + ("-" + y)
    ensures a == b && x == y
  {
    var s := a + ("-" + x);
    assert s[|a|] == '-' && s[|b|] == '-';
    assert forall i :: 0 <= i < |a| ==> s[i] == a[i];
    assert forall i :: 0 <= i < |b| ==> s[i] == b[i];
    assert a == s[..|a|] == s[..|b|] == b;
    assert x == s[|a| + 1..] == s[|b| + 1..] == y;
  }

  /** No agent id with a dash behind it begins another one with a dash behind it. */
  predicate Apart(nodes: seq<AgentId>) {
    forall a, b :: a in nodes && b in nodes && a + "-" <= b + "-" ==> a == b
  }

  /** Then an agent id that stands before a dash can be read back, dashes in it or not. */
  lemma ApartSegment(nodes: seq<AgentId>, a: AgentId, b: AgentId, x: string, y: string)
    requires Apart(nodes) && a in nodes && b in nodes && a + ("-" + x) == b + ("-" + y)
    ensures a == b && x == y
  {
    var s := a + ("-" + x);
    assert a + "-" == s[..|a| + 1] && b + "-" == s[..|b| + 1];
    assert a + "-" <= b + "-" || b + "-" <= a + "-";
    assert x == s[|a| + 1..] && y == s[|b| + 1..];
  }

  lemma SamePrefix(p: string, x: string, y: string)
    requires p + x == p + y
    ensures x == y
  {
    assert x == (p + x)[|p|..] == (p + y)[|p|..] == y;
  }

  lemma {:induction false} PassTextDashFree(n: nat)
    ensures DashFree(PassText(n)) && |PassText(n)| >= 1
  {
    if n >= 10 {
      PassTextDashFree(n / 10);
    }
  }

  lemma {:induction false} PassTextInjective(m: nat, n: nat)
    requires PassText(m) == PassText(n)
    ensures m == n
  {
    var s, t := PassText(m), PassText(n);
    if m >= 10 {
      PassTextDashFree(m / 10);
    }
    if n >= 10 {
      PassTextDashFree(n / 10);
    }
    if m >= 10 && n >= 10 {
      assert s[..|s| - 1] == PassText(m / 10) && t[..|t| - 1] == PassText(n / 10);
      PassTextInjective(m / 10, n / 10);
    }
    assert s[|s| - 1] == t[|t| - 1];
  }

  /** Every agent named in the id is one of the nodes. */
  predicate NamedBy(id: MessageId, nodes: seq<AgentId>) {
    match id
    case Heartbeat(a) => a in nodes
    case Relayed(s, _, previous) => s in nodes && NamedBy(previous, nodes)
  }

  function AfterSender(round: string, id: MessageId): string {
    match id
    case Heartbeat(_) => "heartbeat"
    case Relayed(_, pass, previous) => "relay-" + (PassText(pass) + ("-" + MessageText(round, previous)))
  }

  function SenderOf(id: MessageId): AgentId {
    match id
    case Heartbeat(a) => a
    case Relayed(s, _, _) => s
  }

  lemma MessageTextShape(round: string, id: MessageId)
    ensures MessageText(round, id) == (round + "-") + (SenderOf(id) + ("-" + AfterSender(round, id)))
  {
    match id {
      case Heartbeat(a) =>
        assert "-heartbeat" == "-" + "heartbeat";
      case Relayed(s, pass, previous) =>
        assert "-relay-" == "-" + "relay-";
    }
  }

  /** The text of a message id over such nodes names one id. */
  lemma {:induction false} MessageTextInjective(round: string, nodes: seq<AgentId>, id: MessageId, other: MessageId)
    requires Apart(nodes) && NamedBy(id, nodes) && NamedBy(other, nodes)
    requires MessageText(round, id) == MessageText(round, other)
    ensures id == other
    decreases id
  {
    MessageTextShape(round, id);
    MessageTextShape(round, other);
    SamePrefix(round + "-", SenderOf(id) + ("-" + AfterSender(round, id)),
               SenderOf(other) + ("-" + AfterSender(round, other)));
    ApartSegment(nodes, SenderOf(id), SenderOf(other), AfterSender(round, id), AfterSender(round, other));
    assert AfterSender(round, id)[0] == if id.Heartbeat? then 'h' else 'r';
    assert AfterSender(round, other)[0] == if other.Heartbeat? then 'h' else 'r';
    if id.Relayed? && other.Relayed? {
      RelayTextInjective(round, id, other);
      MessageTextInjective(round, nodes, id.previous, other.previous);
    }
  }

  lemma RelayTextInjective(round: string, id: MessageId, other: MessageId)
    requires id.Relayed? && other.Relayed? && AfterSender(round, id) == AfterSender(round, other)
    ensures id.pass == other.pass && MessageText(round, id.previous) == MessageText(round, other.previous)
  {
    var x, y := MessageText(round, id.previous), MessageText(round, other.previous);
    SamePrefix("relay-", PassText(id.pass) + ("-" + x), PassText(other.pass) + ("-" + y));
    PassTextDashFree(id.pass);
    PassTextDashFree(other.pass);
    FirstSegment(PassText(id.pass), PassText(other.pass), x, y);
    PassTextInjective(id.pass, other.pass);
  }

  /** Every agent named in the id has at most `width` characters, and every pass is one digit. */
  predicate WithinWidth(id: MessageId, width: nat) {
    match id
    case Heartbeat(a) => |a| <= width
    case Relayed(s, pass, previous) => |s| <= width && pass < 10 && WithinWidth(previous, width)
  }

  lemma {:induction false} MessageTextLength(round: string, id: MessageId, width: nat)
    requires WithinWidth(id, width)
    ensures |MessageText(round, id)| <= Times(1 + Hops(id), |round| + width + 11)
    decreases id
  {
    if id.Relayed? {
      MessageTextLength(round, id.previous, width);
      assert |PassText(id.pass)| == 1;
    }
  }

  /** So many times so much. */
  function Times(times: nat, much: nat): nat {
    if times == 0 then 0 else Times(times - 1, much) + much
  }

  lemma {:induction false} TimesGrows(m: nat, n: nat, much: nat)
    requires m <= n
    ensures Times(m, much) <= Times(n, much)
    decreases n
  {
    if m < n {
      TimesGrows(m, n - 1, much);
    }
  }

  /** How many ids are strung together at most. */
  function MostTexts(sc: Scenario): nat
    requires sc.maxHopTtl >= 0
  {
    1 + Min(Passes(sc), sc.maxHopTtl)
  }

  /**
   Round and agent ids are their own file parts, no agent id begins another up to a dash, there are at
   most nine passes, and message ids stay under the cut: each hop adds the round id, an agent id and
   eleven characters more.
   */
  predicate NamesFit(sc: Scenario, width: nat) {
    && IsFilePart(sc.round) && (forall a :: a in sc.nodes ==> IsFilePart(a) && |a| <= width)
    && Apart(sc.nodes)
    && Passes(sc) < 10 && sc.maxHopTtl >= 0
    && Times(MostTexts(sc), |sc.round| + width + 11) <= 120
  }

  lemma FittingIsPrivate(sc: Scenario, width: nat)
    requires NamesFit(sc, width)
    ensures Private(SafePart, sc) && forall a :: a in sc.nodes ==> SafePart(a) == a
  {
    forall a | a in sc.nodes ensures SafePart(a) == a {
      FilePartIff(a);
    }
  }

  predicate IdFits(sc: Scenario, width: nat, id: MessageId) {
    NamedBy(id, sc.nodes) && WithinWidth(id, width)
  }

  predicate AgentFits(sc: Scenario, width: nat, a: AgentId) {
    a in sc.nodes && |a| <= width
  }

  lemma SenderFits(sc: Scenario, width: nat, v: AgentId, pass: nat, e: Letter)
    requires Coherent(sc) && NamesFit(sc, width) && pass <= Passes(sc) && e in Delivered(sc, v, pass)
    ensures AgentFits(sc, width, SenderOf(e.messageId)) && (e.messageId.Relayed? ==> e.messageId.pass < 10)
  {
    DeliveredHistory(sc, v, pass, e);
    match e.messageId {
      case Heartbeat(a) =>
        assert a in sc.nodes;
      case Relayed(s, q, previous) =>
        assert Link(s, v).source in sc.nodes;
    }
  }

  lemma HeldBefore(sc: Scenario, v: AgentId, pass: nat, e: Letter) returns (x: Letter)
    requires Coherent(sc) && e in Delivered(sc, v, pass) && e.messageId.Relayed?
    ensures 1 <= e.messageId.pass <= pass && x.messageId == e.messageId.previous
    ensures x in Delivered(sc, e.messageId.sender, e.messageId.pass - 1)
  {
    DeliveredHistory(sc, v, pass, e);
    x := RelaySource(sc, e.messageId.sender, e.messageId.pass, e.messageId.previous, e);
  }

  /** The ids of delivered letters are made of the scenario's agents and passes. */
  lemma {:induction false} DeliveredIdsFit(sc: Scenario, width: nat, v: AgentId, pass: nat, e: Letter)
    requires Coherent(sc) && NamesFit(sc, width) && pass <= Passes(sc) && e in Delivered(sc, v, pass)
    ensures IdFits(sc, width, e.messageId)
    decreases e.messageId
  {
    SenderFits(sc, width, v, pass, e);
    if e.messageId.Relayed? {
      var x := HeldBefore(sc, v, pass, e);
      DeliveredIdsFit(sc, width, e.messageId.sender, e.messageId.pass - 1, x);
    }
  }

  lemma HopsAreFew(sc: Scenario, v: AgentId, pass: nat, e: Letter)
    requires Coherent(sc) && e in Delivered(sc, v, pass)
    ensures Hops(e.messageId) <= Min(pass, sc.maxHopTtl)
  {
    Provenance(sc, v, pass, e);
  }

  /** The message id is its own file part. */
  predicate FittingText(round: string, nodes: seq<AgentId>, id: MessageId) {
    NamedBy(id, nodes) && |MessageText(round, id)| <= 120 && SafePart(MessageText(round, id)) == MessageText(round, id)
  }

  lemma TextIsShort(round: string, id: MessageId, width: nat, most: nat)
    requires WithinWidth(id, width) && 1 + Hops(id) <= most && Times(most, |round| + width + 11) <= 120
    ensures |MessageText(round, id)| <= 120
  {
    MessageTextLength(round, id, width);
    TimesGrows(1 + Hops(id), most, |round| + width + 11);
  }

  lemma DeliveredTextIsShort(sc: Scenario, width: nat, v: AgentId, e: Letter)
    requires Coherent(sc) && NamesFit(sc, width) && e in Delivered(sc, v, Passes(sc))
    ensures |MessageText(sc.round, e.messageId)| <= 120
  {
    DeliveredIdsFit(sc, width, v, Passes(sc), e);
    HopsAreFew(sc, v, Passes(sc), e);
    TextIsShort(sc.round, e.messageId, width, MostTexts(sc));
  }

  lemma {:induction false} PassTextSafe(n: nat)
    ensures AllSafe(PassText(n))
  {
    if n >= 10 {
      PassTextSafe(n / 10);
    }
  }

  lemma JoinedSafe(a: string, b: string)
    requires AllSafe(a) && AllSafe(b)
    ensures AllSafe(a + b)
  {
  }

  /** A message id is safe if its round and its agents are, and it ends in a letter. */
  lemma {:induction false} MessageTextSafe(round: string, nodes: seq<AgentId>, id: MessageId)
    requires AllSafe(round) && round != "" && !Edge(round[0])
    requires NamedBy(id, nodes) && forall a :: a in nodes ==> AllSafe(a)
    ensures AllSafe(MessageText(round, id)) && NoEdges(MessageText(round, id))
    ensures MessageText(round, id)[0] == round[0] && |MessageText(round, id)| > |round|
    decreases id
  {
    match id {
      case Heartbeat(a) =>
        var text := MessageText(round, id);
        assert text[|text| - 1] == "-heartbeat"[9];
      case Relayed(s, pass, previous) =>
        MessageTextSafe(round, nodes, previous);
        PassTextSafe(pass);
        var tail := MessageText(round, previous);
        JoinedSafe(round + "-" + s + "-relay-" + PassText(pass) + "-", tail);
        var text := MessageText(round, id);
        assert text[|text| - 1] == tail[|tail| - 1];
    }
  }

  lemma DeliveredTextFits(sc: Scenario, width: nat, v: AgentId, e: Letter)
    requires Coherent(sc) && NamesFit(sc, width) && e in Delivered(sc, v, Passes(sc))
    ensures FittingText(sc.round, sc.nodes, e.messageId)
  {
    DeliveredIdsFit(sc, width, v, Passes(sc), e);
    DeliveredTextIsShort(sc, width, v, e);
    MessageTextSafe(sc.round, sc.nodes, e.messageId);
    SafeTextIsCut(MessageText(sc.round, e.messageId));
  }

  lemma JoinTail(parts: seq<string>)
    requires |parts| >= 2
    ensures Join(parts) == parts[0] + ("-" + Join(parts[1..]))
  {
  }

  lemma JoinFive(a: string, b: string, c: string, d: string, e: string)
    ensures Join([a, b, c, d, e]) == a + "-" + b + "-" + c + "-" + d + "-" + e
  {
    JoinTail([a, b, c, d, e]);
    JoinTail([b, c, d, e]);
    JoinTail([c, d, e]);
    JoinTail([d, e]);
    assert [a, b, c, d, e][1..] == [b, c, d, e] && [b, c, d, e][1..] == [c, d, e];
    assert [c, d, e][1..] == [d, e] && [d, e][1..] == [e];
    assert a + ("-" + (b + ("-" + (c + ("-" + (d + ("-" + e))))))) == a + "-" + b + "-" + c + "-" + d + "-" + e;
  }

  lemma JoinThree(a: string, b: string, c: string)
    ensures Join([a, b, c]) == a + "-" + b + "-" + c
  {
    JoinTail([a, b, c]);
    JoinTail([b, c]);
    assert [a, b, c][1..] == [b, c] && [b, c][1..] == [c];
    assert a + ("-" + (b + ("-" + c))) == a + "-" + b + "-" + c;
  }

  /** The names of the three kinds of file, where ids and message ids are their own file parts. */
  lemma FileNamesAre(round: string, s: AgentId, t: AgentId, pass: nat, id: MessageId)
    requires IsFilePart(s) && IsFilePart(t) && IsFilePart(MessageText(round, id)) && pass < 10
    ensures var m := MessageText(round, id);
      && FileName(round, SelfFile(s, id)) == "self" + "-" + s + "-" + m + ".json"
      && FileName(round, DirectFile(s, t, id)) == "direct" + "-" + s + "-" + "to" + "-" + t + "-" + m + ".json"
      && FileName(round, RelayFile(pass, s, t, id))
         == ("relay-pass-" + ['0' + pass as char]) + "-" + s + "-" + "to" + "-" + t + "-" + m + ".json"
  {
    var m := MessageText(round, id);
    FilePartIff(s);
    FilePartIff(t);
    FilePartIff(m);
    JoinThree("self", s, m);
    JoinFive("direct", s, "to", t, m);
    JoinFive("relay-pass-" + ['0' + pass as char], s, "to", t, m);
  }

  /** A message id as text: the round, then who sent it, and how often it was relayed before. */
  lemma MessageTextsAre(round: string, a: AgentId, s: AgentId, pass: nat)
    requires pass < 10
    ensures MessageText(round, Heartbeat(a)) == round + "-" + a + "-heartbeat"
    ensures MessageText(round, Relayed(s, pass, Heartbeat(a)))
         == round + "-" + s + "-relay-" + ['0' + pass as char] + "-" + (round + "-" + a + "-heartbeat")
  {
  }

  lemma SameSuffix(x: string, y: string, tail: string)
    requires x + tail == y + tail
    ensures x == y
  {
    assert |x| == |y|;
    assert x == (x + tail)[..|x|] == (y + tail)[..|y|] == y;
  }

  /** Two direct or relay files for one inbox share their last parts up to the message. */
  lemma LastPartTellsApart(t: string, m: string, n: string)
    requires Join(["to", t, m]) == Join(["to", t, n])
    ensures m == n
  {
    JoinTail(["to", t, m]);
    JoinTail(["to", t, n]);
    assert ["to", t, m][1..] == [t, m] && [t, m][1..] == [m];
    assert ["to", t, n][1..] == [t, n] && [t, n][1..] == [n];
    SamePrefix("to", "-" + (t + ("-" + m)), "-" + (t + ("-" + n)));
    SamePrefix("-", t + ("-" + m), t + ("-" + n));
    SamePrefix(t, "-" + m, "-" + n);
    SamePrefix("-", m, n);
  }

  /** Nodes that stand apart and are their own file parts. */
  predicate PlainNodes(nodes: seq<AgentId>) {
    Apart(nodes) && forall a :: a in nodes ==> SafePart(a) == a
  }

  lemma RelayNamesTellApart(round: string, nodes: seq<AgentId>, v: AgentId, id: MessageId, other: MessageId)
    requires PlainNodes(nodes) && v in nodes
    requires id.Relayed? && other.Relayed? && FittingText(round, nodes, id) && FittingText(round, nodes, other)
    requires FileName(round, KeyOf(v, id)) == FileName(round, KeyOf(v, other))
    ensures id == other
  {
    var ps, qs := Parts(round, KeyOf(v, id)), Parts(round, KeyOf(v, other));
    SameSuffix(Join(ps), Join(qs), ".json");
    JoinTail(ps);
    JoinTail(qs);
    RelayPassTellsApart(id.pass, other.pass, Join(ps[1..]), Join(qs[1..]));
    JoinTail(ps[1..]);
    JoinTail(qs[1..]);
    ApartSegment(nodes, id.sender, other.sender, Join(ps[1..][1..]), Join(qs[1..][1..]));
    assert ps[1..][1..] == ["to", v, MessageText(round, id)];
    assert qs[1..][1..] == ["to", v, MessageText(round, other)];
    LastPartTellsApart(v, MessageText(round, id), MessageText(round, other));
    MessageTextInjective(round, nodes, id, other);
  }

  lemma RelayPassTellsApart(m: nat, n: nat, x: string, y: string)
    requires "relay-pass-" + PassText(m) + ("-" + x) == "relay-pass-" + PassText(n) + ("-" + y)
    ensures m == n && x == y
  {
    assert "relay-pass-" + PassText(m) + ("-" + x) == "relay-pass-" + (PassText(m) + ("-" + x));
    assert "relay-pass-" + PassText(n) + ("-" + y) == "relay-pass-" + (PassText(n) + ("-" + y));
    SamePrefix("relay-pass-", PassText(m) + ("-" + x), PassText(n) + ("-" + y));
    PassTextDashFree(m);
    PassTextDashFree(n);
    FirstSegment(PassText(m), PassText(n), x, y);
    PassTextInjective(m, n);
  }

  lemma DirectNamesTellApart(round: string, nodes: seq<AgentId>, v: AgentId, a: AgentId, b: AgentId)
    requires PlainNodes(nodes) && a in nodes && b in nodes && a != v && b != v
    requires FileName(round, KeyOf(v, Heartbeat(a))) == FileName(round, KeyOf(v, Heartbeat(b)))
    ensures a == b
  {
    var ps, qs := Parts(round, KeyOf(v, Heartbeat(a))), Parts(round, KeyOf(v, Heartbeat(b)));
    SameSuffix(Join(ps), Join(qs), ".json");
    JoinTail(ps);
    JoinTail(qs);
    SamePrefix("direct", "-" + Join(ps[1..]), "-" + Join(qs[1..]));
    SamePrefix("-", Join(ps[1..]), Join(qs[1..]));
    JoinTail(ps[1..]);
    JoinTail(qs[1..]);
    ApartSegment(nodes, a, b, Join(ps[1..][1..]), Join(qs[1..][1..]));
  }

  lemma NamesTellApart(round: string, nodes: seq<AgentId>, v: AgentId, id: MessageId, other: MessageId)
    requires PlainNodes(nodes) && v in nodes && FittingText(round, nodes, id) && FittingText(round, nodes, other)
    requires FileName(round, KeyOf(v, id)) == FileName(round, KeyOf(v, other))
    ensures id == other
  {
    NameStarts(round, KeyOf(v, id));
    NameStarts(round, KeyOf(v, other));
    if id.Relayed? && other.Relayed? {
      RelayNamesTellApart(round, nodes, v, id, other);
    } else if id.Heartbeat? && other.Heartbeat? && id.agent != v && other.agent != v {
      DirectNamesTellApart(round, nodes, v, id.agent, other.agent);
    }
  }

  /** A scenario whose names fit loses no letter: every file gets a name of its own. */
  lemma FittingNamesAreDistinct(sc: Scenario, width: nat)
    requires Coherent(sc) && NamesFit(sc, width)
    ensures DistinctFiles(Names(sc.round), sc)
  {
    FittingIsPrivate(sc, width);
    forall v, e, f | e in Delivered(sc, v, Passes(sc)) && f in Delivered(sc, v, Passes(sc)) && e != f
      ensures Names(sc.round)(KeyOf(v, e.messageId)) != Names(sc.round)(KeyOf(v, f.messageId))
    {
      LettersNameApart(sc, width, v, e, f);
    }
  }

  lemma LettersNameApart(sc: Scenario, width: nat, v: AgentId, e: Letter, f: Letter)
    requires Coherent(sc) && NamesFit(sc, width) && PlainNodes(sc.nodes) && e != f
    requires e in Delivered(sc, v, Passes(sc)) && f in Delivered(sc, v, Passes(sc))
    ensures FileName(sc.round, KeyOf(v, e.messageId)) != FileName(sc.round, KeyOf(v, f.messageId))
  {
    DeliveredTextFits(sc, width, v, e);
    DeliveredTextFits(sc, width, v, f);
    DeliveredHistory(sc, v, Passes(sc), e);
    if FileName(sc.round, KeyOf(v, e.messageId)) == FileName(sc.round, KeyOf(v, f.messageId)) {
      NamesTellApart(sc.round, sc.nodes, v, e.messageId, f.messageId);
      IdDeterminesLetter(sc, v, Passes(sc), e, v, Passes(sc), f);
    }
  }

  // ---------------------------------------------------------------- the round

  /** The round and every node get a directory name at all. */
  predicate PartsNamed(sc: Scenario) {
    SafePart(sc.round) != "" && forall v :: v in sc.nodes ==> SafePart(v) != ""
  }

  /** The directory names are made one after another, that of the round first. */
  method NameParts(sc: Scenario) returns (ok: bool)
    ensures ok <==> PartsNamed(sc)
  {
    if SafePart(sc.round) == "" {
      return false;
    }
    for i := 0 to |sc.nodes|
      invariant forall j :: 0 <= j < i ==> SafePart(sc.nodes[j]) != ""
    {
      if SafePart(sc.nodes[i]) == "" {
        assert sc.nodes[i] in sc.nodes;
        return false;
      }
    }
    return true;
  }

  /** What must hold of a scenario for its round to be reported. */
  predicate Reportable(sc: Scenario) {
    ValidScenario(sc) && PartsNamed(sc) && DocumentsMatch(sc) && TimesReadable(sc)
  }

  /** Who knows whom, exactly. */
  ghost predicate KnowsExactly(sc: Scenario, v: AgentId, known: Table) {
    forall a :: a in known <==> Reaches(sc, a, v, Passes(sc))
  }

  /**
   The round with the program's own directories and file names. Where nodes have directories of their
   own, or at least own files do not collide in a shared one, it is reported exactly when the scenario
   is valid, its ids leave something to name, its documents match and their times parse; where the
   names fit, every node then knows exactly the agents that reach it.
   */
  method SimulateNamedRound(sc: Scenario, now: int)
    returns (r: Result<map<AgentId, Table>, RoundError>, inboxes: Inboxes)
    ensures r.Err? ==> r.error == if !ValidScenario(sc) then InvalidScenario
                                  else if !PartsNamed(sc) then EmptyFilePart
                                  else if !DocumentsMatch(sc) then HeartbeatRefused else UnreadableTime
    ensures ValidScenario(sc) && PartsNamed(sc) && DocumentsMatch(sc) ==>
      PassDone(Names(sc.round), SafePart, sc, Passes(sc), inboxes) && (r.Ok? <==> LettersReadable(inboxes))
    ensures Reportable(sc) ==> r.Ok?
    ensures r.Ok? ==> ValidScenario(sc) && PartsNamed(sc) && DocumentsMatch(sc)
    ensures Private(SafePart, sc) || OwnFilesApart(Names(sc.round), SafePart, sc) ==> (r.Ok? <==> Reportable(sc))
    ensures r.Ok? ==> r.value.Keys == (set v | v in sc.nodes)
    ensures r.Ok? ==> forall v :: v in r.value ==>
      SummaryOfNode(Names(sc.round), SafePart, sc, Passes(sc), inboxes, v, r.value[v])
    ensures r.Ok? && (exists width :: NamesFit(sc, width)) ==>
      forall v :: v in r.value ==> KnowsExactly(sc, v, r.value[v])
  {
    inboxes := map[];
    var valid := ValidateScenario(sc);
    if !valid {
      return Err(InvalidScenario), inboxes;
    }
    var named := NameParts(sc);
    if !named {
      return Err(EmptyFilePart), inboxes;
    }
    if Private(SafePart, sc) {
      PrivateKeepsOwn(sc);
    }
    r, inboxes := SimulateRound(Names(sc.round), SafePart, sc, now);
    if r.Ok? {
      if width :| NamesFit(sc, width) {
        FittingKnowsExactly(sc, width, inboxes, r.value);
      }
    }
  }

  lemma FittingKnowsExactly(sc: Scenario, width: nat, inboxes: Inboxes, tables: map<AgentId, Table>)
    requires Coherent(sc) && NamesFit(sc, width)
    requires forall v :: v in tables ==>
      SummaryOfNode(Names(sc.round), SafePart, sc, Passes(sc), inboxes, v, tables[v])
    ensures forall v :: v in tables ==> KnowsExactly(sc, v, tables[v])
  {
    FittingIsPrivate(sc, width);
    FittingNamesAreDistinct(sc, width);
    forall v | v in tables ensures KnowsExactly(sc, v, tables[v]) {
      assert KnowsWhoReaches(Names(sc.round), sc, v, Passes(sc), tables[v]);
    }
  }

  // ---------------------------------------------------------------- scenarios

  const ALPHA := "quest-agent-alpha"
  const BETA := "quest-agent-beta"
  const GAMMA := "quest-agent-gamma"
  const ROUND := "peer-round-synthetic-001"

  /** Three agents in a line, as in the example that comes with the program. */
  function LineScenario(status: Status): Scenario {
    Scenario("synthetic-lab-fleet", ROUND, [ALPHA, BETA, GAMMA],
             [Beat(ALPHA, true, "synthetic-lab-fleet", ALPHA, Some(0), 1, status),
              Beat(BETA, true, "synthetic-lab-fleet", BETA, Some(0), 1, status),
              Beat(GAMMA, true, "synthetic-lab-fleet", GAMMA, Some(0), 1, status)],
             [Link(ALPHA, BETA), Link(BETA, GAMMA)], 2, 1, 30)
  }

  lemma AlphaFits()
    ensures IsFilePart(ALPHA) && |ALPHA| == 17 && ALPHA[12] == 'a'
  {
  }

  lemma BetaFits()
    ensures IsFilePart(BETA) && |BETA| == 16 && BETA[12] == 'b'
  {
  }

  lemma GammaFits()
    ensures IsFilePart(GAMMA) && |GAMMA| == 17 && GAMMA[12] == 'g'
  {
  }

  lemma RoundFits()
    ensures IsFilePart(ROUND) && |ROUND| == 24
  {
  }

  lemma NoPrefix(a: string, b: string, i: nat)
    requires i < |a| && i < |b| && a[i] != b[i]
    ensures !(a + "-" <= b + "-") && !(b + "-" <= a + "-")
  {
    assert (a + "-")[i] == a[i] && (b + "-")[i] == b[i];
  }

  lemma ThreeApart(a: AgentId, b: AgentId, c: AgentId, i: nat)
    requires i < |a| && i < |b| && i < |c| && a[i] != b[i] && a[i] != c[i] && b[i] != c[i]
    ensures Apart([a, b, c])
  {
    NoPrefix(a, b, i);
    NoPrefix(a, c, i);
    NoPrefix(b, c, i);
  }

  /** A scenario over three nodes with at most one relay. */
  lemma ThreeFit(sc: Scenario, a: AgentId, b: AgentId, c: AgentId)
    requires sc.nodes == [a, b, c] && Apart(sc.nodes) && IsFilePart(sc.round) && |sc.round| <= 24
    requires IsFilePart(a) && IsFilePart(b) && IsFilePart(c) && |a| <= 17 && |b| <= 17 && |c| <= 17
    requires Passes(sc) == 1 && sc.maxHopTtl >= 1
    ensures NamesFit(sc, 17)
  {
    assert Times(1, |sc.round| + 28) == |sc.round| + 28;
    assert Times(2, |sc.round| + 28) == 2 * |sc.round| + 56;
  }

  lemma LineScenarioFits(status: Status)
    ensures NamesFit(LineScenario(status), 17)
  {
    AlphaFits();
    BetaFits();
    GammaFits();
    RoundFits();
    ThreeApart(ALPHA, BETA, GAMMA, 12);
    ThreeFit(LineScenario(status), ALPHA, BETA, GAMMA);
  }

  /** A valid scenario with one heartbeat whose time does not parse: nothing refuses it before the summaries. */
  lemma GarbledHeartbeatIsValid(status: Status)
    ensures var sc := Scenario("fleet", "r", ["a"], [Beat("a", true, "fleet", "a", None, 1, status)], [], 0, 0, 30);
      ValidScenario(sc) && PartsNamed(sc) && DocumentsMatch(sc) && !TimesReadable(sc)
  {
    var b := Beat("a", true, "fleet", "a", None, 1, status);
    var sc := Scenario("fleet", "r", ["a"], [b], [], 0, 0, 30);
    assert sc.nodes[0] == "a" && sc.beats[0] == b;
    FilePartIff("r");
    FilePartIff("a");
  }

  /** Two nodes without links, one of them with a heartbeat; both get the directory `x`. */
  function SharedScenario(status: Status): Scenario {
    Scenario("fleet", "r", ["x", ".x"], [Beat(".x", true, "fleet", ".x", Some(0), 1, status)], [], 0, 0, 30)
  }

  lemma DottedPart()
    ensures SafePart("x") == "x" && SafePart(".x") == "x" && SafePart("r") == "r"
  {
    FilePartIff("x");
    FilePartIff("r");
    SafeIsNotReplaced(".x", false);
    assert ".x"[1..] == "x";
  }

  lemma OwnFileText(round: string, a: AgentId)
    ensures OwnFile(Names(round), a)
         == "self" + ("-" + (SafePart(a) + ("-" + SafePart(MessageText(round, Heartbeat(a)))))) + ".json"
  {
    var p := Parts(round, SelfFile(a, Heartbeat(a)));
    JoinTail(p);
    JoinTail(p[1..]);
  }

  lemma OwnFilesDiffer(round: string, a: AgentId, b: AgentId)
    requires SafePart(a) == SafePart(b)
    requires |SafePart(MessageText(round, Heartbeat(a)))| != |SafePart(MessageText(round, Heartbeat(b)))|
    ensures OwnFile(Names(round), a) != OwnFile(Names(round), b)
  {
    OwnFileText(round, a);
    OwnFileText(round, b);
  }

  lemma OwnTextLength(round: string, a: AgentId)
    requires AllSafe(round) && round != "" && !Edge(round[0]) && AllSafe(a) && |round| + |a| <= 109
    ensures |SafePart(MessageText(round, Heartbeat(a)))| == |round| + |a| + 11
  {
    MessageTextSafe(round, [a], Heartbeat(a));
    SafeTextIsCut(MessageText(round, Heartbeat(a)));
  }

  lemma TwoOwnFilesApart(sc: Scenario, a: AgentId, b: AgentId)
    requires sc.nodes == [a, b] && OwnFile(Names(sc.round), a) != OwnFile(Names(sc.round), b)
    ensures OwnFilesApart(Names(sc.round), SafePart, sc)
  {
    OwnFileIsSafe(sc.round);
    assert forall v :: v in sc.nodes <==> v == a || v == b;
  }

  lemma SharedScenarioShares(status: Status)
    ensures OwnFilesApart(Names("r"), SafePart, SharedScenario(status))
  {
    DottedPart();
    OwnTextLength("r", "x");
    OwnTextLength("r", ".x");
    OwnFilesDiffer("r", "x", ".x");
    TwoOwnFilesApart(SharedScenario(status), "x", ".x");
  }

  lemma SharedScenarioReportable(status: Status)
    ensures Reportable(SharedScenario(status))
  {
    var sc := SharedScenario(status);
    assert sc.nodes[0] == "x" && sc.nodes[1] == ".x";
    DottedPart();
  }

  /** Its round is reported, and one node knows the other, which does not reach it. */
  method SharedDirectoryLeaks(status: Status, now: int) returns (r: Result<map<AgentId, Table>, RoundError>)
    ensures r.Ok? && "x" in r.value && ".x" in r.value["x"]
    ensures !Reaches(SharedScenario(status), ".x", "x", 0)
  {
    var sc := SharedScenario(status);
    SharedScenarioReportable(status);
    var inboxes;
    r, inboxes := SimulateNamedRound(sc, now);
    assert sc.nodes[0] == "x";
    SharedInboxLeaks(status, inboxes, r.value["x"]);
    LonelyNode(status);
  }

  lemma SharedInboxLeaks(status: Status, inboxes: Inboxes, known: Table)
    requires Sound(Names("r"), SafePart, SharedScenario(status), 1, inboxes)
    requires SummaryOfNode(Names("r"), SafePart, SharedScenario(status), 0, inboxes, "x", known)
    ensures ".x" in known
  {
    var sc := SharedScenario(status);
    SharedScenarioShares(status);
    DottedPart();
    var b := sc.beats[0];
    assert OwnKept(Names("r"), SafePart, sc, inboxes, b);
    OwnLetterTeaches(sc, inboxes["x"], OwnFile(Names("r"), ".x"), b, known);
  }

  lemma LonelyNode(status: Status)
    ensures !Reaches(SharedScenario(status), ".x", "x", 0)
  {
    var sc := SharedScenario(status);
    forall n: nat | n >= 1 ensures !Walk(sc.links, ".x", "x", n) {
    }
  }

  lemma OwnLetterTeaches(sc: Scenario, inbox: Inbox, file: string, b: Beat, known: Table)
    requires GenuineInbox(sc, inbox) && Summarizes(sc.fleet, inbox, known)
    requires file in inbox && inbox[file] == BaseLetter(sc, b)
    ensures b.agent in known
  {
    var order :| ListsInbox(order, inbox) && known == MergeRun(sc.fleet, order);
    forall e | e in order ensures Genuine(sc, e) {
      assert e in inbox.Values;
    }
    MergeRunKnows(sc.fleet, order);
    assert inbox[file] in inbox.Values && inbox[file] in order;
  }

  // ---------------------------------------------------------------- names that do not

  /** The beginning of every message id of a long round is all that is left of it. */
  lemma LongRoundIdCutsMessage(round: string, nodes: seq<AgentId>, id: MessageId)
    requires |round| >= 120 && AllSafe(round) && !Edge(round[0])
    requires NamedBy(id, nodes) && forall a :: a in nodes ==> AllSafe(a)
    ensures SafePart(MessageText(round, id)) == round[..120]
  {
    MessageTextSafe(round, nodes, id);
    SafeTextIsCut(MessageText(round, id));
    match id {
      case Heartbeat(a) =>
        assert (round + "-" + a + "-heartbeat")[..120] == round[..120];
      case Relayed(s, pass, previous) =>
        assert (round + "-" + s + "-relay-" + PassText(pass) + "-" + MessageText(round, previous))[..120]
          == round[..120];
    }
  }

  /** Two nodes send to a hub and the hub to a fourth node: one relay pass, two hops allowed. */
  function StarScenario(round: string, status: Status): Scenario {
    Scenario("fleet", round, ["a", "b", "hub", "sink"],
             [Beat("a", true, "fleet", "a", Some(0), 1, status), Beat("b", true, "fleet", "b", Some(0), 1, status)],
             [Link("a", "hub"), Link("b", "hub"), Link("hub", "sink")], 2, 1, 30)
  }

  /** All of the star the proofs below look at. */
  ghost predicate Star(sc: Scenario) {
    && Coherent(sc) && sc.maxHopTtl == 2 && Passes(sc) == 1
    && HasBeat(sc, "a") && HasBeat(sc, "b") && !HasBeat(sc, "hub") && !HasBeat(sc, "sink")
    && Link("a", "hub") in sc.links && Link("b", "hub") in sc.links && Link("hub", "sink") in sc.links
    && (forall l :: l in sc.links && l.target == "sink" ==> l.source == "hub")
    && forall a :: a in sc.nodes ==> AllSafe(a)
  }

  lemma StarScenarioIsValid(round: string, status: Status)
    requires round != ""
    ensures ValidScenario(StarScenario(round, status)) && DocumentsMatch(StarScenario(round, status))
    ensures TimesReadable(StarScenario(round, status))
  {
    var sc := StarScenario(round, status);
    assert sc.nodes[0] == "a" && sc.nodes[1] == "b" && sc.nodes[2] == "hub" && sc.nodes[3] == "sink";
  }

  /** The scenario above is one. */
  lemma StarScenarioIsStar(round: string, status: Status)
    requires round != ""
    ensures ValidScenario(StarScenario(round, status)) && DocumentsMatch(StarScenario(round, status))
    ensures Star(StarScenario(round, status))
  {
    StarScenarioIsValid(round, status);
    var sc := StarScenario(round, status);
    assert sc.beats[0].agent == "a" && sc.beats[1].agent == "b";
    assert sc.links[0] == Link("a", "hub") && sc.links[1] == Link("b", "hub") && sc.links[2] == Link("hub", "sink");
  }

  lemma StarReaches(sc: Scenario, a: AgentId)
    requires Star(sc) && a in {"a", "b"}
    ensures Reaches(sc, a, "sink", 1)
  {
    assert Walk(sc.links, a, a, 0);
    assert Link(a, "hub") in sc.links;
    assert Walk(sc.links, a, "hub", 1);
    assert Walk(sc.links, a, "sink", 2);
  }

  /** Everything at the sink of the star came through the hub in pass one. */
  lemma StarSinkLetter(sc: Scenario, e: Letter)
    requires Star(sc) && e in Delivered(sc, "sink", 1)
    ensures e.messageId.Relayed? && e.messageId.sender == "hub" && e.messageId.pass == 1
    ensures NamedBy(e.messageId, sc.nodes)
  {
    DeliveredHistory(sc, "sink", 1, e);
    match e.messageId {
      case Heartbeat(a) =>
      case Relayed(s, q, previous) =>
        assert Link(s, "sink").target == "sink";
        var x := RelaySource(sc, s, q, previous, e);
        DeliveredHistory(sc, "hub", 0, x);
        assert Link("hub", "sink") in sc.links;
    }
  }

  /** The file name of any letter relayed from `s` to `t` in that pass, once the message id is cut to the round id. */
  function CutFile(round: string, pass: nat, s: AgentId, t: AgentId): string
    requires |round| >= 120
  {
    Join(["relay-pass-" + PassText(pass), SafePart(s), "to", SafePart(t), round[..120]]) + ".json"
  }

  lemma RelayFileIsCut(round: string, nodes: seq<AgentId>, id: MessageId, t: AgentId)
    requires |round| >= 120 && AllSafe(round) && !Edge(round[0])
    requires id.Relayed? && NamedBy(id, nodes) && forall a :: a in nodes ==> AllSafe(a)
    ensures FileName(round, KeyOf(t, id)) == CutFile(round, id.pass, id.sender, t)
  {
    LongRoundIdCutsMessage(round, nodes, id);
  }

  lemma StarSinkFile(sc: Scenario, e: Letter, pass: nat, s: AgentId, t: AgentId)
    requires |sc.round| >= 120 && AllSafe(sc.round) && !Edge(sc.round[0]) && Star(sc)
    requires e in Delivered(sc, t, 1) && pass == 1 && s == "hub" && t == "sink"
    ensures FileName(sc.round, KeyOf(t, e.messageId)) == CutFile(sc.round, pass, s, t)
  {
    StarSinkLetter(sc, e);
    RelayFileIsCut(sc.round, sc.nodes, e.messageId, t);
  }

  lemma SinkShouldHear(sc: Scenario, a: AgentId) returns (e: Letter)
    requires Star(sc) && a in {"a", "b"}
    ensures e in Delivered(sc, "sink", 1) && Origin(e.messageId) == a
  {
    StarReaches(sc, a);
    DeliveredIffReaches(sc, a, "sink", 1);
    e :| e in Delivered(sc, "sink", 1) && Origin(e.messageId) == a;
  }

  /**
   With a round id of 120 safe characters or more, both letters the hub relays get one file name:
   the sink is within reach of both senders, and no inbox the round can leave there holds a
   letter of each.
   */
  lemma {:induction false} LongRoundIdLosesLetters(sc: Scenario, inbox: Inbox)
    requires |sc.round| >= 120 && AllSafe(sc.round) && !Edge(sc.round[0]) && Star(sc)
    requires Agrees(Names(sc.round), sc, "sink", inbox, Delivered(sc, "sink", 1))
    ensures Reaches(sc, "a", "sink", 1) && Reaches(sc, "b", "sink", 1)
    ensures !DistinctFiles(Names(sc.round), sc)
    ensures forall e, f :: e in inbox.Values && f in inbox.Values ==> Origin(e.messageId) == Origin(f.messageId)
  {
    var hub, sink := "hub", "sink";
    forall e | e in Delivered(sc, sink, 1)
      ensures Names(sc.round)(KeyOf(sink, e.messageId)) == CutFile(sc.round, 1, hub, sink)
    {
      StarSinkFile(sc, e, 1, hub, sink);
    }
    StarReaches(sc, "a");
    StarReaches(sc, "b");
    var e := SinkShouldHear(sc, "a");
    var f := SinkShouldHear(sc, "b");
    assert Names(sc.round)(KeyOf(sink, e.messageId)) == Names(sc.round)(KeyOf(sink, f.messageId));
  }
}
