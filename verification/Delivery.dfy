/**
 Sender-side delivery state: what became of every message the source wanted delivered.

 Times are kept as texts and read late: the expiry of a delivery only while it is pending, the
 time of its last attempt only when a retry is planned. Only what the transitions look at or change
 is kept of a delivery.
 */
module Delivery {
  import opened Wrappers

  datatype State = Pending | Accepted | Duplicate | Rejected | Expired

  datatype Delivery = Delivery(
    id: string,
    target: AgentId,
    message: string,
    state: State,
    attempts: nat,
    expiresAt: TimeText,
    lastAttemptAt: Option<TimeText>,
    lastReceipt: Option<State>,
    lastError: Option<string>)

  datatype Ledger = Ledger(fleet: string, source: AgentId, deliveries: seq<Delivery>)

  datatype DeliveryError =
    | DuplicateDeliveryId
    | FleetMismatch
    | SourceMismatch
    | UnreadableTime
    | NotFound
    | BadReceipt
    | BadRoutes
    | BadOutcomes

  predicate Terminal(s: State) {
    !s.Pending?
  }

  /** Delivery ids are unique; nothing is asked of the (target, message) pairs. */
  predicate ValidLedger(l: Ledger) {
    forall i, j :: 0 <= i < j < |l.deliveries| ==> l.deliveries[i].id != l.deliveries[j].id
  }

  /** The loop that meets every delivery id once. */
  method ValidateState(l: Ledger) returns (ok: bool)
    ensures ok <==> ValidLedger(l)
  {
    var seen: set<string> := {};
    for i := 0 to |l.deliveries|
      invariant forall id :: id in seen <==> exists j :: 0 <= j < i && l.deliveries[j].id == id
      invariant forall j, k :: 0 <= j < k < i ==> l.deliveries[j].id != l.deliveries[k].id
    {
      if l.deliveries[i].id in seen {
        return false;
      }
      seen := seen + {l.deliveries[i].id};
    }
    return true;
  }

  predicate Matches(d: Delivery, target: AgentId, message: string) {
    d.target == target && d.message == message
  }

  function FirstFrom(ds: seq<Delivery>, target: AgentId, message: string, k: nat): (i: nat)
    requires k <= |ds|
    ensures i <= |ds|
    decreases |ds| - k
  {
    if k == |ds| || Matches(ds[k], target, message) then k else FirstFrom(ds, target, message, k + 1)
  }

  /** The index of the first delivery for the pair, or the length of the list. */
  function FirstMatch(ds: seq<Delivery>, target: AgentId, message: string): (i: nat)
    ensures i <= |ds|
  {
    FirstFrom(ds, target, message, 0)
  }

  lemma {:induction false} FirstFromIsFirst(ds: seq<Delivery>, target: AgentId, message: string, k: nat)
    requires k <= |ds|
    ensures var i := FirstFrom(ds, target, message, k);
      && k <= i && (i < |ds| ==> Matches(ds[i], target, message))
      && forall j :: k <= j < i ==> !Matches(ds[j], target, message)
    decreases |ds| - k
  {
    if k < |ds| && !Matches(ds[k], target, message) {
      FirstFromIsFirst(ds, target, message, k + 1);
    }
  }

  lemma FirstMatchIsFirst(ds: seq<Delivery>, target: AgentId, message: string)
    ensures var i := FirstMatch(ds, target, message);
      && (i < |ds| ==> Matches(ds[i], target, message))
      && forall j :: 0 <= j < i ==> !Matches(ds[j], target, message)
  {
    FirstFromIsFirst(ds, target, message, 0);
  }

  method FindDelivery(l: Ledger, target: AgentId, message: string) returns (found: Option<nat>)
    ensures found.None? <==> FirstMatch(l.deliveries, target, message) == |l.deliveries|
    ensures found.Some? ==> found.value < |l.deliveries| && found.value == FirstMatch(l.deliveries, target, message)
  {
    FirstMatchIsFirst(l.deliveries, target, message);
    for i := 0 to |l.deliveries|
      invariant forall j :: 0 <= j < i ==> !Matches(l.deliveries[j], target, message)
    {
      if Matches(l.deliveries[i], target, message) {
        return Some(i);
      }
    }
    return None;
  }

  // ---------------------------------------------------------------- transitions of one delivery

  function Received(d: Delivery, receipt: State, reason: Option<string>, at: TimeText): Delivery {
    d.(state := receipt, attempts := d.attempts + 1, lastAttemptAt := Some(at), lastReceipt := Some(receipt),
       lastError := reason)
  }

  function Refused(d: Delivery, reason: string, at: TimeText): Delivery {
    d.(state := Rejected, attempts := d.attempts + 1, lastAttemptAt := Some(at), lastReceipt := None,
       lastError := Some(reason))
  }

  function Unanswered(d: Delivery, reason: string, at: TimeText): Delivery {
    d.(attempts := d.attempts + 1, lastAttemptAt := Some(at), lastReceipt := None, lastError := Some(reason))
  }

  predicate Overdue(d: Delivery, now: int) {
    d.state.Pending? && d.expiresAt.Some? && d.expiresAt.value <= now
  }

  /** The expiry of a settled delivery is never read. */
  predicate ExpiryReadable(d: Delivery) {
    d.state.Pending? ==> d.expiresAt.Some?
  }

  predicate ExpiriesReadable(ds: seq<Delivery>) {
    forall i :: 0 <= i < |ds| ==> ExpiryReadable(ds[i])
  }

  function ExpireOne(d: Delivery, now: int): Delivery {
    if Overdue(d, now)
    then d.(state := Expired, lastReceipt := None, lastError := Some("delivery expired before receipt"))
    else d
  }

  function ExpireAll(ds: seq<Delivery>, now: int): (es: seq<Delivery>)
    ensures |es| == |ds|
    ensures forall i :: 0 <= i < |ds| ==> es[i] == ExpireOne(ds[i], now)
  {
    seq(|ds|, i requires 0 <= i < |ds| => ExpireOne(ds[i], now))
  }

  method ExpirePending(l: Ledger, now: TimeText) returns (r: Result<Ledger, DeliveryError>)
    ensures r == if !ValidLedger(l) then Err(DuplicateDeliveryId)
                 else if now.None? || !ExpiriesReadable(l.deliveries) then Err(UnreadableTime)
                 else Ok(l.(deliveries := ExpireAll(l.deliveries, now.value)))
  {
    var valid := ValidateState(l);
    if !valid {
      return Err(DuplicateDeliveryId);
    }
    if now.None? {
      return Err(UnreadableTime);
    }
    var ds := l.deliveries;
    for i := 0 to |ds|
      invariant |ds| == |l.deliveries|
      invariant forall j :: 0 <= j < |ds| ==>
        ds[j] == if j < i then ExpireOne(l.deliveries[j], now.value) else l.deliveries[j]
      invariant forall j :: 0 <= j < i ==> ExpiryReadable(l.deliveries[j])
    {
      if ds[i].state.Pending? {
        if ds[i].expiresAt.None? {
          return Err(UnreadableTime);
        }
        if ds[i].expiresAt.value <= now.value {
          ds := ds[i := ds[i].(state := Expired, lastReceipt := None,
                               lastError := Some("delivery expired before receipt"))];
        }
      }
    }
    assert ds == ExpireAll(l.deliveries, now.value);
    return Ok(l.(deliveries := ds));
  }

  datatype Receipt = Receipt(
    fleet: string,
    observer: AgentId,
    message: string,
    status: State,
    at: TimeText,
    reason: Option<string>)

  method ApplyReceipt(l: Ledger, receipt: Receipt) returns (r: Result<Ledger, DeliveryError>)
    ensures r == if !ValidLedger(l) then Err(DuplicateDeliveryId)
                 else if !receipt.status.Accepted? && !receipt.status.Duplicate? then Err(BadReceipt)
                 else if receipt.fleet != l.fleet then Err(FleetMismatch)
                 else
                   var i := FirstMatch(l.deliveries, receipt.observer, receipt.message);
                   if i == |l.deliveries| then Err(NotFound)
                   else Ok(l.(deliveries := l.deliveries[i := Received(l.deliveries[i], receipt.status, receipt.reason,
                                                                       receipt.at)]))
  {
    var valid := ValidateState(l);
    if !valid {
      return Err(DuplicateDeliveryId);
    }
    if !receipt.status.Accepted? && !receipt.status.Duplicate? {
      return Err(BadReceipt);
    }
    if receipt.fleet != l.fleet {
      return Err(FleetMismatch);
    }
    var found := FindDelivery(l, receipt.observer, receipt.message);
    if found.None? {
      return Err(NotFound);
    }
    var d := l.deliveries[found.value];
    return Ok(l.(deliveries := l.deliveries[found.value := Received(d, receipt.status, receipt.reason, receipt.at)]));
  }

  method ApplyError(l: Ledger, target: AgentId, message: string, reason: string, at: TimeText)
    returns (r: Result<Ledger, DeliveryError>)
    ensures r == if !ValidLedger(l) then Err(DuplicateDeliveryId)
                 else
                   var i := FirstMatch(l.deliveries, target, message);
                   if i == |l.deliveries| then Err(NotFound)
                   else Ok(l.(deliveries := l.deliveries[i := Refused(l.deliveries[i], reason, at)]))
  {
    var valid := ValidateState(l);
    if !valid {
      return Err(DuplicateDeliveryId);
    }
    var found := FindDelivery(l, target, message);
    if found.None? {
      return Err(NotFound);
    }
    return Ok(l.(deliveries := l.deliveries[found.value := Refused(l.deliveries[found.value], reason, at)]));
  }

  method RecordNoResponse(l: Ledger, target: AgentId, message: string, reason: string, at: TimeText)
    returns (r: Result<Ledger, DeliveryError>)
    ensures r == if !ValidLedger(l) then Err(DuplicateDeliveryId)
                 else
                   var i := FirstMatch(l.deliveries, target, message);
                   if i == |l.deliveries| then Err(NotFound)
                   else Ok(l.(deliveries := l.deliveries[i := Unanswered(l.deliveries[i], reason, at)]))
  {
    var valid := ValidateState(l);
    if !valid {
      return Err(DuplicateDeliveryId);
    }
    var found := FindDelivery(l, target, message);
    if found.None? {
      return Err(NotFound);
    }
    return Ok(l.(deliveries := l.deliveries[found.value := Unanswered(l.deliveries[found.value], reason, at)]));
  }
}
