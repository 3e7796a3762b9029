/**
 The retry planner: exponential backoff with a cap, over exact numbers.

 The program computes the backoff in floating point; here the power is exact and rounding is
 to the nearest integer, ties to the even one. Times count microseconds, delays whole seconds;
 an announced time is cut to the second. The time of a last attempt is read only where the backoff
 is counted from it.
 */
module RetryPlan {
  import opened Wrappers
  import opened Delivery

  datatype Policy = Policy(
    fleet: string,
    source: AgentId,
    maxAttempts: int,
    minDelay: int,
    maxDelay: int,
    multiplier: real,
    retryable: seq<string>)

  /** Microseconds in a second. */
  const SECOND := 1_000_000

  datatype RetryError = BadLedger | BadPolicy | PolicyFleetMismatch | PolicySourceMismatch | BadTime

  predicate ValidPolicy(p: Policy) {
    && p.maxAttempts > 0
    && 0 <= p.minDelay <= p.maxDelay
    && p.multiplier >= 1.0
    && forall e :: e in p.retryable ==> e != ""
  }

  method ValidatePolicy(p: Policy) returns (ok: bool)
    ensures ok <==> ValidPolicy(p)
  {
    if p.maxAttempts <= 0 || p.minDelay < 0 || p.maxDelay < p.minDelay || p.multiplier < 1.0 {
      return false;
    }
    for i := 0 to |p.retryable|
      invariant forall j :: 0 <= j < i ==> p.retryable[j] != ""
    {
      if p.retryable[i] == "" {
        assert p.retryable[i] in p.retryable;
        return false;
      }
    }
    return true;
  }

  // ---------------------------------------------------------------- the delay

  function Power(base: real, n: nat): real {
    if n == 0 then 1.0 else base * Power(base, n - 1)
  }

  function RoundHalfEven(x: real): int {
    var f := x.Floor;
    var rest := x - f as real;
    if rest < 0.5 then f
    else if rest > 0.5 then f + 1
    else if f % 2 == 0 then f else f + 1
  }

  function RawDelay(p: Policy, retries: nat): real {
    p.minDelay as real * Power(p.multiplier, retries)
  }

  function RetryDelay(p: Policy, attempts: int): int {
    if attempts <= 0 then 0
    else
      var raw := RoundHalfEven(RawDelay(p, attempts - 1));
      if p.maxDelay < raw then p.maxDelay else raw
  }

  function Distance(x: real, k: int): real {
    if x < k as real then k as real - x else x - k as real
  }

  /** Rounding gives a nearest integer, and the even one of two nearest. */
  lemma RoundsToNearestEven(x: real, k: int)
    ensures Distance(x, RoundHalfEven(x)) <= 0.5
    ensures Distance(x, RoundHalfEven(x)) <= Distance(x, k)
    ensures Distance(x, RoundHalfEven(x)) == Distance(x, k) && k != RoundHalfEven(x) ==> RoundHalfEven(x) % 2 == 0
  {
    var f := x.Floor;
    assert f as real <= x < (f + 1) as real;
    if k <= f {
      assert k as real <= f as real;
      if k < f { assert k as real <= f as real - 1.0; }
    } else {
      assert k as real >= (f + 1) as real;
      if k > f + 1 { assert k as real >= f as real + 2.0; }
    }
  }

  lemma RoundMonotone(x: real, y: real)
    requires x <= y
    ensures RoundHalfEven(x) <= RoundHalfEven(y)
  {
  }

  lemma RoundFixesIntegers(n: int)
    ensures RoundHalfEven(n as real) == n
  {
  }

  lemma ScaleMonotone(c: real, x: real, y: real)
    requires 0.0 <= c && x <= y
    ensures c * x <= c * y
  {
  }

  lemma {:induction false} PowerGrows(base: real, m: nat, n: nat)
    requires base >= 1.0 && m <= n
    ensures 1.0 <= Power(base, m) <= Power(base, n)
    decreases n
  {
    if n > 0 {
      if m == n {
        PowerGrows(base, n - 1, n - 1);
        ScaleMonotone(base, 1.0, Power(base, n - 1));
      } else {
        PowerGrows(base, m, n - 1);
        var q := Power(base, n - 1);
        ScaleMonotone(q, 1.0, base);
        assert q * base == base * q && Power(base, n) == base * q;
      }
    }
  }

  lemma RawDelayGrows(p: Policy, m: nat, n: nat)
    requires ValidPolicy(p) && m <= n
    ensures p.minDelay as real <= RawDelay(p, m) <= RawDelay(p, n)
  {
    PowerGrows(p.multiplier, m, n);
    ScaleMonotone(p.minDelay as real, 1.0, Power(p.multiplier, m));
    ScaleMonotone(p.minDelay as real, Power(p.multiplier, m), Power(p.multiplier, n));
  }

  /** From the first attempt on the delay stays between the policy's bounds and never shrinks. */
  lemma DelayBoundedAndMonotone(p: Policy, m: int, n: int)
    requires ValidPolicy(p) && 1 <= m <= n
    ensures p.minDelay <= RetryDelay(p, m) <= RetryDelay(p, n) <= p.maxDelay
  {
    RawDelayGrows(p, m - 1, n - 1);
    RoundFixesIntegers(p.minDelay);
    RoundMonotone(p.minDelay as real, RawDelay(p, m - 1));
    RoundMonotone(RawDelay(p, m - 1), RawDelay(p, n - 1));
  }

  /** A nearest integer, and the even one of two. */
  predicate Nearest(k: int, x: real) {
    -0.5 <= k as real - x <= 0.5 && (k as real - x == 0.5 || k as real - x == -0.5 ==> k % 2 == 0)
  }

  lemma NearestIsRounded(k: int, x: real)
    ensures Nearest(k, x) <==> k == RoundHalfEven(x)
  {
    var f := x.Floor;
    assert f as real <= x < (f + 1) as real;
    if k < f {
      assert k as real <= f as real - 1.0;
    } else if k > f + 1 {
      assert k as real >= f as real + 2.0;
    }
  }

  /** The delays before rounding: the minimum first, and each one the multiple of the one before. */
  ghost predicate BacksOff(p: Policy, xs: seq<real>) {
    && xs != [] && xs[0] == p.minDelay as real
    && forall i :: 0 < i < |xs| ==> xs[i] == xs[i - 1] * p.multiplier
  }

  lemma {:induction false} BackoffIsRaw(p: Policy, xs: seq<real>, i: nat)
    requires BacksOff(p, xs) && i < |xs|
    ensures xs[i] == RawDelay(p, i)
  {
    if i == 0 {
      assert Power(p.multiplier, 0) == 1.0;
    } else {
      BackoffIsRaw(p, xs, i - 1);
      var q := Power(p.multiplier, i - 1);
      assert Power(p.multiplier, i) == p.multiplier * q;
      TimesAssociates(p.minDelay as real, q, p.multiplier);
    }
  }

  lemma TimesAssociates(a: real, b: real, c: real)
    ensures a * b * c == a * (c * b)
  {
  }

  /**
   The delay after `n` attempts is the `n`th of these, rounded to the nearest integer, ties to the even one,
   and cut to the maximum; before the first attempt there is none.
   */
  lemma DelayIsRoundedBackoff(p: Policy, xs: seq<real>, n: nat, k: int)
    requires ValidPolicy(p) && BacksOff(p, xs) && 1 <= n <= |xs| && Nearest(k, xs[n - 1])
    ensures RetryDelay(p, n) == (if k <= p.maxDelay then k else p.maxDelay) && RetryDelay(p, 0) == 0
  {
    BackoffIsRaw(p, xs, n - 1);
    NearestIsRounded(k, xs[n - 1]);
  }

  // ---------------------------------------------------------------- decisions

  datatype RetryDecision =
    | DueNow
    | WaitingBackoff
    | MaxAttemptsReached
    | NonRetryableError
    | PastExpiry
    | AlreadyTerminal

  datatype Retry = Retry(
    id: string,
    target: AgentId,
    message: string,
    state: State,
    attempts: nat,
    decision: RetryDecision,
    nextAttemptAt: Option<int>,
    delay: int,
    lastError: Option<string>)

  predicate Retryable(p: Policy, lastError: Option<string>) {
    lastError.None? || "*" in p.retryable || lastError.value in p.retryable
  }

  /** It has been tried, at a time that can be read. */
  predicate TriedAt(d: Delivery) {
    d.lastAttemptAt.Some? && d.lastAttemptAt.value.Some?
  }

  /** Pending, with attempts and a retryable error left: the plan looks at the time of the last attempt. */
  predicate Retriable(p: Policy, d: Delivery) {
    d.state.Pending? && d.attempts < p.maxAttempts && Retryable(p, d.lastError)
  }

  /** The time of the last attempt can be read, if it is needed at all. */
  predicate Datable(p: Policy, d: Delivery) {
    Retriable(p, d) && d.lastAttemptAt.Some? ==> d.lastAttemptAt.value.Some?
  }

  /** When the backoff after the last attempt ends. */
  function NextAttempt(p: Policy, d: Delivery): int
    requires TriedAt(d)
  {
    d.lastAttemptAt.value.value + RetryDelay(p, d.attempts) * SECOND
  }

  /** The time as the plan prints it, without its fraction of a second. */
  function Printed(t: int): int {
    t - t % SECOND
  }

  /** The decision about a delivery that already went through expiry. */
  function Decide(p: Policy, d: Delivery, now: int): RetryDecision
    requires Datable(p, d)
  {
    if d.state.Expired? then PastExpiry
    else if Terminal(d.state) then AlreadyTerminal
    else if d.attempts >= p.maxAttempts then MaxAttemptsReached
    else if !Retryable(p, d.lastError) then NonRetryableError
    else if d.lastAttemptAt.None? then DueNow
    else if NextAttempt(p, d) <= now then DueNow
    else WaitingBackoff
  }

  function RetryFor(p: Policy, d: Delivery, now: int): Retry
    requires Datable(p, d)
  {
    var decision := Decide(p, d, now);
    var scheduled := decision.DueNow? || decision.WaitingBackoff?;
    Retry(d.id, d.target, d.message, d.state, d.attempts, decision,
          if !scheduled then None
          else if d.lastAttemptAt.None? then Some(Printed(now))
          else Some(Printed(NextAttempt(p, d))),
          if scheduled && d.lastAttemptAt.Some? then RetryDelay(p, d.attempts) else 0,
          d.lastError)
  }

  predicate AllDatable(p: Policy, ds: seq<Delivery>) {
    forall i :: 0 <= i < |ds| ==> Datable(p, ds[i])
  }

  function Retries(p: Policy, ds: seq<Delivery>, now: int): (rs: seq<Retry>)
    requires AllDatable(p, ds)
    ensures |rs| == |ds|
    ensures forall i {:trigger rs[i]} :: 0 <= i < |ds| ==> rs[i] == RetryFor(p, ds[i], now)
  {
    seq(|ds|, i requires 0 <= i < |ds| => RetryFor(p, ds[i], now))
  }

  method BuildRetryPlan(l: Ledger, p: Policy, now: TimeText) returns (r: Result<seq<Retry>, RetryError>)
    ensures r == if !ValidLedger(l) then Err(BadLedger)
                 else if !ValidPolicy(p) then Err(BadPolicy)
                 else if p.fleet != l.fleet then Err(PolicyFleetMismatch)
                 else if p.source != l.source then Err(PolicySourceMismatch)
                 else if now.None? || !ExpiriesReadable(l.deliveries) then Err(BadTime)
                 else if !AllDatable(p, ExpireAll(l.deliveries, now.value)) then Err(BadTime)
                 else Ok(Retries(p, ExpireAll(l.deliveries, now.value), now.value))
  {
    var valid := ValidateState(l);
    if !valid {
      return Err(BadLedger);
    }
    valid := ValidatePolicy(p);
    if !valid {
      return Err(BadPolicy);
    }
    if p.fleet != l.fleet {
      return Err(PolicyFleetMismatch);
    }
    if p.source != l.source {
      return Err(PolicySourceMismatch);
    }
    var refreshed := ExpirePending(l, now);
    if refreshed.Err? {
      return Err(BadTime);
    }
    var ds := refreshed.value.deliveries;
    var retries: seq<Retry> := [];
    for i := 0 to |ds|
      invariant |retries| == i && forall j :: 0 <= j < i ==> Datable(p, ds[j])
      invariant forall j {:trigger retries[j]} :: 0 <= j < i ==> retries[j] == RetryFor(p, ds[j], now.value)
    {
      var d := ds[i];
      var entry := Retry(d.id, d.target, d.message, d.state, d.attempts, PastExpiry, None, 0, d.lastError);
      if d.state.Expired? {
        retries := retries + [entry];
      } else if Terminal(d.state) {
        retries := retries + [entry.(decision := AlreadyTerminal)];
      } else if d.attempts >= p.maxAttempts {
        retries := retries + [entry.(decision := MaxAttemptsReached)];
      } else if !Retryable(p, d.lastError) {
        retries := retries + [entry.(decision := NonRetryableError)];
      } else if d.lastAttemptAt.None? {
        retries := retries + [entry.(decision := DueNow, nextAttemptAt := Some(Printed(now.value)))];
      } else if d.lastAttemptAt.value.None? {
        return Err(BadTime);
      } else {
        var delay := RetryDelay(p, d.attempts);
        var next := d.lastAttemptAt.value.value + delay * SECOND;
        retries := retries + [entry.(decision := if next <= now.value then DueNow else WaitingBackoff,
                                     nextAttemptAt := Some(Printed(next)), delay := delay)];
      }
    }
    assert retries == Retries(p, ds, now.value);
    return Ok(retries);
  }

  /** The decision about a stored delivery at some time. */
  function DecisionAt(p: Policy, d: Delivery, now: int): RetryDecision
    requires Datable(p, ExpireOne(d, now))
  {
    Decide(p, ExpireOne(d, now), now)
  }

  /** The error kept with the delivery does not forbid another attempt. */
  predicate Forgivable(p: Policy, d: Delivery) {
    d.lastError.Some? ==> "*" in p.retryable || d.lastError.value in p.retryable
  }

  /**
   Each decision by the fields of a delivery that went through expiry; a further attempt is due from the first
   one's backoff on, to the microsecond, and announced for that time without its fraction of a second.
   */
  lemma RetryTells(p: Policy, d: Delivery, now: int)
    requires Datable(p, d)
    ensures var e := RetryFor(p, d, now);
      var open := d.state == Pending && d.attempts < p.maxAttempts && Forgivable(p, d);
      && e.id == d.id && e.target == d.target && e.message == d.message && e.state == d.state
      && e.attempts == d.attempts && e.lastError == d.lastError
      && (e.decision.PastExpiry? <==> d.state == Expired)
      && (e.decision.AlreadyTerminal? <==> d.state == Accepted || d.state == Duplicate || d.state == Rejected)
      && (e.decision.MaxAttemptsReached? <==> d.state == Pending && d.attempts >= p.maxAttempts)
      && (e.decision.NonRetryableError? <==> d.state == Pending && d.attempts < p.maxAttempts && !Forgivable(p, d))
      && (open && d.lastAttemptAt == None ==> e.decision.DueNow? && Announces(e.nextAttemptAt, now) && e.delay == 0)
      && (open && d.lastAttemptAt.Some? ==>
            && d.lastAttemptAt.value.Some?
            && var next := d.lastAttemptAt.value.value + RetryDelay(p, d.attempts) * 1_000_000;
               && (e.decision.DueNow? <==> next <= now) && (e.decision.WaitingBackoff? <==> now < next)
               && Announces(e.nextAttemptAt, next) && e.delay == RetryDelay(p, d.attempts))
      && (!open ==> e.nextAttemptAt == None && e.delay == 0)
  {
  }

  /** The time without its fraction of a second. */
  predicate Announces(announced: Option<int>, t: int) {
    announced.Some? && announced.value % 1_000_000 == 0 && announced.value <= t < announced.value + 1_000_000
  }

  /**
   As time passes and nothing is sent, a decision stays, a wait becomes due, or a pending
   delivery expires; nothing else happens.
   */
  lemma DecisionsMoveForward(p: Policy, d: Delivery, earlier: int, later: int)
    requires earlier <= later && Datable(p, ExpireOne(d, earlier))
    ensures Datable(p, ExpireOne(d, later))
    ensures var a, b := DecisionAt(p, d, earlier), DecisionAt(p, d, later);
      || a == b
      || (a.WaitingBackoff? && b.DueNow?)
      || (d.state.Pending? && !a.PastExpiry? && b.PastExpiry?)
    ensures !d.state.Pending? ==> DecisionAt(p, d, earlier) == DecisionAt(p, d, later)
  {
  }

  /** A live delivery that has been tried, with attempts and a retryable error left. */
  predicate Waits(p: Policy, d: Delivery, now: int) {
    && Retriable(p, d) && TriedAt(d)
    && d.expiresAt.Some? && now < d.expiresAt.value
  }

  lemma WholeSecondsKeepFraction(t: int, seconds: int)
    ensures (t + seconds * SECOND) % SECOND == t % SECOND
  {
  }

  /**
   It is due from exactly the announced time plus the fraction of a second of its last attempt on: at
   the announced time itself only if the last attempt was at a whole second.
   */
  lemma DueAfterAnnouncedTime(p: Policy, d: Delivery, now: int, at: int)
    requires Waits(p, d, now) && at < d.expiresAt.value
    ensures var announced := RetryFor(p, ExpireOne(d, now), now).nextAttemptAt;
      && announced.Some? && announced.value % SECOND == 0
      && (DecisionAt(p, d, at).DueNow? <==> at >= announced.value + d.lastAttemptAt.value.value % SECOND)
  {
    WholeSecondsKeepFraction(d.lastAttemptAt.value.value, RetryDelay(p, d.attempts));
  }

  /** The announced times are kept exactly when the last attempt was at a whole second. */
  lemma AnnouncedTimeKeptIff(p: Policy, d: Delivery, now: int)
    requires Waits(p, d, now) && Printed(NextAttempt(p, d)) < d.expiresAt.value
    ensures DecisionAt(p, d, RetryFor(p, ExpireOne(d, now), now).nextAttemptAt.value).DueNow?
       <==> d.lastAttemptAt.value.value % SECOND == 0
  {
    DueAfterAnnouncedTime(p, d, now, Printed(NextAttempt(p, d)));
  }

  /** An attempt half a second past the start, to be repeated after ten: announced for 10, waiting at 10. */
  lemma AnnouncedTooEarly()
    ensures var p := Policy("fleet", "me", 3, 10, 60, 1.0, ["*"]);
      var d := Delivery("d", "you", "m", Pending, 1, Some(100 * SECOND), Some(Some(SECOND / 2)), None, None);
      && RetryFor(p, d, 0).nextAttemptAt == Some(10 * SECOND)
      && DecisionAt(p, d, 10 * SECOND).WaitingBackoff?
  {
    var p := Policy("fleet", "me", 3, 10, 60, 1.0, ["*"]);
    assert Power(p.multiplier, 0) == 1.0;
    RoundFixesIntegers(10);
    assert RetryDelay(p, 1) == 10;
  }

  // ---------------------------------------------------------------- repeated attempts

  /** The delivery after unanswered sends at the given times. */
  function AfterSilences(d: Delivery, times: seq<int>, reason: string): Delivery {
    if times == [] then d
    else Unanswered(AfterSilences(d, times[..|times| - 1], reason), reason, Some(times[|times| - 1]))
  }

  predicate IsDue(p: Policy, d: Delivery, now: int) {
    Datable(p, ExpireOne(d, now)) && DecisionAt(p, d, now).DueNow?
  }

  /** Each send happened when the plan said it was due. */
  ghost predicate AllDue(p: Policy, d: Delivery, times: seq<int>, reason: string) {
    forall k :: 0 <= k < |times| ==> IsDue(p, AfterSilences(d, times[..k], reason), times[k])
  }

  lemma {:induction false} SilencesCount(d: Delivery, times: seq<int>, reason: string)
    ensures AfterSilences(d, times, reason).attempts == d.attempts + |times|
    ensures AfterSilences(d, times, reason).lastAttemptAt
         == if times == [] then d.lastAttemptAt else Some(Some(times[|times| - 1]))
  {
    if times != [] {
      SilencesCount(d, times[..|times| - 1], reason);
    }
  }

  /** Send `k` kept its distance from the one before. */
  predicate Spaced(p: Policy, d: Delivery, times: seq<int>, k: nat) {
    0 < k < |times| ==> times[k] - times[k - 1] >= RetryDelay(p, d.attempts + k) * SECOND >= p.minDelay * SECOND
  }

  lemma DueKeepsDistance(p: Policy, d: Delivery, now: int)
    requires IsDue(p, d, now)
    ensures d.attempts < p.maxAttempts
    ensures TriedAt(d) ==> now - d.lastAttemptAt.value.value >= RetryDelay(p, d.attempts) * SECOND
  {
  }

  lemma SendIsSpaced(p: Policy, d: Delivery, times: seq<int>, reason: string, k: nat)
    requires ValidPolicy(p) && AllDue(p, d, times, reason) && k < |times|
    ensures d.attempts + k < p.maxAttempts && Spaced(p, d, times, k)
  {
    var e := AfterSilences(d, times[..k], reason);
    SilencesCount(d, times[..k], reason);
    DueKeepsDistance(p, e, times[k]);
    if k > 0 {
      DelayBoundedAndMonotone(p, d.attempts + k, d.attempts + k);
    }
  }

  /**
   Sending only when due never exceeds the attempt limit and leaves at least the backoff of the
   attempts made so far, hence at least the minimum delay, between one send and the next.
   */
  lemma {:induction false} SendsAreBoundedAndSpaced(p: Policy, d: Delivery, times: seq<int>, reason: string)
    requires ValidPolicy(p) && AllDue(p, d, times, reason)
    ensures times != [] ==> d.attempts + |times| <= p.maxAttempts
    ensures forall k: nat :: Spaced(p, d, times, k)
  {
    forall k: nat ensures Spaced(p, d, times, k) {
      if k < |times| {
        SendIsSpaced(p, d, times, reason, k);
      }
    }
    if times != [] {
      SendIsSpaced(p, d, times, reason, |times| - 1);
    }
  }
}
