/** Route-health history: the samples of each route over several reports, oldest first, and its trend. */
module RouteHistory {
  import opened Wrappers
  import opened RouteHealth
  import DispatchPlan

  datatype Trend = Stable | Improving | Worsening | Mixed | SingleSample

  datatype Sample = Sample(mode: DispatchPlan.Mode, status: Status, at: TimeText)

  datatype Entry = Entry(
    target: AgentId,
    mode: DispatchPlan.Mode,
    samples: nat,
    firstAt: TimeText,
    lastAt: TimeText,
    first: Status,
    last: Status,
    trend: Trend,
    transitions: nat)

  datatype History = History(fleet: string, source: AgentId, reports: nat, entries: seq<Entry>)

  datatype HistoryError = NoReports | HistoryFleetMismatch | HistorySourceMismatch | ReportTimeUnreadable

  // ---------------------------------------------------------------- trends

  function Score(s: Status): nat {
    match s
    case SwitchedOff => 0
    case Unavailable => 1
    case Unknown => 2
    case Degraded => 3
    case Healthy => 4
  }

  function TrendFor(ss: seq<Status>): Trend {
    if |ss| <= 1 then SingleSample
    else if forall i :: 0 <= i < |ss| ==> ss[i] == ss[0] then Stable
    else if Score(ss[|ss| - 1]) > Score(ss[0]) then Improving
    else if Score(ss[|ss| - 1]) < Score(ss[0]) then Worsening
    else Mixed
  }

  function Transitions(ss: seq<Status>): nat {
    if |ss| <= 1 then 0
    else Transitions(ss[..|ss| - 1]) + if ss[|ss| - 1] != ss[|ss| - 2] then 1 else 0
  }

  lemma {:induction false} NoTransitionIff(ss: seq<Status>)
    requires ss != []
    ensures Transitions(ss) == 0 <==> forall i :: 0 <= i < |ss| ==> ss[i] == ss[0]
  {
    if |ss| > 1 {
      var before := ss[..|ss| - 1];
      NoTransitionIff(before);
      assert before[|before| - 1] == ss[|ss| - 2];
      assert forall i :: 0 <= i < |before| ==> before[i] == ss[i];
    }
  }

  /** One status is better than another: healthy before degraded, unknown, unavailable and switched off. */
  predicate Better(a: Status, b: Status) {
    match b
    case SwitchedOff => a != SwitchedOff
    case Unavailable => a != SwitchedOff && a != Unavailable
    case Unknown => a == Degraded || a == Healthy
    case Degraded => a == Healthy
    case Healthy => false
  }

  /** Each trend says exactly how the last status compares with the first and whether anything changed. */
  lemma TrendIff(ss: seq<Status>)
    requires ss != []
    ensures TrendFor(ss).SingleSample? <==> |ss| == 1
    ensures TrendFor(ss).Stable? <==> |ss| > 1 && Transitions(ss) == 0
    ensures TrendFor(ss).Mixed? <==> Transitions(ss) > 0 && ss[|ss| - 1] == ss[0]
    ensures TrendFor(ss).Improving? <==> Better(ss[|ss| - 1], ss[0])
    ensures TrendFor(ss).Worsening? <==> Better(ss[0], ss[|ss| - 1])
  {
    NoTransitionIff(ss);
  }

  predicate ChangesAt(ss: seq<Status>, i: nat) {
    0 < i < |ss| && ss[i] != ss[i - 1]
  }

  /** The samples whose status differs from the one before. */
  function Changes(ss: seq<Status>): set<nat> {
    set i: nat | i < |ss| && ChangesAt(ss, i)
  }

  lemma {:induction false} TransitionsCountChanges(ss: seq<Status>)
    ensures Transitions(ss) == |Changes(ss)|
  {
    if |ss| <= 1 {
      assert Changes(ss) == {};
    } else {
      var n := |ss| - 1;
      TransitionsCountChanges(ss[..n]);
      assert forall i :: 0 <= i < n ==> (ChangesAt(ss, i) <==> ChangesAt(ss[..n], i));
      assert Changes(ss) == Changes(ss[..n]) + if ChangesAt(ss, n) then {n} else {};
    }
  }

  // ---------------------------------------------------------------- reports in time order

  predicate Dated(reports: seq<HealthReport>) {
    forall i :: 0 <= i < |reports| ==> reports[i].at.Some?
  }

  /** The instant of a report; only dated reports are sorted. */
  function When(report: HealthReport): int {
    if report.at.Some? then report.at.value else 0
  }

  function Insert(report: HealthReport, sorted: seq<HealthReport>): seq<HealthReport> {
    if sorted == [] then [report]
    else if When(report) < When(sorted[|sorted| - 1])
    then Insert(report, sorted[..|sorted| - 1]) + [sorted[|sorted| - 1]]
    else sorted + [report]
  }

  function InOrder(reports: seq<HealthReport>): seq<HealthReport> {
    if reports == [] then [] else Insert(reports[|reports| - 1], InOrder(reports[..|reports| - 1]))
  }

  predicate Ascending(reports: seq<HealthReport>) {
    forall i, j :: 0 <= i < j < |reports| ==> When(reports[i]) <= When(reports[j])
  }

  lemma {:induction false} InsertPermutes(report: HealthReport, sorted: seq<HealthReport>)
    ensures multiset(Insert(report, sorted)) == multiset(sorted) + multiset{report}
    ensures |Insert(report, sorted)| == |sorted| + 1
    ensures forall r :: r in Insert(report, sorted) ==> r == report || r in sorted
  {
    if sorted != [] && When(report) < When(sorted[|sorted| - 1]) {
      var front, last := sorted[..|sorted| - 1], sorted[|sorted| - 1];
      InsertPermutes(report, front);
      assert sorted == front + [last];
    }
  }

  lemma {:induction false} InsertKeepsOrder(report: HealthReport, sorted: seq<HealthReport>)
    requires Ascending(sorted)
    ensures Ascending(Insert(report, sorted))
  {
    if sorted != [] && When(report) < When(sorted[|sorted| - 1]) {
      var front, last := sorted[..|sorted| - 1], sorted[|sorted| - 1];
      InsertKeepsOrder(report, front);
      InsertPermutes(report, front);
      forall i | 0 <= i < |Insert(report, front)| ensures When(Insert(report, front)[i]) <= When(last) {
        assert Insert(report, front)[i] in Insert(report, front);
      }
    }
  }

  ghost predicate Permutes(sorted: seq<HealthReport>, reports: seq<HealthReport>) {
    multiset(sorted) == multiset(reports) && |sorted| == |reports|
  }

  lemma PermutesNext(sorted: seq<HealthReport>, reports: seq<HealthReport>, last: HealthReport)
    requires Permutes(sorted, reports)
    ensures Permutes(Insert(last, sorted), reports + [last])
  {
    InsertPermutes(last, sorted);
    assert multiset(reports + [last]) == multiset(reports) + multiset{last};
  }

  lemma {:induction false} InOrderPermutes(reports: seq<HealthReport>)
    ensures Permutes(InOrder(reports), reports)
  {
    if reports != [] {
      var front, last := reports[..|reports| - 1], reports[|reports| - 1];
      InOrderPermutes(front);
      PermutesNext(InOrder(front), front, last);
      assert reports == front + [last];
    }
  }

  /** The same reports, oldest first. */
  lemma {:induction false} InOrderSorts(reports: seq<HealthReport>)
    ensures Ascending(InOrder(reports)) && multiset(InOrder(reports)) == multiset(reports)
    ensures |InOrder(reports)| == |reports|
  {
    InOrderPermutes(reports);
    if reports != [] {
      InOrderSorts(reports[..|reports| - 1]);
      InsertKeepsOrder(reports[|reports| - 1], InOrder(reports[..|reports| - 1]));
    }
  }

  // ---------------------------------------------------------------- samples

  /** What the first `n` routes of a report say about the target. */
  function SamplesIn(report: HealthReport, n: nat, target: AgentId): seq<Sample>
    requires n <= |report.routes|
  {
    if n == 0 then []
    else
      var before, route := SamplesIn(report, n - 1, target), report.routes[n - 1];
      if route.target == target then before + [Sample(route.mode, route.status, report.at)] else before
  }

  function SamplesOf(reports: seq<HealthReport>, k: nat, target: AgentId): seq<Sample>
    requires k <= |reports|
  {
    if k == 0 then []
    else SamplesOf(reports, k - 1, target) + SamplesIn(reports[k - 1], |reports[k - 1].routes|, target)
  }

  function StatusesOf(samples: seq<Sample>): (ss: seq<Status>)
    ensures |ss| == |samples| && forall i {:trigger ss[i]} :: 0 <= i < |samples| ==> ss[i] == samples[i].status
  {
    seq(|samples|, i requires 0 <= i < |samples| => samples[i].status)
  }

  function EntryFor(target: AgentId, samples: seq<Sample>): Entry
    requires samples != []
  {
    var first, last := samples[0], samples[|samples| - 1];
    Entry(target, last.mode, |samples|, first.at, last.at, first.status, last.status,
          TrendFor(StatusesOf(samples)), Transitions(StatusesOf(samples)))
  }

  /** The loop over a target's samples that counts the changes of status. */
  method MakeEntry(target: AgentId, samples: seq<Sample>) returns (e: Entry)
    requires samples != []
    ensures e == EntryFor(target, samples)
  {
    ghost var ss := StatusesOf(samples);
    var statuses: seq<Status>, transitions: nat := [], 0;
    for i := 0 to |samples|
      invariant statuses == ss[..i] && transitions == Transitions(ss[..i])
    {
      assert ss[..i + 1] == ss[..i] + [ss[i]] && ss[..i + 1][..i] == ss[..i];
      if i > 0 && samples[i].status != samples[i - 1].status {
        transitions := transitions + 1;
      }
      statuses := statuses + [samples[i].status];
    }
    assert ss[..|samples|] == ss;
    var first, last := samples[0], samples[|samples| - 1];
    e := Entry(target, last.mode, |samples|, first.at, last.at, first.status, last.status, TrendFor(statuses),
               transitions);
  }

  type SampleMap = map<AgentId, seq<Sample>>

  function At(samples: SampleMap, target: AgentId): seq<Sample> {
    if target in samples then samples[target] else []
  }

  /** `targets` lists the keys once each, and no list of samples is empty. */
  ghost predicate Lists(samples: SampleMap, targets: seq<AgentId>) {
    && (forall t :: t in samples <==> t in targets)
    && (forall t :: t in samples ==> samples[t] != [])
    && (forall i, j :: 0 <= i < j < |targets| ==> targets[i] != targets[j])
  }

  function AddSample(samples: SampleMap, target: AgentId, sample: Sample): SampleMap {
    samples[target := At(samples, target) + [sample]]
  }

  lemma AddedSample(samples: SampleMap, targets: seq<AgentId>, target: AgentId, sample: Sample)
    requires Lists(samples, targets)
    ensures Lists(AddSample(samples, target, sample), if target in samples then targets else targets + [target])
  {
  }

  ghost predicate GatheredUpTo(before: SampleMap, samples: SampleMap, report: HealthReport, n: nat)
    requires n <= |report.routes|
  {
    forall t :: At(samples, t) == At(before, t) + SamplesIn(report, n, t)
  }

  lemma GatherOne(before: SampleMap, samples: SampleMap, targets: seq<AgentId>, report: HealthReport, n: nat)
    requires n < |report.routes| && Lists(samples, targets) && GatheredUpTo(before, samples, report, n)
    ensures var route := report.routes[n];
      GatheredUpTo(before, AddSample(samples, route.target, Sample(route.mode, route.status, report.at)), report, n + 1)
  {
    var route := report.routes[n];
    var sample := Sample(route.mode, route.status, report.at);
    forall t ensures At(AddSample(samples, route.target, sample), t) == At(before, t) + SamplesIn(report, n + 1, t) {
      assert At(samples, t) == At(before, t) + SamplesIn(report, n, t);
      assert SamplesIn(report, n + 1, t) == SamplesIn(report, n, t) + if route.target == t then [sample] else [];
    }
  }

  method GatherReport(before: SampleMap, known: seq<AgentId>, report: HealthReport)
    returns (samples: SampleMap, targets: seq<AgentId>)
    requires Lists(before, known)
    ensures Lists(samples, targets)
    ensures forall t :: At(samples, t) == At(before, t) + SamplesIn(report, |report.routes|, t)
  {
    samples, targets := before, known;
    for n := 0 to |report.routes|
      invariant Lists(samples, targets) && GatheredUpTo(before, samples, report, n)
    {
      var route := report.routes[n];
      GatherOne(before, samples, targets, report, n);
      AddedSample(samples, targets, route.target, Sample(route.mode, route.status, report.at));
      if route.target !in samples {
        targets := targets + [route.target];
      }
      samples := AddSample(samples, route.target, Sample(route.mode, route.status, report.at));
    }
  }

  method GatherSamples(reports: seq<HealthReport>) returns (samples: SampleMap, targets: seq<AgentId>)
    ensures Lists(samples, targets)
    ensures forall t :: At(samples, t) == SamplesOf(reports, |reports|, t)
  {
    samples, targets := map[], [];
    for k := 0 to |reports|
      invariant Lists(samples, targets)
      invariant forall t :: At(samples, t) == SamplesOf(reports, k, t)
    {
      samples, targets := GatherReport(samples, targets, reports[k]);
    }
  }

  // ---------------------------------------------------------------- the history

  predicate IsEntry(sorted: seq<HealthReport>, e: Entry) {
    var samples := SamplesOf(sorted, |sorted|, e.target);
    samples != [] && e == EntryFor(e.target, samples)
  }

  /** One entry for each target seen, in some order. */
  ghost predicate AreEntries(sorted: seq<HealthReport>, entries: seq<Entry>) {
    && (forall i, j :: 0 <= i < j < |entries| ==> entries[i].target != entries[j].target)
    && (forall i {:trigger entries[i]} :: 0 <= i < |entries| ==> IsEntry(sorted, entries[i]))
    && (forall t :: SamplesOf(sorted, |sorted|, t) != [] <==> exists i :: 0 <= i < |entries| && entries[i].target == t)
  }

  /** The history of a list of reports. */
  ghost predicate IsHistory(reports: seq<HealthReport>, h: History) {
    && reports != [] && Dated(reports)
    && h.fleet == reports[0].fleet && h.source == reports[0].source && h.reports == |reports|
    && AreEntries(InOrder(reports), h.entries)
  }

  predicate OneSource(reports: seq<HealthReport>) {
    forall i :: 0 <= i < |reports| ==> reports[i].fleet == reports[0].fleet && reports[i].source == reports[0].source
  }

  method BuildHistory(reports: seq<HealthReport>) returns (r: Result<History, HistoryError>)
    ensures r.Ok? <==> reports != [] && OneSource(reports) && Dated(reports)
    ensures r.Ok? ==> IsHistory(reports, r.value)
  {
    if reports == [] {
      return Err(NoReports);
    }
    for i := 1 to |reports|
      invariant forall j :: 0 <= j < i ==>
        reports[j].fleet == reports[0].fleet && reports[j].source == reports[0].source
    {
      if reports[i].fleet != reports[0].fleet {
        return Err(HistoryFleetMismatch);
      }
      if reports[i].source != reports[0].source {
        return Err(HistorySourceMismatch);
      }
    }
    if !Dated(reports) {
      return Err(ReportTimeUnreadable);
    }
    var sorted := InOrder(reports);
    var samples, targets := GatherSamples(sorted);
    var entries := BuildEntries(sorted, samples, targets);
    InOrderSorts(reports);
    return Ok(History(reports[0].fleet, reports[0].source, |sorted|, entries));
  }

  method BuildEntries(sorted: seq<HealthReport>, samples: SampleMap, targets: seq<AgentId>)
    returns (entries: seq<Entry>)
    requires Lists(samples, targets) && forall t :: At(samples, t) == SamplesOf(sorted, |sorted|, t)
    ensures AreEntries(sorted, entries)
  {
    entries := [];
    for i := 0 to |targets|
      invariant |entries| == i
      invariant forall j {:trigger entries[j]} :: 0 <= j < i ==>
        entries[j].target == targets[j] && IsEntry(sorted, entries[j])
    {
      assert targets[i] in samples && At(samples, targets[i]) == samples[targets[i]];
      var entry := MakeEntry(targets[i], samples[targets[i]]);
      entries := entries + [entry];
    }
    forall t
      ensures SamplesOf(sorted, |sorted|, t) != [] <==> exists i :: 0 <= i < |entries| && entries[i].target == t
    {
      assert At(samples, t) == SamplesOf(sorted, |sorted|, t);
      assert t in samples <==> t in targets;
      if t in targets {
        var i :| 0 <= i < |targets| && targets[i] == t;
        assert entries[i].target == t;
      }
    }
  }

  function LastStatuses(h: History): (ss: seq<Status>)
    ensures |ss| == |h.entries| && forall i {:trigger ss[i]} :: 0 <= i < |h.entries| ==> ss[i] == h.entries[i].last
  {
    seq(|h.entries|, i requires 0 <= i < |h.entries| => h.entries[i].last)
  }

  function Trends(h: History): (ts: seq<Trend>)
    ensures |ts| == |h.entries| && forall i {:trigger ts[i]} :: 0 <= i < |h.entries| ==> ts[i] == h.entries[i].trend
  {
    seq(|h.entries|, i requires 0 <= i < |h.entries| => h.entries[i].trend)
  }

  // ---------------------------------------------------------------- what the samples are

  /** The report says this of the target at its time. */
  predicate Shows(report: HealthReport, target: AgentId, x: Sample) {
    x.at == report.at
    && exists i :: 0 <= i < |report.routes| && report.routes[i].target == target
         && report.routes[i].mode == x.mode && report.routes[i].status == x.status
  }

  lemma {:induction false} SamplesInShow(report: HealthReport, n: nat, target: AgentId, x: Sample)
    requires n <= |report.routes|
    ensures x in SamplesIn(report, n, target) <==>
      x.at == report.at
      && exists i :: 0 <= i < n && report.routes[i].target == target
           && report.routes[i].mode == x.mode && report.routes[i].status == x.status
  {
    if n > 0 {
      SamplesInShow(report, n - 1, target, x);
    }
  }

  /** The samples of a target are what the reports say of it. */
  lemma {:induction false} SamplesShow(reports: seq<HealthReport>, k: nat, target: AgentId, x: Sample)
    requires k <= |reports|
    ensures x in SamplesOf(reports, k, target) <==> exists j :: 0 <= j < k && Shows(reports[j], target, x)
  {
    if k > 0 {
      SamplesShow(reports, k - 1, target, x);
      SamplesInShow(reports[k - 1], |reports[k - 1].routes|, target, x);
    }
  }

  predicate OldestFirst(xs: seq<Sample>) {
    && (forall i :: 0 <= i < |xs| ==> xs[i].at.Some?)
    && forall i, j :: 0 <= i < j < |xs| ==> xs[i].at.value <= xs[j].at.value
  }

  /** From reports in time order they are in time order. */
  lemma {:induction false} SamplesInOrder(reports: seq<HealthReport>, k: nat, target: AgentId)
    requires k <= |reports| && Dated(reports) && Ascending(reports)
    ensures OldestFirst(SamplesOf(reports, k, target))
  {
    if k > 0 {
      SamplesInOrder(reports, k - 1, target);
      var before := SamplesOf(reports, k - 1, target);
      var more := SamplesIn(reports[k - 1], |reports[k - 1].routes|, target);
      forall x | x in more ensures x.at == reports[k - 1].at {
        SamplesInShow(reports[k - 1], |reports[k - 1].routes|, target, x);
      }
      forall x | x in before ensures x.at.Some? && x.at.value <= reports[k - 1].at.value {
        SamplesShow(reports, k - 1, target, x);
        var j :| 0 <= j < k - 1 && Shows(reports[j], target, x);
        assert When(reports[j]) <= When(reports[k - 1]);
      }
      LaterSamplesFollow(before, more, reports[k - 1].at);
    }
  }

  lemma LaterSamplesFollow(before: seq<Sample>, more: seq<Sample>, at: TimeText)
    requires at.Some? && OldestFirst(before) && forall x :: x in more ==> x.at == at
    requires forall x :: x in before ==> x.at.Some? && x.at.value <= at.value
    ensures OldestFirst(before + more)
  {
    var xs := before + more;
    forall i | 0 <= i < |xs|
      ensures xs[i].at.Some? && xs[i].at.value <= at.value && (i >= |before| ==> xs[i].at == at)
    {
      assert xs[i] in before || xs[i] in more;
    }
  }

  // ---------------------------------------------------------------- steady routes

  /** Every report says `status` of the target, once. */
  predicate Steady(reports: seq<HealthReport>, target: AgentId, status: Status) {
    forall k :: 0 <= k < |reports| ==> SaysOnce(reports[k], target, status)
  }

  predicate SaysOnce(report: HealthReport, target: AgentId, status: Status) {
    && (exists i :: 0 <= i < |report.routes| && report.routes[i].target == target && report.routes[i].status == status)
    && (forall i, j :: 0 <= i < j < |report.routes| ==> report.routes[i].target != report.routes[j].target)
  }

  lemma {:induction false} SamplesOnce(report: HealthReport, n: nat, target: AgentId, status: Status)
    requires n <= |report.routes| && SaysOnce(report, target, status)
    ensures |SamplesIn(report, n, target)| <= 1
    ensures forall s :: s in SamplesIn(report, n, target) ==> s.status == status
    ensures |SamplesIn(report, n, target)| == 1 <==> exists i :: 0 <= i < n && report.routes[i].target == target
  {
    if n > 0 {
      SamplesOnce(report, n - 1, target, status);
    }
  }

  lemma {:induction false} SteadySamples(reports: seq<HealthReport>, k: nat, target: AgentId, status: Status)
    requires k <= |reports| && Steady(reports, target, status)
    ensures |SamplesOf(reports, k, target)| == k
    ensures forall s :: s in SamplesOf(reports, k, target) ==> s.status == status
  {
    if k > 0 {
      SteadySamples(reports, k - 1, target, status);
      assert SaysOnce(reports[k - 1], target, status);
      SamplesOnce(reports[k - 1], |reports[k - 1].routes|, target, status);
    }
  }

  /** A route that every one of several reports sees alike is stable and keeps its status. */
  lemma SteadyIsStable(reports: seq<HealthReport>, h: History, i: nat, status: Status)
    requires IsHistory(reports, h) && |reports| >= 2 && i < |h.entries| && Steady(reports, h.entries[i].target, status)
    ensures h.entries[i].last == status && h.entries[i].trend == Stable && h.entries[i].samples == |reports|
  {
    var target, sorted := h.entries[i].target, InOrder(reports);
    InOrderSorts(reports);
    forall k | 0 <= k < |sorted| ensures SaysOnce(sorted[k], target, status) {
      assert sorted[k] in multiset(sorted);
      assert sorted[k] in reports;
    }
    SteadySamples(sorted, |sorted|, target, status);
    var samples := SamplesOf(sorted, |sorted|, target);
    assert samples[0] in samples && samples[|samples| - 1] in samples;
    forall j | 0 <= j < |samples| ensures StatusesOf(samples)[j] == status {
      assert samples[j] in samples;
    }
  }

  /** And a steady route is in the history. */
  lemma SteadyIsTracked(reports: seq<HealthReport>, h: History, target: AgentId, status: Status)
    requires IsHistory(reports, h) && Steady(reports, target, status)
    ensures exists i :: 0 <= i < |h.entries| && h.entries[i].target == target
  {
    var sorted := InOrder(reports);
    InOrderSorts(reports);
    forall k | 0 <= k < |sorted| ensures SaysOnce(sorted[k], target, status) {
      assert sorted[k] in multiset(sorted);
      assert sorted[k] in reports;
    }
    SteadySamples(sorted, |sorted|, target, status);
  }
}
