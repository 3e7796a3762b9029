/**
 The agent's verified package update.

 Package manager, download and signature tools are oracles: each call comes with what they
 would answer. The device keeps one installed version per package, which only the agent's installs
 change; an installed version is read truthfully when it can be read at all.
 */
module ApkUpdate {
  import opened Wrappers

  /** `allowDowngrade` only adds a flag to the install command; the oracle's answer is for the command as given. */
  datatype Manifest = Manifest(package: string, version: int, launchAfterInstall: bool, allowDowngrade: bool)

  /** `effective`: the install changes what is on the device, whatever its exit code says. */
  datatype Oracle = Oracle(
    shellAvailable: bool,
    readable: bool,
    downloads: bool,
    metadataMatches: bool,
    installSucceeds: bool,
    effective: bool,
    readsBack: bool,
    launchSucceeds: bool)

  datatype Rollback =
    | NotAttempted
    | PreviousRecorded
    | PreviousUnknown
    | RetainedOrUnknown
    | VersionMismatch
    | NotNeeded

  datatype Report = Report(attempted: bool, previous: Option<int>, installed: Option<int>, rollback: Rollback)

  datatype Status = Rejected | Completed | Failed | NotNewer | Remembered(previous: Report)

  /** `manifest` is `None` when the request's manifest was refused; `key` is "" when there is none. */
  datatype Request = Request(manifest: Option<Manifest>, key: string)

  datatype Result = Result(status: Status, report: Option<Report>)

  type Device = map<string, int>

  datatype Agent = Agent(completed: map<string, Report>, device: Device)

  function Read(device: Device, package: string, readable: bool): Option<int> {
    if readable && package in device then Some(device[package]) else None
  }

  function AfterInstall(device: Device, m: Manifest, effective: bool): Device {
    if effective then device[m.package := m.version] else device
  }

  function Remember(completed: map<string, Report>, key: string, report: Report): map<string, Report> {
    if key == "" then completed else completed[key := report]
  }

  function Update(a: Agent, q: Request, o: Oracle): (Agent, Result) {
    if q.manifest.None? then (a, Result(Rejected, None))
    else if q.key in a.completed then (a, Result(Remembered(a.completed[q.key]), Some(a.completed[q.key])))
    else if !o.shellAvailable then (a, Result(Rejected, Some(Report(false, None, None, NotAttempted))))
    else
      var m := q.manifest.value;
      var previous := Read(a.device, m.package, o.readable);
      var recorded := if previous.Some? then PreviousRecorded else PreviousUnknown;
      if previous.Some? && previous.value >= m.version then
        var report := Report(false, previous, previous, recorded);
        (a.(completed := Remember(a.completed, q.key, report)), Result(NotNewer, Some(report)))
      else if !o.downloads || !o.metadataMatches then
        (a, Result(Rejected, Some(Report(false, previous, None, recorded))))
      else
        var b := a.(device := AfterInstall(a.device, m, o.effective));
        if !o.installSucceeds then (b, Result(Failed, Some(Report(true, previous, None, RetainedOrUnknown))))
        else
          var installed := Read(b.device, m.package, o.readsBack);
          if installed != Some(m.version) then
            (b, Result(Failed, Some(Report(true, previous, installed, VersionMismatch))))
          else
            var report := Report(true, previous, installed, NotNeeded);
            var launched := !m.launchAfterInstall || o.launchSucceeds;
            (b.(completed := Remember(b.completed, q.key, report)),
             Result(if launched then Completed else Failed, Some(report)))
  }

  class DeviceState {
    var versions: Device

    constructor ()
      ensures versions == map[]
    {
      versions := map[];
    }

    method InstalledVersion(package: string, readable: bool) returns (version: Option<int>)
      ensures version == Read(versions, package, readable)
    {
      version := if readable && package in versions then Some(versions[package]) else None;
    }

    method Install(m: Manifest, o: Oracle) returns (succeeded: bool)
      modifies this
      ensures versions == AfterInstall(old(versions), m, o.effective) && succeeded == o.installSucceeds
    {
      if o.effective {
        versions := versions[m.package := m.version];
      }
      return o.installSucceeds;
    }
  }

  class AgentState {
    const device: DeviceState
    var completed: map<string, Report>

    constructor (device: DeviceState)
      ensures this.device == device && completed == map[]
    {
      this.device, completed := device, map[];
    }

    ghost function Contents(): Agent
      reads this, device
    {
      Agent(completed, device.versions)
    }

    method RememberResult(key: string, report: Report)
      modifies this
      ensures completed == Remember(old(completed), key, report)
    {
      if key != "" {
        completed := completed[key := report];
      }
    }

    method RunUpdate(q: Request, o: Oracle) returns (result: Result)
      modifies this, device
      ensures (Contents(), result) == Update(old(Contents()), q, o)
    {
      if q.manifest.None? {
        return Result(Rejected, None);
      }
      if q.key in completed {
        return Result(Remembered(completed[q.key]), Some(completed[q.key]));
      }
      if !o.shellAvailable {
        return Result(Rejected, Some(Report(false, None, None, NotAttempted)));
      }
      var m := q.manifest.value;
      var previous := device.InstalledVersion(m.package, o.readable);
      var report := Report(false, previous, None, if previous.Some? then PreviousRecorded else PreviousUnknown);
      if previous.Some? && previous.value >= m.version {
        report := report.(installed := previous);
        RememberResult(q.key, report);
        return Result(NotNewer, Some(report));
      }
      if !o.downloads || !o.metadataMatches {
        return Result(Rejected, Some(report));
      }
      var succeeded := device.Install(m, o);
      report := report.(attempted := true);
      if !succeeded {
        return Result(Failed, Some(report.(rollback := RetainedOrUnknown)));
      }
      var installed := device.InstalledVersion(m.package, o.readsBack);
      report := report.(installed := installed);
      if installed != Some(m.version) {
        return Result(Failed, Some(report.(rollback := VersionMismatch)));
      }
      report := report.(rollback := NotNeeded);
      RememberResult(q.key, report);
      return Result(if m.launchAfterInstall && !o.launchSucceeds then Failed else Completed, Some(report));
    }
  }

  // ---------------------------------------------------------------- runs

  datatype Call = Call(request: Request, oracle: Oracle)

  datatype Entry = Entry(request: Request, result: Result)

  function Run(device: Device, calls: seq<Call>): (outcome: (Agent, seq<Entry>))
    ensures |outcome.1| == |calls|
  {
    if calls == [] then (Agent(map[], device), [])
    else
      var (a, log) := Run(device, calls[..|calls| - 1]);
      var c := calls[|calls| - 1];
      var (b, result) := Update(a, c.request, c.oracle);
      (b, log + [Entry(c.request, result)])
  }

  /** The call itself installed its manifest's version and read it back. */
  predicate Verified(e: Entry) {
    && e.request.manifest.Some? && !e.result.status.Remembered?
    && e.result.report.Some? && e.result.report.value.attempted
    && e.result.report.value.rollback.NotNeeded?
  }

  /** The call itself ran the package manager. */
  predicate Attempted(e: Entry) {
    !e.result.status.Remembered? && e.result.report.Some? && e.result.report.value.attempted
  }

  /** One call: what it attempts, verifies, remembers and leaves on the device. */
  lemma UpdateStep(a: Agent, q: Request, o: Oracle)
    ensures var (b, r) := Update(a, q, o);
      var e := Entry(q, r);
      && (Attempted(e) ==> q.manifest.Some? && q.key !in a.completed)
      && (Attempted(e) && o.readable && q.manifest.value.package in a.device ==>
          a.device[q.manifest.value.package] < q.manifest.value.version)
      && (Verified(e) ==> Attempted(e) && (q.key != "" ==> q.key in b.completed))
      && (Verified(e) ==> q.manifest.value.package in b.device)
      && (Verified(e) ==> b.device[q.manifest.value.package] == q.manifest.value.version)
      && (forall k :: k in a.completed ==> k in b.completed && b.completed[k] == a.completed[k])
      && (b.device == a.device
          || (Attempted(e) && b.device == a.device[q.manifest.value.package := q.manifest.value.version]))
  {
  }

  ghost predicate RememberedKeys(completed: map<string, Report>, log: seq<Entry>) {
    forall i :: 0 <= i < |log| && Verified(log[i]) && log[i].request.key != "" ==> log[i].request.key in completed
  }

  /** No key is installed again once a verified install was made under it. */
  ghost predicate OncePerKey(log: seq<Entry>) {
    forall i, j :: 0 <= i < j < |log| && Verified(log[i]) && log[i].request.key != ""
      && log[j].request.key == log[i].request.key
      ==> !Attempted(log[j])
  }

  /** Each non-empty idempotency key has at most one verified install, and no install attempt after it. */
  lemma {:induction false} VerifiedOncePerKey(device: Device, calls: seq<Call>)
    ensures var (a, log) := Run(device, calls);
      RememberedKeys(a.completed, log) && OncePerKey(log)
  {
    if calls != [] {
      var c := calls[|calls| - 1];
      VerifiedOncePerKey(device, calls[..|calls| - 1]);
      var (a, log) := Run(device, calls[..|calls| - 1]);
      UpdateStep(a, c.request, c.oracle);
    }
  }

  /** An installed version can always be read. */
  ghost predicate AlwaysReadable(calls: seq<Call>) {
    forall c :: c in calls ==> c.oracle.readable
  }

  /** Nothing verified so far is newer than what the device holds. */
  ghost predicate DeviceHolds(device: Device, log: seq<Entry>) {
    forall i :: 0 <= i < |log| && Verified(log[i]) ==>
      log[i].request.manifest.value.package in device
      && log[i].request.manifest.value.version <= device[log[i].request.manifest.value.package]
  }

  ghost predicate VersionsIncrease(log: seq<Entry>) {
    forall i, j :: 0 <= i < j < |log| && Verified(log[i]) && Verified(log[j])
      && log[i].request.manifest.value.package == log[j].request.manifest.value.package
      ==> log[i].request.manifest.value.version < log[j].request.manifest.value.version
  }

  /**
   The verified versions of a package strictly increase, even when manifests allow a downgrade, as long
   as nothing but the agent changes the device.
   */
  lemma {:induction false} VerifiedVersionsIncrease(device: Device, calls: seq<Call>)
    requires AlwaysReadable(calls)
    ensures var (a, log) := Run(device, calls);
      VersionsIncrease(log) && DeviceHolds(a.device, log)
  {
    if calls != [] {
      var n := |calls| - 1;
      var c := calls[n];
      assert calls == calls[..n] + [c];
      assert AlwaysReadable(calls[..n]) && c in calls;
      VerifiedVersionsIncrease(device, calls[..n]);
      var (a, log) := Run(device, calls[..n]);
      UpdateStep(a, c.request, c.oracle);
    }
  }

  /** The device holds the manifest's version of the package, or a newer one. */
  predicate HoldsNewer(device: Device, m: Manifest) {
    m.package in device && m.version <= device[m.package]
  }

  /** The manifest was taken, is not settled under its key, and its package was fetched and checked. */
  predicate PassesOtherGates(a: Agent, q: Request, o: Oracle) {
    q.manifest.Some? && q.key !in a.completed && o.shellAvailable && o.downloads && o.metadataMatches
  }

  /**
   A call installs over an equal or newer version exactly when that version could not be read and no
   other gate stopped it; such an install is verified exactly when the install command succeeds and the
   manifest's version is then on the device and read back.
   */
  lemma InstallsOverNewerIff(a: Agent, q: Request, o: Oracle)
    ensures var (after, result) := Update(a, q, o);
      var e := Entry(q, result);
      && (Attempted(e) && HoldsNewer(a.device, q.manifest.value)
          <==> PassesOtherGates(a, q, o) && HoldsNewer(a.device, q.manifest.value) && !o.readable)
      && (Attempted(e) && HoldsNewer(a.device, q.manifest.value) ==>
          (Verified(e) <==> o.installSucceeds && o.readsBack
                            && after.device[q.manifest.value.package] == q.manifest.value.version))
  {
  }

  /** The install goes ahead: no other gate stopped it, and no equal or newer version was read. */
  predicate Installs(a: Agent, q: Request, o: Oracle) {
    PassesOtherGates(a, q, o) && !(o.readable && HoldsNewer(a.device, q.manifest.value))
  }

  /** Afterwards the manifest's version is on the device and read back. */
  predicate ReadsBack(device: Device, m: Manifest, o: Oracle) {
    o.readsBack && m.package in device && device[m.package] == m.version
  }

  /**
   The status by the gates and the tools. An install that works and reads back is remembered whether or not
   the launch after it succeeds, and a failed launch is all that makes it a failure.
   */
  lemma StatusTells(a: Agent, q: Request, o: Oracle)
    ensures var (b, result) := Update(a, q, o);
      var known := q.manifest.Some? && q.key in a.completed;
      var back := q.manifest.Some? && ReadsBack(b.device, q.manifest.value, o);
      var launched := q.manifest.Some? && (q.manifest.value.launchAfterInstall ==> o.launchSucceeds);
      && (result.status.Remembered? <==> known)
      && (known ==> result.status == Remembered(a.completed[q.key]) && b == a)
      && (result.status == NotNewer <==>
            q.manifest.Some? && !known && o.shellAvailable && o.readable && HoldsNewer(a.device, q.manifest.value))
      && (result.status == Completed <==> Installs(a, q, o) && o.installSucceeds && back && launched)
      && (result.status == Failed <==> Installs(a, q, o) && !(o.installSucceeds && back && launched))
      && (Installs(a, q, o) ==>
            b.device == if o.effective then a.device[q.manifest.value.package := q.manifest.value.version]
                        else a.device)
      && (!Installs(a, q, o) ==> b.device == a.device)
      && (b.completed == a.completed
          || ((result.status == NotNewer || (Installs(a, q, o) && o.installSucceeds && back)) && q.key != ""
              && result.report.Some? && b.completed == a.completed[q.key := result.report.value]))
      && ((result.status == NotNewer || (Installs(a, q, o) && o.installSucceeds && back)) && q.key != "" ==>
            q.key in b.completed)
  {
  }

  /** Version 1 requested over an installed version 2 that does not read: it is installed and verified. */
  lemma OldVersionVerified()
    ensures var q := Request(Some(Manifest("app", 1, false, false)), "k");
      var o := Oracle(true, false, true, true, true, true, true, true);
      var (after, result) := Update(Agent(map[], map["app" := 2]), q, o);
      result.status.Completed? && Verified(Entry(q, result)) && after.device == map["app" := 1]
  {
    var m := Manifest("app", 1, false, false);
    assert AfterInstall(map["app" := 2], m, true) == map["app" := 1];
  }
}
