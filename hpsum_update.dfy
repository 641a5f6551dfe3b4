/**
  The update orchestrator, `update_firmware`: validate the image URL, swap the
  iLO's CDROM virtual media for the SPP image, wait, find the image's device
  by its label, verify the device's checksum, mount it on a fresh temporary
  directory, run the executor, unmount, and always remove the temporary
  directory once it exists.

  Every collaborator is an input outcome (`Outcomes`): the URL validator, the
  iLO eject and insert calls, the by-label directory listing and the paths
  that exist, the checksum verifier, `mkdtemp`, `mount`, the hpsum run, the
  log the run leaves and `umount`.  `Plan` gives the actions taken and the
  outcome as values; `UpdateFirmware` takes the same steps on a `Host`.
  `PlanWith` is `Plan` with the parsed component list and the executor's
  result left open, so the properties proved about it hold whatever the
  executor returns.
*/
module HpsumUpdate {
  import opened Wrappers
  import opened PyLib
  import opened HpsumOutput
  import opened HostModel
  import opened HpsumExecutor

  const HpsumLocation := "hp/swpackages/hpsum"
  const Cdrom := "CDROM"
  const SettleSeconds := 5
  const LabelDir := "/dev/disk/by-label/"
  const DeviceNotFound := "Unable to find the virtual media device for HPSUM"
  const MountErrorPrefix := "Unable to mount virtual media device "

  /** The fields of the node's first firmware image that the update reads. */
  datatype Request = Request(url: string, checksum: string, component: Option<string>)

  /** What each collaborator does when it is called; an error is `Some(message)`. */
  datatype Outcomes = Outcomes(
    hrefError: Option<string>,
    ejectError: Option<IloFault>,
    insertError: Option<IloFault>,
    labels: seq<string>,
    existing: set<string>,
    checksumError: Option<string>,
    tempDir: string,
    mountError: Option<string>,
    hpsum: ProcessOutcome,
    log: Option<string>,
    umountOk: bool)

  /** The actions an update takes, in order, and how it ends. */
  datatype Run = Run(trace: seq<Action>, result: Result<Option<string>, Failure>)

  /** `fnmatch(name, 'SPP*')`: the name starts with "SPP" (case-sensitive, as on POSIX). */
  predicate MatchesSpp(name: string) {
    |name| >= 3 && name[..3] == "SPP"
  }

  /** The index of the last entry that matches, if any. */
  function LastSpp(entries: seq<string>): (k: Option<nat>)
    ensures k.Some? ==> k.value < |entries|
  {
    if entries == [] then None
    else if MatchesSpp(entries[|entries| - 1]) then Some(|entries| - 1)
    else LastSpp(entries[..|entries| - 1])
  }

  /** The device path the scan leaves bound, or None when no entry matched and the name was never bound. */
  function ScannedDevice(entries: seq<string>): Option<string>
  {
    match LastSpp(entries)
    case None => None
    case Some(k) => Some(PathJoin(LabelDir, entries[k]))
  }

  /** The scan finds nothing exactly when no entry matches; otherwise it finds a match after which no entry matches. */
  lemma {:induction false} LastSppIsLastMatch(entries: seq<string>)
    ensures LastSpp(entries).None? <==> forall k :: 0 <= k < |entries| ==> !MatchesSpp(entries[k])
    ensures LastSpp(entries).Some? ==>
      var k := LastSpp(entries).value;
      MatchesSpp(entries[k]) && forall j :: k < j < |entries| ==> !MatchesSpp(entries[j])
  {
    if entries != [] && !MatchesSpp(entries[|entries| - 1]) {
      var init := entries[..|entries| - 1];
      LastSppIsLastMatch(init);
      assert forall k :: 0 <= k < |init| ==> init[k] == entries[k];
    }
  }

  /** The loop over `os.listdir`: every matching entry overwrites the device path, so the last match wins. */
  method FindVmediaDevice(entries: seq<string>) returns (device: Option<string>)
    ensures device == ScannedDevice(entries)
  {
    device := None;
    for i := 0 to |entries|
      invariant device == ScannedDevice(entries[..i])
    {
      assert entries[..i + 1][..i] == entries[..i];
      if MatchesSpp(entries[i]) {
        device := Some(PathJoin(LabelDir, entries[i]));
      }
    }
    assert entries[..|entries|] == entries;
  }

  /** With one SPP entry that one is found; with two the later one is; with none the name stays unbound. */
  lemma ScanExamples()
    ensures ScannedDevice(["SPP-2024", "OTHER-1"]) == Some(LabelDir + "SPP-2024")
    ensures ScannedDevice(["SPP-A", "SPP-B"]) == Some(LabelDir + "SPP-B")
    ensures ScannedDevice(["OTHER-1"]) == None
  {
    assert LabelDir[|LabelDir| - 1] == '/';
    assert !MatchesSpp("OTHER-1") by { assert "OTHER-1"[..3] == "OTH"; }
    assert MatchesSpp("SPP-2024") by { assert "SPP-2024"[..3] == "SPP"; }
    assert MatchesSpp("SPP-B") by { assert "SPP-B"[..3] == "SPP"; }
    assert ["SPP-2024", "OTHER-1"][..1] == ["SPP-2024"];
    assert ["OTHER-1"][..0] == [];
  }

  /** `components.strip().split(',')` when the component field is set and non-empty; None otherwise. */
  function ComponentList(component: Option<string>): Option<seq<string>>
  {
    match component
    case None => None
    case Some(c) => if c == [] then None else Some(Split(Strip(c), ","))
  }

  /** The component list joined back with commas is the stripped field, and no component contains a comma. */
  lemma ComponentListRoundTrip(c: string)
    requires c != []
    ensures ComponentList(Some(c)).Some?
    ensures Join(ComponentList(Some(c)).value, ",") == Strip(c)
    ensures forall k :: 0 <= k < |ComponentList(Some(c)).value| ==> !Contains(ComponentList(Some(c)).value[k], ",")
  {
    JoinSplit(Strip(c), ",");
    SplitPiecesAvoidSeparator(Strip(c), ",");
  }

  /** The hpsum invocation the try block makes for a mount point and a component list. */
  function RunFor(dir: string, components: Option<seq<string>>): Action
  {
    RunHpsum(HpsumArgs(PathJoin(dir, HpsumLocation), components))
  }

  /**
    The try block: mount, run the executor on `components`, and unmount only
    when the executor returned normally; `executed` is what the executor
    returns.
  */
  function Mounted(env: Outcomes, device: string, components: Option<seq<string>>,
                   executed: Result<Option<string>, Failure>): Run
  {
    var dir := env.tempDir;
    var mount := Mount(device, dir, env.mountError.None?);
    if env.mountError.Some? then
      Run([mount], Err(HpsumOperationError(MountErrorPrefix + device + ": " + env.mountError.value)))
    else
      var run := RunFor(dir, components);
      match executed
      case Err(e) => Run([mount, run], Err(e))
      case Ok(v) => Run([mount, run, Umount(dir, env.umountOk)], Ok(v))
  }

  /** From the device scan on: the actions after the listing of the label directory, and the outcome. */
  function PlanFromScan(req: Request, env: Outcomes, components: Option<seq<string>>,
                        executed: Result<Option<string>, Failure>): Run
  {
    match ScannedDevice(env.labels)
    case None => Run([], Err(UnboundDeviceName))
    case Some(device) =>
      if device !in env.existing then Run([], Err(HpsumOperationError(DeviceNotFound)))
      else if env.checksumError.Some? then
        Run([VerifyChecksum(device, req.checksum, false)], Err(HpsumOperationError(env.checksumError.value)))
      else
        var body := Mounted(env, device, components, executed);
        Run([VerifyChecksum(device, req.checksum, true), MakeTempDir(env.tempDir)] + body.trace + [RemoveTree(env.tempDir)],
            body.result)
  }

  /** The whole update as a value, for a given component list and executor result. */
  function PlanWith(req: Request, env: Outcomes, components: Option<seq<string>>,
                    executed: Result<Option<string>, Failure>): Run
  {
    var validate := ValidateHref(req.url, env.hrefError.None?);
    if env.hrefError.Some? then Run([validate], Err(HpsumOperationError(env.hrefError.value)))
    else
      var eject := EjectMedia(Cdrom, env.ejectError.None?);
      if env.ejectError.Some? then Run([validate, eject], Err(Ilo(env.ejectError.value)))
      else
        var insert := InsertMedia(req.url, Cdrom, env.insertError.None?);
        if env.insertError.Some? then Run([validate, eject, insert], Err(Ilo(env.insertError.value)))
        else
          var rest := PlanFromScan(req, env, components, executed);
          Run([validate, eject, insert, Settle(SettleSeconds), ListLabels(LabelDir)] + rest.trace, rest.result)
  }

  /** The whole update: the component field parsed as the source parses it, and the executor run on the outcomes given. */
  function Plan(req: Request, env: Outcomes): Run
  {
    PlanWith(req, env, ComponentList(req.component), ExecutorResult(env.hpsum, env.log))
  }

  /** The media swap passed: the URL is valid and both iLO calls returned. */
  predicate SwapPasses(env: Outcomes) {
    env.hrefError.None? && env.ejectError.None? && env.insertError.None?
  }

  /** The scan bound a device path and that path exists. */
  predicate DevicePresent(env: Outcomes) {
    ScannedDevice(env.labels).Some? && ScannedDevice(env.labels).value in env.existing
  }

  /** Every check before `mkdtemp` passes: URL, eject, insert, device found and present, checksum. */
  predicate ReachesTempDir(env: Outcomes) {
    SwapPasses(env) && DevicePresent(env) && env.checksumError.None?
  }

  /** The try block on the host: mount, parse the component field, run the executor, and unmount only when it returned normally. */
  method MountAndExecute(host: Host, req: Request, env: Outcomes, deviceFile: string)
    returns (result: Result<Option<string>, Failure>)
    requires host.Valid()
    modifies host
    ensures host.Valid() && host.initial == old(host.initial)
    ensures host.trace == old(host.trace) +
      Mounted(env, deviceFile, ComponentList(req.component), ExecutorResult(env.hpsum, env.log)).trace
    ensures result == Mounted(env, deviceFile, ComponentList(req.component), ExecutorResult(env.hpsum, env.log)).result
  {
    ghost var t0 := host.trace;
    var mountPoint := env.tempDir;
    var mount := Mount(deviceFile, mountPoint, env.mountError.None?);
    host.Perform(mount);
    if env.mountError.Some? {
      return Err(HpsumOperationError(MountErrorPrefix + deviceFile + ": " + env.mountError.value));
    }
    var hpsumFilePath := PathJoin(mountPoint, HpsumLocation);
    var components := ComponentList(req.component);
    result := ExecuteHpsum(host, hpsumFilePath, components, env.hpsum, env.log);
    var run := RunHpsum(HpsumArgs(hpsumFilePath, components));
    assert host.trace == t0 + [mount, run];
    if result.Ok? {
      host.Perform(Umount(mountPoint, env.umountOk));
      assert host.trace == t0 + [mount, run, Umount(mountPoint, env.umountOk)];
    }
  }

  /**
    From the device scan on, on the host: find the device, check that it
    exists, verify its checksum, create the temporary mount point, and run the
    try block with the removal of the mount point as its finally clause.
  */
  method UpdateFromScan(host: Host, req: Request, env: Outcomes) returns (r: Result<Option<string>, Failure>)
    requires host.Valid()
    modifies host
    ensures host.Valid() && host.initial == old(host.initial)
    ensures host.trace == old(host.trace) +
      PlanFromScan(req, env, ComponentList(req.component), ExecutorResult(env.hpsum, env.log)).trace
    ensures r == PlanFromScan(req, env, ComponentList(req.component), ExecutorResult(env.hpsum, env.log)).result
  {
    ghost var t0 := host.trace;
    var device := FindVmediaDevice(env.labels);
    if device.None? {
      assert host.trace == t0 + [];
      return Err(UnboundDeviceName);
    }
    var deviceFile := device.value;
    if deviceFile !in env.existing {
      assert host.trace == t0 + [];
      return Err(HpsumOperationError(DeviceNotFound));
    }
    var verify := VerifyChecksum(deviceFile, req.checksum, env.checksumError.None?);
    host.Perform(verify);
    if env.checksumError.Some? {
      return Err(HpsumOperationError(env.checksumError.value));
    }
    var mountPoint := env.tempDir;
    host.Perform(MakeTempDir(mountPoint));
    ghost var created := [verify, MakeTempDir(mountPoint)];
    assert host.trace == t0 + created;
    // try ... finally: the temporary directory is removed whatever the body does.
    r := MountAndExecute(host, req, env, deviceFile);
    ghost var body := Mounted(env, deviceFile, ComponentList(req.component), ExecutorResult(env.hpsum, env.log)).trace;
    ConcatAssoc(t0, created, body);
    host.Perform(RemoveTree(mountPoint));
    ConcatAssoc(t0, created + body, [RemoveTree(mountPoint)]);
    assert host.trace == t0 + (created + body + [RemoveTree(mountPoint)]);
  }

  /** `update_firmware` on the host. */
  method UpdateFirmware(host: Host, req: Request, env: Outcomes) returns (r: Result<Option<string>, Failure>)
    requires host.Valid()
    modifies host
    ensures host.Valid() && host.initial == old(host.initial)
    ensures host.trace == old(host.trace) + Plan(req, env).trace
    ensures host.State() == Replay(old(host.State()), Plan(req, env).trace)
    ensures r == Plan(req, env).result
  {
    ghost var t0 := host.trace;
    var validate := ValidateHref(req.url, env.hrefError.None?);
    host.Perform(validate);
    if env.hrefError.Some? {
      ReplayAppend(host.initial, t0, [validate]);
      return Err(HpsumOperationError(env.hrefError.value));
    }
    var eject := EjectMedia(Cdrom, env.ejectError.None?);
    host.Perform(eject);
    assert host.trace == t0 + [validate, eject];
    if env.ejectError.Some? {
      ReplayAppend(host.initial, t0, [validate, eject]);
      return Err(Ilo(env.ejectError.value));
    }
    var insert := InsertMedia(req.url, Cdrom, env.insertError.None?);
    host.Perform(insert);
    assert host.trace == t0 + [validate, eject, insert];
    if env.insertError.Some? {
      ReplayAppend(host.initial, t0, [validate, eject, insert]);
      return Err(Ilo(env.insertError.value));
    }
    // Wait for the operating system to see the new disk and publish its label.
    host.Perform(Settle(SettleSeconds));
    host.Perform(ListLabels(LabelDir));
    ghost var swapped := [validate, eject, insert, Settle(SettleSeconds), ListLabels(LabelDir)];
    assert host.trace == t0 + swapped;
    r := UpdateFromScan(host, req, env);
    ghost var rest := PlanFromScan(req, env, ComponentList(req.component), ExecutorResult(env.hpsum, env.log)).trace;
    ConcatAssoc(t0, swapped, rest);
    ReplayAppend(host.initial, t0, Plan(req, env).trace);
  }

  /** The five steps up to the listing of the label directory when the URL, the eject and the insert all pass. */
  function Swapped(req: Request): seq<Action>
  {
    [ValidateHref(req.url, true), EjectMedia(Cdrom, true), InsertMedia(req.url, Cdrom, true),
     Settle(SettleSeconds), ListLabels(LabelDir)]
  }

  /** The six preparation steps when all of them pass. */
  function Checked(req: Request, device: string): seq<Action>
  {
    Swapped(req) + [VerifyChecksum(device, req.checksum, true)]
  }

  /** The try block as the actions after `mkdtemp`, for each way it can go. */
  lemma MountedTraces(env: Outcomes, device: string, components: Option<seq<string>>,
                      executed: Result<Option<string>, Failure>)
    ensures var t := Mounted(env, device, components, executed).trace;
      var run := RunFor(env.tempDir, components);
      if env.mountError.Some? then t == [Mount(device, env.tempDir, false)]
      else if executed.Err? then t == [Mount(device, env.tempDir, true), run]
      else t == [Mount(device, env.tempDir, true), run, Umount(env.tempDir, env.umountOk)]
  {
  }

  /** Every way an update can go, with the exact actions it takes on each. */
  lemma PlanTraces(req: Request, env: Outcomes, components: Option<seq<string>>,
                   executed: Result<Option<string>, Failure>)
    ensures var t := PlanWith(req, env, components, executed).trace;
      if env.hrefError.Some? then t == [ValidateHref(req.url, false)]
      else if env.ejectError.Some? then t == [ValidateHref(req.url, true), EjectMedia(Cdrom, false)]
      else if env.insertError.Some? then
        t == [ValidateHref(req.url, true), EjectMedia(Cdrom, true), InsertMedia(req.url, Cdrom, false)]
      else if !DevicePresent(env) then t == Swapped(req)
      else
        var device := ScannedDevice(env.labels).value;
        if env.checksumError.Some? then t == Swapped(req) + [VerifyChecksum(device, req.checksum, false)]
        else (t == Checked(req, device) + [MakeTempDir(env.tempDir)] +
                   Mounted(env, device, components, executed).trace + [RemoveTree(env.tempDir)])
  {
    if ReachesTempDir(env) {
      var device := ScannedDevice(env.labels).value;
      var body := Mounted(env, device, components, executed).trace;
      var t := PlanWith(req, env, components, executed).trace;
      assert t == Swapped(req) + ([VerifyChecksum(device, req.checksum, true), MakeTempDir(env.tempDir)] + body + [RemoveTree(env.tempDir)]);
      assert t == Swapped(req) + [VerifyChecksum(device, req.checksum, true)] + [MakeTempDir(env.tempDir)] + body + [RemoveTree(env.tempDir)];
    } else if SwapPasses(env) && !DevicePresent(env) {
      assert PlanWith(req, env, components, executed).trace == Swapped(req) + [];
    }
  }

  /** What every way an update can go returns. */
  lemma PlanResults(req: Request, env: Outcomes, components: Option<seq<string>>,
                    executed: Result<Option<string>, Failure>)
    ensures var r := PlanWith(req, env, components, executed).result;
      if env.hrefError.Some? then r == Err(HpsumOperationError(env.hrefError.value))
      else if env.ejectError.Some? then r == Err(Ilo(env.ejectError.value))
      else if env.insertError.Some? then r == Err(Ilo(env.insertError.value))
      else if ScannedDevice(env.labels).None? then r == Err(UnboundDeviceName)
      else if ScannedDevice(env.labels).value !in env.existing then r == Err(HpsumOperationError(DeviceNotFound))
      else if env.checksumError.Some? then r == Err(HpsumOperationError(env.checksumError.value))
      else if env.mountError.Some? then
        r == Err(HpsumOperationError(MountErrorPrefix + ScannedDevice(env.labels).value + ": " + env.mountError.value))
      else r == executed
  {
  }

  /** The URL is validated first; a failed validation ends the update with nothing else done and the host untouched. */
  lemma ValidationComesFirst(req: Request, env: Outcomes, components: Option<seq<string>>,
                             executed: Result<Option<string>, Failure>, s: HostState)
    ensures var t := PlanWith(req, env, components, executed).trace;
      |t| >= 1 && t[0] == ValidateHref(req.url, env.hrefError.None?)
    ensures env.hrefError.Some? ==>
      var run := PlanWith(req, env, components, executed);
      && run.trace == [ValidateHref(req.url, false)]
      && run.result == Err(HpsumOperationError(env.hrefError.value))
      && Replay(s, run.trace) == s
  {
    PlanTraces(req, env, components, executed);
    if env.hrefError.Some? {
      ReplaySnoc(s, [], ValidateHref(req.url, false));
      assert [] + [ValidateHref(req.url, false)] == [ValidateHref(req.url, false)];
    }
  }

  /** None of the actions is a virtual media call. */
  predicate NoMediaCalls(t: seq<Action>) {
    forall k :: 0 <= k < |t| ==> !t[k].EjectMedia? && !t[k].InsertMedia?
  }

  /** Once the media swap has passed, the update goes on from the device scan and makes no further virtual media call. */
  lemma NoMediaCallsAfterSwap(req: Request, env: Outcomes, components: Option<seq<string>>,
                              executed: Result<Option<string>, Failure>)
    requires SwapPasses(env)
    ensures PlanWith(req, env, components, executed).trace ==
      Swapped(req) + PlanFromScan(req, env, components, executed).trace
    ensures NoMediaCalls(PlanFromScan(req, env, components, executed).trace)
  {
    if DevicePresent(env) && env.checksumError.None? {
      MountedTraces(env, ScannedDevice(env.labels).value, components, executed);
    }
  }

  /** The only media actions are an eject of CDROM as the second step and, right after a successful eject, an insert of the URL into CDROM. */
  lemma MediaSwapOrder(req: Request, env: Outcomes, components: Option<seq<string>>,
                       executed: Result<Option<string>, Failure>)
    ensures var t := PlanWith(req, env, components, executed).trace;
      forall k :: 0 <= k < |t| && t[k].EjectMedia? ==> k == 1 && t[k].slot == Cdrom
    ensures var t := PlanWith(req, env, components, executed).trace;
      forall k :: 0 <= k < |t| && t[k].InsertMedia? ==>
        k == 2 && t[1] == EjectMedia(Cdrom, true) && t[k].slot == Cdrom && t[k].url == req.url
  {
    var t := PlanWith(req, env, components, executed).trace;
    if SwapPasses(env) {
      NoMediaCallsAfterSwap(req, env, components, executed);
      var rest := PlanFromScan(req, env, components, executed).trace;
      forall k | 5 <= k < |t| ensures !t[k].EjectMedia? && !t[k].InsertMedia? {
        assert t[k] == rest[k - 5];
      }
    } else {
      PlanTraces(req, env, components, executed);
    }
  }

  /** A run that reaches `mkdtemp`, action by action, for each way the try block can go. */
  lemma ReachedTraces(req: Request, env: Outcomes, components: Option<seq<string>>,
                      executed: Result<Option<string>, Failure>)
    requires ReachesTempDir(env)
    ensures var t := PlanWith(req, env, components, executed).trace;
      var d := ScannedDevice(env.labels).value;
      var dir := env.tempDir;
      var prep := [ValidateHref(req.url, true), EjectMedia(Cdrom, true), InsertMedia(req.url, Cdrom, true),
                   Settle(SettleSeconds), ListLabels(LabelDir), VerifyChecksum(d, req.checksum, true), MakeTempDir(dir)];
      if env.mountError.Some? then t == prep + [Mount(d, dir, false), RemoveTree(dir)]
      else if executed.Err? then t == prep + [Mount(d, dir, true), RunFor(dir, components), RemoveTree(dir)]
      else t == prep + [Mount(d, dir, true), RunFor(dir, components), Umount(dir, env.umountOk), RemoveTree(dir)]
  {
    PlanTraces(req, env, components, executed);
    MountedTraces(env, ScannedDevice(env.labels).value, components, executed);
  }

  /** The temporary directory is created right after a passing checksum of the scanned device, and the mount comes right after it. */
  lemma ChecksumBeforeMount(req: Request, env: Outcomes, components: Option<seq<string>>,
                            executed: Result<Option<string>, Failure>)
    ensures var t := PlanWith(req, env, components, executed).trace;
      forall k :: 0 <= k < |t| && t[k].MakeTempDir? ==>
        k == 6 && ScannedDevice(env.labels).Some? &&
        t[5] == VerifyChecksum(ScannedDevice(env.labels).value, req.checksum, true)
    ensures var t := PlanWith(req, env, components, executed).trace;
      forall k :: 0 <= k < |t| && t[k].Mount? ==>
        k == 7 && t[6] == MakeTempDir(env.tempDir) && t[k].dir == env.tempDir
  {
    if ReachesTempDir(env) {
      ReachedTraces(req, env, components, executed);
    } else {
      PlanTraces(req, env, components, executed);
    }
  }

  /** hpsum runs only on the scanned, existing, checksum-verified device, mounted successfully on the temporary directory. */
  lemma HpsumRunsOnVerifiedDevice(req: Request, env: Outcomes, components: Option<seq<string>>,
                                  executed: Result<Option<string>, Failure>)
    ensures var t := PlanWith(req, env, components, executed).trace;
      forall k :: 0 <= k < |t| && t[k].RunHpsum? ==>
        && k == 8 && ReachesTempDir(env) && env.mountError.None?
        && t[5] == VerifyChecksum(ScannedDevice(env.labels).value, req.checksum, true)
        && t[7] == Mount(ScannedDevice(env.labels).value, env.tempDir, true)
        && t[k].args == HpsumArgs(PathJoin(env.tempDir, HpsumLocation), components)
  {
    if ReachesTempDir(env) {
      ReachedTraces(req, env, components, executed);
    } else {
      PlanTraces(req, env, components, executed);
    }
  }

  /** `mkdtemp` runs exactly when every check before it passes. */
  lemma TempDirExactlyWhenChecksPass(req: Request, env: Outcomes, components: Option<seq<string>>,
                                     executed: Result<Option<string>, Failure>)
    ensures MakeTempDir(env.tempDir) in PlanWith(req, env, components, executed).trace <==> ReachesTempDir(env)
  {
    var t := PlanWith(req, env, components, executed).trace;
    if ReachesTempDir(env) {
      ReachedTraces(req, env, components, executed);
      assert t[6] == MakeTempDir(env.tempDir);
    } else {
      PlanTraces(req, env, components, executed);
      assert forall k :: 0 <= k < |t| ==> !t[k].MakeTempDir?;
    }
  }

  /**
    Once `mkdtemp` has run the directory is removed, exactly once and as the
    very last action; without `mkdtemp` nothing is removed.
  */
  lemma CleanupOnEveryPath(req: Request, env: Outcomes, components: Option<seq<string>>,
                           executed: Result<Option<string>, Failure>)
    ensures var t := PlanWith(req, env, components, executed).trace;
      forall k :: 0 <= k < |t| && t[k].RemoveTree? ==> k == |t| - 1 && t[k].dir == env.tempDir && ReachesTempDir(env)
    ensures var t := PlanWith(req, env, components, executed).trace;
      ReachesTempDir(env) ==> t[|t| - 1] == RemoveTree(env.tempDir)
  {
    if ReachesTempDir(env) {
      ReachedTraces(req, env, components, executed);
    } else {
      PlanTraces(req, env, components, executed);
    }
  }

  /** The try block and the removal, replayed from a state where the fresh directory exists and is not a mount point. */
  lemma ReplayTryBlock(s: HostState, env: Outcomes, device: string, components: Option<seq<string>>,
                       executed: Result<Option<string>, Failure>)
    requires env.tempDir in s.tempDirs && env.tempDir !in s.mounted
    ensures var f := Replay(s, Mounted(env, device, components, executed).trace + [RemoveTree(env.tempDir)]);
      var stuck := env.mountError.None? && (executed.Err? || !env.umountOk);
      (env.tempDir in f.mounted <==> stuck) && (env.tempDir in f.tempDirs <==> stuck)
  {
    var dir := env.tempDir;
    MountedTraces(env, device, components, executed);
    var body := Mounted(env, device, components, executed).trace;
    var mount := Mount(device, dir, env.mountError.None?);
    ReplaySnoc(s, [], mount);
    assert [] + [mount] == [mount];
    if env.mountError.None? {
      var run := RunFor(dir, components);
      ReplaySnoc(s, [mount], run);
      assert [mount] + [run] == [mount, run];
      if executed.Ok? {
        ReplaySnoc(s, [mount, run], Umount(dir, env.umountOk));
        assert [mount, run] + [Umount(dir, env.umountOk)] == body;
      }
    }
    ReplaySnoc(s, body, RemoveTree(dir));
  }

  /**
    What the update leaves behind once `mkdtemp` has run: the device stays
    mounted and the directory stays on disk exactly when the mount succeeded
    and then either the executor raised (so `umount` was skipped) or `umount`
    failed; otherwise both are gone.
  */
  lemma LeftoversAfterUpdate(req: Request, env: Outcomes, components: Option<seq<string>>,
                             executed: Result<Option<string>, Failure>, s: HostState)
    requires ReachesTempDir(env) && env.tempDir !in s.mounted
    ensures var f := Replay(s, PlanWith(req, env, components, executed).trace);
      var stuck := env.mountError.None? && (executed.Err? || !env.umountOk);
      (env.tempDir in f.mounted <==> stuck) && (env.tempDir in f.tempDirs <==> stuck)
  {
    var device := ScannedDevice(env.labels).value;
    PlanTraces(req, env, components, executed);
    var checked := Checked(req, device);
    var created := checked + [MakeTempDir(env.tempDir)];
    var rest := Mounted(env, device, components, executed).trace + [RemoveTree(env.tempDir)];
    assert PlanWith(req, env, components, executed).trace == created + rest;
    ReplayKeepsMounts(s, checked);
    ReplaySnoc(s, checked, MakeTempDir(env.tempDir));
    ReplayAppend(s, created, rest);
    ReplayTryBlock(Replay(s, created), env, device, components, executed);
  }

  /** `umount` is attempted exactly when the mount succeeded and the executor returned normally, and right before the removal. */
  lemma UmountOnlyAfterNormalReturn(req: Request, env: Outcomes, components: Option<seq<string>>,
                                    executed: Result<Option<string>, Failure>)
    ensures var t := PlanWith(req, env, components, executed).trace;
      (exists k :: 0 <= k < |t| && t[k].Umount?) <==> ReachesTempDir(env) && env.mountError.None? && executed.Ok?
    ensures var t := PlanWith(req, env, components, executed).trace;
      forall k :: 0 <= k < |t| && t[k].Umount? ==> k == |t| - 2 && t[k] == Umount(env.tempDir, env.umountOk)
  {
    var t := PlanWith(req, env, components, executed).trace;
    if ReachesTempDir(env) {
      ReachedTraces(req, env, components, executed);
      if env.mountError.None? && executed.Ok? {
        assert t[9].Umount?;
      }
    } else {
      PlanTraces(req, env, components, executed);
    }
  }

  /** An update returns normally exactly when hpsum ran on a mounted device and the executor returned; it then returns what the executor returned. */
  lemma NormalReturnOnlyAfterRun(req: Request, env: Outcomes, components: Option<seq<string>>,
                                 executed: Result<Option<string>, Failure>)
    ensures var r := PlanWith(req, env, components, executed).result;
      r.Ok? <==> ReachesTempDir(env) && env.mountError.None? && executed.Ok?
    ensures var r := PlanWith(req, env, components, executed).result;
      r.Ok? ==> r == executed
  {
    PlanResults(req, env, components, executed);
  }

  /**
    No matching label leaves the device name unbound, a failure distinct from
    every error the executor raises; "Unable to find" is raised for a matched
    path that does not exist.
  */
  lemma DeviceScanFailures(req: Request, env: Outcomes, components: Option<seq<string>>,
                           executed: Result<Option<string>, Failure>)
    requires SwapPasses(env)
    requires executed.Err? ==> executed.error.HpsumOperationError?
    ensures (forall k :: 0 <= k < |env.labels| ==> !MatchesSpp(env.labels[k])) <==>
      PlanWith(req, env, components, executed).result == Err(UnboundDeviceName)
    ensures ScannedDevice(env.labels).Some? && ScannedDevice(env.labels).value !in env.existing ==>
      PlanWith(req, env, components, executed).result == Err(HpsumOperationError(DeviceNotFound))
  {
    LastSppIsLastMatch(env.labels);
    PlanResults(req, env, components, executed);
  }

  /** Replaying the first one, two or three actions: validate, eject CDROM, insert the URL into CDROM. */
  lemma ReplaySwap(req: Request, env: Outcomes, s: HostState)
    ensures var validate := ValidateHref(req.url, env.hrefError.None?);
      var eject := EjectMedia(Cdrom, env.ejectError.None?);
      var insert := InsertMedia(req.url, Cdrom, env.insertError.None?);
      var ejected := if env.ejectError.None? then s.media - {Cdrom} else s.media;
      && Replay(s, [validate]).media == s.media
      && Replay(s, [validate, eject]).media == ejected
      && Replay(s, [validate, eject, insert]).media ==
           (if env.insertError.None? then ejected[Cdrom := req.url] else ejected)
  {
    var validate := ValidateHref(req.url, env.hrefError.None?);
    var eject := EjectMedia(Cdrom, env.ejectError.None?);
    var insert := InsertMedia(req.url, Cdrom, env.insertError.None?);
    ReplaySnoc(s, [], validate);
    assert [] + [validate] == [validate];
    ReplaySnoc(s, [validate], eject);
    assert [validate] + [eject] == [validate, eject];
    ReplaySnoc(s, [validate, eject], insert);
    assert [validate, eject] + [insert] == [validate, eject, insert];
  }

  /** After a passing swap the CDROM slot holds the URL when the update ends, whatever happens after the swap. */
  lemma MediaAfterSwap(req: Request, env: Outcomes, components: Option<seq<string>>,
                       executed: Result<Option<string>, Failure>, s: HostState)
    requires SwapPasses(env)
    ensures Replay(s, PlanWith(req, env, components, executed).trace).media == s.media[Cdrom := req.url]
  {
    var head := [ValidateHref(req.url, true), EjectMedia(Cdrom, true), InsertMedia(req.url, Cdrom, true)];
    var rest := PlanFromScan(req, env, components, executed).trace;
    var tail := [Settle(SettleSeconds), ListLabels(LabelDir)] + rest;
    assert PlanWith(req, env, components, executed).trace == head + tail && NoMediaCalls(tail) by {
      NoMediaCallsAfterSwap(req, env, components, executed);
      assert Swapped(req) + rest == head + tail;
      forall k | 2 <= k < |tail| ensures !tail[k].EjectMedia? && !tail[k].InsertMedia? {
        assert tail[k] == rest[k - 2];
      }
    }
    assert Replay(s, head).media == s.media[Cdrom := req.url] by {
      ReplaySwap(req, env, s);
      assert (s.media - {Cdrom})[Cdrom := req.url] == s.media[Cdrom := req.url];
    }
    ReplayAppend(s, head, tail);
    ReplayKeepsMedia(Replay(s, head), tail);
  }

  /**
    The media the update leaves: unchanged when validation or the eject
    fails, the CDROM slot emptied when the insert fails, and otherwise the
    URL in the CDROM slot, which the update never ejects again.
  */
  lemma MediaAfterUpdate(req: Request, env: Outcomes, components: Option<seq<string>>,
                         executed: Result<Option<string>, Failure>, s: HostState)
    ensures var m := Replay(s, PlanWith(req, env, components, executed).trace).media;
      if env.hrefError.Some? || env.ejectError.Some? then m == s.media
      else if env.insertError.Some? then m == s.media - {Cdrom}
      else m == s.media[Cdrom := req.url]
  {
    if SwapPasses(env) {
      MediaAfterSwap(req, env, components, executed, s);
    } else {
      PlanTraces(req, env, components, executed);
      ReplaySwap(req, env, s);
    }
  }
}
