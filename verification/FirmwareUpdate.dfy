/**
  Firmware installs and the verdict reported on a later connect
  (src/service/firmware/FirmwareUpdateService.cpp). The version file outlives restarts, so a
  restart is no event: only the version the device reports may differ afterwards.
*/
module FirmwareUpdate {
  import opened Bytes
  import opened Machine

  datatype Status =
    | INSTALLATION
    | COMPLETED
    | ABORTED
    | FILE_SYSTEM_ERROR
    | FILE_NOT_PRESENT
    | INSTALLATION_FAILED
    | UNSPECIFIED_ERROR

  /** Verdict: a status sent on connect, with the version the device then reported. */
  datatype Effect =
    | Sent(status: Status)
    | Verdict(status: Status, current: string)
    | Recorded(version: string)
    | Installing(path: string)

  datatype Device = Device(key: string, hasInstaller: bool, hasVersionProvider: bool)

  /** The command, and what the device finds when it runs. */
  datatype InstallRequest = InstallRequest(deviceKeys: seq<string>, fileName: string, filePresent: bool,
                                           currentVersion: string, fileCreated: bool, storedPath: Option<string>)

  datatype Event =
    | Install(request: InstallRequest)
    | AbortInstall(deviceKeys: seq<string>, aborted: bool)
    | InstallSucceeded
    | InstallFailed
    | Connect(currentVersion: string)

  /** The contents of the version file, if it exists. */
  type State = Option<string>

  type Result = Outcome<State, Effect>

  predicate IsSpace(c: char) {
    c == ' ' || '\t' <= c <= '\r'
  }

  /** StringUtils::removeTrailingWhitespace, which lives in the SDK */
  function Trim(s: string): (r: string)
    ensures r <= s && (r == "" || !IsSpace(r[|r| - 1]))
    ensures forall i | |r| <= i < |s| :: IsSpace(s[i])
  {
    if s != "" && IsSpace(s[|s| - 1]) then Trim(s[..|s| - 1]) else s
  }

  predicate Addressed(device: Device, keys: seq<string>) {
    |keys| == 1 && keys[0] != "" && keys[0] == device.key
  }

  function RunInstall(device: Device, s: State, r: InstallRequest): (o: Result) {
    if !Addressed(device, r.deviceKeys) then Outcome(s, [])
    else if r.fileName == "" || !r.filePresent then Outcome(s, [Sent(FILE_SYSTEM_ERROR)])
    else if !device.hasInstaller || !device.hasVersionProvider then Outcome(s, [Sent(UNSPECIFIED_ERROR)])
    else if r.currentVersion == "" then Outcome(s, [])
    else if !r.fileCreated then Outcome(s, [Sent(FILE_NOT_PRESENT)])
    else
      Outcome(Some(r.currentVersion),
              [Recorded(r.currentVersion)]
              + match r.storedPath
                case None => [Sent(FILE_SYSTEM_ERROR)]
                case Some(path) => [Sent(INSTALLATION), Installing(path)])
  }

  function VerdictOn(current: string, recorded: string): (status: Status) {
    if current != Trim(recorded) then COMPLETED else INSTALLATION_FAILED
  }

  function ReportResult(s: State, current: string): (o: Result) {
    if s.None? || current == "" then Outcome(s, [])
    else Outcome(None, [Verdict(VerdictOn(current, s.value), current)])
  }

  function Step(device: Device, s: State, e: Event): (o: Result) {
    match e
    case Install(request) => RunInstall(device, s, request)
    case AbortInstall(keys, aborted) => Outcome(s, if Addressed(device, keys) && aborted then [Sent(ABORTED)] else [])
    case InstallSucceeded => Outcome(s, [Sent(COMPLETED)])
    case InstallFailed => Outcome(s, [Sent(INSTALLATION_FAILED)])
    case Connect(current) => ReportResult(s, current)
  }

  function Steps(device: Device): (State, Event) -> Result {
    (s: State, e: Event) => Step(device, s, e)
  }

  // ---------------------------------------------------------------- the service

  class FirmwareUpdateService {
    const device: Device
    var versionFile: Option<string>

    constructor (device: Device, versionFile: Option<string>)
      ensures this.device == device && this.versionFile == versionFile
    {
      this.device, this.versionFile := device, versionFile;
    }

    method HandleInstall(request: InstallRequest) returns (effects: seq<Effect>)
      modifies this
      ensures Outcome(versionFile, effects) == Step(device, old(versionFile), Install(request))
    {
      if |request.deviceKeys| != 1 || request.deviceKeys[0] == "" {
        return [];
      }
      if request.deviceKeys[0] != device.key {
        return [];
      }
      if request.fileName == "" {
        return [Sent(FILE_SYSTEM_ERROR)];
      }
      if !request.filePresent {
        return [Sent(FILE_SYSTEM_ERROR)];
      }
      effects := RunInstaller(request);
    }

    method RunInstaller(request: InstallRequest) returns (effects: seq<Effect>)
      requires Addressed(device, request.deviceKeys) && request.fileName != "" && request.filePresent
      modifies this
      ensures Outcome(versionFile, effects) == RunInstall(device, old(versionFile), request)
    {
      if !device.hasInstaller {
        return [Sent(UNSPECIFIED_ERROR)];
      }
      if !device.hasVersionProvider {
        return [Sent(UNSPECIFIED_ERROR)];
      }
      var firmwareVersion := request.currentVersion;
      if firmwareVersion == "" {
        return [];
      }
      if !request.fileCreated {
        return [Sent(FILE_NOT_PRESENT)];
      }
      versionFile := Some(firmwareVersion);
      effects := [Recorded(firmwareVersion)];
      if request.storedPath.None? {
        effects := effects + [Sent(FILE_SYSTEM_ERROR)];
        return;
      }
      effects := effects + [Sent(INSTALLATION), Installing(request.storedPath.value)];
    }

    /** Without an installer the code dereferences none: undefined. `aborted` is the installer's answer. */
    method HandleAbort(deviceKeys: seq<string>, aborted: bool) returns (defined: bool, effects: seq<Effect>)
      ensures defined <==> !(deviceKeys == [device.key] && device.key != "" && !device.hasInstaller)
      ensures defined ==> Outcome(versionFile, effects) == Step(device, versionFile, AbortInstall(deviceKeys, aborted))
    {
      defined, effects := true, [];
      if |deviceKeys| != 1 || deviceKeys[0] == "" {
        return;
      }
      if deviceKeys[0] != device.key {
        return;
      }
      if !device.hasInstaller {
        defined := false;
        return;
      }
      if aborted {
        effects := [Sent(ABORTED)];
      }
    }

    /** Reading and deleting the version file succeed. */
    method ReportFirmwareUpdateResult(currentVersion: string) returns (effects: seq<Effect>)
      modifies this
      ensures Outcome(versionFile, effects) == Step(device, old(versionFile), Connect(currentVersion))
    {
      if versionFile.None? {
        return [];
      }
      var storedVersion := Trim(versionFile.value);
      if currentVersion == "" {
        return [];
      }
      if currentVersion != storedVersion {
        effects := [Verdict(COMPLETED, currentVersion)];
      } else {
        effects := [Verdict(INSTALLATION_FAILED, currentVersion)];
      }
      versionFile := None;
    }
  }

  // ---------------------------------------------------------------- every run

  /** The version of the latest record among the effects. */
  function LatestRecorded(effects: seq<Effect>): (version: Option<string>) {
    if effects == [] then None
    else if effects[|effects| - 1].Recorded? then Some(effects[|effects| - 1].version)
    else LatestRecorded(effects[..|effects| - 1])
  }

  /** Whether a record has been made that no verdict has followed. */
  function Pending(effects: seq<Effect>): (pending: bool) {
    effects != [] &&
    var last := effects[|effects| - 1];
    last.Recorded? || (!last.Verdict? && Pending(effects[..|effects| - 1]))
  }

  /** A verdict answers a record still pending, and compares with that record's trimmed version. */
  ghost predicate Founded(effects: seq<Effect>, i: nat)
    requires i < |effects| && effects[i].Verdict?
  {
    && Pending(effects[..i])
    && LatestRecorded(effects[..i]).Some?
    && effects[i].status == VerdictOn(effects[i].current, LatestRecorded(effects[..i]).value)
    && effects[i].current != ""
  }

  ghost predicate AllFounded(effects: seq<Effect>) {
    forall i | 0 <= i < |effects| && effects[i].Verdict? :: Founded(effects, i)
  }

  ghost predicate FileTells(s: State, effects: seq<Effect>) {
    && (s.Some? <==> Pending(effects))
    && (s.Some? ==> LatestRecorded(effects) == s)
  }

  lemma Appended(effects: seq<Effect>, e: Effect)
    requires AllFounded(effects)
    ensures var more := effects + [e];
            && (e.Verdict? ==> (AllFounded(more) <==> Founded(more, |effects|)))
            && (!e.Verdict? ==> AllFounded(more))
            && LatestRecorded(more) == (if e.Recorded? then Some(e.version) else LatestRecorded(effects))
            && (Pending(more) <==> e.Recorded? || (!e.Verdict? && Pending(effects)))
            && more[..|effects|] == effects
  {
    var more := effects + [e];
    assert more[..|effects|] == effects;
    forall i | 0 <= i < |effects| && effects[i].Verdict?
      ensures Founded(more, i)
    {
      assert more[..i] == effects[..i];
    }
  }

  lemma OneEffect(s: State, effects: seq<Effect>, e: Effect, t: State)
    requires AllFounded(effects) && FileTells(s, effects)
    requires match e
             case Recorded(version) => t == Some(version)
             case Verdict(status, current) =>
               s.Some? && t.None? && current != "" && status == VerdictOn(current, s.value)
             case _ => t == s
    ensures AllFounded(effects + [e]) && FileTells(t, effects + [e])
  {
    Appended(effects, e);
  }

  lemma StepIsFounded(device: Device, s: State, e: Event, effects: seq<Effect>)
    requires AllFounded(effects) && FileTells(s, effects)
    ensures var o := Step(device, s, e);
            AllFounded(effects + o.calls) && FileTells(o.state, effects + o.calls)
  {
    var o := Step(device, s, e);
    if o.calls == [] {
      assert effects + o.calls == effects;
    } else {
      var after := if o.calls[0].Recorded? || o.calls[0].Verdict? then o.state else s;
      OneEffect(s, effects, o.calls[0], after);
      if |o.calls| == 1 {
        assert effects + o.calls == effects + [o.calls[0]];
      } else {
        OneEffect(after, effects + [o.calls[0]], o.calls[1], after);
        if |o.calls| == 2 {
          assert effects + o.calls == effects + [o.calls[0]] + [o.calls[1]];
        } else {
          OneEffect(after, effects + [o.calls[0]] + [o.calls[1]], o.calls[2], after);
          assert effects + o.calls == effects + [o.calls[0]] + [o.calls[1]] + [o.calls[2]];
        }
      }
    }
  }

  /**
    Over every run of installs, callbacks, restarts and connects: each verdict answers the
    latest recorded install, not answered before, and is COMPLETED exactly when the version
    reported differs from the trimmed recorded one.
  */
  lemma {:induction false} EveryVerdictIsFounded(device: Device, es: seq<Event>)
    ensures var o := Run(Steps(device), None, es);
            AllFounded(o.calls) && FileTells(o.state, o.calls)
  {
    if es != [] {
      var init, e := es[..|es| - 1], es[|es| - 1];
      EveryVerdictIsFounded(device, init);
      var before := Run(Steps(device), None, init);
      StepIsFounded(device, before.state, e, before.calls);
    }
  }

  function Verdicts(effects: seq<Effect>): (n: nat) {
    if effects == [] then 0
    else Verdicts(effects[..|effects| - 1]) + if effects[|effects| - 1].Verdict? then 1 else 0
  }

  function Records(effects: seq<Effect>): (n: nat) {
    if effects == [] then 0
    else Records(effects[..|effects| - 1]) + if effects[|effects| - 1].Recorded? then 1 else 0
  }

  /** Verdicts never outnumber the installs that recorded a version. */
  lemma {:induction false} VerdictsAreCovered(effects: seq<Effect>)
    requires AllFounded(effects)
    ensures Verdicts(effects) + (if Pending(effects) then 1 else 0) <= Records(effects)
  {
    if effects != [] {
      var init, last := effects[..|effects| - 1], effects[|effects| - 1];
      forall i | 0 <= i < |init| && init[i].Verdict?
        ensures Founded(init, i)
      {
        assert Founded(effects, i) && init[..i] == effects[..i];
      }
      VerdictsAreCovered(init);
      if last.Verdict? {
        assert Founded(effects, |init|);
      }
    }
  }

  lemma VerdictsNeverExceedRecords(device: Device, es: seq<Event>)
    ensures var effects := Run(Steps(device), None, es).calls;
            Verdicts(effects) <= Records(effects)
  {
    EveryVerdictIsFounded(device, es);
    VerdictsAreCovered(Run(Steps(device), None, es).calls);
  }

  // ---------------------------------------------------------------- the verdict after an install

  /** Nothing is installed, and no version is known on a connect. */
  predicate Quiet(e: Event) {
    !e.Install? && (e.Connect? ==> e.currentVersion == "")
  }

  ghost predicate AllQuiet(es: seq<Event>) {
    forall e | e in es :: Quiet(e)
  }

  /** Quiet events leave a pending verdict pending: none is given, and nothing is recorded. */
  lemma {:induction false} VerdictStaysPending(device: Device, s: State, es: seq<Event>)
    requires AllQuiet(es)
    ensures Run(Steps(device), s, es).state == s
    ensures forall x | x in Run(Steps(device), s, es).calls :: x.Sent?
  {
    if es != [] {
      VerdictStaysPending(device, s, es[..|es| - 1]);
      assert es[|es| - 1] in es;
    }
  }

  /**
    In any run, the first connect with a known version after quiet events gives the verdict on
    the latest recorded version if an install is still pending, and no verdict otherwise.
  */
  lemma NextVerdict(device: Device, before: seq<Event>, quiet: seq<Event>, current: string)
    requires AllQuiet(quiet) && current != ""
    ensures var o := Run(Steps(device), None, before);
            var middle := Run(Steps(device), o.state, quiet);
            && (o.state.Some? <==> Pending(o.calls))
            && (o.state.Some? ==> LatestRecorded(o.calls) == o.state)
            && (forall x | x in middle.calls :: x.Sent?)
            && Run(Steps(device), None, before + quiet + [Connect(current)]) ==
               (if o.state.Some?
                then Outcome(None, o.calls + middle.calls + [Verdict(VerdictOn(current, o.state.value), current)])
                else Outcome(None, o.calls + middle.calls))
  {
    EveryVerdictIsFounded(device, before);
    var o := Run(Steps(device), None, before);
    VerdictStaysPending(device, o.state, quiet);
    RunSplits(Steps(device), None, before, quiet);
    RunSnoc(Steps(device), None, before + quiet, Connect(current));
  }

  /**
    The installer reports success and COMPLETED is sent at once; nothing is done to the version
    file. If the install is still pending, the next connect with a known version contradicts
    the success if and only if that version is the trimmed recorded one, and otherwise
    COMPLETED is sent a second time.
  */
  lemma SuccessIsContradictedExactlyWhen(device: Device, before: seq<Event>, quiet: seq<Event>, current: string)
    requires Pending(Run(Steps(device), None, before).calls)
    requires AllQuiet(quiet) && current != ""
    ensures var recorded := LatestRecorded(Run(Steps(device), None, before).calls);
            var effects := Run(Steps(device), None, before + [InstallSucceeded] + quiet + [Connect(current)]).calls;
            && recorded.Some?
            && Sent(COMPLETED) in effects
            && effects != [] && effects[|effects| - 1].Verdict?
            && (effects[|effects| - 1].status == INSTALLATION_FAILED <==> current == Trim(recorded.value))
            && (effects[|effects| - 1].status == COMPLETED <==> current != Trim(recorded.value))
  {
    EveryVerdictIsFounded(device, before);
    var o := Run(Steps(device), None, before);
    RunSnoc(Steps(device), None, before, InstallSucceeded);
    Appended(o.calls, Sent(COMPLETED));
    var calls := o.calls + [Sent(COMPLETED)];
    assert Run(Steps(device), None, before + [InstallSucceeded]).calls == calls;
    NextVerdict(device, before + [InstallSucceeded], quiet, current);
    assert calls[|o.calls|] == Sent(COMPLETED);
  }

  /** In every run a recorded version is not empty. */
  lemma {:induction false} RecordedIsNotEmpty(device: Device, es: seq<Event>)
    ensures var s := Run(Steps(device), None, es).state;
            s.Some? ==> s.value != ""
  {
    if es != [] {
      RecordedIsNotEmpty(device, es[..|es| - 1]);
    }
  }

  /**
    In every run, an install that changed nothing is reported as failed on the next connect
    exactly if the recorded version has no trailing whitespace; otherwise as completed.
  */
  lemma UnchangedVersionFailsExactlyWhen(device: Device, before: seq<Event>, quiet: seq<Event>)
    requires Pending(Run(Steps(device), None, before).calls) && AllQuiet(quiet)
    ensures var recorded := LatestRecorded(Run(Steps(device), None, before).calls);
            recorded.Some? && recorded.value != "" &&
            var effects := Run(Steps(device), None, before + quiet + [Connect(recorded.value)]).calls;
            && effects != [] && effects[|effects| - 1].Verdict?
            && (effects[|effects| - 1].status == INSTALLATION_FAILED
                <==> !IsSpace(recorded.value[|recorded.value| - 1]))
  {
    EveryVerdictIsFounded(device, before);
    RecordedIsNotEmpty(device, before);
    var version := LatestRecorded(Run(Steps(device), None, before).calls).value;
    NextVerdict(device, before, quiet, version);
  }

  lemma FreshInstall(device: Device, version: string, path: string)
    requires device.hasInstaller && device.hasVersionProvider && device.key != "" && version != ""
    ensures var request := InstallRequest([device.key], "firmware", true, version, true, Some(path));
            Run(Steps(device), None, [Install(request)]) ==
            Outcome(Some(version), [Recorded(version), Sent(INSTALLATION), Installing(path)])
  {
    RunOne(Steps(device), None, Install(InstallRequest([device.key], "firmware", true, version, true, Some(path))));
  }

  /** There are such runs: an unchanged version contradicts the success just reported. */
  lemma SuccessMayBeContradicted(device: Device, version: string, path: string)
    requires device.hasInstaller && device.hasVersionProvider && device.key != ""
    requires version != "" && !IsSpace(version[|version| - 1])
    ensures var request := InstallRequest([device.key], "firmware", true, version, true, Some(path));
            var es := [Install(request)] + [InstallSucceeded] + [] + [Connect(version)];
            var effects := Run(Steps(device), None, es).calls;
            && Sent(COMPLETED) in effects
            && effects != [] && effects[|effects| - 1] == Verdict(INSTALLATION_FAILED, version)
  {
    var install := [Install(InstallRequest([device.key], "firmware", true, version, true, Some(path)))];
    FreshInstall(device, version, path);
    var calls := Run(Steps(device), None, install).calls;
    assert !calls[2].Recorded? && !calls[1].Recorded? && calls[0] == Recorded(version);
    assert calls[..2][..1] == calls[..1];
    assert LatestRecorded(calls[..1]) == Some(version) && Pending(calls[..1]);
    assert LatestRecorded(calls[..2]) == Some(version) && Pending(calls[..2]);
    assert LatestRecorded(calls) == Some(version) && Pending(calls);
    SuccessIsContradictedExactlyWhen(device, install, [], version);
    EveryVerdictIsFounded(device, install);
    RunSnoc(Steps(device), None, install, InstallSucceeded);
    Appended(calls, Sent(COMPLETED));
    NextVerdict(device, install + [InstallSucceeded], [], version);
  }
}
