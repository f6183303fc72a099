/** When an install command has an effect, and which: in terms of the command and the device alone. */
module FirmwareInstalls {
  import opened Bytes
  import opened Machine
  import opened FirmwareUpdate

  // ---------------------------------------------------------------- the conditions, one by one

  /** The command names one device, and it is this one. */
  predicate ForThis(device: Device, keys: seq<string>) {
    keys == [device.key] && device.key != ""
  }

  predicate HasFile(device: Device, r: InstallRequest) {
    ForThis(device, r.deviceKeys) && r.fileName != "" && r.filePresent
  }

  predicate CanInstall(device: Device, r: InstallRequest) {
    HasFile(device, r) && device.hasInstaller && device.hasVersionProvider
  }

  /** The version file gets written. */
  predicate Records(device: Device, r: InstallRequest) {
    CanInstall(device, r) && r.currentVersion != "" && r.fileCreated
  }

  predicate Installs(device: Device, r: InstallRequest) {
    Records(device, r) && r.storedPath.Some?
  }

  /** A command for any other device, or for none or several, has no effect at all. */
  lemma OthersAreIgnored(device: Device, s: State, e: Event)
    requires || (e.Install? && !ForThis(device, e.request.deviceKeys))
             || (e.AbortInstall? && !ForThis(device, e.deviceKeys))
    ensures Step(device, s, e) == Outcome(s, [])
  {
  }

  lemma InstallRuns(device: Device, s: State, r: InstallRequest)
    ensures var o := Step(device, s, Install(r));
            if Installs(device, r) then
              o == Outcome(Some(r.currentVersion),
                           [Recorded(r.currentVersion), Sent(INSTALLATION), Installing(r.storedPath.value)])
            else if Records(device, r) then
              o == Outcome(Some(r.currentVersion), [Recorded(r.currentVersion), Sent(FILE_SYSTEM_ERROR)])
            else if CanInstall(device, r) && r.currentVersion == "" then o == Outcome(s, [])
            else if CanInstall(device, r) then o == Outcome(s, [Sent(FILE_NOT_PRESENT)])
            else if HasFile(device, r) then o == Outcome(s, [Sent(UNSPECIFIED_ERROR)])
            else if ForThis(device, r.deviceKeys) then o == Outcome(s, [Sent(FILE_SYSTEM_ERROR)])
            else o == Outcome(s, [])
  {
  }

  // ---------------------------------------------------------------- every run

  ghost predicate ComesFromInstall(device: Device, es: seq<Event>, x: Effect) {
    match x
    case Recorded(version) =>
      exists r :: Install(r) in es && Records(device, r) && r.currentVersion == version
    case Installing(path) =>
      exists r :: Install(r) in es && Installs(device, r) && r.storedPath == Some(path)
    case _ => true
  }

  lemma StepComesFromInstall(device: Device, s: State, es: seq<Event>, e: Event)
    ensures forall x | x in Step(device, s, e).calls :: ComesFromInstall(device, es + [e], x)
  {
    assert e in es + [e];
    if e.Install? {
      InstallRuns(device, s, e.request);
    }
  }

  lemma ComesFromStays(device: Device, es: seq<Event>, e: Event, x: Effect)
    requires ComesFromInstall(device, es, x)
    ensures ComesFromInstall(device, es + [e], x)
  {
    match x
    case Recorded(version) =>
      var r :| Install(r) in es && Records(device, r) && r.currentVersion == version;
      assert Install(r) in es + [e];
    case Installing(path) =>
      var r :| Install(r) in es && Installs(device, r) && r.storedPath == Some(path);
      assert Install(r) in es + [e];
    case _ =>
  }

  /**
    In every run: the version file is written, and the installer started, only for an install
    command that names this device, whose file is there, and with the version the device then
    reported and the path the repository then gave.
  */
  lemma {:induction false} InstallsAreCommanded(device: Device, es: seq<Event>)
    ensures forall x | x in Run(Steps(device), None, es).calls :: ComesFromInstall(device, es, x)
  {
    if es != [] {
      var init, e := es[..|es| - 1], es[|es| - 1];
      InstallsAreCommanded(device, init);
      var before := Run(Steps(device), None, init);
      assert init + [e] == es;
      StepComesFromInstall(device, before.state, init, e);
      forall x | x in before.calls
        ensures ComesFromInstall(device, es, x)
      {
        ComesFromStays(device, init, e, x);
      }
    }
  }

  // ---------------------------------------------------------------- every status

  /** The events that send this status, and no other event does. */
  predicate Causes(device: Device, e: Event, status: Status) {
    match e
    case Install(r) =>
      (match status
       case INSTALLATION => Installs(device, r)
       case FILE_SYSTEM_ERROR =>
         (ForThis(device, r.deviceKeys) && !HasFile(device, r)) || (Records(device, r) && r.storedPath.None?)
       case FILE_NOT_PRESENT => CanInstall(device, r) && r.currentVersion != "" && !r.fileCreated
       case UNSPECIFIED_ERROR => HasFile(device, r) && !CanInstall(device, r)
       case _ => false)
    case AbortInstall(keys, aborted) => status == ABORTED && ForThis(device, keys) && aborted
    case InstallSucceeded => status == COMPLETED
    case InstallFailed => status == INSTALLATION_FAILED
    case Connect(_) => false
  }

  function CausesIn(device: Device, es: seq<Event>, status: Status): (n: nat) {
    if es == [] then 0
    else CausesIn(device, es[..|es| - 1], status) + if Causes(device, es[|es| - 1], status) then 1 else 0
  }

  function SentIn(effects: seq<Effect>, status: Status): (n: nat) {
    if effects == [] then 0
    else SentIn(effects[..|effects| - 1], status) + if effects[|effects| - 1] == Sent(status) then 1 else 0
  }

  lemma {:induction false} SentAdds(a: seq<Effect>, b: seq<Effect>, status: Status)
    ensures SentIn(a + b, status) == SentIn(a, status) + SentIn(b, status)
  {
    if b == [] {
      assert a + b == a;
    } else {
      assert (a + b)[..|a + b| - 1] == a + b[..|b| - 1];
      SentAdds(a, b[..|b| - 1], status);
    }
  }

  lemma SentOfFew(effects: seq<Effect>, status: Status)
    ensures |effects| == 0 ==> SentIn(effects, status) == 0
    ensures |effects| == 1 ==> SentIn(effects, status) == if effects[0] == Sent(status) then 1 else 0
    ensures |effects| == 2 && !effects[0].Sent? ==>
              SentIn(effects, status) == if effects[1] == Sent(status) then 1 else 0
    ensures |effects| == 3 && !effects[0].Sent? && !effects[2].Sent? ==>
              SentIn(effects, status) == if effects[1] == Sent(status) then 1 else 0
  {
    if |effects| == 2 {
      assert effects[..1] == [effects[0]];
    } else if |effects| == 3 {
      assert effects[..2][..1] == [effects[0]] && effects[..2] == [effects[0], effects[1]];
    }
  }

  lemma StepSends(device: Device, s: State, e: Event, status: Status)
    ensures SentIn(Step(device, s, e).calls, status) == if Causes(device, e, status) then 1 else 0
  {
    SentOfFew(Step(device, s, e).calls, status);
    if e.Install? {
      InstallRuns(device, s, e.request);
    }
  }

  /** In every run each status is sent as often as its causes occur: none is missing, none is made up. */
  lemma {:induction false} StatusesAreAccountedFor(device: Device, es: seq<Event>, status: Status)
    ensures SentIn(Run(Steps(device), None, es).calls, status) == CausesIn(device, es, status)
  {
    if es != [] {
      var init, e := es[..|es| - 1], es[|es| - 1];
      StatusesAreAccountedFor(device, init, status);
      var before := Run(Steps(device), None, init);
      StepSends(device, before.state, e, status);
      SentAdds(before.calls, Step(device, before.state, e).calls, status);
    }
  }
}
