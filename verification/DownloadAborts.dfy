/** What an abort does to the other downloads, and to one that completes meanwhile. */
module DownloadAborts {
  import opened PacketChain
  import opened Machine
  import T = Transfer
  import opened FileRepository
  import opened FileListing
  import opened DownloadMachine
  import opened DownloadRuns

  // ---------------------------------------------------------------- starvation

  /** No name is active, no data is waiting at a downloader, and no download is about to begin. */
  ghost predicate Starved(s: State) {
    && s.active == ""
    && (forall n | n in s.entries :: n != "" && NoData(s.entries[n].inbox))
    && (forall c | c in s.queue :: !c.HandleInitiate?)
  }

  ghost predicate NoData(inbox: seq<T.Command>) {
    forall c | c in inbox :: !c.DataCommand?
  }

  predicate Initiates(e: Event) {
    e.Receive? && e.command.HandleInitiate?
  }

  ghost predicate WritesNothing(effects: seq<Effect>) {
    forall e | e in effects :: !e.Wrote?
  }

  lemma OnlyDataSaves(cfg: T.Config, t: T.State, e: T.Event)
    requires !e.Data?
    ensures |T.Step(cfg, t, e).calls| <= 1
    ensures forall c | c in T.Step(cfg, t, e).calls :: c.Ask? || c.Failed?
  {
  }

  lemma FewCallsWriteNothing(s: State, name: string, hash: string, calls: seq<T.Call>)
    requires |calls| <= 1 && forall c | c in calls :: c.Ask? || c.Failed?
    ensures var o := OnCalls(s, name, hash, calls);
            WritesNothing(o.calls) && forall c | c in o.state.queue :: c in s.queue || c == SendFileList
  {
    if calls != [] {
      assert calls[..0] == [];
      assert calls[0] in calls;
    }
  }

  lemma DownloaderStaysStarved(cfg: Config, s: State, name: string, inbox: seq<T.Command>, e: T.Event)
    requires Starved(s) && name in s.entries && NoData(inbox) && !e.Data?
    ensures var o := Downloads(cfg, s, name, inbox, e); Starved(o.state) && WritesNothing(o.calls)
  {
    var entry := s.entries[name];
    var taken := T.Step(cfg.transfer, entry.transfer, e);
    var u := s.(entries := s.entries[name := entry.(transfer := taken.state, inbox := inbox)]);
    OnlyDataSaves(cfg.transfer, entry.transfer, e);
    FewCallsWriteNothing(u, name, entry.hash, taken.calls);
    DownloaderStep(cfg, s, name, inbox, e);
  }

  lemma PerformStaysStarved(cfg: Config, s: State, c: Command, now: Surroundings)
    requires Starved(s) && !c.HandleInitiate?
    ensures var o := Perform(cfg, s, c, now); Starved(o.state) && WritesNothing(o.calls)
  {
    if c.SendFileList? {
      ReadsWriteNothing(cfg, s.records, now.directory, now.directory.names);
    }
  }

  lemma {:induction false} ReadsWriteNothing(cfg: Config, m: Records, dir: Directory, names: seq<string>)
    ensures WritesNothing(Reads(cfg, m, dir, names))
  {
    if names != [] {
      ReadsWriteNothing(cfg, m, dir, names[..|names| - 1]);
    }
  }

  lemma StepStaysStarved(cfg: Config, s: State, e: Event)
    requires Starved(s) && !Initiates(e)
    ensures var o := Step(cfg, s, e); Starved(o.state) && WritesNothing(o.calls)
  {
    match e
    case Receive(_) =>
    case Collect =>
    case RunService(now) =>
      if s.queue != [] {
        PerformStaysStarved(cfg, s.(queue := s.queue[1..]), s.queue[0], now);
      }
    case RunDownloader(name, writable) =>
      if name in s.entries && s.entries[name].inbox != [] {
        var inbox := s.entries[name].inbox;
        assert inbox[0] in inbox;
        DownloaderStaysStarved(cfg, s, name, inbox[1..], T.EventOf(inbox[0], writable));
      }
    case TimerFires(name) =>
      if name in s.entries && s.entries[name].transfer.Active? {
        DownloaderStaysStarved(cfg, s, name, s.entries[name].inbox, T.Timeout);
      }
  }

  lemma {:induction false} StarvedRunsWriteNothing(cfg: Config, s: State, es: seq<Event>)
    requires Starved(s) && forall e | e in es :: !Initiates(e)
    ensures var o := Run(Steps(cfg), s, es); Starved(o.state) && WritesNothing(o.calls)
  {
    if es != [] {
      var init, e := es[..|es| - 1], es[|es| - 1];
      assert e in es;
      StarvedRunsWriteNothing(cfg, s, init);
      StepStaysStarved(cfg, Run(Steps(cfg), s, init).state, e);
    }
  }

  /**
    Aborting one download starves all others: after the abort of any name that has a
    downloader, no data reaches any downloader and no file is written, whatever packets the
    platform sends, until it initiates another upload.
  */
  lemma AbortStarvesTheOthers(cfg: Config, before: seq<Event>, name: string, now: Surroundings, es: seq<Event>)
    requires var s := After(cfg, before);
             && s.queue != [] && s.queue[0] == HandleAbort(name) && name in s.entries
             && (forall c | c in s.queue :: !c.HandleInitiate?)
             && (forall n | n in s.entries :: NoData(s.entries[n].inbox))
    requires forall e | e in es :: !Initiates(e)
    ensures WritesNothing(Run(Steps(cfg), Step(cfg, After(cfg, before), RunService(now)).state, es).calls)
  {
    EveryEntryIsOk(cfg, before);
    StarvedRunsWriteNothing(cfg, Step(cfg, After(cfg, before), RunService(now)).state, es);
  }

  /** Data goes to the other downloads as it would without the abort. */
  ghost predicate SparesOthers(s: State, name: string, packet: Packet) {
    var without, after := OnBinary(s, packet), OnBinary(OnAbort(s, name).state, packet);
    forall n | n in s.entries && n != name :: n in after.entries && after.entries[n] == without.entries[n]
  }

  /** An abort leaves the other downloads alone exactly if none of them is the active one. */
  lemma AbortSparesOthersExactlyWhen(cfg: Config, es: seq<Event>, name: string, packet: Packet)
    requires name != ""
    ensures var s := After(cfg, es);
            SparesOthers(s, name, packet) <==> name !in s.entries || s.active !in s.entries || s.active == name
  {
    EveryEntryIsOk(cfg, es);
    var s := After(cfg, es);
    assert "" !in s.entries;
    if name in s.entries && s.active in s.entries && s.active != name {
      var entry := s.entries[s.active];
      assert OnBinary(s, packet).entries[s.active].inbox == entry.inbox + [T.DataCommand(packet)];
      assert OnBinary(OnAbort(s, name).state, packet).entries[s.active] == entry;
    }
  }

  // ---------------------------------------------------------------- the race with completion

  lemma TwoCalls(s: State, name: string, hash: string, calls: seq<T.Call>)
    requires |calls| == 2 && calls[0].Saved? && calls[1].Succeeded?
    ensures var o := OnCalls(s, name, hash, calls);
            && o.calls == [Wrote(calls[0].write)]
            && o.state == OnSuccess(s, name, hash, calls[1].path).state
  {
    var first := calls[..1];
    assert first[..0] == [];
    assert OnCalls(s, name, hash, first) == Outcome(s, [Wrote(calls[0].write)]);
  }

  /** The last packet arrives, the file is saved, and its record waits behind what waited already. */
  lemma CompletionStep(cfg: Config, s: State, name: string, packet: Packet)
    requires Completes(cfg, s, name, packet)
    ensures var calls := LastCalls(cfg, s, name, packet);
            var o := Step(cfg, s, RunDownloader(name, true));
            && calls[1].Succeeded?
            && o.calls == [Wrote(calls[0].write)]
            && o.state.queue
               == s.queue + [StoreRecord(FileInfo(name, s.entries[name].hash, calls[1].path)), SendFileList]
            && name in o.state.entries
  {
    var entry := s.entries[name];
    var taken := T.Step(cfg.transfer, entry.transfer, T.Data(packet, true));
    assert entry.inbox[0] == T.DataCommand(packet) && entry.inbox[1..] == [];
    StepCalls(cfg.transfer, entry.transfer, T.Data(packet, true));
    TwoCalls(s.(entries := s.entries[name := entry.(transfer := taken.state, inbox := [])]),
             name, entry.hash, taken.calls);
  }

  ghost function LastCalls(cfg: Config, s: State, name: string, packet: Packet): (calls: seq<T.Call>)
    requires name in s.entries && s.entries[name].transfer.Active?
  {
    T.Receive(cfg.transfer, s.entries[name].transfer, packet, true).calls
  }

  /** The packet that waits at the downloader of `name` is the last one, and the file passes validation. */
  ghost predicate Completes(cfg: Config, s: State, name: string, packet: Packet) {
    && name in s.entries && s.entries[name].inbox == [T.DataCommand(packet)]
    && s.entries[name].transfer.Active?
    && LastCalls(cfg, s, name, packet) != [] && LastCalls(cfg, s, name, packet)[0].Saved?
  }

  lemma AbortThenRecord(cfg: Config, s: State, name: string, info: FileInfo, now: Surroundings)
    requires name in s.entries && name != ""
    requires s.queue == [HandleAbort(name)] + [StoreRecord(info), SendFileList]
    ensures Run(Steps(cfg), s, [RunService(now), RunService(now)]).calls == [StatusSent(name, ABORTED), FileReady(info)]
  {
    var second := Step(cfg, s, RunService(now));
    assert s.queue[0] == HandleAbort(name) && s.queue[1..] == [StoreRecord(info), SendFileList];
    assert second.state.queue == [StoreRecord(info), SendFileList];
    RunOne(Steps(cfg), s, RunService(now));
    RunSnoc(Steps(cfg), s, [RunService(now)], RunService(now));
    assert [RunService(now)] + [RunService(now)] == [RunService(now), RunService(now)];
  }

  /** An abort that waits while the download completes is reported, and so is the file. */
  lemma AbortedAndReady(cfg: Config, s: State, name: string, packet: Packet, now: Surroundings)
    requires s.queue == [HandleAbort(name)] && name != "" && Completes(cfg, s, name, packet)
    ensures var calls := LastCalls(cfg, s, name, packet);
            && |calls| == 2 && calls[1].Succeeded?
            && Run(Steps(cfg), s, [RunDownloader(name, true), RunService(now), RunService(now)]).calls ==
               [Wrote(calls[0].write), StatusSent(name, ABORTED),
                FileReady(FileInfo(name, s.entries[name].hash, calls[1].path))]
  {
    CompletionStep(cfg, s, name, packet);
    var info := FileInfo(name, s.entries[name].hash, LastCalls(cfg, s, name, packet)[1].path);
    var es := [RunDownloader(name, true), RunService(now), RunService(now)];
    RunCons(Steps(cfg), s, es);
    assert es[1..] == [RunService(now), RunService(now)];
    AbortThenRecord(cfg, Step(cfg, s, es[0]).state, name, info, now);
  }
}
