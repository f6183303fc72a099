/** What the file download service guarantees over every interleaving of its steps. */
module DownloadRuns {
  import opened Bytes
  import opened PacketChain
  import T = Transfer
  import opened FileRepository
  import opened DownloadMachine

  // ---------------------------------------------------------------- the downloads

  ghost predicate Matches(cfg: Config, name: string, hash: string, request: T.FileRequest) {
    request.name == name && request.hash == cfg.codec.decode(hash) && request.directory == cfg.directory
  }

  /** A start command comes first, if it is still waiting. */
  ghost predicate InboxOk(cfg: Config, name: string, entry: Entry) {
    && (forall k | 0 <= k < |entry.inbox| && entry.inbox[k].DownloadCommand? ::
          k == 0 && entry.transfer.Idle? && Matches(cfg, name, entry.hash, entry.inbox[k].request))
    && (T.AbortCommand in entry.inbox ==> entry.completed)
  }

  predicate AboutToStart(entry: Entry) {
    entry.inbox != [] && entry.inbox[0].DownloadCommand?
  }

  /** The download is running, or is about to. */
  predicate IsLive(entry: Entry) {
    entry.transfer.Active? || AboutToStart(entry)
  }

  /**
    An entry serves the file it is named after, is flagged once its transfer is over, and if it
    is flagged before that, the downloader has yet to run an abort.
  */
  ghost predicate EntryOk(cfg: Config, name: string, entry: Entry) {
    && name != ""
    && InboxOk(cfg, name, entry)
    && T.Good(cfg.transfer, entry.transfer)
    && (entry.transfer.Active? ==> Matches(cfg, name, entry.hash, entry.transfer.job.request))
    && (entry.transfer.Idle? ==> entry.completed || AboutToStart(entry))
    && (entry.completed && IsLive(entry) ==> T.AbortCommand in entry.inbox)
  }

  ghost predicate EntriesOk(cfg: Config, s: State) {
    forall n | n in s.entries :: EntryOk(cfg, n, s.entries[n])
  }

  /** The calls of one step, as the service sees them. */
  ghost predicate AreStepCalls(calls: seq<T.Call>) {
    || calls == []
    || (|calls| == 1 && (calls[0].Ask? || calls[0].Failed?))
    || (|calls| == 2 && calls[0].Saved? && calls[1].IsCallback())
  }

  ghost predicate Ends(calls: seq<T.Call>) {
    calls != [] && calls[|calls| - 1].IsCallback()
  }

  lemma StepCalls(cfg: T.Config, t: T.State, e: T.Event)
    ensures var o := T.Step(cfg, t, e);
            && AreStepCalls(o.calls)
            && (o.state.Active? ==> !Ends(o.calls))
            && (t.Active? && o.state.Idle? && !e.Abort? ==> Ends(o.calls))
            && (o.state.Undefined? ==> o.calls == [])
  {
    T.StepShape(cfg, t, e);
  }

  lemma OnStepCalls(s: State, name: string, hash: string, calls: seq<T.Call>)
    requires AreStepCalls(calls)
    ensures var o := OnCalls(s, name, hash, calls);
            && o.state.records == s.records && o.state.active == s.active && o.state.downloads == s.downloads
            && o.state.entries == (if Ends(calls) then Flagged(s.entries, name) else s.entries)
  {
    if |calls| == 1 {
      assert calls[..0] == [];
    } else if |calls| == 2 {
      var first := calls[..1];
      assert first[..0] == [];
      assert OnCalls(s, name, hash, first).state == s;
    }
  }

  /** The commands that the calls of one step have the service queue. */
  ghost function Pushed(name: string, hash: string, calls: seq<T.Call>): (commands: seq<Command>) {
    if !Ends(calls) then []
    else if calls[|calls| - 1].Succeeded? then
      [StoreRecord(FileInfo(name, hash, calls[|calls| - 1].path))] + [SendFileList]
   
    else [SendFileList]
  }

  lemma CallsPush(s: State, name: string, hash: string, calls: seq<T.Call>)
    requires AreStepCalls(calls)
    ensures OnCalls(s, name, hash, calls).state.queue == s.queue + Pushed(name, hash, calls)
  {
    if |calls| == 1 {
      assert calls[..0] == [];
    } else if |calls| == 2 {
      var first := calls[..1];
      assert first[..0] == [];
      assert OnCalls(s, name, hash, first).state == s;
    }
  }

  lemma EntryAfter(cfg: Config, name: string, entry: Entry, inbox: seq<T.Command>, e: T.Event)
    requires EntryOk(cfg, name, entry)
    requires entry.inbox == inbox || (entry.inbox != [] && inbox == entry.inbox[1..])
    requires entry.inbox == inbox ==> e.Timeout? && entry.transfer.Active?
    requires entry.inbox != inbox ==> exists writable :: e == T.EventOf(entry.inbox[0], writable)
    ensures var taken := T.Step(cfg.transfer, entry.transfer, e);
            EntryOk(cfg, name, entry.(transfer := taken.state, inbox := inbox,
                                      completed := entry.completed || Ends(taken.calls)))
  {
    T.StepKeepsGood(cfg.transfer, entry.transfer, e);
    T.StepShape(cfg.transfer, entry.transfer, e);
    ShapedEntryAfter(cfg, name, entry, inbox, e, T.Step(cfg.transfer, entry.transfer, e));
  }

  lemma ShapedEntryAfter(cfg: Config, name: string, entry: Entry, inbox: seq<T.Command>, e: T.Event, o: T.Result)
    requires EntryOk(cfg, name, entry) && T.Shaped(entry.transfer, e, o) && T.Good(cfg.transfer, o.state)
    requires entry.inbox == inbox || (entry.inbox != [] && inbox == entry.inbox[1..])
    requires entry.inbox == inbox ==> e.Timeout? && entry.transfer.Active?
    requires entry.inbox != inbox ==> exists writable :: e == T.EventOf(entry.inbox[0], writable)
    requires o.state.Idle? && !e.Abort? ==> Ends(o.calls)
    ensures EntryOk(cfg, name, entry.(transfer := o.state, inbox := inbox,
                                      completed := entry.completed || Ends(o.calls)))
  {
  }

  lemma DownloaderStep(cfg: Config, s: State, name: string, inbox: seq<T.Command>, e: T.Event)
    requires name in s.entries
    ensures var entry := s.entries[name];
            var taken := T.Step(cfg.transfer, entry.transfer, e);
            var t := Downloads(cfg, s, name, inbox, e).state;
            && t.entries == s.entries[name := entry.(transfer := taken.state, inbox := inbox,
                                                     completed := entry.completed || Ends(taken.calls))]
            && t.records == s.records && t.active == s.active
  {
    var entry := s.entries[name];
    var taken := T.Step(cfg.transfer, entry.transfer, e);
    StepCalls(cfg.transfer, entry.transfer, e);
    var u := s.(entries := s.entries[name := entry.(transfer := taken.state, inbox := inbox)]);
    OnStepCalls(u, name, entry.hash, taken.calls);
  }

  lemma StepKeepsEntries(cfg: Config, s: State, e: Event)
    requires EntriesOk(cfg, s)
    ensures EntriesOk(cfg, Step(cfg, s, e).state)
  {
    match e
    case Receive(_) =>
    case Collect =>
    case RunService(now) =>
      if s.queue != [] {
        PerformKeepsEntries(cfg, s.(queue := s.queue[1..]), s.queue[0], now);
      }
    case RunDownloader(name, writable) =>
      if name in s.entries && s.entries[name].inbox != [] {
        var inbox := s.entries[name].inbox;
        var event := T.EventOf(inbox[0], writable);
        DownloaderStep(cfg, s, name, inbox[1..], event);
        EntryAfter(cfg, name, s.entries[name], inbox[1..], event);
      }
    case TimerFires(name) =>
      if name in s.entries && s.entries[name].transfer.Active? {
        DownloaderStep(cfg, s, name, s.entries[name].inbox, T.Timeout);
        EntryAfter(cfg, name, s.entries[name], s.entries[name].inbox, T.Timeout);
      }
  }

  lemma PerformKeepsEntries(cfg: Config, s: State, c: Command, now: Surroundings)
    requires EntriesOk(cfg, s)
    ensures EntriesOk(cfg, Perform(cfg, s, c, now).state)
  {
    var t := Perform(cfg, s, c, now).state;
    match c
    case HandleBinary(packet) =>
      if s.active in s.entries {
        PushKeepsEntry(cfg, s.active, s.entries[s.active], T.DataCommand(packet), s.entries[s.active].completed);
      }
    case HandleAbort(name) =>
      if name in s.entries && name != "" {
        PushKeepsEntry(cfg, name, s.entries[name], T.AbortCommand, true);
        var entry := s.entries[name];
        assert t.entries == s.entries[name := entry.(inbox := entry.inbox + [T.AbortCommand], completed := true)];
      }
    case _ =>
  }

  lemma PushKeepsEntry(cfg: Config, name: string, entry: Entry, c: T.Command, completed: bool)
    requires EntryOk(cfg, name, entry) && !c.DownloadCommand?
    requires entry.completed ==> completed
    requires c.AbortCommand? ==> completed
    requires completed ==> entry.completed || c.AbortCommand?
    ensures EntryOk(cfg, name, entry.(inbox := entry.inbox + [c], completed := completed))
  {
  }

  /**
    In every run: no entry has the empty name, each serves the file it is named after under
    the hash it was started with, and each that is not flagged is running, about to start,
    or beyond defined behaviour.
  */
  lemma {:induction false} EveryEntryIsOk(cfg: Config, es: seq<Event>)
    ensures EntriesOk(cfg, After(cfg, es))
  {
    if es != [] {
      EveryEntryIsOk(cfg, es[..|es| - 1]);
      StepKeepsEntries(cfg, After(cfg, es[..|es| - 1]), es[|es| - 1]);
    }
  }

  // ---------------------------------------------------------------- flags and collection

  /** What a step may do to an entry that exists. */
  ghost predicate EntryKept(s: State, t: State, n: string) {
    n in s.entries ==>
      n in t.entries && t.entries[n].hash == s.entries[n].hash && (s.entries[n].completed ==> t.entries[n].completed)
  }

  /** Only the collector erases, and it erases exactly the flagged entries; a flag is never taken back. */
  lemma FlagsStayUntilCollected(cfg: Config, s: State, e: Event)
    ensures var t := Step(cfg, s, e).state;
            if e.Collect? then
              forall n :: (n in t.entries <==> n in s.entries && !s.entries[n].completed)
                          && (n in t.entries ==> t.entries[n] == s.entries[n])
            else forall n :: EntryKept(s, t, n)
  {
    match e
    case RunDownloader(name, writable) =>
      if name in s.entries && s.entries[name].inbox != [] {
        DownloaderStep(cfg, s, name, s.entries[name].inbox[1..], T.EventOf(s.entries[name].inbox[0], writable));
      }
    case TimerFires(name) =>
      if name in s.entries && s.entries[name].transfer.Active? {
        DownloaderStep(cfg, s, name, s.entries[name].inbox, T.Timeout);
      }
    case _ =>
  }

  /** With no active name, data changes nothing. */
  lemma UnexpectedDataIsDropped(cfg: Config, es: seq<Event>, packet: Packet)
    requires After(cfg, es).active == ""
    ensures OnBinary(After(cfg, es), packet) == After(cfg, es)
  {
    EveryEntryIsOk(cfg, es);
  }

  // ---------------------------------------------------------------- late data

  ghost predicate Faulty(s: State, name: string) {
    name in s.entries && s.entries[name].transfer.Undefined?
  }

  /** Running this command of a download has no defined outcome. */
  predicate Faults(cfg: T.Config, t: T.State, c: T.Command) {
    match c
    case DataCommand(_) => t.Idle?
    case DownloadCommand(_, request) => cfg.PlanOf(request.size).None?
    case AbortCommand => false
  }

  lemma StepFaults(cfg: T.Config, t: T.State, c: T.Command, writable: bool)
    requires !t.Undefined?
    ensures T.Step(cfg, t, T.EventOf(c, writable)).state.Undefined? <==> Faults(cfg, t, c)
  {
    T.StepShape(cfg, t, T.EventOf(c, writable));
  }

  /**
    In every run, a downloader's next command calls an empty function exactly if it is data and
    the transfer is over, its entry then waiting for the collector; or its outcome is undefined
    because it starts a file whose packet count is out of range.
  */
  lemma FaultsExactlyWhen(cfg: Config, es: seq<Event>, name: string, writable: bool)
    requires var s := After(cfg, es);
             name in s.entries && s.entries[name].inbox != [] && !Faulty(s, name)
    ensures var s := After(cfg, es);
            var entry, c := s.entries[name], s.entries[name].inbox[0];
            && (Faulty(Step(cfg, s, RunDownloader(name, writable)).state, name)
                <==> Faults(cfg.transfer, entry.transfer, c))
            && (c.DataCommand? && entry.transfer.Idle? ==> entry.completed)
  {
    EveryEntryIsOk(cfg, es);
    var s := After(cfg, es);
    var inbox := s.entries[name].inbox;
    DownloaderStep(cfg, s, name, inbox[1..], T.EventOf(inbox[0], writable));
    StepFaults(cfg.transfer, s.entries[name].transfer, inbox[0], writable);
  }
}
