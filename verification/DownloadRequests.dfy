/** What the service sends on behalf of its downloaders, in every interleaving. */
module DownloadRequests {
  import opened Bytes
  import opened FileHandling
  import opened Machine
  import T = Transfer
  import R = TransferRequests
  import opened FileRepository
  import opened FileListing
  import opened DownloadMachine
  import opened DownloadRuns
  import opened DownloadIntegrity
  import opened DownloadAnswers
  import O = DownloadOrigin

  // ---------------------------------------------------------------- one step of a downloader

  /** The event that the downloader of this name takes in the step, if it is the one to take it. */
  function EventFor(s: State, e: Event, name: string): (event: Option<T.Event>) {
    match e
    case RunDownloader(n, writable) =>
      if n == name && name in s.entries && s.entries[name].inbox != []
      then Some(T.EventOf(s.entries[name].inbox[0], writable)) else None
    case TimerFires(n) =>
      if n == name && name in s.entries && s.entries[name].transfer.Active? then Some(T.Timeout) else None
    case _ => None
  }

  lemma StepIsDownloads(cfg: Config, s: State, e: Event, name: string) returns (inbox: seq<T.Command>)
    requires EventFor(s, e, name).Some?
    ensures Step(cfg, s, e) == Downloads(cfg, s, name, inbox, EventFor(s, e, name).value)
    ensures inbox == if e.TimerFires? then s.entries[name].inbox else s.entries[name].inbox[1..]
    ensures name in s.entries
  {
    inbox := if e.TimerFires? then s.entries[name].inbox else s.entries[name].inbox[1..];
  }

  lemma OneAsk(s: State, name: string, hash: string, call: T.Call)
    requires call.Ask?
    ensures OnCalls(s, name, hash, [call]).calls == [Asked(call.name, call.index, call.size)]
  {
    assert [call][..0] == [];
    assert OnCalls(s, name, hash, []) == Outcome(s, []);
  }

  lemma NoAsks(s: State, name: string, hash: string, calls: seq<T.Call>)
    requires AreStepCalls(calls) && (calls != [] ==> !calls[0].Ask?)
    ensures forall x | x in OnCalls(s, name, hash, calls).calls :: !x.Asked?
  {
    if |calls| == 1 {
      assert calls[..0] == [];
    } else if |calls| == 2 {
      var first := calls[..1];
      assert first[..0] == [];
      assert OnCalls(s, name, hash, first) == Outcome(s, [Wrote(calls[0].write)]);
    }
  }

  /** The size belongs to the plan of a file of that length. */
  ghost predicate Planned(cfg: Config, index: nat, size: nat, fileSize: nat) {
    && cfg.transfer.PlanOf(fileSize).Some?
    && index < cfg.transfer.PlanOf(fileSize).value.count
    && size == cfg.transfer.PlanOf(fileSize).value.packetSize
  }

  /** One request for the packet after those accepted if the transfer is active, and else none. */
  ghost predicate AsksOnce(cfg: Config, o: Result, name: string) {
    && name in o.state.entries
    && var t := o.state.entries[name].transfer;
       if t.Active? then
         && |o.calls| == 1 && o.calls[0].Asked? && o.calls[0].name == name
         && o.calls[0].index == |t.accepted|
         && Planned(cfg, o.calls[0].index, o.calls[0].size, t.job.request.size)
       else forall x | x in o.calls :: !x.Asked?
  }

  /**
    In every run: a downloader's step that leaves its transfer active sends one packet request,
    for that file, for the packet after those accepted, in the planned size; any other step of
    a downloader sends none.
  */
  lemma EveryStepAsks(cfg: Config, es: seq<Event>, e: Event, name: string)
    requires EventFor(After(cfg, es), e, name).Some?
    ensures var s := After(cfg, es);
            AsksOnce(cfg, Step(cfg, s, e), name)
  {
    EveryEntryIsOk(cfg, es);
    var s, event := After(cfg, es), EventFor(After(cfg, es), e, name).value;
    var inbox := StepIsDownloads(cfg, s, e, name);
    DownloaderAsks(cfg, s, name, inbox, event);
  }

  lemma DownloaderAsks(cfg: Config, s: State, name: string, inbox: seq<T.Command>, event: T.Event)
    requires EntriesOk(cfg, s) && name in s.entries
    requires var entry := s.entries[name];
             || (inbox == entry.inbox && event.Timeout? && entry.transfer.Active?)
             || (entry.inbox != [] && inbox == entry.inbox[1..] && exists w :: event == T.EventOf(entry.inbox[0], w))
    ensures AsksOnce(cfg, Downloads(cfg, s, name, inbox, event), name)
  {
    var entry := s.entries[name];
    var taken := T.Step(cfg.transfer, entry.transfer, event);
    var u := s.(entries := s.entries[name := entry.(transfer := taken.state, inbox := inbox)]);
    R.StepAsks(cfg.transfer, entry.transfer, event);
    StepCalls(cfg.transfer, entry.transfer, event);
    DownloaderStep(cfg, s, name, inbox, event);
    EntryAfter(cfg, name, entry, inbox, event);
    if taken.state.Active? {
      assert taken.calls == [taken.calls[0]];
      OneAsk(u, name, entry.hash, taken.calls[0]);
    } else {
      assert taken.calls != [] ==> taken.calls[0] in taken.calls;
      NoAsks(u, name, entry.hash, taken.calls);
    }
  }

  // ---------------------------------------------------------------- every request of every run

  /** The platform initiated an upload of this name and length. */
  ghost predicate RequestedSize(es: seq<Event>, name: string, size: nat) {
    exists hash :: Receive(HandleInitiate(name, size, hash)) in es
  }

  ghost predicate EntrySized(es: seq<Event>, name: string, entry: Entry) {
    && (entry.transfer.Active? ==> RequestedSize(es, name, entry.transfer.job.request.size))
    && (forall c | c in entry.inbox && c.DownloadCommand? :: RequestedSize(es, name, c.request.size))
  }

  ghost predicate Sized(es: seq<Event>, s: State) {
    && (forall n | n in s.entries :: EntrySized(es, n, s.entries[n]))
    && (forall c | c in s.queue && c.HandleInitiate? :: RequestedSize(es, c.name, c.size))
  }

  lemma SizedStays(es: seq<Event>, e: Event, s: State)
    requires Sized(es, s)
    ensures Sized(es + [e], s)
  {
    forall name, size | RequestedSize(es, name, size)
      ensures RequestedSize(es + [e], name, size)
    {
      var hash :| Receive(HandleInitiate(name, size, hash)) in es;
      assert Receive(HandleInitiate(name, size, hash)) in es + [e];
    }
  }

  lemma PerformIsSized(cfg: Config, es: seq<Event>, s: State, c: Command, now: Surroundings)
    requires Sized(es, s) && (c.HandleInitiate? ==> RequestedSize(es, c.name, c.size))
    ensures Sized(es, Perform(cfg, s, c, now).state)
  {
  }

  lemma DownloaderIsSized(cfg: Config, es: seq<Event>, s: State, name: string, inbox: seq<T.Command>, event: T.Event)
    requires Sized(es, s) && name in s.entries
    requires var entry := s.entries[name];
             || (inbox == entry.inbox && event.Timeout? && entry.transfer.Active?)
             || (entry.inbox != [] && inbox == entry.inbox[1..] && exists w :: event == T.EventOf(entry.inbox[0], w))
    ensures Sized(es, Downloads(cfg, s, name, inbox, event).state)
  {
    var entry := s.entries[name];
    var taken := T.Step(cfg.transfer, entry.transfer, event);
    var u := s.(entries := s.entries[name := entry.(transfer := taken.state, inbox := inbox)]);
    T.StepShape(cfg.transfer, entry.transfer, event);
    StepCalls(cfg.transfer, entry.transfer, event);
    DownloaderStep(cfg, s, name, inbox, event);
    CallsPush(u, name, entry.hash, taken.calls);
    assert event.Download? ==> entry.inbox[0] in entry.inbox;
  }

  lemma StepIsSized(cfg: Config, es: seq<Event>, s: State, e: Event)
    requires Sized(es, s)
    ensures Sized(es + [e], Step(cfg, s, e).state)
  {
    SizedStays(es, e, s);
    match e
    case Receive(c) => assert e in es + [e];
    case Collect =>
    case RunService(now) =>
      if s.queue != [] {
        assert s.queue[0] in s.queue;
        PerformIsSized(cfg, es + [e], s.(queue := s.queue[1..]), s.queue[0], now);
      }
    case RunDownloader(n, writable) =>
      if n in s.entries && s.entries[n].inbox != [] {
        var inbox := s.entries[n].inbox;
        DownloaderIsSized(cfg, es + [e], s, n, inbox[1..], T.EventOf(inbox[0], writable));
      }
    case TimerFires(n) =>
      if n in s.entries && s.entries[n].transfer.Active? {
        DownloaderIsSized(cfg, es + [e], s, n, s.entries[n].inbox, T.Timeout);
      }
  }

  lemma {:induction false} EveryRunIsSized(cfg: Config, es: seq<Event>)
    ensures Sized(es, After(cfg, es))
  {
    if es != [] {
      var init, e := es[..|es| - 1], es[|es| - 1];
      EveryRunIsSized(cfg, init);
      StepIsSized(cfg, init, After(cfg, init), e);
      assert init + [e] == es;
    }
  }

  /** Nothing but a downloader's step sends a packet request. */
  lemma OnlyDownloadersAsk(cfg: Config, s: State, e: Event)
    requires !e.RunDownloader? && !e.TimerFires?
    ensures forall x | x in Step(cfg, s, e).calls :: !x.Asked?
  {
    if e.RunService? && s.queue != [] && s.queue[0].SendFileList? {
      ReadsAreReads(cfg, s.records, e.now.directory, e.now.directory.names);
    }
  }

  /** The platform initiated an upload of this name, and the request is for a packet of its plan. */
  ghost predicate Follows(cfg: Config, es: seq<Event>, x: Effect)
    requires x.Asked?
  {
    exists size: nat :: RequestedSize(es, x.name, size) && Planned(cfg, x.index, x.size, size)
  }

  ghost predicate AllFollow(cfg: Config, es: seq<Event>, effects: seq<Effect>) {
    forall x | x in effects && x.Asked? :: Follows(cfg, es, x)
  }

  lemma SizedAskFollows(cfg: Config, es: seq<Event>, o: Result, name: string)
    requires AsksOnce(cfg, o, name) && Sized(es, o.state)
    ensures AllFollow(cfg, es, o.calls)
  {
    assert EntrySized(es, name, o.state.entries[name]);
  }

  lemma DownloaderFollows(cfg: Config, es: seq<Event>, e: Event, name: string)
    requires EventFor(After(cfg, es), e, name).Some?
    ensures AllFollow(cfg, es + [e], Step(cfg, After(cfg, es), e).calls)
  {
    EveryStepAsks(cfg, es, e, name);
    EveryRunIsSized(cfg, es);
    StepIsSized(cfg, es, After(cfg, es), e);
    SizedAskFollows(cfg, es + [e], Step(cfg, After(cfg, es), e), name);
  }

  lemma StepFollows(cfg: Config, es: seq<Event>, e: Event)
    ensures AllFollow(cfg, es + [e], Step(cfg, After(cfg, es), e).calls)
  {
    if e.RunDownloader? || e.TimerFires? {
      if EventFor(After(cfg, es), e, e.name).Some? {
        DownloaderFollows(cfg, es, e, e.name);
      }
    } else {
      OnlyDownloadersAsk(cfg, After(cfg, es), e);
    }
  }

  lemma FollowStays(cfg: Config, es: seq<Event>, e: Event, effects: seq<Effect>)
    requires AllFollow(cfg, es, effects)
    ensures AllFollow(cfg, es + [e], effects)
  {
    forall x | x in effects && x.Asked?
      ensures Follows(cfg, es + [e], x)
    {
      var size: nat :| RequestedSize(es, x.name, size) && Planned(cfg, x.index, x.size, size);
      var hash :| Receive(HandleInitiate(x.name, size, hash)) in es;
      assert Receive(HandleInitiate(x.name, size, hash)) in es + [e];
    }
  }

  /**
    In every run, each packet request is for a file whose upload the platform initiated, and
    asks for a packet of the plan of exactly that length, in the planned size.
  */
  lemma {:induction false} RequestsFollowInitiates(cfg: Config, es: seq<Event>)
    ensures AllFollow(cfg, es, Effects(cfg, es))
  {
    if es != [] {
      var init, e := es[..|es| - 1], es[|es| - 1];
      assert init + [e] == es;
      RequestsFollowInitiates(cfg, init);
      FollowStays(cfg, init, e, Effects(cfg, init));
      StepFollows(cfg, init, e);
      assert Effects(cfg, es) == Effects(cfg, init) + Step(cfg, After(cfg, init), e).calls;
    }
  }

  // ---------------------------------------------------------------- failures and completions

  lemma CodesAreKept(u: State, name: string, hash: string, calls: seq<T.Call>)
    requires AreStepCalls(calls)
    ensures var sent := OnCalls(u, name, hash, calls).calls;
            && (StatusSent(name, Error(UploadError.FILE_SYSTEM_ERROR)) in sent
                <==> exists c :: c in calls && c.Failed? && c.error == T.FILE_SYSTEM_ERROR)
            && (StatusSent(name, Error(UploadError.RETRY_COUNT_EXCEEDED)) in sent
                <==> exists c :: c in calls && c.Failed? && c.error == T.RETRY_COUNT_EXCEEDED)
            && (StatusSent(name, Error(UploadError.UNSPECIFIED_ERROR)) in sent
                <==> exists c :: c in calls && c.Failed? && c.error == T.UNSPECIFIED_ERROR)
  {
    if |calls| == 1 {
      assert calls[..0] == [];
      assert calls[0] in calls;
    } else if |calls| == 2 {
      var first := calls[..1];
      assert first[..0] == [];
      assert OnCalls(u, name, hash, first) == Outcome(u, [Wrote(calls[0].write)]);
      assert calls[1] in calls;
    }
  }

  /**
    In every run, a running download's error status tells the truth: FILE_SYSTEM_ERROR exactly
    if the complete, validated file cannot be written, UNSPECIFIED_ERROR exactly if the complete
    file has another hash than requested, RETRY_COUNT_EXCEEDED exactly if the third request for
    a packet ends in a timeout or a bad packet.
  */
  lemma FailureIsReported(cfg: Config, es: seq<Event>, e: Event, name: string)
    requires EventFor(After(cfg, es), e, name).Some? && After(cfg, es).entries[name].transfer.Active?
    ensures var s, event := After(cfg, es), EventFor(After(cfg, es), e, name).value;
            var t, sent := s.entries[name].transfer, Step(cfg, s, e).calls;
            && (StatusSent(name, Error(UploadError.FILE_SYSTEM_ERROR)) in sent
                <==> R.IsLast(cfg.transfer, t, event) && R.IsWhole(cfg.transfer, t, event) && !event.writable)
            && (StatusSent(name, Error(UploadError.UNSPECIFIED_ERROR)) in sent
                <==> R.IsLast(cfg.transfer, t, event) && !R.IsWhole(cfg.transfer, t, event))
            && (StatusSent(name, Error(UploadError.RETRY_COUNT_EXCEEDED)) in sent
                <==> R.IsSetback(cfg.transfer, t, event) && t.tries == 3)
  {
    EveryEntryIsOk(cfg, es);
    var s, event := After(cfg, es), EventFor(After(cfg, es), e, name).value;
    var inbox := StepIsDownloads(cfg, s, e, name);
    var entry := s.entries[name];
    var taken := T.Step(cfg.transfer, entry.transfer, event);
    StepCalls(cfg.transfer, entry.transfer, event);
    R.FailsExactlyWhen(cfg.transfer, entry.transfer, event);
    CodesAreKept(s.(entries := s.entries[name := entry.(transfer := taken.state, inbox := inbox)]),
                 name, entry.hash, taken.calls);
  }

  /**
    Whatever ends a download is followed by a list: each callback queues one behind all that
    waits, and a completion the record to be stored before it.
  */
  lemma EndsQueueList(cfg: Config, s: State, e: Event, name: string)
    ensures var calls, queue := CallsFor(cfg, s, e, name), Step(cfg, s, e).state.queue;
            calls != [] && calls[|calls| - 1].IsCallback() ==>
              && s.queue <= queue && queue[|queue| - 1] == SendFileList
              && |queue| == |s.queue| + (if calls[|calls| - 1].Succeeded? then 2 else 1)
              && (calls[|calls| - 1].Succeeded? ==> StoresName(queue[|s.queue|], name))
  {
    if EventFor(s, e, name).Some? {
      var inbox := StepIsDownloads(cfg, s, e, name);
      var entry, event := s.entries[name], EventFor(s, e, name).value;
      var taken := T.Step(cfg.transfer, entry.transfer, event);
      StepCalls(cfg.transfer, entry.transfer, event);
      CallsPush(s.(entries := s.entries[name := entry.(transfer := taken.state, inbox := inbox)]),
                name, entry.hash, taken.calls);
    }
  }

  // ---------------------------------------------------------------- lists and other files

  predicate IsListed(s: State, dir: Directory, name: string) {
    name in dir.names && (name in s.records || name in dir.readable)
  }

  /**
    In every reachable state, running the list command sends one list, as the last thing: exactly the files of the
    directory that are recorded or can be read. The others have left the table.
  */
  lemma ListIsSent(cfg: Config, es: seq<Event>, now: Surroundings)
    requires After(cfg, es).queue != [] && After(cfg, es).queue[0] == SendFileList
    ensures var s := After(cfg, es);
            var o := Step(cfg, s, RunService(now));
            && o.calls != [] && o.calls[|o.calls| - 1].ListSent?
            && (forall n :: n in o.calls[|o.calls| - 1].names <==> IsListed(s, now.directory, n))
            && (forall i | 0 <= i < |o.calls| - 1 :: o.calls[i].ReadFile?)
            && (forall n | n in o.state.records :: IsListed(s, now.directory, n))
            && (forall n | n in s.records && n in now.directory.names ::
                  n in o.state.records && o.state.records[n] == s.records[n])
            && o.state.queue == s.queue[1..] && o.state.entries == s.entries
  {
    O.EveryRunIsTraced(cfg, es);
    var s, dir := After(cfg, es), now.directory;
    ReadsAreReads(cfg, s.records, dir, dir.names);
    ReconciledContents(s.records, cfg.AsHost(), dir);
    var o := Step(cfg, s, RunService(now));
    var seen := Reads(cfg, s.records, dir, dir.names);
    assert o.calls == seen + [ListSent(Listed(s.records, dir))];
    forall i | 0 <= i < |o.calls| - 1
      ensures o.calls[i].ReadFile?
    {
      assert o.calls[i] == seen[i];
      assert seen[i] in seen;
    }
  }

  /**
    In every reachable state, recording a completed download always sends FILE_READY, but the table holds the record
    afterwards if and only if no other name holds its path; otherwise it does not hold the name.
  */
  lemma ReadyIsRecordedExactlyWhen(cfg: Config, es: seq<Event>, info: FileInfo, now: Surroundings)
    requires After(cfg, es).queue != [] && After(cfg, es).queue[0] == StoreRecord(info)
    ensures var s := After(cfg, es);
            var o := Step(cfg, s, RunService(now));
            && o.calls == [FileReady(info)]
            && (info.name in o.state.records <==> forall n | n in s.records && n != info.name ::
                                                    s.records[n].path != info.path)
            && (info.name in o.state.records ==> o.state.records[info.name] == info)
            && (forall n | n != info.name :: n in o.state.records <==> n in s.records)
            && (forall n | n != info.name && n in s.records :: o.state.records[n] == s.records[n])
            && o.state.queue == s.queue[1..] && o.state.entries == s.entries
  {
    O.EveryRunIsTraced(cfg, es);
    StoreThenLookup(After(cfg, es).records, info);
  }

  /** A file that arrived by URL is recorded with the hash of its bytes, exactly if its path is free. */
  lemma UrlFileIsRecorded(cfg: Config, es: seq<Event>, name: string, path: string, now: Surroundings)
    requires After(cfg, es).queue != [] && After(cfg, es).queue[0] == StoreUrlFile(name, path)
    requires path in now.elsewhere
    ensures var s := After(cfg, es);
            var m := Step(cfg, s, RunService(now)).state.records;
            var hash := cfg.codec.encode(cfg.transfer.digest.sha(now.elsewhere[path]));
            && (name in m && m[name] == FileInfo(name, hash, path)
                <==> forall n | n in s.records && n != name :: s.records[n].path != path)
            && (forall n | n != name :: (n in m <==> n in s.records) && (n in m ==> m[n] == s.records[n]))
  {
    O.EveryRunIsTraced(cfg, es);
    StoreThenLookup(After(cfg, es).records, FileInfo(name, cfg.Fingerprint(now.elsewhere[path]), path));
  }
}
