/** Where a download comes from: what is started, recorded or reported ready was asked for. */
module DownloadOrigin {
  import T = Transfer
  import opened FileRepository
  import opened FileListing
  import opened DownloadMachine
  import opened DownloadRuns
  import opened DownloadIntegrity

  /** The platform initiated an upload of this name with this hash. */
  ghost predicate Requested(es: seq<Event>, name: string, hash: string) {
    exists size: nat :: Receive(HandleInitiate(name, size, hash)) in es
  }

  ghost predicate CommandTraced(es: seq<Event>, c: Command) {
    match c
    case HandleInitiate(name, size, hash) => Requested(es, name, hash)
    case StoreRecord(info) => Requested(es, info.name, info.hash)
    case _ => true
  }

  ghost predicate QueueTraced(es: seq<Event>, queue: seq<Command>) {
    forall c | c in queue :: CommandTraced(es, c)
  }

  ghost predicate EntriesTraced(es: seq<Event>, entries: map<string, Entry>) {
    forall n | n in entries :: Requested(es, n, entries[n].hash)
  }

  ghost predicate ReadyTraced(es: seq<Event>, effects: seq<Effect>) {
    forall e | e in effects && e.FileReady? :: Requested(es, e.info.name, e.info.hash)
  }

  ghost predicate Traced(es: seq<Event>, effects: seq<Effect>, s: State) {
    && Consistent(s.records)
    && QueueTraced(es, s.queue) && EntriesTraced(es, s.entries) && ReadyTraced(es, effects)
  }

  lemma RequestedStays(es: seq<Event>, e: Event, name: string, hash: string)
    requires Requested(es, name, hash)
    ensures Requested(es + [e], name, hash)
  {
    var size: nat :| Receive(HandleInitiate(name, size, hash)) in es;
    assert Receive(HandleInitiate(name, size, hash)) in es + [e];
  }

  lemma TracedStays(es: seq<Event>, e: Event, effects: seq<Effect>, s: State)
    requires Traced(es, effects, s)
    ensures Traced(es + [e], effects, s)
  {
    forall name, hash | Requested(es, name, hash)
      ensures Requested(es + [e], name, hash)
    {
      RequestedStays(es, e, name, hash);
    }
  }

  lemma PerformKeepsConsistent(cfg: Config, s: State, c: Command, now: Surroundings)
    requires Consistent(s.records)
    ensures Consistent(Perform(cfg, s, c, now).state.records)
  {
    match c
    case StoreRecord(info) => StoredIsConsistent(s.records, info);
    case StoreUrlFile(name, path) =>
      if path in now.elsewhere {
        StoredIsConsistent(s.records, FileInfo(name, cfg.Fingerprint(now.elsewhere[path]), path));
      }
    case SendFileList => ReconciledContents(s.records, cfg.AsHost(), now.directory);
    case _ => OtherCommandsStoreNothing(cfg, s, c, now);
  }

  lemma PerformIsTraced(cfg: Config, es: seq<Event>, effects: seq<Effect>, s: State, c: Command, now: Surroundings)
    requires Traced(es, effects, s) && CommandTraced(es, c)
    ensures var o := Perform(cfg, s, c, now); Traced(es, effects + o.calls, o.state)
  {
    PerformKeepsConsistent(cfg, s, c, now);
    if c.SendFileList? {
      ReadsAreReads(cfg, s.records, now.directory, now.directory.names);
    }
  }

  lemma DownloaderIsTraced(cfg: Config, es: seq<Event>, effects: seq<Effect>, s: State, name: string,
                           inbox: seq<T.Command>, e: T.Event)
    requires Traced(es, effects, s) && name in s.entries
    ensures var o := Downloads(cfg, s, name, inbox, e); Traced(es, effects + o.calls, o.state)
  {
    var entry := s.entries[name];
    var taken := T.Step(cfg.transfer, entry.transfer, e);
    var u := s.(entries := s.entries[name := entry.(transfer := taken.state, inbox := inbox)]);
    var o := Downloads(cfg, s, name, inbox, e);
    StepCalls(cfg.transfer, entry.transfer, e);
    DownloaderStep(cfg, s, name, inbox, e);
    CallsPushAndEmit(u, name, entry.hash, taken.calls);
    forall c | c in o.state.queue
      ensures CommandTraced(es, c)
    {
      if c !in s.queue {
        assert c == SendFileList || (c.StoreRecord? && c.info.name == name && c.info.hash == entry.hash);
      }
    }
  }

  lemma StepIsTraced(cfg: Config, es: seq<Event>, effects: seq<Effect>, s: State, e: Event)
    requires Traced(es, effects, s)
    ensures var o := Step(cfg, s, e); Traced(es + [e], effects + o.calls, o.state)
  {
    TracedStays(es, e, effects, s);
    assert effects + [] == effects;
    match e
    case Receive(c) => assert e in es + [e];
    case Collect =>
    case RunService(now) =>
      if s.queue != [] {
        PerformIsTraced(cfg, es + [e], effects, s.(queue := s.queue[1..]), s.queue[0], now);
      }
    case RunDownloader(name, writable) =>
      if name in s.entries && s.entries[name].inbox != [] {
        var inbox := s.entries[name].inbox;
        DownloaderIsTraced(cfg, es + [e], effects, s, name, inbox[1..], T.EventOf(inbox[0], writable));
      }
    case TimerFires(name) =>
      if name in s.entries && s.entries[name].transfer.Active? {
        DownloaderIsTraced(cfg, es + [e], effects, s, name, s.entries[name].inbox, T.Timeout);
      }
  }

  lemma {:induction false} EveryRunIsTraced(cfg: Config, es: seq<Event>)
    ensures Traced(es, Effects(cfg, es), After(cfg, es))
  {
    if es != [] {
      var init := es[..|es| - 1];
      EveryRunIsTraced(cfg, init);
      StepIsTraced(cfg, init, Effects(cfg, init), After(cfg, init), es[|es| - 1]);
      assert init + [es[|es| - 1]] == es;
    }
  }

  /**
    End to end, for downloads: in every run, when a completed download is recorded, FILE_READY
    is sent for it, the platform initiated an upload of that name with that hash, and the
    downloader had saved under that name bytes whose SHA-256 is the decoded hash of that request.
  */
  lemma CompletionIsVerified(cfg: Config, es: seq<Event>, now: Surroundings)
    requires After(cfg, es).queue != [] && After(cfg, es).queue[0].StoreRecord?
    ensures var s := After(cfg, es);
            var info, o := s.queue[0].info, Step(cfg, s, RunService(now));
            && o.calls == [FileReady(info)] && o.state.records == Stored(s.records, info)
            && (exists size: nat :: Receive(HandleInitiate(info.name, size, info.hash)) in es)
            && info.path == cfg.PathOf(info.name)
            && (exists i :: 0 <= i < |Effects(cfg, es)| &&
                  Effects(cfg, es)[i].Wrote? && Shows(cfg, Effects(cfg, es)[i], info))
  {
    EveryRunIsTraced(cfg, es);
    EveryRunSaves(cfg, es);
    var c := After(cfg, es).queue[0];
    assert c in After(cfg, es).queue;
    assert CommandTraced(es, c) && SavedBefore(cfg, Effects(cfg, es), c.info);
  }

  /**
    For every FILE_READY, the ones that answer a request at once included: it answers an upload
    that the platform initiated under that name, and at an earlier moment the file held bytes
    whose SHA-256 is the hash that this very request gave.
  */
  lemma ReadyAnswersARequest(cfg: Config, es: seq<Event>, i: nat)
    requires RoundTrips(cfg.codec)
    requires i < |Effects(cfg, es)| && Effects(cfg, es)[i].FileReady?
    ensures var effects, info := Effects(cfg, es), Effects(cfg, es)[i].info;
            && (exists size: nat :: Receive(HandleInitiate(info.name, size, info.hash)) in es)
            && (exists j :: 0 <= j < i && Shows(cfg, effects[j], info))
  {
    EveryRunIsTraced(cfg, es);
    ReadyMeansVerified(cfg, es);
    assert Effects(cfg, es)[i] in Effects(cfg, es);
  }
}
