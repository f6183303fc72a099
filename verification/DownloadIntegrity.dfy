/**
  End to end: a file is reported ready only after bytes with the SHA-256 of its record were
  at its path. Nothing is assumed of the platform or of the channel.
*/
module DownloadIntegrity {
  import opened Bytes
  import opened FileHandling
  import opened Machine
  import T = Transfer
  import S = TransferSafety
  import opened FileRepository
  import opened FileListing
  import opened DownloadMachine
  import opened DownloadRuns

  /** The effect shows that bytes with the record's hash were at the record's path. */
  ghost predicate Shows(cfg: Config, e: Effect, info: FileInfo) {
    match e
    case Wrote(write) =>
      && write.done && cfg.transfer.paths.absolute(write.path) == info.path
      && cfg.transfer.digest.sha(write.content) == cfg.codec.decode(info.hash)
    case ReadFile(path, content) =>
      path == info.path && cfg.transfer.digest.sha(content) == cfg.codec.decode(info.hash)
    case _ => false
  }

  ghost predicate Backed(cfg: Config, effects: seq<Effect>, info: FileInfo) {
    exists i :: 0 <= i < |effects| && Shows(cfg, effects[i], info)
  }

  /** The downloader itself saved such bytes. */
  ghost predicate SavedBefore(cfg: Config, effects: seq<Effect>, info: FileInfo) {
    exists i :: 0 <= i < |effects| && effects[i].Wrote? && Shows(cfg, effects[i], info)
  }

  /** What completed downloads are about to record was saved under its own name. */
  ghost predicate QueueSaved(cfg: Config, effects: seq<Effect>, queue: seq<Command>) {
    forall c | c in queue && c.StoreRecord? ::
      SavedBefore(cfg, effects, c.info) && c.info.path == cfg.PathOf(c.info.name)
  }

  ghost predicate RecordsBacked(cfg: Config, effects: seq<Effect>, m: Records) {
    forall n | n in m :: Backed(cfg, effects, m[n])
  }

  ghost predicate ReadyBacked(cfg: Config, effects: seq<Effect>) {
    forall i | 0 <= i < |effects| && effects[i].FileReady? :: Backed(cfg, effects[..i], effects[i].info)
  }

  ghost predicate Saving(cfg: Config, effects: seq<Effect>, s: State) {
    EntriesOk(cfg, s) && QueueSaved(cfg, effects, s.queue)
  }

  ghost predicate Honest(cfg: Config, effects: seq<Effect>, s: State) {
    && Saving(cfg, effects, s)
    && Consistent(s.records)
    && RecordsBacked(cfg, effects, s.records)
    && ReadyBacked(cfg, effects)
  }

  /** base64 decodes what it encodes. */
  ghost predicate RoundTrips(codec: Codec) {
    forall b: Bytes :: codec.decode(codec.encode(b)) == b
  }

  // ---------------------------------------------------------------- monotonicity

  lemma BackedStays(cfg: Config, effects: seq<Effect>, more: seq<Effect>, info: FileInfo)
    requires Backed(cfg, effects, info)
    ensures Backed(cfg, effects + more, info)
  {
    var i :| 0 <= i < |effects| && Shows(cfg, effects[i], info);
    assert (effects + more)[i] == effects[i];
  }

  lemma SavedStays(cfg: Config, effects: seq<Effect>, more: seq<Effect>, info: FileInfo)
    requires SavedBefore(cfg, effects, info)
    ensures SavedBefore(cfg, effects + more, info)
  {
    var i :| 0 <= i < |effects| && effects[i].Wrote? && Shows(cfg, effects[i], info);
    assert (effects + more)[i] == effects[i];
  }

  lemma QueueStaysSaved(cfg: Config, effects: seq<Effect>, more: seq<Effect>, queue: seq<Command>)
    requires QueueSaved(cfg, effects, queue)
    ensures QueueSaved(cfg, effects + more, queue)
  {
    forall c | c in queue && c.StoreRecord?
      ensures SavedBefore(cfg, effects + more, c.info) && c.info.path == cfg.PathOf(c.info.name)
    {
      SavedStays(cfg, effects, more, c.info);
    }
  }

  lemma RecordsStayBacked(cfg: Config, effects: seq<Effect>, more: seq<Effect>, m: Records)
    requires RecordsBacked(cfg, effects, m)
    ensures RecordsBacked(cfg, effects + more, m)
  {
    forall n | n in m
      ensures Backed(cfg, effects + more, m[n])
    {
      BackedStays(cfg, effects, more, m[n]);
    }
  }

  lemma ReadyStays(cfg: Config, effects: seq<Effect>, more: seq<Effect>)
    requires ReadyBacked(cfg, effects)
    requires forall e | e in more && e.FileReady? :: Backed(cfg, effects, e.info)
    ensures ReadyBacked(cfg, effects + more)
  {
    var all := effects + more;
    forall i | 0 <= i < |all| && all[i].FileReady?
      ensures Backed(cfg, all[..i], all[i].info)
    {
      if i < |effects| {
        assert all[..i] == effects[..i];
      } else {
        assert all[i] == more[i - |effects|];
        assert all[..i] == effects + more[..i - |effects|];
        BackedStays(cfg, effects, more[..i - |effects|], all[i].info);
      }
    }
  }

  lemma Newest(cfg: Config, effects: seq<Effect>, more: seq<Effect>, info: FileInfo)
    requires exists e :: e in more && Shows(cfg, e, info)
    ensures Backed(cfg, effects + more, info)
  {
    var e :| e in more && Shows(cfg, e, info);
    var i :| 0 <= i < |more| && more[i] == e;
    assert (effects + more)[|effects| + i] == e;
  }

  // ---------------------------------------------------------------- the listing

  lemma {:induction false} ReadsShowNewFiles(cfg: Config, m: Records, dir: Directory, names: seq<string>, n: string)
    requires n in names && n !in m && n in dir.readable
    ensures ReadFile(cfg.PathOf(n), dir.readable[n]) in Reads(cfg, m, dir, names)
  {
    if n != names[|names| - 1] {
      var k :| 0 <= k < |names| && names[k] == n;
      assert names[..|names| - 1][k] == n;
      ReadsShowNewFiles(cfg, m, dir, names[..|names| - 1], n);
    }
  }

  lemma {:induction false} ReadsAreReads(cfg: Config, m: Records, dir: Directory, names: seq<string>)
    ensures forall e | e in Reads(cfg, m, dir, names) :: e.ReadFile?
  {
    if names != [] {
      ReadsAreReads(cfg, m, dir, names[..|names| - 1]);
    }
  }

  lemma ListKeepsRecords(cfg: Config, effects: seq<Effect>, s: State, dir: Directory)
    requires RoundTrips(cfg.codec) && Consistent(s.records) && RecordsBacked(cfg, effects, s.records)
    ensures var o := OnList(cfg, s, dir);
            Consistent(o.state.records) && RecordsBacked(cfg, effects + o.calls, o.state.records)
  {
    var o := OnList(cfg, s, dir);
    var host := cfg.AsHost();
    ReconciledContents(s.records, host, dir);
    forall n | n in o.state.records
      ensures Backed(cfg, effects + o.calls, o.state.records[n])
    {
      if n in Survivors(s.records, dir) {
        BackedStays(cfg, effects, o.calls, s.records[n]);
      } else {
        ReadsShowNewFiles(cfg, s.records, dir, dir.names, n);
        var e := ReadFile(cfg.PathOf(n), dir.readable[n]);
        assert e in o.calls && Shows(cfg, e, o.state.records[n]);
        Newest(cfg, effects, o.calls, o.state.records[n]);
      }
    }
  }

  // ---------------------------------------------------------------- storing

  lemma StoreKeepsRecords(cfg: Config, effects: seq<Effect>, m: Records, info: FileInfo)
    requires Consistent(m) && RecordsBacked(cfg, effects, m) && Backed(cfg, effects, info)
    ensures Consistent(Stored(m, info)) && RecordsBacked(cfg, effects, Stored(m, info))
  {
    StoredIsConsistent(m, info);
    StoreThenLookup(m, info);
  }

  lemma UrlFileKeepsRecords(cfg: Config, effects: seq<Effect>, s: State, name: string, path: string,
                            elsewhere: map<string, Bytes>)
    requires RoundTrips(cfg.codec) && Consistent(s.records) && RecordsBacked(cfg, effects, s.records)
    ensures var o := OnUrlFile(cfg, s, name, path, elsewhere);
            Consistent(o.state.records) && RecordsBacked(cfg, effects + o.calls, o.state.records)
  {
    var o := OnUrlFile(cfg, s, name, path, elsewhere);
    RecordsStayBacked(cfg, effects, o.calls, s.records);
    if path in elsewhere {
      var info := FileInfo(name, cfg.Fingerprint(elsewhere[path]), path);
      assert Shows(cfg, o.calls[0], info);
      Newest(cfg, effects, o.calls, info);
      StoreKeepsRecords(cfg, effects + o.calls, s.records, info);
    }
  }

  lemma OtherCommandsStoreNothing(cfg: Config, s: State, c: Command, now: Surroundings)
    requires !c.StoreRecord? && !c.StoreUrlFile? && !c.SendFileList?
    ensures var m := Perform(cfg, s, c, now).state.records;
            forall n | n in m :: n in s.records && m[n] == s.records[n]
  {
  }

  lemma PerformKeepsRecords(cfg: Config, effects: seq<Effect>, s: State, c: Command, now: Surroundings)
    requires RoundTrips(cfg.codec) && Consistent(s.records) && RecordsBacked(cfg, effects, s.records)
    requires c.StoreRecord? ==> SavedBefore(cfg, effects, c.info)
    ensures var o := Perform(cfg, s, c, now);
            Consistent(o.state.records) && RecordsBacked(cfg, effects + o.calls, o.state.records)
  {
    var o := Perform(cfg, s, c, now);
    match c
    case StoreRecord(info) =>
      StoreKeepsRecords(cfg, effects, s.records, info);
      RecordsStayBacked(cfg, effects, o.calls, o.state.records);
    case StoreUrlFile(name, path) => UrlFileKeepsRecords(cfg, effects, s, name, path, now.elsewhere);
    case SendFileList => ListKeepsRecords(cfg, effects, s, now.directory);
    case _ =>
      OtherCommandsStoreNothing(cfg, s, c, now);
      RecordsStayBacked(cfg, effects, o.calls, o.state.records);
  }

  /** No command of the service has a record stored that was not waiting to be stored before. */
  lemma PerformQueuesNoRecord(cfg: Config, s: State, c: Command, now: Surroundings)
    ensures forall d | d in Perform(cfg, s, c, now).state.queue && d.StoreRecord? :: d in s.queue
  {
  }

  lemma PerformReports(cfg: Config, effects: seq<Effect>, s: State, c: Command, now: Surroundings)
    requires RecordsBacked(cfg, effects, s.records)
    requires c.StoreRecord? ==> SavedBefore(cfg, effects, c.info)
    ensures forall e | e in Perform(cfg, s, c, now).calls && e.FileReady? :: Backed(cfg, effects, e.info)
  {
    if c.SendFileList? {
      ReadsAreReads(cfg, s.records, now.directory, now.directory.names);
    }
  }

  // ---------------------------------------------------------------- the downloader

  /** A success follows a write of bytes with the requested hash, to the path it reports. */
  lemma SuccessShows(cfg: Config, name: string, entry: Entry, e: T.Event)
    requires EntryOk(cfg, name, entry)
    ensures var calls := T.Step(cfg.transfer, entry.transfer, e).calls;
            |calls| == 2 && calls[1].Succeeded? ==>
              && calls[0].Saved? && Shows(cfg, Wrote(calls[0].write), FileInfo(name, entry.hash, calls[1].path))
              && calls[1].path == cfg.PathOf(name)
  {
    var calls := T.Step(cfg.transfer, entry.transfer, e).calls;
    if |calls| == 2 && calls[1].Succeeded? {
      S.StepBacksSuccess(cfg.transfer, entry.transfer, e, 1);
    }
  }

  lemma CallsPushAndEmit(s: State, name: string, hash: string, calls: seq<T.Call>)
    requires AreStepCalls(calls)
    ensures var o := OnCalls(s, name, hash, calls);
            && (forall e | e in o.calls :: !e.FileReady?)
            && (forall c | c in o.state.queue :: c in s.queue || c == SendFileList ||
                  (|calls| == 2 && calls[1].Succeeded? && c == StoreRecord(FileInfo(name, hash, calls[1].path))))
            && (|calls| == 2 ==> Wrote(calls[0].write) in o.calls)
  {
    if |calls| == 1 {
      assert calls[..0] == [];
    } else if |calls| == 2 {
      var first := calls[..1];
      assert first[..0] == [];
      assert OnCalls(s, name, hash, first) == Outcome(s, [Wrote(calls[0].write)]);
    }
  }

  lemma NewestSave(cfg: Config, effects: seq<Effect>, more: seq<Effect>, write: Write, info: FileInfo)
    requires Wrote(write) in more && Shows(cfg, Wrote(write), info)
    ensures SavedBefore(cfg, effects + more, info)
  {
    var i :| 0 <= i < |more| && more[i] == Wrote(write);
    assert (effects + more)[|effects| + i] == Wrote(write);
  }

  lemma DownloaderQueuesSaved(cfg: Config, effects: seq<Effect>, s: State, name: string, inbox: seq<T.Command>,
                              e: T.Event)
    requires Saving(cfg, effects, s) && name in s.entries
    ensures var o := Downloads(cfg, s, name, inbox, e);
            && QueueSaved(cfg, effects + o.calls, o.state.queue)
            && o.state.records == s.records
            && (forall x | x in o.calls :: !x.FileReady?)
  {
    var entry := s.entries[name];
    var taken := T.Step(cfg.transfer, entry.transfer, e);
    var u := s.(entries := s.entries[name := entry.(transfer := taken.state, inbox := inbox)]);
    var o := Downloads(cfg, s, name, inbox, e);
    StepCalls(cfg.transfer, entry.transfer, e);
    OnStepCalls(u, name, entry.hash, taken.calls);
    SuccessShows(cfg, name, entry, e);
    CallsPushAndEmit(u, name, entry.hash, taken.calls);
    QueueStaysSaved(cfg, effects, o.calls, s.queue);
    forall c | c in o.state.queue && c.StoreRecord?
      ensures SavedBefore(cfg, effects + o.calls, c.info) && c.info.path == cfg.PathOf(c.info.name)
    {
      if c !in s.queue {
        NewestSave(cfg, effects, o.calls, taken.calls[0].write, c.info);
      }
    }
  }

  // ---------------------------------------------------------------- every run

  lemma StepIsSaving(cfg: Config, effects: seq<Effect>, s: State, e: Event)
    requires Saving(cfg, effects, s)
    ensures var o := Step(cfg, s, e); Saving(cfg, effects + o.calls, o.state)
  {
    StepKeepsEntries(cfg, s, e);
    QueueStaysSaved(cfg, effects, Step(cfg, s, e).calls, s.queue);
    match e
    case Receive(_) =>
    case Collect =>
    case RunService(now) =>
      if s.queue != [] {
        PerformQueuesNoRecord(cfg, s.(queue := s.queue[1..]), s.queue[0], now);
      }
    case RunDownloader(name, writable) =>
      if name in s.entries && s.entries[name].inbox != [] {
        var inbox := s.entries[name].inbox;
        DownloaderQueuesSaved(cfg, effects, s, name, inbox[1..], T.EventOf(inbox[0], writable));
      }
    case TimerFires(name) =>
      if name in s.entries && s.entries[name].transfer.Active? {
        DownloaderQueuesSaved(cfg, effects, s, name, s.entries[name].inbox, T.Timeout);
      }
  }

  /**
    With no assumption at all: in every run, what completed downloads are about to record was
    saved to its own path before, as bytes whose SHA-256 is the decoded hash of the record.
  */
  lemma {:induction false} EveryRunSaves(cfg: Config, es: seq<Event>)
    ensures Saving(cfg, Effects(cfg, es), After(cfg, es))
  {
    if es != [] {
      EveryRunSaves(cfg, es[..|es| - 1]);
      StepIsSaving(cfg, Effects(cfg, es[..|es| - 1]), After(cfg, es[..|es| - 1]), es[|es| - 1]);
    }
  }

  /** The parts of a step's effect that honesty is about, beside what is saved. */
  lemma StepKeepsRecords(cfg: Config, effects: seq<Effect>, s: State, e: Event)
    requires RoundTrips(cfg.codec) && Honest(cfg, effects, s)
    ensures var o := Step(cfg, s, e);
            && Consistent(o.state.records) && RecordsBacked(cfg, effects + o.calls, o.state.records)
            && (forall x | x in o.calls && x.FileReady? :: Backed(cfg, effects, x.info))
  {
    RecordsStayBacked(cfg, effects, Step(cfg, s, e).calls, s.records);
    match e
    case Receive(_) =>
    case Collect =>
    case RunService(now) =>
      if s.queue != [] {
        var rest, c := s.(queue := s.queue[1..]), s.queue[0];
        assert c in s.queue;
        PerformKeepsRecords(cfg, effects, rest, c, now);
        PerformReports(cfg, effects, rest, c, now);
      }
    case RunDownloader(name, writable) =>
      if name in s.entries && s.entries[name].inbox != [] {
        var inbox := s.entries[name].inbox;
        DownloaderQueuesSaved(cfg, effects, s, name, inbox[1..], T.EventOf(inbox[0], writable));
      }
    case TimerFires(name) =>
      if name in s.entries && s.entries[name].transfer.Active? {
        DownloaderQueuesSaved(cfg, effects, s, name, s.entries[name].inbox, T.Timeout);
      }
  }

  lemma StepIsHonest(cfg: Config, effects: seq<Effect>, s: State, e: Event)
    requires RoundTrips(cfg.codec) && Honest(cfg, effects, s)
    ensures var o := Step(cfg, s, e); Honest(cfg, effects + o.calls, o.state)
  {
    StepIsSaving(cfg, effects, s, e);
    StepKeepsRecords(cfg, effects, s, e);
    ReadyStays(cfg, effects, Step(cfg, s, e).calls);
  }

  lemma {:induction false} EveryRunIsHonest(cfg: Config, es: seq<Event>)
    requires RoundTrips(cfg.codec)
    ensures Honest(cfg, Effects(cfg, es), After(cfg, es))
  {
    if es != [] {
      EveryRunIsHonest(cfg, es[..|es| - 1]);
      StepIsHonest(cfg, Effects(cfg, es[..|es| - 1]), After(cfg, es[..|es| - 1]), es[|es| - 1]);
    }
  }

  /**
    In every run, whenever FILE_READY is sent, bytes whose SHA-256 is the record's decoded
    hash were earlier saved to, or read from, the record's path: read, where a rescan of the
    directory or a URL download recorded the file. The same holds of every record in the table.
  */
  lemma ReadyMeansVerified(cfg: Config, es: seq<Event>)
    requires RoundTrips(cfg.codec)
    ensures var effects := Effects(cfg, es);
            forall i | 0 <= i < |effects| && effects[i].FileReady? ::
              exists j :: 0 <= j < i && Shows(cfg, effects[j], effects[i].info)
    ensures forall n | n in After(cfg, es).records :: Backed(cfg, Effects(cfg, es), After(cfg, es).records[n])
    ensures Consistent(After(cfg, es).records)
  {
    EveryRunIsHonest(cfg, es);
    var effects := Effects(cfg, es);
    forall i | 0 <= i < |effects| && effects[i].FileReady?
      ensures exists j :: 0 <= j < i && Shows(cfg, effects[j], effects[i].info)
    {
      var j :| 0 <= j < |effects[..i]| && Shows(cfg, effects[..i][j], effects[i].info);
      assert effects[j] == effects[..i][j];
    }
  }

  /** An initiate that is answered at once with FILE_READY names a record with the requested hash. */
  lemma ReadyAtOnceMatchesRequest(cfg: Config, s: State, name: string, size: nat, hash: string)
    requires Consistent(s.records)
    ensures forall e | e in OnInitiate(cfg, s, name, size, hash).calls && e.FileReady? ::
              e.info.name == name && e.info.hash == hash
  {
  }
}
