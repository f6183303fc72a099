/**
  What the platform hears, and when: the answer to each initiate and abort request, in terms of
  the table and the downloads alone.
*/
module DownloadInitiates {
  import opened Bytes
  import opened PacketPlan
  import opened PacketChain
  import T = Transfer
  import opened FileRepository
  import opened FileListing
  import opened DownloadMachine
  import opened DownloadRuns
  import opened DownloadOrigin
  import opened DownloadAborts
  import opened DownloadExamples

  // ---------------------------------------------------------------- initiates

  ghost predicate Recorded(s: State, name: string, hash: string) {
    name in s.records && s.records[name].hash == hash
  }

  ghost predicate RecordedOtherwise(s: State, name: string, hash: string) {
    name in s.records && s.records[name].hash != hash
  }

  predicate Running(s: State, name: string, hash: string) {
    name in s.entries && s.entries[name].hash == hash
  }

  predicate RunningOtherwise(s: State, name: string, hash: string) {
    name in s.entries && s.entries[name].hash != hash
  }

  ghost predicate SendsReady(calls: seq<Effect>, name: string) {
    exists x :: x in calls && x.FileReady? && x.info.name == name
  }

  /** The service is about to run this request. */
  predicate Next(s: State, c: Command) {
    s.queue != [] && s.queue[0] == c
  }

  /** The answer to a well-formed request with the protocol enabled. */
  ghost predicate AnswersInitiate(s: State, name: string, hash: string, calls: seq<Effect>) {
    && |calls| == 1
    && (SendsReady(calls, name) <==> Recorded(s, name, hash))
    && (StatusSent(name, Error(FILE_HASH_MISMATCH)) in calls <==> RecordedOtherwise(s, name, hash))
    && (StatusSent(name, FILE_TRANSFER) in calls
        <==> name !in s.records && !RunningOtherwise(s, name, hash))
    && (StatusSent(name, Error(UploadError.UNSPECIFIED_ERROR)) in calls
        <==> name !in s.records && RunningOtherwise(s, name, hash))
  }

  /** A download begins with nothing accepted, under the request's hash, and becomes the active one. */
  ghost predicate BeginsDownload(cfg: Config, s: State, t: State, name: string, size: nat, hash: string) {
    && name !in s.entries && name in t.entries && t.active == name
    && t.entries[name].hash == hash && !t.entries[name].completed && t.entries[name].transfer == T.Idle
    && (exists id: nat :: t.entries[name].inbox
          == [T.DownloadCommand(id, T.FileRequest(name, size, cfg.codec.decode(hash), cfg.directory))])
    && (forall n | n in s.entries :: n in t.entries && t.entries[n] == s.entries[n])
  }

  /**
    In every reachable state, for a well-formed initiate that is next: FILE_READY is the answer
    if and only if the table holds the name with that hash, FILE_HASH_MISMATCH if and only if it
    holds it with another, FILE_TRANSFER if and only if it does not hold it and no download of
    the name has another hash. A download begins if and only if neither holds the name, and
    otherwise nothing changes.
  */
  lemma InitiateIsAnswered(cfg: Config, es: seq<Event>, name: string, size: nat, hash: string, now: Surroundings)
    requires Next(After(cfg, es), HandleInitiate(name, size, hash))
    requires cfg.transfer.maxPacketSize > 0 && name != "" && size > 0 && hash != ""
    ensures var s := After(cfg, es);
            var o := Step(cfg, s, RunService(now));
            && AnswersInitiate(s, name, hash, o.calls)
            && (BeginsDownload(cfg, s, o.state, name, size, hash) <==> name !in s.records && name !in s.entries)
            && (name in s.records || name in s.entries ==> o.state == s.(queue := s.queue[1..]))
            && o.state.records == s.records && o.state.queue == s.queue[1..]
  {
    EveryRunIsTraced(cfg, es);
    var s := After(cfg, es);
    if name !in s.records && name !in s.entries {
      var t := Step(cfg, s, RunService(now)).state;
      assert t.entries[name].inbox
          == [T.DownloadCommand(s.downloads, T.FileRequest(name, size, cfg.codec.decode(hash), cfg.directory))];
    }
  }

  /** Requests that are refused at once, and why; nothing else changes. */
  lemma InitiateIsRefused(cfg: Config, s: State, name: string, size: nat, hash: string, now: Surroundings)
    requires Next(s, HandleInitiate(name, size, hash))
    requires cfg.transfer.maxPacketSize == 0 || name == "" || size == 0 || hash == ""
    ensures var o := Step(cfg, s, RunService(now));
            && o.state == s.(queue := s.queue[1..])
            && |o.calls| == 1 && o.calls[0].StatusSent? && o.calls[0].name == name
            && (o.calls[0].status == Error(TRANSFER_PROTOCOL_DISABLED) <==> cfg.transfer.maxPacketSize == 0)
            && (o.calls[0].status == Error(UploadError.UNSPECIFIED_ERROR) <==> cfg.transfer.maxPacketSize > 0)
  {
  }

  // ---------------------------------------------------------------- aborts

  /**
    An abort is confirmed if and only if the name has a downloader, which is then told, and its
    entry flagged; without a name it is an error; else nothing is sent and nothing changes.
  */
  lemma AbortIsAnswered(cfg: Config, es: seq<Event>, name: string, now: Surroundings)
    requires Next(After(cfg, es), HandleAbort(name))
    ensures var s := After(cfg, es);
            var o := Step(cfg, s, RunService(now));
            && |o.calls| <= 1
            && (StatusSent(name, ABORTED) in o.calls <==> name in s.entries)
            && (StatusSent(name, Error(UploadError.UNSPECIFIED_ERROR)) in o.calls <==> name == "")
            && (name !in s.entries ==> o.state == s.(queue := s.queue[1..]))
            && (name in s.entries ==>
                  && o.state.entries.Keys == s.entries.Keys && o.state.active == ""
                  && o.state.entries[name].completed
                  && o.state.entries[name].inbox == s.entries[name].inbox + [T.AbortCommand]
                  && o.state.entries[name].transfer == s.entries[name].transfer
                  && forall n | n in s.entries && n != name :: o.state.entries[n] == s.entries[n])
  {
    EveryEntryIsOk(cfg, es);
  }

  // ---------------------------------------------------------------- data and removals

  /** Data that is next joins the queue of the active name's downloader, at its end, or nothing happens. */
  lemma DataIsForwarded(cfg: Config, s: State, packet: Packet, now: Surroundings)
    requires Next(s, HandleBinary(packet))
    ensures var o := Step(cfg, s, RunService(now));
            && o.calls == [] && o.state.records == s.records && o.state.queue == s.queue[1..]
            && o.state.active == s.active && o.state.entries.Keys == s.entries.Keys
            && (forall n | n in s.entries && n != s.active :: o.state.entries[n] == s.entries[n])
            && (s.active in s.entries ==>
                  && o.state.entries[s.active].inbox == s.entries[s.active].inbox + [T.DataCommand(packet)]
                  && o.state.entries[s.active].transfer == s.entries[s.active].transfer
                  && o.state.entries[s.active].completed == s.entries[s.active].completed
                  && o.state.entries[s.active].hash == s.entries[s.active].hash)
  {
  }

  /** Deleted files leave the table, no other does, and a list is queued behind all that waits. */
  lemma RemovalIsFollowedByList(cfg: Config, s: State, names: set<string>, now: Surroundings)
    requires Next(s, RemoveFiles(names))
    ensures var o := Step(cfg, s, RunService(now));
            && o.calls == [] && o.state.queue == s.queue[1..] + [SendFileList] && o.state.entries == s.entries
            && (forall n :: n in o.state.records <==> n in s.records && n !in names)
            && (forall n | n in o.state.records :: o.state.records[n] == s.records[n])
  {
  }

  // ---------------------------------------------------------------- a file that is there already

  function Again(name: string, size: nat, hash: string): (e: Event) {
    Receive(HandleInitiate(name, size, hash))
  }

  /** The directory holds the file of this name. */
  ghost function Holding(name: string): (now: Surroundings) {
    Surroundings(Directory([name], map[]), map[])
  }

  ghost function Delivered(cfg: Config, name: string, data: Bytes): (es: seq<Event>) {
    Begin(name, |data|, cfg.Fingerprint(data), Holding(name))
    + [Receive(HandleBinary(Whole(cfg, data)))] + [RunService(Holding(name))]
  }

  ghost function Completed(cfg: Config, name: string, data: Bytes): (es: seq<Event>) {
    Delivered(cfg, name, data) + [RunDownloader(name, true)] + [RunService(Holding(name))] + [RunService(Holding(name))]
  }

  lemma WholeIsDelivered(cfg: Config, name: string, data: Bytes)
    requires Transferable(cfg, name, data)
    ensures var s := After(cfg, Delivered(cfg, name, data));
            && s.queue == [] && s.records == map[] && Completes(cfg, s, name, Whole(cfg, data))
            && s.entries[name].hash == cfg.Fingerprint(data)
  {
    var size, hash, packet, now := |data|, cfg.Fingerprint(data), Whole(cfg, data), Holding(name);
    assert Room(cfg.transfer.maxPacketSize) == cfg.transfer.maxPacketSize - OVERHEAD;
    assert cfg.transfer.PlanOf(size).Some? && cfg.transfer.PlanOf(size).value.count == 1;
    var es := Begin(name, size, hash, now);
    Begun(cfg, name, size, hash, now);
    var entry := Entry(hash, T.Active(JobOf(cfg, name, size, hash), [], 1), [], false);
    DataArrives(cfg, es, name, entry, [], packet);
    es := es + [Receive(HandleBinary(packet))];
    assert [] + [HandleBinary(packet)] == [HandleBinary(packet)] + [];
    DataIsHandled(cfg, es, name, entry, packet, [], now);
    WholeCompletes(cfg, name, data, After(cfg, es + [RunService(now)]));
  }

  /** The downloader handles the packet: a record of the requested hash waits to be stored. */
  lemma WholeIsSaved(cfg: Config, name: string, data: Bytes) returns (info: FileInfo)
    requires Transferable(cfg, name, data)
    ensures var s := After(cfg, Delivered(cfg, name, data) + [RunDownloader(name, true)]);
            && s.queue == [StoreRecord(info), SendFileList] && s.records == map[]
            && info.name == name && info.hash == cfg.Fingerprint(data)
  {
    var es, packet := Delivered(cfg, name, data), Whole(cfg, data);
    WholeIsDelivered(cfg, name, data);
    AfterOneMore(cfg, es, RunDownloader(name, true));
    var s := After(cfg, es);
    CompletionStep(cfg, s, name, packet);
    DownloaderStep(cfg, s, name, s.entries[name].inbox[1..], T.EventOf(s.entries[name].inbox[0], true));
    info := FileInfo(name, s.entries[name].hash, LastCalls(cfg, s, name, packet)[1].path);
  }

  /** From the start, for every file of one packet: it is transferred, saved and recorded. */
  lemma CompletedIsRecorded(cfg: Config, name: string, data: Bytes)
    requires Transferable(cfg, name, data)
    ensures var s := After(cfg, Completed(cfg, name, data));
            s.queue == [] && Recorded(s, name, cfg.Fingerprint(data))
  {
    var es, now := Delivered(cfg, name, data) + [RunDownloader(name, true)], Holding(name);
    var info := WholeIsSaved(cfg, name, data);
    RecordingStep(cfg, es, info, now);
    ListingStep(cfg, es + [RunService(now)], name, now);
  }

  lemma RecordingStep(cfg: Config, es: seq<Event>, info: FileInfo, now: Surroundings)
    requires After(cfg, es).queue == [StoreRecord(info), SendFileList] && After(cfg, es).records == map[]
    ensures After(cfg, es + [RunService(now)]).queue == [SendFileList]
    ensures After(cfg, es + [RunService(now)]).records == map[info.name := info]
  {
    AfterOneMore(cfg, es, RunService(now));
    assert After(cfg, es).queue[1..] == [SendFileList];
    var none: Records := map[];
    assert none - {info.name} == none;
  }

  lemma ListingStep(cfg: Config, es: seq<Event>, name: string, now: Surroundings)
    requires After(cfg, es).queue == [SendFileList] && Consistent(After(cfg, es).records)
    requires name in After(cfg, es).records && name in now.directory.names
    ensures var t := After(cfg, es + [RunService(now)]);
            t.queue == [] && name in t.records && t.records[name] == After(cfg, es).records[name]
  {
    AfterOneMore(cfg, es, RunService(now));
    assert After(cfg, es).queue[1..] == [];
    ReconciledContents(After(cfg, es).records, cfg.AsHost(), now.directory);
  }

  /** A completed file that is initiated again, with any size, is answered FILE_READY at once. */
  lemma CompletedIsReadyAgain(cfg: Config, name: string, data: Bytes, size: nat)
    requires Transferable(cfg, name, data) && size > 0
    ensures var es := Completed(cfg, name, data) + [Again(name, size, cfg.Fingerprint(data))];
            SendsReady(Step(cfg, After(cfg, es), RunService(Holding(name))).calls, name)
  {
    var es := Completed(cfg, name, data);
    CompletedIsRecorded(cfg, name, data);
    AfterOneMore(cfg, es, Again(name, size, cfg.Fingerprint(data)));
    es := es + [Again(name, size, cfg.Fingerprint(data))];
    InitiateIsAnswered(cfg, es, name, size, cfg.Fingerprint(data), Holding(name));
  }
}
