/** Runs from the start that reach the situations the other theorems speak of. */
module DownloadExamples {
  import opened Bytes
  import opened PacketPlan
  import opened PacketChain
  import opened FileHandling
  import opened Machine
  import T = Transfer
  import opened DownloadMachine
  import opened DownloadRuns
  import opened DownloadAborts

  lemma AfterOneMore(cfg: Config, es: seq<Event>, e: Event)
    ensures After(cfg, es + [e]) == Step(cfg, After(cfg, es), e).state
    ensures Effects(cfg, es + [e]) == Effects(cfg, es) + Step(cfg, After(cfg, es), e).calls
  {
    RunSnoc(Steps(cfg), INITIAL, es, e);
  }

  /** The only download so far is active under this name. */
  ghost function Sole(name: string, entry: Entry, queue: seq<Command>): (s: State) {
    State(name, map[name := entry], queue, map[], 1)
  }

  ghost function JobOf(cfg: Config, name: string, size: nat, hash: string): (job: T.Job)
    requires cfg.transfer.PlanOf(size).Some?
  {
    T.Job(0, T.FileRequest(name, size, cfg.codec.decode(hash), cfg.directory), cfg.transfer.PlanOf(size).value)
  }

  ghost predicate Startable(cfg: Config, name: string, size: nat, hash: string) {
    && cfg.transfer.maxPacketSize > 0 && name != "" && size > 0 && hash != ""
    && cfg.transfer.PlanOf(size).Some?
  }

  function Begin(name: string, size: nat, hash: string, now: Surroundings): (es: seq<Event>) {
    [Receive(HandleInitiate(name, size, hash))] + [RunService(now)] + [RunDownloader(name, true)]
  }

  lemma OneCall(s: State, name: string, hash: string, call: T.Call)
    ensures OnCalls(s, name, hash, [call]) == OnCall(s, name, hash, call)
  {
    assert [call][..0] == [];
    assert OnCalls(s, name, hash, []) == Outcome(s, []);
  }

  /** A step that makes one request changes nothing but its own entry. */
  lemma DownloaderAsks(cfg: Config, s: State, name: string, inbox: seq<T.Command>, e: T.Event)
    requires name in s.entries && T.Step(cfg.transfer, s.entries[name].transfer, e).state.Active?
    ensures var entry := s.entries[name];
            var taken := T.Step(cfg.transfer, entry.transfer, e);
            Downloads(cfg, s, name, inbox, e).state
            == s.(entries := s.entries[name := entry.(transfer := taken.state, inbox := inbox)])
  {
    var entry := s.entries[name];
    var taken := T.Step(cfg.transfer, entry.transfer, e);
    T.StepShape(cfg.transfer, entry.transfer, e);
    assert taken.calls == [taken.calls[0]];
    OneCall(s.(entries := s.entries[name := entry.(transfer := taken.state, inbox := inbox)]),
            name, entry.hash, taken.calls[0]);
  }

  lemma Replaced(name: string, before: Entry, after: Entry)
    ensures map[name := before][name := after] == map[name := after]
  {
  }

  /** An initiate that finds neither a record nor a download of its name starts one. */
  lemma Initiated(cfg: Config, es: seq<Event>, name: string, size: nat, hash: string, now: Surroundings)
    requires cfg.transfer.maxPacketSize > 0 && name != "" && size > 0 && hash != ""
    requires var s := After(cfg, es); s.queue == [] && name !in s.entries && name !in s.records
    ensures var s := After(cfg, es);
            var request := T.FileRequest(name, size, cfg.codec.decode(hash), cfg.directory);
            After(cfg, es + [Receive(HandleInitiate(name, size, hash))] + [RunService(now)])
            == State(name, s.entries[name := Entry(hash, T.Idle, [T.DownloadCommand(s.downloads, request)], false)],
                     [], s.records, s.downloads + 1)
  {
    var s, command := After(cfg, es), HandleInitiate(name, size, hash);
    AfterOneMore(cfg, es, Receive(command));
    assert s.queue + [command] == [command];
    AfterOneMore(cfg, es + [Receive(command)], RunService(now));
    assert s.(queue := [command]).queue[1..] == [];
  }

  /** The platform initiates an upload, and the downloader asks for the first packet. */
  lemma Begun(cfg: Config, name: string, size: nat, hash: string, now: Surroundings)
    requires Startable(cfg, name, size, hash)
    ensures After(cfg, Begin(name, size, hash, now))
         == Sole(name, Entry(hash, T.Active(JobOf(cfg, name, size, hash), [], 1), [], false), [])
  {
    var request := T.FileRequest(name, size, cfg.codec.decode(hash), cfg.directory);
    assert After(cfg, []) == INITIAL;
    Initiated(cfg, [], name, size, hash, now);
    assert [] + [Receive(HandleInitiate(name, size, hash))] == [Receive(HandleInitiate(name, size, hash))];
    var entry := Entry(hash, T.Idle, [T.DownloadCommand(0, request)], false);
    var waiting := Sole(name, entry, []);
    assert After(cfg, [Receive(HandleInitiate(name, size, hash))] + [RunService(now)]) == waiting;
    AfterOneMore(cfg, [Receive(HandleInitiate(name, size, hash))] + [RunService(now)], RunDownloader(name, true));
    DownloaderAsks(cfg, waiting, name, [], T.Download(0, request));
    assert entry.inbox[1..] == [];
    Replaced(name, entry, Entry(hash, T.Active(JobOf(cfg, name, size, hash), [], 1), [], false));
  }

  lemma TimerAsks(cfg: Config, es: seq<Event>, name: string, hash: string, job: T.Job, tries: nat, queue: seq<Command>)
    requires tries < T.MAX_RETRY_COUNT
    requires After(cfg, es) == Sole(name, Entry(hash, T.Active(job, [], tries), [], false), queue)
    ensures After(cfg, es + [TimerFires(name)])
         == Sole(name, Entry(hash, T.Active(job, [], tries + 1), [], false), queue)
  {
    AfterOneMore(cfg, es, TimerFires(name));
    DownloaderAsks(cfg, After(cfg, es), name, [], T.Timeout);
    Replaced(name, After(cfg, es).entries[name], Entry(hash, T.Active(job, [], tries + 1), [], false));
  }

  lemma TimerFails(cfg: Config, es: seq<Event>, name: string, hash: string, job: T.Job, queue: seq<Command>)
    requires After(cfg, es) == Sole(name, Entry(hash, T.Active(job, [], T.MAX_RETRY_COUNT), [], false), queue)
    ensures After(cfg, es + [TimerFires(name)])
         == Sole(name, Entry(hash, T.Idle, [], true), queue + [SendFileList])
  {
    AfterOneMore(cfg, es, TimerFires(name));
    var s := After(cfg, es);
    var failed, over := T.Failed(job.id, T.RETRY_COUNT_EXCEEDED), Entry(hash, T.Idle, [], false);
    assert T.Step(cfg.transfer, s.entries[name].transfer, T.Timeout) == Outcome(T.Idle, [failed]);
    OneCall(s.(entries := s.entries[name := over]), name, hash, failed);
    Replaced(name, s.entries[name], over);
    Replaced(name, over, over.(completed := true));
  }

  lemma DataArrives(cfg: Config, es: seq<Event>, name: string, entry: Entry, queue: seq<Command>, packet: Packet)
    requires After(cfg, es) == Sole(name, entry, queue)
    ensures After(cfg, es + [Receive(HandleBinary(packet))]) == Sole(name, entry, queue + [HandleBinary(packet)])
  {
    AfterOneMore(cfg, es, Receive(HandleBinary(packet)));
  }

  lemma DataIsHandled(cfg: Config, es: seq<Event>, name: string, entry: Entry, packet: Packet, rest: seq<Command>,
                      now: Surroundings)
    requires After(cfg, es) == Sole(name, entry, [HandleBinary(packet)] + rest)
    ensures After(cfg, es + [RunService(now)])
         == Sole(name, entry.(inbox := entry.inbox + [T.DataCommand(packet)]), rest)
  {
    AfterOneMore(cfg, es, RunService(now));
    var s := After(cfg, es);
    assert s.queue[0] == HandleBinary(packet) && s.queue[1..] == rest;
    Replaced(name, entry, entry.(inbox := entry.inbox + [T.DataCommand(packet)]));
  }

  // ---------------------------------------------------------------- the fault

  /** Data is under way to a transfer that times out for the third time before it arrives. */
  function LateData(name: string, size: nat, hash: string, packet: Packet, now: Surroundings): (es: seq<Event>) {
    Begin(name, size, hash, now) + [TimerFires(name)] + [TimerFires(name)]
    + [Receive(HandleBinary(packet))] + [TimerFires(name)] + [RunService(now)]
  }

  lemma TwoTimeouts(cfg: Config, name: string, size: nat, hash: string, now: Surroundings)
    requires Startable(cfg, name, size, hash)
    ensures After(cfg, Begin(name, size, hash, now) + [TimerFires(name)] + [TimerFires(name)])
         == Sole(name, Entry(hash, T.Active(JobOf(cfg, name, size, hash), [], 3), [], false), [])
  {
    var es, job := Begin(name, size, hash, now), JobOf(cfg, name, size, hash);
    Begun(cfg, name, size, hash, now);
    TimerAsks(cfg, es, name, hash, job, 1, []);
    TimerAsks(cfg, es + [TimerFires(name)], name, hash, job, 2, []);
  }

  lemma LateDataWaits(cfg: Config, name: string, size: nat, hash: string, packet: Packet, now: Surroundings)
    requires Startable(cfg, name, size, hash)
    ensures After(cfg, LateData(name, size, hash, packet, now))
         == Sole(name, Entry(hash, T.Idle, [T.DataCommand(packet)], true), [SendFileList])
  {
    var es, job := Begin(name, size, hash, now) + [TimerFires(name)] + [TimerFires(name)], JobOf(cfg, name, size, hash);
    TwoTimeouts(cfg, name, size, hash, now);
    DataArrives(cfg, es, name, Entry(hash, T.Active(job, [], 3), [], false), [], packet);
    es := es + [Receive(HandleBinary(packet))];
    TimerFails(cfg, es, name, hash, job, [HandleBinary(packet)]);
    es := es + [TimerFires(name)];
    DataIsHandled(cfg, es, name, Entry(hash, T.Idle, [], true), packet, [SendFileList], now);
    assert [] + [T.DataCommand(packet)] == [T.DataCommand(packet)];
  }

  /** For every file that can be started, one late packet after three timeouts calls the empty function. */
  lemma LateDataFaults(cfg: Config, name: string, size: nat, hash: string, packet: Packet, now: Surroundings,
                       writable: bool)
    requires Startable(cfg, name, size, hash)
    ensures var es := LateData(name, size, hash, packet, now);
            && !Faulty(After(cfg, es), name)
            && Faulty(After(cfg, es + [RunDownloader(name, writable)]), name)
  {
    var es := LateData(name, size, hash, packet, now);
    LateDataWaits(cfg, name, size, hash, packet, now);
    FaultsExactlyWhen(cfg, es, name, writable);
    AfterOneMore(cfg, es, RunDownloader(name, writable));
  }

  // ---------------------------------------------------------------- the race

  ghost function Whole(cfg: Config, data: Bytes): (packet: Packet) {
    Packet(cfg.transfer.digest.noPrevious, data, cfg.transfer.digest.sha(data))
  }

  ghost function Race(cfg: Config, name: string, data: Bytes, now: Surroundings): (es: seq<Event>) {
    Begin(name, |data|, cfg.Fingerprint(data), now)
    + [Receive(HandleBinary(Whole(cfg, data)))] + [RunService(now)] + [Receive(HandleAbort(name))]
  }

  ghost predicate Transferable(cfg: Config, name: string, data: Bytes) {
    && OVERHEAD + |data| <= cfg.transfer.maxPacketSize < TWO_64
    && |data| > 0 && name != "" && cfg.Fingerprint(data) != ""
    && cfg.codec.decode(cfg.Fingerprint(data)) == cfg.transfer.digest.sha(data)
  }

  lemma WholeCompletes(cfg: Config, name: string, data: Bytes, s: State)
    requires Transferable(cfg, name, data) && cfg.transfer.PlanOf(|data|).Some?
    requires cfg.transfer.PlanOf(|data|).value.count == 1
    requires name in s.entries && s.entries[name].inbox == [T.DataCommand(Whole(cfg, data))]
    requires s.entries[name].transfer == T.Active(JobOf(cfg, name, |data|, cfg.Fingerprint(data)), [], 1)
    ensures Completes(cfg, s, name, Whole(cfg, data))
  {
    var packet := Whole(cfg, data);
    PayloadGrows([], packet);
    assert [] + [packet] == [packet] && [] + data == data;
  }

  lemma RaceIsReached(cfg: Config, name: string, data: Bytes, now: Surroundings)
    requires Transferable(cfg, name, data)
    ensures var s := After(cfg, Race(cfg, name, data, now));
            s.queue == [HandleAbort(name)] && Completes(cfg, s, name, Whole(cfg, data))
  {
    var size, hash, packet := |data|, cfg.Fingerprint(data), Whole(cfg, data);
    assert Room(cfg.transfer.maxPacketSize) == cfg.transfer.maxPacketSize - OVERHEAD;
    assert cfg.transfer.PlanOf(size).Some? && cfg.transfer.PlanOf(size).value.count == 1;
    var es := Begin(name, size, hash, now);
    Begun(cfg, name, size, hash, now);
    var entry := Entry(hash, T.Active(JobOf(cfg, name, size, hash), [], 1), [], false);
    DataArrives(cfg, es, name, entry, [], packet);
    es := es + [Receive(HandleBinary(packet))];
    assert [] + [HandleBinary(packet)] == [HandleBinary(packet)] + [];
    DataIsHandled(cfg, es, name, entry, packet, [], now);
    es := es + [RunService(now)];
    AfterOneMore(cfg, es, Receive(HandleAbort(name)));
    WholeCompletes(cfg, name, data, After(cfg, es + [Receive(HandleAbort(name))]));
  }

  /** From the start: for every file of one packet some run sends ABORTED and then FILE_READY. */
  lemma AbortedAndReadyIsReached(cfg: Config, name: string, data: Bytes, now: Surroundings)
    requires Transferable(cfg, name, data)
    ensures var es := Race(cfg, name, data, now);
            var effects := Effects(cfg, es + [RunDownloader(name, true), RunService(now), RunService(now)]);
            && |effects| >= 2 && effects[|effects| - 2] == StatusSent(name, ABORTED)
            && effects[|effects| - 1].FileReady? && effects[|effects| - 1].info.name == name
  {
    var es, last := Race(cfg, name, data, now), [RunDownloader(name, true), RunService(now), RunService(now)];
    RaceIsReached(cfg, name, data, now);
    AbortedAndReady(cfg, After(cfg, es), name, Whole(cfg, data), now);
    RunSplits(Steps(cfg), INITIAL, es, last);
  }

  // ---------------------------------------------------------------- two downloads

  function TwoDownloads(a: string, b: string, size: nat, hash: string, now: Surroundings): (es: seq<Event>) {
    [Receive(HandleInitiate(a, size, hash))] + [RunService(now)]
    + [Receive(HandleInitiate(b, size, hash))] + [RunService(now)]
  }

  /** Aborting the older of two downloads takes the data of the newer one away. */
  lemma AbortCanHurtAnother(cfg: Config, a: string, b: string, size: nat, hash: string, now: Surroundings,
                            packet: Packet)
    requires cfg.transfer.maxPacketSize > 0 && a != "" && b != "" && a != b && size > 0 && hash != ""
    ensures !SparesOthers(After(cfg, TwoDownloads(a, b, size, hash, now)), a, packet)
  {
    var first := [Receive(HandleInitiate(a, size, hash))] + [RunService(now)];
    assert After(cfg, []) == INITIAL;
    Initiated(cfg, [], a, size, hash, now);
    assert [] + [Receive(HandleInitiate(a, size, hash))] == [Receive(HandleInitiate(a, size, hash))];
    Initiated(cfg, first, b, size, hash, now);
    var s := After(cfg, TwoDownloads(a, b, size, hash, now));
    assert s.active == b && a in s.entries && b in s.entries;
    AbortSparesOthersExactlyWhen(cfg, TwoDownloads(a, b, size, hash, now), a, packet);
  }
}
