/**
  The file download service as a state machine (src/service/file/FileDownloadService.cpp).
  Its own command queue, the queue of each downloader, the timers and the collector take
  steps in any order; each step is atomic.
*/
module DownloadMachine {
  import opened Bytes
  import opened PacketChain
  import opened FileHandling
  import opened Machine
  import T = Transfer
  import opened FileRepository
  import opened FileListing

  /** base64 */
  datatype Codec = Codec(encode: Bytes -> string, decode: string -> Bytes)

  datatype Config = Config(transfer: T.Config, codec: Codec, directory: string) {
    function PathOf(name: string): (path: string) {
      transfer.paths.absolute(transfer.paths.compose(name, directory))
    }

    function Fingerprint(content: Bytes): (hash: string) {
      codec.encode(transfer.digest.sha(content))
    }

    function AsHost(): (host: Host) {
      Host(name => PathOf(name), content => Fingerprint(content))
    }
  }

  /** One element of m_activeDownloads, with the queue of its downloader. */
  datatype Entry = Entry(hash: string, transfer: T.State, inbox: seq<T.Command>, completed: bool)

  datatype UploadError =
    | UNSPECIFIED_ERROR
    | TRANSFER_PROTOCOL_DISABLED
    | FILE_SYSTEM_ERROR
    | RETRY_COUNT_EXCEEDED
    | FILE_HASH_MISMATCH

  datatype UploadStatus = FILE_TRANSFER | ABORTED | Error(code: UploadError)

  datatype Command =
    | HandleBinary(packet: Packet)
    | HandleInitiate(name: string, size: nat, hash: string)
    | HandleAbort(name: string)
    | StoreRecord(info: FileInfo)
    | StoreUrlFile(name: string, path: string)
    | RemoveFiles(names: set<string>)
    | SendFileList

  predicate StoresName(c: Command, name: string) {
    c.StoreRecord? && c.info.name == name
  }

  datatype State = State(active: string, entries: map<string, Entry>, queue: seq<Command>, records: Records,
                         downloads: nat)

  /** Observations, in order. */
  datatype Effect =
    | Asked(name: string, index: nat, size: nat)
    | Wrote(write: Write)
    | ReadFile(path: string, content: Bytes)
    | FileReady(info: FileInfo)
    | StatusSent(name: string, status: UploadStatus)
    | ListSent(names: set<string>)

  /** The directory as it is found, and the readable files elsewhere by path. */
  datatype Surroundings = Surroundings(directory: Directory, elsewhere: map<string, Bytes>)

  datatype Event =
    | Receive(command: Command)
    | RunService(now: Surroundings)
    | RunDownloader(name: string, writable: bool)
    | TimerFires(name: string)
    | Collect

  type Result = Outcome<State, Effect>

  const INITIAL: State := State("", map[], [], map[], 0)

  // ---------------------------------------------------------------- commands of the service

  function Push(s: State, commands: seq<Command>): (r: State) {
    s.(queue := s.queue + commands)
  }

  function Sent(s: State, name: string, status: UploadStatus): (o: Result) {
    Outcome(s, [StatusSent(name, status)])
  }

  /** Data goes to the downloader of the active name, whatever has become of its transfer. */
  function OnBinary(s: State, packet: Packet): (r: State) {
    if s.active in s.entries then
      var entry := s.entries[s.active];
      s.(entries := s.entries[s.active := entry.(inbox := entry.inbox + [T.DataCommand(packet)])])
    else s
  }

  function StartDownload(cfg: Config, s: State, name: string, size: nat, hash: string): (o: Result) {
    if name in s.entries then
      Sent(s, name, if s.entries[name].hash != hash then Error(UNSPECIFIED_ERROR) else FILE_TRANSFER)
    else
      var request := T.FileRequest(name, size, cfg.codec.decode(hash), cfg.directory);
      var entry := Entry(hash, T.Idle, [T.DownloadCommand(s.downloads, request)], false);
      Sent(s.(entries := s.entries[name := entry], active := name, downloads := s.downloads + 1), name, FILE_TRANSFER)
  }

  function OnInitiate(cfg: Config, s: State, name: string, size: nat, hash: string): (o: Result) {
    if cfg.transfer.maxPacketSize == 0 then Sent(s, name, Error(TRANSFER_PROTOCOL_DISABLED))
    else if name == "" || size == 0 || hash == "" then Sent(s, name, Error(UNSPECIFIED_ERROR))
    else if name !in s.records then StartDownload(cfg, s, name, size, hash)
    else if s.records[name].hash != hash then Sent(s, name, Error(FILE_HASH_MISMATCH))
    else Outcome(s, [FileReady(s.records[name])])
  }

  function Flagged(entries: map<string, Entry>, name: string): (r: map<string, Entry>) {
    if name in entries then entries[name := entries[name].(completed := true)] else entries
  }

  /** Aborting any name clears the active one. */
  function OnAbort(s: State, name: string): (o: Result) {
    if name == "" then Sent(s, name, Error(UNSPECIFIED_ERROR))
    else if name !in s.entries then Outcome(s, [])
    else
      var entry := s.entries[name];
      var aborting := s.entries[name := entry.(inbox := entry.inbox + [T.AbortCommand])];
      Sent(s.(entries := Flagged(aborting, name), active := ""), name, ABORTED)
  }

  ghost function Reads(cfg: Config, m: Records, dir: Directory, names: seq<string>): (effects: seq<Effect>) {
    if names == [] then []
    else
      var last := names[|names| - 1];
      Reads(cfg, m, dir, names[..|names| - 1])
      + if last !in m && last in dir.readable then [ReadFile(cfg.PathOf(last), dir.readable[last])] else []
  }

  ghost function OnList(cfg: Config, s: State, dir: Directory): (o: Result) {
    Outcome(s.(records := Reconciled(s.records, cfg.AsHost(), dir)),
            Reads(cfg, s.records, dir, dir.names) + [ListSent(Listed(s.records, dir))])
  }

  ghost function OnUrlFile(cfg: Config, s: State, name: string, path: string, elsewhere: map<string, Bytes>)
    : (o: Result)
  {
    if path !in elsewhere then Outcome(s, [])
    else
      var content := elsewhere[path];
      Outcome(s.(records := Stored(s.records, FileInfo(name, cfg.Fingerprint(content), path))),
              [ReadFile(path, content)])
  }

  ghost function Perform(cfg: Config, s: State, c: Command, now: Surroundings): (o: Result) {
    match c
    case HandleBinary(packet) => Outcome(OnBinary(s, packet), [])
    case HandleInitiate(name, size, hash) => OnInitiate(cfg, s, name, size, hash)
    case HandleAbort(name) => OnAbort(s, name)
    case StoreRecord(info) => Outcome(s.(records := Stored(s.records, info)), [FileReady(info)])
    case StoreUrlFile(name, path) => OnUrlFile(cfg, s, name, path, now.elsewhere)
    case RemoveFiles(names) => Outcome(Push(s.(records := s.records - names), [SendFileList]), [])
    case SendFileList => OnList(cfg, s, now.directory)
  }

  // ---------------------------------------------------------------- steps of a downloader

  function OnSuccess(s: State, name: string, hash: string, path: string): (o: Result) {
    Outcome(Push(s.(entries := Flagged(s.entries, name)), [StoreRecord(FileInfo(name, hash, path)), SendFileList]), [])
  }

  function CodeOf(error: T.TransferError): (code: UploadError) {
    match error
    case UNSPECIFIED_ERROR => UploadError.UNSPECIFIED_ERROR
    case FILE_SYSTEM_ERROR => UploadError.FILE_SYSTEM_ERROR
    case RETRY_COUNT_EXCEEDED => UploadError.RETRY_COUNT_EXCEEDED
  }

  function OnFailure(s: State, name: string, error: T.TransferError): (o: Result) {
    Outcome(Push(s.(entries := Flagged(s.entries, name)), [SendFileList]), [StatusSent(name, Error(CodeOf(error)))])
  }

  /** What the service does about one call of the downloader of `name`. */
  function OnCall(s: State, name: string, hash: string, call: T.Call): (o: Result) {
    match call
    case Ask(_, fileName, index, size) => Outcome(s, [Asked(fileName, index, size)])
    case Saved(write) => Outcome(s, [Wrote(write)])
    case Succeeded(_, path) => OnSuccess(s, name, hash, path)
    case Failed(_, error) => OnFailure(s, name, error)
  }

  function OnCalls(s: State, name: string, hash: string, calls: seq<T.Call>): (o: Result) {
    if calls == [] then Outcome(s, [])
    else
      var before := OnCalls(s, name, hash, calls[..|calls| - 1]);
      var last := OnCall(before.state, name, hash, calls[|calls| - 1]);
      Outcome(last.state, before.calls + last.calls)
  }

  /** The downloader of `name` takes a step that leaves the commands `inbox` waiting. */
  function Downloads(cfg: Config, s: State, name: string, inbox: seq<T.Command>, e: T.Event): (o: Result)
    requires name in s.entries
  {
    var entry := s.entries[name];
    var taken := T.Step(cfg.transfer, entry.transfer, e);
    OnCalls(s.(entries := s.entries[name := entry.(transfer := taken.state, inbox := inbox)]),
            name, entry.hash, taken.calls)
  }

  function Unflagged(entries: map<string, Entry>): (r: map<string, Entry>) {
    map n | n in entries && !entries[n].completed :: entries[n]
  }

  ghost function Step(cfg: Config, s: State, e: Event): (o: Result) {
    match e
    case Receive(c) =>
      // no message of the platform becomes a StoreRecord command
      if c.StoreRecord? then Outcome(s, []) else Outcome(Push(s, [c]), [])
    case RunService(now) =>
      if s.queue == [] then Outcome(s, [])
      else Perform(cfg, s.(queue := s.queue[1..]), s.queue[0], now)
    case RunDownloader(name, writable) =>
      if name !in s.entries || s.entries[name].inbox == [] then Outcome(s, [])
      else
        var inbox := s.entries[name].inbox;
        Downloads(cfg, s, name, inbox[1..], T.EventOf(inbox[0], writable))
    case TimerFires(name) =>
      if name !in s.entries || !s.entries[name].transfer.Active? then Outcome(s, [])
      else Downloads(cfg, s, name, s.entries[name].inbox, T.Timeout)
    case Collect => Outcome(s.(entries := Unflagged(s.entries)), [])
  }

  ghost function Steps(cfg: Config): (State, Event) -> Result {
    (s: State, e: Event) => Step(cfg, s, e)
  }

  ghost function After(cfg: Config, es: seq<Event>): (s: State) {
    Run(Steps(cfg), INITIAL, es).state
  }

  ghost function Effects(cfg: Config, es: seq<Event>): (effects: seq<Effect>) {
    Run(Steps(cfg), INITIAL, es).calls
  }
}
