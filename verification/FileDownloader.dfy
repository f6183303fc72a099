/** The downloader of one file (src/service/file/FileDownloader.cpp), proved to take the steps of Transfer. */
module FileDownloading {
  import opened Bytes
  import opened PacketPlan
  import opened PacketChain
  import opened FileHandling
  import opened Machine
  import opened CommandBuffering
  import opened Transfer

  class FileDownloader {
    const cfg: Config

    const fileHandler: FileHandler
    var timerArmed: bool

    var currentFileName: string
    var currentFileSize: nat
    var currentPacketSize: nat
    var currentPacketCount: nat
    var currentPacketIndex: nat
    var currentFileHash: Bytes
    var currentDownloadDirectory: string

    // the callbacks given to the download with this number, if set
    var packetProvider: Option<nat>
    var onSuccessCallback: Option<nat>
    var onFailCallback: Option<nat>

    var retryCount: nat

    /** Set once an empty packetProvider was called or a packet count out of range was cast. */
    var undefined: bool

    const commandBuffer: CommandBuffer<Command>

    ghost function Footprint(): (objects: set<object>) {
      {this, fileHandler, commandBuffer}
    }

    ghost function CurrentJob(): (job: Job)
      requires packetProvider.Some?
      reads this
    {
      Job(packetProvider.value,
          FileRequest(currentFileName, currentFileSize, currentFileHash, currentDownloadDirectory),
          Plan(currentPacketCount, currentPacketSize))
    }

    /** The transfer that the fields stand for. */
    ghost function Current(): (s: State)
      reads this, fileHandler
    {
      if undefined then Undefined
      else if packetProvider.None? then Idle
      else Active(CurrentJob(), fileHandler.accepted, retryCount)
    }

    ghost predicate HandlerValid()
      reads this, fileHandler
    {
      fileHandler.Valid() && fileHandler.digest == cfg.digest && fileHandler.paths == cfg.paths
    }

    /** A download sets all three callbacks, and a clear resets them with the counters. */
    ghost predicate FieldsAgree()
      reads this
    {
      && onSuccessCallback == packetProvider && onFailCallback == packetProvider
      && (if packetProvider.None? then retryCount == 0 && currentPacketCount == 0 && currentPacketIndex == 0
          else 1 <= retryCount <= MAX_RETRY_COUNT && currentPacketIndex < currentPacketCount)
    }

    ghost predicate Valid()
      reads this, fileHandler
    {
      && HandlerValid()
      && timerArmed == (!undefined && packetProvider.Some?)
      && (!undefined ==> FieldsAgree() && currentPacketIndex == |fileHandler.accepted|)
    }

    constructor (cfg: Config)
      ensures Valid() && Current() == Idle && commandBuffer.commands == []
      ensures this.cfg == cfg && fresh(fileHandler) && fresh(commandBuffer)
    {
      this.cfg := cfg;
      fileHandler := new FileHandler(cfg.digest, cfg.paths);
      timerArmed := false;
      currentFileName, currentFileSize, currentPacketSize := "", 0, 0;
      currentPacketCount, currentPacketIndex := 0, 0;
      currentFileHash, currentDownloadDirectory := [], "";
      packetProvider, onSuccessCallback, onFailCallback := None, None, None;
      retryCount := 0;
      undefined := false;
      commandBuffer := new CommandBuffer();
    }

    // ---------------------------------------------------------------- public operations

    method Download(id: nat, request: FileRequest)
      modifies commandBuffer
      ensures commandBuffer.commands == old(commandBuffer.commands) + [DownloadCommand(id, request)]
    {
      commandBuffer.PushCommand(DownloadCommand(id, request));
    }

    method HandleData(packet: Packet)
      modifies commandBuffer
      ensures commandBuffer.commands == old(commandBuffer.commands) + [DataCommand(packet)]
    {
      commandBuffer.PushCommand(DataCommand(packet));
    }

    method Abort()
      modifies commandBuffer
      ensures commandBuffer.commands == old(commandBuffer.commands) + [AbortCommand]
    {
      commandBuffer.PushCommand(AbortCommand);
    }

    // ---------------------------------------------------------------- the commands' bodies

    /** Runs the oldest command. writable: whether the file can be created, should it come to that. */
    method RunNext(writable: bool) returns (calls: seq<Call>)
      requires Valid() && commandBuffer.commands != []
      modifies this, fileHandler, commandBuffer
      ensures Valid() && commandBuffer.commands == old(commandBuffer.commands)[1..]
      ensures Outcome(Current(), calls) == Step(cfg, old(Current()), EventOf(old(commandBuffer.commands)[0], writable))
    {
      var command := commandBuffer.TakeCommand();
      calls := RunCommand(command, writable);
    }

    method RunCommand(command: Command, writable: bool) returns (calls: seq<Call>)
      requires Valid()
      modifies this, fileHandler
      ensures Valid()
      ensures Outcome(Current(), calls) == Step(cfg, old(Current()), EventOf(command, writable))
    {
      calls := [];
      if undefined {
        return;
      }
      match command {
        case DownloadCommand(id, request) => calls := RunDownload(id, request);
        case DataCommand(packet) => calls := RunHandleData(packet, writable);
        case AbortCommand =>
          timerArmed := false;
          Clear();
      }
    }

    /** The one-shot timer fires. */
    method TimerFires() returns (calls: seq<Call>)
      requires Valid() && timerArmed
      modifies this, fileHandler
      ensures Valid()
      ensures Outcome(Current(), calls) == Step(cfg, old(Current()), Timeout)
    {
      timerArmed := false;
      calls := PacketFailed();
    }

    method RunDownload(id: nat, request: FileRequest) returns (calls: seq<Call>)
      requires Valid() && !undefined
      modifies this, fileHandler
      ensures Valid()
      ensures Outcome(Current(), calls) == Begin(cfg, id, request)
    {
      timerArmed := false;
      Clear();
      var plan := PlanPackets(cfg.maxPacketSize, request.size, cfg.quotientOf(request.size));
      if plan.None? {
        undefined := true;
        return [];
      }
      SetJob(Job(id, request, plan.value));
      calls := AskForCurrent();
    }

    method SetJob(job: Job)
      modifies this`currentPacketCount, this`currentPacketSize, this`currentFileName, this`currentFileSize
      modifies this`currentFileHash, this`currentDownloadDirectory
      modifies this`packetProvider, this`onSuccessCallback, this`onFailCallback
      ensures packetProvider.Some? && CurrentJob() == job
      ensures onSuccessCallback == packetProvider && onFailCallback == packetProvider
    {
      currentPacketCount, currentPacketSize := job.plan.count, job.plan.packetSize;
      currentFileName, currentFileSize := job.request.name, job.request.size;
      currentFileHash, currentDownloadDirectory := job.request.hash, job.request.directory;
      packetProvider, onSuccessCallback, onFailCallback := Some(job.id), Some(job.id), Some(job.id);
    }

    /** With no transfer active this ends in a call of the empty packetProvider. */
    method RunHandleData(packet: Packet, writable: bool) returns (calls: seq<Call>)
      requires Valid() && !undefined
      modifies this, fileHandler
      ensures Valid()
      ensures old(packetProvider).None? ==> Current() == Undefined && calls == []
      ensures old(packetProvider).Some? ==> Outcome(Current(), calls) == Receive(cfg, old(Current()), packet, writable)
    {
      timerArmed := false;
      var result := TakePacket(packet);
      calls := HandleResult(result, writable);
    }

    /** What the file handler makes of the packet, without its chain. */
    method TakePacket(packet: Packet) returns (result: StatusCode)
      requires HandlerValid()
      modifies fileHandler
      ensures HandlerValid()
      ensures result == OK || result == PACKAGE_HASH_NOT_VALID || result == PREVIOUS_PACKAGE_HASH_NOT_VALID
      ensures result == OK <==> Extends(cfg.digest, old(fileHandler.accepted), packet)
      ensures fileHandler.accepted
              == if result == OK then old(fileHandler.accepted) + [packet] else old(fileHandler.accepted)
    {
      result := fileHandler.HandleData(packet);
    }

    method HandleResult(result: StatusCode, writable: bool) returns (calls: seq<Call>)
      requires result == OK || result == PACKAGE_HASH_NOT_VALID || result == PREVIOUS_PACKAGE_HASH_NOT_VALID
      requires AfterStop(if result == OK then currentPacketIndex + 1 else currentPacketIndex)
      modifies this, fileHandler
      ensures Valid()
      ensures old(packetProvider).None? ==> Current() == Undefined && calls == []
      ensures old(packetProvider).Some? && result == OK ==>
                Outcome(Current(), calls) == Accept(cfg, old(CurrentJob()), old(fileHandler.accepted), writable)
      ensures old(packetProvider).Some? && result != OK ==> Outcome(Current(), calls) == Retry(old(Current()))
    {
      calls := [];
      match result {
        case OK => calls := PacketAccepted(writable);
        case PACKAGE_HASH_NOT_VALID => calls := PacketFailed();
        case PREVIOUS_PACKAGE_HASH_NOT_VALID => calls := PacketFailed();
        case _ => assert false;
      }
    }

    /** Between the stop of the timer and the next request, with n packets in the file handler. */
    ghost predicate AfterStop(n: nat)
      reads this, fileHandler
    {
      HandlerValid() && FieldsAgree() && n == |fileHandler.accepted| && !timerArmed && !undefined
    }

    /** The file handler has just appended a packet. */
    method PacketAccepted(writable: bool) returns (calls: seq<Call>)
      requires AfterStop(currentPacketIndex + 1)
      modifies this, fileHandler
      ensures Valid()
      ensures old(packetProvider).None? ==> Current() == Undefined && calls == []
      ensures old(packetProvider).Some? ==>
                Outcome(Current(), calls) == Accept(cfg, old(CurrentJob()), old(fileHandler.accepted), writable)
    {
      currentPacketIndex := currentPacketIndex + 1;
      if currentPacketIndex == currentPacketCount {
        calls := DownloadComplete(writable);
      } else {
        calls := NextPacket();
      }
    }

    method NextPacket() returns (calls: seq<Call>)
      requires MayAsk() && (packetProvider.Some? ==> currentPacketIndex < currentPacketCount)
      modifies this`retryCount, this`timerArmed, this`undefined
      ensures Valid()
      ensures packetProvider.None? ==> Current() == Undefined && calls == []
      ensures packetProvider.Some? ==>
                Outcome(Current(), calls) == Asking(Active(old(CurrentJob()), old(fileHandler.accepted), 1))
    {
      retryCount := 0;
      calls := AskForCurrent();
    }

    ghost predicate MayAsk()
      reads this, fileHandler
    {
      && HandlerValid() && !timerArmed && !undefined
      && onSuccessCallback == packetProvider && onFailCallback == packetProvider
      && currentPacketIndex == |fileHandler.accepted|
    }

    method AskForCurrent() returns (calls: seq<Call>)
      requires MayAsk()
      requires packetProvider.Some? ==> currentPacketIndex < currentPacketCount && retryCount < MAX_RETRY_COUNT
      modifies this`retryCount, this`timerArmed, this`undefined
      ensures Valid()
      ensures packetProvider.None? ==> Current() == Undefined && calls == []
      ensures packetProvider.Some? ==>
                Outcome(Current(), calls)
                == Asking(Active(old(CurrentJob()), old(fileHandler.accepted), old(retryCount) + 1))
    {
      calls := RequestPacket(currentPacketIndex, currentPacketSize);
    }

    /** The last packet has been accepted. */
    method DownloadComplete(writable: bool) returns (calls: seq<Call>)
      requires HandlerValid() && !timerArmed && !undefined
      requires packetProvider.Some? && onSuccessCallback == packetProvider && onFailCallback == packetProvider
      modifies this, fileHandler
      ensures Valid()
      ensures Outcome(Current(), calls) == Finish(cfg, old(CurrentJob()), old(fileHandler.accepted), writable)
    {
      calls := ValidateAndSave(writable);
      Clear();
    }

    method ValidateAndSave(writable: bool) returns (calls: seq<Call>)
      requires HandlerValid() && packetProvider.Some?
      requires onSuccessCallback == packetProvider && onFailCallback == packetProvider
      ensures calls == Finish(cfg, CurrentJob(), fileHandler.accepted, writable).calls
    {
      calls := [];
      var validationResult := fileHandler.ValidateFile(currentFileHash);
      if validationResult == OK {
        var filePath := cfg.paths.compose(currentFileName, currentDownloadDirectory);
        var saveResult, write := fileHandler.SaveFile(currentFileName, currentDownloadDirectory, writable);
        calls := [Saved(write)];
        match saveResult {
          case OK =>
            if onSuccessCallback.Some? {
              calls := calls + [Succeeded(onSuccessCallback.value, cfg.paths.absolute(filePath))];
            }
          case FILE_HANDLING_ERROR =>
            if onFailCallback.Some? {
              calls := calls + [Failed(onFailCallback.value, FILE_SYSTEM_ERROR)];
            }
          case _ => assert false;
        }
      } else {
        if onFailCallback.Some? {
          calls := [Failed(onFailCallback.value, UNSPECIFIED_ERROR)];
        }
      }
    }

    /** Calling the empty packetProvider has no defined outcome, and the timer is not reached. */
    method RequestPacket(index: nat, size: nat) returns (calls: seq<Call>)
      requires !timerArmed && !undefined
      requires index == currentPacketIndex == |fileHandler.accepted| && size == currentPacketSize
      modifies this`retryCount, this`timerArmed, this`undefined
      ensures packetProvider.None? ==> Current() == Undefined && calls == [] && !timerArmed
      ensures packetProvider.Some? ==>
                && timerArmed && retryCount == old(retryCount) + 1
                && Current() == Active(old(CurrentJob()), fileHandler.accepted, retryCount)
                && calls == [Ask(packetProvider.value, currentFileName, index, size)]
    {
      retryCount := retryCount + 1;
      if packetProvider.None? {
        undefined := true;
        return [];
      }
      calls := [Ask(packetProvider.value, currentFileName, index, size)];
      timerArmed := true;
    }

    method PacketFailed() returns (calls: seq<Call>)
      requires AfterStop(currentPacketIndex)
      modifies this, fileHandler
      ensures Valid()
      ensures old(packetProvider).None? ==> Current() == Undefined && calls == []
      ensures old(packetProvider).Some? ==> Outcome(Current(), calls) == Retry(old(Current()))
    {
      if retryCount == MAX_RETRY_COUNT {
        calls := GiveUp();
      } else {
        calls := AskForCurrent();
      }
    }

    method GiveUp() returns (calls: seq<Call>)
      requires HandlerValid() && !timerArmed && !undefined
      modifies this, fileHandler
      ensures Valid() && Current() == Idle
      ensures calls == if old(onFailCallback).None? then []
                       else [Failed(old(onFailCallback).value, RETRY_COUNT_EXCEEDED)]
    {
      calls := [];
      if onFailCallback.Some? {
        calls := [Failed(onFailCallback.value, RETRY_COUNT_EXCEEDED)];
      }
      Clear();
    }

    method Clear()
      requires HandlerValid() && !timerArmed && !undefined
      modifies this, fileHandler
      ensures Valid() && Current() == Idle && packetProvider.None?
      ensures fileHandler.accepted == [] && !timerArmed && !undefined
    {
      currentFileName, currentFileSize, currentPacketSize := "", 0, 0;
      currentPacketCount, currentPacketIndex := 0, 0;
      currentFileHash, currentDownloadDirectory := [], "";
      packetProvider, onSuccessCallback, onFailCallback := None, None, None;
      retryCount := 0;
      fileHandler.Clear();
    }
  }
}
