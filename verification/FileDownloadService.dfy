/**
  The service that owns the downloaders (src/service/file/FileDownloadService.cpp), proved to
  make the changes of DownloadMachine. Its file-list operations are in FileListing.dfy and
  FilePurge.dfy.
*/
module DownloadService {
  import opened Bytes
  import opened PacketChain
  import T = Transfer
  import opened FileDownloading
  import opened CommandBuffering
  import opened Machine
  import opened FileRepository
  import opened FileListing
  import opened SortedNames
  import opened DownloadMachine

  datatype ActiveDownload = ActiveDownload(hash: string, downloader: FileDownloader, completed: bool)

  /** Of the names already visited, the flagged ones have been erased. */
  ghost predicate SweptSoFar(entries: map<string, Entry>, names: set<string>, erased: set<string>) {
    && (forall n | n in erased :: n in entries && entries[n].completed)
    && (forall n | n in entries && n !in names && n !in erased :: !entries[n].completed)
    && (forall n | n in names :: n in entries && n !in erased)
  }

  lemma SweepOne(entries: map<string, Entry>, names: set<string>, erased: set<string>, name: string)
    requires SweptSoFar(entries, names, erased) && name in names
    ensures var more := if entries[name].completed then erased + {name} else erased;
            && SweptSoFar(entries, names - {name}, more)
            && name in entries - erased && (entries - erased)[name] == entries[name]
            && entries - more == if entries[name].completed then (entries - erased) - {name} else entries - erased
  {
  }

  lemma NoneSwept(entries: map<string, Entry>)
    ensures entries - {} == entries && SweptSoFar(entries, entries.Keys, {})
  {
  }

  lemma SweptAll(entries: map<string, Entry>, erased: set<string>)
    requires SweptSoFar(entries, {}, erased)
    ensures entries - erased == Unflagged(entries)
  {
  }

  type ActiveDownloads = map<string, ActiveDownload>

  /** The entry describes this download. */
  ghost predicate Mirrors(cfg: T.Config, d: ActiveDownload, entry: Entry)
    reads d.downloader.Footprint()
  {
    && d.downloader.Valid() && d.downloader.cfg == cfg
    && entry == Entry(d.hash, d.downloader.Current(), d.downloader.commandBuffer.commands, d.completed)
  }

  ghost predicate Described(cfg: T.Config, downloads: ActiveDownloads, entries: map<string, Entry>, parts: set<object>)
    reads parts
  {
    && entries.Keys == downloads.Keys
    && forall n | n in downloads ::
         downloads[n].downloader.Footprint() <= parts && Mirrors(cfg, downloads[n], entries[n])
  }

  /** No two downloads share an object. */
  ghost predicate Separate(downloads: ActiveDownloads) {
    forall a, b | a in downloads && b in downloads && a != b ::
      downloads[a].downloader.Footprint() !! downloads[b].downloader.Footprint()
  }

  lemma Restored<V>(m: map<string, V>, name: string, v: V)
    requires name in m
    ensures (m - {name})[name := v] == m[name := v]
    ensures v == m[name] ==> m[name := v] == m
  {
  }

  lemma SeparateWith(downloads: ActiveDownloads, parts: set<object>, name: string, d: ActiveDownload)
    requires Separate(downloads) && name !in downloads && d.downloader.Footprint() !! parts
    requires forall n | n in downloads :: downloads[n].downloader.Footprint() <= parts
    ensures Separate(downloads[name := d])
  {
  }

  lemma DescribedWith(cfg: T.Config, downloads: ActiveDownloads, entries: map<string, Entry>, parts: set<object>,
                      name: string, d: ActiveDownload, entry: Entry, more: set<object>)
    requires Described(cfg, downloads, entries, parts) && Mirrors(cfg, d, entry)
    requires parts <= more && d.downloader.Footprint() <= more
    ensures Described(cfg, downloads[name := d], entries[name := entry], more)
  {
  }

  lemma DescribedWithNew(cfg: T.Config, downloads: ActiveDownloads, entries: map<string, Entry>, parts: set<object>,
                 name: string, d: ActiveDownload, entry: Entry)
    requires Described(cfg, downloads, entries, parts) && Separate(downloads)
    requires name !in downloads && Mirrors(cfg, d, entry) && d.downloader.Footprint() !! parts
    ensures Described(cfg, downloads[name := d], entries[name := entry], parts + d.downloader.Footprint())
    ensures Separate(downloads[name := d])
  {
    SeparateWith(downloads, parts, name, d);
    DescribedWith(cfg, downloads, entries, parts, name, d, entry, parts + d.downloader.Footprint());
  }

  /** The others are described without the objects of one download, so its steps cannot disturb them. */
  lemma DescribedWithout(cfg: T.Config, downloads: ActiveDownloads, entries: map<string, Entry>, parts: set<object>,
                         name: string)
    requires Described(cfg, downloads, entries, parts) && Separate(downloads)
    ensures Described(cfg, downloads - {name}, entries - {name}, parts) && Separate(downloads - {name})
    ensures name in downloads ==>
              Described(cfg, downloads - {name}, entries - {name}, parts - downloads[name].downloader.Footprint())
  {
  }

  class FileDownloadService {
    const cfg: Config
    const repository: SQLiteFileRepository
    const commandBuffer: CommandBuffer<Command>

    var activeDownload: string
    var activeDownloads: ActiveDownloads

    /** Numbers the downloads begun: the number stands for the closures given to each. */
    var downloads: nat

    /** What the active downloads amount to, and the objects they consist of. */
    ghost var entries: map<string, Entry>
    ghost var parts: set<object>

    ghost predicate Valid()
      reads this, parts
    {
      && this !in parts && commandBuffer !in parts && repository !in parts
      && Described(cfg.transfer, activeDownloads, entries, parts) && Separate(activeDownloads)
    }

    /** All is well but for the download of that name, whose objects may be at work. */
    ghost predicate Apart(name: string)
      reads this, parts
    {
      && this !in parts && commandBuffer !in parts && repository !in parts
      && name in activeDownloads && name in entries && Separate(activeDownloads)
      && activeDownloads[name].downloader.Footprint() <= parts
      && Described(cfg.transfer, activeDownloads - {name}, entries - {name},
                   parts - activeDownloads[name].downloader.Footprint())
    }

    lemma TakeApart(name: string)
      requires Valid() && name in activeDownloads
      ensures Apart(name) && Mirrors(cfg.transfer, activeDownloads[name], entries[name])
    {
      DescribedWithout(cfg.transfer, activeDownloads, entries, parts, name);
    }

    ghost method Settle(name: string, entry: Entry)
      requires Apart(name) && Mirrors(cfg.transfer, activeDownloads[name], entry)
      modifies this`entries
      ensures Valid() && entries == old(entries)[name := entry]
    {
      SettledAgain(name, entry);
      entries := entries[name := entry];
    }

    lemma SettledAgain(name: string, entry: Entry)
      requires Apart(name) && Mirrors(cfg.transfer, activeDownloads[name], entry)
      ensures Described(cfg.transfer, activeDownloads, entries[name := entry], parts)
    {
      var d := activeDownloads[name];
      DescribedWith(cfg.transfer, activeDownloads - {name}, entries - {name}, parts - d.downloader.Footprint(),
                    name, d, entry, parts);
      Restored(activeDownloads, name, d);
      Restored(entries, name, entry);
    }

    ghost function Current(): (s: State)
      requires repository.Valid()
      reads this, repository, commandBuffer
    {
      State(activeDownload, entries, commandBuffer.commands, repository.Records(), downloads)
    }

    constructor (cfg: Config, repository: SQLiteFileRepository)
      requires repository.Valid()
      ensures Valid() && this.cfg == cfg && this.repository == repository
      ensures Current() == INITIAL.(records := repository.Records())
    {
      this.cfg, this.repository := cfg, repository;
      commandBuffer := new CommandBuffer();
      activeDownload, activeDownloads := "", map[];
      downloads := 0;
      entries, parts := map[], {};
    }

    // ---------------------------------------------------------------- commands

    method HandleBinary(packet: Packet)
      requires Valid() && repository.Valid()
      modifies this`entries, parts
      ensures Valid() && repository.Valid() && Current() == OnBinary(old(Current()), packet)
    {
      if activeDownload in activeDownloads {
        Forward(activeDownload, packet);
      }
    }

    method Forward(name: string, packet: Packet)
      requires Valid() && name in activeDownloads
      modifies this`entries, parts
      ensures Valid()
      ensures var entry := old(entries)[name];
              entries == old(entries)[name := entry.(inbox := entry.inbox + [T.DataCommand(packet)])]
    {
      TakeApart(name);
      var entry := activeDownloads[name];
      entry.downloader.HandleData(packet);
      Settle(name, entries[name].(inbox := entry.downloader.commandBuffer.commands));
    }

    method HandleInitiate(name: string, size: nat, hash: string) returns (effects: seq<Effect>)
      requires Valid() && repository.Valid()
      modifies this
      ensures Valid() && repository.Valid()
      ensures Outcome(Current(), effects) == OnInitiate(cfg, old(Current()), name, size, hash)
    {
      if cfg.transfer.maxPacketSize == 0 {
        return [StatusSent(name, Error(TRANSFER_PROTOCOL_DISABLED))];
      }
      if name == "" {
        return [StatusSent(name, Error(UploadError.UNSPECIFIED_ERROR))];
      }
      if size == 0 {
        return [StatusSent(name, Error(UploadError.UNSPECIFIED_ERROR))];
      }
      if hash == "" {
        return [StatusSent(name, Error(UploadError.UNSPECIFIED_ERROR))];
      }
      var info := repository.GetFileInfo(name);
      if info.None? {
        effects := Download(name, size, hash);
      } else if info.value.hash != hash {
        return [StatusSent(name, Error(FILE_HASH_MISMATCH))];
      } else {
        return [FileReady(info.value)];
      }
    }

    method Download(name: string, size: nat, hash: string) returns (effects: seq<Effect>)
      requires Valid() && repository.Valid()
      modifies this
      ensures Valid() && repository.Valid()
      ensures Outcome(Current(), effects) == StartDownload(cfg, old(Current()), name, size, hash)
    {
      if name in activeDownloads {
        if activeDownloads[name].hash != hash {
          return [StatusSent(name, Error(UploadError.UNSPECIFIED_ERROR))];
        }
        return [StatusSent(name, FILE_TRANSFER)];
      }
      var request := T.FileRequest(name, size, cfg.codec.decode(hash), cfg.directory);
      AddDownload(name, hash, request);
      return [StatusSent(name, FILE_TRANSFER)];
    }

    method AddDownload(name: string, hash: string, request: T.FileRequest)
      requires Valid() && name !in activeDownloads
      modifies this
      ensures Valid()
      ensures entries == old(entries)[name := Entry(hash, T.Idle, [T.DownloadCommand(old(downloads), request)], false)]
      ensures activeDownload == name && downloads == old(downloads) + 1
    {
      var downloader := NewDownloader(downloads, request);
      var d := ActiveDownload(hash, downloader, false);
      ghost var entry := Entry(hash, T.Idle, [T.DownloadCommand(downloads, request)], false);
      DescribedWithNew(cfg.transfer, activeDownloads, entries, parts, name, d, entry);
      Insert(name, d, entry);
      Activate(name);
    }

    method NewDownloader(id: nat, request: T.FileRequest) returns (d: FileDownloader)
      ensures fresh(d.Footprint()) && d.Valid() && d.cfg == cfg.transfer
      ensures d.Current() == T.Idle && d.commandBuffer.commands == [T.DownloadCommand(id, request)]
    {
      d := new FileDownloader(cfg.transfer);
      d.Download(id, request);
    }

    method Insert(name: string, d: ActiveDownload, ghost entry: Entry)
      requires d.downloader.Footprint() !! {this, commandBuffer, repository}
      requires {this, commandBuffer, repository} !! parts
      requires Described(cfg.transfer, activeDownloads[name := d], entries[name := entry],
                         parts + d.downloader.Footprint())
      requires Separate(activeDownloads[name := d])
      modifies this`activeDownloads, this`entries, this`parts
      ensures Valid() && entries == old(entries)[name := entry]
    {
      ghost var all := parts + d.downloader.Footprint();
      assert this !in all && commandBuffer !in all && repository !in all;
      activeDownloads := activeDownloads[name := d];
      entries, parts := entries[name := entry], all;
    }

    method Activate(name: string)
      requires Valid()
      modifies this`activeDownload, this`downloads
      ensures Valid() && activeDownload == name && downloads == old(downloads) + 1
    {
      activeDownload, downloads := name, downloads + 1;
    }

    method HandleAbort(name: string) returns (effects: seq<Effect>)
      requires Valid() && repository.Valid()
      modifies this, parts
      ensures Valid() && repository.Valid()
      ensures Outcome(Current(), effects) == OnAbort(old(Current()), name)
    {
      if name == "" {
        return [StatusSent(name, Error(UploadError.UNSPECIFIED_ERROR))];
      }
      if name !in activeDownloads {
        return [];
      }
      StopDownload(name);
      Deactivate();
      return [StatusSent(name, ABORTED)];
    }

    method Deactivate()
      requires Valid()
      modifies this`activeDownload
      ensures Valid() && activeDownload == ""
    {
      activeDownload := "";
    }

    method StopDownload(name: string)
      requires Valid() && name in activeDownloads
      modifies this`entries, this`activeDownloads, parts
      ensures Valid()
      ensures var entry := old(entries)[name];
              entries == Flagged(old(entries)[name := entry.(inbox := entry.inbox + [T.AbortCommand])], name)
    {
      AbortDownloader(name);
      FlagCompletedDownload(name);
    }

    method AbortDownloader(name: string)
      requires Valid() && name in activeDownloads
      modifies this`entries, parts
      ensures Valid()
      ensures entries == old(entries)[name := old(entries)[name].(inbox := old(entries)[name].inbox + [T.AbortCommand])]
    {
      TakeApart(name);
      var entry := activeDownloads[name];
      entry.downloader.Abort();
      Settle(name, entries[name].(inbox := entry.downloader.commandBuffer.commands));
    }

    // ---------------------------------------------------------------- callbacks

    method FlagCompletedDownload(name: string)
      requires Valid()
      modifies this`activeDownloads, this`entries
      ensures Valid() && entries == Flagged(old(entries), name)
    {
      if name in activeDownloads {
        var flagged := activeDownloads[name].(completed := true);
        ghost var mirrored := entries[name].(completed := true);
        DescribedWith(cfg.transfer, activeDownloads, entries, parts, name, flagged, mirrored, parts);
        assert Separate(activeDownloads[name := flagged]);
        activeDownloads := activeDownloads[name := flagged];
        entries := entries[name := mirrored];
      }
    }

    method AddToCommandBuffer(command: Command)
      requires Valid() && repository.Valid()
      modifies commandBuffer
      ensures Valid() && repository.Valid()
      ensures Current() == Push(old(Current()), [command])
    {
      commandBuffer.PushCommand(command);
    }

    method DownloadCompleted(name: string, path: string, hash: string)
      requires Valid() && repository.Valid()
      modifies this`activeDownloads, this`entries, commandBuffer
      ensures Valid() && repository.Valid()
      ensures Current() == OnSuccess(old(Current()), name, hash, path).state
    {
      FlagCompletedDownload(name);
      AddToCommandBuffer(StoreRecord(FileInfo(name, hash, path)));
      AddToCommandBuffer(SendFileList);
    }

    method DownloadFailed(name: string, error: T.TransferError) returns (effects: seq<Effect>)
      requires Valid() && repository.Valid()
      modifies this`activeDownloads, this`entries, commandBuffer
      ensures Valid() && repository.Valid()
      ensures Outcome(Current(), effects) == OnFailure(old(Current()), name, error)
    {
      FlagCompletedDownload(name);
      effects := [StatusSent(name, Error(CodeOf(error)))];
      AddToCommandBuffer(SendFileList);
    }

    // ---------------------------------------------------------------- steps of a downloader

    /** The downloader of `name` runs the oldest of its commands, and its calls reach the service. */
    method RunDownloader(name: string, writable: bool) returns (effects: seq<Effect>)
      requires Valid() && repository.Valid() && name in entries && entries[name].inbox != []
      modifies this`activeDownloads, this`entries, parts, commandBuffer
      ensures Valid() && repository.Valid()
      ensures var inbox := old(entries)[name].inbox;
              Outcome(Current(), effects)
              == Downloads(cfg, old(Current()), name, inbox[1..], T.EventOf(inbox[0], writable))
    {
      var hash := activeDownloads[name].hash;
      var calls := StepDownloader(name, writable);
      effects := HandleCalls(name, hash, calls);
    }

    method StepDownloader(name: string, writable: bool) returns (calls: seq<T.Call>)
      requires Valid() && name in entries && entries[name].inbox != []
      modifies this`entries, parts
      ensures Valid()
      ensures var entry := old(entries)[name];
              var taken := T.Step(cfg.transfer, entry.transfer, T.EventOf(entry.inbox[0], writable));
              && calls == taken.calls
              && entries == old(entries)[name := entry.(transfer := taken.state, inbox := entry.inbox[1..])]
    {
      TakeApart(name);
      var d := activeDownloads[name];
      calls := d.downloader.RunNext(writable);
      Settle(name, entries[name].(transfer := d.downloader.Current(), inbox := d.downloader.commandBuffer.commands));
    }

    /** The timer of the downloader of `name` fires. */
    method TimerFires(name: string) returns (effects: seq<Effect>)
      requires Valid() && repository.Valid() && name in entries && entries[name].transfer.Active?
      modifies this`activeDownloads, this`entries, parts, commandBuffer
      ensures Valid() && repository.Valid()
      ensures Outcome(Current(), effects) == Downloads(cfg, old(Current()), name, old(entries)[name].inbox, T.Timeout)
    {
      var hash := activeDownloads[name].hash;
      var calls := FireTimer(name);
      effects := HandleCalls(name, hash, calls);
    }

    method FireTimer(name: string) returns (calls: seq<T.Call>)
      requires Valid() && name in entries && entries[name].transfer.Active?
      modifies this`entries, parts
      ensures Valid()
      ensures var entry := old(entries)[name];
              var taken := T.Step(cfg.transfer, entry.transfer, T.Timeout);
              calls == taken.calls && entries == old(entries)[name := entry.(transfer := taken.state)]
    {
      TakeApart(name);
      var d := activeDownloads[name];
      calls := d.downloader.TimerFires();
      Settle(name, entries[name].(transfer := d.downloader.Current()));
    }

    method HandleCalls(name: string, hash: string, calls: seq<T.Call>) returns (effects: seq<Effect>)
      requires Valid() && repository.Valid()
      modifies this`activeDownloads, this`entries, commandBuffer
      ensures Valid() && repository.Valid()
      ensures Outcome(Current(), effects) == OnCalls(old(Current()), name, hash, calls)
    {
      effects := [];
      for i := 0 to |calls|
        invariant Valid() && repository.Valid()
        invariant Outcome(Current(), effects) == OnCalls(old(Current()), name, hash, calls[..i])
      {
        var more := HandleCall(name, hash, calls[i]);
        effects := effects + more;
        assert calls[..i + 1][..i] == calls[..i];
      }
      assert calls[..|calls|] == calls;
    }

    /** requestPacket, the write to disk, downloadCompleted and downloadFailed. */
    method HandleCall(name: string, hash: string, call: T.Call) returns (effects: seq<Effect>)
      requires Valid() && repository.Valid()
      modifies this`activeDownloads, this`entries, commandBuffer
      ensures Valid() && repository.Valid()
      ensures Outcome(Current(), effects) == OnCall(old(Current()), name, hash, call)
    {
      effects := [];
      match call {
        case Ask(_, fileName, index, size) => effects := [Asked(fileName, index, size)];
        case Saved(write) => effects := [Wrote(write)];
        case Succeeded(_, path) => DownloadCompleted(name, path, hash);
        case Failed(_, error) => effects := DownloadFailed(name, error);
      }
    }

    /** The command that downloadCompleted pushed. */
    method RecordCompleted(info: FileInfo) returns (effects: seq<Effect>)
      requires Valid() && repository.Valid()
      modifies repository
      ensures Valid() && repository.Valid()
      ensures Current() == old(Current()).(records := Stored(old(repository.Records()), info))
      ensures effects == [FileReady(info)]
    {
      repository.Store(info);
      effects := [FileReady(info)];
    }

    method SendFileListUpdate(dir: Directory) returns (list: seq<string>)
      requires Valid() && repository.Valid()
      modifies repository
      ensures Valid() && repository.Valid()
      ensures Current() == OnList(cfg, old(Current()), dir).state
      ensures StrictlyIncreasing(list) && SameNames(list, Listed(old(repository.Records()), dir))
    {
      list := UpdateFileList(repository, cfg.AsHost(), dir);
    }

    // ---------------------------------------------------------------- the collector

    /** One pass over the entries. */
    method ClearDownloads()
      requires Valid()
      modifies this`activeDownloads, this`entries
      ensures Valid() && entries == Unflagged(old(entries))
    {
      var names := activeDownloads.Keys;
      ghost var all, erased := entries, {};
      NoneSwept(all);
      while names != {}
        invariant Valid() && entries == all - erased && SweptSoFar(all, names, erased)
        decreases names
      {
        var name :| name in names;
        erased := Visit(name, all, names, erased);
        names := names - {name};
      }
      SweptAll(all, erased);
    }

    method Visit(name: string, ghost all: map<string, Entry>, ghost names: set<string>, ghost erased: set<string>)
      returns (ghost more: set<string>)
      requires Valid() && entries == all - erased && SweptSoFar(all, names, erased) && name in names
      modifies this`activeDownloads, this`entries
      ensures Valid() && entries == all - more && SweptSoFar(all, names - {name}, more)
    {
      SweepOne(all, names, erased, name);
      more := if all[name].completed then erased + {name} else erased;
      CollectOne(name);
    }

    method CollectOne(name: string)
      requires Valid() && name in entries
      modifies this`activeDownloads, this`entries
      ensures Valid()
      ensures entries == if old(entries)[name].completed then old(entries) - {name} else old(entries)
    {
      if activeDownloads[name].completed {
        Erase(name);
      }
    }

    method Erase(name: string)
      requires Valid()
      modifies this`activeDownloads, this`entries
      ensures Valid() && entries == old(entries) - {name} && activeDownloads == old(activeDownloads) - {name}
    {
      DescribedWithout(cfg.transfer, activeDownloads, entries, parts, name);
      activeDownloads := activeDownloads - {name};
      entries := entries - {name};
    }
  }
}
