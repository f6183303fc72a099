/** Deleting received files: purgeFiles and deleteFile of src/service/file/FileDownloadService.cpp. */
module FilePurge {
  import opened Bytes
  import opened FileRepository
  import opened FileListing

  /** The files by path, and the paths whose deletion fails. */
  class Disk {
    var files: map<string, Bytes>
    const locked: set<string>

    method DeleteFile(path: string) returns (deleted: bool)
      modifies this`files
      ensures deleted <==> path in old(files) && path !in locked
      ensures files == if deleted then old(files) - {path} else old(files)
    {
      deleted := path in files && path !in locked;
      if deleted {
        files := files - {path};
      }
    }
  }

  predicate Deletable(files: map<string, Bytes>, locked: set<string>, path: string) {
    path in files && path !in locked
  }

  /** The records whose file could not be deleted. */
  ghost function Kept(m: Records, files: map<string, Bytes>, locked: set<string>): (r: Records) {
    map n | n in m && !Deletable(files, locked, m[n].path) :: m[n]
  }

  ghost function FilesLeft(m: Records, files: map<string, Bytes>, locked: set<string>): (r: map<string, Bytes>) {
    map p | p in files && (p in locked || !PathHeld(m, p)) :: files[p]
  }

  /** The first names of the list are dealt with, the others untouched. */
  ghost predicate PurgedSoFar(m: Records, files: map<string, Bytes>, locked: set<string>, done: seq<string>,
                              r: Records, left: map<string, Bytes>)
  {
    && (forall n :: n in r <==> n in m && (n in done ==> !Deletable(files, locked, m[n].path)))
    && (forall n | n in r :: r[n] == m[n])
    && (forall p :: p in left <==> p in files && (p in locked || !HeldBy(m, done, p)))
    && (forall p | p in left :: left[p] == files[p])
  }

  ghost predicate HeldBy(m: Records, names: seq<string>, path: string) {
    exists n :: n in names && n in m && m[n].path == path
  }

  lemma PurgeOne(m: Records, files: map<string, Bytes>, locked: set<string>, done: seq<string>, name: string,
                 r: Records, left: map<string, Bytes>)
    requires Consistent(m) && name in m && name !in done
    requires PurgedSoFar(m, files, locked, done, r, left)
    ensures name in r && r[name] == m[name]
    ensures var path := m[name].path;
            && (Deletable(left, locked, path) <==> Deletable(files, locked, path))
            && if Deletable(left, locked, path)
               then PurgedSoFar(m, files, locked, done + [name], r - {name}, left - {path})
               else PurgedSoFar(m, files, locked, done + [name], r, left)
  {
    var path := m[name].path;
    assert !HeldBy(m, done, path);
    forall p
      ensures HeldBy(m, done + [name], p) <==> HeldBy(m, done, p) || p == path
    {
      if HeldBy(m, done, p) {
        var n :| n in done && n in m && m[n].path == p;
        assert n in done + [name];
      }
      if p == path {
        assert name in done + [name];
      }
    }
  }

  lemma PurgeDone(m: Records, files: map<string, Bytes>, locked: set<string>, names: seq<string>,
                  r: Records, left: map<string, Bytes>)
    requires forall n :: n in names <==> n in m
    requires PurgedSoFar(m, files, locked, names, r, left)
    ensures r == Kept(m, files, locked) && left == FilesLeft(m, files, locked)
  {
    forall p
      ensures HeldBy(m, names, p) <==> PathHeld(m, p)
    {
    }
  }

  method PurgeFiles(repository: SQLiteFileRepository, disk: Disk)
    requires repository.Valid()
    modifies repository, disk`files
    ensures repository.Valid()
    ensures repository.Records() == Kept(old(repository.Records()), old(disk.files), disk.locked)
    ensures disk.files == FilesLeft(old(repository.Records()), old(disk.files), disk.locked)
  {
    ghost var m, files := repository.Records(), disk.files;
    IndexIsConsistent(repository.rows);
    var fileNames := repository.GetAllFileNames();
    for i := 0 to |fileNames|
      invariant repository.Valid()
      invariant PurgedSoFar(m, files, disk.locked, fileNames[..i], repository.Records(), disk.files)
    {
      assert fileNames[..i + 1] == fileNames[..i] + [fileNames[i]];
      PurgeOne(m, files, disk.locked, fileNames[..i], fileNames[i], repository.Records(), disk.files);
      PurgeFile(repository, disk, fileNames[i]);
    }
    assert fileNames[..|fileNames|] == fileNames;
    PurgeDone(m, files, disk.locked, fileNames, repository.Records(), disk.files);
  }

  /** One pass of the loop: a name without a record is skipped. */
  method PurgeFile(repository: SQLiteFileRepository, disk: Disk, name: string)
    requires repository.Valid()
    modifies repository, disk`files
    ensures repository.Valid()
    ensures var m := old(repository.Records());
            if name in m && Deletable(old(disk.files), disk.locked, m[name].path)
            then repository.Records() == m - {name} && disk.files == old(disk.files) - {m[name].path}
            else repository.Records() == m && disk.files == old(disk.files)
  {
    var info := repository.GetFileInfo(name);
    if info.None? {
      return;
    }
    var deleted := disk.DeleteFile(info.value.path);
    if !deleted {
      return;
    }
    repository.Remove(name);
  }

  /** Without a record the code goes on to dereference the empty result of its lookup: undefined. */
  method DeleteFile(repository: SQLiteFileRepository, disk: Disk, fileName: string) returns (defined: bool)
    requires repository.Valid()
    modifies repository, disk`files
    ensures repository.Valid()
    ensures defined <==> fileName in old(repository.Records())
    ensures var m := old(repository.Records());
            if fileName in m && Deletable(old(disk.files), disk.locked, m[fileName].path)
            then repository.Records() == m - {fileName} && disk.files == old(disk.files) - {m[fileName].path}
            else repository.Records() == m && disk.files == old(disk.files)
  {
    var info := repository.GetFileInfo(fileName);
    if info.None? {
      return false;
    }
    var deleted := disk.DeleteFile(info.value.path);
    if deleted {
      repository.Remove(fileName);
    }
    return true;
  }

  // ---------------------------------------------------------------- agreement of table and disk

  ghost predicate AllPresent(m: Records, files: map<string, Bytes>) {
    forall n | n in m :: m[n].path in files
  }

  /** A record that a purge leaves behind still has its file, and only records lose theirs. */
  lemma PurgeConservesAgreement(m: Records, files: map<string, Bytes>, locked: set<string>)
    requires Consistent(m)
    ensures Consistent(Kept(m, files, locked))
    ensures AllPresent(m, files) ==> AllPresent(Kept(m, files, locked), FilesLeft(m, files, locked))
    ensures AllPresent(m, files) ==>
              forall n | n in m :: n in Kept(m, files, locked) <==> m[n].path in FilesLeft(m, files, locked)
    ensures forall p | p in files && !PathHeld(m, p) :: p in FilesLeft(m, files, locked)
  {
  }

  /** The listing shows exactly the files at the paths of its names, and reads them as they are. */
  ghost predicate Shows(host: Host, dir: Directory, files: map<string, Bytes>) {
    && (forall n :: n in dir.names <==> host.pathOf(n) in files)
    && (forall n | n in dir.readable :: host.pathOf(n) in files && dir.readable[n] == files[host.pathOf(n)])
  }

  /** The records that are at the paths their names give. */
  predicate AtHome(host: Host, m: Records, name: string) {
    name in m && m[name].path == host.pathOf(name)
  }

  /**
    What is listed after a purge, whatever was there before: a recorded file in the directory
    exactly if it is there and could not be deleted; an unrecorded one exactly if it is there
    and can be read; and a name recorded at another path exactly if a file of that name is in
    the directory, and its record was kept or the file can be read.
  */
  lemma ListAfterPurge(m: Records, files: map<string, Bytes>, locked: set<string>, host: Host, dir: Directory,
                       name: string)
    requires Consistent(m) && Shows(host, dir, FilesLeft(m, files, locked))
    ensures var kept, path := Kept(m, files, locked), host.pathOf(name);
            name in Listed(kept, dir) <==>
              if AtHome(host, m, name) then path in files && path in locked
              else if name !in m then name in dir.names && name in dir.readable
              else name in dir.names && (name in kept || name in dir.readable)
  {
    var kept := Kept(m, files, locked);
    assert name in dir.names <==> host.pathOf(name) in FilesLeft(m, files, locked);
    if AtHome(host, m, name) {
      assert PathHeld(m, host.pathOf(name));
    }
  }

  /**
    If all records were at home and present, exactly the records that survive the purge stay,
    and the table then holds exactly the names listed if and only if no new path collides.
  */
  lemma TableAfterPurge(m: Records, files: map<string, Bytes>, locked: set<string>, host: Host, dir: Directory)
    requires Consistent(m) && AllPresent(m, files) && Shows(host, dir, FilesLeft(m, files, locked))
    requires forall n | n in m :: AtHome(host, m, n)
    ensures var kept := Kept(m, files, locked);
            && Survivors(kept, dir) == kept
            && (Reconciled(kept, host, dir).Keys == Listed(kept, dir) <==> PathsFree(kept, host, dir))
            && ((forall a, b | host.pathOf(a) == host.pathOf(b) :: a == b) ==> PathsFree(kept, host, dir))
  {
    var kept := Kept(m, files, locked);
    PurgeConservesAgreement(m, files, locked);
    assert Survivors(kept, dir) == kept;
    TableMatchesListExactlyWhen(kept, host, dir);
  }
}
