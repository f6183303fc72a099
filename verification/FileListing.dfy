/**
  Keeping the table of files in agreement with the download directory: updateFileList,
  purgeFiles and deleteFile of src/service/file/FileDownloadService.cpp.
*/
module FileListing {
  import opened Bytes
  import opened FileRepository
  import opened SortedNames

  /** absolutePath(composePath(name, directory)), and base64Encode(hashSHA256(content)). */
  datatype Host = Host(pathOf: string -> string, fingerprint: Bytes -> string)

  /** What listing the directory returns, in any order, and the files of it that can be read. */
  datatype Directory = Directory(names: seq<string>, readable: map<string, Bytes>)

  // ---------------------------------------------------------------- specification

  function RecordOf(host: Host, dir: Directory, name: string): (info: FileInfo)
    requires name in dir.readable
  {
    FileInfo(name, host.fingerprint(dir.readable[name]), host.pathOf(name))
  }

  predicate IsNew(m: Records, dir: Directory, name: string) {
    name in dir.names && name !in m && name in dir.readable
  }

  ghost function Survivors(m: Records, dir: Directory): (r: Records) {
    map n | n in m && n in dir.names :: m[n]
  }

  ghost function NewNames(m: Records, dir: Directory): (s: set<string>) {
    set n | n in dir.names && IsNew(m, dir, n)
  }

  /** The names reported to the platform. */
  ghost function Listed(m: Records, dir: Directory): (s: set<string>) {
    Survivors(m, dir).Keys + NewNames(m, dir)
  }

  ghost function StoredAll(m: Records, infos: seq<FileInfo>): (r: Records) {
    if infos == [] then m else Stored(StoredAll(m, infos[..|infos| - 1]), infos[|infos| - 1])
  }

  function NewRecords(known: set<string>, host: Host, dir: Directory, names: seq<string>): (infos: seq<FileInfo>) {
    if names == [] then []
    else
      var last := names[|names| - 1];
      NewRecords(known, host, dir, names[..|names| - 1])
      + if last !in known && last in dir.readable then [RecordOf(host, dir, last)] else []
  }

  ghost function Reconciled(m: Records, host: Host, dir: Directory): (r: Records) {
    StoredAll(Survivors(m, dir), NewRecords(m.Keys, host, dir, dir.names))
  }

  // ---------------------------------------------------------------- new records

  /** A record for each name, the same whenever the name repeats. */
  ghost predicate AreRecords(host: Host, dir: Directory, infos: seq<FileInfo>) {
    forall i | 0 <= i < |infos| :: infos[i].name in dir.readable && infos[i] == RecordOf(host, dir, infos[i].name)
  }

  ghost predicate Names(infos: seq<FileInfo>, name: string) {
    exists i :: 0 <= i < |infos| && infos[i].name == name
  }

  lemma {:induction false} NewRecordsNameTheNew(known: set<string>, host: Host, dir: Directory, names: seq<string>)
    ensures var infos := NewRecords(known, host, dir, names);
            && AreRecords(host, dir, infos)
            && forall n :: Names(infos, n) <==> n in names && n !in known && n in dir.readable
  {
    if names != [] {
      var init, last := names[..|names| - 1], names[|names| - 1];
      NewRecordsNameTheNew(known, host, dir, init);
      var before, infos := NewRecords(known, host, dir, init), NewRecords(known, host, dir, names);
      forall n
        ensures Names(infos, n) <==> n in names && n !in known && n in dir.readable
      {
        if Names(before, n) {
          var i :| 0 <= i < |before| && before[i].name == n;
          assert infos[i].name == n;
        }
        if n == last && n !in known && n in dir.readable {
          assert infos[|infos| - 1].name == n;
        }
      }
    }
  }

  // ---------------------------------------------------------------- storing many

  /** q is m and then the records of some names, as far as their paths were free. */
  ghost predicate Extended(m: Records, host: Host, dir: Directory, infos: seq<FileInfo>, q: Records) {
    && Consistent(q)
    && (forall n | n in m :: n in q && q[n] == m[n])
    && (forall n | n in q && n !in m :: Names(infos, n) && n in dir.readable && q[n] == RecordOf(host, dir, n))
    && (forall i | 0 <= i < |infos| :: infos[i].name in q || PathHeld(q, infos[i].path))
  }

  lemma StoreExtends(m: Records, host: Host, dir: Directory, init: seq<FileInfo>, last: FileInfo, q: Records)
    requires Extended(m, host, dir, init, q)
    requires last.name !in m && last.name in dir.readable && last == RecordOf(host, dir, last.name)
    ensures Extended(m, host, dir, init + [last], Stored(q, last))
  {
    var infos, r := init + [last], Stored(q, last);
    StoredIsConsistent(q, last);
    StoreThenLookup(q, last);
    StoredKeepsRecords(q, last);
    forall n | n in r && n !in m
      ensures Names(infos, n) && n in dir.readable && r[n] == RecordOf(host, dir, n)
    {
      if n == last.name {
        assert infos[|init|].name == n;
      } else {
        var i :| 0 <= i < |init| && init[i].name == n;
        assert infos[i].name == n;
      }
    }
    forall i | 0 <= i < |infos|
      ensures infos[i].name in r || PathHeld(r, infos[i].path)
    {
      if i < |init| && init[i].name !in q {
        var n :| n in q && q[n].path == init[i].path;
        assert n in r && r[n].path == infos[i].path;
      }
    }
  }

  /** Storing records keeps what is there: a name that repeats brings the same record. */
  lemma {:induction false} StoredAllKeeps(m: Records, host: Host, dir: Directory, infos: seq<FileInfo>)
    requires Consistent(m) && AreRecords(host, dir, infos)
    requires forall i | 0 <= i < |infos| :: infos[i].name !in m
    ensures Extended(m, host, dir, infos, StoredAll(m, infos))
  {
    if infos != [] {
      var init, last := infos[..|infos| - 1], infos[|infos| - 1];
      StoredAllKeeps(m, host, dir, init);
      StoreExtends(m, host, dir, init, last, StoredAll(m, init));
      assert infos == init + [last];
    }
  }

  lemma StoredKeepsRecords(m: Records, info: FileInfo)
    requires Consistent(m) && (info.name in m ==> m[info.name] == info)
    ensures forall n | n in m :: n in Stored(m, info) && Stored(m, info)[n] == m[n]
    ensures info.name in Stored(m, info) || PathHeld(Stored(m, info), info.path)
  {
    var rest := m - {info.name};
    if PathHeld(rest, info.path) {
      var n :| n in rest && rest[n].path == info.path;
      assert n in m && m[n].path == info.path;
      assert info.name !in m;
      assert rest == m;
    }
  }

  // ---------------------------------------------------------------- reconciliation

  /** No new file has the path of a surviving record, or of another new file. */
  ghost predicate PathsFree(m: Records, host: Host, dir: Directory) {
    && (forall n, k | n in NewNames(m, dir) && k in Survivors(m, dir) :: host.pathOf(n) != m[k].path)
    && (forall n, k | n in NewNames(m, dir) && k in NewNames(m, dir) && host.pathOf(n) == host.pathOf(k) :: n == k)
  }

  lemma ReconciledContents(m: Records, host: Host, dir: Directory)
    requires Consistent(m)
    ensures var r := Reconciled(m, host, dir);
            && Consistent(r)
            && (forall n | n in Survivors(m, dir) :: n in r && r[n] == m[n])
            && (forall n | n in r && n !in Survivors(m, dir) ::
                  n in NewNames(m, dir) && r[n] == RecordOf(host, dir, n))
            && (forall n | n in NewNames(m, dir) :: n in r || PathHeld(r, host.pathOf(n)))
  {
    var infos := NewRecords(m.Keys, host, dir, dir.names);
    NewRecordsNameTheNew(m.Keys, host, dir, dir.names);
    forall i | 0 <= i < |infos|
      ensures infos[i].name !in Survivors(m, dir)
    {
      assert Names(infos, infos[i].name);
    }
    StoredAllKeeps(Survivors(m, dir), host, dir, infos);
    forall n | n in NewNames(m, dir)
      ensures n in Reconciled(m, host, dir) || PathHeld(Reconciled(m, host, dir), host.pathOf(n))
    {
      assert Names(infos, n);
      var i :| 0 <= i < |infos| && infos[i].name == n;
    }
  }

  /** The table holds exactly the listed names if and only if no two of their paths collide. */
  lemma TableMatchesListExactlyWhen(m: Records, host: Host, dir: Directory)
    requires Consistent(m)
    ensures Reconciled(m, host, dir).Keys == Listed(m, dir) <==> PathsFree(m, host, dir)
  {
    ReconciledContents(m, host, dir);
    var r := Reconciled(m, host, dir);
    if PathsFree(m, host, dir) {
      forall n | n in NewNames(m, dir)
        ensures n in r
      {
        if PathHeld(r, host.pathOf(n)) {
          var k :| k in r && r[k].path == host.pathOf(n);
          if k in Survivors(m, dir) {
            assert false;
          } else {
            assert k == n;
          }
        }
      }
      assert r.Keys == Listed(m, dir);
    } else if r.Keys == Listed(m, dir) {
      forall n | n in NewNames(m, dir)
        ensures n in r && r[n].path == host.pathOf(n)
      {
        assert n in r.Keys;
      }
      assert PathsFree(m, host, dir);
    }
  }

  /** Two listings of an unchanged disk, in any order and with any repetitions. */
  ghost predicate SameFiles(dir: Directory, again: Directory) {
    again.readable == dir.readable && forall n :: n in again.names <==> n in dir.names
  }

  /** A second update on an unchanged disk changes no record and lists the same names. */
  lemma SecondUpdateChangesNothing(m: Records, host: Host, dir: Directory, again: Directory)
    requires Consistent(m) && SameFiles(dir, again)
    ensures var r := Reconciled(m, host, dir);
            Reconciled(r, host, again) == r && Listed(r, again) == Listed(m, dir)
  {
    ReconciledContents(m, host, dir);
    var r := Reconciled(m, host, dir);
    assert Survivors(r, again) == r;
    var infos := NewRecords(r.Keys, host, again, again.names);
    NewRecordsNameTheNew(r.Keys, host, again, again.names);
    forall i | 0 <= i < |infos|
      ensures infos[i].name !in r && PathHeld(r, infos[i].path)
    {
      assert Names(infos, infos[i].name);
      assert infos[i].name in NewNames(m, dir);
    }
    StoringHeldPathsChangesNothing(r, infos);
    forall n
      ensures n in Listed(r, again) <==> n in Listed(m, dir)
    {
    }
  }

  lemma {:induction false} StoringHeldPathsChangesNothing(m: Records, infos: seq<FileInfo>)
    requires forall i | 0 <= i < |infos| :: infos[i].name !in m && PathHeld(m, infos[i].path)
    ensures StoredAll(m, infos) == m
  {
    if infos != [] {
      StoringHeldPathsChangesNothing(m, infos[..|infos| - 1]);
      assert m - {infos[|infos| - 1].name} == m;
    }
  }

  // ---------------------------------------------------------------- the operation

  method UpdateFileList(repository: SQLiteFileRepository, host: Host, dir: Directory) returns (list: seq<string>)
    requires repository.Valid()
    modifies repository
    ensures repository.Valid()
    ensures repository.Records() == Reconciled(old(repository.Records()), host, dir)
    ensures StrictlyIncreasing(list) && SameNames(list, Listed(old(repository.Records()), dir))
    ensures forall n :: n in list <==> n in dir.names && (n in old(repository.Records()) || n in dir.readable)
  {
    var filesInRepo := repository.GetAllFileNames();
    var filesMissingOnDisk, recordedFiles := ClassifyRecorded(filesInRepo, dir);
    var newFilesOnDisk, diskFiles := ClassifyDisk(filesInRepo, repository.Records().Keys, host, dir);
    var allValidFiles := recordedFiles + diskFiles;

    RemoveMissing(repository, filesMissingOnDisk, dir);
    StoreNew(repository, newFilesOnDisk);

    SortedUniqueIncreases(allValidFiles);
    list := SortedUnique(allValidFiles);
  }

  method ClassifyRecorded(filesInRepo: seq<string>, dir: Directory) returns (missing: seq<string>, valid: seq<string>)
    ensures forall n :: n in missing <==> n in filesInRepo && n !in dir.names
    ensures forall n :: n in valid <==> n in filesInRepo && n in dir.names
  {
    missing, valid := [], [];
    for i := 0 to |filesInRepo|
      invariant forall n :: n in missing <==> n in filesInRepo[..i] && n !in dir.names
      invariant forall n :: n in valid <==> n in filesInRepo[..i] && n in dir.names
    {
      if filesInRepo[i] !in dir.names {
        missing := missing + [filesInRepo[i]];
      } else {
        valid := valid + [filesInRepo[i]];
      }
    }
    assert filesInRepo[..|filesInRepo|] == filesInRepo;
  }

  method ClassifyDisk(filesInRepo: seq<string>, ghost known: set<string>, host: Host, dir: Directory)
    returns (newFiles: seq<FileInfo>, valid: seq<string>)
    requires SameNames(filesInRepo, known)
    ensures newFiles == NewRecords(known, host, dir, dir.names)
    ensures forall n :: n in valid <==> n in dir.names && (n in known || n in dir.readable)
  {
    newFiles, valid := [], [];
    for i := 0 to |dir.names|
      invariant newFiles == NewRecords(known, host, dir, dir.names[..i])
      invariant forall n :: n in valid <==> n in dir.names[..i] && (n in known || n in dir.readable)
    {
      var diskFile := dir.names[i];
      assert dir.names[..i + 1][..i] == dir.names[..i];
      if diskFile !in filesInRepo {
        if diskFile in dir.readable {
          newFiles := newFiles + [RecordOf(host, dir, diskFile)];
          valid := valid + [diskFile];
        }
      } else {
        valid := valid + [diskFile];
      }
    }
    assert dir.names[..|dir.names|] == dir.names;
  }

  method RemoveMissing(repository: SQLiteFileRepository, missing: seq<string>, ghost dir: Directory)
    requires repository.Valid()
    requires forall n :: n in missing <==> n in repository.Records() && n !in dir.names
    modifies repository
    ensures repository.Valid() && repository.Records() == Survivors(old(repository.Records()), dir)
  {
    ghost var m := repository.Records();
    for i := 0 to |missing|
      invariant repository.Valid() && repository.Records() == RemovedAll(m, missing[..i])
    {
      assert missing[..i + 1][..i] == missing[..i];
      repository.Remove(missing[i]);
    }
    assert missing[..|missing|] == missing;
    RemovedAllIs(m, missing);
  }

  ghost function RemovedAll(m: Records, names: seq<string>): (r: Records) {
    if names == [] then m else RemovedAll(m, names[..|names| - 1]) - {names[|names| - 1]}
  }

  lemma {:induction false} RemovedAllIs(m: Records, names: seq<string>)
    ensures RemovedAll(m, names) == map n | n in m && n !in names :: m[n]
  {
    if names != [] {
      RemovedAllIs(m, names[..|names| - 1]);
      assert forall n :: n in names <==> n in names[..|names| - 1] || n == names[|names| - 1];
    }
  }

  method StoreNew(repository: SQLiteFileRepository, infos: seq<FileInfo>)
    requires repository.Valid()
    modifies repository
    ensures repository.Valid() && repository.Records() == StoredAll(old(repository.Records()), infos)
  {
    for i := 0 to |infos|
      invariant repository.Valid() && repository.Records() == StoredAll(old(repository.Records()), infos[..i])
    {
      assert infos[..i + 1][..i] == infos[..i];
      repository.Store(infos[i]);
    }
    assert infos[..|infos|] == infos;
  }

  /**
    Two updates in a row return the same list and leave the table as the first one did,
    however the two listings of the unchanged disk are ordered.
  */
  method UpdateTwice(repository: SQLiteFileRepository, host: Host, dir: Directory, again: Directory)
    returns (first: seq<string>, second: seq<string>)
    requires repository.Valid() && SameFiles(dir, again)
    modifies repository
    ensures repository.Valid() && first == second
    ensures repository.Records() == Reconciled(old(repository.Records()), host, dir)
  {
    ghost var m := repository.Records();
    IndexIsConsistent(repository.rows);
    SecondUpdateChangesNothing(m, host, dir, again);
    first := UpdateFileList(repository, host, dir);
    second := UpdateFileList(repository, host, again);
    IncreasingListIsUnique(first, second);
  }
}
