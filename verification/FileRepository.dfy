/**
  The table of received files (src/repository/SQLiteFileRepository.cpp). The database is a
  list of rows with two uniqueness constraints; an insert that violates one throws, and the
  exception is swallowed. No other statement fails.
*/
module FileRepository {
  import opened Bytes

  datatype FileInfo = FileInfo(name: string, hash: string, path: string)

  /** The table as the map it is meant to be. */
  type Records = map<string, FileInfo>

  ghost predicate Consistent(m: Records) {
    && (forall n | n in m :: m[n].name == n)
    && (forall a, b | a in m && b in m && m[a].path == m[b].path :: a == b)
  }

  ghost predicate PathHeld(m: Records, path: string) {
    exists n :: n in m && m[n].path == path
  }

  /** Storing replaces the record of that name, unless another name holds the path: then it only removes. */
  ghost function Stored(m: Records, info: FileInfo): (r: Records) {
    var rest := m - {info.name};
    if PathHeld(rest, info.path) then rest else rest[info.name := info]
  }

  // ---------------------------------------------------------------- rows

  ghost predicate UniqueNames(rows: seq<FileInfo>) {
    forall i, j | 0 <= i < j < |rows| :: rows[i].name != rows[j].name
  }

  ghost predicate UniquePaths(rows: seq<FileInfo>) {
    forall i, j | 0 <= i < j < |rows| :: rows[i].path != rows[j].path
  }

  ghost function Index(rows: seq<FileInfo>): (m: Records)
    requires UniqueNames(rows)
  {
    map r | r in rows :: r.name := r
  }

  function Without(rows: seq<FileInfo>, name: string): (rest: seq<FileInfo>)
    ensures forall r :: r in rest <==> r in rows && r.name != name
  {
    if rows == [] then []
    else Without(rows[..|rows| - 1], name) + if rows[|rows| - 1].name == name then [] else [rows[|rows| - 1]]
  }

  lemma {:induction false} WithoutKeepsUnique(rows: seq<FileInfo>, name: string)
    requires UniqueNames(rows) && UniquePaths(rows)
    ensures UniqueNames(Without(rows, name)) && UniquePaths(Without(rows, name))
  {
    if rows != [] {
      var init, last := rows[..|rows| - 1], rows[|rows| - 1];
      WithoutKeepsUnique(init, name);
      forall r | r in Without(init, name)
        ensures r.name != last.name && r.path != last.path
      {
        var i :| 0 <= i < |init| && init[i] == r;
      }
    }
  }

  lemma Indexed(rows: seq<FileInfo>, name: string)
    requires UniqueNames(rows)
    ensures name in Index(rows) ==> Index(rows)[name] in rows && Index(rows)[name].name == name
    ensures forall r | r in rows && r.name == name :: name in Index(rows) && Index(rows)[name] == r
  {
  }

  lemma IndexWithout(rows: seq<FileInfo>, name: string)
    requires UniqueNames(rows) && UniqueNames(Without(rows, name))
    ensures Index(Without(rows, name)) == Index(rows) - {name}
  {
    var rest := Without(rows, name);
    var l, r := Index(rest), Index(rows) - {name};
    forall n
      ensures n in l <==> n in r
      ensures n in l ==> n in r && l[n] == r[n]
    {
      Indexed(rows, n);
      Indexed(rest, n);
    }
  }

  predicate HasPath(rows: seq<FileInfo>, path: string) {
    exists i :: 0 <= i < |rows| && rows[i].path == path
  }

  predicate HasName(rows: seq<FileInfo>, name: string) {
    exists i :: 0 <= i < |rows| && rows[i].name == name
  }

  lemma IndexHolds(rows: seq<FileInfo>, name: string, path: string)
    requires UniqueNames(rows)
    ensures HasName(rows, name) <==> name in Index(rows)
    ensures HasPath(rows, path) <==> PathHeld(Index(rows), path)
  {
    if HasPath(rows, path) {
      var i :| 0 <= i < |rows| && rows[i].path == path;
      assert rows[i].name in Index(rows);
    }
  }

  lemma IndexGrows(rows: seq<FileInfo>, info: FileInfo)
    requires UniqueNames(rows) && UniquePaths(rows)
    requires !HasName(rows, info.name) && !HasPath(rows, info.path)
    ensures UniqueNames(rows + [info]) && UniquePaths(rows + [info])
    ensures Index(rows + [info]) == Index(rows)[info.name := info]
  {
    var more := rows + [info];
    forall i, j | 0 <= i < j < |more|
      ensures more[i].name != more[j].name && more[i].path != more[j].path
    {
    }
    assert forall r :: r in more <==> r in rows || r == info;
  }

  lemma IndexIsConsistent(rows: seq<FileInfo>)
    requires UniqueNames(rows) && UniquePaths(rows)
    ensures Consistent(Index(rows))
  {
    var m := Index(rows);
    forall a, b | a in m && b in m && m[a].path == m[b].path
      ensures a == b
    {
      var i :| 0 <= i < |rows| && rows[i] == m[a];
      var j :| 0 <= j < |rows| && rows[j] == m[b];
      assert i == j;
    }
  }

  // ---------------------------------------------------------------- the repository

  class SQLiteFileRepository {
    var rows: seq<FileInfo>

    ghost predicate Valid()
      reads this
    {
      UniqueNames(rows) && UniquePaths(rows)
    }

    ghost function Records(): (m: Records)
      requires Valid()
      reads this
    {
      Index(rows)
    }

    constructor ()
      ensures Valid() && Records() == map[]
    {
      rows := [];
    }

    method GetFileInfo(fileName: string) returns (info: Option<FileInfo>)
      requires Valid()
      ensures info == if fileName in Records() then Some(Records()[fileName]) else None
    {
      var i := 0;
      while i < |rows|
        invariant i <= |rows|
        invariant forall j | 0 <= j < i :: rows[j].name != fileName
      {
        if rows[i].name == fileName {
          return Some(rows[i]);
        }
        i := i + 1;
      }
      return None;
    }

    method GetAllFileNames() returns (names: seq<string>)
      requires Valid()
      ensures forall n :: n in names <==> n in Records()
      ensures forall i, j | 0 <= i < j < |names| :: names[i] != names[j]
    {
      names := seq(|rows|, i requires 0 <= i < |rows| reads this => rows[i].name);
      forall n | n in Records()
        ensures n in names
      {
        var i :| 0 <= i < |rows| && rows[i].name == n;
        assert names[i] == n;
      }
    }

    method ContainsInfoForFile(fileName: string) returns (found: bool)
      requires Valid()
      ensures found <==> fileName in Records()
    {
      IndexHolds(rows, fileName, "");
      found := HasName(rows, fileName);
    }

    /** Store and Update call each other; the removal in between makes that end. */
    method Store(info: FileInfo)
      requires Valid()
      modifies this
      ensures Valid() && Records() == Stored(old(Records()), info)
      decreases if info.name in Records() then 2 else 0
    {
      var known := ContainsInfoForFile(info.name);
      if known {
        Update(info);
        return;
      }
      assert Records() - {info.name} == Records();
      IndexHolds(rows, info.name, info.path);
      if !HasPath(rows, info.path) {
        IndexGrows(rows, info);
        rows := rows + [info];
      }
    }

    method Update(info: FileInfo)
      requires Valid()
      modifies this
      ensures Valid() && Records() == Stored(old(Records()), info)
      decreases 1
    {
      Remove(info.name);
      assert Records() - {info.name} == Records();
      Store(info);
    }

    method Remove(fileName: string)
      requires Valid()
      modifies this
      ensures Valid() && Records() == old(Records()) - {fileName}
    {
      var known := ContainsInfoForFile(fileName);
      if !known {
        assert Records() - {fileName} == Records();
        return;
      }
      WithoutKeepsUnique(rows, fileName);
      IndexWithout(rows, fileName);
      rows := Without(rows, fileName);
    }

    method RemoveAll()
      modifies this
      ensures Valid() && Records() == map[]
    {
      rows := [];
    }
  }

  // ---------------------------------------------------------------- what callers may rely on

  lemma StoredIsConsistent(m: Records, info: FileInfo)
    requires Consistent(m)
    ensures Consistent(Stored(m, info))
  {
    var r := Stored(m, info);
    var rest := m - {info.name};
    forall a, b | a in r && b in r && r[a].path == r[b].path
      ensures a == b
    {
      assert PathHeld(rest, info.path) || (a != info.name ==> r[a].path != info.path);
      assert PathHeld(rest, info.path) || (b != info.name ==> r[b].path != info.path);
    }
  }

  /** The record just stored is found again exactly when no other file holds its path. */
  lemma StoreThenLookup(m: Records, info: FileInfo)
    requires Consistent(m)
    ensures (info.name in Stored(m, info) && Stored(m, info)[info.name] == info)
              <==> (forall n | n in m && n != info.name :: m[n].path != info.path)
    ensures info.name in Stored(m, info) <==> (forall n | n in m && n != info.name :: m[n].path != info.path)
    ensures forall n | n != info.name :: (n in Stored(m, info) <==> n in m) && (n in m ==> Stored(m, info)[n] == m[n])
  {
    var rest := m - {info.name};
    if n :| n in m && n != info.name && m[n].path == info.path {
      assert n in rest && rest[n].path == info.path;
    }
  }

  /** Storing a record twice is storing it once. */
  lemma StoreIsIdempotent(m: Records, info: FileInfo)
    requires Consistent(m)
    ensures Stored(Stored(m, info), info) == Stored(m, info)
  {
    var rest := m - {info.name};
    var r := Stored(m, info);
    assert r - {info.name} == rest;
  }
}
