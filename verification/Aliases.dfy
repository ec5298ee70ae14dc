/** The collision check that the installer and the re-verifier run on a package
    inventory (src/install.rs, `reject_inventory_aliases`). `folded` stands for
    the file system's notion of equal names and is arbitrary. */
module Aliases {
  import opened Prelude
  import opened Paths
  import opened Package
  import opened Inventory

  function Leaves(files: seq<FileEntry>): set<bytes> {
    set f <- files :: f.path
  }

  function Directories(files: seq<FileEntry>): set<bytes> {
    set f <- files, a <- Ancestors(f.path) :: a
  }

  /** Installing these files creates no name twice, whatever `folded` equates:
      the specification, free of any listing order. */
  ghost predicate AliasFree(files: seq<FileEntry>, folded: bytes -> bytes) {
    && DistinctPaths(files)
    && Leaves(files) !! Directories(files)
    && (forall a, b :: a in Names(files) && b in Names(files) && folded(a) == folded(b) ==> a == b)
  }

  ghost function Names(files: seq<FileEntry>): set<bytes> {
    Leaves(files) + Directories(files)
  }

  /** The table holds exactly these directories and leaves under folded keys. */
  ghost predicate Table(entries: map<bytes, (bytes, bool)>, folded: bytes -> bytes,
                        dirs: set<bytes>, leaves: set<bytes>) {
    && (forall p <- dirs :: folded(p) in entries && entries[folded(p)] == (p, true))
    && (forall p <- leaves :: folded(p) in entries && entries[folded(p)] == (p, false))
    && (forall k <- entries :: folded(entries[k].0) == k)
    && (forall k <- entries :: if entries[k].1 then entries[k].0 in dirs else entries[k].0 in leaves)
  }

  /** The condition under which the loop body gives up on a name. */
  predicate Refused(entries: map<bytes, (bytes, bool)>, folded: bytes -> bytes,
                    path: bytes, directory: bool) {
    folded(path) in entries
    && (entries[folded(path)].0 != path || !directory || !entries[folded(path)].1)
  }

  function Listed(entries: map<bytes, (bytes, bool)>, folded: bytes -> bytes,
                  path: bytes, directory: bool): map<bytes, (bytes, bool)> {
    if folded(path) in entries then entries else entries[folded(path) := (path, directory)]
  }

  lemma TableStep(entries: map<bytes, (bytes, bool)>, folded: bytes -> bytes,
                  dirs: set<bytes>, leaves: set<bytes>, path: bytes, directory: bool)
    requires Table(entries, folded, dirs, leaves)
    requires !Refused(entries, folded, path, directory)
    ensures Table(Listed(entries, folded, path, directory), folded,
                  if directory then dirs + {path} else dirs,
                  if directory then leaves else leaves + {path})
    ensures path !in leaves && (!directory ==> path !in dirs)
  {
  }

  lemma TableSeparates(entries: map<bytes, (bytes, bool)>, folded: bytes -> bytes,
                       dirs: set<bytes>, leaves: set<bytes>)
    requires Table(entries, folded, dirs, leaves)
    ensures dirs !! leaves
    ensures forall a, b :: a in dirs + leaves && b in dirs + leaves && folded(a) == folded(b) ==> a == b
  {
    forall a | a in dirs && a in leaves ensures false {
      assert entries[folded(a)] == (a, true);
    }
  }

  /** A refused name is a genuine collision. */
  lemma RefusedCollides(files: seq<FileEntry>, i: nat, folded: bytes -> bytes,
                        entries: map<bytes, (bytes, bool)>, dirs: set<bytes>,
                        path: bytes, directory: bool)
    requires i < |files| && Table(entries, folded, dirs, Leaves(files[..i]))
    requires dirs <= Directories(files)
    requires if directory then path in Ancestors(files[i].path) else path == files[i].path
    requires Refused(entries, folded, path, directory)
    ensures !AliasFree(files, folded)
  {
    var (prior, priorDirectory) := entries[folded(path)];
    assert prior in Names(files) by {
      if !priorDirectory {
        var f :| f in files[..i] && f.path == prior;
      }
    }
    assert path in Names(files);
    assert folded(prior) == folded(path);
    if prior == path && !priorDirectory {
      var j :| 0 <= j < i && files[..i][j].path == prior;
      assert files[j].path == prior;
      if directory {
        assert path in Leaves(files) && path in Directories(files);
      }
    } else if prior == path {
      assert path in Leaves(files) && path in Directories(files);
    }
  }

  ghost function Prefixes(path: bytes, end: nat): set<bytes>
    requires 1 <= end <= Count(path)
  {
    set e | 1 <= e < end :: Prefix(path, e)
  }

  lemma PrefixesStep(path: bytes, parts: seq<bytes>, end: nat)
    requires parts == Split(path) && 1 <= end < Count(path)
    ensures end < |parts| && Join(parts[..end]) in Ancestors(path)
    ensures Prefixes(path, end + 1) == Prefixes(path, end) + {Join(parts[..end])}
    ensures Prefixes(path, end) <= Ancestors(path)
  {
    SplitCount(path);
    PrefixJoin(path, parts, end);
    var stop := PrefixStops(path, end);
    PrefixesAll(path);
  }

  lemma PrefixesAll(path: bytes)
    ensures Prefixes(path, Count(path)) == Ancestors(path)
  {
    forall e | 1 <= e < Count(path) ensures Prefix(path, e) in Ancestors(path) {
      var stop := PrefixStops(path, e);
    }
    forall a | a in Ancestors(path) ensures a in Prefixes(path, Count(path)) {
      var j :| 0 <= j < |path| && path[j] == SLASH && path[..j] == a;
      var e := SlashIsPrefix(path, j);
    }
  }

  /** The turns of the inner loop that list the directories of one path. */
  method ListDirectories(files: seq<FileEntry>, i: nat, parts: seq<bytes>, folded: bytes -> bytes,
                         table: map<bytes, (bytes, bool)>, ghost before: set<bytes>)
    returns (clash: bool, entries: map<bytes, (bytes, bool)>)
    requires i < |files| && parts == Split(files[i].path)
    requires Table(table, folded, before, Leaves(files[..i])) && before == Directories(files[..i])
    ensures clash ==> !AliasFree(files, folded)
    ensures !clash ==> Table(entries, folded, Directories(files[..i + 1]), Leaves(files[..i]))
  {
    hide Table, Refused, Listed, AliasFree, Directories, Leaves, Join, Split, Ancestors, Prefix;
    entries := table;
    ghost var dirs := before;
    SplitCount(files[i].path);
    DirectoriesStep(files, i);
    for end := 1 to |parts|
      invariant Table(entries, folded, dirs, Leaves(files[..i]))
      invariant dirs == before + Prefixes(files[i].path, end)
    {
      var name := Join(parts[..end]);
      PrefixesStep(files[i].path, parts, end);
      if Refused(entries, folded, name, true) {
        RefusedCollides(files, i, folded, entries, dirs, name, true);
        return true, entries;
      }
      TableStep(entries, folded, dirs, Leaves(files[..i]), name, true);
      entries := Listed(entries, folded, name, true);
      dirs := dirs + {name};
    }
    PrefixesAll(files[i].path);
    clash := false;
  }

  method RejectInventoryAliases(files: seq<FileEntry>, folded: bytes -> bytes)
    returns (r: Result<(), Error>)
    ensures r.Ok? <==> AliasFree(files, folded)
    ensures r.Err? ==> r.error == PathCollision
  {
    var entries: map<bytes, (bytes, bool)> := map[];
    for i := 0 to |files|
      invariant Table(entries, folded, Directories(files[..i]), Leaves(files[..i]))
      invariant DistinctPaths(files[..i])
    {
      var parts := Split(files[i].path);
      var clash, listed := ListDirectories(files, i, parts, folded, entries, Directories(files[..i]));
      if clash {
        return Err(PathCollision);
      }
      // The last turn of the inner loop, where the name is the file itself.
      JoinSplit(files[i].path);
      var path := Join(parts);
      DirectoriesStep(files, i);
      if Refused(listed, folded, path, false) {
        RefusedCollides(files, i, folded, listed, Directories(files[..i + 1]), path, false);
        return Err(PathCollision);
      }
      TableStep(listed, folded, Directories(files[..i + 1]), Leaves(files[..i]), path, false);
      entries := Listed(listed, folded, path, false);
      LeavesStep(files, i);
    }
    assert files[..|files|] == files;
    TableSeparates(entries, folded, Directories(files), Leaves(files));
    return Ok(());
  }

  lemma DirectoriesStep(files: seq<FileEntry>, i: nat)
    requires i < |files|
    ensures Directories(files[..i + 1]) == Directories(files[..i]) + Ancestors(files[i].path)
    ensures Directories(files[..i + 1]) <= Directories(files)
  {
    assert files[..i + 1] == files[..i] + [files[i]];
  }

  lemma LeavesStep(files: seq<FileEntry>, i: nat)
    requires i < |files| && DistinctPaths(files[..i]) && files[i].path !in Leaves(files[..i])
    ensures Leaves(files[..i + 1]) == Leaves(files[..i]) + {files[i].path}
    ensures DistinctPaths(files[..i + 1])
  {
    var s := files[..i];
    assert files[..i + 1] == s + [files[i]];
    assert forall j :: 0 <= j < i ==> s[j] in s && s[j].path in Leaves(s);
  }

  lemma AliasFreeOrder(files: seq<FileEntry>, again: seq<FileEntry>, folded: bytes -> bytes)
    requires multiset(files) == multiset(again) && AliasFree(files, folded)
    ensures AliasFree(again, folded)
  {
    SameElements(files, again);
    DistinctOrder(files, again);
    assert Leaves(files) == Leaves(again) && Directories(files) == Directories(again);
  }

  /** The verdict does not depend on the order in which files are listed. */
  lemma AliasOrder(files: seq<FileEntry>, again: seq<FileEntry>, folded: bytes -> bytes)
    requires multiset(files) == multiset(again)
    ensures AliasFree(files, folded) <==> AliasFree(again, folded)
  {
    if AliasFree(files, folded) {
      AliasFreeOrder(files, again, folded);
    }
    if AliasFree(again, folded) {
      AliasFreeOrder(again, files, folded);
    }
  }

  lemma SameElements<T>(a: seq<T>, b: seq<T>)
    requires multiset(a) == multiset(b)
    ensures forall x :: x in a <==> x in b
  {
    assert forall x :: x in a <==> x in multiset(a);
    assert forall x :: x in b <==> x in multiset(b);
  }

  lemma DistinctOrder(files: seq<FileEntry>, again: seq<FileEntry>)
    requires multiset(files) == multiset(again) && DistinctPaths(files)
    ensures DistinctPaths(again)
  {
    SameElements(files, again);
    forall i, j | 0 <= i < j < |again|
      ensures again[i].path != again[j].path
    {
      if again[i].path == again[j].path {
        assert again[i] in again && again[j] in again;
        assert again[i] == again[j];
        TwiceIn(again, i, j);
        OnceIn(files, again[i]);
      }
    }
  }

  lemma TwiceIn<T>(s: seq<T>, i: nat, j: nat)
    requires i < j < |s| && s[i] == s[j]
    ensures multiset(s)[s[i]] >= 2
  {
    assert s == s[..j] + [s[j]] + s[j + 1..];
    assert s[i] in s[..j];
  }

  lemma {:induction false} OnceIn(files: seq<FileEntry>, f: FileEntry)
    requires DistinctPaths(files)
    ensures multiset(files)[f] <= 1
  {
    if files != [] {
      var init, last := files[..|files| - 1], files[|files| - 1];
      assert files == init + [last];
      OnceIn(init, f);
      assert last !in init;
    }
  }
}
