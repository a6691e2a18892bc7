/** Clients of the filesystem that string operations together: what a caller
    can conclude from the contracts of `RamFs` alone. */
module Scenarios {
  import opened Paths
  import opened RamFs

  /** A successful `WriteFile` followed by `FileGetContents` of the same path
      returns the written content when the parent is readable, and otherwise
      the parent's read refusal. */
  method WriteThenRead(fs: RamFileSystem, path: string, content: Bytes, now: int)
      returns (written: Status, got: Result<Bytes>)
    requires fs.clean(path) != []
    modifies fs.ParentOf(path)
    ensures written.Ok? ==> fs.ParentKey(path) in fs.directories
    ensures written.Ok? && fs.directories[fs.ParentKey(path)].read ==> got == Success(content)
    ensures written.Ok? && !fs.directories[fs.ParentKey(path)].read ==> got == Failure(NoReadPermission)
  {
    written := fs.WriteFile(path, content, now);
    got := fs.FileGetContents(path);
    if written.Ok? {
      var parent := fs.directories[fs.ParentKey(path)];
      ReadAfterReplace(old(parent.files), parent.files[|parent.files| - 1]);
    }
  }

  /** Creating "/a", then "/a/b", lists exactly "b" under "/a"; a file
      written under "/a" reads back. */
  method CreateListWriteRead(clean: Cleaner, now: int)
      returns (listed: seq<string>, got: Result<Bytes>)
    requires clean("/a") == "/a" && clean("/a/b") == "/a/b"
    requires clean("/a/readme.txt") == "/a/readme.txt"
    ensures listed == ["b"]
    ensures got == Success([104, 105])
  {
    var fs := new RamFileSystem([], clean, now);
    var a := MkdirUnderRoot(fs, "/a", "a", now);
    assert "/a" + "/" + "b" == "/a/b";
    var b := MkdirUnderEmpty(fs, a, "/a", "a", "b", now);
    assert fs.directories["/a"] == a && a.directories == [b];
    listed := DirNames(fs.Ls("/a").value.1);
    TwoSegments("/a/readme.txt", "a", "readme.txt");
    assert fs.ParentKey("/a/readme.txt") == "/a";
    assert a.read && a.write && a.files == [];
    var w := fs.WriteFile("/a/readme.txt", [104, 105], now);
    assert w == Ok;
    assert |a.files| == 1 && a.files[0].content == [104, 105] && a.files[0].read;
    got := fs.FileGetContents("/a/readme.txt");
  }

  /** A filesystem built with `OptionReadOnly` refuses `Mkdir("/x")`. */
  method ReadOnlyRefusesMkdir(clean: Cleaner, now: int) returns (status: Status)
    requires clean("/x") == "/x"
    ensures status == Err(NoWritePermission)
  {
    var options := [OptionReadOnly];
    var fs := new RamFileSystem(options, clean, now);
    assert options[0] == OptionReadOnly;
    OneSegment("/x", "x");
    status := fs.Mkdir("/x", now);
  }

  /** The raw-path guard of `Mkdir` lets "//" through: it cleans to "/", so a
      directory named "" is created under the root and then registered over
      the root's own index key "/". */
  method DoubleSlashOverwritesRootKey(clean: Cleaner, now: int)
      returns (status: Status, rootKeyName: string, rootChildren: seq<string>, rootKeyIsChild: bool)
    requires clean("//") == "/"
    ensures status == Ok
    ensures rootKeyName == ""
    ensures rootChildren == [""]
    ensures rootKeyIsChild
  {
    var fs := new RamFileSystem([], clean, now);
    var root := fs.directories["/"];
    status := fs.Mkdir("//", now);
    rootKeyName := fs.directories["/"].name;
    rootChildren := DirNames(root.directories);
    rootKeyIsChild := fs.directories["/"] == root.directories[0];
  }

  /** The same happens for any cleaned path one character long: a one-letter
      relative path "a" passes the guard, loses its only letter to `[1:]`,
      and the directory named "" it creates is registered over key "/". */
  method OneLetterOverwritesRoot(clean: Cleaner, now: int)
      returns (status: Status, rootKeyName: string, rootChildren: seq<string>, rootKeyIsChild: bool)
    requires clean("a") == "a"
    ensures status == Ok
    ensures rootKeyName == ""
    ensures rootChildren == [""]
    ensures rootKeyIsChild
  {
    var fs := new RamFileSystem([], clean, now);
    var root := fs.directories["/"];
    SingleEmptySegmentIff("a");
    status := fs.Mkdir("a", now);
    rootKeyName := fs.directories["/"].name;
    rootChildren := DirNames(root.directories);
    rootKeyIsChild := fs.directories["/"] == root.directories[0];
  }

  /** Replacing "/a" with `Mkdir` drops its subtree from the tree but leaves
      the index entry "/a/b" in place, pointing at the old "b". */
  method ReplaceLeavesStaleEntry(clean: Cleaner, now: int)
      returns (staleListed: bool, staleIsOld: bool, newChildren: nat)
    requires clean("/a") == "/a" && clean("/a/b") == "/a/b"
    ensures staleListed && staleIsOld
    ensures newChildren == 0
  {
    var fs := new RamFileSystem([], clean, now);
    var root := fs.directories["/"];
    var a := MkdirUnderRoot(fs, "/a", "a", now);
    assert "/a" + "/" + "b" == "/a/b";
    var b := MkdirUnderEmpty(fs, a, "/a", "a", "b", now);
    assert root != a && root.directories == [a] && a.write;
    OneSegment("/a", "a");
    assert fs.ParentKey("/a") == "/" && fs.Key("/a") == "/a";
    var s3 := fs.Mkdir("/a", now);
    assert s3 == Ok;
    staleListed := fs.Ls("/a/b").Success?;
    staleIsOld := fs.directories["/a/b"] == b;
    newChildren := |fs.directories["/a"].directories| + |fs.directories["/a"].files|;
  }

  /** A caller may clear the write flag of a directory reached through `Ls`;
      a later `Mkdir` of the same path is then refused and the parent's list
      is left as it was. */
  method LockedChildRefusesReplace(clean: Cleaner, now: int)
      returns (status: Status, children: nat)
    requires clean("/a") == "/a"
    ensures status == Err(NoWritePermission)
    ensures children == 1
  {
    var fs := new RamFileSystem([], clean, now);
    var a := MkdirUnderRoot(fs, "/a", "a", now);
    a.write := false;
    status := fs.Mkdir("/a", now);
    children := |fs.directories["/"].directories|;
  }

  /** `Ls` looks up its raw argument: "/a/" is not the key "/a". */
  method LsDoesNotClean(clean: Cleaner, now: int)
      returns (r: Result<(seq<File>, seq<Directory>)>, indexed: bool)
    requires clean("/a") == "/a"
    ensures r == Failure(DirectoryNotFound)
    ensures indexed
  {
    var fs := new RamFileSystem([], clean, now);
    var a := MkdirUnderRoot(fs, "/a", "a", now);
    r := fs.Ls("/a/");
    indexed := fs.Ls("/a").Success?;
  }

  /** Later options override earlier ones: read-only after disallow-read
      restores read, the other order leaves the root unreadable. */
  method OptionOrder() returns (read1: bool, write1: bool, read2: bool, write2: bool)
    ensures read1 && !write1
    ensures !read2 && !write2
  {
    var first := [OptionDisalowRead, OptionReadOnly];
    read1, write1 := RootPermissions(first);
    assert first[1] == OptionReadOnly;
    var second := [OptionReadOnly, OptionDisalowRead];
    read2, write2 := RootPermissions(second);
    assert second[0] == OptionReadOnly && second[1] == OptionDisalowRead;
  }

  /** `Mkdir` of a one-segment path on a fresh filesystem with a writable root. */
  method MkdirUnderRoot(fs: RamFileSystem, path: string, a: string, now: int) returns (dir: Directory)
    requires Sep !in a && a != "" && path == "/" + a && fs.clean(path) == path
    requires fs.directories.Keys == {"/"} && fs.directories["/"].write
    requires fs.directories["/"].directories == []
    modifies fs, fs.directories["/"]
    ensures fs.directories.Keys == {"/", path} && fs.directories[path] == dir
    ensures fs.directories["/"] == old(fs.directories["/"])
    ensures fs.directories["/"].write && fs.directories["/"].read == old(fs.directories["/"].read)
    ensures fresh(dir) && dir.name == a && dir.write && dir.read
    ensures dir.directories == [] && dir.files == []
    ensures fs.directories["/"].directories == [dir]
  {
    OneSegment(path, a);
    assert fs.ParentKey(path) == "/" && fs.Key(path) == path;
    var status := fs.Mkdir(path, now);
    assert status == Ok;
    dir := fs.directories[path];
  }

  /** `Mkdir` of a two-segment path whose parent was just created empty. */
  method MkdirUnderEmpty(fs: RamFileSystem, parent: Directory, parentPath: string, a: string, b: string, now: int)
      returns (dir: Directory)
    requires Sep !in a && Sep !in b && parentPath == "/" + a
    requires fs.clean(parentPath + "/" + b) == parentPath + "/" + b
    requires parentPath in fs.directories && fs.directories[parentPath] == parent
    requires parent.write && parent.directories == []
    modifies fs, parent
    ensures fs.directories == old(fs.directories)[parentPath + "/" + b := dir]
    ensures fresh(dir) && dir.name == b
    ensures parent.directories == [dir] && parent.files == old(parent.files)
    ensures parent.read == old(parent.read) && parent.write == old(parent.write)
  {
    var path := parentPath + "/" + b;
    TwoSegments(path, a, b);
    assert fs.ParentKey(path) == parentPath && fs.Key(path) == path;
    var status := fs.Mkdir(path, now);
    assert status == Ok;
    dir := fs.directories[path];
  }

  /** The segments of a rooted one-segment path. */
  lemma OneSegment(path: string, a: string)
    requires Sep !in a && path == "/" + a
    ensures path[1..] == a && Split(path[1..]) == [a]
  {
    SplitSegment(a);
  }

  /** The segments of a rooted two-segment path. */
  lemma TwoSegments(path: string, a: string, b: string)
    requires Sep !in a && Sep !in b && path == "/" + a + "/" + b
    ensures path[1..] == a + "/" + b && Split(path[1..]) == [a, b]
    ensures GetParent([a, b]) == "/" + a && IndexKey([a, b]) == path
  {
    assert [a, b][1..] == [b];
    assert [a, b][..1] == [a];
    SplitJoin([a, b]);
  }
}
