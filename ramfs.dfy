/** The in-memory filesystem `RamFileSystem` of main.go: a path-to-directory
    index over a tree of `Directory` and `File` nodes, each carrying its own
    read and write flags. */
module RamFs {
  import opened Paths

  /** The error values main.go declares. `DataSourceNotSupported`,
      `FileSystemReadOnly` and `CanNotReCreateRoot` are declared but no
      operation returns them. */
  datatype FsError =
    | DataSourceNotSupported
    | DirectoryNotFound
    | FileNotFound
    | FileSystemReadOnly
    | CanNotReCreateRoot
    | NoParentDirectory
    | NoWritePermission
    | NoReadPermission

  /** What an operation returning only Go's `error` gives back: nil or an error. */
  datatype Status = Ok | Err(error: FsError)

  /** What an operation returning a value and an `error` gives back. */
  datatype Result<T> = Success(value: T) | Failure(error: FsError)

  datatype Option<T> = None | Some(value: T)

  newtype byte = b: int | 0 <= b < 256

  type Bytes = seq<byte>

  /** Go's `type Option int`: any integer; the constructor acts on two values
      and ignores the others. */
  type FsOption = int

  const OptionReadOnly: FsOption := 0
  const OptionDisalowRead: FsOption := 1

  /** `cleanPath`, which the filesystem receives rather than defines: it stands
      for `filepath.Clean` followed by turning backslashes into slashes. The one
      property the operations rely on, that it never yields "" (Clean gives "."
      for the empty path) so that dropping the first character is defined, is
      required of it at each call. */
  type Cleaner = string -> string

  class File {
    var name: string
    var content: Bytes
    var read: bool
    var write: bool
    var created: int
    var modified: int

    /** A file as `WriteFile` builds it: readable, writable, stamped `now`. */
    constructor (name: string, content: Bytes, now: int)
      ensures this.name == name && this.content == content
      ensures read && write
      ensures created == now && modified == now
    {
      this.name := name;
      this.content := content;
      read := true;
      write := true;
      created := now;
      modified := now;
    }
  }

  class Directory {
    var name: string
    var directories: seq<Directory>
    var files: seq<File>
    var read: bool
    var write: bool
    var created: int
    var modified: int

    /** An empty directory with the given flags, stamped `now`. */
    constructor (name: string, read: bool, write: bool, now: int)
      ensures this.name == name && this.read == read && this.write == write
      ensures directories == [] && files == []
      ensures created == now && modified == now
    {
      this.name := name;
      this.read := read;
      this.write := write;
      directories := [];
      files := [];
      created := now;
      modified := now;
    }
  }

  /** The names of a list of files, in order. */
  function FileNames(files: seq<File>): (names: seq<string>)
    reads files
    ensures |names| == |files|
    ensures forall i :: 0 <= i < |files| ==> names[i] == files[i].name
  {
    if files == [] then [] else [files[0].name] + FileNames(files[1..])
  }

  /** The names of a list of directories, in order. */
  function DirNames(dirs: seq<Directory>): (names: seq<string>)
    reads dirs
    ensures |names| == |dirs|
    ensures forall i :: 0 <= i < |dirs| ==> names[i] == dirs[i].name
  {
    if dirs == [] then [] else [dirs[0].name] + DirNames(dirs[1..])
  }

  /** The names of `names` other than `leaf`, in their original order. */
  function Without(names: seq<string>, leaf: string): (r: seq<string>)
    ensures forall x :: x in r <==> x in names && x != leaf
    ensures forall x :: x != leaf ==> multiset(r)[x] == multiset(names)[x]
    ensures multiset(r)[leaf] == 0
  {
    if names == [] then []
    else
      assert names == [names[0]] + names[1..];
      if names[0] != leaf then [names[0]] + Without(names[1..], leaf)
      else Without(names[1..], leaf)
  }

  /** No name occurs twice. */
  predicate Distinct(names: seq<string>)
  {
    forall i, j :: 0 <= i < j < |names| ==> names[i] != names[j]
  }

  /** The files a rebuild keeps: those whose name is not `leaf`, in their
      original order. */
  function OtherFiles(files: seq<File>, leaf: string): (r: seq<File>)
    reads files
    ensures |r| <= |files|
    ensures forall i :: 0 <= i < |r| ==> r[i].name != leaf
  {
    if files == [] then []
    else if files[0].name != leaf then [files[0]] + OtherFiles(files[1..], leaf)
    else OtherFiles(files[1..], leaf)
  }

  /** The subdirectories a rebuild keeps: those whose name is not `leaf`, in
      their original order. */
  function OtherDirs(dirs: seq<Directory>, leaf: string): (r: seq<Directory>)
    reads dirs
    ensures |r| <= |dirs|
    ensures forall i :: 0 <= i < |r| ==> r[i].name != leaf
  {
    if dirs == [] then []
    else if dirs[0].name != leaf then [dirs[0]] + OtherDirs(dirs[1..], leaf)
    else OtherDirs(dirs[1..], leaf)
  }

  /** A rebuild keeps exactly the files not named `leaf`. */
  lemma {:induction false} OtherFilesMembers(files: seq<File>, leaf: string)
    ensures forall f :: f in OtherFiles(files, leaf) <==> f in files && f.name != leaf
  {
    if files != [] {
      OtherFilesMembers(files[1..], leaf);
      assert files == [files[0]] + files[1..];
    }
  }

  /** A rebuild keeps exactly the subdirectories not named `leaf`. */
  lemma {:induction false} OtherDirsMembers(dirs: seq<Directory>, leaf: string)
    ensures forall d :: d in OtherDirs(dirs, leaf) <==> d in dirs && d.name != leaf
  {
    if dirs != [] {
      OtherDirsMembers(dirs[1..], leaf);
      assert dirs == [dirs[0]] + dirs[1..];
    }
  }

  /** The names of the files a rebuild keeps are the old names without `leaf`,
      in the same order. */
  lemma {:induction false} OtherFilesNames(files: seq<File>, leaf: string)
    ensures FileNames(OtherFiles(files, leaf)) == Without(FileNames(files), leaf)
  {
    if files != [] {
      OtherFilesNames(files[1..], leaf);
      assert FileNames(files)[1..] == FileNames(files[1..]);
      if files[0].name != leaf {
        var rest := OtherFiles(files[1..], leaf);
        assert FileNames([files[0]] + rest) == [files[0].name] + FileNames(rest);
      }
    }
  }

  /** The names of the subdirectories a rebuild keeps are the old names
      without `leaf`, in the same order. */
  lemma {:induction false} OtherDirsNames(dirs: seq<Directory>, leaf: string)
    ensures DirNames(OtherDirs(dirs, leaf)) == Without(DirNames(dirs), leaf)
  {
    if dirs != [] {
      OtherDirsNames(dirs[1..], leaf);
      assert DirNames(dirs)[1..] == DirNames(dirs[1..]);
      if dirs[0].name != leaf {
        var rest := OtherDirs(dirs[1..], leaf);
        assert DirNames([dirs[0]] + rest) == [dirs[0].name] + DirNames(rest);
      }
    }
  }

  /** Every file named `leaf` may be overwritten. */
  predicate FilesReplaceable(files: seq<File>, leaf: string)
    reads files
  {
    forall i :: 0 <= i < |files| && files[i].name == leaf ==> files[i].write
  }

  /** Every subdirectory named `leaf` may be replaced. */
  predicate DirsReplaceable(dirs: seq<Directory>, leaf: string)
    reads dirs
  {
    forall i :: 0 <= i < |dirs| && dirs[i].name == leaf ==> dirs[i].write
  }

  /** The position of the first file named `leaf`, if any. */
  function FindFile(files: seq<File>, leaf: string): (r: Option<nat>)
    reads files
    ensures r.None? ==> forall i :: 0 <= i < |files| ==> files[i].name != leaf
    ensures r.Some? ==> r.value < |files| && files[r.value].name == leaf
    ensures r.Some? ==> forall j :: 0 <= j < r.value ==> files[j].name != leaf
  {
    if files == [] then None
    else if files[0].name == leaf then Some(0)
    else match FindFile(files[1..], leaf)
      case None => None
      case Some(i) => Some(i + 1)
  }

  /** The scan `WriteFile` runs over a parent's files: keep every file not
      named `leaf`, in order, and stop as soon as a file named `leaf` is not
      writable. */
  method RebuildFiles(files: seq<File>, leaf: string) returns (kept: seq<File>, allowed: bool)
    ensures allowed <==> FilesReplaceable(files, leaf)
    ensures allowed ==> kept == OtherFiles(files, leaf)
  {
    kept := [];
    for i := 0 to |files|
      invariant kept == OtherFiles(files[..i], leaf)
      invariant FilesReplaceable(files[..i], leaf)
    {
      assert files[..i + 1] == files[..i] + [files[i]];
      OtherFilesAppend(files[..i], files[i], leaf);
      if leaf != files[i].name {
        kept := kept + [files[i]];
      } else if !files[i].write {
        return kept, false;
      }
    }
    assert files[..|files|] == files;
    return kept, true;
  }

  /** The scan `Mkdir` runs over a parent's subdirectories: keep every
      subdirectory not named `leaf`, in order, and stop as soon as one named
      `leaf` is not writable. */
  method RebuildDirs(dirs: seq<Directory>, leaf: string) returns (kept: seq<Directory>, allowed: bool)
    ensures allowed <==> DirsReplaceable(dirs, leaf)
    ensures allowed ==> kept == OtherDirs(dirs, leaf)
  {
    kept := [];
    for i := 0 to |dirs|
      invariant kept == OtherDirs(dirs[..i], leaf)
      invariant DirsReplaceable(dirs[..i], leaf)
    {
      assert dirs[..i + 1] == dirs[..i] + [dirs[i]];
      OtherDirsAppend(dirs[..i], dirs[i], leaf);
      if leaf != dirs[i].name {
        kept := kept + [dirs[i]];
      } else if !dirs[i].write {
        return kept, false;
      }
    }
    assert dirs[..|dirs|] == dirs;
    return kept, true;
  }

  /** The root is writable unless some option asks for a read-only filesystem. */
  predicate WriteGranted(options: seq<FsOption>)
  {
    forall i :: 0 <= i < |options| ==> options[i] != OptionReadOnly
  }

  /** The root is readable unless some `OptionDisalowRead` is not followed by
      a later `OptionReadOnly`, which sets read back to true. */
  predicate ReadGranted(options: seq<FsOption>)
  {
    forall i :: 0 <= i < |options| && options[i] == OptionDisalowRead ==>
      exists j :: i < j < |options| && options[j] == OptionReadOnly
  }

  /** The option loop of `NewRamFS`: read and write start true, each option
      overrides what earlier ones set. */
  method RootPermissions(options: seq<FsOption>) returns (read: bool, write: bool)
    ensures write <==> WriteGranted(options)
    ensures read <==> ReadGranted(options)
  {
    write := true;
    read := true;
    for k := 0 to |options|
      invariant write <==> WriteGranted(options[..k])
      invariant read <==> ReadGranted(options[..k])
    {
      assert options[..k + 1] == options[..k] + [options[k]];
      if options[k] == OptionReadOnly {
        write := false;
        read := true;
        assert options[..k + 1][k] == OptionReadOnly;
      } else if options[k] == OptionDisalowRead {
        read := false;
        assert options[..k + 1][k] == OptionDisalowRead;
      }
    }
    assert options[..|options|] == options;
  }

  /** Replacing the `leaf` entries of a name list by one new `leaf` leaves
      exactly one `leaf` and every other name as often as before. */
  lemma ReplaceLeavesOne(names: seq<string>, leaf: string)
    ensures multiset(Without(names, leaf) + [leaf])[leaf] == 1
    ensures forall x :: x != leaf ==> multiset(Without(names, leaf) + [leaf])[x] == multiset(names)[x]
  {
  }

  /** Dropping the `leaf` entries keeps distinct names distinct. */
  lemma {:induction false} WithoutKeepsDistinct(names: seq<string>, leaf: string)
    requires Distinct(names)
    ensures Distinct(Without(names, leaf))
  {
    if names != [] {
      WithoutKeepsDistinct(names[1..], leaf);
      if names[0] != leaf {
        assert names[0] !in names[1..];
        assert names[0] !in Without(names[1..], leaf);
      }
    }
  }

  /** A create-or-replace keeps the names of a parent's list distinct. */
  lemma ReplaceKeepsDistinct(names: seq<string>, leaf: string)
    requires Distinct(names)
    ensures Distinct(Without(names, leaf) + [leaf])
  {
    WithoutKeepsDistinct(names, leaf);
  }

  /** Appending a file appends its name to the list of names. */
  lemma {:induction false} FileNamesAppend(files: seq<File>, f: File)
    ensures FileNames(files + [f]) == FileNames(files) + [f.name]
  {
  }

  /** Appending a directory appends its name to the list of names. */
  lemma {:induction false} DirNamesAppend(dirs: seq<Directory>, d: Directory)
    ensures DirNames(dirs + [d]) == DirNames(dirs) + [d.name]
  {
  }

  /** After `WriteFile` rebuilt a parent's files, the first file with the
      written name is the new one, at the end of the list. */
  lemma ReadAfterReplace(files: seq<File>, f: File)
    ensures FindFile(OtherFiles(files, f.name) + [f], f.name) == Some(|OtherFiles(files, f.name)|)
  {
    var rest := OtherFiles(files, f.name);
    var s := rest + [f];
    assert s[|rest|] == f;
    assert forall j :: 0 <= j < |rest| ==> s[j] == rest[j];
  }

  /** After `WriteFile` rebuilt a parent's files, exactly one file carries
      the written name, every other name occurs as often as before, and names
      that were distinct stay distinct. */
  lemma FilesAfterReplace(files: seq<File>, f: File)
    ensures multiset(FileNames(OtherFiles(files, f.name) + [f]))[f.name] == 1
    ensures forall x :: x != f.name ==>
      multiset(FileNames(OtherFiles(files, f.name) + [f]))[x] == multiset(FileNames(files))[x]
    ensures Distinct(FileNames(files)) ==> Distinct(FileNames(OtherFiles(files, f.name) + [f]))
  {
    FileNamesAppend(OtherFiles(files, f.name), f);
    OtherFilesNames(files, f.name);
    ReplaceLeavesOne(FileNames(files), f.name);
    if Distinct(FileNames(files)) {
      ReplaceKeepsDistinct(FileNames(files), f.name);
    }
  }

  /** After `Mkdir` rebuilt a parent's subdirectories, exactly one carries
      the new name, every other name occurs as often as before, and names
      that were distinct stay distinct. */
  lemma DirsAfterReplace(dirs: seq<Directory>, d: Directory)
    ensures multiset(DirNames(OtherDirs(dirs, d.name) + [d]))[d.name] == 1
    ensures forall x :: x != d.name ==>
      multiset(DirNames(OtherDirs(dirs, d.name) + [d]))[x] == multiset(DirNames(dirs))[x]
    ensures Distinct(DirNames(dirs)) ==> Distinct(DirNames(OtherDirs(dirs, d.name) + [d]))
  {
    DirNamesAppend(OtherDirs(dirs, d.name), d);
    OtherDirsNames(dirs, d.name);
    ReplaceLeavesOne(DirNames(dirs), d.name);
    if Distinct(DirNames(dirs)) {
      ReplaceKeepsDistinct(DirNames(dirs), d.name);
    }
  }

  class RamFileSystem {
    /** The path index: every key maps to the directory registered there. */
    var directories: map<string, Directory>
    const clean: Cleaner

    /** `NewRamFS`: a root named "/" registered at "/", its flags set by the
        options. */
    constructor (options: seq<FsOption>, clean: Cleaner, now: int)
      ensures this.clean == clean
      ensures directories.Keys == {"/"}
      ensures fresh(directories["/"])
      ensures directories["/"].name == "/"
      ensures directories["/"].write <==> WriteGranted(options)
      ensures directories["/"].read <==> ReadGranted(options)
      ensures directories["/"].files == [] && directories["/"].directories == []
      ensures directories["/"].created == now && directories["/"].modified == now
    {
      var read, write := RootPermissions(options);
      var root := new Directory("/", read, write, now);
      this.clean := clean;
      directories := map["/" := root];
    }

    /** The segments of a path after cleaning and dropping its first character. */
    function NodePath(path: string): (parts: seq<string>)
      requires clean(path) != []
      ensures |parts| >= 1
    {
      Split(clean(path)[1..])
    }

    /** The index key of the directory that holds the node `path` names. */
    function ParentKey(path: string): string
      requires clean(path) != []
    {
      GetParent(NodePath(path))
    }

    /** The name of the node `path` names. */
    function Leaf(path: string): string
      requires clean(path) != []
    {
      Last(NodePath(path))
    }

    /** The index key `Mkdir` registers for `path`. */
    function Key(path: string): string
      requires clean(path) != []
    {
      IndexKey(NodePath(path))
    }

    /** The directory registered under the parent key of `path`, if any: the
        only node `WriteFile` and `Mkdir` may change. */
    function ParentOf(path: string): set<Directory>
      requires clean(path) != []
      reads this
    {
      if ParentKey(path) in directories then {directories[ParentKey(path)]} else {}
    }

    /** `WriteFile`: create or overwrite the file `path` with `content`. */
    method WriteFile(path: string, content: Bytes, now: int) returns (status: Status)
      requires clean(path) != []
      modifies ParentOf(path)
      ensures directories == old(directories)
      ensures ParentKey(path) !in directories ==> status == Err(NoParentDirectory)
      ensures ParentKey(path) in directories ==>
        var parent := directories[ParentKey(path)];
        && (!old(parent.write) ==> status == Err(NoWritePermission))
        && (old(parent.write) && !old(FilesReplaceable(parent.files, Leaf(path))) ==> status == Err(NoWritePermission))
        && (old(parent.write) && old(FilesReplaceable(parent.files, Leaf(path))) ==> status == Ok)
      ensures status.Err? ==> unchanged(old(ParentOf(path)))
      ensures status.Ok? ==>
        ParentKey(path) in directories &&
        var parent := directories[ParentKey(path)];
        && |parent.files| >= 1
        && var file := parent.files[|parent.files| - 1];
        && fresh(file)
        && file.name == Leaf(path) && file.content == content
        && file.read && file.write && file.created == now && file.modified == now
        && parent.files == old(OtherFiles(parent.files, Leaf(path))) + [file]
        && parent.modified == now
        && parent.name == old(parent.name) && parent.directories == old(parent.directories)
        && parent.read == old(parent.read) && parent.write == old(parent.write)
        && parent.created == old(parent.created)
    {
      var nodePath := NodePath(path);
      var key := GetParent(nodePath);
      if key !in directories {
        return Err(NoParentDirectory);
      }
      var parent := directories[key];
      if !parent.write {
        return Err(NoWritePermission);
      }
      var file := new File(Last(nodePath), content, now);
      var rebuilt, allowed := RebuildFiles(parent.files, file.name);
      if !allowed {
        return Err(NoWritePermission);
      }
      rebuilt := rebuilt + [file];
      parent.files := rebuilt;
      parent.modified := now;
      return Ok;
    }

    /** `FileGetContents`: the content of the file `path`, gated first by the
        parent's read flag and then by the file's own. */
    method FileGetContents(path: string) returns (r: Result<Bytes>)
      requires clean(path) != []
      ensures ParentKey(path) !in directories ==> r == Failure(NoParentDirectory)
      ensures ParentKey(path) in directories && !directories[ParentKey(path)].read ==>
        r == Failure(NoReadPermission)
      ensures ParentKey(path) in directories && directories[ParentKey(path)].read ==>
        var files := directories[ParentKey(path)].files;
        match FindFile(files, Leaf(path))
        case None => r == Failure(FileNotFound)
        case Some(i) =>
          r == if files[i].read then Success(files[i].content) else Failure(NoReadPermission)
    {
      var nodePath := NodePath(path);
      var key := GetParent(nodePath);
      if key !in directories {
        return Failure(NoParentDirectory);
      }
      var parent := directories[key];
      if !parent.read {
        return Failure(NoReadPermission);
      }
      var leaf := Last(nodePath);
      var files := parent.files;
      for i := 0 to |files|
        invariant forall j :: 0 <= j < i ==> files[j].name != leaf
      {
        if files[i].name == leaf {
          if !files[i].read {
            return Failure(NoReadPermission);
          }
          return Success(files[i].content);
        }
      }
      return Failure(FileNotFound);
    }

    /** `Mkdir`: create or replace the directory `path`, and register it in
        the index under the cleaned path. The guard compares the raw path. */
    method Mkdir(path: string, now: int) returns (status: Status)
      requires clean(path) != []
      modifies this, ParentOf(path)
      ensures path == "/" || path == "" ==> status == Err(NoParentDirectory)
      ensures path != "/" && path != "" && ParentKey(path) !in old(directories) ==>
        status == Err(NoParentDirectory)
      ensures path != "/" && path != "" && ParentKey(path) in old(directories) ==>
        var parent := old(directories[ParentKey(path)]);
        && (!old(parent.write) ==> status == Err(NoWritePermission))
        && (old(parent.write) && !old(DirsReplaceable(parent.directories, Leaf(path))) ==> status == Err(NoWritePermission))
        && (old(parent.write) && old(DirsReplaceable(parent.directories, Leaf(path))) ==> status == Ok)
      ensures status.Err? ==> directories == old(directories) && unchanged(old(ParentOf(path)))
      ensures status.Ok? ==>
        ParentKey(path) in old(directories) && Key(path) in directories &&
        var parent := old(directories[ParentKey(path)]);
        var dir := directories[Key(path)];
        && fresh(dir)
        && dir.name == Leaf(path) && dir.read && dir.write
        && dir.files == [] && dir.directories == []
        && dir.created == now && dir.modified == now
        && directories == old(directories)[Key(path) := dir]
        && parent.directories == old(OtherDirs(parent.directories, Leaf(path))) + [dir]
        && parent.modified == now
        && parent.name == old(parent.name) && parent.files == old(parent.files)
        && parent.read == old(parent.read) && parent.write == old(parent.write)
        && parent.created == old(parent.created)
      ensures status.Ok? && NodePath(path) != [""] ==>
        Ls(ParentKey(path)).Success? && var listed := Ls(ParentKey(path)).value.1;
        |listed| >= 1 && listed[|listed| - 1] == directories[Key(path)]
      ensures status.Ok? ==> Key(path) == "/" + clean(path)[1..]
      ensures status.Ok? && NodePath(path) == [""] ==>
        Key(path) == "/" && directories["/"].name == ""
    {
      if path == "/" {
        return Err(NoParentDirectory);
      } else if |path| == 0 {
        return Err(NoParentDirectory);
      }
      var nodePath := NodePath(path);
      var key := GetParent(nodePath);
      if key !in directories {
        return Err(NoParentDirectory);
      }
      var parent := directories[key];
      if !parent.write {
        return Err(NoWritePermission);
      }
      var dir := new Directory(Last(nodePath), true, true, now);
      var rebuilt, allowed := RebuildDirs(parent.directories, dir.name);
      if !allowed {
        return Err(NoWritePermission);
      }
      rebuilt := rebuilt + [dir];
      parent.directories := rebuilt;
      parent.modified := now;
      directories := directories[IndexKey(nodePath) := dir];
      IndexKeyIsParentKeyIff(nodePath);
      MkdirKeyOfCleanPath(clean(path));
      return Ok;
    }

    /** `getDir`: the directory registered under the raw `path`. */
    function GetDir(path: string): (r: Result<Directory>)
      reads this
      ensures r.Failure? <==> path !in directories
      ensures r.Failure? ==> r.error == DirectoryNotFound
      ensures r.Success? ==> r.value == directories[path]
    {
      if path in directories then Success(directories[path]) else Failure(DirectoryNotFound)
    }

    /** `Ls`: the live file and subdirectory lists of the directory registered
        under the raw, uncleaned `path`. */
    function Ls(path: string): (r: Result<(seq<File>, seq<Directory>)>)
      reads this, directories.Values
      ensures r.Failure? <==> path !in directories
      ensures r.Failure? ==> r.error == DirectoryNotFound
      ensures r.Success? ==>
        r.value.0 == directories[path].files && r.value.1 == directories[path].directories
    {
      match GetDir(path)
      case Failure(e) => Failure(e)
      case Success(dir) => Success((dir.files, dir.directories))
    }
  }

  /** Rebuilding one more file onto a prefix keeps it when its name differs. */
  lemma {:induction false} OtherFilesAppend(files: seq<File>, f: File, leaf: string)
    ensures OtherFiles(files + [f], leaf) == OtherFiles(files, leaf) + (if f.name != leaf then [f] else [])
  {
    if files != [] {
      assert (files + [f])[1..] == files[1..] + [f];
      OtherFilesAppend(files[1..], f, leaf);
    }
  }

  /** Rebuilding one more subdirectory onto a prefix keeps it when its name differs. */
  lemma {:induction false} OtherDirsAppend(dirs: seq<Directory>, d: Directory, leaf: string)
    ensures OtherDirs(dirs + [d], leaf) == OtherDirs(dirs, leaf) + (if d.name != leaf then [d] else [])
  {
    if dirs != [] {
      assert (dirs + [d])[1..] == dirs[1..] + [d];
      OtherDirsAppend(dirs[1..], d, leaf);
    }
  }
}
