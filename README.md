# ramfs: a verified model of an in-memory filesystem

This project models `RamFileSystem`, the in-memory filesystem of `main.go`.
Its state is a path index (`directories`), a map from path strings to
`Directory` nodes. Those nodes form a tree: each `Directory` holds an ordered
list of child `File`s and an ordered list of child `Directory`s, and every
node has its own `Read` and `Write` flags. The model covers these operations:

- `NewRamFS`: builds the root and reads the `OptionReadOnly` and
  `OptionDisalowRead` options.
- `WriteFile` and `Mkdir`: create or replace a child. Both check permissions,
  rebuild the parent's child list in a local sequence and swap it in at the
  end.
- `FileGetContents`: checks permissions and scans the parent's files.
- `Ls` and `getDir`: look a path up in the index.
- `getParent`: computes the index key of a path's parent.

The model has three modules:

- `Paths` holds the pure string side. `Split` and `Join` are Go's
  `strings.Split` and `strings.Join` on "/". It also has `GetParent` and the
  index key `Mkdir` registers, with their round-trip lemmas.
- `RamFs` holds the heap side. `File`, `Directory` and `RamFileSystem` are
  classes, because the index and a parent's child list alias the same
  `Directory` object, and `Ls` hands out the live nodes. A caller can change
  those nodes' flags, and that is the only way a child ever gets
  `Write == false`. The mutating operations are methods with `modifies`
  clauses. Their `ensures` give the outcome for every case, the parent's new
  child list, which index keys change, and that a failed call changes
  nothing. The scans are loops proved against the filter functions
  `OtherFiles`/`OtherDirs` and the search function `FindFile`.
- `Scenarios` holds clients. They chain operations and show what the
  contracts let a caller conclude: write-then-read returns the written bytes,
  create-then-list shows the new directory, and the source's quirks (listed
  below) really happen.

`cleanPath` is not defined here. Each `RamFileSystem` receives it as the
constant `clean` (type `Cleaner`). Every operation that cleans a path
requires that `clean` gives a non-empty result for it, which Go's
`filepath.Clean` always does, so dropping the first character is defined.
Clock readings are a `now` parameter.

These quirks of the source are kept on purpose:

- `Mkdir` compares the raw path with "/" and "" but indexes the cleaned path.
  Any other raw path whose cleaned form is one character long gets past the
  guard: "//" (cleaned to "/"), "./" (cleaned to ".") or a one-letter relative
  path such as "a".
  Dropping its first character leaves "", so `Mkdir` creates a directory named
  "" under the root and overwrites the index key "/" (`Mkdir`'s last ensures,
  `Paths.SingleEmptySegmentIff`, `Scenarios.DoubleSlashOverwritesRootKey` and
  `Scenarios.OneLetterOverwritesRoot`).
- `Mkdir` over an existing directory leaves the index entries of the old
  directory's descendants in place (`Scenarios.ReplaceLeavesStaleEntry`).
- `Ls` looks up its raw argument without cleaning it (`Scenarios.LsDoesNotClean`).
- `[1:]` drops the first byte of the cleaned path whatever it is. So a
  relative path loses its first letter (`Paths.MkdirKeyOfCleanPath`). The
  model drops the first character, which is the same thing when that
  character is ASCII (see "Left out").

Three points where the behaviour of the code is easy to misread:

- There is no `Rm` in `main.go`, so no removal is modelled.
- A permission failure met during the rebuild scan leaves the parent's lists,
  its `Modified` stamp and the index exactly as they were. The rebuilt list is
  local until the final assignment, so the failure is atomic, not partial.
- `Mkdir("/")` returns `ErrorsNoParentDirectory`, not `ErrorsCanNotReCreateRoot`.

## Model

| member | source | states |
|---|---|---|
| `Paths.Split` | main.go:116 | `strings.Split` on "/" gives at least one piece, and no piece contains "/" |
| `Paths.JoinSplit` | main.go:230 | joining the pieces of a split with "/" restores the string |
| `Paths.SplitJoin` | main.go:193 | splitting a join of "/"-free segments gives the segments back |
| `Paths.Join` | main.go:230 | `strings.Join` on "/": the first piece is a prefix of the result, and n pieces give at least n - 1 characters (the separators) |
| `Paths.GetParent` | main.go:254-265 | the parent key is always rooted, and for two or more segments the parent key followed by "/" and the last segment is the node's own index key |
| `Paths.ChildParentIsIndexKey` | main.go:254-265 | the parent key of `dirPath + [leaf]` is the index key `Mkdir` registered for `dirPath`, including "/" for a child of the root |
| `Paths.ParentKeyRoundTrip` | main.go:264 | for two or more "/"-free segments, re-splitting the parent key without its leading "/" gives all segments but the last |
| `Paths.MkdirKeyOfCleanPath` | main.go:193-230 | the key `Mkdir` registers (`IndexKey`, main.go:230) is "/" plus the cleaned path minus its first character: the cleaned path itself when it is rooted, a path with its first letter lost otherwise |
| `Paths.IndexKeyIsParentKeyIff` | main.go:187-230 | a new directory's index key equals its parent key exactly when the segments are [""], i.e. the cleaned path is one character long |
| `Paths.SingleEmptySegmentIff` | main.go:193 | a cleaned path minus its first character splits into [""] exactly when the cleaned path is one character long ("/", "." or a one-letter relative path) |
| `RamFs.RootPermissions` | main.go:53-66 | write is true iff no `OptionReadOnly` is given; read is true iff every `OptionDisalowRead` is followed later by an `OptionReadOnly`; other values are ignored |
| `RamFs.RamFileSystem.constructor` | main.go:44-79 | the index has exactly the key "/", bound to a fresh, empty root named "/" whose flags are those the options give |
| `RamFs.FindFile` | main.go:170-171 | finds the first file named `leaf`; `None` means no file has that name |
| `RamFs.RebuildFiles` | main.go:138-147 | the scan succeeds iff every file named `leaf` is writable, and then keeps exactly the other files, in order |
| `RamFs.RebuildDirs` | main.go:214-223 | the scan succeeds iff every subdirectory named `leaf` is writable, and then keeps exactly the other subdirectories, in order |
| `RamFs.OtherFilesMembers` | main.go:139-142 | the rebuilt file list holds exactly the old files whose name differs from the leaf |
| `RamFs.OtherDirsMembers` | main.go:215-218 | the rebuilt subdirectory list holds exactly the old subdirectories whose name differs from the leaf |
| `RamFs.OtherFilesNames` | main.go:138-147 | the names of the kept files are the old names with the leaf removed, in the same order |
| `RamFs.OtherDirsNames` | main.go:214-223 | the names of the kept subdirectories are the old names with the leaf removed, in the same order |
| `RamFs.FilesAfterReplace` | main.go:138-151 | after the swap exactly one file has the leaf name, other names keep their counts, and distinct names stay distinct |
| `RamFs.DirsAfterReplace` | main.go:214-227 | after the swap exactly one subdirectory has the leaf name, other names keep their counts, and distinct names stay distinct |
| `RamFs.ReadAfterReplace` | main.go:149-177 | in the rebuilt file list, the first file with the written name is the new one |
| `RamFs.RamFileSystem.NodePath` | main.go:116 | a cleaned path minus its first character splits into at least one segment |
| `RamFs.RamFileSystem.WriteFile` | main.go:114-156 | `NoParentDirectory` if the parent key is not indexed; `NoWritePermission` if the parent, or any same-named file, is not writable, with nothing changed; otherwise the parent's files become the others in order plus one fresh readable, writable file holding `content`, its `Modified` is set, and the index and every other node are unchanged |
| `RamFs.RamFileSystem.FileGetContents` | main.go:158-183 | `NoParentDirectory` if the parent key is not indexed, else `NoReadPermission` if the parent is unreadable, else the first same-named file's content, or `NoReadPermission` if that file is unreadable, or `FileNotFound` if none matches |
| `RamFs.RamFileSystem.Mkdir` | main.go:185-233 | raw "/" or "" and an unindexed parent key give `NoParentDirectory`; a non-writable parent or same-named subdirectory gives `NoWritePermission`; on failure nothing changes; on success the parent's subdirectories become the others in order plus one fresh empty readable, writable directory, its `Modified` is set, only the key "/" + cleaned path minus its first character is (re)bound, and `Ls` of the parent key lists the new directory last unless the cleaned path is one character long (then the new directory is registered over key "/") |
| `RamFs.RamFileSystem.GetDir` | main.go:244-252 | fails with `DirectoryNotFound` exactly when the raw path is not an index key, else gives the indexed directory |
| `RamFs.RamFileSystem.Ls` | main.go:235-242 | fails with `DirectoryNotFound` exactly when the raw path is not an index key, else gives that directory's live file and subdirectory lists |
| `Scenarios.WriteThenRead` | main.go:149-177 | after a successful `WriteFile`, `FileGetContents` of the same path returns the written content when the parent is readable, and `NoReadPermission` otherwise |
| `Scenarios.CreateListWriteRead` | main.go:185-242 | `Mkdir("/a")`, `Mkdir("/a/b")`, then `Ls("/a")` lists exactly "b"; writing "hi" to "/a/readme.txt" reads back "hi" |
| `Scenarios.ReadOnlyRefusesMkdir` | main.go:58-61 | with `OptionReadOnly`, `Mkdir("/x")` fails with `NoWritePermission` |
| `Scenarios.DoubleSlashOverwritesRootKey` | main.go:187-230 | `Mkdir("//")` succeeds, the root's children are exactly [""], and index key "/" now holds that new child |
| `Scenarios.OneLetterOverwritesRoot` | main.go:187-230 | `Mkdir("a")` with "a" cleaning to itself succeeds, the root's children are exactly [""], and index key "/" now holds that new child |
| `Scenarios.ReplaceLeavesStaleEntry` | main.go:230 | after re-creating "/a", the new "/a" has no files and no subdirectories, but `Ls("/a/b")` still succeeds and key "/a/b" still holds the old "b" |
| `Scenarios.LockedChildRefusesReplace` | main.go:219-221 | once a caller clears the write flag of "/a", `Mkdir("/a")` fails with `NoWritePermission` and the root keeps its one child |
| `Scenarios.LsDoesNotClean` | main.go:246 | `Ls("/a/")` fails with `DirectoryNotFound` while `Ls("/a")` on the same state succeeds |
| `Scenarios.OptionOrder` | main.go:56-66 | read-only after disallow-read gives read true and write false; the reverse order gives both false |

## Left out

- `Rm` and any removal: `main.go` has none.
- `cleanPath` internals: `filepath.Clean` and the backslash replacement are a
  foreign library. The model takes `cleanPath` as an injected function and
  assumes of it only that its results are non-empty.
- Timestamps: `time.Now().UnixNano()` is a `now` parameter. One call reads one
  value, whereas the source reads the clock separately for `Created`,
  `Modified` and the parent's `Modified`. The contracts only say that these
  fields are set to the reading.
- `int64` width of the timestamps: they are unbounded integers, because no
  arithmetic is done on them.
- Error message strings: errors are the enumeration `FsError`.
  `DataSourceNotSupported`, `FileSystemReadOnly` and `CanNotReCreateRoot`
  exist but nothing returns them.
- Slice aliasing: `Content` and the slices `Ls` returns are Go slices that
  share storage with the caller. Here they are sequence values. What the model
  does keep is the aliasing of the `File` and `Directory` objects themselves.
- `nil` entries in child slices: a Go caller could put `nil` into a returned
  slice and make a later scan panic. The model's lists hold non-null
  references only.
- Byte strings: Go strings are byte sequences and `cleanPath(path)[1:]`
  drops one byte, while the model's strings are sequences of Unicode
  characters and `[1..]` drops one character. The two agree when the first
  character of the cleaned path is ASCII (every rooted path starts with "/").
  A relative path starting with a multi-byte character resolves differently:
  Go keeps the trailing bytes of that character as a first segment, the model
  drops the whole character.
- Concurrency: the source has none and is not safe for concurrent use.
