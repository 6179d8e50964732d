# gitfuse in Dafny

gitfuse shows branches of a git repository as directories of a read-only
FUSE filesystem. When started, its `Tree` object reads every configured
checkout (a branch and the directory it appears under). It turns the
checkout's git tree into an in-memory snapshot: a blob becomes its raw bytes,
and a tree becomes a Python dict from entry name to child. After that, every
filesystem call is answered from this snapshot. `lookup` cuts the path into
its non-empty `/`-separated names and descends one dict level per name.
`readdir`, `getattr` and `read` then look at the node it reaches.

The project models that core:

- `paths.dfy` (module `Paths`) models `path.strip('/').split('/')`
  followed by dropping the empty pieces, using Python's own `split`, `lstrip`
  and `rstrip` semantics.
- `snapshot.dfy` (module `Snapshot`) holds the snapshot nodes. A Python dict
  is an association list that keeps insertion order. Assigning to a key the
  dict already holds replaces the value and keeps the key's place; a new key
  is appended (`Put`).
- `build.dfy` (module `Build`) takes git objects as an input datatype. It
  models `build_tree` (`BuildTree`) and the result of the checkout loop
  (`Mount`).
- `vfs.dfy` (module `Vfs`) defines the lookup descent (`Step`, `Walk`,
  `Resolve`) and what `readdir`, `getattr` and `read` compute from a node. It
  also proves that the snapshot agrees with the git objects it was built
  from.
- `tree.dfy` (module `GitFuse`) is the `Tree` class. Its `files` field is
  filled by the constructor's checkout loop. Its `Lookup` method is the loop
  of `lookup`, and `Readdir`, `Getattr` and `Read` call `Lookup` as the
  source does. Each method is proved equal to the function of the snapshot
  that specifies it.
- `scenario.dfy` (module `Scenario`) works through a small configuration. It
  has one checkout, `main`, holding a two-byte file `hello.txt`.

There are two kinds of error. `NoEntry` is the `FuseOSError(ENOENT)` raised
for a missing name. `WrongKind` covers the cases where the Python code uses
bytes as a dict or a dict as bytes: descending below a file, `readdir` of a
file and `read` of a directory. Descending below a file and reading a
directory raise a Python exception rather than a chosen errno. `readdir` of a
file does not raise; it returns the file's byte values after `.` and `..`
(see "## Left out"). No errno is claimed for any of them.

The clock and the effective user and group ids are read once, when the
`Tree` is created. In the model they are constructor parameters (`now`,
`uid`, `gid`).

## Model

| member | source | states |
|---|---|---|
| Paths.Split | gitfuse.py:72 | `split('/')` always gives at least one piece and no piece contains a slash |
| Paths.StripLeft | gitfuse.py:72 | `lstrip('/')` returns a suffix of the input; everything cut off is a slash and the result does not start with one |
| Paths.StripRight | gitfuse.py:72 | `rstrip('/')` returns a prefix of the input; everything cut off is a slash and the result does not end with one |
| Paths.Strip | gitfuse.py:72 | `strip('/')` is no longer than its input and neither starts nor ends with a slash; with StripLeftKeepsPieces and StripRightKeepsPieces it leaves the non-empty pieces unchanged |
| Paths.NonEmpty | gitfuse.py:72 | `[i for i in parts if i]` keeps exactly the non-empty pieces and is no longer than its input |
| Paths.Segments | gitfuse.py:72 | every name `lookup` descends through is non-empty and slash-free |
| Paths.SplitName | gitfuse.py:72 | a slash-free string splits into itself alone |
| Paths.SplitConcat | gitfuse.py:72 | splitting `a + "/" + b` gives the pieces of `a` followed by the pieces of `b` |
| Paths.JoinSplit | gitfuse.py:72 | joining the pieces of a split with slashes restores the string |
| Paths.SplitJoin | gitfuse.py:72 | splitting a join of slash-free pieces restores the pieces |
| Paths.NonEmptyConcat | gitfuse.py:72 | dropping empty pieces distributes over concatenation |
| Paths.StripLeftKeepsPieces | gitfuse.py:72 | stripping leading slashes does not change the non-empty pieces |
| Paths.StripRightKeepsPieces | gitfuse.py:72 | stripping trailing slashes does not change the non-empty pieces |
| Paths.SegmentsUnstripped | gitfuse.py:72 | the segments are the non-empty pieces of the unstripped path, so the `strip('/')` is redundant |
| Paths.SegmentsConcat | gitfuse.py:72 | the segments of `a + "/" + b` are those of `a` followed by those of `b` |
| Paths.SegmentsRoot | gitfuse.py:72 | `""` and `"/"` have no segments |
| Paths.SegmentsLeadingSlash | gitfuse.py:72 | a leading slash does not change the segments |
| Paths.SegmentsTrailingSlash | gitfuse.py:72 | a trailing slash does not change the segments |
| Paths.SegmentsDoubleSlash | gitfuse.py:72 | a doubled slash gives the same segments as a single one |
| Paths.SegmentsName | gitfuse.py:72 | a valid name is exactly one segment |
| Paths.SegmentsAppendName | gitfuse.py:72 | appending `"/" + n` for a valid name `n` appends exactly `n` to the segments |
| Snapshot.Get | gitfuse.py:75-77 | `d[k]` finds a value exactly when `k` is a key, and the value found is stored under `k`; the same lookup finds an entry of a git tree by name |
| Snapshot.Put | gitfuse.py:32-37 | `d[k] = v`, which both the checkout loop and the comprehension of `build_tree` perform; specified by PutKeys, PutGet, PutUnique and PutFrom |
| Snapshot.FirstOccurrences | gitfuse.py:32-37 | the key order of a dict after successive assignments: the same elements as the assigned keys, each once, and no more of them |
| Snapshot.FromPairs | gitfuse.py:32-37 | a dict built by successive assignments has as its keys the first occurrences of the assigned keys, in that order |
| Snapshot.PutKeys | gitfuse.py:32-37 | `d[k] = v` keeps the key order, and appends `k` only when it is new |
| Snapshot.PutGet | gitfuse.py:32-37 | after `d[k] = v`, `d[k]` is `v` and every other key keeps its value |
| Snapshot.PutUnique | gitfuse.py:32-37 | assignment keeps the keys unique |
| Snapshot.GetAt | gitfuse.py:75 | in a dict with unique keys, looking up an entry's key gives that entry's value |
| Snapshot.FirstOccurrencesDistinct | gitfuse.py:32-37 | keys without repeats stay in order and lose nothing |
| Snapshot.FromPairsLast | gitfuse.py:32-37 | the value a built dict holds under a key is the value of the last assignment to that key |
| Snapshot.FromPairsMissing | gitfuse.py:32-37 | a key that was never assigned is missing from the built dict |
| Snapshot.FromPairsDistinct | gitfuse.py:37 | assignments with distinct keys give back exactly those pairs, in order |
| Snapshot.FromPairsFrom | gitfuse.py:32-37 | every entry of a built dict is one of the assigned pairs |
| Snapshot.PutFrom | gitfuse.py:32-37 | every entry after `d[k] = v` was there before or is `(k, v)` |
| Build.BuildTree | gitfuse.py:34-37 | a blob becomes a file holding exactly its bytes; a tree becomes a directory whose keys are the tree's entry names in tree order, each once |
| Build.BuiltPairs | gitfuse.py:37 | the pairs the dict comprehension assigns carry the tree's entry names in tree order |
| Build.BuildWellFormed | gitfuse.py:34-37 | every directory `build_tree` produces, at every depth, has unique keys |
| Build.BuildSameOrder | gitfuse.py:37 | for a tree with distinct names, the built dict keeps every entry, in tree order, as many as the tree has |
| Build.BuildChild | gitfuse.py:37 | the child stored under an entry's name is that entry built, and a later entry with the same name wins |
| Build.BuildMissing | gitfuse.py:37 | a name the tree does not list is not in the built dict |
| Build.Mounted | gitfuse.py:27-32 | the assignments of the checkout loop are keyed by the configured directory names, in order |
| Build.Mount | gitfuse.py:25-32 | after the checkout loop, `files` has unique keys: exactly the configured directory names, in the order they first appear |
| Build.MountEmpty | gitfuse.py:25 | before the loop, `files` is empty |
| Build.MountStep | gitfuse.py:27-32 | one more checkout is one more `files[directory] = build_tree(tree)` |
| Build.MountLast | gitfuse.py:27-32 | the snapshot under a directory name is that of the last checkout with that name; a repeated `dir` overwrites the earlier one |
| Build.MountMissing | gitfuse.py:27-32 | a directory name that no checkout configures is not in `files` |
| Build.MountWellFormed | gitfuse.py:25-37 | `files` and every snapshot in it have unique keys at every depth |
| Vfs.Step | gitfuse.py:74-77 | one descent step succeeds exactly when the node is a directory that has the name, and then gives the child stored under it; it is the wrong kind exactly when the node is a file, and `ENOENT` otherwise |
| Vfs.Walk | gitfuse.py:73-77 | the loop of `lookup`, one Step per name; specified by WalkAppend, WalkOne and BuildWalk, and `GitFuse.Tree.Lookup` is proved against it |
| Vfs.Resolve | gitfuse.py:66-77 | `lookup(path)`: Walk over the Segments of the path; specified by ResolveRoot, ResolveIgnoresEmptySegments, LookupComposes and ResolveInMount |
| Vfs.Listing | gitfuse.py:40 | a directory lists `.` and `..` and then its keys in insertion order; its length is the child count plus 2, it names exactly the children, and without repeats; a file is the wrong kind |
| Vfs.Attributes | gitfuse.py:43-59 | owner and all three timestamps are the captured ones. A file has mode `S_IFREG` with permissions 0444, one link and its length as size. A directory has mode `S_IFDIR` with permissions 0555, the child count plus 2 links and size 4096. No other mode bits are set |
| Vfs.Slice | gitfuse.py:64 | `data[offset:offset + size]` has length `min(size, len - offset)`, or 0 when `offset >= len`, and holds the bytes from `offset` on |
| Vfs.ReadNode | gitfuse.py:63-64 | reading a file gives the slice of its bytes; reading a directory is the wrong kind |
| Vfs.ListAt | gitfuse.py:39-40 | `readdir(path)`: the Listing of the node Resolve reaches, or the lookup failure; specified by ReaddirRoot, ReaddirNamesOnce and SnapshotMirrorsSource |
| Vfs.AttrsAt | gitfuse.py:42-60 | `getattr(path)`: the Attributes of the node Resolve reaches, or the lookup failure; specified by SnapshotMirrorsSource |
| Vfs.ReadAt | gitfuse.py:62-64 | `read(path, size, offset)`: ReadNode of the node Resolve reaches, or the lookup failure; specified by SnapshotMirrorsSource |
| Vfs.WalkAppend | gitfuse.py:73-77 | descending through `a + b` is descending through `a` and then through `b`; a failure on the way is final |
| Vfs.WalkOne | gitfuse.py:73-77 | descending through one name is one step |
| Vfs.ResolveRoot | gitfuse.py:70-72 | `lookup("")` and `lookup("/")` return the root dict |
| Vfs.ResolveIgnoresEmptySegments | gitfuse.py:72 | `lookup` gives the same result for `p`, `/p` and `p/`, and for a doubled slash as for a single one |
| Vfs.LookupComposes | gitfuse.py:72-77 | `lookup(p + "/" + n)` is one step from `lookup(p)`: the child `n` when the directory has it, `ENOENT` when it does not, the wrong kind below a file, and `p`'s own failure when `p` fails |
| Vfs.ResolveInMount | gitfuse.py:27-77 | a mount directory resolves to the snapshot of its last checkout, and every path below it is looked up inside that snapshot |
| Vfs.WalkWellFormed | gitfuse.py:73-77 | every node that lookup reaches from a well-formed node is well formed |
| Vfs.ReaddirRoot | gitfuse.py:25-72 | `readdir("/")` and `readdir("")` list `.`, `..` and then each configured directory name once, in configuration order |
| Vfs.ReaddirNamesOnce | gitfuse.py:25-40 | every `readdir` of the mounted snapshot starts with `.` and `..` and then names each child exactly once |
| Vfs.SliceAdjacent | gitfuse.py:64 | two reads that follow each other return what one read of both sizes returns |
| Vfs.SliceWhole | gitfuse.py:64 | reading from offset 0 with a size at least the length returns the whole file |
| Vfs.BuiltPairsGet | gitfuse.py:37 | looking a name up among the built pairs finds the built git object |
| Vfs.GitWalkDistinct | gitfuse.py:34-37 | every object reached inside a tree with distinct names has distinct names |
| Vfs.BuildWalk | gitfuse.py:34-77 | looking names up in a built snapshot is the same as looking them up in the git objects and building what is found, failures included |
| Vfs.SnapshotMirrorsSource | gitfuse.py:34-64 | for every path naming a git object, what is served agrees with that object. A blob is a regular file of its own length and one link, `read` returns slices of its bytes and it cannot be listed. A tree is a directory with two more links than entries, it lists its entry names in tree order and it cannot be read |
| GitFuse.Tree.constructor | gitfuse.py:21-32 | after the checkout loop, `files` is the snapshot `Mount` of the configured checkouts, and the clock and ids are the given ones |
| GitFuse.Tree.Root | gitfuse.py:70 | `files = self.files`: the dict every lookup starts from; Lookup, Readdir, Getattr and Read are specified from it |
| GitFuse.Tree.Lookup | gitfuse.py:66-82 | the loop of `lookup` returns the node that `Resolve` reaches from the root, or its failure |
| GitFuse.Tree.Readdir | gitfuse.py:39-40 | `readdir` returns the listing of the node `Resolve` reaches, or the lookup failure |
| GitFuse.Tree.Getattr | gitfuse.py:42-60 | `getattr` returns the attributes of the node reached, using the captured clock and ids, or the lookup failure |
| GitFuse.Tree.Read | gitfuse.py:62-64 | `read` returns the slice of the file reached, the wrong kind for a directory, or the lookup failure |
| Scenario.OneFileResolve | gitfuse.py:25-82 | with a single checkout `d` holding one blob `n`: `d` is a directory holding only `n`, `d/n` is the blob's bytes, and any other name under `d` is `ENOENT` |
| Scenario.OneFileListRoot | gitfuse.py:25-40 | with a single checkout, the root lists `.`, `..` and that checkout's directory |
| Scenario.OneFileListing | gitfuse.py:40-82 | the checkout directory lists `.`, `..` and the one file; listing the file is the wrong kind; listing another name is `ENOENT` |
| Scenario.ListOne | gitfuse.py:40 | a directory holding one file lists `.`, `..` and that file's name |
| Scenario.OneFileRead | gitfuse.py:42-64 | the file has the blob's length as its size, reads give slices of the blob, and reading the directory is the wrong kind |
| Scenario.ScenarioReaddir | gitfuse.py:25-40 | for `main` holding `hello.txt`: `readdir("/")` is `[".", "..", "main"]`, `readdir("main")` is `[".", "..", "hello.txt"]`, `main/hello.txt` cannot be listed and `main/world.txt` is `ENOENT` |
| Scenario.ScenarioGetattr | gitfuse.py:42-60 | `getattr("main/hello.txt")` succeeds with size 2 |
| Scenario.ScenarioRead | gitfuse.py:62-64 | reading `main/hello.txt` from offset 0 with size 2 gives its two bytes, and reading `main` is the wrong kind |
| Scenario.ScenarioReadTail | gitfuse.py:62-64 | reading `main/hello.txt` from offset 1 gives its last byte, and from offset 2, at its end, gives nothing |
| Scenario.SliceOfTwo | gitfuse.py:64 | for two bytes, a read from offset 1 gives the second byte and a read from offset 2 gives nothing |

## Left out

- Mounting: `mount`, the `FUSE(...)` call, `Operations`/`LoggingMixIn` and the `nothreads` option (gitfuse.py:85-93) are plumbing over a library that is not part of this model. The kernel protocol and its threading are not modelled.
- Startup: argument parsing, YAML loading, logging and creating the mountpoint (gitfuse.py:96-116) are I/O.
- git access: opening the repository, `revparse_single(branch).tree` and `read_raw()` (gitfuse.py:19, 31, 36) are calls into pygit2. Each checkout arrives with its branch already resolved to a `GitObject`, and a blob arrives with its bytes. A branch that does not resolve, and submodule (commit) entries of a tree, are not modelled.
- `time()`, `os.geteuid()` and `os.getegid()` (gitfuse.py:21-23) are constructor parameters. Timestamps are `real`, and the float precision of `time()` is not modelled.
- Error cases: descending below a file, `readdir` of a file and `read` of a directory are one `WrongKind` error. In the first case the source raises a `TypeError`. In the third it raises a `TypeError`, or on Python 3.12 and later a `KeyError` that `lookup`'s handler does not see. The errno the filesystem library reports for these is not modelled.
- The `isinstance(files, str)` branch of `lookup` (gitfuse.py:78-79) can never be taken, because blobs are bytes. `Lookup` returns the node reached.
- The `fh` arguments of `readdir`, `getattr` and `read` are ignored by the source and left out. `size` and `offset` are non-negative, as the filesystem library passes them.
- A configured `dir` that contains a slash is stored in `files` like any other key. No path can reach it, since lookup splits on slashes. `ResolveInMount` therefore requires a valid name.
- Vfs.Listing: `readdir` of a file returns `['.', '..']` followed by the file's byte values as integers (gitfuse.py:40). These are not names, so for a non-empty file the library call fails after `readdir` returns. For an empty file the source returns `['.', '..']` and the call succeeds. The model reports `WrongKind` for every file, empty or not.
- Vfs.SnapshotMirrorsSource, Vfs.BuildWalk, Vfs.GitWalkDistinct, Build.BuildSameOrder: these require distinct names in every tree, as git trees have. For a tree that lists a name twice, `Build.BuildChild` states the dict-comprehension behaviour: the later entry wins, in the earlier entry's place.
- gitfuse.py has no repository watching, no snapshot refresh or swapping, and no write operations; none is modelled.
