/** The read-only operations that `Tree` serves over a snapshot: the path
    descent of `lookup` (gitfuse.py:66-82) and what `readdir`, `getattr`
    and `read` compute from the node it reaches (gitfuse.py:39-64). */
module Vfs {
  import opened Snapshot
  import opened Paths
  import opened Build

  // Mode bits of Python's `stat` module (written in octal there).
  const S_IFMT: bv32 := 0xF000      // 0o170000, the file-kind bits
  const S_IFDIR: bv32 := 0x4000     // 0o040000
  const S_IFREG: bv32 := 0x8000     // 0o100000
  const PERMS: bv32 := 0x1FF        // 0o777, the permission bits
  const FILE_PERMS: bv32 := 0x124   // 0o444
  const DIR_PERMS: bv32 := 0x16D    // 0o555

  /** The `st_size` every directory reports. */
  const DIR_SIZE: nat := 4096

  /** The attribute dict that `getattr` returns. */
  datatype Attrs = Attrs(mode: bv32, nlink: nat, size: nat, uid: nat, gid: nat,
                         atime: real, mtime: real, ctime: real)

  function Min(a: int, b: int): int {
    if a <= b then a else b
  }

  // ---------------------------------------------------------------------
  // lookup

  /** One pass of the loop of `lookup`: `files = files[inode]`.  A missing
      name is `ENOENT`; indexing the bytes of a file by a name is a
      `TypeError`. */
  function Step(n: Node, name: string): (r: Result<Node>)
    ensures r.Ok? <==> n.Dir? && Get(n.entries, name).Some?
    ensures r.Ok? ==> (name, r.value) in n.entries
    ensures r == Err(WrongKind) <==> n.File?
  {
    match n
    case File(_) => Err(WrongKind)
    case Dir(es) =>
      match Get(es, name)
      case None => Err(NoEntry)
      case Some(child) => Ok(child)
  }

  /** The whole loop of `lookup`: one step per name, stopping at the first
      failure. */
  function Walk(n: Node, names: seq<string>): Result<Node>
    decreases names
  {
    if names == [] then Ok(n)
    else
      match Step(n, names[0])
      case Err(e) => Err(e)
      case Ok(child) => Walk(child, names[1..])
  }

  /** `lookup(path)` from the root dict `root`. */
  function Resolve(root: Node, path: string): Result<Node> {
    Walk(root, Segments(path))
  }

  // ---------------------------------------------------------------------
  // readdir, getattr, read on the node reached

  /** `['.', '..'] + [inode for inode in node]`: the synthetic entries and then
      the child names in insertion order.  Iterating over the bytes of a
      file does not give names, so a file is the wrong kind. */
  function Listing(n: Node): (r: Result<seq<string>>)
    ensures r.Err? <==> n.File?
    ensures r.Err? ==> r.error == WrongKind
    ensures r.Ok? ==> |r.value| == |n.entries| + 2 && r.value[..2] == [".", ".."]
    ensures r.Ok? ==> r.value[2..] == Keys(n.entries)
    ensures r.Ok? ==> forall k :: k in r.value[2..] <==> Get(n.entries, k).Some?
    ensures r.Ok? && UniqueKeys(n.entries) ==> Distinct(r.value[2..])
  {
    match n
    case File(_) => Err(WrongKind)
    case Dir(es) =>
      var names := [".", ".."] + Keys(es);
      assert names[2..] == Keys(es);
      Ok(names)
  }

  /** The dict `getattr` builds: read-only mode bits by kind, and the same
      owner and timestamp for every node. */
  function Attributes(n: Node, now: real, uid: nat, gid: nat): (a: Attrs)
    ensures a.uid == uid && a.gid == gid
    ensures a.atime == now && a.mtime == now && a.ctime == now
    ensures a.mode & !(S_IFMT | PERMS) == 0
    ensures n.File? ==> a.mode & S_IFMT == S_IFREG && a.mode & PERMS == FILE_PERMS
    ensures n.File? ==> a.nlink == 1 && a.size == |n.content|
    ensures n.Dir? ==> a.mode & S_IFMT == S_IFDIR && a.mode & PERMS == DIR_PERMS
    ensures n.Dir? ==> a.nlink == |n.entries| + 2 && a.size == DIR_SIZE
  {
    match n
    case File(content) =>
      Attrs(S_IFREG | FILE_PERMS, 1, |content|, uid, gid, now, now, now)
    case Dir(es) =>
      Attrs(S_IFDIR | DIR_PERMS, |es| + 2, DIR_SIZE, uid, gid, now, now, now)
  }

  /** Python's `data[offset:offset + size]` for a non-negative offset and
      size: the bytes from `offset` on, at most `size` of them, none when
      `offset` is at or past the end. */
  function Slice(data: seq<byte>, size: nat, offset: nat): (r: seq<byte>)
    ensures |r| == if offset >= |data| then 0 else Min(size, |data| - offset)
    ensures forall i :: 0 <= i < |r| ==> r[i] == data[offset + i]
  {
    data[Min(offset, |data|)..Min(offset + size, |data|)]
  }

  /** `read` on the node reached: slicing a dict is the wrong kind. */
  function ReadNode(n: Node, size: nat, offset: nat): (r: Result<seq<byte>>)
    ensures r.Err? <==> n.Dir?
    ensures r.Err? ==> r.error == WrongKind
    ensures r.Ok? ==> r.value == Slice(n.content, size, offset)
  {
    match n
    case File(content) => Ok(Slice(content, size, offset))
    case Dir(_) => Err(WrongKind)
  }

  /** `readdir(path)`. */
  function ListAt(root: Node, path: string): Result<seq<string>> {
    match Resolve(root, path)
    case Ok(n) => Listing(n)
    case Err(e) => Err(e)
  }

  /** `getattr(path)`. */
  function AttrsAt(root: Node, path: string, now: real, uid: nat, gid: nat): Result<Attrs> {
    match Resolve(root, path)
    case Ok(n) => Ok(Attributes(n, now, uid, gid))
    case Err(e) => Err(e)
  }

  /** `read(path, size, offset)`. */
  function ReadAt(root: Node, path: string, size: nat, offset: nat): Result<seq<byte>> {
    match Resolve(root, path)
    case Ok(n) => ReadNode(n, size, offset)
    case Err(e) => Err(e)
  }

  // ---------------------------------------------------------------------
  // Lemmas on lookup

  /** Descending through `a + b` is descending through `a`, then through `b`
      from the node reached; a failure on the way is final. */
  lemma {:induction false} WalkAppend(n: Node, a: seq<string>, b: seq<string>)
    ensures Walk(n, a + b) == match Walk(n, a) case Ok(m) => Walk(m, b) case Err(e) => Err(e)
  {
    if a != [] {
      assert (a + b)[0] == a[0];
      assert (a + b)[1..] == a[1..] + b;
      match Step(n, a[0])
      case Err(_) =>
      case Ok(child) => WalkAppend(child, a[1..], b);
    } else {
      assert a + b == b;
    }
  }

  /** Descending through one name is one step. */
  lemma WalkOne(n: Node, name: string)
    ensures Walk(n, [name]) == Step(n, name)
  {
    assert [name][1..] == [];
  }

  /** `lookup("")` and `lookup("/")` return the root dict itself. */
  lemma ResolveRoot(root: Node)
    ensures Resolve(root, "") == Ok(root)
    ensures Resolve(root, "/") == Ok(root)
  {
    SegmentsRoot();
  }

  /** Only the non-empty segments matter: a leading slash, a trailing slash
      and a doubled slash change nothing. */
  lemma ResolveIgnoresEmptySegments(root: Node, p: string, a: string, b: string)
    ensures Resolve(root, "/" + p) == Resolve(root, p)
    ensures Resolve(root, p + "/") == Resolve(root, p)
    ensures Resolve(root, a + "//" + b) == Resolve(root, a + "/" + b)
  {
    SegmentsLeadingSlash(p);
    SegmentsTrailingSlash(p);
    SegmentsDoubleSlash(a, b);
  }

  /** Looking up `p + "/" + name` is one more descent step from `lookup(p)`:
      the child when the directory has it, `ENOENT` when it does not, the
      wrong kind below a file, and the failure of `p` itself otherwise. */
  lemma LookupComposes(root: Node, p: string, name: string)
    requires ValidName(name)
    ensures Resolve(root, p).Err? ==> Resolve(root, p + "/" + name) == Resolve(root, p)
    ensures Resolve(root, p).Ok? ==> Resolve(root, p + "/" + name) == Step(Resolve(root, p).value, name)
  {
    var q := p + "/" + name;
    SegmentsAppendName(p, name);
    assert Resolve(root, q) == Walk(root, Segments(p) + [name]);
    WalkAppend(root, Segments(p), [name]);
    if Resolve(root, p).Ok? {
      WalkOne(Resolve(root, p).value, name);
    }
  }

  /** A path below a mount directory is looked up inside the snapshot of
      the last checkout configured with that directory. */
  lemma ResolveInMount(cs: seq<Checkout>, i: nat, rest: string)
    requires i < |cs| && ValidName(cs[i].dir)
    requires forall j :: i < j < |cs| ==> cs[j].dir != cs[i].dir
    ensures Resolve(Dir(Mount(cs)), cs[i].dir) == Ok(BuildTree(cs[i].tree))
    ensures Resolve(Dir(Mount(cs)), cs[i].dir + "/" + rest) == Resolve(BuildTree(cs[i].tree), rest)
  {
    var d := cs[i].dir;
    var root := Dir(Mount(cs));
    MountLast(cs, i);
    WalkOne(root, d);
    SegmentsName(d);
    SegmentsConcat(d, rest);
    assert Resolve(root, d + "/" + rest) == Walk(root, [d] + Segments(rest));
    WalkAppend(root, [d], Segments(rest));
  }

  /** Every node that lookup reaches from a well-formed node is well formed. */
  lemma {:induction false} WalkWellFormed(n: Node, names: seq<string>)
    requires WellFormed(n)
    ensures Walk(n, names).Ok? ==> WellFormed(Walk(n, names).value)
  {
    if names != [] && n.Dir? {
      match Get(n.entries, names[0])
      case None =>
      case Some(child) =>
        var j :| 0 <= j < |n.entries| && n.entries[j] == (names[0], child);
        WalkWellFormed(child, names[1..]);
    }
  }

  // ---------------------------------------------------------------------
  // Lemmas on the operations

  /** `readdir("/")` lists `.`, `..` and then every configured directory
      name once, in the order the names first appear in the configuration. */
  lemma ReaddirRoot(cs: seq<Checkout>)
    ensures ListAt(Dir(Mount(cs)), "/") == Ok([".", ".."] + FirstOccurrences(Dirs(cs)))
    ensures ListAt(Dir(Mount(cs)), "") == Ok([".", ".."] + FirstOccurrences(Dirs(cs)))
  {
    ResolveRoot(Dir(Mount(cs)));
  }

  /** Every `readdir` of the mounted snapshot names each child exactly once
      after `.` and `..`. */
  lemma ReaddirNamesOnce(cs: seq<Checkout>, path: string)
    ensures ListAt(Dir(Mount(cs)), path).Ok? ==>
      var names := ListAt(Dir(Mount(cs)), path).value;
      names[..2] == [".", ".."] && Distinct(names[2..])
  {
    MountWellFormed(cs);
    WalkWellFormed(Dir(Mount(cs)), Segments(path));
  }

  /** Two reads that follow each other return what one read of both sizes
      returns: reading a file in chunks gives its bytes in order. */
  lemma {:induction false} SliceAdjacent(data: seq<byte>, s1: nat, s2: nat, offset: nat)
    ensures Slice(data, s1, offset) + Slice(data, s2, offset + s1) == Slice(data, s1 + s2, offset)
  {
    var lo := Min(offset, |data|);
    var mid := Min(offset + s1, |data|);
    var hi := Min(offset + s1 + s2, |data|);
    assert Min(offset + s1, |data|) == mid;
    assert data[lo..mid] + data[mid..hi] == data[lo..hi];
  }

  /** A read from offset 0 of at least the file's length returns the whole
      file. */
  lemma SliceWhole(data: seq<byte>, size: nat)
    requires size >= |data|
    ensures Slice(data, size, 0) == data
  {
    assert data[0..|data|] == data;
  }

  // ---------------------------------------------------------------------
  // The snapshot mirrors the git objects it was built from

  /** Descending through the git objects themselves, with the same failures
      as the descent through the snapshot. */
  function GitWalk(obj: GitObject, names: seq<string>): Result<GitObject>
    decreases names
  {
    if names == [] then Ok(obj)
    else
      match obj
      case Blob(_) => Err(WrongKind)
      case GitTree(es) =>
        match Get(es, names[0])
        case None => Err(NoEntry)
        case Some(o) => GitWalk(o, names[1..])
  }

  /** A git-side lookup result, with the object built into a node. */
  function Built(r: Result<GitObject>): Result<Node> {
    match r
    case Ok(o) => Ok(BuildTree(o))
    case Err(e) => Err(e)
  }

  /** Looking a name up among the built pairs finds the built object. */
  lemma {:induction false} BuiltPairsGet(es: seq<(string, GitObject)>, name: string)
    ensures Get(BuiltPairs(es), name) ==
      match Get(es, name) case None => None case Some(o) => Some(BuildTree(o))
  {
    if es != [] {
      assert BuiltPairs(es)[1..] == BuiltPairs(es[1..]);
      BuiltPairsGet(es[1..], name);
    }
  }

  /** Every object reached inside a tree with distinct names has distinct
      names too. */
  lemma {:induction false} GitWalkDistinct(obj: GitObject, names: seq<string>)
    requires DistinctNames(obj)
    ensures GitWalk(obj, names).Ok? ==> DistinctNames(GitWalk(obj, names).value)
  {
    if names != [] && obj.GitTree? {
      match Get(obj.entries, names[0])
      case None =>
      case Some(o) =>
        var j :| 0 <= j < |obj.entries| && obj.entries[j] == (names[0], o);
        GitWalkDistinct(o, names[1..]);
    }
  }

  /** Looking names up in a built snapshot is looking them up in the git
      objects and building what is found; the failures agree as well. */
  lemma {:induction false} BuildWalk(obj: GitObject, names: seq<string>)
    requires DistinctNames(obj)
    ensures Walk(BuildTree(obj), names) == Built(GitWalk(obj, names))
  {
    if names != [] {
      match obj
      case Blob(_) =>
      case GitTree(es) =>
        BuildSameOrder(es);
        BuiltPairsGet(es, names[0]);
        match Get(es, names[0])
        case None =>
        case Some(o) =>
          var j :| 0 <= j < |es| && es[j] == (names[0], o);
          BuildWalk(o, names[1..]);
    }
  }

  /** For every path that names a git object, what `getattr`, `readdir` and
      `read` serve agrees with that object: a blob is a regular file of its
      own length whose bytes are read back, a tree is a directory listing
      its entry names in tree order, with two more links than entries. */
  lemma SnapshotMirrorsSource(obj: GitObject, path: string, size: nat, offset: nat,
                              now: real, uid: nat, gid: nat)
    requires DistinctNames(obj)
    requires GitWalk(obj, Segments(path)).Ok?
    ensures var o := GitWalk(obj, Segments(path)).value;
            var a := AttrsAt(BuildTree(obj), path, now, uid, gid);
            a.Ok? &&
            (o.Blob? ==> a.value.mode & S_IFMT == S_IFREG && a.value.size == |o.data| && a.value.nlink == 1) &&
            (o.GitTree? ==> a.value.mode & S_IFMT == S_IFDIR && a.value.nlink == |o.entries| + 2)
    ensures var o := GitWalk(obj, Segments(path)).value;
            (o.Blob? ==> ReadAt(BuildTree(obj), path, size, offset) == Ok(Slice(o.data, size, offset))) &&
            (o.Blob? ==> ListAt(BuildTree(obj), path) == Err(WrongKind))
    ensures var o := GitWalk(obj, Segments(path)).value;
            (o.GitTree? ==> ListAt(BuildTree(obj), path) == Ok([".", ".."] + Keys(o.entries))) &&
            (o.GitTree? ==> ReadAt(BuildTree(obj), path, size, offset) == Err(WrongKind))
  {
    var o := GitWalk(obj, Segments(path)).value;
    BuildWalk(obj, Segments(path));
    GitWalkDistinct(obj, Segments(path));
    if o.GitTree? {
      BuildSameOrder(o.entries);
    }
  }
}
