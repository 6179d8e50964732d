/** A worked configuration: one checkout of branch `main` shown under the
    directory `main`, whose tree holds one blob `hello.txt` containing "hi". */
module Scenario {
  import opened Snapshot
  import opened Paths
  import opened Build
  import opened Vfs

  /** The snapshot of a single checkout `d` whose tree holds one blob `n`. */
  function OneFile(b: string, d: string, n: string, data: seq<byte>): Node {
    Dir(Mount([Checkout(b, d, GitTree([(n, Blob(data))]))]))
  }

  /** In that snapshot `d` is a directory holding only `n`, `d/n` is the
      blob's bytes, and any other name under `d` is missing. */
  lemma OneFileResolve(b: string, d: string, n: string, m: string, data: seq<byte>)
    requires ValidName(d) && ValidName(n) && ValidName(m) && m != n
    ensures Resolve(OneFile(b, d, n, data), d) == Ok(Dir([(n, File(data))]))
    ensures Resolve(OneFile(b, d, n, data), d + "/" + n) == Ok(File(data))
    ensures Resolve(OneFile(b, d, n, data), d + "/" + m) == Err(NoEntry)
  {
    var cs := [Checkout(b, d, GitTree([(n, Blob(data))]))];
    var es := [(n, Blob(data))];
    ResolveInMount(cs, 0, n);
    ResolveInMount(cs, 0, m);
    BuildSameOrder(es);
    assert BuiltPairs(es) == [(n, File(data))];
    var dir := Dir([(n, File(data))]);
    SegmentsName(n);
    SegmentsName(m);
    WalkOne(dir, n);
    WalkOne(dir, m);
  }

  /** `readdir("/")` in that snapshot lists `d` alone. */
  lemma OneFileListRoot(b: string, d: string, n: string, data: seq<byte>)
    ensures ListAt(OneFile(b, d, n, data), "/") == Ok([".", "..", d])
  {
    var cs := [Checkout(b, d, GitTree([(n, Blob(data))]))];
    ReaddirRoot(cs);
    assert Dirs(cs) == [d];
    assert FirstOccurrences([d]) == [d];
    assert [".", ".."] + [d] == [".", "..", d];
  }

  /** `readdir` under `d` in that snapshot: `d` lists `n`, the file cannot be
      listed and another name is missing. */
  lemma OneFileListing(b: string, d: string, n: string, m: string, data: seq<byte>)
    requires ValidName(d) && ValidName(n) && ValidName(m) && m != n
    ensures ListAt(OneFile(b, d, n, data), d) == Ok([".", "..", n])
    ensures ListAt(OneFile(b, d, n, data), d + "/" + n) == Err(WrongKind)
    ensures ListAt(OneFile(b, d, n, data), d + "/" + m) == Err(NoEntry)
  {
    OneFileResolve(b, d, n, m, data);
    ListOne(n, data);
  }

  /** A directory holding one file lists `.`, `..` and that file. */
  lemma ListOne(n: string, data: seq<byte>)
    ensures Listing(Dir([(n, File(data))])) == Ok([".", "..", n])
  {
    assert Keys([(n, File(data))]) == [n];
    assert [".", ".."] + [n] == [".", "..", n];
  }

  /** `getattr` and `read` in that snapshot: `d/n` is a regular file of the
      blob's length whose reads are slices of the blob, and `d` cannot be
      read. */
  lemma OneFileRead(b: string, d: string, n: string, data: seq<byte>, size: nat, offset: nat, now: real, uid: nat, gid: nat)
    requires ValidName(d) && ValidName(n)
    ensures AttrsAt(OneFile(b, d, n, data), d + "/" + n, now, uid, gid).Ok?
    ensures AttrsAt(OneFile(b, d, n, data), d + "/" + n, now, uid, gid).value.size == |data|
    ensures ReadAt(OneFile(b, d, n, data), d + "/" + n, size, offset) == Ok(Slice(data, size, offset))
    ensures ReadAt(OneFile(b, d, n, data), d, size, offset) == Err(WrongKind)
  {
    var m := n + "x";
    assert m != n by { assert |m| != |n|; }
    OneFileResolve(b, d, n, m, data);
  }

  const Main: string := "main"
  const Hello: string := "hello.txt"
  const World: string := "world.txt"
  const Hi: seq<byte> := [104, 105]

  lemma Names()
    ensures ValidName(Main) && ValidName(Hello) && ValidName(World) && World != Hello
  {
    assert World[0] != Hello[0];
  }

  /** `readdir` of the root and of `main`, and `readdir` on the file. */
  lemma ScenarioReaddir()
    ensures ListAt(OneFile(Main, Main, Hello, Hi), "/") == Ok([".", "..", Main])
    ensures ListAt(OneFile(Main, Main, Hello, Hi), Main) == Ok([".", "..", Hello])
    ensures ListAt(OneFile(Main, Main, Hello, Hi), Main + "/" + Hello) == Err(WrongKind)
    ensures ListAt(OneFile(Main, Main, Hello, Hi), Main + "/" + World) == Err(NoEntry)
  {
    Names();
    OneFileListRoot(Main, Main, Hello, Hi);
    OneFileListing(Main, Main, Hello, World, Hi);
  }

  /** `getattr` of `main/hello.txt`: a regular file of two bytes. */
  lemma ScenarioGetattr(now: real, uid: nat, gid: nat)
    ensures AttrsAt(OneFile(Main, Main, Hello, Hi), Main + "/" + Hello, now, uid, gid).Ok?
    ensures AttrsAt(OneFile(Main, Main, Hello, Hi), Main + "/" + Hello, now, uid, gid).value.size == 2
  {
    Names();
    OneFileRead(Main, Main, Hello, Hi, 0, 0, now, uid, gid);
  }

  /** `read` of the whole of `main/hello.txt`, and `read` of `main`. */
  lemma ScenarioRead()
    ensures ReadAt(OneFile(Main, Main, Hello, Hi), Main + "/" + Hello, 2, 0) == Ok(Hi)
    ensures ReadAt(OneFile(Main, Main, Hello, Hi), Main, 10, 0) == Err(WrongKind)
  {
    Names();
    OneFileRead(Main, Main, Hello, Hi, 2, 0, 0.0, 0, 0);
    OneFileRead(Main, Main, Hello, Hi, 10, 0, 0.0, 0, 0);
    SliceWhole(Hi, 2);
  }

  /** `read` of `main/hello.txt` from offset 1 and from its end. */
  lemma ScenarioReadTail()
    ensures ReadAt(OneFile(Main, Main, Hello, Hi), Main + "/" + Hello, 10, 1) == Ok([105])
    ensures ReadAt(OneFile(Main, Main, Hello, Hi), Main + "/" + Hello, 10, 2) == Ok([])
  {
    Names();
    OneFileRead(Main, Main, Hello, Hi, 10, 1, 0.0, 0, 0);
    OneFileRead(Main, Main, Hello, Hi, 10, 2, 0.0, 0, 0);
    SliceOfTwo(Hi, 10);
  }

  /** Reads of a two-byte file from offset 1 and from its end. */
  lemma SliceOfTwo(data: seq<byte>, size: nat)
    requires |data| == 2 && size >= 1
    ensures Slice(data, size, 1) == [data[1]]
    ensures Slice(data, size, 2) == []
  {
  }
}
