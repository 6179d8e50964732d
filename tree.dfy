/** The `Tree` object that the filesystem library calls into
    (gitfuse.py:16-82): it builds one snapshot per checkout when it is
    created and then answers lookups from it.  The clock and the effective
    user and group ids are passed in instead of being read from the system. */
module GitFuse {
  import opened Snapshot
  import opened Paths
  import opened Build
  import opened Vfs

  class Tree {
    /** `self.files`: the mount directory names, each with its snapshot. */
    var files: seq<(string, Node)>
    /** `self.now`, `self.uid`, `self.gid`: captured once at construction. */
    const now: real
    const uid: nat
    const gid: nat

    /** The dict that every lookup starts from. */
    function Root(): Node
      reads this
    {
      Dir(files)
    }

    /** `Tree.__init__`: one `self.files[directory] = self.build_tree(tree)`
        per checkout, in configuration order. */
    constructor (checkouts: seq<Checkout>, now: real, uid: nat, gid: nat)
      ensures files == Mount(checkouts)
      ensures this.now == now && this.uid == uid && this.gid == gid
    {
      this.now := now;
      this.uid := uid;
      this.gid := gid;
      files := [];
      new;
      MountEmpty();
      assert checkouts[..0] == [];
      var i := 0;
      while i < |checkouts|
        invariant 0 <= i <= |checkouts|
        invariant files == Mount(checkouts[..i])
      {
        var checkout := checkouts[i];
        MountStep(checkouts[..i], checkout);
        assert checkouts[..i + 1] == checkouts[..i] + [checkout];
        files := Put(files, checkout.dir, BuildTree(checkout.tree));
        i := i + 1;
      }
      assert checkouts[..i] == checkouts;
    }

    /** `lookup(path)`: start at the root dict and take one step per
        segment, stopping at the first missing name or file. */
    method Lookup(path: string) returns (r: Result<Node>)
      ensures r == Resolve(Root(), path)
    {
      var node := Dir(files);
      var inodes := Segments(path);
      var i := 0;
      while i < |inodes|
        invariant 0 <= i <= |inodes|
        invariant Walk(node, inodes[i..]) == Resolve(Root(), path)
      {
        assert inodes[i..][0] == inodes[i] && inodes[i..][1..] == inodes[i + 1..];
        var next := Step(node, inodes[i]);
        if next.Err? {
          return next;
        }
        node := next.value;
        i := i + 1;
      }
      return Ok(node);
    }

    /** `readdir(path, fh)`. */
    method Readdir(path: string) returns (r: Result<seq<string>>)
      ensures r == ListAt(Root(), path)
    {
      var found := Lookup(path);
      match found
      case Ok(n) => r := Listing(n);
      case Err(e) => r := Err(e);
    }

    /** `getattr(path, fh)`. */
    method Getattr(path: string) returns (r: Result<Attrs>)
      ensures r == AttrsAt(Root(), path, now, uid, gid)
    {
      var found := Lookup(path);
      match found
      case Ok(n) => r := Ok(Attributes(n, now, uid, gid));
      case Err(e) => r := Err(e);
    }

    /** `read(path, size, offset, fh)`. */
    method Read(path: string, size: nat, offset: nat) returns (r: Result<seq<byte>>)
      ensures r == ReadAt(Root(), path, size, offset)
    {
      var found := Lookup(path);
      match found
      case Ok(n) => r := ReadNode(n, size, offset);
      case Err(e) => r := Err(e);
    }
  }
}
