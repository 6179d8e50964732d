/** Materialising git objects into the snapshot: `Tree.build_tree` and the
    checkout loop of `Tree.__init__` (gitfuse.py:25-37).  The git object
    database is not modelled; an object arrives here already read. */
module Build {
  import opened Snapshot

  /** A git object as the repository hands it out: a blob with its raw
      bytes, or a tree with its entries in the order the tree lists them. */
  datatype GitObject = Blob(data: seq<byte>) | GitTree(entries: seq<(string, GitObject)>)

  /** One configured checkout: the branch name, the directory it is shown
      under, and the tree that `revparse_single(branch).tree` resolves to. */
  datatype Checkout = Checkout(branch: string, dir: string, tree: GitObject)

  /** `build_tree`: a blob becomes its raw bytes, a tree becomes a dict from
      entry name to the recursively built entry. */
  function BuildTree(obj: GitObject): (r: Node)
    ensures obj.Blob? <==> r.File?
    ensures obj.Blob? ==> r.content == obj.data
    ensures obj.GitTree? ==> Keys(r.entries) == FirstOccurrences(Keys(obj.entries))
  {
    match obj
    case Blob(data) => File(data)
    case GitTree(es) =>
      var ps := seq(|es|, i requires 0 <= i < |es| => (es[i].0, BuildTree(es[i].1)));
      assert Keys(ps) == Keys(es);
      Dir(FromPairs(ps))
  }

  /** The pairs `(o.name, build_tree(o))` that the dict comprehension of
      `build_tree` assigns, in iteration order. */
  function BuiltPairs(es: seq<(string, GitObject)>): (r: seq<(string, Node)>)
    ensures Keys(r) == Keys(es)
  {
    seq(|es|, i requires 0 <= i < |es| => (es[i].0, BuildTree(es[i].1)))
  }

  /** A built tree is the dict assigned from the built pairs. */
  lemma BuildEntries(es: seq<(string, GitObject)>)
    ensures BuildTree(GitTree(es)).entries == FromPairs(BuiltPairs(es))
  {
  }

  /** Git never lists a name twice in one tree; this says so at every depth. */
  predicate DistinctNames(obj: GitObject) {
    match obj
    case Blob(_) => true
    case GitTree(es) =>
      Distinct(Keys(es)) && forall i :: 0 <= i < |es| ==> DistinctNames(es[i].1)
  }

  /** The directory names of the checkouts, in configuration order. */
  function Dirs(cs: seq<Checkout>): seq<string> {
    seq(|cs|, i requires 0 <= i < |cs| => cs[i].dir)
  }

  /** The assignments `self.files[directory] = self.build_tree(tree)` made by
      the checkout loop, in configuration order. */
  function Mounted(cs: seq<Checkout>): (r: seq<(string, Node)>)
    ensures Keys(r) == Dirs(cs)
  {
    seq(|cs|, i requires 0 <= i < |cs| => (cs[i].dir, BuildTree(cs[i].tree)))
  }

  /** `self.files` once the checkout loop has run over `cs`: one entry per
      distinct directory name, in the order the names first appear. */
  function Mount(cs: seq<Checkout>): (r: seq<(string, Node)>)
    ensures UniqueKeys(r)
    ensures Keys(r) == FirstOccurrences(Dirs(cs))
  {
    FromPairs(Mounted(cs))
  }

  // ---------------------------------------------------------------------
  // build_tree

  /** Every directory that `build_tree` produces has unique keys at every
      depth, whatever the object. */
  lemma {:induction false} BuildWellFormed(obj: GitObject)
    ensures WellFormed(BuildTree(obj))
  {
    match obj
    case Blob(_) =>
    case GitTree(es) =>
      var ps := BuiltPairs(es);
      var r := FromPairs(ps);
      BuildEntries(es);
      forall i | 0 <= i < |r|
        ensures WellFormed(r[i].1)
      {
        FromPairsFrom(ps, r[i]);
        var j :| 0 <= j < |ps| && ps[j] == r[i];
        BuildWellFormed(es[j].1);
      }
  }

  /** For a tree whose names are distinct, as git guarantees, `build_tree`
      keeps every entry, in tree order, under its own name. */
  lemma BuildSameOrder(es: seq<(string, GitObject)>)
    requires Distinct(Keys(es))
    ensures BuildTree(GitTree(es)).entries == BuiltPairs(es)
    ensures Keys(BuildTree(GitTree(es)).entries) == Keys(es)
    ensures |BuildTree(GitTree(es)).entries| == |es|
  {
    BuildEntries(es);
    FromPairsDistinct(BuiltPairs(es));
  }

  /** The child `build_tree` stores under an entry's name is that entry built:
      for a name listed twice the later entry wins, as a dict comprehension
      makes it. */
  lemma BuildChild(es: seq<(string, GitObject)>, i: nat)
    requires i < |es|
    requires forall j :: i < j < |es| ==> es[j].0 != es[i].0
    ensures Get(BuildTree(GitTree(es)).entries, es[i].0) == Some(BuildTree(es[i].1))
  {
    BuildEntries(es);
    FromPairsLast(BuiltPairs(es), i);
  }

  /** A name that the tree does not list is missing from the built dict. */
  lemma BuildMissing(es: seq<(string, GitObject)>, k: string)
    requires k !in Keys(es)
    ensures Get(BuildTree(GitTree(es)).entries, k) == None
  {
    BuildEntries(es);
    FromPairsMissing(BuiltPairs(es), k);
  }

  // ---------------------------------------------------------------------
  // The checkout loop

  /** Before the checkout loop, `self.files` is the empty dict. */
  lemma MountEmpty()
    ensures Mount([]) == []
  {
    assert Mounted([]) == [];
  }

  /** One more iteration of the checkout loop assigns one more mount. */
  lemma MountStep(cs: seq<Checkout>, c: Checkout)
    ensures Mount(cs + [c]) == Put(Mount(cs), c.dir, BuildTree(c.tree))
  {
    var all := cs + [c];
    assert Mounted(all)[..|cs|] == Mounted(cs);
  }

  /** The tree mounted under a directory name is the one of the LAST checkout
      with that name: a repeated `dir` overwrites the earlier checkout. */
  lemma MountLast(cs: seq<Checkout>, i: nat)
    requires i < |cs|
    requires forall j :: i < j < |cs| ==> cs[j].dir != cs[i].dir
    ensures Get(Mount(cs), cs[i].dir) == Some(BuildTree(cs[i].tree))
  {
    FromPairsLast(Mounted(cs), i);
  }

  /** A directory name that no checkout configures is not mounted. */
  lemma MountMissing(cs: seq<Checkout>, d: string)
    requires d !in Dirs(cs)
    ensures Get(Mount(cs), d) == None
  {
    FromPairsMissing(Mounted(cs), d);
  }

  /** Every mounted snapshot is well formed. */
  lemma MountWellFormed(cs: seq<Checkout>)
    ensures WellFormed(Dir(Mount(cs)))
  {
    var ps := Mounted(cs);
    var r := Mount(cs);
    forall i | 0 <= i < |r|
      ensures WellFormed(r[i].1)
    {
      FromPairsFrom(ps, r[i]);
      var j :| 0 <= j < |ps| && ps[j] == r[i];
      BuildWellFormed(cs[j].tree);
    }
  }
}
