/** The in-memory snapshot that `Tree` serves: a file is its raw bytes, a
    directory is a Python dict from entry name to child.  A Python dict keeps
    its keys in insertion order, and assigning to a key it already holds
    replaces the value in place, so a dict is modelled as an association
    list whose updates keep that order (gitfuse.py:25-37). */
module Snapshot {

  type byte = bv8

  datatype Option<T> = None | Some(value: T)

  /** A node of the snapshot: the bytes of a blob, or a dict of children. */
  datatype Node = File(content: seq<byte>) | Dir(entries: seq<(string, Node)>)

  /** A lookup or an operation that fails.  `NoEntry` is the
      `FuseOSError(ENOENT)` raised for a missing name; `WrongKind` stands for
      using bytes as a dict or a dict as bytes, which the Python code does not
      turn into an errno of its own. */
  datatype Error = NoEntry | WrongKind

  datatype Result<T> = Ok(value: T) | Err(error: Error)

  /** The keys of a dict (or the names of a git tree), in iteration order. */
  function Keys<T>(es: seq<(string, T)>): seq<string> {
    seq(|es|, i requires 0 <= i < |es| => es[i].0)
  }

  /** No element occurs twice. */
  predicate Distinct(s: seq<string>) {
    forall i, j :: 0 <= i < j < |s| ==> s[i] != s[j]
  }

  /** Every key occurs once, as in any Python dict. */
  predicate UniqueKeys(es: seq<(string, Node)>) {
    Distinct(Keys(es))
  }

  /** Every directory of the tree, at any depth, has unique keys. */
  predicate WellFormed(n: Node) {
    match n
    case File(_) => true
    case Dir(es) => UniqueKeys(es) && forall i :: 0 <= i < |es| ==> WellFormed(es[i].1)
  }

  /** Python's `d[k]`: the value stored under `k`, `None` for a `KeyError`.
      The first match counts, which only matters for a git tree that lists
      a name twice. */
  function Get<T>(es: seq<(string, T)>, k: string): (r: Option<T>)
    ensures r.None? <==> k !in Keys(es)
    ensures r.Some? ==> (k, r.value) in es
  {
    if es == [] then None
    else if es[0].0 == k then
      assert Keys(es)[0] == k;
      Some(es[0].1)
    else
      assert Keys(es) == [es[0].0] + Keys(es[1..]);
      Get(es[1..], k)
  }

  /** Python's `d[k] = v`: an existing key keeps its place and gets the new
      value, a new key goes at the end (see PutKeys and PutGet). */
  function Put(es: seq<(string, Node)>, k: string, v: Node): seq<(string, Node)> {
    if es == [] then [(k, v)]
    else if es[0].0 == k then [(k, v)] + es[1..]
    else [es[0]] + Put(es[1..], k, v)
  }

  /** The keys of `s` in the order they first occur: the key order of a
      dict after assigning the keys of `s` one after the other. */
  function FirstOccurrences(s: seq<string>): (r: seq<string>)
    ensures forall x :: x in r <==> x in s
    ensures Distinct(r)
    ensures |r| <= |s|
  {
    if s == [] then []
    else
      var prefix := FirstOccurrences(s[..|s| - 1]);
      assert forall x :: x in s <==> x in s[..|s| - 1] || x == s[|s| - 1];
      if s[|s| - 1] in prefix then prefix else prefix + [s[|s| - 1]]
  }

  /** A dict built by assigning the pairs of `ps` one after the other, as
      a dict comprehension and the checkout loop of `Tree.__init__` do. */
  function FromPairs(ps: seq<(string, Node)>): (r: seq<(string, Node)>)
    ensures Keys(r) == FirstOccurrences(Keys(ps))
  {
    if ps == [] then []
    else
      var init := ps[..|ps| - 1];
      assert Keys(ps)[..|ps| - 1] == Keys(init);
      PutKeys(FromPairs(init), ps[|ps| - 1].0, ps[|ps| - 1].1);
      Put(FromPairs(init), ps[|ps| - 1].0, ps[|ps| - 1].1)
  }

  // ---------------------------------------------------------------------
  // Lemmas

  /** Assignment keeps the key order and appends a new key. */
  lemma {:induction false} PutKeys(es: seq<(string, Node)>, k: string, v: Node)
    ensures Keys(Put(es, k, v)) == if k in Keys(es) then Keys(es) else Keys(es) + [k]
  {
    if es != [] {
      var rest := es[1..];
      KeysCons(es[0], rest);
      assert [es[0]] + rest == es;
      if es[0].0 == k {
        KeysCons((k, v), rest);
      } else {
        PutKeys(rest, k, v);
        KeysCons(es[0], Put(rest, k, v));
      }
    }
  }

  /** The keys of a dict with one more entry in front. */
  lemma KeysCons(p: (string, Node), es: seq<(string, Node)>)
    ensures Keys([p] + es) == [p.0] + Keys(es)
  {
  }

  /** After `d[k] = v`, `d[k]` is `v` and every other key is unchanged. */
  lemma {:induction false} PutGet(es: seq<(string, Node)>, k: string, v: Node, k': string)
    ensures Get(Put(es, k, v), k') == if k' == k then Some(v) else Get(es, k')
  {
    if es != [] && es[0].0 != k {
      PutGet(es[1..], k, v, k');
      assert ([es[0]] + Put(es[1..], k, v))[1..] == Put(es[1..], k, v);
    } else if es != [] {
      assert ([(k, v)] + es[1..])[1..] == es[1..];
    }
  }

  /** Assignment keeps the keys unique. */
  lemma PutUnique(es: seq<(string, Node)>, k: string, v: Node)
    requires UniqueKeys(es)
    ensures UniqueKeys(Put(es, k, v))
  {
    PutKeys(es, k, v);
  }

  /** In a dict, the value under the key of an entry is that entry's value. */
  lemma {:induction false} GetAt(es: seq<(string, Node)>, i: nat)
    requires UniqueKeys(es) && i < |es|
    ensures Get(es, es[i].0) == Some(es[i].1)
  {
    if i > 0 {
      assert Keys(es)[0] != Keys(es)[i];
      assert es[1..][i - 1] == es[i];
      assert Keys(es[1..]) == Keys(es)[1..];
      GetAt(es[1..], i - 1);
    }
  }

  /** A sequence without repeats is its own first occurrences. */
  lemma {:induction false} FirstOccurrencesDistinct(s: seq<string>)
    requires Distinct(s)
    ensures FirstOccurrences(s) == s
  {
    if s != [] {
      var init := s[..|s| - 1];
      FirstOccurrencesDistinct(init);
      assert s[|s| - 1] !in init;
      assert init + [s[|s| - 1]] == s;
    }
  }

  /** The value a built dict holds under `k` is the one from the LAST pair
      with key `k`: a later assignment overwrites an earlier one. */
  lemma {:induction false} FromPairsLast(ps: seq<(string, Node)>, i: nat)
    requires i < |ps|
    requires forall j :: i < j < |ps| ==> ps[j].0 != ps[i].0
    ensures Get(FromPairs(ps), ps[i].0) == Some(ps[i].1)
  {
    var n := |ps| - 1;
    var init := ps[..n];
    assert FromPairs(ps) == Put(FromPairs(init), ps[n].0, ps[n].1);
    PutGet(FromPairs(init), ps[n].0, ps[n].1, ps[i].0);
    if i < n {
      assert init[i] == ps[i];
      FromPairsLast(init, i);
    } else {
      assert i == n;
    }
  }

  /** A key that no pair has is missing from the built dict. */
  lemma FromPairsMissing(ps: seq<(string, Node)>, k: string)
    requires k !in Keys(ps)
    ensures Get(FromPairs(ps), k) == None
  {
  }

  /** Pairs with distinct keys are kept as they are. */
  lemma FromPairsDistinct(ps: seq<(string, Node)>)
    requires UniqueKeys(ps)
    ensures FromPairs(ps) == ps
  {
    FirstOccurrencesDistinct(Keys(ps));
    var r := FromPairs(ps);
    assert Keys(r) == Keys(ps);
    forall i | 0 <= i < |ps|
      ensures r[i] == ps[i]
    {
      forall j | i < j < |ps|
        ensures ps[j].0 != ps[i].0
      {
        assert Keys(ps)[i] != Keys(ps)[j];
      }
      FromPairsLast(ps, i);
      GetAt(r, i);
      assert r[i].0 == Keys(r)[i] == ps[i].0;
    }
  }

  /** Every pair of a dict built from `ps` is one of the pairs of `ps`. */
  lemma {:induction false} FromPairsFrom(ps: seq<(string, Node)>, p: (string, Node))
    requires p in FromPairs(ps)
    ensures p in ps
  {
    var n := |ps| - 1;
    PutFrom(FromPairs(ps[..n]), ps[n].0, ps[n].1, p);
    if p != ps[n] {
      FromPairsFrom(ps[..n], p);
    }
  }

  /** Every pair after `d[k] = v` was there before or is `(k, v)`. */
  lemma {:induction false} PutFrom(es: seq<(string, Node)>, k: string, v: Node, p: (string, Node))
    requires p in Put(es, k, v)
    ensures p in es || p == (k, v)
  {
    if es != [] && es[0].0 != k && p != es[0] {
      PutFrom(es[1..], k, v, p);
    }
  }
}
