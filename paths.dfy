/** How a filesystem path is cut into the names that `lookup` descends
    through: Python's `path.strip('/').split('/')` followed by dropping the
    empty pieces (gitfuse.py:72). */
module Paths {

  /** A name that can be reached by one lookup step: non-empty, no slash. */
  predicate ValidName(n: string) {
    n != [] && '/' !in n
  }

  /** Python's `s.split('/')`: the pieces between slashes, empty pieces
      included; there is always at least one piece. */
  function Split(s: string): (r: seq<string>)
    ensures |r| >= 1
    ensures forall piece :: piece in r ==> '/' !in piece
  {
    if s == [] then [""]
    else if s[0] == '/' then [""] + Split(s[1..])
    else
      var rest := Split(s[1..]);
      [[s[0]] + rest[0]] + rest[1..]
  }

  /** The inverse of `Split`: the pieces glued back together with slashes. */
  function Join(parts: seq<string>): string
    requires |parts| >= 1
  {
    if |parts| == 1 then parts[0] else parts[0] + "/" + Join(parts[1..])
  }

  /** Python's `s.lstrip('/')`. */
  function StripLeft(s: string): (r: string)
    ensures |r| <= |s| && r == s[|s| - |r|..]
    ensures forall i :: 0 <= i < |s| - |r| ==> s[i] == '/'
    ensures r == [] || r[0] != '/'
  {
    if s != [] && s[0] == '/' then StripLeft(s[1..]) else s
  }

  /** Python's `s.rstrip('/')`. */
  function StripRight(s: string): (r: string)
    ensures |r| <= |s| && r == s[..|r|]
    ensures forall i :: |r| <= i < |s| ==> s[i] == '/'
    ensures r == [] || r[|r| - 1] != '/'
  {
    if s != [] && s[|s| - 1] == '/' then StripRight(s[..|s| - 1]) else s
  }

  /** Python's `s.strip('/')`. */
  function Strip(s: string): (r: string)
    ensures |r| <= |s|
    ensures r == [] || (r[0] != '/' && r[|r| - 1] != '/')
  {
    var t := StripLeft(s);
    assert StripRight(t) == [] || StripRight(t)[0] == t[0];
    StripRight(t)
  }

  /** The list comprehension `[i for i in parts if i]`. */
  function NonEmpty(parts: seq<string>): (r: seq<string>)
    ensures forall x :: x in r <==> x in parts && x != []
    ensures |r| <= |parts|
  {
    if parts == [] then []
    else if parts[0] == [] then NonEmpty(parts[1..])
    else [parts[0]] + NonEmpty(parts[1..])
  }

  /** The names `lookup` descends through for `path` (gitfuse.py:72). */
  function Segments(path: string): (r: seq<string>)
    ensures forall x :: x in r ==> ValidName(x)
  {
    NonEmpty(Split(Strip(path)))
  }

  // ---------------------------------------------------------------------
  // Split and Join

  /** Splitting a slash-free string gives that string alone. */
  lemma {:induction false} SplitName(n: string)
    requires '/' !in n
    ensures Split(n) == [n]
  {
    if n != [] {
      SplitName(n[1..]);
      assert [n[0]] + n[1..] == n;
    }
  }

  /** Splitting a string whose first character is `c`: a slash starts a
      new piece, any other character goes in front of the first piece. */
  lemma SplitCons(c: char, t: string)
    ensures Split([c] + t) ==
      if c == '/' then [""] + Split(t) else [[c] + Split(t)[0]] + Split(t)[1..]
  {
    assert ([c] + t)[0] == c && ([c] + t)[1..] == t;
  }

  /** A slash in the middle splits into the pieces of both sides. */
  lemma {:induction false} SplitConcat(a: string, b: string)
    ensures Split(a + "/" + b) == Split(a) + Split(b)
  {
    if a == [] {
      assert a + "/" + b == ['/'] + b;
      SplitCons('/', b);
    } else {
      var t := a[1..];
      assert a == [a[0]] + t;
      assert a + "/" + b == [a[0]] + (t + "/" + b);
      SplitConcat(t, b);
      if a[0] == '/' {
        SplitSlashStep(t, b);
      } else {
        SplitCharStep(a[0], t, b);
      }
    }
  }

  /** The inductive step of SplitConcat for a leading slash. */
  lemma SplitSlashStep(t: string, b: string)
    requires Split(t + "/" + b) == Split(t) + Split(b)
    ensures Split(['/'] + (t + "/" + b)) == Split(['/'] + t) + Split(b)
  {
    SplitCons('/', t + "/" + b);
    SplitCons('/', t);
  }

  /** The inductive step of SplitConcat for a leading non-slash character. */
  lemma SplitCharStep(c: char, t: string, b: string)
    requires c != '/'
    requires Split(t + "/" + b) == Split(t) + Split(b)
    ensures Split([c] + (t + "/" + b)) == Split([c] + t) + Split(b)
  {
    SplitCons(c, t + "/" + b);
    SplitCons(c, t);
    PrependToFirst([c], Split(t), Split(b));
  }

  /** Putting `x` in front of the first piece of `l + r` is putting it in
      front of the first piece of `l`. */
  lemma PrependToFirst(x: string, l: seq<string>, r: seq<string>)
    requires |l| >= 1
    ensures [x + (l + r)[0]] + (l + r)[1..] == ([x + l[0]] + l[1..]) + r
  {
    assert (l + r)[0] == l[0];
    assert (l + r)[1..] == l[1..] + r;
  }

  /** Joining the pieces of a split restores the original string. */
  lemma {:induction false} JoinSplit(s: string)
    ensures Join(Split(s)) == s
  {
    if s == [] {
    } else if s[0] == '/' {
      JoinSplit(s[1..]);
      assert ([""] + Split(s[1..]))[1..] == Split(s[1..]);
      assert s == "" + "/" + s[1..];
    } else {
      JoinSplit(s[1..]);
      var rest := Split(s[1..]);
      var r := [[s[0]] + rest[0]] + rest[1..];
      if |rest| == 1 {
        assert s == [s[0]] + s[1..];
      } else {
        assert r[1..] == rest[1..];
        assert Join(rest) == rest[0] + "/" + Join(rest[1..]);
        assert s == [s[0]] + s[1..];
      }
    }
  }

  /** Splitting a join of slash-free pieces gives the pieces back. */
  lemma {:induction false} SplitJoin(parts: seq<string>)
    requires |parts| >= 1
    requires forall i :: 0 <= i < |parts| ==> '/' !in parts[i]
    ensures Split(Join(parts)) == parts
  {
    SplitName(parts[0]);
    if |parts| > 1 {
      SplitJoin(parts[1..]);
      SplitConcat(parts[0], Join(parts[1..]));
      assert parts == [parts[0]] + parts[1..];
    }
  }

  // ---------------------------------------------------------------------
  // NonEmpty

  lemma {:induction false} NonEmptyConcat(x: seq<string>, y: seq<string>)
    ensures NonEmpty(x + y) == NonEmpty(x) + NonEmpty(y)
  {
    if x != [] {
      assert (x + y)[0] == x[0];
      assert (x + y)[1..] == x[1..] + y;
      NonEmptyConcat(x[1..], y);
    } else {
      assert x + y == y;
    }
  }

  // ---------------------------------------------------------------------
  // Segments

  /** Stripping the leading slashes does not change the non-empty pieces. */
  lemma {:induction false} StripLeftKeepsPieces(s: string)
    ensures NonEmpty(Split(StripLeft(s))) == NonEmpty(Split(s))
  {
    if s != [] && s[0] == '/' {
      StripLeftKeepsPieces(s[1..]);
      assert Split(s) == [""] + Split(s[1..]);
      assert NonEmpty(Split(s)) == NonEmpty(Split(s[1..]));
    }
  }

  /** Stripping the trailing slashes does not change the non-empty pieces. */
  lemma {:induction false} StripRightKeepsPieces(s: string)
    ensures NonEmpty(Split(StripRight(s))) == NonEmpty(Split(s))
  {
    if s != [] && s[|s| - 1] == '/' {
      var t := s[..|s| - 1];
      StripRightKeepsPieces(t);
      assert s == t + "/" + "";
      SplitConcat(t, "");
      NonEmptyConcat(Split(t), [""]);
      assert NonEmpty([""]) == [];
      assert NonEmpty(Split(t)) + [] == NonEmpty(Split(t));
    }
  }

  /** The `strip('/')` in lookup is redundant: the segments are exactly the
      non-empty pieces of the unstripped path. */
  lemma SegmentsUnstripped(path: string)
    ensures Segments(path) == NonEmpty(Split(path))
  {
    StripLeftKeepsPieces(path);
    StripRightKeepsPieces(StripLeft(path));
  }

  /** The segments of a path joined by a slash are those of both sides. */
  lemma SegmentsConcat(a: string, b: string)
    ensures Segments(a + "/" + b) == Segments(a) + Segments(b)
  {
    SegmentsUnstripped(a + "/" + b);
    SegmentsUnstripped(a);
    SegmentsUnstripped(b);
    SplitConcat(a, b);
    NonEmptyConcat(Split(a), Split(b));
  }

  /** The root: both the empty path and "/" have no segments. */
  lemma SegmentsRoot()
    ensures Segments("") == []
    ensures Segments("/") == []
  {
    SegmentsUnstripped("");
    SegmentsUnstripped("/");
    assert Split("/") == ["", ""];
  }

  /** A leading slash is ignored. */
  lemma SegmentsLeadingSlash(p: string)
    ensures Segments("/" + p) == Segments(p)
  {
    var q := "/" + p;
    assert q[0] == '/' && q[1..] == p;
    assert Split(q) == [""] + Split(p);
    SegmentsUnstripped(q);
    SegmentsUnstripped(p);
  }

  /** A trailing slash is ignored. */
  lemma SegmentsTrailingSlash(p: string)
    ensures Segments(p + "/") == Segments(p)
  {
    SegmentsConcat(p, "");
    SegmentsRoot();
    assert p + "/" + "" == p + "/";
  }

  /** A doubled slash counts as one. */
  lemma SegmentsDoubleSlash(a: string, b: string)
    ensures Segments(a + "//" + b) == Segments(a + "/" + b)
  {
    var q := "/" + b;
    assert a + "//" + b == a + "/" + q;
    calc {
      Segments(a + "/" + q);
      { SegmentsConcat(a, q); }
      Segments(a) + Segments(q);
      { SegmentsLeadingSlash(b); }
      Segments(a) + Segments(b);
      { SegmentsConcat(a, b); }
      Segments(a + "/" + b);
    }
  }

  /** A single valid name is one segment. */
  lemma SegmentsName(n: string)
    requires ValidName(n)
    ensures Segments(n) == [n]
  {
    SegmentsUnstripped(n);
    SplitName(n);
  }

  /** Appending "/" and a valid name appends exactly that name. */
  lemma SegmentsAppendName(p: string, n: string)
    requires ValidName(n)
    ensures Segments(p + "/" + n) == Segments(p) + [n]
  {
    SegmentsConcat(p, n);
    SegmentsName(n);
  }
}
