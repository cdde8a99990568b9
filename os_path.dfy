/**
 * The parts of Python's `os.path` (POSIX flavour) that the core uses, and the
 * file-system queries it makes, given as an oracle.
 */
module OsPath {
  import opened Text

  /** What the core asks of the file system: `os.path.exists`, `os.path.isfile`, `os.path.getsize`. */
  datatype FileSystem = FileSystem(pathExists: string -> bool, isFile: string -> bool, size: string -> nat)

  /** An extension as `splitext` returns it: empty, or one dot followed by characters that are neither dot nor slash. */
  predicate IsExtension(ext: string) {
    ext == [] || (ext[0] == '.' && forall j :: 1 <= j < |ext| ==> ext[j] != '.' && ext[j] != '/')
  }

  /** `c` does not occur in `s`. */
  predicate Lacks(s: string, c: char) {
    forall j :: 0 <= j < |s| ==> s[j] != c
  }

  /** Some character of `s[lo..hi]` is not a dot. */
  predicate HasNonDot(s: string, lo: int, hi: int)
    requires 0 <= lo && hi <= |s|
  {
    exists k :: lo <= k < hi && s[k] != '.'
  }

  /**
   * `os.path.splitext(p)`: the extension starts at the last dot after the last
   * slash, provided some character between that slash and the dot is not a dot
   * (so leading dots of a base name such as ".bashrc" do not start an extension).
   */
  function SplitExt(p: string): (r: (string, string))
    ensures r.0 + r.1 == p
    ensures IsExtension(r.1)
  {
    var sep := RFind(p, '/');
    var dot := RFind(p, '.');
    if dot > sep && HasNonDot(p, sep + 1, dot) then (p[..dot], p[dot..]) else (p, [])
  }

  /** `os.path.basename(p)`: what follows the last slash. */
  function Basename(p: string): (r: string)
    ensures |r| <= |p| && r == p[|p| - |r|..]
    ensures Lacks(r, '/')
  {
    p[RFind(p, '/') + 1..]
  }

  predicate AllSlashes(s: string) {
    forall i :: 0 <= i < |s| ==> s[i] == '/'
  }

  /** `s.rstrip('/')`. */
  function TrimTrailingSlashes(s: string): (r: string)
    ensures |r| <= |s| && r == s[..|r|]
    ensures r == [] || r[|r| - 1] != '/'
    ensures AllSlashes(s[|r|..])
  {
    if s != [] && s[|s| - 1] == '/' then
      var r := TrimTrailingSlashes(s[..|s| - 1]);
      assert s[|r|..] == s[..|s| - 1][|r|..] + ['/'];
      r
    else s
  }

  /** `os.path.dirname(p)`: up to the last slash, with trailing slashes removed unless there is nothing but slashes. */
  function Dirname(p: string): (d: string)
    ensures |d| <= |p| && d == p[..|d|]
  {
    var head := p[..RFind(p, '/') + 1];
    if head != [] && !AllSlashes(head) then TrimTrailingSlashes(head) else head
  }

  /** `os.path.join(a, b)`: the joined path ends with `b`, and starts with `a` unless `b` is absolute. */
  function Join(a: string, b: string): (r: string)
    ensures |b| <= |r| && r[|r| - |b|..] == b
    ensures !StartsWith(b, "/") ==> |a| <= |r| && r[..|a|] == a
  {
    if StartsWith(b, "/") then b
    else if a == [] || EndsWith(a, "/") then a + b
    else a + "/" + b
  }

  /** Joining two texts without `c` gives a text without `c`. */
  lemma LacksConcat(a: string, b: string, c: char)
    requires Lacks(a, c) && Lacks(b, c)
    ensures Lacks(a + b, c)
  {
    forall j | 0 <= j < |a + b| ensures (a + b)[j] != c {
      if j < |a| {
        assert (a + b)[j] == a[j];
      } else {
        assert (a + b)[j] == b[j - |a|];
      }
    }
  }

  /** `RFind` is pinned down by its two defining facts. */
  lemma RFindUnique(s: string, c: char, k: int)
    requires -1 <= k < |s|
    requires k >= 0 ==> s[k] == c
    requires forall j :: k < j < |s| ==> s[j] != c
    ensures RFind(s, c) == k
  {
  }

  /** Appending text without `c` does not move the last `c`. */
  lemma RFindAppendLacking(x: string, y: string, c: char)
    requires Lacks(y, c)
    ensures RFind(x + y, c) == RFind(x, c)
  {
    var k := RFind(x, c);
    var s := x + y;
    forall j | k < j < |s| ensures s[j] != c {
      if j >= |x| {
        assert s[j] == y[j - |x|];
      }
    }
    RFindUnique(s, c, k);
  }

  /**
   * A stem whose last path component has some character other than a dot,
   * followed by a non-empty extension, is split back into the two.
   */
  lemma {:induction false} SplitExtOfStemAndExtension(stem: string, ext: string)
    requires HasNonDot(stem, RFind(stem, '/') + 1, |stem|)
    requires ext != [] && IsExtension(ext)
    ensures SplitExt(stem + ext) == (stem, ext)
  {
    var p := stem + ext;
    var rest := ext[1..];
    assert Lacks(rest, '.') && Lacks(rest, '/') by {
      forall j | 0 <= j < |rest| ensures rest[j] != '.' && rest[j] != '/' {
        assert rest[j] == ext[j + 1];
      }
    }
    var front := stem + ".";
    assert p == front + rest;
    RFindAppendLacking(front, rest, '.');
    RFindUnique(front, '.', |stem|);
    RFindAppendLacking(front, rest, '/');
    RFindAppendLacking(stem, ".", '/');
    var sep := RFind(stem, '/');
    var k :| sep + 1 <= k < |stem| && stem[k] != '.';
    assert p[k] == stem[k];
    assert p[..|stem|] == stem && p[|stem|..] == ext;
  }

  /** A dirname is empty, nothing but slashes, or ends in something other than a slash. */
  lemma DirnameShape(p: string)
    ensures var d := Dirname(p);
      d == [] || AllSlashes(d) || (d[|d| - 1] != '/' && !AllSlashes(d))
  {
    var head := p[..RFind(p, '/') + 1];
    if head != [] && !AllSlashes(head) {
      var d := TrimTrailingSlashes(head);
      var i :| 0 <= i < |head| && head[i] != '/';
      assert i < |d| by {
        forall j | |d| <= j < |head| ensures head[j] == '/' {
          assert head[|d|..][j - |d|] == head[j];
        }
      }
      assert d[i] == head[i];
    }
  }

  /** Joining a directory with a plain name and taking the base name gives the name back. */
  lemma {:induction false} BasenameOfJoin(d: string, b: string)
    requires b != [] && Lacks(b, '/')
    ensures Basename(Join(d, b)) == b
  {
    assert !StartsWith(b, "/") by { assert b[0] != '/'; }
    var prefix := if d == [] || EndsWith(d, "/") then d else d + "/";
    assert Join(d, b) == prefix + b;
    RFindAppendLacking(prefix, b, '/');
    if prefix == [] {
      assert RFind(prefix, '/') == -1;
    } else {
      assert prefix[|prefix| - 1] == '/';
      RFindUnique(prefix, '/', |prefix| - 1);
    }
  }

  /** A text that does not end in a slash has no trailing slashes to remove. */
  lemma TrimNothing(s: string)
    requires s == [] || s[|s| - 1] != '/'
    ensures TrimTrailingSlashes(s) == s
  {
  }

  /** The directory of a plain name is empty. */
  lemma DirnameOfPlainName(b: string)
    requires Lacks(b, '/')
    ensures Dirname(b) == []
  {
    RFindUnique(b, '/', -1);
  }

  /** The directory of a name under a directory made of slashes only is that directory. */
  lemma DirnameUnderSlashes(d: string, b: string)
    requires d != [] && AllSlashes(d) && Lacks(b, '/')
    ensures Dirname(d + b) == d
  {
    RFindAppendLacking(d, b, '/');
    RFindUnique(d, '/', |d| - 1);
    assert (d + b)[..|d|] == d;
  }

  /** The directory of `d + "/" + b`, for a directory `d` that is not all slashes and does not end in one, is `d`. */
  lemma DirnameUnderNamedDirectory(d: string, b: string)
    requires d != [] && !AllSlashes(d) && d[|d| - 1] != '/' && Lacks(b, '/')
    ensures Dirname(d + "/" + b) == d
  {
    var prefix := d + "/";
    assert d + "/" + b == prefix + b;
    RFindAppendLacking(prefix, b, '/');
    RFindUnique(prefix, '/', |prefix| - 1);
    assert (prefix + b)[..|prefix|] == prefix;
    assert !AllSlashes(prefix) by {
      var i :| 0 <= i < |d| && d[i] != '/';
      assert prefix[i] == d[i];
    }
    assert prefix[..|prefix| - 1] == d;
    TrimNothing(d);
  }

  /** Joining a dirname with a plain name and taking the dirname gives the same directory. */
  lemma DirnameOfJoin(p: string, b: string)
    requires b != [] && Lacks(b, '/')
    ensures Dirname(Join(Dirname(p), b)) == Dirname(p)
  {
    var d := Dirname(p);
    DirnameShape(p);
    assert !StartsWith(b, "/") by { assert b[0] != '/'; }
    if d == [] {
      DirnameOfPlainName(b);
    } else if AllSlashes(d) {
      assert EndsWith(d, "/") by { assert d[|d| - 1] == '/'; }
      DirnameUnderSlashes(d, b);
    } else {
      assert !EndsWith(d, "/") by { assert d[|d| - 1..] != "/"; }
      DirnameUnderNamedDirectory(d, b);
    }
  }
}
