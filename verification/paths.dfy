/**
 The subset of Node's POSIX `path` module the tool uses: `isAbsolute`, `join` of
 two segments, and the `dir` and `name` parts of `parse`, together with the rule
 the tool builds from them (resolve against the working directory, then rebuild
 the path from its directory and its name without the last extension).
 */
module Paths {
  import Text

  /** `isAbsolute(p)`: the path starts with the separator. */
  predicate IsAbsolute(p: string) {
    |p| > 0 && p[0] == '/'
  }

  /**
   `join(a, b)` for two segments: empty segments are dropped, the separator is
   put between the two unless `a` already ends with one, and joining nothing
   gives ".". The `.`/`..` normalisation of `join` is not modelled.
   */
  function Join(a: string, b: string): (r: string)
    ensures r != ""
    ensures a != "" ==> Text.StartsWith(r, a)
    ensures b != "" ==> Text.EndsWith(r, b)
    ensures a == "" || b == "" ==> r == a + b || r == "."
  {
    if a == "" then (if b == "" then "." else b)
    else if b == "" then a
    else if a[|a| - 1] == '/' then a + b
    else a + "/" + b
  }

  /** The last segment of `p`: everything after its last separator. */
  function Segment(p: string): (r: string)
    ensures '/' !in r
  {
    p[Text.LastIndex(p, '/') + 1..]
  }

  /**
   `parse(p).dir`: everything before the last separator; "/" when that separator
   is the leading one, "" when there is none.
   */
  function Dir(p: string): string {
    var k := Text.LastIndex(p, '/');
    if k < 0 then "" else if k == 0 then "/" else p[..k]
  }

  /**
   `parse(p).name`: the last segment without its last extension. A dot that
   opens the segment (".profile") and the segment ".." do not start an extension.
   */
  function Name(p: string): (r: string)
    ensures '/' !in r
  {
    WithoutExtension(Segment(p))
  }

  /** A segment without its last extension, by the rule `parse` applies. */
  function WithoutExtension(s: string): (r: string)
    ensures |r| <= |s| && r == s[..|r|]
    ensures r != s ==> s != ".." && |r| > 0 && s[|r|] == '.' && '.' !in s[|r| + 1..]
    ensures r == s ==> s == ".." || forall k :: 0 < k < |s| ==> s[k] != '.'
  {
    var d := Text.LastIndex(s, '.');
    if d <= 0 || s == ".." then s else s[..d]
  }

  /** `join(parse(p).dir, parse(p).name)`: the path without the last extension of its last segment. */
  function Base(p: string): string {
    Join(Dir(p), Name(p))
  }

  /**
   `isAbsolute(arg) ? arg : join(cwd, arg)`: an absolute argument is kept as it is,
   a relative one is put under the working directory. The result is absolute when
   the working directory is, and a non-empty argument keeps its last segment.
   */
  function Resolve(cwd: string, arg: string): (r: string)
    ensures IsAbsolute(arg) ==> r == arg
    ensures !IsAbsolute(arg) && cwd != "" ==> Text.StartsWith(r, cwd)
    ensures !IsAbsolute(arg) && arg != "" ==> Text.EndsWith(r, arg)
    ensures IsAbsolute(cwd) ==> IsAbsolute(r)
    ensures arg != "" ==> Segment(r) == Segment(arg)
  {
    if IsAbsolute(arg) then arg
    else
      JoinKeepsSegment(cwd, arg);
      Join(cwd, arg)
  }

  /** Joining a non-empty segment onto a directory keeps that segment's last part. */
  lemma JoinKeepsSegment(a: string, b: string)
    ensures b != "" ==> Segment(Join(a, b)) == Segment(b)
  {
    if b != "" && a != "" {
      if a[|a| - 1] == '/' {
        SegmentAfterSeparator(a, b);
      } else {
        SegmentAfterSeparator(a + "/", b);
        assert a + "/" + b == (a + "/") + b;
      }
    }
  }

  /** Behind a separator (or at the start) the last segment of `a + b` is that of `b`. */
  lemma SegmentAfterSeparator(a: string, b: string)
    requires a == "" || a[|a| - 1] == '/'
    ensures Segment(a + b) == Segment(b)
  {
    var k := Text.LastIndex(b, '/');
    assert Text.LastIndex(a + b, '/') == |a| + k by {
      Text.LastIndexAppend(a, b, '/');
      assert Text.LastIndex(a, '/') == |a| - 1;
    }
    assert (a + b)[|a| + k + 1..] == b[k + 1..];
  }

  /** Appending separator-free text extends the last segment and keeps the directory. */
  lemma ExtendSegment(p: string, ext: string)
    requires '/' !in ext
    ensures Segment(p + ext) == Segment(p) + ext
    ensures Dir(p + ext) == Dir(p)
  {
    var q := p + ext;
    var k := Text.LastIndex(p, '/');
    assert Text.LastIndex(q, '/') == k by {
      Text.LastIndexAbsent(ext, '/');
      Text.LastIndexAppend(p, ext, '/');
    }
    assert q[k + 1..] == p[k + 1..] + ext;
    if k > 0 {
      assert q[..k] == p[..k];
    }
  }

  /** A non-empty dot-free segment with one extension added loses exactly that extension. */
  lemma DropAddedExtension(s: string, ext: string)
    requires s != "" && '.' !in s
    requires |ext| >= 1 && ext[0] == '.' && '.' !in ext[1..]
    ensures WithoutExtension(s + ext) == s
    ensures WithoutExtension(s) == s
  {
    var u := s + ext;
    assert Text.LastIndex(u, '.') == |s| by {
      Text.LastIndexAbsent(ext[1..], '.');
      assert u == (s + [ext[0]]) + ext[1..];
      Text.LastIndexAppend(s + [ext[0]], ext[1..], '.');
    }
    assert u != ".." by {
      assert u[0] == s[0] != '.';
    }
    assert u[..|s|] == s;
    Text.LastIndexAbsent(s, '.');
  }

  /**
   Adding one extension to a path whose last segment is non-empty and dot-free
   does not change its directory or its name, so Base is the same: the probe base
   of `x`, `x.yaml` and `x.yml` is one and the same.
   */
  lemma BaseIgnoresExtension(p: string, ext: string)
    requires Segment(p) != "" && '.' !in Segment(p)
    requires |ext| >= 1 && ext[0] == '.' && '.' !in ext[1..] && '/' !in ext
    ensures Dir(p + ext) == Dir(p)
    ensures Name(p + ext) == Name(p) == Segment(p)
    ensures Base(p + ext) == Base(p)
  {
    ExtendSegment(p, ext);
    DropAddedExtension(Segment(p), ext);
  }

  /** Text appended to a non-empty second segment ends up at the end of the join. */
  lemma JoinAppend(a: string, b: string, e: string)
    requires b != ""
    ensures Join(a, b + e) == Join(a, b) + e
  {
    if a != "" && a[|a| - 1] == '/' {
      assert a + (b + e) == (a + b) + e;
    } else if a != "" {
      assert a + "/" + (b + e) == (a + "/" + b) + e;
    }
  }

  /**
   A relative single-segment argument lands directly under the working directory:
   the directory part of the resolved path is the working directory itself.
   */
  lemma ResolveUnderCwd(cwd: string, n: string)
    requires IsAbsolute(cwd) && (cwd == "/" || cwd[|cwd| - 1] != '/')
    requires n != "" && '/' !in n
    ensures Dir(Resolve(cwd, n)) == cwd
  {
    assert !IsAbsolute(n);
    Text.LastIndexAbsent(n, '/');
    if cwd == "/" {
      assert Resolve(cwd, n) == "/" + n;
      Text.LastIndexAppend("/", n, '/');
    } else {
      var head := cwd + "/";
      assert Resolve(cwd, n) == head + n;
      Text.LastIndexAppend(head, n, '/');
      assert (head + n)[..|cwd|] == cwd;
    }
  }

  /** Any non-empty segment loses exactly one added last extension, dots before it included. */
  lemma DropLastExtension(s: string, ext: string)
    requires s != "" && |ext| >= 2 && ext[0] == '.' && '.' !in ext[1..]
    ensures WithoutExtension(s + ext) == s
  {
    var u := s + ext;
    assert Text.LastIndex(u, '.') == |s| by {
      Text.LastIndexAbsent(ext[1..], '.');
      assert u == (s + [ext[0]]) + ext[1..];
      Text.LastIndexAppend(s + [ext[0]], ext[1..], '.');
    }
    assert u[..|s|] == s;
  }

  /**
   Only the last extension goes: adding one to a path with a non-empty last
   segment gives back that segment as the name and keeps the directory, so the
   base is the directory joined with that segment (BaseDropsLastExtension shows
   that this is the path itself).
   */
  lemma NameDropsLastExtension(p: string, ext: string)
    requires Segment(p) != ""
    requires |ext| >= 2 && ext[0] == '.' && '.' !in ext[1..] && '/' !in ext
    ensures Name(p + ext) == Segment(p)
    ensures Dir(p + ext) == Dir(p)
    ensures Base(p + ext) == Join(Dir(p), Segment(p))
  {
    ExtendSegment(p, ext);
    DropLastExtension(Segment(p), ext);
  }

  /** No two separators in a row: the form every path `join` or `resolve` returns. */
  predicate NoDoubleSeparator(p: string) {
    forall i :: 0 < i < |p| ==> !(p[i - 1] == '/' && p[i] == '/')
  }

  /**
   A path with a non-empty last segment and no doubled separator is rebuilt by
   joining its directory and its last segment.
   */
  lemma JoinDirSegment(p: string)
    requires Segment(p) != "" && NoDoubleSeparator(p)
    ensures Join(Dir(p), Segment(p)) == p
  {
    var k := Text.LastIndex(p, '/');
    if k == 0 {
      assert p == "/" + p[1..];
    } else if k > 0 {
      assert p[k - 1] != '/';
      assert p == p[..k] + "/" + p[k + 1..];
    }
  }

  /**
   The probe base drops only the last extension: for a path with a non-empty
   last segment and no doubled separator, the base of the path with one
   extension added is the path itself, so the base of `/d/a.tar.yaml` is `/d/a.tar`.
   */
  lemma BaseDropsLastExtension(p: string, ext: string)
    requires Segment(p) != "" && NoDoubleSeparator(p)
    requires |ext| >= 2 && ext[0] == '.' && '.' !in ext[1..] && '/' !in ext
    ensures Base(p + ext) == p
  {
    NameDropsLastExtension(p, ext);
    JoinDirSegment(p);
  }
}
