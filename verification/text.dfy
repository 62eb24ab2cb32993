/**
 The string operations the command line tool relies on, stated over `seq<char>`:
 `replace` with a string pattern (first occurrence only), `replace` with a global
 regular expression that is an alternation of literal strings, and `join` with a
 one-character separator. LastIndex is the backward scan `path.parse` does for `/`
 and `.`; IndexOf is the search inside string-pattern `replace`; Split is not
 called by the tool and serves only as the inverse that states `join`'s round trip.
 */
module Text {

  /** `s.lastIndexOf(c)`: the last position holding `c`, or -1 when there is none. */
  function LastIndex(s: string, c: char): (r: int)
    ensures -1 <= r < |s|
    ensures r >= 0 ==> s[r] == c
    ensures forall k :: r < k < |s| ==> s[k] != c
  {
    if s == [] then -1
    else if s[|s| - 1] == c then |s| - 1
    else LastIndex(s[..|s| - 1], c)
  }

  /**
   The last occurrence in `a + b` is the last one in `b`, shifted, or, when `b`
   has none, the last one in `a`.
   */
  lemma {:induction false} LastIndexAppend(a: string, b: string, c: char)
    ensures LastIndex(a + b, c) == if LastIndex(b, c) >= 0 then |a| + LastIndex(b, c) else LastIndex(a, c)
    decreases |b|
  {
    if b == [] {
      assert a + b == a;
    } else {
      var t := a + b;
      assert t[|t| - 1] == b[|b| - 1];
      if b[|b| - 1] != c {
        assert t[..|t| - 1] == a + b[..|b| - 1];
        LastIndexAppend(a, b[..|b| - 1], c);
      }
    }
  }

  /** Without `c` in `s` there is no last occurrence. */
  lemma {:induction false} LastIndexAbsent(s: string, c: char)
    requires c !in s
    ensures LastIndex(s, c) == -1
    decreases |s|
  {
    if s != [] {
      assert c !in s[..|s| - 1];
      LastIndexAbsent(s[..|s| - 1], c);
    }
  }

  /** `pat` occurs in `s` starting at position `i`. */
  predicate OccursAt(s: string, pat: string, i: int) {
    0 <= i && i + |pat| <= |s| && s[i..i + |pat|] == pat
  }

  /** `s.indexOf(pat)`: the first position where `pat` occurs, or -1 when it never does. */
  function IndexOf(s: string, pat: string): (r: int)
    ensures -1 <= r <= |s|
    ensures r >= 0 ==> OccursAt(s, pat, r)
    ensures forall j :: 0 <= j <= |s| && (r < 0 || j < r) ==> !OccursAt(s, pat, j)
    decreases |s|
  {
    if |pat| <= |s| && s[..|pat|] == pat then 0
    else if s == [] then -1
    else
      var k := IndexOf(s[1..], pat);
      assert forall j :: 1 <= j <= |s| ==> (OccursAt(s, pat, j) <==> OccursAt(s[1..], pat, j - 1)) by {
        forall j | 1 <= j <= |s| ensures OccursAt(s, pat, j) <==> OccursAt(s[1..], pat, j - 1) {
          if j + |pat| <= |s| {
            assert s[j..j + |pat|] == s[1..][j - 1..j - 1 + |pat|];
          }
        }
      }
      if k < 0 then -1 else k + 1
  }

  /**
   `s.replace(pat, '')` with a string pattern: only the FIRST occurrence is removed.
   Putting `pat` back at the first occurrence gives `s` again.
   */
  function RemoveFirst(s: string, pat: string): (r: string)
    ensures IndexOf(s, pat) < 0 ==> r == s
    ensures IndexOf(s, pat) >= 0 ==>
      var i := IndexOf(s, pat);
      |r| == |s| - |pat| && r[..i] + pat + r[i..] == s
  {
    var i := IndexOf(s, pat);
    if i < 0 then s
    else
      assert s == s[..i] + s[i..i + |pat|] + s[i + |pat|..];
      s[..i] + s[i + |pat|..]
  }

  /** `pre` is a prefix of `s`. */
  predicate StartsWith(s: string, pre: string) {
    |pre| <= |s| && s[..|pre|] == pre
  }

  /** `suf` is a suffix of `s`. */
  predicate EndsWith(s: string, suf: string) {
    |suf| <= |s| && s[|s| - |suf|..] == suf
  }

  /**
   The alternative a regular expression `a0|a1|...` matches at the start of `s`:
   the index of the first alternative, in the order written, that is a prefix of `s`,
   or -1 when none is.
   */
  function FirstMatch(s: string, alts: seq<string>): (r: int)
    ensures -1 <= r < |alts|
    ensures r >= 0 ==> StartsWith(s, alts[r])
    ensures forall j :: 0 <= j < |alts| && (r < 0 || j < r) ==> !StartsWith(s, alts[j])
  {
    if alts == [] then -1
    else if StartsWith(s, alts[0]) then 0
    else
      var k := FirstMatch(s, alts[1..]);
      if k < 0 then -1 else k + 1
  }

  /**
   `s.replace(/a0|a1|.../g, '')` for literal alternatives: scanning from the left,
   at each position the first alternative that matches there is removed and the
   scan resumes after it; where none matches the character is kept. An empty
   alternative matches the empty string, which JavaScript replaces by nothing and
   steps over, so it keeps the character as well.
   */
  function ReplaceAll(s: string, alts: seq<string>): (r: string)
    ensures |r| <= |s|
    decreases |s|
  {
    if s == [] then []
    else
      var m := FirstMatch(s, alts);
      if m >= 0 && alts[m] != [] then ReplaceAll(s[|alts[m]|..], alts)
      else [s[0]] + ReplaceAll(s[1..], alts)
  }

  /** `parts.join(sep)` for a one-character separator. */
  function Join(parts: seq<string>, sep: char): string
  {
    if parts == [] then []
    else if |parts| == 1 then parts[0]
    else Join(parts[..|parts| - 1], sep) + [sep] + parts[|parts| - 1]
  }

  /**
   `s.split(sep)` for a one-character separator: never empty, no part holds the
   separator, and joining the parts again gives `s` back.
   */
  function Split(s: string, sep: char): (r: seq<string>)
    ensures |r| >= 1
    ensures forall i :: 0 <= i < |r| ==> sep !in r[i]
    ensures Join(r, sep) == s
    decreases |s|
  {
    var k := LastIndex(s, sep);
    if k < 0 then [s]
    else
      var front := Split(s[..k], sep);
      assert s == s[..k] + [sep] + s[k + 1..];
      front + [s[k + 1..]]
  }

  /** Splitting at the last separator: the part after it becomes the last part. */
  lemma SplitLast(j: string, last: string, sep: char)
    requires sep !in last
    ensures Split(j + [sep] + last, sep) == Split(j, sep) + [last]
  {
    var s := j + [sep] + last;
    LastIndexAppend(j + [sep], last, sep);
    assert s[..|j|] == j && s[|j| + 1..] == last;
  }

  /** Splitting undoes joining, as long as there is at least one part and no part holds the separator. */
  lemma {:induction false} SplitJoin(parts: seq<string>, sep: char)
    requires |parts| >= 1
    requires forall i :: 0 <= i < |parts| ==> sep !in parts[i]
    ensures Split(Join(parts, sep), sep) == parts
    decreases |parts|
  {
    if |parts| > 1 {
      var front := parts[..|parts| - 1];
      var last := parts[|parts| - 1];
      assert sep !in last;
      assert forall i :: 0 <= i < |front| ==> sep !in front[i] by {
        assert forall i :: 0 <= i < |front| ==> front[i] == parts[i];
      }
      calc {
        Split(Join(parts, sep), sep);
        Split(Join(front, sep) + [sep] + last, sep);
        { SplitLast(Join(front, sep), last, sep); }
        Split(Join(front, sep), sep) + [last];
        { SplitJoin(front, sep); }
        front + [last];
        parts;
      }
    }
  }

  /** Removing a piece never introduces a character that was not there. */
  lemma RemoveFirstKeepsOut(s: string, pat: string, c: char)
    requires c !in s
    ensures c !in RemoveFirst(s, pat)
  {
    var i := IndexOf(s, pat);
    if i >= 0 {
      var r := RemoveFirst(s, pat);
      assert r == s[..i] + s[i + |pat|..];
      assert forall k :: 0 <= k < |r| ==> r[k] in s;
    }
  }

  /**
   Every character ReplaceAll keeps comes from its input: the result is a sub-multiset
   of the input.
   */
  lemma {:induction false} ReplaceAllKeepsChars(s: string, alts: seq<string>)
    ensures multiset(ReplaceAll(s, alts)) <= multiset(s)
    decreases |s|
  {
    if s != [] {
      var m := FirstMatch(s, alts);
      if m >= 0 && alts[m] != [] {
        var n := |alts[m]|;
        ReplaceAllKeepsChars(s[n..], alts);
        assert s == s[..n] + s[n..];
        assert multiset(s) == multiset(s[..n]) + multiset(s[n..]);
      } else {
        ReplaceAllKeepsChars(s[1..], alts);
        assert s == [s[0]] + s[1..];
        assert multiset(s) == multiset([s[0]]) + multiset(s[1..]);
      }
    }
  }

  /** Every alternative starts with a dot. */
  predicate DotLed(alts: seq<string>) {
    forall i :: 0 <= i < |alts| ==> alts[i] != [] && alts[i][0] == '.'
  }

  /**
   When every alternative starts with a dot, a dot-free prefix passes through
   ReplaceAll untouched.
   */
  lemma {:induction false} ReplaceAllDotFreePrefix(p: string, s: string, alts: seq<string>)
    requires DotLed(alts)
    requires '.' !in p
    ensures ReplaceAll(p + s, alts) == p + ReplaceAll(s, alts)
    decreases |p|
  {
    if p != [] {
      var t := p + s;
      assert t[0] == p[0] != '.';
      assert FirstMatch(t, alts) < 0 by {
        forall j | 0 <= j < |alts| ensures !StartsWith(t, alts[j]) {
          assert alts[j][0] == '.';
        }
      }
      assert t[1..] == p[1..] + s;
      ReplaceAllDotFreePrefix(p[1..], s, alts);
      calc {
        ReplaceAll(t, alts);
        [t[0]] + ReplaceAll(t[1..], alts);
        [p[0]] + (p[1..] + ReplaceAll(s, alts));
        ([p[0]] + p[1..]) + ReplaceAll(s, alts);
        { assert [p[0]] + p[1..] == p; }
        p + ReplaceAll(s, alts);
      }
    } else {
      assert p + s == s;
    }
  }

  /** A string without dots is left unchanged by ReplaceAll with dot-led alternatives. */
  lemma ReplaceAllDotFree(s: string, alts: seq<string>)
    requires DotLed(alts)
    requires '.' !in s
    ensures ReplaceAll(s, alts) == s
  {
    ReplaceAllDotFreePrefix(s, [], alts);
    assert s + [] == s;
  }

  /**
   When the whole tail of the input is one alternative, and no earlier alternative
   matches there, the tail is removed.
   */
  lemma ReplaceAllOneAlternative(s: string, alts: seq<string>, i: nat)
    requires i < |alts| && alts[i] != []
    requires forall j :: 0 <= j < i ==> !StartsWith(s, alts[j])
    requires s == alts[i]
    ensures ReplaceAll(s, alts) == []
  {
    assert StartsWith(s, alts[i]);
    assert FirstMatch(s, alts) == i;
    assert s[|alts[i]|..] == [];
  }

  /** Two strings of which neither is a prefix of the other. */
  predicate Incomparable(a: string, b: string) {
    !StartsWith(a, b) && !StartsWith(b, a)
  }

  /** Two prefixes of one string are prefixes of each other. */
  lemma PrefixesCompare(s: string, a: string, b: string)
    ensures StartsWith(s, a) && StartsWith(s, b) ==> StartsWith(a, b) || StartsWith(b, a)
  {
    if StartsWith(s, a) && StartsWith(s, b) {
      if |a| <= |b| {
        assert b[..|a|] == s[..|a|];
      } else {
        assert a[..|b|] == s[..|b|];
      }
    }
  }

  /**
   When neither of two alternatives is a prefix of the other, at most one of them
   matches at any position, so their order in the alternation does not matter.
   */
  lemma {:induction false} AlternativesCommute(s: string, a: string, b: string)
    requires Incomparable(a, b)
    ensures ReplaceAll(s, [a, b]) == ReplaceAll(s, [b, a])
    decreases |s|
  {
    assert StartsWith(b, []) && StartsWith(a, []);
    if s != [] {
      PrefixesCompare(s, a, b);
      if StartsWith(s, a) {
        assert FirstMatch(s, [a, b]) == 0 && FirstMatch(s, [b, a]) == 1;
        AlternativesCommute(s[|a|..], a, b);
      } else if StartsWith(s, b) {
        assert FirstMatch(s, [a, b]) == 1 && FirstMatch(s, [b, a]) == 0;
        AlternativesCommute(s[|b|..], a, b);
      } else {
        assert FirstMatch(s, [a, b]) == -1 && FirstMatch(s, [b, a]) == -1;
        AlternativesCommute(s[1..], a, b);
      }
    }
  }

  /**
   An alternative in the middle of the text is removed and the scan carries on
   after it: the dot-free text before it is kept, in order.
   */
  lemma ReplaceAllMiddle(p: string, i: nat, s: string, alts: seq<string>)
    requires DotLed(alts) && '.' !in p
    requires i < |alts|
    requires forall j :: 0 <= j < i ==> !StartsWith(alts[i] + s, alts[j])
    ensures ReplaceAll(p + alts[i] + s, alts) == p + ReplaceAll(s, alts)
  {
    var t := alts[i] + s;
    assert p + alts[i] + s == p + t;
    ReplaceAllDotFreePrefix(p, t, alts);
    assert t[..|alts[i]|] == alts[i];
    assert FirstMatch(t, alts) == i;
    assert t[|alts[i]|..] == s;
  }
}
