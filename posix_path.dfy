/**
  The two `os.path` operations the traversal uses, as POSIX Python defines
  them: `join` of a directory and one entry name, and the extension part of
  `splitext`.
 */
module PosixPath {
  import opened Wrappers

  /** A name as `os.listdir` returns it: not empty, and without a separator. */
  predicate ValidName(n: string)
  {
    n != "" && '/' !in n
  }

  /** What `join` puts in front of a relative component: the directory, with a separator unless it already ends in one or is empty. */
  function DirPrefix(a: string): string
  {
    if a == "" || a[|a| - 1] == '/' then a else a + "/"
  }

  /** `os.path.join(a, b)`: an absolute `b` replaces `a`. */
  function Join(a: string, b: string): string
  {
    if |b| > 0 && b[0] == '/' then b
    else DirPrefix(a) + b
  }

  /**
    Joining a name to a directory keeps the directory, adds at most one
    character, and ends in the name with a separator right before it; the
    empty directory gives the name alone.
   */
  lemma JoinLayout(a: string, b: string)
    requires ValidName(b)
    ensures var r := Join(a, b);
      |a| + |b| <= |r| <= |a| + 1 + |b| && r[..|a|] == a && r[|r| - |b|..] == b &&
      (a != "" ==> r[|r| - |b| - 1] == '/') &&
      (a == "" ==> r == b)
  {
  }

  /** Path `r` is directory `q` itself or lies below it. */
  ghost predicate Under(q: string, r: string)
  {
    r == q || (|r| > |q| && r[..|q|] == q && r[|q|] == '/')
  }

  /** Path `r` is directory `q` itself or lies somewhere below it, `q` written with or without a trailing separator. */
  ghost predicate Within(q: string, r: string)
  {
    r == q || (|r| > |DirPrefix(q)| && r[..|DirPrefix(q)|] == DirPrefix(q))
  }

  /** Below the path of an entry is strictly below its directory. */
  lemma ChildWithin(a: string, n: string, r: string)
    requires ValidName(n)
    requires Within(Join(a, n), r)
    ensures Under(DirPrefix(a) + n, r)
    ensures Within(a, r) && r != a
  {
  }

  /** Two entries of one directory with different names have different paths. */
  lemma JoinInjective(a: string, n1: string, n2: string)
    requires ValidName(n1) && ValidName(n2) && n1 != n2
    ensures Join(a, n1) != Join(a, n2)
  {
    var p := DirPrefix(a);
    assert n1 == (p + n1)[|p|..];
    assert n2 == (p + n2)[|p|..];
  }

  /** The leading part of `s` up to its first separator. */
  function FirstSegment(s: string): string
  {
    if s == [] || s[0] == '/' then [] else [s[0]] + FirstSegment(s[1..])
  }

  /** A name with nothing or a separator after it is the first segment. */
  lemma {:induction false} FirstSegmentOf(a: string, s: string)
    requires '/' !in a
    requires s == a || (|s| > |a| && s[..|a|] == a && s[|a|] == '/')
    ensures FirstSegment(s) == a
  {
    if a != [] {
      assert s[0] == a[0];
      FirstSegmentOf(a[1..], s[1..]);
      assert a == [a[0]] + a[1..];
    }
  }

  /**
    Paths below two different entries of one directory differ: the name of
    the first component after the directory's prefix is fixed by the path.
   */
  lemma SegmentsDiffer(p: string, a: string, b: string, r1: string, r2: string)
    requires ValidName(a) && ValidName(b) && a != b
    requires Under(p + a, r1) && Under(p + b, r2)
    ensures r1 != r2
  {
    AfterPrefix(p, a, r1);
    AfterPrefix(p, b, r2);
    FirstSegmentOf(a, r1[|p|..]);
    FirstSegmentOf(b, r2[|p|..]);
  }

  /** A path below `p + a` starts with `p`, and what follows is `a` or lies below it. */
  lemma AfterPrefix(p: string, a: string, r: string)
    requires Under(p + a, r)
    ensures |r| >= |p| && r[..|p|] == p
    ensures var t := r[|p|..]; t == a || (|t| > |a| && t[..|a|] == a && t[|a|] == '/')
  {
  }

  /** The index of the last `c` in `s` (Python's `rfind`, with None for -1). */
  function RFind(s: string, c: char): (r: Option<nat>)
    ensures r.None? ==> c !in s
    ensures r.Some? ==> r.value < |s| && s[r.value] == c && c !in s[r.value + 1..]
  {
    if s == [] then None
    else if s[|s| - 1] == c then Some(|s| - 1)
    else
      var r := RFind(s[..|s| - 1], c);
      assert r.Some? ==> s[r.value + 1..] == s[..|s| - 1][r.value + 1..] + [s[|s| - 1]];
      assert r.None? ==> s == s[..|s| - 1] + [s[|s| - 1]];
      r
  }

  /** The index of an occurrence with no other after it is what `rfind` returns. */
  lemma {:induction false} RFindLast(s: string, c: char, i: nat)
    requires i < |s| && s[i] == c && c !in s[i + 1..]
    ensures RFind(s, c) == Some(i)
  {
  }

  /**
    The extension `os.path.splitext(p)` splits off: from the last dot of the
    last path component to the end, provided something other than a dot
    stands before that dot in the component; otherwise empty.
   */
  function Extension(p: string): string
  {
    var sep := RFind(p, '/');
    var dot := RFind(p, '.');
    var start := if sep.Some? then sep.value + 1 else 0;
    if dot.Some? && dot.value >= start && exists k :: start <= k < dot.value && p[k] != '.'
    then p[dot.value..]
    else ""
  }

  /**
    For an entry name, `splitext` yields a given dotted extension exactly
    when the name ends in it and does not consist of dots up to it: so
    `a.mp3` and `..a.mp3` have the extension `.mp3`, and `.mp3` has none.
   */
  lemma ExtensionOfName(name: string, e: string)
    requires '/' !in name
    requires |e| >= 1 && e[0] == '.' && '.' !in e[1..] && '/' !in e
    ensures Extension(name) == e <==>
      (|name| > |e| && name[|name| - |e|..] == e && exists k :: 0 <= k < |name| - |e| && name[k] != '.')
  {
  }
}
