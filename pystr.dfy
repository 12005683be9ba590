/**
  The pieces of Python's string library that the program relies on:
  the ordering of `str` values (used by `list.sort`), `str.split` with an
  explicit separator, joining parts with one separator character, and
  `str(n)` for an integer.
 */
module PyStr {

  /** Python's `a <= b` on strings: lexicographic by character code, a proper prefix first. */
  predicate LexLe(a: string, b: string)
  {
    |a| == 0 || (|b| > 0 && (a[0] < b[0] || (a[0] == b[0] && LexLe(a[1..], b[1..]))))
  }

  lemma {:induction false} LexLeTotal(a: string, b: string)
    ensures LexLe(a, b) || LexLe(b, a)
  {
    if |a| > 0 && |b| > 0 && a[0] == b[0] {
      LexLeTotal(a[1..], b[1..]);
    }
  }

  lemma {:induction false} LexLeReflexive(a: string)
    ensures LexLe(a, a)
  {
    if |a| > 0 {
      LexLeReflexive(a[1..]);
    }
  }

  lemma {:induction false} LexLeTransitive(a: string, b: string, c: string)
    requires LexLe(a, b) && LexLe(b, c)
    ensures LexLe(a, c)
  {
    if |a| > 0 && a[0] == b[0] && b[0] == c[0] {
      LexLeTransitive(a[1..], b[1..], c[1..]);
    }
  }

  lemma {:induction false} LexLeAntisymmetric(a: string, b: string)
    requires LexLe(a, b) && LexLe(b, a)
    ensures a == b
  {
    if |a| > 0 {
      LexLeAntisymmetric(a[1..], b[1..]);
      assert a == [a[0]] + a[1..];
      assert b == [b[0]] + b[1..];
    }
  }

  /** Every earlier element is at most every later one. */
  ghost predicate Sorted(s: seq<string>)
  {
    forall i, j :: 0 <= i < j < |s| ==> LexLe(s[i], s[j])
  }

  /** No value occurs twice. */
  ghost predicate Distinct<T>(s: seq<T>)
  {
    forall i, j :: 0 <= i < j < |s| ==> s[i] != s[j]
  }

  /** Puts `x` into the sorted sequence `s` before the first element it does not exceed. */
  function Insert(x: string, s: seq<string>): seq<string>
  {
    if s == [] then [x]
    else if LexLe(x, s[0]) then [x] + s
    else [s[0]] + Insert(x, s[1..])
  }

  lemma {:induction false} InsertPermutes(x: string, s: seq<string>)
    ensures multiset(Insert(x, s)) == multiset(s) + multiset{x}
  {
    if s != [] && !LexLe(x, s[0]) {
      InsertPermutes(x, s[1..]);
      assert s == [s[0]] + s[1..];
    }
  }

  /** A sorted sequence stays sorted behind a value no greater than any of its elements. */
  lemma SortedCons(h: string, s: seq<string>)
    requires Sorted(s) && forall k :: 0 <= k < |s| ==> LexLe(h, s[k])
    ensures Sorted([h] + s)
  {
  }

  lemma {:induction false} InsertSorted(x: string, s: seq<string>)
    requires Sorted(s)
    ensures Sorted(Insert(x, s))
  {
    if s != [] {
      if LexLe(x, s[0]) {
        forall j | 0 < j < |s| ensures LexLe(x, s[j]) {
          LexLeTransitive(x, s[0], s[j]);
        }
      } else {
        var rest := Insert(x, s[1..]);
        InsertSorted(x, s[1..]);
        InsertPermutes(x, s[1..]);
        LexLeTotal(x, s[0]);
        forall k | 0 <= k < |rest| ensures LexLe(s[0], rest[k]) {
          assert rest[k] in multiset(rest);
          if rest[k] != x {
            assert rest[k] in multiset(s[1..]);
            var j :| 0 <= j < |s[1..]| && s[1..][j] == rest[k];
            assert s[j + 1] == rest[k];
          }
        }
        SortedCons(s[0], rest);
      }
    }
  }

  lemma {:induction false} InsertDistinct(x: string, s: seq<string>)
    requires Distinct(s) && x !in s
    ensures Distinct(Insert(x, s))
  {
    if s != [] && !LexLe(x, s[0]) {
      var rest := Insert(x, s[1..]);
      InsertDistinct(x, s[1..]);
      InsertPermutes(x, s[1..]);
      assert s[0] !in multiset(rest) by {
        assert s[0] != x && s[0] !in multiset(s[1..]);
      }
      assert Insert(x, s) == [s[0]] + rest;
    }
  }

  /** Python's `list.sort()` on a list of strings, as insertion sort. */
  function SortStrings(s: seq<string>): seq<string>
  {
    if s == [] then [] else Insert(s[0], SortStrings(s[1..]))
  }

  /** Sorting keeps the values, each as often as it occurs. */
  lemma {:induction false} SortStringsPermutes(s: seq<string>)
    ensures multiset(SortStrings(s)) == multiset(s)
  {
    if s != [] {
      SortStringsPermutes(s[1..]);
      InsertPermutes(s[0], SortStrings(s[1..]));
      assert s == [s[0]] + s[1..];
    }
  }

  /** Sorting puts the values in ascending order. */
  lemma {:induction false} SortStringsSorted(s: seq<string>)
    ensures Sorted(SortStrings(s))
  {
    if s != [] {
      SortStringsSorted(s[1..]);
      InsertSorted(s[0], SortStrings(s[1..]));
    }
  }

  /** Sorting distinct values keeps them distinct. */
  lemma {:induction false} SortStringsDistinct(s: seq<string>)
    requires Distinct(s)
    ensures Distinct(SortStrings(s))
  {
    if s != [] {
      var tail := SortStrings(s[1..]);
      SortStringsDistinct(s[1..]);
      SortStringsPermutes(s[1..]);
      assert s[0] !in multiset(tail) by {
        assert s[0] !in s[1..];
      }
      InsertDistinct(s[0], tail);
    }
  }

  /** Sorting gives the same values in ascending order, and keeps them distinct if they were. */
  lemma SortStringsSpec(s: seq<string>)
    ensures multiset(SortStrings(s)) == multiset(s)
    ensures Sorted(SortStrings(s))
    ensures Distinct(s) ==> Distinct(SortStrings(s))
  {
    SortStringsPermutes(s);
    SortStringsSorted(s);
    if Distinct(s) {
      SortStringsDistinct(s);
    }
  }

  lemma SortedHeadsEqual(a: seq<string>, b: seq<string>)
    requires Sorted(a) && Sorted(b) && multiset(a) == multiset(b) && a != []
    ensures b != [] && a[0] == b[0]
  {
    assert a[0] in multiset(b);
    assert b != [] && b[0] in multiset(a);
    var i :| 0 <= i < |b| && b[i] == a[0];
    var j :| 0 <= j < |a| && a[j] == b[0];
    LexLeReflexive(a[0]);
    assert LexLe(b[0], a[0]) by { if i > 0 { assert LexLe(b[0], b[i]); } }
    assert LexLe(a[0], b[0]) by { if j > 0 { assert LexLe(a[0], a[j]); } }
    LexLeAntisymmetric(a[0], b[0]);
  }

  /** Sorting decides the order alone: two sorted permutations of one another are equal. */
  lemma {:induction false} SortedPermutationsEqual(a: seq<string>, b: seq<string>)
    requires Sorted(a) && Sorted(b) && multiset(a) == multiset(b)
    ensures a == b
  {
    if a != [] {
      SortedHeadsEqual(a, b);
      assert a == [a[0]] + a[1..] && b == [b[0]] + b[1..];
      assert multiset(a[1..]) == multiset(a) - multiset{a[0]};
      assert multiset(b[1..]) == multiset(b) - multiset{b[0]};
      SortedPermutationsEqual(a[1..], b[1..]);
    }
  }

  /** Sorting forgets the input order: lists that are permutations of one another sort alike. */
  lemma SortStringsOrderFree(s1: seq<string>, s2: seq<string>)
    requires multiset(s1) == multiset(s2)
    ensures SortStrings(s1) == SortStrings(s2)
  {
    SortStringsSpec(s1);
    SortStringsSpec(s2);
    SortedPermutationsEqual(SortStrings(s1), SortStrings(s2));
  }

  /** Python's `s.split(sep)` with an explicit one-character separator: empty parts are kept. */
  function Split(s: string, sep: char): (r: seq<string>)
    ensures |r| >= 1
    ensures sep in s ==> |r| >= 2
    ensures forall i :: 0 <= i < |r| ==> sep !in r[i]
  {
    if s == [] then [""]
    else
      var rest := Split(s[1..], sep);
      if s[0] == sep then [""] + rest
      else [[s[0]] + rest[0]] + rest[1..]
  }

  /** The parts with one `sep` between each two neighbours. */
  function JoinWith(parts: seq<string>, sep: char): string
  {
    if |parts| == 0 then ""
    else if |parts| == 1 then parts[0]
    else parts[0] + [sep] + JoinWith(parts[1..], sep)
  }

  /** Joining the parts of a split gives back the string. */
  lemma {:induction false} JoinSplit(s: string, sep: char)
    ensures JoinWith(Split(s, sep), sep) == s
  {
    if s != [] {
      var rest := Split(s[1..], sep);
      JoinSplit(s[1..], sep);
      if s[0] == sep {
        assert Split(s, sep) == [""] + rest;
        assert JoinWith([""] + rest, sep) == "" + [sep] + JoinWith(rest, sep);
        assert s == [s[0]] + s[1..];
      } else {
        var parts := [[s[0]] + rest[0]] + rest[1..];
        assert Split(s, sep) == parts;
        if |rest| == 1 {
          assert JoinWith(rest, sep) == rest[0];
        } else {
          assert JoinWith(rest, sep) == rest[0] + [sep] + JoinWith(rest[1..], sep);
          assert parts[1..] == rest[1..];
        }
        assert s == [s[0]] + s[1..];
      }
    }
  }

  /** A part free of the separator, followed by the separator, splits off as one part. */
  lemma {:induction false} SplitPrefix(a: string, rest: string, sep: char)
    requires sep !in a
    ensures Split(a + [sep] + rest, sep) == [a] + Split(rest, sep)
  {
    if a == [] {
      assert a + [sep] + rest == [sep] + rest;
      assert ([sep] + rest)[1..] == rest;
    } else {
      var s := a + [sep] + rest;
      assert s[1..] == a[1..] + [sep] + rest;
      SplitPrefix(a[1..], rest, sep);
      assert [a[0]] + a[1..] == a;
    }
  }

  /** A string free of the separator is a single part. */
  lemma {:induction false} SplitNoSep(a: string, sep: char)
    requires sep !in a
    ensures Split(a, sep) == [a]
  {
    if a != [] {
      SplitNoSep(a[1..], sep);
      assert [a[0]] + a[1..] == a;
    }
  }

  /** Splitting a join gives back the parts, when no part holds the separator. */
  lemma {:induction false} SplitJoin(parts: seq<string>, sep: char)
    requires |parts| >= 1
    requires forall i :: 0 <= i < |parts| ==> sep !in parts[i]
    ensures Split(JoinWith(parts, sep), sep) == parts
  {
    if |parts| == 1 {
      SplitNoSep(parts[0], sep);
    } else {
      SplitJoin(parts[1..], sep);
      SplitPrefix(parts[0], JoinWith(parts[1..], sep), sep);
      assert parts == [parts[0]] + parts[1..];
    }
  }

  /** Joining one more part adds a separator and the part at the end. */
  lemma {:induction false} JoinWithSnoc(parts: seq<string>, p: string, sep: char)
    requires parts != []
    ensures JoinWith(parts + [p], sep) == JoinWith(parts, sep) + [sep] + p
  {
    if |parts| == 1 {
      assert (parts + [p])[1..] == [p];
    } else {
      JoinWithSnoc(parts[1..], p, sep);
      assert (parts + [p])[1..] == parts[1..] + [p];
    }
  }

  /** Concatenation is associative. */
  lemma ConcatAssoc<T>(a: seq<T>, b: seq<T>, c: seq<T>)
    ensures (a + b) + c == a + (b + c)
  {
  }

  /**
    A sequence is what comes before position `i`, the element there, and
    what comes after; leaving the element out removes one occurrence of it.
   */
  lemma SplitAround<T>(s: seq<T>, i: nat)
    requires i < |s|
    ensures s == s[..i] + ([s[i]] + s[i + 1..])
    ensures multiset(s[..i] + s[i + 1..]) == multiset(s) - multiset{s[i]}
  {
    assert s[..i] + ([s[i]] + s[i + 1..]) == s[..i] + s[i..];
    assert s == s[..i] + [s[i]] + s[i + 1..];
  }

  /** Python's `s[:-1]`: the string without its last character; the empty string stays empty. */
  function DropLast(s: string): string
  {
    if s == [] then [] else s[..|s| - 1]
  }

  /** The string with every `from` replaced by `to`. */
  function Replace(s: string, from: char, to: char): (r: string)
    ensures |r| == |s|
    ensures forall i :: 0 <= i < |s| ==> r[i] == if s[i] == from then to else s[i]
  {
    if s == [] then [] else [if s[0] == from then to else s[0]] + Replace(s[1..], from, to)
  }

  /** Splitting on one character and joining on another replaces the one by the other. */
  lemma {:induction false} SplitJoinReplaces(s: string, from: char, to: char)
    ensures JoinWith(Split(s, from), to) == Replace(s, from, to)
  {
    if s != [] {
      var rest := Split(s[1..], from);
      SplitJoinReplaces(s[1..], from, to);
      if s[0] == from {
        assert JoinWith([""] + rest, to) == "" + [to] + JoinWith(rest, to);
      } else {
        var parts := [[s[0]] + rest[0]] + rest[1..];
        if |rest| == 1 {
          assert JoinWith(rest, to) == rest[0];
        } else {
          assert JoinWith(rest, to) == rest[0] + [to] + JoinWith(rest[1..], to);
          assert parts[1..] == rest[1..];
        }
      }
    }
  }

  /** Without a separator, the last (and only) part of a split is the whole string. */
  lemma SplitLastNoSep(s: string, sep: char)
    requires sep !in s
    ensures var parts := Split(s, sep); parts[|parts| - 1] == s
  {
    SplitNoSep(s, sep);
  }

  /** With a separator after the first character, the first character does not reach the last part. */
  lemma SplitLastOfTail(s: string, sep: char)
    requires s != [] && sep in s[1..]
    ensures var parts := Split(s, sep); var rest := Split(s[1..], sep);
      parts[|parts| - 1] == rest[|rest| - 1]
  {
  }

  /** The last part of a split is what follows the last separator. */
  lemma {:induction false} SplitLast(s: string, sep: char, k: nat)
    requires k < |s| && s[k] == sep && sep !in s[k + 1..]
    ensures var parts := Split(s, sep); parts[|parts| - 1] == s[k + 1..]
  {
    if k == 0 {
      assert s[1..] == s[k + 1..];
      SplitNoSep(s[1..], sep);
    } else {
      assert s[1..][k - 1] == sep;
      SplitLastOfTail(s, sep);
      assert s[1..][k..] == s[k + 1..];
      SplitLast(s[1..], sep, k - 1);
    }
  }

  /** The character for a decimal digit. */
  function DigitChar(d: nat): (c: char)
    requires d < 10
    ensures '0' <= c <= '9' && c as int - '0' as int == d
  {
    (d + '0' as int) as char
  }

  /** The decimal digits of `n`, most significant first, with no leading zero. */
  function Digits(n: nat): (r: string)
    ensures |r| >= 1
    ensures forall i :: 0 <= i < |r| ==> '0' <= r[i] <= '9'
    ensures r[0] == '0' ==> n == 0
  {
    if n < 10 then [DigitChar(n)] else Digits(n / 10) + [DigitChar(n % 10)]
  }

  /** Python's `str(n)` for an integer. */
  function IntToStr(n: int): (r: string)
    ensures |r| >= 1
    ensures r[0] == '-' <==> n < 0
  {
    if n < 0 then "-" + Digits(-n) else Digits(n)
  }

  /** The value of a run of decimal digits. */
  function DigitsValue(s: string): nat
    requires forall i :: 0 <= i < |s| ==> '0' <= s[i] <= '9'
  {
    if s == [] then 0 else DigitsValue(s[..|s| - 1]) * 10 + (s[|s| - 1] as int - '0' as int)
  }

  /** Python's `int(s)` for what `str` produces: an optional minus sign and decimal digits. */
  function ParseInt(s: string): int
    requires |s| >= 1
    requires forall i :: (if s[0] == '-' then 1 else 0) <= i < |s| ==> '0' <= s[i] <= '9'
  {
    if s[0] == '-' then 0 - DigitsValue(s[1..]) as int else DigitsValue(s)
  }

  lemma {:induction false} DigitsRoundTrip(n: nat)
    ensures DigitsValue(Digits(n)) == n
  {
    if n >= 10 {
      var s := Digits(n);
      DigitsRoundTrip(n / 10);
      assert s[..|s| - 1] == Digits(n / 10);
    }
  }

  /** Reading back `str(n)` gives `n`. */
  lemma IntToStrRoundTrip(n: int)
    ensures ParseInt(IntToStr(n)) == n
  {
    if n < 0 {
      DigitsRoundTrip(-n);
      assert IntToStr(n)[1..] == Digits(-n);
    } else {
      DigitsRoundTrip(n);
    }
  }
}
