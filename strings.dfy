/** String operations the pages, routes and backend rely on: trimming with
    JavaScript's or Python's notion of whitespace, ASCII lower-casing,
    substring search, and splitting and joining on a separator. */
module Strings {

  /** Whose whitespace: JavaScript (`\s`, `String.prototype.trim`) or Python (`str.strip`). */
  datatype Flavor = Js | Py

  /** The characters JavaScript's `\s` and `trim()` treat as white space and line terminators. */
  predicate IsJsSpace(c: char) {
    || c in {'\t', '\n', '\U{000B}', '\U{000C}', '\r', ' ', '\U{00A0}', '\U{1680}'}
    || ('\U{2000}' <= c <= '\U{200A}')
    || c in {'\U{2028}', '\U{2029}', '\U{202F}', '\U{205F}', '\U{3000}', '\U{FEFF}'}
  }

  /** The characters Python's `str.isspace()` (and so `str.strip()`) accepts.
      They differ from JavaScript's: U+001C..U+001F and U+0085 are Python
      whitespace, U+FEFF is not. */
  predicate IsPySpace(c: char) {
    || c in {'\t', '\n', '\U{000B}', '\U{000C}', '\r', ' ', '\U{0085}', '\U{00A0}', '\U{1680}'}
    || ('\U{001C}' <= c <= '\U{001F}')
    || ('\U{2000}' <= c <= '\U{200A}')
    || c in {'\U{2028}', '\U{2029}', '\U{202F}', '\U{205F}', '\U{3000}'}
  }

  predicate IsSpace(f: Flavor, c: char) {
    match f
    case Js => IsJsSpace(c)
    case Py => IsPySpace(c)
  }

  predicate AllSpace(f: Flavor, s: string) {
    forall i :: 0 <= i < |s| ==> IsSpace(f, s[i])
  }

  /** Neither end of `s` is whitespace. */
  predicate IsTrimmed(f: Flavor, s: string) {
    s == [] || (!IsSpace(f, s[0]) && !IsSpace(f, s[|s| - 1]))
  }

  function TrimStart(f: Flavor, s: string): (r: string)
    ensures |r| <= |s| && r == s[|s| - |r|..]
    ensures r == [] || !IsSpace(f, r[0])
    ensures AllSpace(f, s[..|s| - |r|])
  {
    if s != [] && IsSpace(f, s[0]) then TrimStart(f, s[1..]) else s
  }

  function TrimEnd(f: Flavor, s: string): (r: string)
    ensures |r| <= |s| && r == s[..|r|]
    ensures r == [] || !IsSpace(f, r[|r| - 1])
    ensures AllSpace(f, s[|r|..])
  {
    if s != [] && IsSpace(f, s[|s| - 1]) then
      var r := TrimEnd(f, s[..|s| - 1]);
      assert s[|r|..] == s[..|s| - 1][|r|..] + [s[|s| - 1]];
      r
    else s
  }

  /** How many whitespace characters `trim` removes from the front of `s`. */
  function LeadingSpaces(f: Flavor, s: string): (n: nat)
    ensures n <= |s| && AllSpace(f, s[..n])
    ensures n == |s| || !IsSpace(f, s[n])
  {
    |s| - |TrimStart(f, s)|
  }

  /** `s.trim()` (Js) or `s.strip()` (Py): the longest slice of `s` whose ends are not whitespace. */
  function Trim(f: Flavor, s: string): (r: string)
    ensures IsTrimmed(f, r)
    ensures r == [] <==> AllSpace(f, s)
    ensures LeadingSpaces(f, s) + |r| <= |s|
    ensures r == s[LeadingSpaces(f, s)..LeadingSpaces(f, s) + |r|]
    ensures AllSpace(f, s[LeadingSpaces(f, s) + |r|..])
    ensures IsTrimmed(f, s) ==> r == s
  {
    var t := TrimStart(f, s);
    var r := TrimEnd(f, t);
    TrimHalves(f, s, t, r);
    assert LeadingSpaces(f, s) == |s| - |t|;
    r
  }

  /** The two halves of `trim` put together: `t` is `s` without its leading
      white space and `r` is `t` without its trailing white space. */
  lemma TrimHalves(f: Flavor, s: string, t: string, r: string)
    requires |t| <= |s| && t == s[|s| - |t|..] && (t == [] || !IsSpace(f, t[0])) && AllSpace(f, s[..|s| - |t|])
    requires |r| <= |t| && r == t[..|r|] && (r == [] || !IsSpace(f, r[|r| - 1])) && AllSpace(f, t[|r|..])
    ensures var n := |s| - |t|;
      && IsTrimmed(f, r) && n + |r| <= |s| && r == s[n..n + |r|] && AllSpace(f, s[n + |r|..])
      && (r == [] <==> AllSpace(f, s)) && (IsTrimmed(f, s) ==> r == s)
  {
    var n := |s| - |t|;
    assert t != [] ==> t[0] == s[n];
    assert r != [] ==> r[0] == t[0];
    assert r == s[n..n + |r|];
    SpaceAfter(f, s, t, r);
    TrimParts(f, s, n, r);
  }

  /** The facts about `trim` from its two halves: `s` is white space up to
      `n`, then `r`, then white space, and `r` has no white space at either end. */
  lemma TrimParts(f: Flavor, s: string, n: nat, r: string)
    requires n + |r| <= |s| && AllSpace(f, s[..n]) && (n == |s| || !IsSpace(f, s[n]))
    requires r == s[n..n + |r|] && AllSpace(f, s[n + |r|..]) && IsTrimmed(f, r)
    ensures r == [] <==> AllSpace(f, s)
    ensures IsTrimmed(f, s) ==> r == s
  {
    assert r != [] ==> r[0] == s[n];
    assert n + |r| < |s| ==> s[n + |r|..][0] == s[n + |r|];
    assert n + |r| < |s| ==> s[n + |r|..][|s| - 1 - n - |r|] == s[|s| - 1];
    assert 0 < n ==> s[..n][0] == s[0];
    assert n == |s| ==> s[..n] == s;
  }

  lemma SpaceAfter(f: Flavor, s: string, t: string, r: string)
    requires |t| <= |s| && t == s[|s| - |t|..]
    requires |r| <= |t| && AllSpace(f, t[|r|..])
    ensures AllSpace(f, s[|s| - |t| + |r|..])
  {
    assert s[|s| - |t| + |r|..] == t[|r|..];
  }

  /** The number of white-space characters of `line` from position `p` on: what a greedy `\s*` consumes. */
  function SpaceRun(f: Flavor, line: string, p: nat): (n: nat)
    requires p <= |line|
    ensures p + n <= |line|
    ensures AllSpace(f, line[p..p + n])
    ensures p + n == |line| || !IsSpace(f, line[p + n])
    decreases |line| - p
  {
    if p < |line| && IsSpace(f, line[p]) then
      var rest := SpaceRun(f, line, p + 1);
      assert line[p..p + 1 + rest] == [line[p]] + line[p + 1..p + 1 + rest];
      1 + rest
    else 0
  }

  /** A run of exactly `n` white-space characters followed by another character. */
  lemma {:induction false} SpaceRunExact(f: Flavor, line: string, p: nat, n: nat)
    requires p + n < |line| && AllSpace(f, line[p..p + n]) && !IsSpace(f, line[p + n])
    ensures SpaceRun(f, line, p) == n
    decreases n
  {
    if n > 0 {
      assert line[p..p + n][0] == line[p];
      assert line[p + 1..p + 1 + (n - 1)] == line[p..p + n][1..];
      SpaceRunExact(f, line, p + 1, n - 1);
    }
  }

  /** Trimming twice trims nothing more. */
  lemma TrimIdempotent(f: Flavor, s: string)
    ensures Trim(f, Trim(f, s)) == Trim(f, s)
  {
  }

  /** JavaScript's `toLowerCase` on the ASCII letters. */
  function LowerChar(c: char): (r: char)
    ensures 'A' <= c <= 'Z' ==> r as int == c as int + 32
    ensures !('A' <= c <= 'Z') ==> r == c
  {
    if 'A' <= c <= 'Z' then (c as int + 32) as char else c
  }

  function Lower(s: string): (r: string)
    ensures |r| == |s|
    ensures forall i :: 0 <= i < |s| ==> r[i] == LowerChar(s[i])
  {
    if s == [] then [] else [LowerChar(s[0])] + Lower(s[1..])
  }

  predicate StartsWith(s: string, prefix: string) {
    |prefix| <= |s| && s[..|prefix|] == prefix
  }

  predicate EndsWith(s: string, suffix: string) {
    |suffix| <= |s| && s[|s| - |suffix|..] == suffix
  }

  /** `haystack.includes(needle)`: `needle` occurs at some position of `haystack`. */
  predicate Contains(haystack: string, needle: string) {
    exists i :: 0 <= i <= |haystack| - |needle| && OccursAt(haystack, needle, i)
  }

  predicate OccursAt(haystack: string, needle: string, i: int) {
    0 <= i <= |haystack| - |needle| && haystack[i..i + |needle|] == needle
  }

  /** `parts.join(sep)`. */
  function Join(parts: seq<string>, sep: string): string {
    if parts == [] then ""
    else if |parts| == 1 then parts[0]
    else parts[0] + sep + Join(parts[1..], sep)
  }

  /** `s.split(sep)` for a one-character separator: the maximal runs of
      characters other than `sep`, in order; there is always at least one. */
  function Split(s: string, sep: char): (r: seq<string>)
    ensures |r| >= 1
    ensures forall i :: 0 <= i < |r| ==> sep !in r[i]
  {
    if s == [] then [""]
    else
      var rest := Split(s[1..], sep);
      if s[0] == sep then [""] + rest
      else [[s[0]] + rest[0]] + rest[1..]
  }

  /** Splitting and joining again with the same separator gives back the input. */
  lemma {:induction false} JoinSplit(s: string, sep: char)
    ensures Join(Split(s, sep), [sep]) == s
  {
    if s != [] {
      JoinSplit(s[1..], sep);
      var rest := Split(s[1..], sep);
      if s[0] != sep {
        if |rest| > 1 {
          assert Join(rest, [sep]) == rest[0] + [sep] + Join(rest[1..], [sep]);
        }
      }
    }
  }

  /** Splitting a join of separator-free parts gives back the parts. */
  lemma {:induction false} SplitJoin(parts: seq<string>, sep: char)
    requires |parts| >= 1
    requires forall i :: 0 <= i < |parts| ==> sep !in parts[i]
    ensures Split(Join(parts, [sep]), sep) == parts
  {
    if |parts| == 1 {
      SplitNoSep(parts[0], sep);
    } else {
      SplitJoin(parts[1..], sep);
      SplitAfter(parts[0], sep, Join(parts[1..], [sep]));
    }
  }

  lemma {:induction false} SplitNoSep(s: string, sep: char)
    requires sep !in s
    ensures Split(s, sep) == [s]
  {
    if s != [] {
      assert sep !in s[1..] by {
        assert forall c :: c in s[1..] ==> c in s;
      }
      SplitNoSep(s[1..], sep);
      assert [s[0]] + s[1..] == s;
    }
  }

  lemma {:induction false} SplitAfter(a: string, sep: char, b: string)
    requires sep !in a
    ensures Split(a + [sep] + b, sep) == [a] + Split(b, sep)
  {
    if a != [] {
      assert (a + [sep] + b)[1..] == a[1..] + [sep] + b;
      assert sep !in a[1..] by {
        assert forall c :: c in a[1..] ==> c in a;
      }
      SplitAfter(a[1..], sep, b);
      assert [a[0]] + a[1..] == a;
    } else {
      assert (a + [sep] + b)[1..] == b;
    }
  }

  /** A join of non-empty parts starts with the first part's first character
      and ends with the last part's last character. */
  lemma {:induction false} JoinEnds(parts: seq<string>, sep: string)
    requires |parts| >= 1
    requires forall i :: 0 <= i < |parts| ==> parts[i] != []
    ensures |Join(parts, sep)| > 0
    ensures Join(parts, sep)[0] == parts[0][0]
    ensures Join(parts, sep)[|Join(parts, sep)| - 1] == parts[|parts| - 1][|parts[|parts| - 1]| - 1]
  {
    if |parts| > 1 {
      JoinEnds(parts[1..], sep);
    }
  }

  /** `xs` is `ys` with some elements left out, the rest in their order. */
  predicate IsSubsequence<T(==)>(xs: seq<T>, ys: seq<T>)
    decreases |ys|
  {
    if xs == [] then true
    else if ys == [] then false
    else if xs[0] == ys[0] then IsSubsequence(xs[1..], ys[1..])
    else IsSubsequence(xs, ys[1..])
  }

  lemma {:induction false} SubsequenceTail<T>(xs: seq<T>, ys: seq<T>)
    requires xs != [] && IsSubsequence(xs, ys)
    ensures IsSubsequence(xs[1..], ys)
    decreases |xs| + |ys|, 0
  {
    if xs[0] == ys[0] {
      SubsequenceSkip(xs[1..], ys[1..], ys[0]);
      assert [ys[0]] + ys[1..] == ys;
    } else {
      SubsequenceTail(xs, ys[1..]);
      SubsequenceSkip(xs[1..], ys[1..], ys[0]);
      assert [ys[0]] + ys[1..] == ys;
    }
  }

  /** Putting an element in front of `ys` keeps `xs` a subsequence of it. */
  lemma {:induction false} SubsequenceSkip<T>(xs: seq<T>, ys: seq<T>, y: T)
    requires IsSubsequence(xs, ys)
    ensures IsSubsequence(xs, [y] + ys)
    decreases |xs| + |ys|, 1
  {
    assert ([y] + ys)[1..] == ys;
    if xs != [] && xs[0] == y {
      SubsequenceTail(xs, ys);
    }
  }

  /** Appending an element to `ys` keeps `xs` a subsequence of it. */
  lemma {:induction false} SubsequenceExtend<T>(xs: seq<T>, ys: seq<T>, a: T)
    requires IsSubsequence(xs, ys)
    ensures IsSubsequence(xs, ys + [a])
    decreases |ys|
  {
    if xs != [] {
      assert (ys + [a])[1..] == ys[1..] + [a];
      if xs[0] == ys[0] {
        SubsequenceExtend(xs[1..], ys[1..], a);
      } else {
        SubsequenceExtend(xs, ys[1..], a);
      }
    }
  }

  /** Appending the same element to both keeps the relation. */
  lemma {:induction false} SubsequenceAppend<T>(xs: seq<T>, ys: seq<T>, a: T)
    requires IsSubsequence(xs, ys)
    ensures IsSubsequence(xs + [a], ys + [a])
    decreases |ys|
  {
    if ys == [] {
      assert xs == [];
      assert (xs + [a])[1..] == [];
    } else {
      assert (ys + [a])[1..] == ys[1..] + [a];
      if xs == [] {
        if ys[0] != a {
          SubsequenceAppend(xs, ys[1..], a);
        } else {
          assert (xs + [a])[1..] == [];
        }
      } else {
        assert (xs + [a])[1..] == xs[1..] + [a];
        if xs[0] == ys[0] {
          SubsequenceAppend(xs[1..], ys[1..], a);
        } else {
          SubsequenceAppend(xs, ys[1..], a);
        }
      }
    }
  }

  /** Dropping the last element of a subsequence leaves a subsequence. */
  lemma {:induction false} SubsequenceDropLast<T>(xs: seq<T>, a: T, ys: seq<T>)
    requires IsSubsequence(xs + [a], ys)
    ensures IsSubsequence(xs, ys)
    decreases |ys|
  {
    if xs != [] {
      assert (xs + [a])[1..] == xs[1..] + [a];
      if xs[0] == ys[0] {
        SubsequenceDropLast(xs[1..], a, ys[1..]);
      } else {
        SubsequenceDropLast(xs, a, ys[1..]);
      }
    }
  }

  /** Every element of a subsequence is an element of the sequence. */
  lemma {:induction false} SubsequenceMembers<T>(xs: seq<T>, ys: seq<T>)
    requires IsSubsequence(xs, ys)
    ensures forall x :: x in xs ==> x in ys
    decreases |ys|
  {
    if xs != [] {
      if xs[0] == ys[0] {
        SubsequenceMembers(xs[1..], ys[1..]);
        assert forall x :: x in xs ==> x == xs[0] || x in xs[1..];
      } else {
        SubsequenceMembers(xs, ys[1..]);
      }
      assert forall y :: y in ys[1..] ==> y in ys;
    }
  }
}
