/** Failure-carrying wrappers shared by every module of the model. */
module Base {

  /** A value that may be absent; stands for Python's `None`. */
  datatype Option<T> = None | Some(value: T)

  /** The outcome of an operation that may raise: `Err` carries the exception. */
  datatype Result<T, E> = Ok(value: T) | Err(error: E)

  /** Python's `min` on integers. */
  function Min(a: int, b: int): int {
    if a <= b then a else b
  }

  /** `sub` is `s` with some elements left out, the rest in order. */
  predicate IsSubsequence<T(==)>(sub: seq<T>, s: seq<T>) {
    sub == [] ||
    (s != [] && ((sub[0] == s[0] && IsSubsequence(sub[1..], s[1..])) || IsSubsequence(sub, s[1..])))
  }

  lemma {:induction false} SubsequenceOfItself<T>(s: seq<T>)
    ensures IsSubsequence(s, s)
    decreases |s|
  {
    if s != [] {
      SubsequenceOfItself(s[1..]);
    }
  }

  /** Elements put in front do not break a subsequence. */
  lemma {:induction false} SubsequencePadded<T>(sub: seq<T>, a: seq<T>, s: seq<T>)
    requires IsSubsequence(sub, s)
    ensures IsSubsequence(sub, a + s)
    decreases |a|
  {
    if a != [] {
      SubsequencePadded(sub, a[1..], s);
      assert (a + s)[1..] == a[1..] + s;
    } else {
      assert a + s == s;
    }
  }

  /** Subsequences of two parts make a subsequence of the joined parts. */
  lemma {:induction false} SubsequenceConcat<T>(p: seq<T>, q: seq<T>, a: seq<T>, b: seq<T>)
    requires IsSubsequence(p, a) && IsSubsequence(q, b)
    ensures IsSubsequence(p + q, a + b)
    decreases |a|
  {
    if p == [] {
      assert p + q == q;
      SubsequencePadded(q, a, b);
    } else {
      assert (a + b)[0] == a[0] && (a + b)[1..] == a[1..] + b;
      if p[0] == a[0] && IsSubsequence(p[1..], a[1..]) {
        assert (p + q)[0] == p[0] && (p + q)[1..] == p[1..] + q;
        SubsequenceConcat(p[1..], q, a[1..], b);
      } else {
        SubsequenceConcat(p, q, a[1..], b);
      }
    }
  }
}

/**
 * The string operations the plug-in relies on: ASCII case folding, character
 * replacement, the `in` substring test, prefix/suffix tests and Python's
 * lexicographic `<` on strings.
 */
module Text {

  /** `str.lower()` restricted to ASCII letters. */
  function LowerChar(c: char): char {
    if 'A' <= c <= 'Z' then (c as int + 32) as char else c
  }

  function Lower(s: string): (r: string)
    ensures |r| == |s|
    ensures forall i | 0 <= i < |s| :: r[i] == LowerChar(s[i])
  {
    if s == [] then [] else [LowerChar(s[0])] + Lower(s[1..])
  }

  /** `str.upper()` restricted to ASCII letters. */
  function UpperChar(c: char): char {
    if 'a' <= c <= 'z' then (c as int - 32) as char else c
  }

  function Upper(s: string): (r: string)
    ensures |r| == |s|
    ensures forall i | 0 <= i < |s| :: r[i] == UpperChar(s[i])
  {
    if s == [] then [] else [UpperChar(s[0])] + Upper(s[1..])
  }

  /** `str.replace(a, b)` for single characters. */
  function ReplaceChar(s: string, a: char, b: char): (r: string)
    ensures |r| == |s|
    ensures forall i | 0 <= i < |s| :: r[i] == (if s[i] == a then b else s[i])
  {
    if s == [] then [] else [if s[0] == a then b else s[0]] + ReplaceChar(s[1..], a, b)
  }

  predicate StartsWith(s: string, prefix: string) {
    |prefix| <= |s| && s[..|prefix|] == prefix
  }

  predicate EndsWith(s: string, suffix: string) {
    |suffix| <= |s| && s[|s| - |suffix|..] == suffix
  }

  /** Python's `needle in haystack` for strings, computed by scanning. */
  function Contains(haystack: string, needle: string): bool
    decreases |haystack|
  {
    StartsWith(haystack, needle) || (haystack != [] && Contains(haystack[1..], needle))
  }

  /** The declarative meaning of `Contains`: the needle occurs at some index. */
  ghost predicate OccursAt(haystack: string, needle: string, i: int) {
    0 <= i && i + |needle| <= |haystack| && haystack[i..i + |needle|] == needle
  }

  lemma {:induction false} ContainsMeansOccurs(haystack: string, needle: string)
    ensures Contains(haystack, needle) <==> exists i :: OccursAt(haystack, needle, i)
  {
    if Contains(haystack, needle) {
      var i := ContainsWitness(haystack, needle);
    }
    if exists i :: OccursAt(haystack, needle, i) {
      var i :| OccursAt(haystack, needle, i);
      OccursGivesContains(haystack, needle, i);
    }
  }

  lemma {:induction false} ContainsWitness(haystack: string, needle: string) returns (i: int)
    requires Contains(haystack, needle)
    ensures OccursAt(haystack, needle, i)
    decreases |haystack|
  {
    if StartsWith(haystack, needle) {
      i := 0;
    } else {
      var tail := haystack[1..];
      var j := ContainsWitness(tail, needle);
      assert haystack[j + 1..j + 1 + |needle|] == tail[j..j + |needle|];
      i := j + 1;
    }
  }

  lemma {:induction false} OccursGivesContains(haystack: string, needle: string, i: int)
    requires OccursAt(haystack, needle, i)
    ensures Contains(haystack, needle)
    decreases i
  {
    if i == 0 {
      assert haystack[..|needle|] == needle;
    } else {
      var tail := haystack[1..];
      assert tail[i - 1..i - 1 + |needle|] == haystack[i..i + |needle|];
      OccursGivesContains(tail, needle, i - 1);
    }
  }

  /** Python's `s.split(sep)` for a single-character separator. */
  function Split(s: string, sep: char): (r: seq<string>)
    ensures |r| >= 1
    decreases |s|
  {
    if s == [] then [""]
    else
      var rest := Split(s[1..], sep);
      if s[0] == sep then [""] + rest else [[s[0]] + rest[0]] + rest[1..]
  }

  /** Splitting at the first separator: the text before it is the first piece. */
  lemma {:induction false} SplitAtSeparator(a: string, sep: char, b: string)
    requires sep !in a
    ensures Split(a + [sep] + b, sep) == [a] + Split(b, sep)
    decreases |a|
  {
    if a == [] {
      assert a + [sep] + b == [sep] + b;
      assert ([sep] + b)[1..] == b;
    } else {
      assert (a + [sep] + b)[1..] == a[1..] + [sep] + b;
      SplitAtSeparator(a[1..], sep, b);
      assert [a[0]] + a[1..] == a;
    }
  }

  /** Text without the separator is one piece. */
  lemma {:induction false} SplitWithoutSeparator(a: string, sep: char)
    requires sep !in a
    ensures Split(a, sep) == [a]
    decreases |a|
  {
    if a != [] {
      SplitWithoutSeparator(a[1..], sep);
      assert [a[0]] + a[1..] == a;
    }
  }

  /** Python's `sep.join(pieces)` for a single-character separator and at least one piece. */
  function Join(pieces: seq<string>, sep: char): string
    requires pieces != []
  {
    if |pieces| == 1 then pieces[0] else pieces[0] + [sep] + Join(pieces[1..], sep)
  }

  /** Splitting undoes joining when no piece holds the separator. */
  lemma {:induction false} SplitJoin(pieces: seq<string>, sep: char)
    requires pieces != []
    requires forall i | 0 <= i < |pieces| :: sep !in pieces[i]
    ensures Split(Join(pieces, sep), sep) == pieces
    decreases |pieces|
  {
    if |pieces| == 1 {
      SplitWithoutSeparator(pieces[0], sep);
    } else {
      SplitJoin(pieces[1..], sep);
      SplitAtSeparator(pieces[0], sep, Join(pieces[1..], sep));
      assert [pieces[0]] + pieces[1..] == pieces;
    }
  }

  /** Python's `a < b` on strings: lexicographic by code point. */
  function LexLess(a: string, b: string): bool
    decreases |a|
  {
    if a == [] then b != []
    else if b == [] then false
    else if a[0] != b[0] then a[0] < b[0]
    else LexLess(a[1..], b[1..])
  }

  lemma {:induction false} LexLessIrreflexive(a: string)
    ensures !LexLess(a, a)
    decreases |a|
  {
    if a != [] {
      LexLessIrreflexive(a[1..]);
    }
  }

  /** Exactly one of `a < b`, `a == b`, `b < a` holds. */
  lemma {:induction false} LexTrichotomy(a: string, b: string)
    ensures LexLess(a, b) || a == b || LexLess(b, a)
    ensures !(LexLess(a, b) && LexLess(b, a))
    ensures a == b ==> !LexLess(a, b)
    decreases |a|
  {
    if a == [] || b == [] {
    } else if a[0] != b[0] {
    } else {
      LexTrichotomy(a[1..], b[1..]);
      if a[1..] == b[1..] {
        assert a == [a[0]] + a[1..] && b == [b[0]] + b[1..];
      }
      if a == b {
        LexLessIrreflexive(a);
      }
    }
  }

  lemma {:induction false} LexLessTransitive(a: string, b: string, c: string)
    requires LexLess(a, b) && LexLess(b, c)
    ensures LexLess(a, c)
    decreases |a|
  {
    if a != [] && b != [] && c != [] && a[0] == b[0] && b[0] == c[0] {
      LexLessTransitive(a[1..], b[1..], c[1..]);
    }
  }
}
