/**
 * The Foundation string operations the chat pipeline relies on:
 * scanning a run of characters, `components(separatedBy:)` with a
 * one-character separator, and `replacingOccurrences(of:with:)`.
 */
module Strings {

  /** Length of the longest prefix of `s` whose characters all satisfy `p`. */
  function Span(s: string, p: char -> bool): (n: nat)
    ensures n <= |s|
    ensures forall i :: 0 <= i < n ==> p(s[i])
    ensures n < |s| ==> !p(s[n])
  {
    if s == [] || !p(s[0]) then 0 else 1 + Span(s[1..], p)
  }

  /** The three facts in Span's contract pin its value down. */
  lemma SpanUnique(s: string, p: char -> bool, n: nat)
    requires n <= |s|
    requires forall i :: 0 <= i < n ==> p(s[i])
    requires n < |s| ==> !p(s[n])
    ensures Span(s, p) == n
  {
  }

  /** Cutting the string anywhere after the run does not change the run. */
  lemma SpanOfPrefix(s: string, p: char -> bool, len: nat)
    requires Span(s, p) <= len <= |s|
    ensures Span(s[..len], p) == Span(s, p)
  {
    var n := Span(s, p);
    assert forall i :: 0 <= i < n ==> s[..len][i] == s[i];
    if n < len {
      assert s[..len][n] == s[n];
    }
    SpanUnique(s[..len], p, n);
  }

  /** A run that covers all of `a` continues into `b`. */
  lemma SpanAppend(a: string, b: string, p: char -> bool)
    requires forall i :: 0 <= i < |a| ==> p(a[i])
    ensures Span(a + b, p) == |a| + Span(b, p)
  {
    var n := |a| + Span(b, p);
    var s := a + b;
    forall i | 0 <= i < n
      ensures p(s[i])
    {
      if i >= |a| {
        assert s[i] == b[i - |a|];
      }
    }
    if n < |s| {
      assert s[n] == b[Span(b, p)];
    }
    SpanUnique(s, p, n);
  }

  /** The characters other than `sep`. */
  function Other(sep: char): char -> bool
  {
    c => c != sep
  }

  /** Foundation's `components(separatedBy:)` for a one-character separator. */
  function Split(s: string, sep: char): (parts: seq<string>)
    ensures |parts| >= 1
    ensures forall i :: 0 <= i < |parts| ==> sep !in parts[i]
    decreases |s|
  {
    var n := Span(s, Other(sep));
    if n == |s| then [s] else [s[..n]] + Split(s[n + 1..], sep)
  }

  /** The inverse of Split: the parts glued back with the separator. */
  function Join(parts: seq<string>, sep: char): string
    requires |parts| >= 1
  {
    if |parts| == 1 then parts[0] else parts[0] + [sep] + Join(parts[1..], sep)
  }

  /** Splitting loses nothing: gluing the parts back gives the input. */
  lemma {:induction false} JoinSplit(s: string, sep: char)
    ensures Join(Split(s, sep), sep) == s
    decreases |s|
  {
    var n := Span(s, Other(sep));
    if n < |s| {
      var head, tail := s[..n], s[n + 1..];
      var parts := Split(s, sep);
      assert parts[0] == head && parts[1..] == Split(tail, sep);
      JoinSplit(tail, sep);
      assert Join(parts, sep) == head + [sep] + tail;
      CutAt(s, n, sep);
    }
  }

  /** A string is the text before position `n`, the character there, and the text after. */
  lemma CutAt(s: string, n: nat, c: char)
    requires n < |s| && s[n] == c
    ensures s == s[..n] + [c] + s[n + 1..]
  {
  }

  /** Parts that do not contain the separator come back unchanged. */
  lemma {:induction false} SplitJoin(parts: seq<string>, sep: char)
    requires |parts| >= 1
    requires forall i :: 0 <= i < |parts| ==> sep !in parts[i]
    ensures Split(Join(parts, sep), sep) == parts
  {
    var p0 := parts[0];
    var notSep := Other(sep);
    if |parts| == 1 {
      SpanAppend(p0, [], notSep);
    } else {
      var rest := Join(parts[1..], sep);
      var s := p0 + [sep] + rest;
      assert s == p0 + ([sep] + rest);
      SpanAppend(p0, [sep] + rest, notSep);
      assert Span(s, notSep) == |p0|;
      assert s[..|p0|] == p0;
      assert s[|p0| + 1..] == rest;
      SplitJoin(parts[1..], sep);
    }
  }

  /** A character that is in no part and is not the separator is not in the joined text. */
  lemma {:induction false} JoinHasNo(parts: seq<string>, sep: char, c: char)
    requires |parts| > 0 && sep != c
    requires forall i :: 0 <= i < |parts| ==> c !in parts[i]
    ensures c !in Join(parts, sep)
  {
    if |parts| > 1 {
      JoinHasNo(parts[1..], sep, c);
    }
  }

  /** Foundation's `replacingOccurrences(of:with:)`: left to right, non-overlapping. */
  function ReplaceAll(s: string, pattern: string, replacement: string): (r: string)
    requires |pattern| > 0
    ensures pattern[0] !in s ==> r == s
    decreases |s|
  {
    if |s| < |pattern| then s
    else if s[..|pattern|] == pattern then replacement + ReplaceAll(s[|pattern|..], pattern, replacement)
    else [s[0]] + ReplaceAll(s[1..], pattern, replacement)
  }

  /** Text that cannot start an occurrence passes through untouched. */
  lemma {:induction false} ReplaceAllSkips(a: string, b: string, pattern: string, replacement: string)
    requires |pattern| > 0 && pattern[0] !in a
    ensures ReplaceAll(a + b, pattern, replacement) == a + ReplaceAll(b, pattern, replacement)
    decreases |a|
  {
    if a != [] {
      var s := a + b;
      assert s[1..] == a[1..] + b;
      ReplaceAllSkips(a[1..], b, pattern, replacement);
      if |s| >= |pattern| {
        ReplaceAllPassesFirst(s, pattern, replacement);
        assert s[0] == a[0];
        ConcatAssoc([a[0]], a[1..], ReplaceAll(b, pattern, replacement));
        assert a == [a[0]] + a[1..];
      } else {
        assert ReplaceAll(b, pattern, replacement) == b;
        assert ReplaceAll(s, pattern, replacement) == s;
      }
    } else {
      assert a + b == b;
    }
  }

  /** A character that cannot start an occurrence is copied and scanning resumes after it. */
  lemma ReplaceAllPassesFirst(s: string, pattern: string, replacement: string)
    requires |pattern| > 0 && |s| >= |pattern| && s[0] != pattern[0]
    ensures ReplaceAll(s, pattern, replacement) == [s[0]] + ReplaceAll(s[1..], pattern, replacement)
  {
    assert s[..|pattern|][0] == s[0];
  }

  /** An occurrence at the front is replaced and scanning resumes after it. */
  lemma ReplaceAllAtFront(b: string, pattern: string, replacement: string)
    requires |pattern| > 0
    ensures ReplaceAll(pattern + b, pattern, replacement) == replacement + ReplaceAll(b, pattern, replacement)
  {
    var s := pattern + b;
    assert s[..|pattern|] == pattern;
    assert s[|pattern|..] == b;
  }

  lemma ConcatAssoc<T>(a: seq<T>, b: seq<T>, c: seq<T>)
    ensures (a + b) + c == a + (b + c)
  {
  }
}
