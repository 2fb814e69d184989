/**
 * What the grammar of `IrcMessage.from(rawMessage:)` promises: which lines
 * it accepts, how tag and parameter groups decode, and that text after a
 * well-formed line never makes it fail.
 */
module IrcMessageProperties {
  import opened Wrappers
  import opened Strings
  import opened IrcMessage

  // ---------------------------------------------------------------------
  // Tags

  /** Every decoded tag has a non-empty key without `;`, `=` or space, and a value without `;` or space. */
  lemma {:induction false} FindAllTagsWellFormed(s: string)
    ensures forall i :: 0 <= i < |FindAllTags(s)| ==> IsTagPair(FindAllTags(s)[i])
    decreases |s|
  {
    if s != [] {
      match TagAt(s) {
        case Some((k, v, n)) =>
          TagAtShape(s);
          FindAllTagsWellFormed(s[n..]);
        case None =>
          FindAllTagsWellFormed(s[1..]);
      }
    }
  }

  /** The tag map holds exactly the decoded keys. */
  lemma {:induction false} TagMapKeys(pairs: seq<(string, string)>)
    ensures forall k :: k in TagMap(pairs) <==> exists i :: 0 <= i < |pairs| && pairs[i].0 == k
  {
    if pairs != [] {
      var init := pairs[..|pairs| - 1];
      TagMapKeys(init);
      forall k
        ensures k in TagMap(pairs) <==> exists i :: 0 <= i < |pairs| && pairs[i].0 == k
      {
        if k in TagMap(init) {
          var i :| 0 <= i < |init| && init[i].0 == k;
          assert pairs[i].0 == k;
        }
        if exists i :: 0 <= i < |pairs| && pairs[i].0 == k {
          var i :| 0 <= i < |pairs| && pairs[i].0 == k;
          if i < |init| {
            assert init[i].0 == k;
          }
        }
      }
    }
  }

  /** A key that occurs more than once keeps the value of its last occurrence. */
  lemma {:induction false} TagMapLastWins(pairs: seq<(string, string)>, i: nat)
    requires i < |pairs|
    requires forall j :: i < j < |pairs| ==> pairs[j].0 != pairs[i].0
    ensures pairs[i].0 in TagMap(pairs) && TagMap(pairs)[pairs[i].0] == pairs[i].1
    decreases |pairs|
  {
    if i < |pairs| - 1 {
      var init := pairs[..|pairs| - 1];
      assert init[i] == pairs[i];
      TagMapLastWins(init, i);
    }
  }

  // ---------------------------------------------------------------------
  // Parameters

  /** A match of P does not look past the characters it consumes and the one that stops it. */
  lemma ParamAtOfPrefix(s: string, len: nat)
    requires ParamAt(s).Some? && ParamAt(s).value.1 <= len <= |s|
    ensures ParamAt(s[..len]) == ParamAt(s)
  {
    if s[1] == ':' {
      TrailingOfPrefix(s, len);
    } else {
      MiddleOfPrefix(s, len);
    }
  }

  lemma TrailingOfPrefix(s: string, len: nat)
    requires |s| >= 2 && IsSpace(s[0]) && s[1] == ':' && 2 + Run(s[2..], NonTerminator) <= len <= |s|
    ensures ParamAt(s[..len]) == ParamAt(s)
  {
    var t := s[..len];
    assert t[0] == s[0] && t[1] == s[1];
    var rest, tail := s[2..], t[2..];
    var e := Run(rest, NonTerminator);
    assert tail == rest[..len - 2];
    RunOfPrefix(rest, NonTerminator, len - 2);
    assert tail[..e] == rest[..e];
    TrailingAt(s, e);
    TrailingAt(t, e);
  }

  lemma MiddleOfPrefix(s: string, len: nat)
    requires |s| >= 2 && IsSpace(s[0]) && s[1] != ':' && !IsSpace(s[1]) && 1 + Run(s[1..], NonSpace) <= len <= |s|
    ensures ParamAt(s[..len]) == ParamAt(s)
  {
    var t := s[..len];
    assert t[0] == s[0] && t[1] == s[1];
    var rest, tail := s[1..], t[1..];
    var w := Run(rest, NonSpace);
    assert tail == rest[..len - 1];
    RunOfPrefix(rest, NonSpace, len - 1);
    assert tail[..w] == rest[..w];
    MiddleAt(s, w);
    MiddleAt(t, w);
  }

  /** P's `:` alternative, with its text as a prefix of what follows the `:`. */
  lemma TrailingAt(s: string, e: nat)
    requires |s| >= 2 && IsSpace(s[0]) && s[1] == ':' && e == Run(s[2..], NonTerminator)
    ensures ParamAt(s) == Some((Trailing(s[2..][..e]), 2 + e))
  {
    assert s[2..][..e] == s[2..2 + e];
  }

  /** P's middle alternative, with its text as a prefix of what follows the space. */
  lemma MiddleAt(s: string, w: nat)
    requires |s| >= 2 && IsSpace(s[0]) && s[1] != ':' && !IsSpace(s[1]) && w == Run(s[1..], NonSpace)
    ensures ParamAt(s) == Some((Middle(s[1..][..w]), 1 + w))
  {
    assert s[1..][..w] == s[1..1 + w];
  }

  /**
   * Running `findAll` over the `params_all` group gives back the iterations
   * of `(P+)?` that produced the group, in order.
   */
  lemma {:induction false} FindAllParamsOfGroup(s: string)
    ensures FindAllParams(s[..ParamsLength(s)]) == ScanParams(s)
    decreases |s|
  {
    match ParamAt(s) {
      case None =>
        assert s[..0] == [];
      case Some((p, n)) =>
        var g := s[..ParamsLength(s)];
        ParamAtOfPrefix(s, ParamsLength(s));
        FindAllParamsOfGroup(s[n..]);
        assert g[n..] == s[n..][..ParamsLength(s[n..])];
    }
  }

  /**
   * On text without line terminators, only the last parameter can be a
   * trailing one, and a trailing parameter runs to the end of the text.
   */
  lemma {:induction false} TrailingIsLast(s: string)
    requires NoLineTerminator(s)
    ensures forall k :: 0 <= k < |ScanParams(s)| - 1 ==> ScanParams(s)[k].Middle?
    ensures |ScanParams(s)| > 0 && ScanParams(s)[|ScanParams(s)| - 1].Trailing? ==> ParamsLength(s) == |s|
    decreases |s|
  {
    match ParamAt(s) {
      case None =>
      case Some((p, n)) =>
        var tail := s[n..];
        assert ScanParams(s) == [p] + ScanParams(tail);
        assert ParamsLength(s) == n + ParamsLength(tail);
        ParamAtShape(s);
        if p.Trailing? {
          if n < |s| {
            assert false;
          }
          assert tail == [];
        } else {
          forall i | 0 <= i < |tail| ensures !IsLineTerminator(tail[i]) {
            assert tail[i] == s[n + i];
          }
          TrailingIsLast(tail);
          var scan := ScanParams(s);
          forall k | 0 <= k < |scan| - 1 ensures scan[k].Middle? {
            if k > 0 {
              assert scan[k] == ScanParams(tail)[k - 1];
            }
          }
          if |ScanParams(tail)| > 0 {
            assert scan[|scan| - 1] == ScanParams(tail)[|ScanParams(tail)| - 1];
          }
        }
    }
  }

  // ---------------------------------------------------------------------
  // Which lines parse

  /** `@`, a tag block, and the space character that ends it. */
  predicate IsTagPart(part: string) {
    && |part| >= 2 && part[0] == '@' && IsSpace(part[|part| - 1])
    && NoSpace(part[1..|part| - 1]) && IsTagBlock(part[1..|part| - 1])
  }

  /** `:`, a prefix, and the space character that ends it. */
  predicate IsPrefixPart(part: string) {
    && |part| >= 2 && part[0] == ':' && IsSpace(part[|part| - 1])
    && NoSpace(part[1..|part| - 1]) && SplitPrefix(part[1..|part| - 1]).Some?
  }

  /** The tag stage of a line whose non-space run after `@` is a tag block. */
  lemma TagBlockOfRun(line: string, block: string)
    requires |line| > 1 + |block| && line[0] == '@' && line[1..1 + |block|] == block
    requires Run(line[1..], NonSpace) == |block| && IsTagBlock(block)
    ensures MatchTagBlock(line) == Some((Some(block), |block| + 2))
  { }

  /** The prefix stage of a line whose non-space run after `:` splits into prefix groups. */
  lemma PrefixOfRun(line: string, text: string)
    requires |line| > 1 + |text| && line[0] == ':' && line[1..1 + |text|] == text
    requires Run(line[1..], NonSpace) == |text| && SplitPrefix(text).Some?
    ensures MatchPrefix(line) == Some((SplitPrefix(text), |text| + 2))
  { }

  /** A line whose first `i` characters are a tag part hands the rest to the prefix. */
  lemma TagPartMatches(line: string, i: nat)
    requires i <= |line| && IsTagPart(line[..i])
    ensures MatchTagBlock(line) == Some((Some(line[1..i - 1]), i))
  {
    var part, rest := line[..i], line[1..];
    var text := part[1..i - 1];
    forall k | 0 <= k < i - 2 ensures rest[k] == text[k] && InClass(rest[k], NonSpace) {
      assert rest[k] == line[k + 1] && text[k] == line[k + 1];
    }
    assert rest[i - 2] == part[i - 1];
    RunUnique(rest, NonSpace, i - 2);
    assert line[1..1 + (i - 2)] == text;
    TagBlockOfRun(line, text);
  }

  /** Text whose first `j` characters are a prefix part hands the rest to the command. */
  lemma PrefixPartMatches(s: string, j: nat)
    requires j <= |s| && IsPrefixPart(s[..j])
    ensures MatchPrefix(s) == Some((SplitPrefix(s[1..j - 1]), j))
  {
    var part, rest := s[..j], s[1..];
    var text := part[1..j - 1];
    forall k | 0 <= k < j - 2 ensures rest[k] == text[k] && InClass(rest[k], NonSpace) {
      assert rest[k] == s[k + 1] && text[k] == s[k + 1];
    }
    assert rest[j - 2] == part[j - 1];
    RunUnique(rest, NonSpace, j - 2);
    assert s[1..1 + (j - 2)] == text;
  }

  /** A successful tag match was a tag part, or absent when the line does not start with `@`. */
  lemma TagMatchIsPart(line: string, i: nat)
    requires MatchTagBlock(line).Some? && i == MatchTagBlock(line).value.1
    ensures i == 0 || IsTagPart(line[..i])
  {
    if |line| > 0 && line[0] == '@' {
      var rest := line[1..];
      var n := Run(rest, NonSpace);
      var block := line[1..1 + n];
      assert i == n + 2 && IsTagBlock(block);
      var part := line[..i];
      forall m | 0 <= m < |block| ensures !IsSpace(block[m]) {
        assert block[m] == rest[m];
        assert InClass(rest[m], NonSpace);
      }
      assert part[1..|part| - 1] == block;
      assert part[|part| - 1] == rest[n];
    }
  }

  /** A successful prefix match was a prefix part, or absent when the text does not start with `:`. */
  lemma PrefixMatchIsPart(s: string, k: nat)
    requires MatchPrefix(s).Some? && k == MatchPrefix(s).value.1
    ensures k == 0 || IsPrefixPart(s[..k])
  {
    if |s| > 0 && s[0] == ':' {
      var rest := s[1..];
      var n := Run(rest, NonSpace);
      var text := s[1..1 + n];
      assert k == n + 2;
      var part := s[..k];
      forall m | 0 <= m < |text| ensures !IsSpace(text[m]) {
        assert text[m] == rest[m];
        assert InClass(rest[m], NonSpace);
      }
      assert part[1..|part| - 1] == text;
      assert part[|part| - 1] == rest[n];
      assert SplitPrefix(text).Some?;
    }
  }

  /**
   * The line starts with a tag part (`line[..i]`, absent when `i` is 0),
   * then a prefix part (`line[i..j]`, absent when `j == i`), then an ASCII
   * letter or digit at `j`.
   */
  predicate AcceptedAt(line: string, i: nat, j: nat) {
    && i <= j < |line|
    && (i == 0 || IsTagPart(line[..i]))
    && (j == i || IsPrefixPart(line[i..j]))
    && IsAlnum(line[j])
  }

  ghost predicate Accepted(line: string) {
    exists i: nat, j: nat :: AcceptedAt(line, i, j)
  }

  lemma PrefixSideOfMatch(line: string, i: nat, j: nat)
    requires i <= |line| && MatchPrefix(line[i..]).Some? && j == i + MatchPrefix(line[i..]).value.1
    ensures i <= j <= |line|
    ensures j == i || IsPrefixPart(line[i..j])
  {
    var afterTags := line[i..];
    PrefixMatchIsPart(afterTags, j - i);
    assert afterTags[..j - i] == line[i..j];
  }

  /** The command starts right after the tag and prefix parts, with a letter or digit. */
  lemma CommandOfMatch(line: string)
    requires MatchHead(line).Some?
    ensures var i := MatchTagBlock(line).value.1;
      var j := i + MatchPrefix(line[i..]).value.1;
      j < |line| && IsAlnum(line[j])
  {
    var i := MatchTagBlock(line).value.1;
    var j := i + MatchPrefix(line[i..]).value.1;
    assert line[i..][j - i..] == line[j..];
    assert line[j..][0] == line[j];
  }

  lemma AcceptedIfMatched(line: string)
    requires MatchHead(line).Some?
    ensures Accepted(line)
  {
    var i, j := PartsOfMatch(line);
  }

  /** Where a matched head's tag and prefix parts end. */
  lemma PartsOfMatch(line: string) returns (i: nat, j: nat)
    requires MatchHead(line).Some?
    ensures AcceptedAt(line, i, j)
  {
    i := MatchTagBlock(line).value.1;
    j := i + MatchPrefix(line[i..]).value.1;
    CommandOfMatch(line);
    PartsOfStages(line, i, j);
  }

  lemma PartsOfStages(line: string, i: nat, j: nat)
    requires MatchTagBlock(line).Some? && i == MatchTagBlock(line).value.1 && i <= |line|
    requires MatchPrefix(line[i..]).Some? && j == i + MatchPrefix(line[i..]).value.1
    requires j < |line| && IsAlnum(line[j])
    ensures AcceptedAt(line, i, j)
  {
    TagMatchIsPart(line, i);
    PrefixSideOfMatch(line, i, j);
  }

  lemma TagStageOfAccepted(line: string, i: nat, j: nat)
    requires AcceptedAt(line, i, j)
    ensures MatchTagBlock(line) == Some((if i == 0 then None else Some(line[1..i - 1]), i))
  {
    if i > 0 {
      TagPartMatches(line, i);
    } else if j > 0 {
      assert line[i..j][0] == line[0];
    }
  }

  lemma PrefixStageOfAccepted(line: string, i: nat, j: nat)
    requires AcceptedAt(line, i, j)
    ensures MatchPrefix(line[i..]) == Some((if j == i then None else SplitPrefix(line[i + 1..j - 1]), j - i))
  {
    if j > i {
      PrefixPartOfAccepted(line, i, j);
    }
  }

  lemma PrefixPartOfAccepted(line: string, i: nat, j: nat)
    requires i < j < |line| && IsPrefixPart(line[i..j])
    ensures MatchPrefix(line[i..]) == Some((SplitPrefix(line[i + 1..j - 1]), j - i))
  {
    var afterTags := line[i..];
    assert afterTags[..j - i] == line[i..j];
    PrefixPartMatches(afterTags, j - i);
    assert afterTags[1..j - i - 1] == line[i + 1..j - 1];
  }

  lemma MatchedIfAccepted(line: string, i: nat, j: nat)
    requires AcceptedAt(line, i, j)
    ensures MatchHead(line).Some?
  {
    TagStageOfAccepted(line, i, j);
    PrefixStageOfAccepted(line, i, j);
    CommandStartOfAccepted(line, j);
  }

  lemma CommandStartOfAccepted(line: string, j: nat)
    requires j < |line| && IsAlnum(line[j])
    ensures Run(line[j..], Alnum) > 0
  {
    assert line[j..][0] == line[j];
  }

  /**
   * `from` returns a message exactly when the line starts with an optional
   * tag part, then an optional prefix part, then an ASCII letter or digit;
   * whatever follows the command never makes it fail.
   */
  lemma ParseSucceedsIff(line: string, known: set<string>)
    ensures Parse(line, known).Some? <==> Accepted(line)
  {
    if MatchHead(line).Some? {
      AcceptedIfMatched(line);
    }
    if Accepted(line) {
      var i: nat, j: nat :| AcceptedAt(line, i, j);
      MatchedIfAccepted(line, i, j);
    }
  }

  /** The parts a line starts with are still there when text is appended. */
  lemma AcceptedAtAppend(a: string, b: string, i: nat, j: nat)
    requires AcceptedAt(a, i, j)
    ensures AcceptedAt(a + b, i, j)
  {
    var line := a + b;
    assert line[..i] == a[..i];
    assert line[i..j] == a[i..j];
    assert line[j] == a[j];
  }

  /**
   * The expression has no end anchor: text appended after an accepted
   * line never makes `from` fail.
   */
  lemma ParseIgnoresAppendedText(a: string, b: string, known: set<string>)
    requires Parse(a, known).Some?
    ensures Parse(a + b, known).Some?
  {
    AcceptedIfMatched(a);
    var i: nat, j: nat :| AcceptedAt(a, i, j);
    AcceptedAtAppend(a, b, i, j);
    MatchedIfAccepted(a + b, i, j);
  }

  /** A line that starts with `@` but has no valid tag part is rejected. */
  lemma InvalidTagBlockRejected(line: string, known: set<string>)
    requires |line| > 0 && line[0] == '@'
    requires forall i :: 2 <= i <= |line| ==> !IsTagPart(line[..i])
    ensures Parse(line, known).None?
  {
    if MatchHead(line).Some? {
      AcceptedIfMatched(line);
    }
  }

  /** The tag part, the prefix part and the command run of `line` are known. */
  predicate HeadParts(line: string, tags: Option<string>, prefix: Option<Prefix>, i: int, j: int, k: int) {
    && 0 <= i && 0 <= j && 0 < k && i + j <= |line|
    && MatchTagBlock(line) == Some((tags, i))
    && MatchPrefix(line[i..]) == Some((prefix, j))
    && Run(line[i + j..], Alnum) == k
  }

  /** The head of a line whose tag part, prefix part and command run are known. */
  lemma HeadOfParts(line: string, tags: Option<string>, prefix: Option<Prefix>, i: int, j: int, k: int)
    requires HeadParts(line, tags, prefix, i, j, k)
    ensures MatchHead(line) == Some(Head(tags, prefix, i + j, i + j + k))
  {
  }
}
