/**
 * The other direction of `IrcMessage.from(rawMessage:)`: writing a line the
 * way a Twitch chat server does, and the proof that parsing such a line,
 * followed by its line ending, gives back exactly the parts it was written
 * from.
 */
module IrcMessageFormat {
  import opened Wrappers
  import opened IrcMessage
  import opened IrcMessageProperties

  /** The parts of a server line before it is written out. */
  datatype Line = Line(
    tags: seq<(string, string)>,
    prefix: Option<Prefix>,
    command: string,
    middles: seq<string>,
    trailing: Option<string>)

  // ---------------------------------------------------------------------
  // Writing

  /** `key=value` items joined with `;`. */
  function FormatTags(pairs: seq<(string, string)>): string
    requires |pairs| > 0
    decreases |pairs|
  {
    pairs[0].0 + "=" + pairs[0].1 + (if |pairs| == 1 then "" else ";" + FormatTags(pairs[1..]))
  }

  /** `name[!user][@host]` */
  function FormatPrefix(p: Prefix): string
  {
    p.name + (if p.user.Some? then "!" + p.user.value else "") + (if p.host.Some? then "@" + p.host.value else "")
  }

  /** Each middle parameter after a space, then ` :trailing` when there is one. */
  function FormatParams(middles: seq<string>, trailing: Option<string>): string
    decreases |middles|
  {
    if middles == [] then (if trailing.Some? then " :" + trailing.value else "")
    else " " + middles[0] + FormatParams(middles[1..], trailing)
  }

  /** The tag group of a written line. */
  function TagsText(l: Line): Option<string> {
    if l.tags == [] then None else Some(FormatTags(l.tags))
  }

  /** The prefix text of a written line. */
  function PrefixText(l: Line): Option<string> {
    if l.prefix.None? then None else Some(FormatPrefix(l.prefix.value))
  }

  /** An optional part: its marker, its text and a space, or nothing. */
  function Enclose(marker: char, text: Option<string>): string {
    if text.None? then "" else [marker] + text.value + " "
  }

  /** The line as a server writes it, followed by its line ending. */
  function Format(l: Line, ending: string): string {
    Enclose('@', TagsText(l)) + (Enclose(':', PrefixText(l)) + (l.command + (FormatParams(l.middles, l.trailing) + ending)))
  }

  // ---------------------------------------------------------------------
  // Which lines a server writes

  predicate AllIn(s: string, cls: CharClass) {
    forall i :: 0 <= i < |s| ==> InClass(s[i], cls)
  }

  predicate WellFormedPrefix(p: Prefix) {
    && |p.name| > 0 && AllIn(p.name, NameChar)
    && (p.user.Some? ==> |p.user.value| > 0 && AllIn(p.user.value, UserChar))
    && (p.host.Some? ==> |p.host.value| > 0 && NoSpace(p.host.value))
  }

  /** A middle parameter: non-empty, no space, and not starting with `:`. */
  predicate IsMiddle(m: string) {
    |m| > 0 && m[0] != ':' && NoSpace(m)
  }

  predicate WellFormed(l: Line) {
    && (forall i :: 0 <= i < |l.tags| ==> IsTagPair(l.tags[i]))
    && (l.prefix.Some? ==> WellFormedPrefix(l.prefix.value))
    && |l.command| > 0 && AllIn(l.command, Alnum)
    && (forall i :: 0 <= i < |l.middles| ==> IsMiddle(l.middles[i]))
    && (l.trailing.Some? ==> NoLineTerminator(l.trailing.value))
  }

  /** What may follow the line: nothing, or a line ending such as `\r\n` or `\n`. */
  predicate EndsLine(tail: string) {
    tail == [] || (IsLineTerminator(tail[0]) && (|tail| == 1 || IsSpace(tail[1])))
  }

  /** The parameters in order, the trailing one last. */
  function AllParams(middles: seq<string>, trailing: Option<string>): seq<string> {
    middles + (if trailing.Some? then [trailing.value] else [])
  }

  /** The message `from` is meant to produce for a written line. */
  function Expected(l: Line, known: set<string>): Message {
    var name := if l.prefix.Some? then l.prefix.value.name else "";
    var user := if l.prefix.Some? then l.prefix.value.user.GetOr("") else "";
    var host := if l.prefix.Some? then l.prefix.value.host.GetOr("") else "";
    Message(TagMap(l.tags), name, name, user, host, CommandFromRaw(l.command, known),
            AllParams(l.middles, l.trailing))
  }

  // ---------------------------------------------------------------------
  // Runs over written text

  /** A run over all of `a` stops where `b` starts with a character outside the class. */
  lemma RunStops(a: string, b: string, cls: CharClass)
    requires AllIn(a, cls)
    requires b == [] || !InClass(b[0], cls)
    ensures Run(a + b, cls) == |a|
  {
    RunAppend(a, b, cls);
  }

  lemma NoSpaceConcat(a: string, b: string)
    requires NoSpace(a) && NoSpace(b)
    ensures NoSpace(a + b)
  {
    forall i | 0 <= i < |a + b|
      ensures !IsSpace((a + b)[i])
    {
      if i >= |a| {
        assert (a + b)[i] == b[i - |a|];
      }
    }
  }

  // ---------------------------------------------------------------------
  // Tags

  lemma TagAtOfPair(k: string, v: string, after: string)
    requires IsTagPair((k, v))
    requires after == [] || after[0] == ';'
    ensures TagAt(k + "=" + v + after) == Some((k, v, |k| + 1 + |v|))
    ensures (k + "=" + v + after)[|k| + 1 + |v|..] == after
  {
    var s := k + "=" + v + after;
    PairSlices(k, v, after);
    PairRuns(k, v, after);
    TagAtOfRuns(s, |k|, |v|);
  }

  /** The key run of a written pair stops at its `=`, the value run at what follows the value. */
  lemma PairRuns(k: string, v: string, after: string)
    requires IsTagPair((k, v))
    requires after == [] || after[0] == ';'
    ensures Run(k + ("=" + (v + after)), TagKey) == |k|
    ensures Run(v + after, TagValue) == |v|
  {
    assert AllIn(k, TagKey);
    RunStops(k, "=" + (v + after), TagKey);
    assert AllIn(v, TagValue);
    RunStops(v, after, TagValue);
  }

  /** Where the key, the `=`, the value and what follows sit in a written pair. */
  lemma PairSlices(k: string, v: string, after: string)
    ensures k + "=" + v + after == k + ("=" + (v + after))
    ensures (k + "=" + v + after)[|k|] == '='
    ensures (k + "=" + v + after)[|k| + 1..] == v + after
    ensures (k + "=" + v + after)[..|k|] == k
    ensures (k + "=" + v + after)[|k| + 1..|k| + 1 + |v|] == v
    ensures (k + "=" + v + after)[|k| + 1 + |v|..] == after
  {
    var s := k + "=" + v + after;
    var r := v + after;
    assert s == k + ("=" + r);
    assert s[|k| + 1..] == r;
    assert s[|k| + 1..|k| + 1 + |v|] == r[..|v|];
    assert s[|k| + 1 + |v|..] == r[|v|..];
  }

  /** No match of T starts at a `;`. */
  lemma NoTagAtSemicolon(s: string)
    requires |s| > 0 && s[0] == ';'
    ensures TagAt(s).None?
  {
    assert Run(s, TagKey) == 0;
  }

  /** The first pair of a written block and what follows it. */
  lemma FormatTagsFirst(pairs: seq<(string, string)>)
    requires |pairs| > 0
    requires forall i :: 0 <= i < |pairs| ==> IsTagPair(pairs[i])
    ensures var n := |pairs[0].0| + 1 + |pairs[0].1|;
      && TagAt(FormatTags(pairs)) == Some((pairs[0].0, pairs[0].1, n))
      && FormatTags(pairs)[n..] == (if |pairs| == 1 then "" else ";" + FormatTags(pairs[1..]))
  {
    var k, v := pairs[0].0, pairs[0].1;
    var after := if |pairs| == 1 then "" else ";" + FormatTags(pairs[1..]);
    assert IsTagPair(pairs[0]);
    TagAtOfPair(k, v, after);
    assert FormatTags(pairs) == k + "=" + v + after;
  }

  /** The written block is one the tag group matches. */
  lemma {:induction false} FormatTagsIsBlock(pairs: seq<(string, string)>)
    requires |pairs| > 0
    requires forall i :: 0 <= i < |pairs| ==> IsTagPair(pairs[i])
    ensures IsTagBlock(FormatTags(pairs))
    decreases |pairs|
  {
    var n := |pairs[0].0| + 1 + |pairs[0].1|;
    FormatTagsFirst(pairs);
    if |pairs| > 1 {
      var tail := pairs[1..];
      forall i | 0 <= i < |tail| ensures IsTagPair(tail[i]) {
        assert tail[i] == pairs[i + 1];
      }
      FormatTagsIsBlock(tail);
      TagBlockOfItem(FormatTags(pairs), n, FormatTags(tail));
    }
  }

  /** A match of T followed by `;` and a tag block is a tag block. */
  lemma TagBlockOfItem(t: string, n: nat, rest: string)
    requires TagAt(t).Some? && TagAt(t).value.2 == n
    requires n <= |t| && t[n..] == ";" + rest && IsTagBlock(rest)
    ensures IsTagBlock(t)
  {
    assert t[n..][1..] == rest;
  }

  /** findAll over the written block reads back every pair, in order. */
  lemma {:induction false} FormatTagsFindAll(pairs: seq<(string, string)>)
    requires |pairs| > 0
    requires forall i :: 0 <= i < |pairs| ==> IsTagPair(pairs[i])
    ensures FindAllTags(FormatTags(pairs)) == pairs
    decreases |pairs|
  {
    var s := FormatTags(pairs);
    var n := |pairs[0].0| + 1 + |pairs[0].1|;
    FormatTagsFirst(pairs);
    assert s != [];
    assert FindAllTags(s) == [pairs[0]] + FindAllTags(s[n..]);
    if |pairs| > 1 {
      var tail := pairs[1..];
      var after := ";" + FormatTags(tail);
      assert s[n..] == after;
      forall i | 0 <= i < |tail| ensures IsTagPair(tail[i]) {
        assert tail[i] == pairs[i + 1];
      }
      FormatTagsFindAll(tail);
      NoTagAtSemicolon(after);
      assert after[1..] == FormatTags(tail);
      assert FindAllTags(after) == tail;
      assert pairs == [pairs[0]] + tail;
    } else {
      assert s[n..] == [];
    }
  }

  lemma {:induction false} FormatTagsNoSpace(pairs: seq<(string, string)>)
    requires |pairs| > 0
    requires forall i :: 0 <= i < |pairs| ==> IsTagPair(pairs[i])
    ensures NoSpace(FormatTags(pairs))
    decreases |pairs|
  {
    var k, v := pairs[0].0, pairs[0].1;
    assert IsTagPair(pairs[0]);
    NoSpaceConcat(k, "=");
    NoSpaceConcat(k + "=", v);
    if |pairs| > 1 {
      FormatTagsNoSpace(pairs[1..]);
      NoSpaceConcat(";", FormatTags(pairs[1..]));
      NoSpaceConcat(k + "=" + v, ";" + FormatTags(pairs[1..]));
    } else {
      assert FormatTags(pairs) == k + "=" + v + "";
    }
  }

  // ---------------------------------------------------------------------
  // Prefix

  /** A run of name characters stops at `!`, `@` or the end. */
  lemma NameRun(name: string, after: string)
    requires AllIn(name, NameChar)
    requires after == [] || after[0] == '!' || after[0] == '@'
    ensures Run(name + after, NameChar) == |name|
    ensures (name + after)[..|name|] == name && (name + after)[|name|..] == after
  {
    RunStops(name, after, NameChar);
  }

  lemma SplitPrefixNameOnly(name: string, host: Option<string>)
    requires |name| > 0 && AllIn(name, NameChar)
    requires host.Some? ==> |host.value| > 0
    ensures SplitPrefix(name + (if host.Some? then "@" + host.value else "")) == Some(Prefix(name, None, host))
  {
    var after := if host.Some? then "@" + host.value else "";
    NameRun(name, after);
    if host.Some? {
      assert (name + after)[|name| + 1..] == host.value;
    } else {
      assert name + after == name;
    }
  }

  lemma SplitPrefixUserOnly(name: string, user: string)
    requires |name| > 0 && AllIn(name, NameChar)
    requires |user| > 0 && AllIn(user, UserChar)
    ensures SplitPrefix(name + "!" + user) == Some(Prefix(name, Some(user), None))
  {
    NameRun(name, "!" + user);
    assert name + "!" + user == name + ("!" + user);
    assert (name + "!" + user)[|name| + 1..] == user;
    RunStops(user, [], UserChar);
    assert user + [] == user;
  }

  lemma SplitPrefixUserHost(name: string, user: string, host: string)
    requires |name| > 0 && AllIn(name, NameChar)
    requires |user| > 0 && AllIn(user, UserChar)
    requires |host| > 0
    ensures SplitPrefix(name + "!" + user + "@" + host) == Some(Prefix(name, Some(user), Some(host)))
  {
    var s := name + "!" + user + "@" + host;
    var rest := user + "@" + host;
    assert s == name + ("!" + rest);
    NameRun(name, "!" + rest);
    assert s[|name| + 1..] == rest;
    assert rest == user + ("@" + host);
    RunStops(user, "@" + host, UserChar);
    assert rest[..|user|] == user;
    assert rest[|user| + 1..] == host;
  }

  lemma NoSpaceOfClass(s: string, cls: CharClass)
    requires cls == NameChar || cls == UserChar
    requires AllIn(s, cls)
    ensures NoSpace(s)
  {
  }

  /** The written prefix holds no space. */
  lemma FormatPrefixNoSpace(p: Prefix)
    requires WellFormedPrefix(p)
    ensures NoSpace(FormatPrefix(p))
  {
    var userPart := if p.user.Some? then "!" + p.user.value else "";
    var hostPart := if p.host.Some? then "@" + p.host.value else "";
    NoSpaceOfClass(p.name, NameChar);
    if p.user.Some? {
      NoSpaceOfClass(p.user.value, UserChar);
      NoSpaceConcat("!", p.user.value);
    }
    if p.host.Some? {
      NoSpaceConcat("@", p.host.value);
    }
    NoSpaceConcat(p.name, userPart);
    NoSpaceConcat(p.name + userPart, hostPart);
  }

  /** The written prefix splits back into the parts it was written from. */
  lemma FormatPrefixRoundTrip(p: Prefix)
    requires WellFormedPrefix(p)
    ensures SplitPrefix(FormatPrefix(p)) == Some(p)
  {
    var name := p.name;
    if p.user.Some? && p.host.Some? {
      assert FormatPrefix(p) == name + "!" + p.user.value + "@" + p.host.value;
      SplitPrefixUserHost(name, p.user.value, p.host.value);
    } else if p.user.Some? {
      assert FormatPrefix(p) == name + "!" + p.user.value;
      SplitPrefixUserOnly(name, p.user.value);
    } else {
      assert FormatPrefix(p) == name + (if p.host.Some? then "@" + p.host.value else "");
      SplitPrefixNameOnly(name, p.host);
    }
  }

  // ---------------------------------------------------------------------
  // Parameters

  /** The parameters as the scanner should see them. */
  function ParamList(middles: seq<string>, trailing: Option<string>): seq<Param>
    decreases |middles|
  {
    if middles == [] then (if trailing.Some? then [Trailing(trailing.value)] else [])
    else [Middle(middles[0])] + ParamList(middles[1..], trailing)
  }

  lemma TerminatorIsSpace(c: char)
    requires IsLineTerminator(c)
    ensures IsSpace(c)
  {
  }

  /** Nothing after the line ending is taken for a parameter. */
  lemma EndsLineHasNoParams(tail: string)
    requires EndsLine(tail)
    ensures ParamAt(tail).None?
    ensures ScanParams(tail) == [] && ParamsLength(tail) == 0
  {
    ParamAtSome(tail);
  }

  /** Written parameters start with a space. */
  lemma FormatParamsStart(middles: seq<string>, trailing: Option<string>)
    ensures FormatParams(middles, trailing) == [] || FormatParams(middles, trailing)[0] == ' '
  {
  }

  lemma ParamAtMiddle(m: string, rest: string)
    requires IsMiddle(m)
    requires rest == [] || IsSpace(rest[0])
    ensures ParamAt(" " + m + rest) == Some((Middle(m), 1 + |m|))
    ensures (" " + m + rest)[1 + |m|..] == rest
  {
    var s := " " + m + rest;
    assert s[1..] == m + rest;
    assert AllIn(m, NonSpace);
    RunStops(m, rest, NonSpace);
    assert s[1..1 + |m|] == m;
  }

  lemma ParamAtTrailing(t: string, tail: string)
    requires NoLineTerminator(t)
    requires EndsLine(tail)
    ensures ParamAt(" :" + t + tail) == Some((Trailing(t), 2 + |t|))
    ensures (" :" + t + tail)[2 + |t|..] == tail
  {
    var s := " :" + t + tail;
    assert s[2..] == t + tail;
    assert AllIn(t, NonTerminator);
    RunStops(t, tail, NonTerminator);
    assert s[2..2 + |t|] == t;
  }

  /** The greedy parameter group takes exactly the written parameters and stops at the line ending. */
  lemma {:induction false} ScanFormatParams(middles: seq<string>, trailing: Option<string>, tail: string)
    requires forall i :: 0 <= i < |middles| ==> IsMiddle(middles[i])
    requires trailing.Some? ==> NoLineTerminator(trailing.value)
    requires EndsLine(tail)
    ensures ScanParams(FormatParams(middles, trailing) + tail) == ParamList(middles, trailing)
    ensures ParamsLength(FormatParams(middles, trailing) + tail) == |FormatParams(middles, trailing)|
    decreases |middles|
  {
    var s := FormatParams(middles, trailing) + tail;
    if middles == [] {
      ScanTrailing(trailing, tail);
    } else {
      var f := FormatParams(middles[1..], trailing);
      var rest := f + tail;
      assert s == " " + middles[0] + rest;
      FormatParamsStart(middles[1..], trailing);
      assert rest == [] || IsSpace(rest[0]) by {
        if f != [] {
          assert rest[0] == f[0];
        } else if tail != [] {
          TerminatorIsSpace(tail[0]);
        }
      }
      ScanMiddle(middles[0], rest);
      ScanFormatParams(middles[1..], trailing, tail);
      assert |FormatParams(middles, trailing)| == 1 + |middles[0]| + |f|;
      assert ParamList(middles, trailing) == [Middle(middles[0])] + ParamList(middles[1..], trailing);
    }
  }

  /** Without middle parameters, the scan finds the trailing parameter, if any, and stops at the line ending. */
  lemma ScanTrailing(trailing: Option<string>, tail: string)
    requires trailing.Some? ==> NoLineTerminator(trailing.value)
    requires EndsLine(tail)
    ensures ScanParams(FormatParams([], trailing) + tail) == ParamList([], trailing)
    ensures ParamsLength(FormatParams([], trailing) + tail) == |FormatParams([], trailing)|
  {
    EndsLineHasNoParams(tail);
    if trailing.Some? {
      var t := trailing.value;
      ParamAtTrailing(t, tail);
      assert FormatParams([], trailing) + tail == " :" + t + tail;
      assert ScanParams(" :" + t + tail) == [Trailing(t)] + ScanParams(tail);
    } else {
      assert FormatParams([], trailing) + tail == tail;
    }
  }

  /** One written middle parameter is scanned, and the scan goes on right after it. */
  lemma ScanMiddle(m: string, rest: string)
    requires IsMiddle(m)
    requires rest == [] || IsSpace(rest[0])
    ensures ScanParams(" " + m + rest) == [Middle(m)] + ScanParams(rest)
    ensures ParamsLength(" " + m + rest) == 1 + |m| + ParamsLength(rest)
  {
    ParamAtMiddle(m, rest);
  }

  lemma {:induction false} TextsAppend(a: seq<Param>, b: seq<Param>)
    ensures Texts(a + b) == Texts(a) + Texts(b)
    decreases |b|
  {
    if b != [] {
      var c := b[..|b| - 1];
      assert a + b == (a + c) + [b[|b| - 1]];
      TextsSnoc(a + c, b[|b| - 1]);
      TextsAppend(a, c);
      TextsSnoc(c, b[|b| - 1]);
      assert b == c + [b[|b| - 1]];
    } else {
      assert a + b == a;
    }
  }

  /** The texts of the scanned parameters are the parameters written. */
  lemma {:induction false} TextsOfParamList(middles: seq<string>, trailing: Option<string>)
    ensures Texts(ParamList(middles, trailing)) == AllParams(middles, trailing)
    decreases |middles|
  {
    if middles == [] {
      if trailing.Some? {
        TextsSnoc([], Trailing(trailing.value));
      }
    } else {
      TextsOfParamList(middles[1..], trailing);
      TextsAppend([Middle(middles[0])], ParamList(middles[1..], trailing));
      TextsSnoc([], Middle(middles[0]));
      assert middles == [middles[0]] + middles[1..];
    }
  }

  // ---------------------------------------------------------------------
  // The whole line

  /** The parameter group of a written line. */
  function ParamsText(l: Line): Option<string> {
    var f := FormatParams(l.middles, l.trailing);
    if f == [] then None else Some(f)
  }

  lemma NoSpaceRun(text: string, rest: string)
    requires NoSpace(text)
    ensures Run(text + (" " + rest), NonSpace) == |text|
  {
    assert AllIn(text, NonSpace);
    RunStops(text, " " + rest, NonSpace);
  }

  /** The pieces of a marker, a text, a space and the rest. */
  lemma MarkedSlices(marker: char, text: string, rest: string)
    ensures var line := [marker] + text + " " + rest;
      && |line| > 1 + |text| && line[0] == marker
      && line[1..] == text + (" " + rest) && line[1..1 + |text|] == text
  {
    var line := [marker] + text + " " + rest;
    assert line[1..] == text + (" " + rest);
  }

  /** `@`, a tag block and a space: the tag group is the block. */
  lemma TagBlockStage(block: string, rest: string)
    requires NoSpace(block) && IsTagBlock(block)
    ensures MatchTagBlock("@" + block + " " + rest) == Some((Some(block), |block| + 2))
  {
    var line := "@" + block + " " + rest;
    MarkedSlices('@', block, rest);
    assert line == ['@'] + block + " " + rest;
    NoSpaceRun(block, rest);
    TagBlockOfRun(line, block);
  }

  /** `:`, a prefix and a space: the prefix groups are the split prefix. */
  lemma PrefixTextStage(text: string, rest: string)
    requires NoSpace(text) && SplitPrefix(text).Some?
    ensures MatchPrefix(":" + text + " " + rest) == Some((SplitPrefix(text), |text| + 2))
  {
    var line := ":" + text + " " + rest;
    MarkedSlices(':', text, rest);
    assert line == [':'] + text + " " + rest;
    NoSpaceRun(text, rest);
    PrefixOfRun(line, text);
  }

  /** The prefix groups an optional prefix text yields. */
  function PrefixOf(prefixText: Option<string>): Option<Prefix> {
    if prefixText.Some? then SplitPrefix(prefixText.value) else None
  }

  lemma TagPieceStage(block: Option<string>, rest: string)
    requires block.Some? ==> NoSpace(block.value) && IsTagBlock(block.value)
    requires |rest| > 0 && (rest[0] == ':' || IsAlnum(rest[0]))
    ensures MatchTagBlock(Enclose('@', block) + rest) == Some((block, |Enclose('@', block)|))
  {
    if block.Some? {
      assert Enclose('@', block) + rest == "@" + block.value + " " + rest;
      TagBlockStage(block.value, rest);
    } else {
      assert Enclose('@', block) + rest == rest;
    }
  }

  lemma PrefixPieceStage(prefixText: Option<string>, rest: string)
    requires prefixText.Some? ==> NoSpace(prefixText.value) && SplitPrefix(prefixText.value).Some?
    requires |rest| > 0 && IsAlnum(rest[0])
    ensures MatchPrefix(Enclose(':', prefixText) + rest) == Some((PrefixOf(prefixText), |Enclose(':', prefixText)|))
  {
    if prefixText.Some? {
      assert Enclose(':', prefixText) + rest == ":" + prefixText.value + " " + rest;
      PrefixTextStage(prefixText.value, rest);
    } else {
      assert Enclose(':', prefixText) + rest == rest;
    }
  }

  lemma FirstOfEnclose(marker: char, text: Option<string>, rest: string)
    requires |rest| > 0
    ensures (Enclose(marker, text) + rest)[0] == if text.Some? then marker else rest[0]
  {
  }

  lemma DropFront(a: string, b: string, x: string)
    ensures (a + x)[|a|..] == x
    ensures (a + (b + x))[|a| + |b|..] == x
  {
    assert (a + (b + x))[|a|..] == b + x;
  }

  /**
   * The optional tag block and prefix text hold no space and match their
   * groups, and the command is a run of letters and digits that ends where
   * `r` starts.
   */
  predicate PiecesFit(block: Option<string>, prefixText: Option<string>, c: string, r: string) {
    && (block.Some? ==> NoSpace(block.value) && IsTagBlock(block.value))
    && (prefixText.Some? ==> NoSpace(prefixText.value) && SplitPrefix(prefixText.value).Some?)
    && |c| > 0 && AllIn(c, Alnum) && (r == [] || !IsAlnum(r[0]))
  }

  /** How each optional part and the command of such a line match. */
  lemma StagesOfPieces(block: Option<string>, prefixText: Option<string>, c: string, r: string)
    requires PiecesFit(block, prefixText, c, r)
    ensures HeadParts(Enclose('@', block) + (Enclose(':', prefixText) + (c + r)), block, PrefixOf(prefixText),
                      |Enclose('@', block)|, |Enclose(':', prefixText)|, |c|)
  {
    var a, b := Enclose('@', block), Enclose(':', prefixText);
    assert (c + r)[0] == c[0];
    FirstOfEnclose(':', prefixText, c + r);
    PrefixPieceStage(prefixText, c + r);
    TagPieceStage(block, b + (c + r));
    RunStops(c, r, Alnum);
    HeadPartsOfPieces(a, b, c, r, block, PrefixOf(prefixText));
  }

  lemma HeadPartsOfPieces(a: string, b: string, c: string, r: string, tags: Option<string>, prefix: Option<Prefix>)
    requires MatchTagBlock(a + (b + (c + r))) == Some((tags, |a|))
    requires MatchPrefix(b + (c + r)) == Some((prefix, |b|))
    requires |c| > 0 && Run(c + r, Alnum) == |c|
    ensures HeadParts(a + (b + (c + r)), tags, prefix, |a|, |b|, |c|)
  {
    DropFront(a, b, c + r);
    assert (a + (b + (c + r)))[|a|..] == b + (c + r);
  }

  /** The head of a line made of an optional tag part, an optional prefix part and a command run. */
  lemma HeadOfPieces(block: Option<string>, prefixText: Option<string>, c: string, r: string)
    requires PiecesFit(block, prefixText, c, r)
    ensures MatchHead(Enclose('@', block) + (Enclose(':', prefixText) + (c + r))).Some?
    ensures var h := MatchHead(Enclose('@', block) + (Enclose(':', prefixText) + (c + r))).value;
      && h.twitchTags == block && h.prefix == PrefixOf(prefixText)
      && h.commandStart == |Enclose('@', block)| + |Enclose(':', prefixText)|
      && h.commandEnd == |Enclose('@', block)| + |Enclose(':', prefixText)| + |c|
  {
    StagesOfPieces(block, prefixText, c, r);
    HeadOfParts(Enclose('@', block) + (Enclose(':', prefixText) + (c + r)), block, PrefixOf(prefixText),
                |Enclose('@', block)|, |Enclose(':', prefixText)|, |c|);
  }

  /** Where the line expression finds the optional parts and the command of a written line. */
  lemma FitOfWellFormed(l: Line, ending: string)
    requires WellFormed(l)
    requires EndsLine(ending)
    ensures PiecesFit(TagsText(l), PrefixText(l), l.command, FormatParams(l.middles, l.trailing) + ending)
    ensures PrefixOf(PrefixText(l)) == l.prefix
  {
    if l.tags != [] {
      FormatTagsIsBlock(l.tags);
      FormatTagsNoSpace(l.tags);
    }
    if l.prefix.Some? {
      FormatPrefixRoundTrip(l.prefix.value);
      FormatPrefixNoSpace(l.prefix.value);
    }
    var r := FormatParams(l.middles, l.trailing) + ending;
    FormatParamsStart(l.middles, l.trailing);
    assert r == [] || r[0] == ' ' || IsLineTerminator(r[0]);
  }

  /** Where the line expression finds the optional parts and the command of a written line. */
  lemma HeadOfFormat(l: Line, ending: string)
    requires WellFormed(l)
    requires EndsLine(ending)
    ensures MatchHead(Format(l, ending)).Some?
    ensures var h := MatchHead(Format(l, ending)).value;
      && h.twitchTags == TagsText(l) && h.prefix == l.prefix
      && h.commandStart == |Enclose('@', TagsText(l))| + |Enclose(':', PrefixText(l))|
      && h.commandEnd == h.commandStart + |l.command|
  {
    FitOfWellFormed(l, ending);
    HeadOfPieces(TagsText(l), PrefixText(l), l.command, FormatParams(l.middles, l.trailing) + ending);
  }

  lemma SliceOfPieces(a: string, b: string, c: string, x: string)
    ensures (a + (b + (c + x)))[|a| + |b|..|a| + |b| + |c|] == c
    ensures (a + (b + (c + x)))[|a| + |b| + |c|..] == x
  {
    assert a + (b + (c + x)) == (a + b + c) + x;
    assert (a + b + c)[|a| + |b|..] == c;
  }

  /** The groups of a line whose head is known, with the command `c` and the parameter text `f` after it. */
  lemma GroupsOfHead(line: string, c: string, f: string, x: string)
    requires MatchHead(line).Some?
    requires var h := MatchHead(line).value;
      line[h.commandStart..h.commandEnd] == c && line[h.commandEnd..] == f + x
    requires ParamsLength(f + x) == |f|
    ensures MatchLine(line).Some?
    ensures var g := MatchLine(line).value;
      && g.twitchTags == MatchHead(line).value.twitchTags && g.prefix == MatchHead(line).value.prefix
      && g.command == c && g.paramsAll == (if f == [] then None else Some(f))
  {
    assert (f + x)[..|f|] == f;
  }

  /** The command and the text after it in a written line, where the head says they are. */
  lemma CommandOfFormat(l: Line, ending: string)
    requires WellFormed(l)
    requires EndsLine(ending)
    ensures MatchHead(Format(l, ending)).Some?
    ensures var h := MatchHead(Format(l, ending)).value;
      && Format(l, ending)[h.commandStart..h.commandEnd] == l.command
      && Format(l, ending)[h.commandEnd..] == FormatParams(l.middles, l.trailing) + ending
  {
    HeadOfFormat(l, ending);
    CommandSlices(Format(l, ending), Enclose('@', TagsText(l)), Enclose(':', PrefixText(l)), l.command,
                  FormatParams(l.middles, l.trailing) + ending, MatchHead(Format(l, ending)).value);
  }

  lemma CommandSlices(line: string, a: string, b: string, c: string, x: string, h: Head)
    requires line == a + (b + (c + x))
    requires h.commandStart == |a| + |b| && h.commandEnd == |a| + |b| + |c|
    ensures line[h.commandStart..h.commandEnd] == c && line[h.commandEnd..] == x
  {
    SliceOfPieces(a, b, c, x);
  }

  /** The groups of a written line are the parts it was written from. */
  lemma GroupsOfFormat(l: Line, ending: string)
    requires WellFormed(l)
    requires EndsLine(ending)
    ensures MatchLine(Format(l, ending)).Some?
    ensures var g := MatchLine(Format(l, ending)).value;
      && g.twitchTags == TagsText(l) && g.prefix == l.prefix
      && g.command == l.command && g.paramsAll == ParamsText(l)
  {
    HeadOfFormat(l, ending);
    CommandOfFormat(l, ending);
    ScanFormatParams(l.middles, l.trailing, ending);
    GroupsOfHead(Format(l, ending), l.command, FormatParams(l.middles, l.trailing), ending);
  }

  /** The parameters `from` decodes from the parameter group of a written line. */
  lemma ParamsOfFormat(l: Line, ending: string)
    requires WellFormed(l)
    requires EndsLine(ending)
    ensures ParamsOf(ParamsText(l)) == AllParams(l.middles, l.trailing)
  {
    var f := FormatParams(l.middles, l.trailing);
    if f != [] {
      var rest := f + ending;
      ScanFormatParams(l.middles, l.trailing, ending);
      FindAllParamsOfGroup(rest);
      assert rest[..ParamsLength(rest)] == f;
      TextsOfParamList(l.middles, l.trailing);
    } else {
      assert l.middles == [] && l.trailing.None?;
    }
  }

  /**
   * Round trip: a well-formed line, followed by nothing or by a line ending
   * such as `\r\n`, parses to exactly the tags, prefix, command and
   * parameters it was written from.
   */
  lemma ParseFormat(l: Line, ending: string, known: set<string>)
    requires WellFormed(l)
    requires EndsLine(ending)
    ensures Parse(Format(l, ending), known) == Some(Expected(l, known))
  {
    GroupsOfFormat(l, ending);
    ParamsOfFormat(l, ending);
    if l.tags != [] {
      FormatTagsFindAll(l.tags);
    }
  }
}
