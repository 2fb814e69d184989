/**
 * `IrcMessage.from(rawMessage:)`: one raw IRC line, optionally preceded by
 * a Twitch (IRCv3-style) tag block, becomes a message record of tags,
 * prefix name/user/host, command and ordered parameters.
 *
 * The source states its grammar as three ICU regular expressions
 * (IrcMessage.swift:85-89):
 *
 *   line   ^(?:@((?:T;?)+)\s)?(?::([^!@\s]+)(?:!([^@\s]+))?(?:@([^\s]+))?\s)?([A-Za-z0-9]+)(P+)?(?:\r?\n?)
 *   T      (([^\s;=]+)=([^\s;]*))
 *   P      (\s(?:(?::(.*))|(?:([^\s]+))))
 *
 * Here each part of the line expression is a scanner function that
 * returns the same capture groups the regex engine does.  `from` then
 * decodes the tag group and the parameter group with two `findAll`
 * loops, modelled as the methods ParseTwitchTags and ParseParams.
 */
module IrcMessage {
  import opened Wrappers
  import opened Strings

  // ---------------------------------------------------------------------
  // Character classes of the expressions

  /**
   * `\s`: the Unicode White_Space characters ICU matches, that is U+0009 to
   * U+000D, U+0020, U+0085, U+00A0, U+1680, U+2000 to U+200A, U+2028,
   * U+2029, U+202F, U+205F and U+3000.
   */
  predicate IsSpace(c: char) {
    || '\t' <= c <= '\r' || c == ' ' || c == '\U{85}' || c == '\U{A0}' || c == '\U{1680}'
    || '\U{2000}' <= c <= '\U{200A}' || c == '\U{2028}' || c == '\U{2029}' || c == '\U{202F}'
    || c == '\U{205F}' || c == '\U{3000}'
  }

  /** The characters ICU's `.` does not match: U+000A to U+000D, U+0085, U+2028 and U+2029. */
  predicate IsLineTerminator(c: char) {
    '\n' <= c <= '\r' || c == '\U{85}' || c == '\U{2028}' || c == '\U{2029}'
  }

  /** `[A-Za-z0-9]` */
  predicate IsAlnum(c: char) { 'A' <= c <= 'Z' || 'a' <= c <= 'z' || '0' <= c <= '9' }

  /** `[^\s;=]`, a character of a tag key. */
  predicate IsTagKeyChar(c: char) { !IsSpace(c) && c != ';' && c != '=' }

  /** `[^\s;]`, a character of a tag value. */
  predicate IsTagValueChar(c: char) { !IsSpace(c) && c != ';' }

  /** `[^!@\s]`, a character of the prefix name. */
  predicate IsNameChar(c: char) { !IsSpace(c) && c != '!' && c != '@' }

  /** `[^@\s]`, a character of the prefix user. */
  predicate IsUserChar(c: char) { !IsSpace(c) && c != '@' }

  /** The classes the expressions scan runs of. */
  datatype CharClass = NonSpace | TagKey | TagValue | NameChar | UserChar | Alnum | NonTerminator

  predicate InClass(c: char, cls: CharClass) {
    match cls
    case NonSpace => !IsSpace(c)
    case TagKey => IsTagKeyChar(c)
    case TagValue => IsTagValueChar(c)
    case NameChar => IsNameChar(c)
    case UserChar => IsUserChar(c)
    case Alnum => IsAlnum(c)
    case NonTerminator => !IsLineTerminator(c)
  }

  /** Length of the longest prefix of `s` in class `cls`: what a greedy `[...]+` or `[...]*` takes. */
  function Run(s: string, cls: CharClass): (n: nat)
    ensures n <= |s|
    ensures forall i :: 0 <= i < n ==> InClass(s[i], cls)
    ensures n < |s| ==> !InClass(s[n], cls)
  {
    RunFrom(s, cls, 0)
  }

  /** Length of the run in class `cls` that starts at index `start` of `s`. */
  function RunFrom(s: string, cls: CharClass, start: nat): (n: nat)
    requires start <= |s|
    ensures start + n <= |s|
    ensures forall i :: start <= i < start + n ==> InClass(s[i], cls)
    ensures start + n < |s| ==> !InClass(s[start + n], cls)
    decreases |s| - start
  {
    if start == |s| || !InClass(s[start], cls) then 0 else 1 + RunFrom(s, cls, start + 1)
  }

  /** The three facts in Run's contract pin its value down. */
  lemma RunUnique(s: string, cls: CharClass, n: nat)
    requires n <= |s|
    requires forall i :: 0 <= i < n ==> InClass(s[i], cls)
    requires n < |s| ==> !InClass(s[n], cls)
    ensures Run(s, cls) == n
  {
  }

  /** Cutting the string anywhere after the run does not change the run. */
  lemma RunOfPrefix(s: string, cls: CharClass, len: nat)
    requires Run(s, cls) <= len <= |s|
    ensures Run(s[..len], cls) == Run(s, cls)
  {
    var n := Run(s, cls);
    assert forall i :: 0 <= i < n ==> s[..len][i] == s[i];
    if n < len {
      assert s[..len][n] == s[n];
    }
    RunUnique(s[..len], cls, n);
  }

  /** A run that covers all of `a` continues into `b`. */
  lemma RunAppend(a: string, b: string, cls: CharClass)
    requires forall i :: 0 <= i < |a| ==> InClass(a[i], cls)
    ensures Run(a + b, cls) == |a| + Run(b, cls)
  {
    var n := |a| + Run(b, cls);
    var s := a + b;
    forall i | 0 <= i < n
      ensures InClass(s[i], cls)
    {
      if i >= |a| {
        assert s[i] == b[i - |a|];
      }
    }
    if n < |s| {
      assert s[n] == b[Run(b, cls)];
    }
    RunUnique(s, cls, n);
  }

  /**
   * Run is Strings.Span with the class as its predicate.  The scanner keeps
   * this first-order, index-based copy so that its proofs unfold no lambda
   * and no slice.
   */
  lemma RunIsSpan(s: string, cls: CharClass)
    ensures Run(s, cls) == Span(s, c => InClass(c, cls))
  {
    SpanUnique(s, c => InClass(c, cls), Run(s, cls));
  }

  predicate NoSpace(s: string) { forall i :: 0 <= i < |s| ==> !IsSpace(s[i]) }

  predicate NoLineTerminator(s: string) { forall i :: 0 <= i < |s| ==> !IsLineTerminator(s[i]) }

  // ---------------------------------------------------------------------
  // Tags

  /**
   * One match of T at the very start of `s`: key, value and the number of
   * characters consumed.  The key run is greedy, and no shorter key can be
   * followed by `=`, so this is the only match starting there.
   */
  function TagAt(s: string): (r: Option<(string, string, nat)>)
    ensures r.Some? ==> 0 < r.value.2 <= |s|
  {
    var k := Run(s, TagKey);
    if 0 < k < |s| && s[k] == '=' then
      var v := Run(s[k + 1..], TagValue);
      Some((s[..k], s[k + 1..k + 1 + v], k + 1 + v))
    else None
  }

  /** T matches with the key run and the value run after its `=`. */
  lemma TagAtOfRuns(s: string, keyLength: nat, valueLength: nat)
    requires 0 < keyLength < |s| && s[keyLength] == '=' && Run(s, TagKey) == keyLength
    requires Run(s[keyLength + 1..], TagValue) == valueLength
    ensures TagAt(s) == Some((s[..keyLength], s[keyLength + 1..keyLength + 1 + valueLength], keyLength + 1 + valueLength))
  {
  }

  /**
   * A match of T is a non-empty key of key characters, `=`, and the longest
   * run of value characters after it.
   */
  lemma TagAtShape(s: string)
    requires TagAt(s).Some?
    ensures var (k, v, n) := TagAt(s).value;
      && n == |k| + 1 + |v| && s[..n] == k + "=" + v
      && IsTagPair((k, v))
      && (n < |s| ==> !IsTagValueChar(s[n]))
  {
    var k := Run(s, TagKey);
    var v := Run(s[k + 1..], TagValue);
    assert s[..k + 1 + v] == s[..k] + "=" + s[k + 1..k + 1 + v];
  }

  /**
   * The language of `(?:T;?)+`: items matched greedily, each followed by an
   * optional `;`.  A value runs to the next `;`, so splitting it into two
   * items never lets more text match than the greedy reading does.
   */
  predicate IsTagBlock(t: string)
    decreases |t|
  {
    match TagAt(t)
    case None => false
    case Some((_, _, n)) =>
      var after := t[n..];
      after == [] || (after[0] == ';' && (|after| == 1 || IsTagBlock(after[1..])))
  }

  /** `TWITCH_TAG_REGEX.findAll(in:)`: every leftmost match of T, left to right. */
  function FindAllTags(s: string): (pairs: seq<(string, string)>)
    decreases |s|
  {
    if s == [] then []
    else match TagAt(s)
      case Some((k, v, n)) => [(k, v)] + FindAllTags(s[n..])
      case None => FindAllTags(s[1..])
  }

  /** A decoded tag: a non-empty key without space, `;` or `=`, and a value without space or `;`. */
  predicate IsTagPair(p: (string, string)) {
    && |p.0| > 0
    && (forall i :: 0 <= i < |p.0| ==> IsTagKeyChar(p.0[i]))
    && (forall i :: 0 <= i < |p.1| ==> IsTagValueChar(p.1[i]))
  }

  /** `tags[key] = value` for each match in turn. */
  function TagMap(pairs: seq<(string, string)>): map<string, string>
  {
    if pairs == [] then map[]
    else TagMap(pairs[..|pairs| - 1])[pairs[|pairs| - 1].0 := pairs[|pairs| - 1].1]
  }

  /** What `parseTwitchTags(rawTags:)` returns. */
  function TagsOf(rawTags: Option<string>): map<string, string>
  {
    match rawTags
    case None => map[]
    case Some(s) => TagMap(FindAllTags(s))
  }

  lemma TagMapSnoc(pairs: seq<(string, string)>, k: string, v: string)
    ensures TagMap(pairs + [(k, v)]) == TagMap(pairs)[k := v]
  {
    assert (pairs + [(k, v)])[..|pairs|] == pairs;
  }

  /** The loop of `parseTwitchTags(rawTags:)` over the matches of T, left to right. */
  method ParseTwitchTags(rawTags: Option<string>) returns (tags: map<string, string>)
    ensures tags == TagsOf(rawTags)
  {
    tags := map[];
    if rawTags.Some? {
      var rest := rawTags.value;
      ghost var found: seq<(string, string)> := [];
      while rest != []
        invariant found + FindAllTags(rest) == FindAllTags(rawTags.value)
        invariant tags == TagMap(found)
        decreases |rest|
      {
        var m := TagAt(rest);
        if m.Some? {
          var (k, v, n) := m.value;
          ConcatAssoc(found, [(k, v)], FindAllTags(rest[n..]));
          TagMapSnoc(found, k, v);
          tags := tags[k := v];
          found := found + [(k, v)];
          rest := rest[n..];
        } else {
          rest := rest[1..];
        }
      }
      assert found + [] == found;
    }
  }

  // ---------------------------------------------------------------------
  // Prefix

  /** The prefix groups; user and host are nil when their part is absent. */
  datatype Prefix = Prefix(name: string, user: Option<string>, host: Option<string>)

  /**
   * `([^!@\s]+)(?:!([^@\s]+))?(?:@([^\s]+))?` over a prefix text `p` that
   * holds no space: the groups of the one way it matches all of `p`.
   */
  function SplitPrefix(p: string): (r: Option<Prefix>)
    ensures r.Some? ==> |r.value.name| > 0 && (forall i :: 0 <= i < |r.value.name| ==> IsNameChar(r.value.name[i]))
    ensures r.Some? && r.value.user.Some? ==> |r.value.user.value| > 0
    ensures r.Some? && r.value.host.Some? ==> |r.value.host.value| > 0
  {
    var n := Run(p, NameChar);
    if n == 0 then None
    else if n == |p| then Some(Prefix(p, None, None))
    else if p[n] == '@' then
      if n + 1 < |p| then Some(Prefix(p[..n], None, Some(p[n + 1..]))) else None
    else if p[n] == '!' then
      var rest := p[n + 1..];
      var m := Run(rest, UserChar);
      if m == 0 then None
      else if m == |rest| then Some(Prefix(p[..n], Some(rest), None))
      else if rest[m] == '@' && m + 1 < |rest| then Some(Prefix(p[..n], Some(rest[..m]), Some(rest[m + 1..])))
      else None
    else None
  }

  // ---------------------------------------------------------------------
  // Parameters

  /** One iteration of P: a middle parameter or a `:`-introduced trailing one. */
  datatype Param = Middle(text: string) | Trailing(text: string)

  /**
   * One match of P at the very start of `s`, with the number of characters
   * consumed.  The `:` alternative is tried first and `.*` stops at the
   * first line terminator; otherwise the middle runs to the next space.
   */
  function ParamAt(s: string): (r: Option<(Param, nat)>)
    ensures r.Some? ==> 2 <= r.value.1 <= |s|
  {
    if |s| >= 2 && IsSpace(s[0]) && s[1] == ':' then
      var e := Run(s[2..], NonTerminator);
      Some((Trailing(s[2..2 + e]), 2 + e))
    else if |s| >= 2 && IsSpace(s[0]) && !IsSpace(s[1]) then
      var w := Run(s[1..], NonSpace);
      Some((Middle(s[1..1 + w]), 1 + w))
    else None
  }

  /** P matches where a space character is followed by `:` or by a non-space character. */
  lemma ParamAtSome(s: string)
    ensures ParamAt(s).Some? <==> |s| >= 2 && IsSpace(s[0]) && (s[1] == ':' || !IsSpace(s[1]))
  {
  }

  /**
   * A middle parameter is a non-empty run of non-space characters that does
   * not start with `:`; a trailing one is everything after `:` up to the
   * first line terminator.  Either is preceded by one space character.
   */
  lemma ParamAtShape(s: string)
    requires ParamAt(s).Some?
    ensures var (p, n) := ParamAt(s).value;
      && (p.Middle? ==> |p.text| > 0 && p.text[0] != ':' && NoSpace(p.text) && n == 1 + |p.text|
                        && s[..n] == [s[0]] + p.text && (n < |s| ==> IsSpace(s[n])))
      && (p.Trailing? ==> NoLineTerminator(p.text) && n == 2 + |p.text|
                          && s[..n] == [s[0], ':'] + p.text && (n < |s| ==> IsLineTerminator(s[n])))
  {
    if s[1] == ':' {
      var rest := s[2..];
      var e := Run(rest, NonTerminator);
      var t := s[2..2 + e];
      forall k | 0 <= k < |t|
        ensures !IsLineTerminator(t[k])
      {
        assert t[k] == rest[k];
        assert InClass(rest[k], NonTerminator);
      }
      assert 2 + e < |s| ==> s[2 + e] == rest[e];
      assert s[..2 + e] == [s[0], ':'] + t;
    } else {
      var rest := s[1..];
      var w := Run(rest, NonSpace);
      var t := s[1..1 + w];
      assert !InClass(rest[0], NonSpace) == IsSpace(s[1]);
      assert w > 0;
      forall k | 0 <= k < |t|
        ensures !IsSpace(t[k])
      {
        assert t[k] == rest[k];
        assert InClass(rest[k], NonSpace);
      }
      assert t[0] == s[1];
      assert 1 + w < |s| ==> s[1 + w] == rest[w];
      assert s[..1 + w] == [s[0]] + t;
    }
  }

  /** The iterations of the greedy group `(P+)?`, starting at the front of `s`. */
  function ScanParams(s: string): seq<Param>
    decreases |s|
  {
    match ParamAt(s)
    case None => []
    case Some((p, n)) => [p] + ScanParams(s[n..])
  }

  /** How many characters those iterations consume: the length of the `params_all` group. */
  function ParamsLength(s: string): (n: nat)
    ensures n <= |s|
    ensures n == 0 <==> ParamAt(s).None?
    decreases |s|
  {
    match ParamAt(s)
    case None => 0
    case Some((_, k)) => k + ParamsLength(s[k..])
  }

  /** `MESSAGE_COMMAND_PARAMS_REGEX.findAll(in:)`: every leftmost match of P, left to right. */
  function FindAllParams(s: string): seq<Param>
    decreases |s|
  {
    if s == [] then []
    else match ParamAt(s)
      case Some((p, n)) => [p] + FindAllParams(s[n..])
      case None => FindAllParams(s[1..])
  }

  /** The text of each parameter, in order. */
  function Texts(ps: seq<Param>): seq<string>
  {
    if ps == [] then [] else Texts(ps[..|ps| - 1]) + [ps[|ps| - 1].text]
  }

  /** What `parseParams(rawParams:)` returns. */
  function ParamsOf(rawParams: Option<string>): seq<string>
  {
    match rawParams
    case None => []
    case Some(s) => Texts(FindAllParams(s))
  }

  lemma TextsSnoc(ps: seq<Param>, p: Param)
    ensures Texts(ps + [p]) == Texts(ps) + [p.text]
  {
    assert (ps + [p])[..|ps|] == ps;
  }

  /** The loop of `parseParams(rawParams:)` over the matches of P, left to right. */
  method ParseParams(rawParams: Option<string>) returns (params: seq<string>)
    ensures params == ParamsOf(rawParams)
  {
    params := [];
    if rawParams.Some? {
      var rest := rawParams.value;
      ghost var found: seq<Param> := [];
      while rest != []
        invariant found + FindAllParams(rest) == FindAllParams(rawParams.value)
        invariant params == Texts(found)
        decreases |rest|
      {
        var m := ParamAt(rest);
        if m.Some? {
          var (p, n) := m.value;
          ConcatAssoc(found, [p], FindAllParams(rest[n..]));
          TextsSnoc(found, p);
          params := params + [p.text];
          found := found + [p];
          rest := rest[n..];
        } else {
          rest := rest[1..];
        }
      }
      assert found + [] == found;
    }
  }

  // ---------------------------------------------------------------------
  // The whole line

  /** The named groups `from` reads from a match of the line expression. */
  datatype Groups = Groups(twitchTags: Option<string>, prefix: Option<Prefix>, command: string, paramsAll: Option<string>)

  /**
   * `(?:@((?:T;?)+)\s)?` at the start of the line.  The block holds no
   * space, so it is the run of non-space characters after `@` and must be
   * followed by a space.  When the line starts with `@` and no block
   * matches, skipping the optional group cannot help either: neither the
   * prefix (`:`) nor the command (`[A-Za-z0-9]`) can start with `@`.
   */
  function MatchTagBlock(line: string): (r: Option<(Option<string>, nat)>)
    ensures r.Some? ==> r.value.1 <= |line|
  {
    if |line| > 0 && line[0] == '@' then
      var n := Run(line[1..], NonSpace);
      if 1 + n < |line| && IsTagBlock(line[1..1 + n]) then Some((Some(line[1..1 + n]), n + 2)) else None
    else Some((None, 0))
  }

  /**
   * `(?::([^!@\s]+)(?:!([^@\s]+))?(?:@([^\s]+))?\s)?` after the tags: the
   * prefix text is the run of non-space characters after `:` and must be
   * followed by a space.  A line part starting with `:` cannot skip the
   * group, since the command cannot start with `:`.
   */
  function MatchPrefix(s: string): (r: Option<(Option<Prefix>, nat)>)
    ensures r.Some? ==> r.value.1 <= |s|
  {
    if |s| > 0 && s[0] == ':' then
      var n := Run(s[1..], NonSpace);
      if 1 + n < |s| then
        match SplitPrefix(s[1..1 + n])
        case None => None
        case Some(p) => Some((Some(p), n + 2))
      else None
    else Some((None, 0))
  }

  /** Where a match of the line expression puts the optional parts and the command. */
  datatype Head = Head(twitchTags: Option<string>, prefix: Option<Prefix>, commandStart: nat, commandEnd: nat)

  /**
   * The part of the line expression up to the command.  The command run is
   * greedy, and nothing after it can fail: `(P+)?` and `\r?\n?` both match
   * the empty string and there is no `$`.
   */
  function MatchHead(line: string): (r: Option<Head>)
    ensures r.Some? ==> r.value.commandStart < r.value.commandEnd <= |line|
  {
    match MatchTagBlock(line)
    case None => None
    case Some((tags, i)) =>
      match MatchPrefix(line[i..])
      case None => None
      case Some((prefix, j)) =>
        var c := Run(line[i + j..], Alnum);
        if c == 0 then None else Some(Head(tags, prefix, i + j, i + j + c))
  }

  /**
   * `MESSAGE_REGEX.findFirst(in:)`: the command is the whole alphanumeric
   * run and the parameter group is whatever the greedy iterations of P
   * consume after it.
   */
  function MatchLine(line: string): (r: Option<Groups>)
    ensures r.Some? <==> MatchHead(line).Some?
  {
    match MatchHead(line)
    case None => None
    case Some(h) =>
      var rest := line[h.commandEnd..];
      var n := ParamsLength(rest);
      Some(Groups(h.twitchTags, h.prefix, line[h.commandStart..h.commandEnd], if n == 0 then None else Some(rest[..n])))
  }

  // ---------------------------------------------------------------------
  // The message record

  /**
   * `IrcClient.Command`.  Only NONE is known by name; every other case is
   * represented by its raw value.
   */
  datatype Command = NONE | Known(rawValue: string)

  /**
   * `IrcClient.Command(rawValue:) ?? .NONE`, with the set of raw values
   * the enumeration declares given as `known`.
   */
  function CommandFromRaw(raw: string, known: set<string>): (c: Command)
    ensures c.Known? <==> raw in known
    ensures c.Known? ==> c.rawValue == raw
  {
    if raw in known then Known(raw) else NONE
  }

  datatype Message = Message(
    twitchTags: map<string, string>,
    serverName: string,
    nick: string,
    user: string,
    host: string,
    command: Command,
    params: seq<string>)

  /** The message `from(rawMessage:)` returns, or nil when the line expression does not match. */
  function Parse(line: string, known: set<string>): (r: Option<Message>)
    ensures r.Some? ==> r.value.nick == r.value.serverName
    ensures r.Some? <==> MatchHead(line).Some?
    ensures r.Some? && MatchLine(line).value.prefix.None? ==> r.value.nick == r.value.user == r.value.host == ""
  {
    match MatchLine(line)
    case None => None
    case Some(g) =>
      var name := if g.prefix.Some? then g.prefix.value.name else "";
      var user := if g.prefix.Some? then g.prefix.value.user.GetOr("") else "";
      var host := if g.prefix.Some? then g.prefix.value.host.GetOr("") else "";
      Some(Message(TagsOf(g.twitchTags), name, name, user, host,
                   CommandFromRaw(g.command, known), ParamsOf(g.paramsAll)))
  }

  /** `IrcMessage.from(rawMessage:)`. */
  method From(rawMessage: string, known: set<string>) returns (r: Option<Message>)
    ensures r == Parse(rawMessage, known)
  {
    var groups := MatchLine(rawMessage);
    if groups.None? {
      return None;
    }
    var g := groups.value;
    var twitchTags := ParseTwitchTags(g.twitchTags);
    var serverNameOrNick := if g.prefix.Some? then g.prefix.value.name else "";
    var user := if g.prefix.Some? then g.prefix.value.user.GetOr("") else "";
    var host := if g.prefix.Some? then g.prefix.value.host.GetOr("") else "";
    var command := CommandFromRaw(g.command, known);
    var params := ParseParams(g.paramsAll);
    r := Some(Message(twitchTags, serverNameOrNick, serverNameOrNick, user, host, command, params));
  }
}
