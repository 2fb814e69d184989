/**
 * `Emote` and the extraction half of `ChatMessage.parseTwitchEmotes`:
 * the `emotes` tag of a chat line, such as `25:0-4,12-16/1902:6-10`,
 * lists for each emote id the character ranges where it appears.
 */
module Emotes {
  import opened Wrappers
  import opened Strings
  import opened SwiftInt

  /** An emote image and the inclusive character range of the message it replaces. */
  datatype Emote = Emote(url: string, start: int, end: int)

  const URL_HEAD: string := "http://static-cdn.jtvnw.net/emoticons/v1/"

  /** `http://static-cdn.jtvnw.net/emoticons/v1/$ID/$SIZE`. */
  const EMOTE_URL: string := URL_HEAD + ("$ID" + ("/" + "$SIZE"))

  /** The template with every `$ID` replaced by the id, then every `$SIZE` by `4.0`. */
  function EmoteUrl(id: string): string
  {
    ReplaceAll(ReplaceAll(EMOTE_URL, "$ID", id), "$SIZE", "4.0")
  }

  /** One `start-end` range: it counts only when it splits on `-` into exactly two integers. */
  function RangeEmote(id: string, range: string): Option<Emote>
  {
    var startEndSplit := Split(range, '-');
    if |startEndSplit| == 2 then
      var start, end := ParseInt(startEndSplit[0], 10), ParseInt(startEndSplit[1], 10);
      if start.Some? && end.Some? then Some(Emote(EmoteUrl(id), start.value, end.value)) else None
    else None
  }

  /** The emote a range gives, as a list of at most one. */
  function Listed(e: Option<Emote>): seq<Emote>
  {
    if e.Some? then [e.value] else []
  }

  /** The emotes of the ranges of one id, in order. */
  function RangeEmotes(id: string, ranges: seq<string>): seq<Emote>
  {
    if ranges == [] then []
    else RangeEmotes(id, ranges[..|ranges| - 1]) + Listed(RangeEmote(id, ranges[|ranges| - 1]))
  }

  /** One `id:ranges` group; a group without `:` gives nothing, text after a second `:` is ignored. */
  function GroupEmotes(group: string): seq<Emote>
  {
    var idIndexSplit := Split(group, ':');
    if |idIndexSplit| > 1 then RangeEmotes(idIndexSplit[0], Split(idIndexSplit[1], ',')) else []
  }

  function GroupsEmotes(groups: seq<string>): seq<Emote>
  {
    if groups == [] then []
    else GroupsEmotes(groups[..|groups| - 1]) + GroupEmotes(groups[|groups| - 1])
  }

  /** The emotes the extraction loops collect, in tag order; none without a tag. */
  function Extracted(paramsRaw: Option<string>): (emotes: seq<Emote>)
    ensures paramsRaw.None? ==> emotes == []
  {
    if paramsRaw.Some? then GroupsEmotes(Split(paramsRaw.value, '/')) else []
  }

  /** The two nested loops of `parseTwitchEmotes` that collect the emotes. */
  method ExtractEmotes(paramsRaw: Option<string>) returns (emotes: seq<Emote>)
    ensures emotes == Extracted(paramsRaw)
  {
    emotes := [];
    if paramsRaw.Some? {
      var emoteSplit := Split(paramsRaw.value, '/');
      var i := 0;
      while i < |emoteSplit|
        invariant i <= |emoteSplit|
        invariant emotes == GroupsEmotes(emoteSplit[..i])
      {
        GroupsEmotesStep(emoteSplit, i);
        var idIndexSplit := Split(emoteSplit[i], ':');
        if |idIndexSplit| > 1 {
          var emoteId := idIndexSplit[0];
          var indexSplit := Split(idIndexSplit[1], ',');
          emotes := AppendRangeEmotes(emotes, emoteId, indexSplit);
        }
        i := i + 1;
      }
      assert emoteSplit[..i] == emoteSplit;
    }
  }

  /** The inner loop: appends the emote of every well-formed range of one id. */
  method AppendRangeEmotes(before: seq<Emote>, emoteId: string, indexSplit: seq<string>) returns (emotes: seq<Emote>)
    ensures emotes == before + RangeEmotes(emoteId, indexSplit)
  {
    emotes := before;
    var j := 0;
    while j < |indexSplit|
      invariant j <= |indexSplit|
      invariant emotes == before + RangeEmotes(emoteId, indexSplit[..j])
    {
      RangeEmotesStep(emoteId, indexSplit, j);
      ghost var e := RangeEmote(emoteId, indexSplit[j]);
      ghost var step := emotes;
      var startEndSplit := Split(indexSplit[j], '-');
      if |startEndSplit| == 2 {
        var url := EmoteUrl(emoteId);
        var start := ParseInt(startEndSplit[0], 10);
        var end := ParseInt(startEndSplit[1], 10);
        if start.Some? && end.Some? {
          emotes := emotes + [Emote(url, start.value, end.value)];
        }
      }
      assert emotes == step + Listed(e);
      ConcatAssoc(before, RangeEmotes(emoteId, indexSplit[..j]), Listed(e));
      j := j + 1;
    }
    assert indexSplit[..j] == indexSplit;
  }

  lemma RangeEmotesStep(id: string, ranges: seq<string>, j: nat)
    requires j < |ranges|
    ensures RangeEmotes(id, ranges[..j + 1]) == RangeEmotes(id, ranges[..j]) + Listed(RangeEmote(id, ranges[j]))
  {
    assert ranges[..j + 1][..j] == ranges[..j];
  }

  lemma GroupsEmotesStep(groups: seq<string>, i: nat)
    requires i < |groups|
    ensures GroupsEmotes(groups[..i + 1]) == GroupsEmotes(groups[..i]) + GroupEmotes(groups[i])
  {
    assert groups[..i + 1][..i] == groups[..i];
  }

  // ---------------------------------------------------------------------
  // Properties of the extracted emotes

  /** The template with an id that holds no `$`. */
  lemma EmoteUrlOf(id: string)
    requires '$' !in id
    ensures EmoteUrl(id) == URL_HEAD + (id + ("/" + "4.0"))
  {
    HeadHasNoDollar();
    IdFilled(URL_HEAD, id);
    SizeFilled(URL_HEAD, id);
  }

  lemma IdFilled(head: string, id: string)
    requires '$' !in head
    ensures ReplaceAll(head + ("$ID" + ("/" + "$SIZE")), "$ID", id) == head + (id + ("/" + "$SIZE"))
  {
    ReplaceAllSkips(head, "$ID" + ("/" + "$SIZE"), "$ID", id);
    ReplaceAllAtFront("/" + "$SIZE", "$ID", id);
    SizeSkipped(id);
  }

  lemma SizeFilled(head: string, id: string)
    requires '$' !in head && '$' !in id
    ensures ReplaceAll(head + (id + ("/" + "$SIZE")), "$SIZE", "4.0") == head + (id + ("/" + "4.0"))
  {
    ReplaceAllSkips(head, id + ("/" + "$SIZE"), "$SIZE", "4.0");
    ReplaceAllSkips(id, "/" + "$SIZE", "$SIZE", "4.0");
    ReplaceAllSkips("/", "$SIZE", "$SIZE", "4.0");
    assert "$SIZE" == "$SIZE" + [];
    ReplaceAllAtFront([], "$SIZE", "4.0");
  }

  lemma HeadHasNoDollar()
    ensures '$' !in URL_HEAD
  {
    assert forall k :: 0 <= k < |URL_HEAD| ==> URL_HEAD[k] != '$';
  }

  lemma SizeSkipped(id: string)
    ensures ReplaceAll("/" + "$SIZE", "$ID", id) == "/" + "$SIZE"
  {
    var s := "/" + "$SIZE";
    assert s[..3][0] == '/';
    assert s[1..] == "$SIZE";
    assert s[1..][..3][1] == 'S';
    assert s[1..][1..] == "SIZE";
    assert '$' !in "SIZE";
  }

  /** A range is never negative: `-` separates start from end, so neither can carry a sign. */
  lemma RangeEmoteNonNegative(id: string, range: string)
    requires RangeEmote(id, range).Some?
    ensures RangeEmote(id, range).value.start >= 0 && RangeEmote(id, range).value.end >= 0
    ensures RangeEmote(id, range).value.url == EmoteUrl(id)
  {
    var parts := Split(range, '-');
    ParseIntRange(parts[0], 10);
    ParseIntRange(parts[1], 10);
  }

  predicate AllNonNegative(emotes: seq<Emote>) {
    forall k :: 0 <= k < |emotes| ==> emotes[k].start >= 0 && emotes[k].end >= 0
  }

  lemma {:induction false} RangeEmotesNonNegative(id: string, ranges: seq<string>)
    ensures AllNonNegative(RangeEmotes(id, ranges))
  {
    if ranges != [] {
      RangeEmotesNonNegative(id, ranges[..|ranges| - 1]);
      if RangeEmote(id, ranges[|ranges| - 1]).Some? {
        RangeEmoteNonNegative(id, ranges[|ranges| - 1]);
      }
    }
  }

  lemma {:induction false} GroupsEmotesNonNegative(groups: seq<string>)
    ensures AllNonNegative(GroupsEmotes(groups))
  {
    if groups != [] {
      GroupsEmotesNonNegative(groups[..|groups| - 1]);
      var idIndexSplit := Split(groups[|groups| - 1], ':');
      if |idIndexSplit| > 1 {
        RangeEmotesNonNegative(idIndexSplit[0], Split(idIndexSplit[1], ','));
      }
    }
  }

  /** Every extracted start and end is at least 0. */
  lemma ExtractedNonNegative(paramsRaw: Option<string>)
    ensures AllNonNegative(Extracted(paramsRaw))
  {
    if paramsRaw.Some? {
      GroupsEmotesNonNegative(Split(paramsRaw.value, '/'));
    }
  }

  // ---------------------------------------------------------------------
  // Writing an emotes tag and reading it back

  /** Decimal digits of a natural number, most significant first. */
  function Decimal(n: nat): (s: string)
    ensures |s| > 0
  {
    if n < 10 then [('0' as int + n) as char] else Decimal(n / 10) + [('0' as int + n % 10) as char]
  }

  lemma {:induction false} DecimalValue(n: nat)
    ensures IsDigits(Decimal(n), 10) && DigitsValue(Decimal(n), 10) == n
    ensures '-' !in Decimal(n) && ',' !in Decimal(n) && '/' !in Decimal(n) && ':' !in Decimal(n)
  {
    var s := Decimal(n);
    if n < 10 {
      assert s[..0] == [];
    } else {
      DecimalValue(n / 10);
      assert s[..|s| - 1] == Decimal(n / 10);
    }
  }

  /** `Int(_:)` reads back the digits of any value that fits in `Int`. */
  lemma ParseDecimal(n: nat)
    requires n <= INT_MAX
    ensures ParseInt(Decimal(n), 10) == Some(n)
  {
    DecimalValue(n);
    var s := Decimal(n);
    assert DigitValue(s[0], 10).Some?;
  }

  /** A range `start-end` as the chat server writes it. */
  function RangeText(r: (nat, nat)): string
  {
    Decimal(r.0) + "-" + Decimal(r.1)
  }

  function RangeTexts(ranges: seq<(nat, nat)>): (texts: seq<string>)
    ensures |texts| == |ranges|
  {
    if ranges == [] then [] else RangeTexts(ranges[..|ranges| - 1]) + [RangeText(ranges[|ranges| - 1])]
  }

  /** The emotes an id and its ranges stand for, in range order: an independent reading of one group. */
  function EmotesOfRanges(id: string, ranges: seq<(nat, nat)>): seq<Emote>
  {
    if ranges == [] then []
    else EmotesOfRanges(id, ranges[..|ranges| - 1]) + [Emote(EmoteUrl(id), ranges[|ranges| - 1].0, ranges[|ranges| - 1].1)]
  }

  predicate InIntRange(r: (nat, nat)) { r.0 <= INT_MAX && r.1 <= INT_MAX }

  lemma RangeEmoteOfText(id: string, r: (nat, nat))
    requires InIntRange(r)
    ensures RangeEmote(id, RangeText(r)) == Some(Emote(EmoteUrl(id), r.0, r.1))
    ensures ',' !in RangeText(r) && '/' !in RangeText(r) && ':' !in RangeText(r)
  {
    DecimalValue(r.0);
    DecimalValue(r.1);
    var parts := [Decimal(r.0), Decimal(r.1)];
    assert Join(parts, '-') == RangeText(r) by {
      assert Join(parts[1..], '-') == Decimal(r.1);
    }
    SplitJoin(parts, '-');
    ParseDecimal(r.0);
    ParseDecimal(r.1);
  }

  lemma {:induction false} RangeEmotesOfTexts(id: string, ranges: seq<(nat, nat)>)
    requires forall k :: 0 <= k < |ranges| ==> InIntRange(ranges[k])
    ensures RangeEmotes(id, RangeTexts(ranges)) == EmotesOfRanges(id, ranges)
    ensures forall k :: 0 <= k < |ranges| ==> ',' !in RangeTexts(ranges)[k] && '/' !in RangeTexts(ranges)[k] && ':' !in RangeTexts(ranges)[k]
  {
    if ranges != [] {
      var texts := RangeTexts(ranges);
      RangeEmotesOfTexts(id, ranges[..|ranges| - 1]);
      RangeEmoteOfText(id, ranges[|ranges| - 1]);
      assert texts[..|texts| - 1] == RangeTexts(ranges[..|ranges| - 1]);
    }
  }

  /** An id and the text of its ranges, `id:s1-e1,s2-e2`. */
  function GroupText(id: string, ranges: seq<(nat, nat)>): string
  {
    id + ":" + (if ranges == [] then "" else Join(RangeTexts(ranges), ','))
  }

  predicate IsEmoteId(id: string) { ':' !in id && '/' !in id }

  /** One group reads back as the emotes of its ranges, in range order. */
  lemma GroupEmotesOfText(id: string, ranges: seq<(nat, nat)>)
    requires |ranges| > 0 && IsEmoteId(id)
    requires forall k :: 0 <= k < |ranges| ==> InIntRange(ranges[k])
    ensures GroupEmotes(GroupText(id, ranges)) == EmotesOfRanges(id, ranges)
    ensures '/' !in GroupText(id, ranges)
  {
    var texts := RangeTexts(ranges);
    RangeEmotesOfTexts(id, ranges);
    var body := Join(texts, ',');
    JoinHasNo(texts, ',', ':');
    JoinHasNo(texts, ',', '/');
    var parts := [id, body];
    assert Join(parts, ':') == GroupText(id, ranges) by {
      assert Join(parts[1..], ':') == body;
    }
    SplitJoin(parts, ':');
    SplitJoin(texts, ',');
  }

  /** One `id:ranges` group of the tag. */
  datatype EmoteGroup = EmoteGroup(id: string, ranges: seq<(nat, nat)>)

  predicate ValidGroup(g: EmoteGroup) {
    && |g.ranges| > 0 && IsEmoteId(g.id)
    && forall k :: 0 <= k < |g.ranges| ==> InIntRange(g.ranges[k])
  }

  function GroupTexts(groups: seq<EmoteGroup>): (texts: seq<string>)
    ensures |texts| == |groups|
  {
    if groups == [] then []
    else
      var g := groups[|groups| - 1];
      GroupTexts(groups[..|groups| - 1]) + [GroupText(g.id, g.ranges)]
  }

  /** The emotes the groups stand for, group by group and range by range. */
  function EmotesOfGroups(groups: seq<EmoteGroup>): seq<Emote>
  {
    if groups == [] then []
    else
      var g := groups[|groups| - 1];
      EmotesOfGroups(groups[..|groups| - 1]) + EmotesOfRanges(g.id, g.ranges)
  }

  lemma {:induction false} GroupsEmotesOfTexts(groups: seq<EmoteGroup>)
    requires forall k :: 0 <= k < |groups| ==> ValidGroup(groups[k])
    ensures GroupsEmotes(GroupTexts(groups)) == EmotesOfGroups(groups)
    ensures forall k :: 0 <= k < |groups| ==> '/' !in GroupTexts(groups)[k]
  {
    if groups != [] {
      var g := groups[|groups| - 1];
      var texts := GroupTexts(groups);
      GroupsEmotesOfTexts(groups[..|groups| - 1]);
      GroupEmotesOfText(g.id, g.ranges);
      assert texts[..|texts| - 1] == GroupTexts(groups[..|groups| - 1]);
    }
  }

  /**
   * A tag `id1:s-e,s-e/id2:s-e` written from emote groups reads back as
   * one emote per range, in tag order, each with its group's URL.
   */
  lemma ExtractedOfTag(groups: seq<EmoteGroup>)
    requires |groups| > 0
    requires forall k :: 0 <= k < |groups| ==> ValidGroup(groups[k])
    ensures Extracted(Some(Join(GroupTexts(groups), '/'))) == EmotesOfGroups(groups)
  {
    GroupsEmotesOfTexts(groups);
    ExtractedOfJoin(GroupTexts(groups), EmotesOfGroups(groups));
  }

  /** Texts without `/` joined into a tag extract to what their groups list. */
  lemma ExtractedOfJoin(texts: seq<string>, emotes: seq<Emote>)
    requires |texts| > 0
    requires forall k :: 0 <= k < |texts| ==> '/' !in texts[k]
    requires GroupsEmotes(texts) == emotes
    ensures Extracted(Some(Join(texts, '/'))) == emotes
  {
    var tag := Join(texts, '/');
    SplitJoin(texts, '/');
    assert Split(tag, '/') == texts;
  }
}
