/**
 * `ChatMessage`: the display record the chat overlay shows for one
 * PRIVMSG line, built from the parsed IRC message and the badge table.
 */
module ChatMessages {
  import opened Wrappers
  import opened SafeIndex
  import opened HexColor
  import opened Badges
  import opened Emotes
  import opened EmoteOrder
  import opened IrcMessage
  import opened IrcMessageFormat
  import opened IrcMessageProperties

  datatype ChatMessage = ChatMessage(
    name: string,
    message: string,
    color: Rgb,
    badges: seq<string>,
    emotes: seq<Emote>)

  /** A tag value of the message, nil when the key is absent. */
  function Tag(message: Message, key: string): (v: Option<string>)
    ensures v.Some? <==> key in message.twitchTags
    ensures v.Some? ==> v.value == message.twitchTags[key]
  {
    if key in message.twitchTags then Some(message.twitchTags[key]) else None
  }

  /** `parseTwitchEmotes`: the extraction loops, then the selection loop. */
  method ParseTwitchEmotes(paramsRaw: Option<string>) returns (emotes: seq<Emote>)
    ensures emotes == Ordered(Extracted(paramsRaw))
  {
    var extracted := ExtractEmotes(paramsRaw);
    emotes := OrderEmotes(extracted);
  }

  /**
   * `init(ircMessage:)`.  The badge table the app keeps in a global is
   * the parameter `chatBadges`.
   */
  method FromIrc(message: Message, chatBadges: Option<TwitchBadges>) returns (c: ChatMessage)
    ensures "display-name" in message.twitchTags ==> c.name == message.twitchTags["display-name"]
    ensures "display-name" !in message.twitchTags ==> c.name == message.nick
    ensures |message.params| >= 2 ==> c.message == message.params[1]
    ensures |message.params| < 2 ==> c.message == ""
    ensures c.color == ColorOr(Tag(message, "color"))
    ensures c.badges == BadgeUrls(Tag(message, "badges"), chatBadges)
    ensures c.emotes == Ordered(Extracted(Tag(message, "emotes")))
  {
    var name := message.nick;
    if "display-name" in message.twitchTags {
      name := message.twitchTags["display-name"];
    }
    var body := At(message.params, 1).GetOr("");
    var color := GREEN;
    if "color" in message.twitchTags && FromHex(message.twitchTags["color"]).Some? {
      color := FromHex(message.twitchTags["color"]).value;
    }
    var badges := ParseTwitchBadges(Tag(message, "badges"), chatBadges);
    var emotes := ParseTwitchEmotes(Tag(message, "emotes"));
    c := ChatMessage(name, body, color, badges, emotes);
  }

  /** `init(name:message:color:)`: no badges, no emotes, green when the colour text does not decode. */
  function Make(name: string, message: string, color: string): (c: ChatMessage)
    ensures c.name == name && c.message == message
    ensures c.badges == [] && c.emotes == []
    ensures ValidRgb(c.color)
    ensures FromHex(color).None? ==> c.color == GREEN
    ensures FromHex(color).Some? ==> c.color == FromHex(color).value
  {
    ChatMessage(name, message, ColorOr(Some(color)), [], [])
  }

  // ---------------------------------------------------------------------
  // Properties

  /** A chat colour is always three bytes, and a server `#rrggbb` colour is shown as sent. */
  lemma ColorOfTag(message: Message, c: Rgb)
    requires ValidRgb(c)
    requires Tag(message, "color") == Some(ToHex(c))
    ensures ColorOr(Tag(message, "color")) == c
  {
    FromToHex(c);
  }

  /**
   * The emotes a chat message shows: strictly increasing by start, each
   * the first extracted emote with its start, and one for every distinct
   * start the tag lists (every start read from the tag is at least 0).
   */
  lemma EmotesOfTag(paramsRaw: Option<string>)
    ensures var extracted := Extracted(paramsRaw);
      var r := Ordered(extracted);
      && Increasing(r)
      && (forall k :: 0 <= k < |r| ==> exists i :: FirstWithStart(extracted, i) && extracted[i] == r[k])
      && (forall i :: 0 <= i < |extracted| ==> exists k :: 0 <= k < |r| && r[k].start == extracted[i].start)
  {
    var extracted := Extracted(paramsRaw);
    ExtractedNonNegative(paramsRaw);
    OrderedSpec(extracted);
  }

  /**
   * A PRIVMSG-shaped line `:nick!user@host CMD #channel :text` parsed by
   * `from`: the chat body is the text, and without a `display-name` tag
   * the name shown is the prefix nick.
   */
  lemma ChatOfLine(l: Line, ending: string, known: set<string>)
    requires WellFormed(l) && EndsLine(ending)
    requires |l.middles| == 1 && l.trailing.Some? && l.prefix.Some?
    ensures Parse(Format(l, ending), known).Some?
    ensures var m := Parse(Format(l, ending), known).value;
      && At(m.params, 1) == Some(l.trailing.value)
      && m.nick == l.prefix.value.name
      && ("display-name" in m.twitchTags <==> exists i :: 0 <= i < |l.tags| && l.tags[i].0 == "display-name")
  {
    ParseFormat(l, ending, known);
    TagMapKeys(l.tags);
  }
}
