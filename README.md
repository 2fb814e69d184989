# Twitched for Apple TV: chat pipeline, choice lists, settings and paging

This project models the core logic of Twitched, a Twitch client for
Apple TV, and proves properties of that model. It covers these parts:

- **IRC line parsing.** `IrcMessage.from` runs one regular expression over a
  server line. The model states that expression's groups as functions. The
  `findAll` loops over tags and parameters are methods proved equal to
  those functions. Proved properties:
  - a line parses exactly when it starts with an optional tag part, an
    optional prefix part and a letter or digit;
  - text appended to a parsed line never makes it fail;
  - a well-formed line written out by a server reads back to the tags,
    prefix, command and parameters it was written from.
- **Chat messages.** `ChatMessage.init(ircMessage:)` builds a chat message
  from an IRC message. The model covers:
  - the display name and the message text;
  - the `#rrggbb` colour, through Swift's `Int(_:radix:)` and the 64-bit
    mask-and-shift;
  - the badge lookup in the badge table;
  - emote extraction from the `emotes` tag;
  - the selection loop that orders the emotes.

  Proved properties: the emotes come out strictly increasing by start, one
  per distinct start. A colour and a list of badges or emotes written into
  a tag read back as written.
- **The multiple-choice list.** `MultipleChoiceListViewController` has
  selection, deselection, the "first row is exclusive" rule, single
  selection and the dismiss callback. Proved properties:
  - codes stay unique;
  - a deselect undoes a select;
  - the exclusive first row clears the others.
- **The settings screen.** `SettingsViewController` builds the quality and
  language choices. It preselects what the key-value store holds and
  writes the user's choices back. It also computes the detail captions and
  the log-in/log-out row. Proved property: saving a selection and opening
  the screen again preselects the same choices.
- **The video screen.** `VideoViewController` has:
  - a three-state chat panel that can be stepped up and down;
  - the outcomes of loading a stream or a video and of player status changes;
  - the state it saves and restores.

  The restore loop runs `showChat` one time more than the saved raw state.
  A live stream's chat panel therefore comes back one step above the state
  that was saved. The model keeps this behaviour and proves it.
- **Paging in the four list and grid controllers.**
  - `PopularListViewController`;
  - `VideoGridViewController`, with its online/offline split of followed
    channels;
  - `PosterItemsListViewController`;
  - `GameListViewController`.

  For each one the model covers the page counters and loading flags, the
  requests it makes, how answers replace or extend the lists, and the
  shared "needs refresh" flags. Proved property: in the followed grid,
  section 0 shows exactly the live channels and section 1 exactly the
  offline ones.
- **`TwitchAccessToken.accessToken`.** The model covers its getter and
  setter. Proved properties: a read after a write returns the value
  written, and writing nil falls back to `token`.

## How the app is modelled

- **Controllers.** A controller whose fields change in place is a `class`
  with those fields. Each of its methods says in `modifies` what it may
  change.
- **Network calls.** A call into the Twitch API is a request value that the
  method returns. The callback is a separate method that takes the answer
  as a parameter, along with the values the closure captured.
- **Environment inputs.** The clock (`now`), the login state (`isLoggedIn`),
  the parsed language file and the badge table are parameters.
- **Shared flags.** The static refresh flags that one screen raises for
  another are fields of one shared `UpdateFlags.Flags` object.

## Model

| member | source | states |
|---|---|---|
| IrcMessage.Parse | Twitched/data/model/IrcMessage.swift:22-36 | `from` gives a message exactly when the line expression matches its head. The nick and server name are the same prefix group. Without a prefix, nick, user and host are empty. |
| IrcMessage.From | Twitched/data/model/IrcMessage.swift:22-36 | The method builds the message from the groups of the first match, with the tags and parameters decoded by the loops. |
| IrcMessage.ParseTwitchTags | Twitched/data/model/IrcMessage.swift:69-81 | The tag loop gives the map of every match of the tag expression, left to right; a later key overwrites an earlier one. |
| IrcMessage.ParseParams | Twitched/data/model/IrcMessage.swift:51-66 | The parameter loop gives the trailing or middle text of every match, in order. |
| IrcMessage.CommandFromRaw | Twitched/data/model/IrcMessage.swift:29 | The command is the known case with that raw value, and `NONE` exactly when the raw value is unknown. |
| IrcMessage.TagAt | Twitched/data/model/IrcMessage.swift:86 | A match of the tag expression consumes at least one character and stays inside the text. |
| IrcMessage.TagAtShape | Twitched/data/model/IrcMessage.swift:86 | A tag match is a non-empty key, `=`, and the longest run of value characters after it. |
| IrcMessage.ParamAtSome | Twitched/data/model/IrcMessage.swift:85 | The parameter expression matches exactly where a space character is followed by `:` or by a non-space. |
| IrcMessage.ParamAtShape | Twitched/data/model/IrcMessage.swift:85 | A middle parameter runs to the next space and does not start with `:`. A trailing one runs to the first line terminator. |
| IrcMessage.SplitPrefix | Twitched/data/model/IrcMessage.swift:88 | The prefix groups of a prefix text: a non-empty name of name characters, and a user and host that are non-empty when present. |
| IrcMessage.ParamsLength | Twitched/data/model/IrcMessage.swift:88 | The greedy parameter group stays inside the text, and is empty exactly when no parameter matches at its start. |
| IrcMessage.MatchTagBlock | Twitched/data/model/IrcMessage.swift:87 | The optional tag group at the start of the line consumes no more than the line. |
| IrcMessage.MatchPrefix | Twitched/data/model/IrcMessage.swift:88 | The optional prefix group after the tags consumes no more than the text. |
| IrcMessage.MatchHead | Twitched/data/model/IrcMessage.swift:88-90 | The command run the expression finds is non-empty and inside the line. |
| IrcMessage.MatchLine | Twitched/data/model/IrcMessage.swift:88-90 | The whole expression matches exactly when its head does: nothing after the command can fail. |
| IrcMessageProperties.ParseSucceedsIff | Twitched/data/model/IrcMessage.swift:84-90 | `from` succeeds exactly when the line starts with an optional tag part, an optional prefix part, then an ASCII letter or digit. |
| IrcMessageProperties.ParseIgnoresAppendedText | Twitched/data/model/IrcMessage.swift:88-90 | The expression has no end anchor, so text appended to an accepted line never makes `from` fail. |
| IrcMessageProperties.InvalidTagBlockRejected | Twitched/data/model/IrcMessage.swift:87-88 | A line that starts with `@` but has no valid tag part is rejected. |
| IrcMessageProperties.FindAllTagsWellFormed | Twitched/data/model/IrcMessage.swift:86 | Every decoded tag has a non-empty key without `;`, `=` or space, and a value without `;` or space. |
| IrcMessageProperties.TagMapKeys | Twitched/data/model/IrcMessage.swift:73-77 | The tag map holds exactly the decoded keys. |
| IrcMessageProperties.TagMapLastWins | Twitched/data/model/IrcMessage.swift:73-77 | A key that occurs more than once keeps the value of its last occurrence. |
| IrcMessageProperties.FindAllParamsOfGroup | Twitched/data/model/IrcMessage.swift:30 | Running `findAll` on the `params_all` group gives back, in order, the parameter iterations that produced that group. |
| IrcMessageProperties.TrailingIsLast | Twitched/data/model/IrcMessage.swift:85 | Without line terminators only the last parameter can be a trailing one, and it runs to the end of the text. |
| IrcMessageFormat.FormatTagsFindAll | Twitched/data/model/IrcMessage.swift:86-87 | A written `k=v;k=v` block reads back as every pair, in order. |
| IrcMessageFormat.FormatPrefixRoundTrip | Twitched/data/model/IrcMessage.swift:88 | A written `name!user@host` prefix splits back into the parts it was written from. |
| IrcMessageFormat.ScanFormatParams | Twitched/data/model/IrcMessage.swift:85-88 | The greedy parameter group takes exactly the written parameters and stops at the line ending. |
| IrcMessageFormat.ParamsOfFormat | Twitched/data/model/IrcMessage.swift:51-66 | The parameters decoded from a written line are its middle parameters followed by its trailing one. |
| IrcMessageFormat.GroupsOfFormat | Twitched/data/model/IrcMessage.swift:88-90 | The groups of a written line are the tag block, prefix, command and parameter text it was written from. |
| IrcMessageFormat.ParseFormat | Twitched/data/model/IrcMessage.swift:22-36 | Round trip: a well-formed line, alone or followed by a line ending, parses to exactly the tags, prefix, command and parameters it was written from. |
| ChatMessages.Tag | Twitched/data/model/ChatMessage.swift:20 | A tag lookup is present exactly when the key is in the tags, with that value. |
| ChatMessages.FromIrc | Twitched/data/model/ChatMessage.swift:18-32 | The name is the display name, else the nick. The message is parameter 1, else empty. The colour comes from the colour tag, else green. The badges and emotes come from their tags. |
| ChatMessages.Make | Twitched/data/model/ChatMessage.swift:108-119 | The message keeps its name and text, has no badges or emotes, and gets the decoded colour, or green when the text does not decode. |
| ChatMessages.ParseTwitchEmotes | Twitched/data/model/ChatMessage.swift:36-82 | The method gives the ordered list of the extracted emotes. |
| ChatMessages.ColorOfTag | Twitched/data/model/ChatMessage.swift:24-29 | A server `#rrggbb` colour tag is shown as sent. |
| ChatMessages.EmotesOfTag | Twitched/data/model/ChatMessage.swift:36-82 | The emotes shown are strictly increasing by start. Each is the first extracted emote with its start, and every start the tag lists appears. |
| ChatMessages.ChatOfLine | Twitched/data/model/ChatMessage.swift:18-23 | A parsed `:nick!user@host CMD #channel :text` line has the text as parameter 1. Its nick is the prefix name, and it has a display name only when the tags have one. |
| Badges.Lookup | Twitched/data/model/ChatMessage.swift:95 | A badge URL is found exactly when the table has that set and version, and it is the version's 4x image URL. |
| Badges.BadgeUrls | Twitched/data/model/ChatMessage.swift:86-88 | There are no badges without a tag or without a table. |
| Badges.ParseTwitchBadges | Twitched/data/model/ChatMessage.swift:86-102 | The entry loop gives the badge URLs of the tag. |
| Badges.EntryUrlFrom | Twitched/data/model/ChatMessage.swift:91-97 | An entry gives a URL only when it is exactly `name/version`, and the URL is that badge's. |
| Badges.EntriesUrlsBound | Twitched/data/model/ChatMessage.swift:90-99 | There is at most one URL per entry. |
| Badges.EntriesUrlsInTable | Twitched/data/model/ChatMessage.swift:95-96 | Every URL comes from the table. |
| Badges.BadgeUrlsOfTag | Twitched/data/model/ChatMessage.swift:86-102 | A tag `n1/v1,n2/v2,...` gives the 4x URL of each listed badge the table has, in tag order, and skips the rest. |
| Emotes.Extracted | Twitched/data/model/ChatMessage.swift:37-59 | There are no emotes without a tag. |
| Emotes.ExtractEmotes | Twitched/data/model/ChatMessage.swift:37-59 | The nested loops collect exactly the extracted emotes, in tag order. |
| Emotes.AppendRangeEmotes | Twitched/data/model/ChatMessage.swift:45-56 | The inner loop appends, in order, the emote of every range of the id that splits into two integers, after the emotes already collected. |
| Emotes.EmoteUrlOf | Twitched/data/model/ChatMessage.swift:48-49 | The URL template is filled with the emote id and size `4.0`. |
| Emotes.RangeEmoteNonNegative | Twitched/data/model/ChatMessage.swift:46-53 | A range's start and end are never negative, because `-` separates them. |
| Emotes.ExtractedNonNegative | Twitched/data/model/ChatMessage.swift:37-59 | Every extracted start and end is at least 0. |
| Emotes.ParseDecimal | Twitched/data/model/ChatMessage.swift:50-51 | `Int(_:)` reads back the decimal digits of any value that fits in `Int`. |
| Emotes.GroupEmotesOfText | Twitched/data/model/ChatMessage.swift:41-56 | One `id:s-e,s-e` group reads back as the emotes of its ranges, in order. |
| Emotes.ExtractedOfTag | Twitched/data/model/ChatMessage.swift:37-59 | A tag written from emote groups reads back as one emote per range, in tag order, each with its group's URL. |
| EmoteOrder.OrderEmotes | Twitched/data/model/ChatMessage.swift:61-81 | The selection loop, with its early return, gives the ordered list. |
| EmoteOrder.SmallestNone | Twitched/data/model/ChatMessage.swift:65-79 | The inner scan finds nothing exactly when no start lies above the last start added. |
| EmoteOrder.SmallestIsLeast | Twitched/data/model/ChatMessage.swift:65-69 | A found emote starts above the last start added, and no start above it is smaller. |
| EmoteOrder.SmallestIsFirst | Twitched/data/model/ChatMessage.swift:65-69 | A found emote is the first in the list with its start. |
| EmoteOrder.OrderFromIncreasing | Twitched/data/model/ChatMessage.swift:64-74 | Each pass takes a larger start than the one before. |
| EmoteOrder.OrderFromComplete | Twitched/data/model/ChatMessage.swift:64-80 | With enough passes, every distinct start is taken exactly once. |
| EmoteOrder.OrderedSpec | Twitched/data/model/ChatMessage.swift:61-81 | The result is strictly increasing by start, and each emote is the first one with its start. Every non-negative start appears, so there is one emote per distinct start. |
| HexColor.ByteAt | Twitched/data/model/ChatMessage.swift:127-129 | `(v & mask) >> shift` on a two's-complement integer is always one byte. |
| HexColor.WithoutHashes | Twitched/data/model/ChatMessage.swift:125 | Removing `#` leaves no `#`, and a text without `#` is unchanged. |
| HexColor.FromHex | Twitched/data/model/ChatMessage.swift:124-135 | `UIColor(hex:)` gives a colour exactly when the text without `#` is a hexadecimal `Int`, and every channel is a byte. |
| HexColor.ColorOr | Twitched/data/model/ChatMessage.swift:24-29 | A chat colour is always three bytes, and it is green without a tag. |
| HexColor.BytesOfValue | Twitched/data/model/ChatMessage.swift:127-129 | The masks and shifts give back red, green and blue from `red*65536 + green*256 + blue`. |
| HexColor.FromToHex | Twitched/data/model/ChatMessage.swift:124-135 | Reading back the `#rrggbb` text of a colour gives that colour. |
| HexColor.HashesIgnored | Twitched/data/model/ChatMessage.swift:125 | `#` marks are ignored wherever they stand. |
| HexColor.EmptyHexFails | Twitched/data/model/ChatMessage.swift:125 | An empty text, or one made only of `#`, gives no colour. |
| HexColor.MinusOneIsWhite | Twitched/data/model/ChatMessage.swift:125-130 | A sign is read as part of the integer, so `-1` (all ones) is white. |
| Strings.Split | Twitched/data/model/ChatMessage.swift:39 | `components(separatedBy:)` gives at least one part, and no part contains the separator. |
| Strings.JoinSplit | Twitched/data/model/ChatMessage.swift:39 | Splitting loses nothing: joining the parts gives back the input. |
| Strings.SplitJoin | Twitched/data/model/ChatMessage.swift:39 | Parts without the separator come back unchanged from a join then a split. |
| Strings.ReplaceAll | Twitched/data/model/ChatMessage.swift:48-49 | Text without the pattern's first character is left unchanged. |
| Strings.ReplaceAllSkips | Twitched/data/model/ChatMessage.swift:48-49 | Text that cannot start an occurrence passes through untouched. |
| Strings.ReplaceAllAtFront | Twitched/data/model/ChatMessage.swift:48-49 | An occurrence at the front is replaced and scanning resumes after it. |
| SwiftInt.ParseIntRange | Twitched/data/model/ChatMessage.swift:50-51 | `Int(_:radix:)` accepts only non-empty text within the 64-bit range, and without `-` the value is not negative. |
| SafeIndex.At | Twitched/view/collection/PosterItemCollectionCell.swift:70-73 | `collection[safe: i]` is the element exactly when `i` is an index of the collection, and nil otherwise. |
| ListViewSelections.IndexOfData | Twitched/view/controller/input/MultipleChoiceListViewController.swift:87-93 | `index(where:)` is nil exactly when no entry has the code; otherwise it is the first index that has it. |
| ListViewSelections.RemoveAt | Twitched/view/controller/input/MultipleChoiceListViewController.swift:94 | `remove(at:)` drops that element and keeps the others in order. |
| ListViewSelections.RemoveAtUnique | Twitched/view/controller/input/MultipleChoiceListViewController.swift:123 | Removing an entry keeps the codes distinct. |
| ListViewSelections.RemoveAtSubset | Twitched/view/controller/input/MultipleChoiceListViewController.swift:94 | Removing an entry adds nothing new. |
| MultipleChoiceLists.NewSelection | Twitched/view/controller/input/MultipleChoiceListViewController.swift:99-106 | A select appends the row's choice exactly when the row exists, has a code, and no enabled entry has that code. |
| MultipleChoiceLists.MultipleChoiceList.constructor | Twitched/view/controller/input/MultipleChoiceListViewController.swift:11-29 | The fields start as declared: empty lists, both flags off, no callback. |
| MultipleChoiceLists.MultipleChoiceList.IsShownSelected | Twitched/view/controller/input/MultipleChoiceListViewController.swift:62-77 | A row is drawn selected exactly when it has a code that some enabled entry has. |
| MultipleChoiceLists.MultipleChoiceList.DidSelect | Twitched/view/controller/input/MultipleChoiceListViewController.swift:80-112 | The enabled list becomes the select rule's result, and the screen dismisses exactly when single selection added a choice. |
| MultipleChoiceLists.MultipleChoiceList.DidDeselect | Twitched/view/controller/input/MultipleChoiceListViewController.swift:115-125 | The enabled list becomes the deselect rule's result; nothing else changes. |
| MultipleChoiceLists.MultipleChoiceList.Dismiss | Twitched/view/controller/input/MultipleChoiceListViewController.swift:128-137 | The callback, when set, receives the current enabled list. |
| MultipleChoiceLists.SelectKeepsCodesUnique | Twitched/view/controller/input/MultipleChoiceListViewController.swift:80-112 | Selecting never creates a second entry with the same code. |
| MultipleChoiceLists.DeselectKeepsCodesUnique | Twitched/view/controller/input/MultipleChoiceListViewController.swift:115-125 | Deselecting keeps the codes distinct. |
| MultipleChoiceLists.SelectOutOfRange | Twitched/view/controller/input/MultipleChoiceListViewController.swift:82-99 | A row outside the list adds nothing, and without `firstExclusive` nothing changes. |
| MultipleChoiceLists.ExclusiveFirstRow | Twitched/view/controller/input/MultipleChoiceListViewController.swift:82-85 | With `firstExclusive`, selecting row 0 leaves only the first choice. |
| MultipleChoiceLists.ExclusiveOtherRow | Twitched/view/controller/input/MultipleChoiceListViewController.swift:86-96 | With `firstExclusive`, selecting another row turns the first choice off. |
| MultipleChoiceLists.SelectShowsRow | Twitched/view/controller/input/MultipleChoiceListViewController.swift:99-106 | After a row with a code is selected, it is drawn selected. |
| MultipleChoiceLists.DeselectHidesRow | Twitched/view/controller/input/MultipleChoiceListViewController.swift:115-125 | With distinct codes, a deselected row is no longer selected. |
| MultipleChoiceLists.SelectThenDeselect | Twitched/view/controller/input/MultipleChoiceListViewController.swift:99-125 | Deselecting undoes selecting a new row. |
| MultipleChoiceLists.DeselectRemovesFirst | Twitched/view/controller/input/MultipleChoiceListViewController.swift:115-125 | Deselecting removes only the first entry with the row's code. Otherwise nothing changes. |
| TwitchAccessTokens.AccessToken | Twitched/data/json/TwitchAccessToken.swift:8-19 | The getter returns the stored access token when set, else `token`, and nil only when both are nil. |
| TwitchAccessTokens.WithAccessToken | Twitched/data/json/TwitchAccessToken.swift:20-22 | The setter writes the stored access token and keeps every other field. |
| TwitchAccessTokens.SetThenGet | Twitched/data/json/TwitchAccessToken.swift:8-22 | Reading after writing a token gives that token back. |
| TwitchAccessTokens.SetNilFallsBack | Twitched/data/json/TwitchAccessToken.swift:8-22 | Writing nil uncovers `token`. |
| TwitchAccessTokens.SetGetStable | Twitched/data/json/TwitchAccessToken.swift:8-22 | Writing back what was read changes nothing the getter shows, and the second of two writes wins. |
| TwitchRecords.VideoTypeFromRaw | Twitched/util/TwitchApi.swift:388-390 | `VideoType(rawValue:)` accepts exactly 0 (`STREAM`) and 1 (`VIDEO`). |
| UpdateFlags.Flags.constructor | Twitched/view/controller/VideoGridViewController.swift:49-57 | All refresh flags start lowered. |
| Paging.Merged | Twitched/view/controller/PopularListViewController.swift:103-109 | The new list holds the page alone, or the old list followed by the page when appending to an existing list. |
| Paging.MergedKeepsPrefix | Twitched/view/controller/PopularListViewController.swift:108-109 | Appending keeps the old list as a prefix, with the page after it. |
| Paging.AppendedIndices | Twitched/view/controller/PopularListViewController.swift:108-115 | The index loop gives every index from the old count up to the new count, in order. |
| PopularLists.PopularList.constructor | Twitched/view/controller/PopularListViewController.swift:21-24 | No streams and no update time yet; page 0, not loading. |
| PopularLists.PopularList.ItemCount | Twitched/view/controller/PopularListViewController.swift:139-141 | The cell count is the number of streams, or 0 before any arrive. |
| PopularLists.PopularList.Populate | Twitched/view/controller/PopularListViewController.swift:85-99 | The list becomes loading and asks for 40 streams at the given offset. |
| PopularLists.PopularList.PopulateWithReset | Twitched/view/controller/PopularListViewController.swift:68-72 | Page 0, then the first page is asked for. |
| PopularLists.PopularList.Appear | Twitched/view/controller/PopularListViewController.swift:29-34 | The list resets exactly when it was updated and ten minutes have passed. |
| PopularLists.PopularList.FocusItem | Twitched/view/controller/PopularListViewController.swift:206-216 | Focusing one of the last five items while idle below page 10 first raises the page. It then appends the page at that number as offset. |
| PopularLists.PopularList.HandleResponse | Twitched/view/controller/PopularListViewController.swift:100-129 | An answer stamps the time and replaces or extends the list. The indices inserted are those after the old count. No answer stamps 0. Loading ends either way. |
| VideoGrids.OfflineCountIsIndices | Twitched/view/controller/VideoGridViewController.swift:235-248 | The offline count is the number of offline positions. |
| VideoGrids.OnlineFirstSplit | Twitched/view/controller/VideoGridViewController.swift:224-226 | When live channels come first, the offline ones are exactly the last `offlineCount` entries. |
| VideoGrids.PageAfterBounds | Twitched/view/controller/VideoGridViewController.swift:180-183 | A page asked for below MAX_PAGE leaves the counter in 1 to MAX_PAGE. A short page, or the followed grid, jumps to MAX_PAGE. |
| VideoGrids.VideoGrid.constructor | Twitched/view/controller/VideoGridViewController.swift:22-30 | The inspectable settings are kept; no streams, page 0, not loading. |
| VideoGrids.VideoGrid.GetStreamCounts | Twitched/view/controller/VideoGridViewController.swift:235-248 | The counting loop gives online plus offline equal to the list length, with offline the number of offline entries. |
| VideoGrids.VideoGrid.NumberOfSections | Twitched/view/controller/VideoGridViewController.swift:535-538 | Two sections in the followed grid, one otherwise. |
| VideoGrids.VideoGrid.NumberOfItemsInSection | Twitched/view/controller/VideoGridViewController.swift:213-217 | In the followed grid, section 1 counts the offline channels and other sections the online ones. Otherwise all streams are counted. |
| VideoGrids.VideoGrid.StreamAt | Twitched/view/controller/VideoGridViewController.swift:224-229 | A cell shows the stream at its item index, shifted past the online ones in section 1 of the followed grid. It shows nothing when that index is out of range. |
| VideoGrids.VideoGrid.Populate | Twitched/view/controller/VideoGridViewController.swift:137-204 | The grid becomes loading and asks for a page with its limit, offset, game and community. The followed grid asks only when logged in. |
| VideoGrids.VideoGrid.PopulateWithReset | Twitched/view/controller/VideoGridViewController.swift:120-126 | Page 0 and both grid refresh flags lowered. Then the first page is asked for: offset 0, not appending, with the grid's limit, game and community, unless the followed grid is logged out. |
| VideoGrids.VideoGrid.Appear | Twitched/view/controller/VideoGridViewController.swift:50-66 | The grid resets exactly when ten minutes have passed or its kind's refresh flag is raised. A reset sends the first-page request unless the followed grid is logged out. The game, community and grid kind are unchanged. |
| VideoGrids.VideoGrid.FocusItem | Twitched/view/controller/VideoGridViewController.swift:321-331 | Focusing one of the last five items while idle below MAX_PAGE marks the grid loading. It sends an appending request whose offset is the page number, with the grid's limit, game and community, unless the followed grid is logged out. The page, the list and the settings are unchanged. |
| VideoGrids.VideoGrid.HandleStreamData | Twitched/view/controller/VideoGridViewController.swift:158-193 | A non-empty answer stamps the time. An answer replaces or extends the list and moves the page on. No answer stamps 0. Loading ends. |
| VideoGrids.FollowedSections | Twitched/view/controller/VideoGridViewController.swift:213-229 | With live channels first, section 0 shows exactly the live channels and section 1 exactly the offline ones, each stream once. |
| PosterItemsLists.PageAfterBounds | Twitched/view/controller/PosterItemsListViewController.swift:101-104 | An answer to a page below MAX_PAGES leaves the counter in 1 to MAX_PAGES. It reaches MAX_PAGES exactly on a short page or the last page. |
| PosterItemsLists.PosterItemsList.constructor | Twitched/view/controller/PosterItemsListViewController.swift:21-30 | Empty lists, pages 0, not loading, no update time. |
| PosterItemsLists.PosterItemsList.RowCount | Twitched/view/controller/PosterItemsListViewController.swift:165-174 | One row per non-empty list. |
| PosterItemsLists.PosterItemsList.RowList | Twitched/view/controller/PosterItemsListViewController.swift:180-197 | Row 0 shows the top items when there are any; otherwise a row shows the followed items when there are any. |
| PosterItemsLists.PosterItemsList.LoadTopItems | Twitched/view/controller/PosterItemsListViewController.swift:90-125 | A request goes out exactly when the top list is idle below MAX_PAGES. Its offset is the page number. |
| PosterItemsLists.PosterItemsList.LoadFollowedItems | Twitched/view/controller/PosterItemsListViewController.swift:128-162 | A request goes out exactly when logged in and the followed list is idle below MAX_PAGES. |
| PosterItemsLists.PosterItemsList.Appear | Twitched/view/controller/PosterItemsListViewController.swift:31-37 | On appearing, becoming active or closing a video grid, a reset goes out exactly when `shouldReload` held: the refresh is due, or this kind's refresh flag is up. Then the lists are emptied and the first top page is asked for; otherwise nothing changes. |
| PosterItemsLists.PosterItemsList.Reset | Twitched/view/controller/PosterItemsListViewController.swift:47-71 | Lists emptied, pages 0, loading cleared, this kind's refresh flag lowered. Then the first top page is asked for. |
| PosterItemsLists.PosterItemsList.OnTopItemData | Twitched/view/controller/PosterItemsListViewController.swift:93-108 | An answer replaces or extends the top list and moves the page on. No answer keeps both. |
| PosterItemsLists.PosterItemsList.OnFollowedItemData | Twitched/view/controller/PosterItemsListViewController.swift:132-146 | The same for the followed list. |
| PosterItemsLists.PosterItemsList.Complete | Twitched/view/controller/PosterItemsListViewController.swift:60-70 | After the top items of a reset, the followed items are loaded. The reload stamps the time when there are top items. An insert lists the new indices. |
| PosterItemsLists.PosterItemsList.RowAction | Twitched/view/controller/PosterItemsListViewController.swift:207-239 | The row showing the top items asks for more of them, and any other row for more followed items. Each remembers the count before. The requested list's loading flag is raised, and the other flag is unchanged. |
| PosterItemsLists.RowsShowBothLists | Twitched/view/controller/PosterItemsListViewController.swift:165-197 | With both lists filled, row 0 shows the top items and row 1 the followed ones. |
| PosterItemsLists.RowsShowNonEmptyLists | Twitched/view/controller/PosterItemsListViewController.swift:165-197 | Every counted row shows a non-empty list. |
| GameLists.PageAfterBounds | Twitched/view/controller/GameListViewController.swift:79-82 | An answer to a page below MAX_PAGES leaves the counter in 1 to MAX_PAGES. It reaches MAX_PAGES exactly on a short page or the last page. |
| GameLists.GameList.constructor | Twitched/view/controller/GameListViewController.swift:20-26 | Empty lists, pages 0, not loading, no update time. |
| GameLists.GameList.RowCount | Twitched/view/controller/GameListViewController.swift:122-131 | One row per non-empty list. |
| GameLists.GameList.RowList | Twitched/view/controller/GameListViewController.swift:137-144 | Row 0 shows the top games when there are any; otherwise a row shows the followed games when there are any. |
| GameLists.GameList.LoadTopGames | Twitched/view/controller/GameListViewController.swift:66-91 | A request goes out exactly when the top list is idle below MAX_PAGES. |
| GameLists.GameList.LoadFollowedGames | Twitched/view/controller/GameListViewController.swift:94-119 | A request goes out exactly when logged in and the followed list is idle below MAX_PAGES. |
| GameLists.GameList.Reset | Twitched/view/controller/GameListViewController.swift:36-47 | Pages 0 and loading cleared, lists kept. Then the first top page is asked for. |
| GameLists.GameList.OnTopGames | Twitched/view/controller/GameListViewController.swift:72-86 | An answer replaces or extends the top list and moves the page on. No answer keeps both. |
| GameLists.GameList.OnFollowedGames | Twitched/view/controller/GameListViewController.swift:100-114 | The same for the followed list. |
| GameLists.GameList.Complete | Twitched/view/controller/GameListViewController.swift:41-46 | After the top games of a reset, the followed games are loaded. An insert lists the new indices. A reload changes no field. |
| GameLists.GameList.Appear | Twitched/view/controller/GameListViewController.swift:50-54 | The list resets, asking for the first top page, exactly when it is stale. Otherwise nothing changes. |
| GameLists.NeverStale | Twitched/view/controller/GameListViewController.swift:202-207 | A list without an update time is never stale, so the refresh never fires. |
| GameLists.GameList.RowAction | Twitched/view/controller/GameListViewController.swift:152-184 | The row showing the top games asks for more of them, and any other row for more followed games. Each remembers the count before. The requested list's loading flag is raised, and the other flag is unchanged. |
| Settings.CloudStore.Lookup | Twitched/view/controller/SettingsViewController.swift:199-200 | A stored list is found exactly when the key is present. |
| Settings.CloudStore.Set | Twitched/view/controller/SettingsViewController.swift:276 | Writing a key replaces that key only. |
| Settings.QualityChoicesUnique | Twitched/view/controller/SettingsViewController.swift:30-38 | The five quality choices all have codes, and no two share one. |
| Settings.LangChoices | Twitched/view/controller/SettingsViewController.swift:41-61 | "All" comes first, then the choices of the file's entries. |
| Settings.LangEntryPlaced | Twitched/view/controller/SettingsViewController.swift:49-53 | Every entry with a name and a code becomes a choice, right after the choices of the entries before it. |
| Settings.LangEntryFromFile | Twitched/view/controller/SettingsViewController.swift:49-53 | Every choice comes from an entry with a name and a code. |
| Settings.MatchingMembers | Twitched/view/controller/SettingsViewController.swift:246-253 | A choice is preselected exactly when its code is stored. |
| Settings.FirstStored | Twitched/view/controller/SettingsViewController.swift:165-172 | The quality loop stops at the first choice whose code is stored, or finds none. |
| Settings.CodesMembers | Twitched/view/controller/SettingsViewController.swift:270-275 | A code is saved exactly when some selection has it. |
| Settings.LanguagePreselection | Twitched/view/controller/SettingsViewController.swift:244-259 | Nothing is preselected without a stored entry. Otherwise every choice whose code is stored is preselected, or "All" when none is. |
| Settings.QualityPreselection | Twitched/view/controller/SettingsViewController.swift:163-176 | Nothing is preselected without a stored entry. Otherwise the first choice whose code is stored is preselected, or "Automatic" when none is. |
| Settings.SavedLanguagesPreselected | Twitched/view/controller/SettingsViewController.swift:244-276 | After a save, a choice with a code comes back preselected exactly when a saved selection had that code. "All" comes back when none matches. |
| Settings.SavedQualityPreselected | Twitched/view/controller/SettingsViewController.swift:163-189 | Saving a quality and opening the screen again preselects that same choice. |
| Settings.LangDetail | Twitched/view/controller/SettingsViewController.swift:199-220 | One stored code or no entry shows "All"; any other count shows "Multiple". |
| Settings.LoginLabel | Twitched/view/controller/SettingsViewController.swift:64-71 | Row 2 offers logging out exactly when logged in. |
| Settings.ActionOfRow | Twitched/view/controller/SettingsViewController.swift:96-109 | Rows 0 to 3 open the language screen, the quality screen, log in or out, and about. Any other row is unhandled. |
| Settings.SettingsScreen.constructor | Twitched/view/controller/SettingsViewController.swift:14-19 | The four rows as declared, empty details and choices. |
| Settings.SettingsScreen.LoadQualityValues | Twitched/view/controller/SettingsViewController.swift:30-38 | The quality choices are set; nothing else changes. |
| Settings.SettingsScreen.LoadLangValues | Twitched/view/controller/SettingsViewController.swift:41-61 | The language choices come from the file, or stay as they were when it cannot be read. |
| Settings.SettingsScreen.UpdateLoginState | Twitched/view/controller/SettingsViewController.swift:64-78 | Row 2 becomes the label for the login state. |
| Settings.SettingsScreen.LogInOrLogOut | Twitched/view/controller/SettingsViewController.swift:127-151 | Logged in: log out and row 2 offers logging in. Otherwise the login screen is presented. |
| Settings.SettingsScreen.SetDetails | Twitched/view/controller/SettingsViewController.swift:196-231 | The language detail follows the stored codes. The quality detail becomes "Automatic" only when no quality is stored. |
| Settings.SettingsScreen.SaveLanguageSelection | Twitched/view/controller/SettingsViewController.swift:268-279 | The selections' codes are stored in order. The details are refreshed and the popular grid's refresh flag is raised. |
| Settings.SettingsScreen.SaveQualitySelection | Twitched/view/controller/SettingsViewController.swift:185-193 | The store is written only for exactly one selection with a code. The details are refreshed either way. |
| Settings.SettingsScreen.ShowLanguageSelectionScreen | Twitched/view/controller/SettingsViewController.swift:234-265 | The language choices, first row exclusive, the stored languages preselected, and the save callback installed. |
| Settings.SettingsScreen.ShowQualitySelectionScreen | Twitched/view/controller/SettingsViewController.swift:154-182 | The quality choices, single selection, the first stored quality preselected, and the save callback installed. |
| VideoPlayers.Raised | Twitched/view/controller/VideoViewController.swift:416-446 | `n` step-ups raise the raw state by `n`, saturating at THEATRE. |
| VideoPlayers.StreamsOutcome | Twitched/view/controller/VideoViewController.swift:73-96 | No answer is an API error. Exactly one online stream plays that user's stream. Anything else is the offline alert. |
| VideoPlayers.VideoErrorOutcome | Twitched/view/controller/VideoViewController.swift:209-221 | A video error alert for a video, the offline alert for a stream, a plain dismiss without a type. |
| VideoPlayers.StatusOutcome | Twitched/view/controller/VideoViewController.swift:224-253 | A status change to raw 0 (unknown) or 2 (failed) takes the error path, and raw 1 (ready) does nothing. Any other raw value passes the player-status initialiser and traps in the switch without a default (`StatusTrap`). |
| VideoPlayers.ItemStatusFromRaw | Twitched/view/controller/VideoViewController.swift:239-253 | Raw values 0, 1, 2 are the named cases unknown, ready and failed; any other raw value has no named case. |
| VideoPlayers.VideoPlayer.constructor | Twitched/view/controller/VideoViewController.swift:17-25 | No video, empty streamer name, chat hidden. |
| VideoPlayers.VideoPlayer.LoadStreamInfo | Twitched/view/controller/VideoViewController.swift:69-102 | A stream asks the API for its state first. A video plays at once. Without an id or a type nothing happens. |
| VideoPlayers.VideoPlayer.HideChat | Twitched/view/controller/VideoViewController.swift:373-394 | One step down, staying at HIDDEN. Only leaving OVERLAY disconnects the chat. |
| VideoPlayers.VideoPlayer.ShowStreamChat | Twitched/view/controller/VideoViewController.swift:416-446 | One step up, staying at THEATRE. Only leaving HIDDEN connects the chat, and only with a known streamer name. |
| VideoPlayers.VideoPlayer.ShowChat | Twitched/view/controller/VideoViewController.swift:402-411 | A step up for a live stream; nothing otherwise. |
| VideoPlayers.VideoPlayer.RestoreChat | Twitched/view/controller/VideoViewController.swift:355-361 | The restore loop runs `showChat` `raw + 1` times, or not at all when `raw` is negative. |
| VideoPlayers.VideoPlayer.EncodeRestorableState | Twitched/view/controller/VideoViewController.swift:318-330 | The type's raw value is saved only when there is a type. The optional fields, the streamer name and the chat state's raw value are saved too. |
| VideoPlayers.VideoPlayer.RestoreFields | Twitched/view/controller/VideoViewController.swift:335-354 | Id and type are restored together, only when both are present and the type is known. Each other present entry replaces its field. |
| VideoPlayers.VideoPlayer.DecodeRestorableState | Twitched/view/controller/VideoViewController.swift:333-363 | The fields are restored and the chat panel is replayed. Then the load starts with the restored id and type. |
| VideoPlayers.SaveAndRestore | Twitched/view/controller/VideoViewController.swift:318-363 | On a fresh screen every saved field comes back. A live stream's panel comes back one step higher than saved; other screens come back hidden. |
| VideoPlayers.StepUpThenDown | Twitched/view/controller/VideoViewController.swift:373-446 | Stepping up then down returns to the start, except from THEATRE. |
| VideoPlayers.RestoreRaisesSavedState | Twitched/view/controller/VideoViewController.swift:355-361 | A restored live panel lands one step above the saved state: HIDDEN comes back as OVERLAY. |
| VideoPlayers.ChatConnectionSteps | Twitched/view/controller/VideoViewController.swift:373-446 | Of the actions `HideChat` and `ShowStreamChat` return, a connect to the streamer happens exactly on a step up into OVERLAY from HIDDEN with a known name, and a disconnect exactly on a step down into HIDDEN from OVERLAY. |

## Left out

- **UIKit and timing.** Views, animations, spinners, message labels,
  focus guides and table and collection view reloads are not modelled.
  They show state; they do not decide it.
- **Localisation.** The model keeps captions as localisation keys
  (`title.all`); `l10n()` lookup is not modelled.
- **Floating point.** A colour is modelled as its three bytes; the
  division by 255 into `CGFloat` channels is not modelled.
- **Networking.** `TwitchApi` requests are values that methods return, and
  answers are parameters of the callback methods. HLS URLs, thumbnails and
  the player itself are left out.
- **Chat connection.** The chat connection (`ChatView`) and the IRC client
  are not part of this model: `IrcClient.swift` here is only a stub. The
  set of known command names is a parameter of the parser.
- **Nil before `viewDidLoad`.** The popular list and the video grid keep
  `page` and `isLoading` nil until `viewDidLoad` resets them. The model
  starts them at 0 and false, the values that reset gives.
- **Access token error field.** The `error: AnyCodable` field of
  `TwitchAccessToken` is not modelled; neither the getter nor the setter
  reads it.
- **Key-value store contents.** The store holds only lists of strings. An
  entry of another type, which the language key treats as absent and the
  quality key treats as present, is not modelled.
- **Crashes.** Failed `as!` casts and a JSON file of the wrong shape crash
  the app; here they are a missing file (`LoadLangValues` with `None`).
- **Language detail branch.** The second `langs.count == 1` branch of
  `setDetails` (SettingsViewController.swift:204) can never run, because
  the test before it is the same. It is not modelled.
- **Screens out of scope.** The about, login, search and stream-info
  screens are not modelled. Neither is the state saving of the list
  controllers, nor the poster-item and game cells that open a video grid.
- **Missing refresh stamp.** `GameListViewController` never stamps
  `lastUpdateTime`, so its ten-minute refresh never fires. The model keeps
  this: `GameLists.GameList.Reset` and the callbacks leave the time
  unchanged, and `GameLists.NeverStale` shows that `Appear` then never
  resets.
- **Offsets are page numbers.** The popular list and the video grid send
  the page number as the `offset` parameter, not `page * limit`. The model
  keeps this.
- **Followed grid while logged out.** When logged out, the followed grid
  marks itself loading and never clears the flag. The model keeps this.
- **`PosterItemsLists.PosterItemsList.OnTopItemData`,
  `OnFollowedItemData`, `GameLists.GameList.OnTopGames` and
  `OnFollowedGames`.** Each states the new page as `PageAfter` of the old
  one. Each `PageAfterBounds` lemma bounds that by MAX_PAGES only for a
  page asked for below MAX_PAGES. An answer that arrives after a reset can
  see a different page.
- **`VideoGrids.VideoGrid.HandleStreamData`.** The page bound has the same
  caveat as the callbacks above.
- **`VideoPlayers.VideoPlayer.RestoreChat`.** Swift's `Int` overflow
  trap when the saved raw state is `Int.max` is not modelled.
- **`VideoPlayers.VideoPlayer.DecodeRestorableState`.** The model takes a
  saved integer to decode back as an integer. How `NSCoder` stores values
  is not modelled.
- **`Settings.SettingsScreen.ShowLanguageSelectionScreen` and
  `ShowQualitySelectionScreen`.** Each requires a non-empty choice list
  whenever a value is stored. With an empty list the app would index
  choice 0 and crash.
- **Regular expressions.** Tag and parameter splitting follow ICU
  semantics: `\s` is Unicode white space, and `.` stops at ICU line
  terminators. Other engines are not modelled.
