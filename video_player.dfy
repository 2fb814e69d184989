/**
 * `VideoViewController`: the player screen with its chat panel.  The
 * panel has three states, stepped up by a right swipe (for live streams
 * only) and down by a left swipe; the chat connection opens when the
 * panel first appears and closes when it is hidden again.  The model
 * keeps the fields those steps and the restore read and write; alerts,
 * playback and the chat connection are returned as values.
 */
module VideoPlayers {
  import opened Wrappers
  import opened TwitchRecords

  /** `ChatState`, with raw values 0, 1, 2 in declaration order. */
  datatype ChatState = HIDDEN | OVERLAY | THEATRE

  /** `chatState.rawValue`. */
  function Raw(s: ChatState): nat {
    match s
    case HIDDEN => 0
    case OVERLAY => 1
    case THEATRE => 2
  }

  /** The state whose raw value is `n`, for `n` in 0 … 2. */
  function FromRaw(n: nat): ChatState
    requires n <= 2
  {
    if n == 0 then HIDDEN else if n == 1 then OVERLAY else THEATRE
  }

  /** The state `n` right swipes of a stream's chat lead to from `s`: up by `n`, no further than THEATRE. */
  function Raised(s: ChatState, n: nat): (r: ChatState)
    ensures Raw(r) == if Raw(s) + n <= 2 then Raw(s) + n else 2
  {
    FromRaw(if Raw(s) + n <= 2 then Raw(s) + n else 2)
  }

  /** What the panel does to the chat connection when an animation finishes. */
  datatype ChatAction = NoChatAction | Connect(channel: string) | Disconnect

  /** The state one `hideChat` leads to from `s`: down by one, no further than HIDDEN. */
  function Lowered(s: ChatState): ChatState {
    FromRaw(if Raw(s) == 0 then 0 else Raw(s) - 1)
  }

  /** The connection action of one `hideChat` from `s`. */
  function HideAction(s: ChatState): ChatAction {
    if s == OVERLAY then Disconnect else NoChatAction
  }

  /** The connection action of one `showStreamChat` from `s` for the streamer `streamerName`. */
  function ShowAction(s: ChatState, streamerName: string): ChatAction {
    if s == HIDDEN && streamerName != "" then Connect(streamerName) else NoChatAction
  }

  /** What the screen does next after a load or an error. */
  datatype Outcome =
    | RequestStreams(userId: string)          // `getStreams(user_id:)` for a live stream
    | Play(videoType: VideoType, id: string)  // fetch the thumbnail, then play the HLS address of this id
    | ApiErrorAlert
    | OfflineAlert
    | VideoErrorAlert
    | DismissScreen
    | NoOutcome
    | StatusTrap                             // an unknown status case reaches a switch without a default

  /**
   * The `getStreams` callback of `loadStreamInfo`: no answer is an API
   * error; exactly one stream that is online plays; anything else means
   * the channel is offline.
   */
  function StreamsOutcome(response: Option<seq<TwitchStream>>): (o: Outcome)
    ensures o == ApiErrorAlert <==> response.None?
    ensures o.Play? <==> response.Some? && |response.value| == 1 && response.value[0].online
    ensures o.Play? ==> o == Play(STREAM, response.value[0].userId)
    ensures o == OfflineAlert <==> response.Some? && (|response.value| != 1 || !response.value[0].online)
  {
    match response
    case None => ApiErrorAlert
    case Some(streams) =>
      if |streams| == 1 then
        if streams[0].online then Play(STREAM, streams[0].userId) else OfflineAlert
      else OfflineAlert
  }

  /** `handleVideoError`: a video error alert for a video, the offline alert for a stream, a plain dismiss without a type. */
  function VideoErrorOutcome(idType: Option<VideoType>): (o: Outcome)
    ensures idType == Some(VIDEO) <==> o == VideoErrorAlert
    ensures idType == Some(STREAM) <==> o == OfflineAlert
    ensures idType.None? <==> o == DismissScreen
  {
    match idType
    case Some(VIDEO) => VideoErrorAlert
    case Some(STREAM) => OfflineAlert
    case None => DismissScreen
  }

  /** `AVPlayerItemStatus`, raw values 0, 1, 2. */
  datatype PlayerItemStatus = Unknown | ReadyToPlay | Failed

  /**
   * `observeValue`: only a change of a `status` key path that carries an
   * integer is looked at.  `AVPlayerStatus(rawValue:)` is the initialiser
   * of an imported C enumeration, which accepts every raw value, so the
   * value is always handed on as the item status of the same raw value
   * (the `AVPlayerItemStatus` branch after it never runs).  `failed` and
   * `unknown` take the error path and `readyToPlay` does nothing.  The
   * switch has no default case, so any other raw value traps.
   */
  function StatusOutcome(isStatusKeyPath: bool, statusRawValue: Option<int>, idType: Option<VideoType>): (o: Outcome)
    ensures isStatusKeyPath && (statusRawValue == Some(0) || statusRawValue == Some(2)) <==> o != NoOutcome && o != StatusTrap
    ensures o == StatusTrap <==> isStatusKeyPath && statusRawValue.Some? && !(0 <= statusRawValue.value <= 2)
    ensures o != NoOutcome && o != StatusTrap ==> o == VideoErrorOutcome(idType)
  {
    if !isStatusKeyPath || statusRawValue.None? then NoOutcome
    else
      var status := ItemStatusFromRaw(statusRawValue.value);
      match status
      case Some(Failed) => VideoErrorOutcome(idType)
      case Some(Unknown) => VideoErrorOutcome(idType)
      case Some(ReadyToPlay) => NoOutcome
      case None => StatusTrap
  }

  /**
   * The named cases of `AVPlayerItemStatus` (and `AVPlayerStatus`, which
   * shares the raw values); `None` is a raw value with no named case.
   */
  function ItemStatusFromRaw(raw: int): (s: Option<PlayerItemStatus>)
    ensures s == Some(Unknown) <==> raw == 0
    ensures s == Some(ReadyToPlay) <==> raw == 1
    ensures s == Some(Failed) <==> raw == 2
  {
    if raw == 0 then Some(Unknown)
    else if raw == 1 then Some(ReadyToPlay)
    else if raw == 2 then Some(Failed)
    else None
  }

  class VideoPlayer {
    var idType: Option<VideoType>
    var id: Option<string>
    var titleMeta: Option<string>
    var subTitle: Option<string>
    var loadingTitle: Option<string>
    var thumbnailUrl: Option<string>
    var streamerName: string
    var chatState: ChatState

    /** The fields as declared: no video yet, chat hidden. */
    constructor ()
      ensures idType.None? && id.None? && titleMeta.None? && subTitle.None?
      ensures loadingTitle.None? && thumbnailUrl.None? && streamerName == "" && chatState == HIDDEN
    {
      idType := None;
      id := None;
      titleMeta := None;
      subTitle := None;
      loadingTitle := None;
      thumbnailUrl := None;
      streamerName := "";
      chatState := HIDDEN;
    }

    /**
     * `loadStreamInfo`: with an id and a type, a stream asks the API for
     * its state first and a video plays straight away; otherwise nothing.
     */
    function LoadStreamInfo(): (o: Outcome)
      reads this
      ensures id.Some? && idType == Some(STREAM) <==> o.RequestStreams?
      ensures o.RequestStreams? ==> o.userId == id.value
      ensures id.Some? && idType == Some(VIDEO) <==> o.Play?
      ensures o.Play? ==> o == Play(VIDEO, id.value)
      ensures id.None? || idType.None? <==> o == NoOutcome
    {
      if id.Some? && idType.Some? then
        match idType.value
        case STREAM => RequestStreams(id.value)
        case VIDEO => Play(VIDEO, id.value)
      else NoOutcome
    }

    /**
     * `hideChat`: one step down, THEATRE to OVERLAY to HIDDEN, staying at
     * HIDDEN; only leaving OVERLAY closes the chat connection.
     */
    method HideChat() returns (action: ChatAction)
      modifies this
      ensures Raw(chatState) == if Raw(old(chatState)) == 0 then 0 else Raw(old(chatState)) - 1
      ensures action == (if old(chatState) == OVERLAY then Disconnect else NoChatAction)
      ensures chatState == Lowered(old(chatState)) && action == HideAction(old(chatState))
      ensures idType == old(idType) && id == old(id) && streamerName == old(streamerName)
      ensures titleMeta == old(titleMeta) && subTitle == old(subTitle)
      ensures loadingTitle == old(loadingTitle) && thumbnailUrl == old(thumbnailUrl)
    {
      action := NoChatAction;
      match chatState
      case THEATRE =>
        chatState := OVERLAY;
      case OVERLAY =>
        chatState := HIDDEN;
        action := Disconnect;
      case HIDDEN =>
    }

    /**
     * `showStreamChat`: one step up, HIDDEN to OVERLAY to THEATRE,
     * staying at THEATRE; only leaving HIDDEN opens the chat connection,
     * and only when the streamer name is known.
     */
    method ShowStreamChat() returns (action: ChatAction)
      modifies this
      ensures chatState == Raised(old(chatState), 1)
      ensures action == (if old(chatState) == HIDDEN && streamerName != "" then Connect(streamerName) else NoChatAction)
      ensures action == ShowAction(old(chatState), streamerName)
      ensures idType == old(idType) && id == old(id) && streamerName == old(streamerName)
      ensures titleMeta == old(titleMeta) && subTitle == old(subTitle)
      ensures loadingTitle == old(loadingTitle) && thumbnailUrl == old(thumbnailUrl)
    {
      action := NoChatAction;
      match chatState
      case HIDDEN =>
        chatState := OVERLAY;
        if streamerName != "" {
          action := Connect(streamerName);
        }
      case OVERLAY =>
        chatState := THEATRE;
      case THEATRE =>
    }

    /** `showChat`: steps the panel up for a live stream, and does nothing otherwise. */
    method ShowChat() returns (action: ChatAction)
      modifies this
      ensures chatState == if idType == Some(STREAM) then Raised(old(chatState), 1) else old(chatState)
      ensures idType != Some(STREAM) ==> action == NoChatAction
      ensures idType == Some(STREAM) ==> action == (if old(chatState) == HIDDEN && streamerName != "" then Connect(streamerName) else NoChatAction)
      ensures idType == old(idType) && id == old(id) && streamerName == old(streamerName)
      ensures titleMeta == old(titleMeta) && subTitle == old(subTitle)
      ensures loadingTitle == old(loadingTitle) && thumbnailUrl == old(thumbnailUrl)
    {
      action := NoChatAction;
      if idType == Some(STREAM) {
        action := ShowStreamChat();
      }
    }

    /**
     * The restore loop `while calls <= chatStateRaw { showChat() }`: it
     * runs `chatStateRaw + 1` times, or not at all for a negative value.
     * The connect actions of the calls are returned in order.
     */
    method RestoreChat(chatStateRaw: int) returns (actions: seq<ChatAction>)
      modifies this
      ensures var calls := if chatStateRaw >= 0 then chatStateRaw + 1 else 0;
        chatState == if idType == Some(STREAM) then Raised(old(chatState), calls) else old(chatState)
      ensures |actions| == if chatStateRaw >= 0 then chatStateRaw + 1 else 0
      ensures forall k :: 0 <= k < |actions| ==> actions[k] == NoChatAction || actions[k] == Connect(streamerName)
      ensures idType == old(idType) && id == old(id) && streamerName == old(streamerName)
      ensures titleMeta == old(titleMeta) && subTitle == old(subTitle)
      ensures loadingTitle == old(loadingTitle) && thumbnailUrl == old(thumbnailUrl)
    {
      actions := [];
      var calls := 0;
      while calls <= chatStateRaw
        invariant 0 <= calls && (chatStateRaw >= 0 ==> calls <= chatStateRaw + 1) && (chatStateRaw < 0 ==> calls == 0)
        invariant chatState == if idType == Some(STREAM) then Raised(old(chatState), calls) else old(chatState)
        invariant |actions| == calls
        invariant forall k :: 0 <= k < |actions| ==> actions[k] == NoChatAction || actions[k] == Connect(streamerName)
        invariant idType == old(idType) && id == old(id) && streamerName == old(streamerName)
        invariant titleMeta == old(titleMeta) && subTitle == old(subTitle)
        invariant loadingTitle == old(loadingTitle) && thumbnailUrl == old(thumbnailUrl)
      {
        var action := ShowChat();
        actions := actions + [action];
        calls := calls + 1;
      }
    }

    /**
     * `encodeRestorableState`: the type's raw value only when a type is
     * set, the optional fields as they are, the streamer name and the
     * chat state's raw value always.
     */
    function EncodeRestorableState(): (saved: SavedState)
      reads this
      ensures saved.idTypeRaw.Some? <==> idType.Some?
      ensures idType.Some? ==> VideoTypeFromRaw(saved.idTypeRaw.value) == idType
      ensures saved.id == id && saved.subTitle == subTitle && saved.titleMeta == titleMeta
      ensures saved.thumbnailUrl == thumbnailUrl && saved.loadingTitle == loadingTitle
      ensures saved.streamerName == Some(streamerName)
      ensures saved.chatStateRaw == Some(Raw(chatState) as int)
    {
      SavedState(
        if idType.Some? then Some(if idType.value == STREAM then 0 else 1) else None,
        id, subTitle, titleMeta, thumbnailUrl, loadingTitle, Some(streamerName), Some(Raw(chatState) as int))
    }

    /**
     * The field half of `decodeRestorableState`: id and type are set
     * together and only when both are present and the raw type is a known
     * one, and each other present entry replaces its field.
     */
    method RestoreFields(saved: SavedState)
      modifies this
      ensures Restorable(saved) ==> id == saved.id && idType == VideoTypeFromRaw(saved.idTypeRaw.value)
      ensures !Restorable(saved) ==> id == old(id) && idType == old(idType)
      ensures subTitle == (if saved.subTitle.Some? then saved.subTitle else old(subTitle))
      ensures titleMeta == (if saved.titleMeta.Some? then saved.titleMeta else old(titleMeta))
      ensures thumbnailUrl == (if saved.thumbnailUrl.Some? then saved.thumbnailUrl else old(thumbnailUrl))
      ensures loadingTitle == (if saved.loadingTitle.Some? then saved.loadingTitle else old(loadingTitle))
      ensures streamerName == saved.streamerName.GetOr(old(streamerName))
      ensures chatState == old(chatState)
    {
      if Restorable(saved) {
        idType := VideoTypeFromRaw(saved.idTypeRaw.value);
        id := saved.id;
      }
      if saved.subTitle.Some? {
        subTitle := saved.subTitle;
      }
      if saved.titleMeta.Some? {
        titleMeta := saved.titleMeta;
      }
      if saved.thumbnailUrl.Some? {
        thumbnailUrl := saved.thumbnailUrl;
      }
      if saved.loadingTitle.Some? {
        loadingTitle := saved.loadingTitle;
      }
      if saved.streamerName.Some? {
        streamerName := saved.streamerName.value;
      }
    }

    /**
     * `decodeRestorableState`: the fields are restored, then the chat
     * panel is replayed from the saved raw state, and the load starts
     * with the restored id and type.
     */
    method DecodeRestorableState(saved: SavedState) returns (actions: seq<ChatAction>, outcome: Outcome)
      modifies this
      ensures Restorable(saved) ==> id == saved.id && idType == VideoTypeFromRaw(saved.idTypeRaw.value)
      ensures !Restorable(saved) ==> id == old(id) && idType == old(idType)
      ensures subTitle == (if saved.subTitle.Some? then saved.subTitle else old(subTitle))
      ensures titleMeta == (if saved.titleMeta.Some? then saved.titleMeta else old(titleMeta))
      ensures thumbnailUrl == (if saved.thumbnailUrl.Some? then saved.thumbnailUrl else old(thumbnailUrl))
      ensures loadingTitle == (if saved.loadingTitle.Some? then saved.loadingTitle else old(loadingTitle))
      ensures streamerName == saved.streamerName.GetOr(old(streamerName))
      ensures chatState == (if idType == Some(STREAM) then Raised(old(chatState), RestoreCalls(saved.chatStateRaw)) else old(chatState))
      ensures |actions| == RestoreCalls(saved.chatStateRaw)
      ensures outcome == LoadStreamInfo()
    {
      RestoreFields(saved);
      actions := [];
      if saved.chatStateRaw.Some? {
        actions := RestoreChat(saved.chatStateRaw.value);
      }
      outcome := LoadStreamInfo();
    }
  }

  /**
   * What `encodeRestorableState` writes and `decodeRestorableState` reads
   * back, one entry per key; None is a key that is absent or not of the
   * expected type.
   */
  datatype SavedState = SavedState(
    idTypeRaw: Option<int>, id: Option<string>, subTitle: Option<string>, titleMeta: Option<string>,
    thumbnailUrl: Option<string>, loadingTitle: Option<string>, streamerName: Option<string>,
    chatStateRaw: Option<int>)

  /** Whether the decode sets id and type: both present and the raw type known. */
  predicate Restorable(saved: SavedState) {
    saved.id.Some? && saved.idTypeRaw.Some? && VideoTypeFromRaw(saved.idTypeRaw.value).Some?
  }

  /**
   * Saving a screen and restoring it on a fresh one: every field comes
   * back, except the chat panel of a live stream, which comes back one
   * step higher than it was saved (saturating at THEATRE), because the
   * restore loop runs `chatStateRaw + 1` times.
   */
  method SaveAndRestore(screen: VideoPlayer) returns (restored: VideoPlayer, actions: seq<ChatAction>, outcome: Outcome)
    ensures fresh(restored)
    ensures screen.id.Some? && screen.idType.Some? ==> restored.id == screen.id && restored.idType == screen.idType
    ensures restored.subTitle == screen.subTitle && restored.titleMeta == screen.titleMeta
    ensures restored.thumbnailUrl == screen.thumbnailUrl && restored.loadingTitle == screen.loadingTitle
    ensures restored.streamerName == screen.streamerName
    ensures screen.id.Some? && screen.idType == Some(STREAM) ==> restored.chatState == Raised(screen.chatState, 1)
    ensures screen.idType != Some(STREAM) ==> restored.chatState == HIDDEN
  {
    var saved := screen.EncodeRestorableState();
    restored := new VideoPlayer();
    actions, outcome := restored.DecodeRestorableState(saved);
    if screen.idType == Some(STREAM) {
      RestoreRaisesSavedState(screen.chatState);
    }
  }

  /** How many times the restore loop `calls <= chatStateRaw` runs `showChat`. */
  function RestoreCalls(chatStateRaw: Option<int>): nat {
    if chatStateRaw.Some? && chatStateRaw.value >= 0 then chatStateRaw.value + 1 else 0
  }

  /** Stepping up then down returns to the start, except from THEATRE, where the step up has no effect. */
  lemma StepUpThenDown(s: ChatState)
    requires s != THEATRE
    ensures Raised(s, 1) != s && Raw(Raised(s, 1)) - 1 == Raw(s)
  {
  }

  /**
   * Restoring a live stream's panel on a fresh screen lands one step
   * above the state that was saved: a saved HIDDEN comes back as
   * OVERLAY, and a saved OVERLAY as THEATRE.
   */
  lemma {:induction false} RestoreRaisesSavedState(saved: ChatState)
    ensures Raised(HIDDEN, Raw(saved) + 1) == Raised(saved, 1)
    ensures saved == HIDDEN ==> Raised(HIDDEN, Raw(saved) + 1) == OVERLAY
    ensures saved != THEATRE ==> Raised(HIDDEN, Raw(saved) + 1) != saved
  {
  }

  /**
   * The actions `showStreamChat` and `hideChat` return: a connection to
   * the streamer opens exactly on a step up that enters OVERLAY (from
   * HIDDEN) with a known streamer name, and closes exactly on a step down
   * that enters HIDDEN (from OVERLAY); every other step leaves it alone.
   */
  lemma ChatConnectionSteps(s: ChatState, streamerName: string)
    ensures ShowAction(s, streamerName) != NoChatAction <==> Raised(s, 1) == OVERLAY && s != OVERLAY && streamerName != ""
    ensures ShowAction(s, streamerName) != NoChatAction ==> ShowAction(s, streamerName) == Connect(streamerName)
    ensures HideAction(s) != NoChatAction <==> Lowered(s) == HIDDEN && s != HIDDEN
    ensures HideAction(s) != NoChatAction ==> HideAction(s) == Disconnect
  {
  }
}
