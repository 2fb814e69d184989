/**
 * The API records the controllers keep in their lists, reduced to the
 * fields the modelled logic reads.  They are decoded elsewhere; here
 * they are plain values.
 */
module TwitchRecords {
  import opened Wrappers

  /** `TwitchApi.VideoType`: a live stream or a recorded video. */
  datatype VideoType = STREAM | VIDEO

  /** `VideoType(rawValue:)`: the raw values are 0 and 1, in declaration order. */
  function VideoTypeFromRaw(raw: int): (t: Option<VideoType>)
    ensures t.Some? <==> raw == 0 || raw == 1
    ensures t == Some(STREAM) <==> raw == 0
  {
    if raw == 0 then Some(STREAM) else if raw == 1 then Some(VIDEO) else None
  }

  /** `TwitchStream`: `type` is "live" for a live stream, "user" or "user_follow" for an offline followed channel. */
  datatype TwitchStream = TwitchStream(id: string, userId: string, streamType: string, online: bool)

  /** `TwitchGame`. */
  datatype TwitchGame = TwitchGame(id: string, name: string, boxArtUrl: string, viewers: Option<int>)

  /** An entry of the game/community poster lists (`Array<Any>` in the source). */
  datatype PosterItem =
    | GameItem(game: TwitchGame)
    | CommunityItem(id: string, name: string, displayName: string)
}
