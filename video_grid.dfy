/**
 * `VideoGridViewController`: a grid of live streams for a game, a
 * community, or (with `loadFollowedStreams`) the channels the user
 * follows.  The followed grid has two sections, online channels first
 * and offline ones after; the API lists offline followed channels with
 * the type "user" or "user_follow".  The model keeps the fields the
 * paging callbacks update and the static refresh flags; the API call is
 * the returned request, its answer the `response` parameter, the login
 * check the `isLoggedIn` parameter, and "now" a whole number of seconds.
 */
module VideoGrids {
  import opened Wrappers
  import opened SafeIndex
  import opened Paging
  import opened TwitchRecords
  import opened UpdateFlags

  const UPDATE_INTERVAL: int := 60 * 10
  const MAX_PAGE: int := 10

  /** `OnlineOfflineCount`. */
  datatype OnlineOfflineCount = OnlineOfflineCount(onlineCount: int, offlineCount: int)

  /** A `getStreams` / `getFollowedStreams` request. */
  datatype GridRequest = GridRequest(
    followed: bool,
    limit: int,
    offset: int,
    gameId: Option<string>,
    communityId: Option<string>,
    append: bool)

  /** A followed channel that is not live: the API gives it the type "user" or "user_follow". */
  predicate IsOffline(s: TwitchStream) {
    s.streamType == "user" || s.streamType == "user_follow"
  }

  /** The number of offline entries, counted from the front as `getStreamCounts` does. */
  function OfflineCount(streams: seq<TwitchStream>): nat
  {
    if streams == [] then 0
    else OfflineCount(streams[..|streams| - 1]) + (if IsOffline(streams[|streams| - 1]) then 1 else 0)
  }

  /** The positions of the offline entries. */
  function OfflineIndices(streams: seq<TwitchStream>): set<int> {
    set i | 0 <= i < |streams| && IsOffline(streams[i])
  }

  /** The count is the number of offline positions, so at most the length. */
  lemma {:induction false} OfflineCountIsIndices(streams: seq<TwitchStream>)
    ensures OfflineCount(streams) == |OfflineIndices(streams)|
    ensures OfflineCount(streams) <= |streams|
  {
    if streams != [] {
      var init := streams[..|streams| - 1];
      OfflineCountIsIndices(init);
      var last := |streams| - 1;
      assert OfflineIndices(streams) == OfflineIndices(init) + (if IsOffline(streams[last]) then {last} else {}) by {
        forall i | 0 <= i < |init|
          ensures init[i] == streams[i]
        {
        }
      }
    }
  }

  /** The API's order for followed channels: no live channel after an offline one. */
  predicate OnlineFirst(streams: seq<TwitchStream>) {
    forall i, j :: 0 <= i < j < |streams| && IsOffline(streams[i]) ==> IsOffline(streams[j])
  }

  /** In that order the offline channels are exactly the last `OfflineCount` entries. */
  lemma {:induction false} OnlineFirstSplit(streams: seq<TwitchStream>)
    requires OnlineFirst(streams)
    ensures forall i :: 0 <= i < |streams| ==> (IsOffline(streams[i]) <==> i >= |streams| - OfflineCount(streams))
  {
    if streams != [] {
      var init := streams[..|streams| - 1];
      var last := |streams| - 1;
      assert forall i :: 0 <= i < |init| ==> init[i] == streams[i];
      assert OnlineFirst(init);
      OnlineFirstSplit(init);
    }
  }

  /** The page after an answer of `received` streams: one more, or MAX_PAGE after a short page or in the followed grid. */
  function PageAfter(page: int, received: int, limit: int, followed: bool): int {
    if received < limit || followed then MAX_PAGE else page + 1
  }

  /** A page asked for below MAX_PAGE leaves the counter in 1 … MAX_PAGE; the followed grid loads one page only. */
  lemma PageAfterBounds(page: int, received: int, limit: int, followed: bool)
    requires 0 <= page < MAX_PAGE
    ensures 0 < PageAfter(page, received, limit, followed) <= MAX_PAGE
    ensures followed || received < limit ==> PageAfter(page, received, limit, followed) == MAX_PAGE
  {
  }

  class VideoGrid {
    var lastUpdateTime: Option<int>
    var streams: Option<seq<TwitchStream>>
    var page: int
    var isLoading: bool
    var gameId: string
    var communityId: string
    var loadFollowedStreams: bool
    const flags: Flags

    /**
     * The fields as declared, with the inspectable settings given.  The
     * source leaves `page` and `isLoading` nil until `viewDidLoad` runs
     * `PopulateWithReset`; here they start at the values that reset gives.
     */
    constructor (gameId: string, communityId: string, loadFollowedStreams: bool, flags: Flags)
      ensures this.gameId == gameId && this.communityId == communityId
      ensures this.loadFollowedStreams == loadFollowedStreams && this.flags == flags
      ensures lastUpdateTime.None? && streams.None? && page == 0 && !isLoading
    {
      lastUpdateTime := None;
      streams := None;
      page := 0;
      isLoading := false;
      this.gameId := gameId;
      this.communityId := communityId;
      this.loadFollowedStreams := loadFollowedStreams;
      this.flags := flags;
    }

    /** `resultsPerPageLimit`. */
    function ResultsPerPageLimit(): int
      reads this
    {
      if loadFollowedStreams then 500 else 40
    }

    /** The request `populateCollectionView` sends for a page: the grid's kind, limit, game and community. */
    function RequestFor(offset: int, append: bool): GridRequest
      reads this
    {
      GridRequest(loadFollowedStreams, ResultsPerPageLimit(), offset,
        if gameId != "" then Some(gameId) else None,
        if communityId != "" then Some(communityId) else None,
        append)
    }

    /** The streams shown, none before the first answer. */
    function StreamList(): seq<TwitchStream>
      reads this
    {
      if streams.Some? then streams.value else []
    }

    /**
     * `shouldUpdate`: ten minutes since the last update, or the refresh
     * flag of this grid's kind is raised.
     */
    predicate ShouldUpdate(now: int)
      reads this, flags
    {
      || (lastUpdateTime.Some? && now - lastUpdateTime.value >= UPDATE_INTERVAL)
      || (flags.needsFollowsUpdate && loadFollowedStreams)
      || (flags.needsPopularUpdate && !loadFollowedStreams)
    }

    /** `getStreamCounts`: the loop that counts online and offline entries. */
    method GetStreamCounts() returns (counts: OnlineOfflineCount)
      ensures counts.onlineCount + counts.offlineCount == |StreamList()|
      ensures counts.offlineCount == |OfflineIndices(StreamList())|
      ensures counts.offlineCount == OfflineCount(StreamList())
    {
      var onlineCount := 0;
      var offlineCount := 0;
      var list := StreamList();
      var i := 0;
      while i < |list|
        invariant 0 <= i <= |list|
        invariant offlineCount == OfflineCount(list[..i])
        invariant onlineCount + offlineCount == i
      {
        assert list[..i + 1][..i] == list[..i];
        if IsOffline(list[i]) {
          offlineCount := offlineCount + 1;
        } else {
          onlineCount := onlineCount + 1;
        }
        i := i + 1;
      }
      assert list[..i] == list;
      OfflineCountIsIndices(list);
      counts := OnlineOfflineCount(onlineCount, offlineCount);
    }

    /** `numberOfSections`: two in the followed grid, one otherwise. */
    function NumberOfSections(): (n: int)
      reads this
      ensures n == 2 <==> loadFollowedStreams
      ensures n == 1 <==> !loadFollowedStreams
    {
      if loadFollowedStreams then 2 else 1
    }

    /**
     * `numberOfItemsInSection`: in the followed grid, section 1 holds the
     * offline channels and every other section the online ones; otherwise
     * the one section holds all streams.
     */
    function NumberOfItemsInSection(section: int): (n: int)
      reads this
      ensures loadFollowedStreams && section == 1 ==> n == |OfflineIndices(StreamList())|
      ensures loadFollowedStreams && section != 1 ==> n == |StreamList()| - |OfflineIndices(StreamList())|
      ensures !loadFollowedStreams ==> n == |StreamList()|
    {
      var offline := OfflineCount(StreamList());
      OfflineCountIsIndices(StreamList());
      if section == 1 && loadFollowedStreams then offline
      else if loadFollowedStreams then |StreamList()| - offline
      else |StreamList()|
    }

    /** `cellForItemAt`: the stream a cell shows, through the bounds-checked subscript. */
    function StreamAt(section: int, item: int): (r: Option<TwitchStream>)
      reads this
      ensures var index := if loadFollowedStreams && section == 1 then item + |StreamList()| - OfflineCount(StreamList()) else item;
        && (r.Some? <==> 0 <= index < |StreamList()|)
        && (r.Some? ==> r.value == StreamList()[index])
    {
      var online := |StreamList()| - OfflineCount(StreamList());
      var streamIndex := if loadFollowedStreams && section == 1 then item + online else item;
      if streams.Some? then At(streams.value, streamIndex) else None
    }

    /**
     * `populateCollectionView`: marks the grid loading and asks for a
     * page; the followed grid asks only once logged in, and otherwise
     * stays loading.
     */
    method Populate(offset: int, append: bool, isLoggedIn: bool) returns (request: Option<GridRequest>)
      modifies this
      ensures isLoading
      ensures request.Some? <==> !loadFollowedStreams || isLoggedIn
      ensures request.Some? ==> request.value == RequestFor(offset, append)
      ensures request.Some? ==> request.value.limit == (if loadFollowedStreams then 500 else 40)
      ensures request.Some? ==> request.value.followed == loadFollowedStreams && request.value.offset == offset && request.value.append == append
      ensures request.Some? ==> (request.value.gameId.Some? <==> gameId != "") && (request.value.gameId.Some? ==> request.value.gameId.value == gameId)
      ensures request.Some? ==> (request.value.communityId.Some? <==> communityId != "") && (request.value.communityId.Some? ==> request.value.communityId.value == communityId)
      ensures lastUpdateTime == old(lastUpdateTime) && streams == old(streams) && page == old(page)
      ensures gameId == old(gameId) && communityId == old(communityId) && loadFollowedStreams == old(loadFollowedStreams)
    {
      isLoading := true;
      var game := if gameId != "" then Some(gameId) else None;
      var community := if communityId != "" then Some(communityId) else None;
      request := None;
      if !loadFollowedStreams || isLoggedIn {
        request := Some(GridRequest(loadFollowedStreams, ResultsPerPageLimit(), offset, game, community, append));
      }
    }

    /** `populateCollectionViewWithReset`: page 0, not loading, both grid refresh flags lowered, then the first page. */
    method PopulateWithReset(isLoggedIn: bool) returns (request: Option<GridRequest>)
      modifies this, flags
      ensures page == 0 && isLoading
      ensures !flags.needsFollowsUpdate && !flags.needsPopularUpdate
      ensures flags.needsGameUpdate == old(flags.needsGameUpdate) && flags.needsCommunityUpdate == old(flags.needsCommunityUpdate)
      ensures request.Some? <==> !loadFollowedStreams || isLoggedIn
      ensures request.Some? ==> request.value == RequestFor(0, false)
      ensures lastUpdateTime == old(lastUpdateTime) && streams == old(streams)
      ensures gameId == old(gameId) && communityId == old(communityId) && loadFollowedStreams == old(loadFollowedStreams)
    {
      page := 0;
      isLoading := false;
      flags.needsFollowsUpdate := false;
      flags.needsPopularUpdate := false;
      request := Populate(0, false, isLoggedIn);
    }

    /** `viewWillAppear` / `applicationDidBecomeActive`: a reset only when `shouldUpdate` holds. */
    method Appear(now: int, isLoggedIn: bool) returns (reset: bool, request: Option<GridRequest>)
      modifies this, flags
      ensures reset == old(ShouldUpdate(now))
      ensures reset ==> page == 0 && isLoading && !flags.needsFollowsUpdate && !flags.needsPopularUpdate
      ensures reset ==> (request.Some? <==> !loadFollowedStreams || isLoggedIn)
      ensures reset && request.Some? ==> request.value == RequestFor(0, false)
      ensures !reset ==> page == old(page) && isLoading == old(isLoading) && request.None?
      ensures !reset ==> flags.needsFollowsUpdate == old(flags.needsFollowsUpdate) && flags.needsPopularUpdate == old(flags.needsPopularUpdate)
      ensures flags.needsGameUpdate == old(flags.needsGameUpdate) && flags.needsCommunityUpdate == old(flags.needsCommunityUpdate)
      ensures lastUpdateTime == old(lastUpdateTime) && streams == old(streams)
      ensures gameId == old(gameId) && communityId == old(communityId) && loadFollowedStreams == old(loadFollowedStreams)
    {
      reset := ShouldUpdate(now);
      request := None;
      if reset {
        request := PopulateWithReset(isLoggedIn);
      }
    }

    /**
     * `shouldUpdateFocusIn`: when `item` is among the last five and the
     * grid is idle below MAX_PAGE, an appending request goes out whose
     * offset is the page number itself; the page is not raised here.
     */
    method FocusItem(item: int, isLoggedIn: bool) returns (requested: bool, request: Option<GridRequest>)
      modifies this
      ensures requested == old(streams.Some? && NearEnd(item, |streams.value|) && !isLoading && page < MAX_PAGE)
      ensures requested ==> isLoading && (request.Some? <==> !loadFollowedStreams || isLoggedIn)
      ensures requested && request.Some? ==> request.value == RequestFor(page, true)
      ensures !requested ==> isLoading == old(isLoading) && request.None?
      ensures page == old(page) && lastUpdateTime == old(lastUpdateTime) && streams == old(streams)
      ensures gameId == old(gameId) && communityId == old(communityId) && loadFollowedStreams == old(loadFollowedStreams)
    {
      requested := false;
      request := None;
      if streams.Some? && NearEnd(item, |streams.value|) && !isLoading && page < MAX_PAGE {
        requested := true;
        request := Populate(page, true, isLoggedIn);
      }
    }

    /**
     * `handleStreamData`.  A non-empty answer stamps the update time; an
     * answer replaces or extends the list and moves the page on; no
     * answer stamps 0 and keeps list and page.  Loading ends.
     */
    method HandleStreamData(response: Option<seq<TwitchStream>>, append: bool, now: int) returns (inserted: seq<int>)
      modifies this
      ensures !isLoading
      ensures response.Some? && |response.value| > 0 ==> lastUpdateTime == Some(now)
      ensures response.Some? && |response.value| == 0 ==> lastUpdateTime == old(lastUpdateTime)
      ensures response.None? ==> lastUpdateTime == Some(0) && streams == old(streams) && page == old(page)
      ensures response.Some? ==> streams == Some(Merged(old(streams), response.value, append))
      ensures response.Some? ==> page == PageAfter(old(page), |response.value|, ResultsPerPageLimit(), loadFollowedStreams)
      ensures response.Some? && append && old(streams).Some?
          ==> |inserted| == |response.value| && forall k :: 0 <= k < |inserted| ==> inserted[k] == |old(streams).value| + k
      ensures !(response.Some? && append && old(streams).Some?) ==> inserted == []
      ensures gameId == old(gameId) && communityId == old(communityId) && loadFollowedStreams == old(loadFollowedStreams)
    {
      inserted := [];
      if response.Some? {
        var received := response.value;
        if |received| > 0 {
          lastUpdateTime := Some(now);
        }
        if !append || streams.None? {
          streams := response;
        } else {
          var count := |streams.value|;
          streams := Some(streams.value + received);
          inserted := AppendedIndices(count, |streams.value|);
        }
        page := page + 1;
        if |received| < ResultsPerPageLimit() || loadFollowedStreams {
          page := MAX_PAGE;
        }
      } else {
        lastUpdateTime := Some(0);
      }
      isLoading := false;
    }
  }

  /**
   * In the followed grid with the API's online-first order, section 0
   * shows exactly the live channels and section 1 exactly the offline
   * ones, each stream once.
   */
  lemma FollowedSections(g: VideoGrid)
    requires g.loadFollowedStreams && OnlineFirst(g.StreamList())
    ensures forall i :: 0 <= i < g.NumberOfItemsInSection(0) ==> g.StreamAt(0, i).Some? && !IsOffline(g.StreamAt(0, i).value)
    ensures forall i :: 0 <= i < g.NumberOfItemsInSection(1) ==> g.StreamAt(1, i).Some? && IsOffline(g.StreamAt(1, i).value)
    ensures g.NumberOfItemsInSection(0) + g.NumberOfItemsInSection(1) == |g.StreamList()|
  {
    OnlineFirstSplit(g.StreamList());
    OfflineCountIsIndices(g.StreamList());
  }
}
