/**
 * `PosterItemsListViewController`: two rows of posters, the top games
 * (or communities, with `loadCommunityData`) and the followed ones, each
 * paged fifty at a time up to `MAX_PAGES` pages.  The model keeps the
 * fields the load callbacks update.  An API call is the returned
 * request; the closure the source passes as `completion` is the
 * request's `completion` value, which the caller hands to `Complete`
 * once the answer has been handled (or at once when no request was
 * made).  The login check is the `isLoggedIn` parameter and "now" a
 * whole number of seconds.
 */
module PosterItemsLists {
  import opened Wrappers
  import opened Paging
  import opened TwitchRecords
  import opened UpdateFlags

  const MAX_PAGES: int := 8
  const PAGE_LIMIT: int := 50
  const UPDATE_INTERVAL: int := 60 * 10

  /** Which list a request fills. */
  datatype ItemList = Top | Followed

  /** The closures passed as `completion`. */
  datatype Completion =
    | LoadFollowedThenReload   // reset: after the top items, load the followed ones
    | Reload                   // reset: stamp the update time when there are top items, reload the table
    | Insert(list: ItemList, count: int)  // a cell asked for more: insert the indices added after `count`
    | NoCompletion             // the default `{}`

  /** A request to the top or followed endpoint. */
  datatype ItemsRequest = ItemsRequest(
    list: ItemList,
    communities: bool,
    limit: int,
    offset: int,
    append: bool,
    completion: Completion)

  /**
   * The page after an answer of `received` items: one more, or MAX_PAGES
   * when it is shorter than PAGE_LIMIT - 1 (the top endpoint answers one
   * short of the limit).
   */
  function PageAfter(page: int, received: int): int {
    if received < PAGE_LIMIT - 1 then MAX_PAGES else page + 1
  }

  /** An answer to a page asked for below MAX_PAGES leaves the counter in 1 … MAX_PAGES. */
  lemma PageAfterBounds(page: int, received: int)
    requires 0 <= page < MAX_PAGES
    ensures 0 < PageAfter(page, received) <= MAX_PAGES
    ensures PageAfter(page, received) == MAX_PAGES <==> received < PAGE_LIMIT - 1 || page == MAX_PAGES - 1
  {
  }

  class PosterItemsList {
    var loadCommunityData: bool
    var topItems: seq<PosterItem>
    var followedItems: seq<PosterItem>
    var topItemsPage: int
    var followedItemsPage: int
    var topItemsLoading: bool
    var followedItemsLoading: bool
    var lastUpdateTime: Option<int>
    const flags: Flags

    /** The fields as declared, with the inspectable `loadCommunityData` given. */
    constructor (loadCommunityData: bool, flags: Flags)
      ensures this.loadCommunityData == loadCommunityData && this.flags == flags
      ensures topItems == [] && followedItems == [] && lastUpdateTime.None?
      ensures topItemsPage == 0 && followedItemsPage == 0 && !topItemsLoading && !followedItemsLoading
    {
      this.loadCommunityData := loadCommunityData;
      this.flags := flags;
      topItems := [];
      followedItems := [];
      topItemsPage := 0;
      followedItemsPage := 0;
      topItemsLoading := false;
      followedItemsLoading := false;
      lastUpdateTime := None;
    }

    /**
     * `shouldReload`: ten minutes since the last update, or the refresh
     * flag of this screen's kind (games or communities) is raised.
     */
    predicate ShouldReload(now: int)
      reads this, flags
    {
      || (lastUpdateTime.Some? && now - lastUpdateTime.value >= UPDATE_INTERVAL)
      || (flags.needsGameUpdate && !loadCommunityData)
      || (flags.needsCommunityUpdate && loadCommunityData)
    }

    /** `numberOfRowsInSection`: one row per non-empty list. */
    function RowCount(): (rows: int)
      reads this
      ensures 0 <= rows <= 2
      ensures rows == 0 <==> topItems == [] && followedItems == []
      ensures rows == 2 <==> topItems != [] && followedItems != []
    {
      (if |followedItems| > 0 then 1 else 0) + (if |topItems| > 0 then 1 else 0)
    }

    /** `cellForRowAt`: row 0 shows the top items when there are any; any other row the followed items when there are any. */
    function RowList(row: int): (r: Option<ItemList>)
      reads this
      ensures r == Some(Top) <==> row == 0 && topItems != []
      ensures r == Some(Followed) <==> !(row == 0 && topItems != []) && followedItems != []
    {
      if row == 0 && |topItems| > 0 then Some(Top)
      else if |followedItems| > 0 then Some(Followed)
      else None
    }

    /** `loadTopItems`: asks for the next top page unless it is loading or at MAX_PAGES. */
    method LoadTopItems(append: bool, completion: Completion) returns (request: Option<ItemsRequest>)
      modifies this
      ensures request.Some? <==> old(topItemsPage < MAX_PAGES && !topItemsLoading)
      ensures request.Some? ==> topItemsLoading && request.value == ItemsRequest(Top, loadCommunityData, PAGE_LIMIT, topItemsPage, append, completion)
      ensures request.None? ==> topItemsLoading == old(topItemsLoading)
      ensures topItems == old(topItems) && followedItems == old(followedItems)
      ensures topItemsPage == old(topItemsPage) && followedItemsPage == old(followedItemsPage)
      ensures followedItemsLoading == old(followedItemsLoading) && lastUpdateTime == old(lastUpdateTime)
      ensures loadCommunityData == old(loadCommunityData)
    {
      request := None;
      if topItemsPage < MAX_PAGES && !topItemsLoading {
        topItemsLoading := true;
        request := Some(ItemsRequest(Top, loadCommunityData, PAGE_LIMIT, topItemsPage, append, completion));
      }
    }

    /** `loadFollowedItems`: as `LoadTopItems`, and only when logged in. */
    method LoadFollowedItems(append: bool, completion: Completion, isLoggedIn: bool) returns (request: Option<ItemsRequest>)
      modifies this
      ensures request.Some? <==> isLoggedIn && old(followedItemsPage < MAX_PAGES && !followedItemsLoading)
      ensures request.Some? ==> followedItemsLoading && request.value == ItemsRequest(Followed, loadCommunityData, PAGE_LIMIT, followedItemsPage, append, completion)
      ensures request.None? ==> followedItemsLoading == old(followedItemsLoading)
      ensures topItems == old(topItems) && followedItems == old(followedItems)
      ensures topItemsPage == old(topItemsPage) && followedItemsPage == old(followedItemsPage)
      ensures topItemsLoading == old(topItemsLoading) && lastUpdateTime == old(lastUpdateTime)
      ensures loadCommunityData == old(loadCommunityData)
    {
      request := None;
      if isLoggedIn && followedItemsPage < MAX_PAGES && !followedItemsLoading {
        followedItemsLoading := true;
        request := Some(ItemsRequest(Followed, loadCommunityData, PAGE_LIMIT, followedItemsPage, append, completion));
      }
    }

    /**
     * `reset`: both pages 0, both loading flags and both lists cleared,
     * the refresh flag of this screen's kind lowered, then the first top
     * page is asked for.
     */
    method Reset() returns (request: ItemsRequest)
      modifies this, flags
      ensures topItems == [] && followedItems == [] && topItemsPage == 0 && followedItemsPage == 0
      ensures topItemsLoading && !followedItemsLoading
      ensures request == ItemsRequest(Top, loadCommunityData, PAGE_LIMIT, 0, false, LoadFollowedThenReload)
      ensures flags.needsGameUpdate == (old(flags.needsGameUpdate) && loadCommunityData)
      ensures flags.needsCommunityUpdate == (old(flags.needsCommunityUpdate) && !loadCommunityData)
      ensures flags.needsFollowsUpdate == old(flags.needsFollowsUpdate) && flags.needsPopularUpdate == old(flags.needsPopularUpdate)
      ensures lastUpdateTime == old(lastUpdateTime) && loadCommunityData == old(loadCommunityData)
    {
      topItemsPage := 0;
      followedItemsPage := 0;
      topItemsLoading := false;
      followedItemsLoading := false;
      topItems := [];
      followedItems := [];
      if flags.needsGameUpdate && !loadCommunityData {
        flags.needsGameUpdate := false;
      } else if flags.needsCommunityUpdate && loadCommunityData {
        flags.needsCommunityUpdate := false;
      }
      var r := LoadTopItems(false, LoadFollowedThenReload);
      request := r.value;
    }

    /**
     * `viewWillAppear`, `applicationDidBecomeActive` and the dismiss
     * completion of a presented video grid: a reset only when
     * `shouldReload` holds.
     */
    method Appear(now: int) returns (request: Option<ItemsRequest>)
      modifies this, flags
      ensures request.Some? <==> old(ShouldReload(now))
      ensures request.Some? ==> request.value == ItemsRequest(Top, loadCommunityData, PAGE_LIMIT, 0, false, LoadFollowedThenReload)
      ensures request.Some? ==> topItems == [] && followedItems == [] && topItemsPage == 0 && followedItemsPage == 0
      ensures request.Some? ==> topItemsLoading && !followedItemsLoading
      ensures request.Some? ==> flags.needsGameUpdate == (old(flags.needsGameUpdate) && loadCommunityData)
      ensures request.Some? ==> flags.needsCommunityUpdate == (old(flags.needsCommunityUpdate) && !loadCommunityData)
      ensures request.None? ==> topItems == old(topItems) && followedItems == old(followedItems)
      ensures request.None? ==> topItemsPage == old(topItemsPage) && followedItemsPage == old(followedItemsPage)
      ensures request.None? ==> topItemsLoading == old(topItemsLoading) && followedItemsLoading == old(followedItemsLoading)
      ensures request.None? ==> flags.needsGameUpdate == old(flags.needsGameUpdate) && flags.needsCommunityUpdate == old(flags.needsCommunityUpdate)
      ensures flags.needsFollowsUpdate == old(flags.needsFollowsUpdate) && flags.needsPopularUpdate == old(flags.needsPopularUpdate)
      ensures lastUpdateTime == old(lastUpdateTime) && loadCommunityData == old(loadCommunityData)
    {
      request := None;
      if ShouldReload(now) {
        var r := Reset();
        request := Some(r);
      }
    }

    /**
     * `onTopItemData`: an answer replaces or extends the top list and
     * moves the page on; no answer keeps both.  Loading ends.
     */
    method OnTopItemData(response: Option<seq<PosterItem>>, append: bool)
      modifies this
      ensures !topItemsLoading
      ensures response.Some? ==> topItems == (if append then old(topItems) + response.value else response.value)
      ensures response.Some? ==> topItemsPage == PageAfter(old(topItemsPage), |response.value|)
      ensures response.None? ==> topItems == old(topItems) && topItemsPage == old(topItemsPage)
      ensures followedItems == old(followedItems) && followedItemsPage == old(followedItemsPage)
      ensures followedItemsLoading == old(followedItemsLoading) && lastUpdateTime == old(lastUpdateTime)
      ensures loadCommunityData == old(loadCommunityData)
    {
      if response.Some? {
        if append {
          topItems := topItems + response.value;
        } else {
          topItems := response.value;
        }
        topItemsPage := topItemsPage + 1;
        if |response.value| < PAGE_LIMIT - 1 {
          topItemsPage := MAX_PAGES;
        }
      }
      topItemsLoading := false;
    }

    /** `onFollowedItemData`: as `OnTopItemData`, for the followed list. */
    method OnFollowedItemData(response: Option<seq<PosterItem>>, append: bool)
      modifies this
      ensures !followedItemsLoading
      ensures response.Some? ==> followedItems == (if append then old(followedItems) + response.value else response.value)
      ensures response.Some? ==> followedItemsPage == PageAfter(old(followedItemsPage), |response.value|)
      ensures response.None? ==> followedItems == old(followedItems) && followedItemsPage == old(followedItemsPage)
      ensures topItems == old(topItems) && topItemsPage == old(topItemsPage)
      ensures topItemsLoading == old(topItemsLoading) && lastUpdateTime == old(lastUpdateTime)
      ensures loadCommunityData == old(loadCommunityData)
    {
      if response.Some? {
        if append {
          followedItems := followedItems + response.value;
        } else {
          followedItems := response.value;
        }
        followedItemsPage := followedItemsPage + 1;
        if |response.value| < PAGE_LIMIT - 1 {
          followedItemsPage := MAX_PAGES;
        }
      }
      followedItemsLoading := false;
    }

    /**
     * Runs a `completion`: after the top items of a reset, the followed
     * items are loaded (and when that makes no request the reload runs at
     * once); the reload stamps the update time when there are top items;
     * an insert lists the indices added after the count taken before.
     */
    method Complete(completion: Completion, now: int, isLoggedIn: bool) returns (request: Option<ItemsRequest>, inserted: seq<int>)
      modifies this
      ensures completion == LoadFollowedThenReload ==> (request.Some? <==> isLoggedIn && old(followedItemsPage < MAX_PAGES && !followedItemsLoading))
      ensures completion != LoadFollowedThenReload ==> request.None?
      ensures (completion == Reload || (completion == LoadFollowedThenReload && request.None?)) && topItems != []
          ==> lastUpdateTime == Some(now)
      ensures !((completion == Reload || (completion == LoadFollowedThenReload && request.None?)) && topItems != [])
          ==> lastUpdateTime == old(lastUpdateTime)
      ensures completion.Insert? ==> var list := if completion.list == Top then topItems else followedItems;
        && |inserted| == (if completion.count < |list| then |list| - completion.count else 0)
        && forall k :: 0 <= k < |inserted| ==> inserted[k] == completion.count + k
      ensures !completion.Insert? ==> inserted == []
      ensures topItems == old(topItems) && followedItems == old(followedItems)
      ensures topItemsPage == old(topItemsPage) && followedItemsPage == old(followedItemsPage)
      ensures topItemsLoading == old(topItemsLoading) && loadCommunityData == old(loadCommunityData)
      ensures completion == LoadFollowedThenReload ==> followedItemsLoading == (request.Some? || old(followedItemsLoading))
      ensures completion != LoadFollowedThenReload ==> followedItemsLoading == old(followedItemsLoading)
    {
      request := None;
      inserted := [];
      var reload := completion == Reload;
      if completion == LoadFollowedThenReload {
        request := LoadFollowedItems(false, Reload, isLoggedIn);
        reload := request.None?;
      }
      if reload && |topItems| > 0 {
        lastUpdateTime := Some(now);
      }
      if completion.Insert? {
        var list := if completion.list == Top then topItems else followedItems;
        inserted := AppendedIndices(completion.count, |list|);
      }
    }

    /**
     * `onCollectionCellAction` on a row of posters: the row showing the
     * top items asks for more of them, any other row for more followed
     * items, each remembering the count before.
     */
    method RowAction(row: int, isLoggedIn: bool) returns (request: Option<ItemsRequest>)
      modifies this
      ensures RowList(row) == Some(Top) ==> (request.Some? <==> old(topItemsPage < MAX_PAGES && !topItemsLoading))
      ensures RowList(row) == Some(Followed) ==> (request.Some? <==> isLoggedIn && old(followedItemsPage < MAX_PAGES && !followedItemsLoading))
      ensures RowList(row).None? ==> request.None?
      ensures request.Some? ==> request.value.append && request.value.completion == Insert(request.value.list, |if request.value.list == Top then topItems else followedItems|)
      ensures request.Some? ==> Some(request.value.list) == RowList(row)
      ensures request.Some? ==> request.value.offset == (if request.value.list == Top then topItemsPage else followedItemsPage)
      ensures request.Some? ==> request.value.communities == loadCommunityData && request.value.limit == PAGE_LIMIT
      ensures request.Some? && request.value.list == Top ==> topItemsLoading
      ensures request.Some? && request.value.list == Followed ==> followedItemsLoading
      ensures !(request.Some? && request.value.list == Top) ==> topItemsLoading == old(topItemsLoading)
      ensures !(request.Some? && request.value.list == Followed) ==> followedItemsLoading == old(followedItemsLoading)
      ensures topItems == old(topItems) && followedItems == old(followedItems)
      ensures topItemsPage == old(topItemsPage) && followedItemsPage == old(followedItemsPage)
      ensures lastUpdateTime == old(lastUpdateTime) && loadCommunityData == old(loadCommunityData)
    {
      request := None;
      if row == 0 && |topItems| > 0 {
        request := LoadTopItems(true, Insert(Top, |topItems|));
      } else if |followedItems| > 0 {
        request := LoadFollowedItems(true, Insert(Followed, |followedItems|), isLoggedIn);
      }
    }
  }

  /** With both lists filled, row 0 shows the top items and row 1 the followed ones. */
  lemma RowsShowBothLists(p: PosterItemsList)
    requires p.RowCount() == 2
    ensures p.RowList(0) == Some(Top) && p.RowList(1) == Some(Followed)
  {
  }

  /** Every row counted shows a non-empty list. */
  lemma RowsShowNonEmptyLists(p: PosterItemsList, row: int)
    requires 0 <= row < p.RowCount()
    ensures p.RowList(row).Some?
    ensures p.RowList(row) == Some(Top) ==> p.topItems != []
    ensures p.RowList(row) == Some(Followed) ==> p.followedItems != []
  {
  }
}
