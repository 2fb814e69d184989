/**
 * `GameListViewController`: two rows of games, the top games and the
 * followed ones, each paged fifty at a time up to `MAX_PAGES` pages.
 * Unlike the poster list, its reset keeps the lists it has, and nothing
 * ever stamps `lastUpdateTime`, so the ten-minute refresh never fires.
 * As in the poster list, a request carries the `completion` closure as a
 * value the caller hands to `Complete`; the login check is the
 * `isLoggedIn` parameter and "now" a whole number of seconds.
 */
module GameLists {
  import opened Wrappers
  import opened Paging
  import opened TwitchRecords

  const MAX_PAGES: int := 8
  const PAGE_LIMIT: int := 50
  const UPDATE_INTERVAL: int := 60 * 10

  /** Which list a request fills. */
  datatype GameListKind = TopGames | FollowedGames

  /** The closures passed as `completion`. */
  datatype Completion =
    | LoadFollowedThenReload          // reset: after the top games, load the followed ones
    | Reload                          // reset: reload the table
    | Insert(list: GameListKind, count: int)  // a cell asked for more: insert the indices added after `count`
    | NoCompletion                    // the default `{}`

  /** A request to `getTopGames` or `getFollowedGames`. */
  datatype GamesRequest = GamesRequest(list: GameListKind, limit: int, offset: int, append: bool, completion: Completion)

  /** The page after an answer of `received` games: one more, or MAX_PAGES after a page shorter than PAGE_LIMIT - 1. */
  function PageAfter(page: int, received: int): int {
    if received < PAGE_LIMIT - 1 then MAX_PAGES else page + 1
  }

  /** An answer to a page asked for below MAX_PAGES leaves the counter in 1 … MAX_PAGES. */
  lemma PageAfterBounds(page: int, received: int)
    requires 0 <= page < MAX_PAGES
    ensures 0 < PageAfter(page, received) <= MAX_PAGES
    ensures PageAfter(page, received) == MAX_PAGES <==> received < PAGE_LIMIT - 1 || page == MAX_PAGES - 1
  {
  }

  class GameList {
    var topGames: seq<TwitchGame>
    var followedGames: seq<TwitchGame>
    var topGamesPage: int
    var followedGamesPage: int
    var topGamesLoading: bool
    var followedGamesLoading: bool
    var lastUpdateTime: Option<int>

    /** The fields as declared. */
    constructor ()
      ensures topGames == [] && followedGames == [] && lastUpdateTime.None?
      ensures topGamesPage == 0 && followedGamesPage == 0 && !topGamesLoading && !followedGamesLoading
    {
      topGames := [];
      followedGames := [];
      topGamesPage := 0;
      followedGamesPage := 0;
      topGamesLoading := false;
      followedGamesLoading := false;
      lastUpdateTime := None;
    }

    /** The refresh test of `viewWillAppear` / `applicationDidBecomeActive`. */
    predicate Stale(now: int)
      reads this
    {
      lastUpdateTime.Some? && now - lastUpdateTime.value >= UPDATE_INTERVAL
    }

    /** `numberOfRowsInSection`: one row per non-empty list. */
    function RowCount(): (rows: int)
      reads this
      ensures 0 <= rows <= 2
      ensures rows == 0 <==> topGames == [] && followedGames == []
      ensures rows == 2 <==> topGames != [] && followedGames != []
    {
      (if |followedGames| > 0 then 1 else 0) + (if |topGames| > 0 then 1 else 0)
    }

    /** `cellForRowAt`: row 0 shows the top games when there are any; any other row the followed games when there are any. */
    function RowList(row: int): (r: Option<GameListKind>)
      reads this
      ensures r == Some(TopGames) <==> row == 0 && topGames != []
      ensures r == Some(FollowedGames) <==> !(row == 0 && topGames != []) && followedGames != []
    {
      if row == 0 && |topGames| > 0 then Some(TopGames)
      else if |followedGames| > 0 then Some(FollowedGames)
      else None
    }

    /** `loadTopGames`: asks for the next page unless it is loading or at MAX_PAGES. */
    method LoadTopGames(append: bool, completion: Completion) returns (request: Option<GamesRequest>)
      modifies this
      ensures request.Some? <==> old(topGamesPage < MAX_PAGES && !topGamesLoading)
      ensures request.Some? ==> topGamesLoading && request.value == GamesRequest(TopGames, PAGE_LIMIT, topGamesPage, append, completion)
      ensures request.None? ==> topGamesLoading == old(topGamesLoading)
      ensures topGames == old(topGames) && followedGames == old(followedGames)
      ensures topGamesPage == old(topGamesPage) && followedGamesPage == old(followedGamesPage)
      ensures followedGamesLoading == old(followedGamesLoading) && lastUpdateTime == old(lastUpdateTime)
    {
      request := None;
      if topGamesPage < MAX_PAGES && !topGamesLoading {
        topGamesLoading := true;
        request := Some(GamesRequest(TopGames, PAGE_LIMIT, topGamesPage, append, completion));
      }
    }

    /** `loadFollowedGames`: as `LoadTopGames`, and only when logged in. */
    method LoadFollowedGames(append: bool, completion: Completion, isLoggedIn: bool) returns (request: Option<GamesRequest>)
      modifies this
      ensures request.Some? <==> isLoggedIn && old(followedGamesPage < MAX_PAGES && !followedGamesLoading)
      ensures request.Some? ==> followedGamesLoading && request.value == GamesRequest(FollowedGames, PAGE_LIMIT, followedGamesPage, append, completion)
      ensures request.None? ==> followedGamesLoading == old(followedGamesLoading)
      ensures topGames == old(topGames) && followedGames == old(followedGames)
      ensures topGamesPage == old(topGamesPage) && followedGamesPage == old(followedGamesPage)
      ensures topGamesLoading == old(topGamesLoading) && lastUpdateTime == old(lastUpdateTime)
    {
      request := None;
      if isLoggedIn && followedGamesPage < MAX_PAGES && !followedGamesLoading {
        followedGamesLoading := true;
        request := Some(GamesRequest(FollowedGames, PAGE_LIMIT, followedGamesPage, append, completion));
      }
    }

    /** `reset`: both pages 0 and both loading flags cleared, the lists kept, then the first top page is asked for. */
    method Reset() returns (request: GamesRequest)
      modifies this
      ensures topGamesPage == 0 && followedGamesPage == 0 && topGamesLoading && !followedGamesLoading
      ensures topGames == old(topGames) && followedGames == old(followedGames) && lastUpdateTime == old(lastUpdateTime)
      ensures request == GamesRequest(TopGames, PAGE_LIMIT, 0, false, LoadFollowedThenReload)
    {
      topGamesPage := 0;
      followedGamesPage := 0;
      topGamesLoading := false;
      followedGamesLoading := false;
      var r := LoadTopGames(false, LoadFollowedThenReload);
      request := r.value;
    }

    /** `viewWillAppear` / `applicationDidBecomeActive`: a reset only when the list is stale. */
    method Appear(now: int) returns (request: Option<GamesRequest>)
      modifies this
      ensures request.Some? <==> old(Stale(now))
      ensures request.Some? ==> request.value == GamesRequest(TopGames, PAGE_LIMIT, 0, false, LoadFollowedThenReload)
      ensures request.Some? ==> topGamesPage == 0 && followedGamesPage == 0 && topGamesLoading && !followedGamesLoading
      ensures request.None? ==> topGamesPage == old(topGamesPage) && followedGamesPage == old(followedGamesPage)
      ensures request.None? ==> topGamesLoading == old(topGamesLoading) && followedGamesLoading == old(followedGamesLoading)
      ensures topGames == old(topGames) && followedGames == old(followedGames) && lastUpdateTime == old(lastUpdateTime)
    {
      request := None;
      if Stale(now) {
        var r := Reset();
        request := Some(r);
      }
    }

    /** The `getTopGames` callback: an answer replaces or extends the list and moves the page on; no answer keeps both. */
    method OnTopGames(response: Option<seq<TwitchGame>>, append: bool)
      modifies this
      ensures !topGamesLoading
      ensures response.Some? ==> topGames == (if append then old(topGames) + response.value else response.value)
      ensures response.Some? ==> topGamesPage == PageAfter(old(topGamesPage), |response.value|)
      ensures response.None? ==> topGames == old(topGames) && topGamesPage == old(topGamesPage)
      ensures followedGames == old(followedGames) && followedGamesPage == old(followedGamesPage)
      ensures followedGamesLoading == old(followedGamesLoading) && lastUpdateTime == old(lastUpdateTime)
    {
      if response.Some? {
        if append {
          topGames := topGames + response.value;
        } else {
          topGames := response.value;
        }
        topGamesPage := topGamesPage + 1;
        if |response.value| < PAGE_LIMIT - 1 {
          topGamesPage := MAX_PAGES;
        }
      }
      topGamesLoading := false;
    }

    /** The `getFollowedGames` callback: as `OnTopGames`, for the followed list. */
    method OnFollowedGames(response: Option<seq<TwitchGame>>, append: bool)
      modifies this
      ensures !followedGamesLoading
      ensures response.Some? ==> followedGames == (if append then old(followedGames) + response.value else response.value)
      ensures response.Some? ==> followedGamesPage == PageAfter(old(followedGamesPage), |response.value|)
      ensures response.None? ==> followedGames == old(followedGames) && followedGamesPage == old(followedGamesPage)
      ensures topGames == old(topGames) && topGamesPage == old(topGamesPage)
      ensures topGamesLoading == old(topGamesLoading) && lastUpdateTime == old(lastUpdateTime)
    {
      if response.Some? {
        if append {
          followedGames := followedGames + response.value;
        } else {
          followedGames := response.value;
        }
        followedGamesPage := followedGamesPage + 1;
        if |response.value| < PAGE_LIMIT - 1 {
          followedGamesPage := MAX_PAGES;
        }
      }
      followedGamesLoading := false;
    }

    /**
     * Runs a `completion`: after the top games of a reset, the followed
     * games are loaded; an insert lists the indices added after the count
     * taken before; a reload changes no field.
     */
    method Complete(completion: Completion, isLoggedIn: bool) returns (request: Option<GamesRequest>, inserted: seq<int>)
      modifies this
      ensures completion == LoadFollowedThenReload ==> (request.Some? <==> isLoggedIn && old(followedGamesPage < MAX_PAGES && !followedGamesLoading))
      ensures completion == LoadFollowedThenReload ==> followedGamesLoading == (request.Some? || old(followedGamesLoading))
      ensures completion != LoadFollowedThenReload ==> request.None? && followedGamesLoading == old(followedGamesLoading)
      ensures completion.Insert? ==> var list := if completion.list == TopGames then topGames else followedGames;
        && |inserted| == (if completion.count < |list| then |list| - completion.count else 0)
        && forall k :: 0 <= k < |inserted| ==> inserted[k] == completion.count + k
      ensures !completion.Insert? ==> inserted == []
      ensures topGames == old(topGames) && followedGames == old(followedGames)
      ensures topGamesPage == old(topGamesPage) && followedGamesPage == old(followedGamesPage)
      ensures topGamesLoading == old(topGamesLoading) && lastUpdateTime == old(lastUpdateTime)
    {
      request := None;
      inserted := [];
      if completion == LoadFollowedThenReload {
        request := LoadFollowedGames(false, Reload, isLoggedIn);
      }
      if completion.Insert? {
        var list := if completion.list == TopGames then topGames else followedGames;
        inserted := AppendedIndices(completion.count, |list|);
      }
    }

    /**
     * `onCollectionCellAction` on a row of games: the row showing the top
     * games asks for more of them, any other row for more followed games,
     * each remembering the count before.
     */
    method RowAction(row: int, isLoggedIn: bool) returns (request: Option<GamesRequest>)
      modifies this
      ensures RowList(row) == Some(TopGames) ==> (request.Some? <==> old(topGamesPage < MAX_PAGES && !topGamesLoading))
      ensures RowList(row) == Some(FollowedGames) ==> (request.Some? <==> isLoggedIn && old(followedGamesPage < MAX_PAGES && !followedGamesLoading))
      ensures RowList(row).None? ==> request.None?
      ensures request.Some? ==> request.value.append && request.value.completion == Insert(request.value.list, |if request.value.list == TopGames then topGames else followedGames|)
      ensures request.Some? ==> Some(request.value.list) == RowList(row)
      ensures request.Some? ==> request.value.offset == (if request.value.list == TopGames then topGamesPage else followedGamesPage)
      ensures request.Some? ==> request.value.limit == PAGE_LIMIT
      ensures request.Some? && request.value.list == TopGames ==> topGamesLoading
      ensures request.Some? && request.value.list == FollowedGames ==> followedGamesLoading
      ensures !(request.Some? && request.value.list == TopGames) ==> topGamesLoading == old(topGamesLoading)
      ensures !(request.Some? && request.value.list == FollowedGames) ==> followedGamesLoading == old(followedGamesLoading)
      ensures topGames == old(topGames) && followedGames == old(followedGames)
      ensures topGamesPage == old(topGamesPage) && followedGamesPage == old(followedGamesPage)
      ensures lastUpdateTime == old(lastUpdateTime)
    {
      request := None;
      if row == 0 && |topGames| > 0 {
        request := LoadTopGames(true, Insert(TopGames, |topGames|));
      } else if |followedGames| > 0 {
        request := LoadFollowedGames(true, Insert(FollowedGames, |followedGames|), isLoggedIn);
      }
    }
  }

  /**
   * No method stamps `lastUpdateTime`, so a list that starts without one
   * (as the constructor leaves it) is never stale and `Appear` never resets.
   */
  lemma NeverStale(g: GameList, now: int)
    requires g.lastUpdateTime.None?
    ensures !g.Stale(now)
  {
  }
}
