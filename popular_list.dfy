/**
 * `PopularListViewController`: the grid of popular live streams, paged
 * forty at a time up to `MAX_PAGE` pages.  The model keeps the fields
 * the paging callbacks update; the API call is the returned request and
 * its answer is the `response` parameter of `HandleResponse`.  "Now" is
 * a whole number of seconds passed in.
 */
module PopularLists {
  import opened Wrappers
  import opened Paging
  import opened TwitchRecords

  const UPDATE_INTERVAL: int := 60 * 10
  const MAX_PAGE: int := 10
  const PAGE_LIMIT: int := 40

  /** A `getStreams` request: the page size, the offset and whether the answer is appended. */
  datatype StreamsRequest = StreamsRequest(limit: int, offset: int, append: bool)

  /** More than `UPDATE_INTERVAL` seconds since the last update, when there was one. */
  predicate Stale(lastUpdateTime: Option<int>, now: int) {
    lastUpdateTime.Some? && now - lastUpdateTime.value >= UPDATE_INTERVAL
  }

  /** The focus rule: a next page is asked for when the focused item is near the end, nothing loads and pages remain. */
  predicate WantsNextPage(streams: Option<seq<TwitchStream>>, item: int, isLoading: bool, page: int) {
    streams.Some? && NearEnd(item, |streams.value|) && !isLoading && page < MAX_PAGE
  }

  class PopularList {
    var lastUpdateTime: Option<int>
    var streams: Option<seq<TwitchStream>>
    var page: int
    var isLoading: bool

    /** The page counter never leaves 0 … MAX_PAGE. */
    predicate Valid()
      reads this
    {
      0 <= page <= MAX_PAGE
    }

    /**
     * The fields as declared.  The source leaves `page` and `isLoading`
     * nil until `viewDidLoad` runs `PopulateWithReset`; here they start
     * at the values that reset gives them.
     */
    constructor ()
      ensures Valid()
      ensures lastUpdateTime.None? && streams.None? && page == 0 && !isLoading
    {
      lastUpdateTime := None;
      streams := None;
      page := 0;
      isLoading := false;
    }

    /** `numberOfItemsInSection`: the number of streams, 0 before the first answer. */
    function ItemCount(): (n: nat)
      reads this
      ensures streams.None? ==> n == 0
      ensures streams.Some? ==> n == |streams.value|
    {
      if streams.Some? then |streams.value| else 0
    }

    /** `populateCollectionView`: marks the list loading and asks for a page of forty. */
    method Populate(offset: int, append: bool) returns (request: StreamsRequest)
      modifies this
      ensures isLoading
      ensures request == StreamsRequest(PAGE_LIMIT, offset, append)
      ensures lastUpdateTime == old(lastUpdateTime) && streams == old(streams) && page == old(page)
    {
      isLoading := true;
      request := StreamsRequest(PAGE_LIMIT, offset, append);
    }

    /** `populateCollectionViewWithReset`: page 0, not loading, then the first page is asked for afresh. */
    method PopulateWithReset() returns (request: StreamsRequest)
      modifies this
      ensures Valid() && page == 0 && isLoading
      ensures request == StreamsRequest(PAGE_LIMIT, 0, false)
      ensures lastUpdateTime == old(lastUpdateTime) && streams == old(streams)
    {
      page := 0;
      isLoading := false;
      request := Populate(0, false);
    }

    /** `viewWillAppear` / `applicationDidBecomeActive`: a reset only when the list is stale. */
    method Appear(now: int) returns (request: Option<StreamsRequest>)
      requires Valid()
      modifies this
      ensures Valid()
      ensures request.Some? <==> old(Stale(lastUpdateTime, now))
      ensures request.Some? ==> request.value == StreamsRequest(PAGE_LIMIT, 0, false) && page == 0 && isLoading
      ensures request.None? ==> page == old(page) && isLoading == old(isLoading)
      ensures lastUpdateTime == old(lastUpdateTime) && streams == old(streams)
    {
      request := None;
      if Stale(lastUpdateTime, now) {
        var r := PopulateWithReset();
        request := Some(r);
      }
    }

    /**
     * `shouldUpdateFocusIn`: when `item` is among the last five and the
     * list is idle below MAX_PAGE, the page goes up by one first and is
     * then the offset of an appending request.
     */
    method FocusItem(item: int) returns (request: Option<StreamsRequest>)
      requires Valid()
      modifies this
      ensures Valid()
      ensures request.Some? <==> old(WantsNextPage(streams, item, isLoading, page))
      ensures request.Some? ==> page == old(page) + 1 && isLoading && request.value == StreamsRequest(PAGE_LIMIT, page, true)
      ensures request.None? ==> page == old(page) && isLoading == old(isLoading)
      ensures lastUpdateTime == old(lastUpdateTime) && streams == old(streams)
    {
      request := None;
      if streams.Some? && NearEnd(item, |streams.value|) && !isLoading && page < MAX_PAGE {
        page := page + 1;
        var r := Populate(page, true);
        request := Some(r);
      }
    }

    /**
     * The `getStreams` callback.  Any answer, empty or not, stamps the
     * update time and replaces or extends the list; `inserted` are the
     * indices an append added.  No answer stamps 0.  Either way loading
     * ends; the page counter is not touched.
     */
    method HandleResponse(response: Option<seq<TwitchStream>>, append: bool, now: int) returns (inserted: seq<int>)
      requires Valid()
      modifies this
      ensures Valid() && !isLoading && page == old(page)
      ensures response.Some? ==> lastUpdateTime == Some(now) && streams == Some(Merged(old(streams), response.value, append))
      ensures response.None? ==> lastUpdateTime == Some(0) && streams == old(streams)
      ensures response.Some? && append && old(streams).Some?
          ==> |inserted| == |response.value| && forall k :: 0 <= k < |inserted| ==> inserted[k] == |old(streams).value| + k
      ensures !(response.Some? && append && old(streams).Some?) ==> inserted == []
    {
      inserted := [];
      if response.Some? {
        lastUpdateTime := Some(now);
        if !append || streams.None? {
          streams := response;
        } else {
          var count := |streams.value|;
          streams := Some(streams.value + response.value);
          inserted := AppendedIndices(count, |streams.value|);
        }
      } else {
        lastUpdateTime := Some(0);
      }
      isLoading := false;
    }
  }
}
