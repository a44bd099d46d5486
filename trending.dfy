/** The `mostPopular` chart side of the acquisition: the category map, the
    paginated trending fetch and the single-call fetch for one category. */
module Trending {
  import opened Prelude
  import opened Api
  import opened Paging

  /** `fetch_video_categories`: walks the response items and sets
      `categories[id] = title` for each, so a repeated id keeps the title of
      its last item. */
  method FetchVideoCategories(items: seq<CategoryItem>) returns (categories: map<string, string>)
    ensures categories == AssocBy(items, CategoryKey, CategoryTitle)
  {
    categories := map[];
    var i := 0;
    while i < |items|
      invariant 0 <= i <= |items|
      invariant categories == AssocBy(items[..i], CategoryKey, CategoryTitle)
    {
      AssocByAppend(items[..i], items[i], CategoryKey, CategoryTitle);
      assert items[..i + 1] == items[..i] + [items[i]];
      categories := categories[items[i].id := items[i].title];
      i := i + 1;
    }
    assert items[..i] == items;
  }

  /** The category map knows exactly the ids of the items, and an id maps to
      the title of the last item carrying it. */
  lemma CategoryMapSpec(items: seq<CategoryItem>)
    ensures forall id :: id in AssocBy(items, CategoryKey, CategoryTitle) ==>
      exists i :: 0 <= i < |items| && items[i].id == id
    ensures forall i :: 0 <= i < |items| ==> items[i].id in AssocBy(items, CategoryKey, CategoryTitle)
    ensures forall i :: 0 <= i < |items| && (forall j :: i < j < |items| ==> items[j].id != items[i].id) ==>
      AssocBy(items, CategoryKey, CategoryTitle)[items[i].id] == items[i].title
  {
    AssocByKeys(items, CategoryKey, CategoryTitle);
    forall i | 0 <= i < |items| && (forall j :: i < j < |items| ==> items[j].id != items[i].id)
      ensures AssocBy(items, CategoryKey, CategoryTitle)[items[i].id] == items[i].title
    {
      AssocByLastWins(items, CategoryKey, CategoryTitle, i);
    }
  }

  /** `fetch_top_videos`: pages through the chart with the loop `IsRun`
      describes and returns the first `maxResults` videos received (the
      endpoint may send more than asked). */
  method FetchTopVideos(api: (Option<string>, int) -> Page<Video>, maxResults: int, pageSize: int)
    returns (videos: seq<Video>, log: seq<Call<Video>>)
    ensures IsRun(api, maxResults, pageSize, log)
    ensures videos == PyPrefix(Received(log), maxResults)
  {
    var all: seq<Video> := [];
    var token: Option<string> := None;
    log := [];
    while |all| < maxResults
      invariant all == Received(log)
      invariant forall k :: 0 <= k < |log| ==> WellFormedCall(api, maxResults, pageSize, log, k)
      invariant forall k :: 0 <= k < |log| ==> Continues(log[k].page)
      invariant token == if log == [] then None else log[|log| - 1].page.next
      decreases maxResults - |all|
    {
      var size := Min(pageSize, maxResults - |all|);
      var page := api(token, size);
      NextCall(api, maxResults, pageSize, log, token);
      ContinuesExtend(log, Call(token, size, page));
      log := log + [Call(token, size, page)];
      if |page.items| == 0 {
        break;
      }
      all := all + page.items;
      token := page.next;
      if !HasToken(token) {
        break;
      }
    }
    videos := PyPrefix(all, maxResults);
  }

  /** What a trending fetch returns: never more than asked, always the start
      of what was received, and fewer than asked only when the chart ran out
      (the last page was empty or had no next-page token). */
  lemma TopVideosOutcome(api: (Option<string>, int) -> Page<Video>, maxResults: int, pageSize: int,
                         videos: seq<Video>, log: seq<Call<Video>>)
    requires IsRun(api, maxResults, pageSize, log)
    requires videos == PyPrefix(Received(log), maxResults)
    ensures |videos| <= Max(maxResults, 0)
    ensures videos == Received(log)[..|videos|]
    ensures |videos| < maxResults ==> |log| > 0 && !Continues(log[|log| - 1].page)
  {
    RunBounds(api, maxResults, pageSize, log);
    var got := Received(log);
    if |videos| < maxResults {
      assert |got| < maxResults;
    }
  }

  /** When the endpoint keeps to the requested sizes, the final slice keeps
      every video received. */
  lemma TopVideosKeepAll(api: (Option<string>, int) -> Page<Video>, maxResults: int, pageSize: int,
                         videos: seq<Video>, log: seq<Call<Video>>)
    requires IsRun(api, maxResults, pageSize, log)
    requires videos == PyPrefix(Received(log), maxResults)
    requires forall k :: 0 <= k < |log| ==> |log[k].page.items| <= log[k].size
    ensures videos == Received(log)
  {
    NoOvershoot(api, maxResults, pageSize, log, |log|);
    assert log[..|log|] == log;
  }

  /** `MAX_VIDEOS` and `PAGE_SIZE`, the arguments the script passes. */
  const MaxVideos := 200
  const PageSize := 50

  /** With the configured 200 videos in pages of 50 and every page full, the
      trending fetch makes at most four requests. */
  lemma ConfiguredCallBound(api: (Option<string>, int) -> Page<Video>, log: seq<Call<Video>>)
    requires IsRun(api, MaxVideos, PageSize, log)
    requires forall k :: 0 <= k < |log| ==> |log[k].page.items| == log[k].size
    ensures |log| <= 4
  {
    FullPagesCallBound(api, MaxVideos, PageSize, log);
  }

  /** `min(max_results, 50)`: the page size sent by the single-call category
      fetch; never above 50 and never above what was asked. */
  function CategoryRequestSize(maxResults: int): (n: int)
    ensures n <= 50 && n <= maxResults
    ensures n == 50 || n == maxResults
  {
    Min(maxResults, 50)
  }

  /** `fetch_top_videos_by_category`: one call, no pagination; the items of
      that single page are returned as they come. */
  method FetchTopVideosByCategory(api: (string, int) -> Page<Video>, categoryId: string, maxResults: int)
    returns (videos: seq<Video>)
    ensures videos == api(categoryId, CategoryRequestSize(maxResults)).items
  {
    var response := api(categoryId, CategoryRequestSize(maxResults));
    videos := response.items;
  }
}
