/** `search_videos`: collects video ids from the paginated search endpoint
    (at most 50 per call), then fetches the videos' details 50 ids at a time. */
module Search {
  import opened Prelude
  import opened Api
  import opened Paging

  /** The ids sent to the details endpoint: consecutive slices of 50. */
  function DetailBatches(ids: seq<string>): seq<seq<string>> {
    Chunks(ids, BatchSize)
  }

  /** The first phase: the pagination loop `IsRun` describes, with a page
      size of 50. It adds a page's ids before testing whether to stop, which
      stops it in the same cases as the trending loop; the ids are not cut
      back to `maxResults`. */
  method CollectIds(search: (Option<string>, int) -> Page<string>, maxResults: int)
    returns (ids: seq<string>, searchLog: seq<Call<string>>)
    ensures IsRun(search, maxResults, BatchSize, searchLog)
    ensures ids == Received(searchLog)
  {
    ids := [];
    var token: Option<string> := None;
    searchLog := [];
    while |ids| < maxResults
      invariant ids == Received(searchLog)
      invariant forall k :: 0 <= k < |searchLog| ==> WellFormedCall(search, maxResults, BatchSize, searchLog, k)
      invariant forall k :: 0 <= k < |searchLog| ==> Continues(searchLog[k].page)
      invariant token == if searchLog == [] then None else searchLog[|searchLog| - 1].page.next
      decreases maxResults - |ids|
    {
      var size := Min(BatchSize, maxResults - |ids|);
      var page := search(token, size);
      NextCall(search, maxResults, BatchSize, searchLog, token);
      ContinuesExtend(searchLog, Call(token, size, page));
      searchLog := searchLog + [Call(token, size, page)];
      ids := ids + page.items;
      token := page.next;
      if !HasToken(token) || |page.items| == 0 {
        break;
      }
    }
  }

  /** The second phase: each slice of 50 ids goes to the details endpoint and
      the returned items are concatenated in order. */
  method FetchDetails(details: seq<string> -> seq<Video>, ids: seq<string>)
    returns (videos: seq<Video>, batches: seq<seq<string>>)
    ensures batches == DetailBatches(ids)
    ensures videos == FlatMap(details, batches)
  {
    videos, batches := [], [];
    var i := 0;
    while i < |ids|
      invariant 0 <= i
      invariant batches + DetailBatches(ids[Min(i, |ids|)..]) == DetailBatches(ids)
      invariant videos == FlatMap(details, batches)
      decreases |ids| - i
    {
      var batch := ids[i..Min(i + BatchSize, |ids|)];
      ChunksLoopStep(ids, i, BatchSize, batches);
      FlatMapAppend(details, batches, batch);
      videos := videos + details(batch);
      batches := batches + [batch];
      i := i + BatchSize;
    }
    assert ids[|ids|..] == [];
  }

  /** `search_videos`: the two phases; no ids found means no detail calls. */
  method SearchVideos(search: (Option<string>, int) -> Page<string>, details: seq<string> -> seq<Video>,
                      maxResults: int)
    returns (videos: seq<Video>, searchLog: seq<Call<string>>, batches: seq<seq<string>>)
    ensures IsRun(search, maxResults, BatchSize, searchLog)
    ensures batches == DetailBatches(Received(searchLog))
    ensures videos == FlatMap(details, batches)
  {
    var ids;
    ids, searchLog := CollectIds(search, maxResults);
    if |ids| == 0 {
      return [], searchLog, [];
    }
    videos, batches := FetchDetails(details, ids);
  }

  /** Every id found is sent for details exactly once and in the order found:
      the slices concatenate back to the ids, hold 1 to 50 ids each, all but
      the last exactly 50, and there are ceil(n / 50) of them. */
  lemma DetailBatchesSpec(ids: seq<string>)
    ensures Flatten(DetailBatches(ids)) == ids
    ensures forall i :: 0 <= i < |DetailBatches(ids)| ==> 1 <= |DetailBatches(ids)[i]| <= BatchSize
    ensures forall i :: 0 <= i < |DetailBatches(ids)| - 1 ==> |DetailBatches(ids)[i]| == BatchSize
    ensures |DetailBatches(ids)| == CeilDiv(|ids|, BatchSize)
  {
    ChunksFlatten(ids, BatchSize);
    ChunksSizes(ids, BatchSize);
    ChunksCount(ids, BatchSize);
  }

  /** The search phase sends between 1 and 50 as `maxResults`, and, when the
      endpoint keeps to it, finds at most `maxResults` ids, so at most
      ceil(maxResults / 50) detail calls follow. */
  lemma SearchCallsBound(search: (Option<string>, int) -> Page<string>, maxResults: int, log: seq<Call<string>>)
    requires IsRun(search, maxResults, BatchSize, log)
    requires forall k :: 0 <= k < |log| ==> |log[k].page.items| <= log[k].size
    ensures forall k :: 0 <= k < |log| ==> 1 <= log[k].size <= BatchSize
    ensures |Received(log)| <= Max(maxResults, 0)
    ensures |DetailBatches(Received(log))| <= CeilDiv(Max(maxResults, 0), BatchSize)
    ensures (forall k :: 0 <= k < |log| ==> |log[k].page.items| == log[k].size) ==>
      |log| <= CeilDiv(Max(maxResults, 0), BatchSize)
  {
    if forall k :: 0 <= k < |log| ==> |log[k].page.items| == log[k].size {
      FullPagesCallBound(search, maxResults, BatchSize, log);
    }
    RunBounds(search, maxResults, BatchSize, log);
    NoOvershoot(search, maxResults, BatchSize, log, |log|);
    assert log[..|log|] == log;
    var n := |Received(log)|;
    var m := Max(maxResults, 0);
    ChunksCount(Received(log), BatchSize);
    assert (n + BatchSize - 1) / BatchSize <= (m + BatchSize - 1) / BatchSize;
  }
}
