/** `fetch_channels_info`: channel title and country for the channels of the
    fetched videos, asked for in batches of 50 distinct ids. */
module Channels {
  import opened Prelude
  import opened Api

  /** The two fields kept per channel. */
  datatype ChannelMeta = ChannelMeta(title: string, country: string)

  /** Python truthiness of an optional text: present and not empty. */
  predicate Truthy(o: Option<string>) { o.Some? && o.value != "" }

  /** `snippet.get("country") or branding.get("country")`, then `or ""`. */
  function ChannelCountry(ch: ChannelItem): (c: string)
    ensures c != "" <==> Truthy(ch.snippetCountry) || Truthy(ch.brandingCountry)
    ensures c != "" ==> Some(c) == ch.snippetCountry || Some(c) == ch.brandingCountry
    ensures Truthy(ch.snippetCountry) ==> Some(c) == ch.snippetCountry
  {
    if Truthy(ch.snippetCountry) then ch.snippetCountry.value
    else if Truthy(ch.brandingCountry) then ch.brandingCountry.value
    else ""
  }

  /** The record stored for a channel item: its title, "" when absent. */
  function MetaOf(ch: ChannelItem): ChannelMeta {
    ChannelMeta(ch.title.GetOr(""), ChannelCountry(ch))
  }

  function ChannelKey(ch: ChannelItem): string { ch.id }

  // ---------------------------------------------------------------------
  // `list(dict.fromkeys(ids))`

  /** The ids without repeats, each kept where it first occurs. */
  function Dedupe(s: seq<string>): seq<string> {
    if s == [] then []
    else
      var d := Dedupe(s[..|s| - 1]);
      if s[|s| - 1] in d then d else d + [s[|s| - 1]]
  }

  /** Position of the first occurrence of `x` in `s`. */
  function FirstIndex(s: seq<string>, x: string): (i: nat)
    requires x in s
    ensures i < |s| && s[i] == x
    ensures forall j :: 0 <= j < i ==> s[j] != x
  {
    if s[0] == x then 0 else 1 + FirstIndex(s[1..], x)
  }

  lemma FirstIndexPrefix(p: seq<string>, y: string, x: string)
    requires x in p
    ensures FirstIndex(p + [y], x) == FirstIndex(p, x)
  {
    var f, g := FirstIndex(p + [y], x), FirstIndex(p, x);
    assert (p + [y])[g] == x;
  }

  /** Deduplication keeps exactly the ids of the input, once each. */
  lemma {:induction false} DedupeElements(s: seq<string>)
    ensures Distinct(Dedupe(s))
    ensures forall x :: x in Dedupe(s) <==> x in s
  {
    if s != [] {
      var p := s[..|s| - 1];
      DedupeElements(p);
      assert s == p + [s[|s| - 1]];
    }
  }

  /** `d` lists elements of `s` in the order of their first occurrence. */
  predicate InFirstSeenOrder(s: seq<string>, d: seq<string>)
    requires forall x :: x in d ==> x in s
  {
    forall i, j :: 0 <= i < j < |d| ==> FirstIndex(s, d[i]) < FirstIndex(s, d[j])
  }

  lemma FirstSeenOrderKeep(p: seq<string>, y: string, d: seq<string>)
    requires forall x :: x in d ==> x in p
    requires InFirstSeenOrder(p, d)
    ensures forall x :: x in d ==> x in p + [y]
    ensures InFirstSeenOrder(p + [y], d)
  {
    forall x | x in d ensures FirstIndex(p + [y], x) == FirstIndex(p, x) {
      FirstIndexPrefix(p, y, x);
    }
  }

  lemma FirstSeenOrderNew(p: seq<string>, y: string, d: seq<string>)
    requires forall x :: x in d ==> x in p
    requires y !in p
    requires InFirstSeenOrder(p, d)
    ensures forall x :: x in d + [y] ==> x in p + [y]
    ensures InFirstSeenOrder(p + [y], d + [y])
  {
    FirstSeenOrderKeep(p, y, d);
    var s, e := p + [y], d + [y];
    assert FirstIndex(s, y) == |p|;
    forall i, j | 0 <= i < j < |e| ensures FirstIndex(s, e[i]) < FirstIndex(s, e[j]) {
      assert e[i] == d[i];
      if j < |d| {
        assert e[j] == d[j];
      }
    }
  }

  /** ... and in the order of their first occurrence. */
  lemma {:induction false} DedupeOrder(s: seq<string>)
    ensures forall x :: x in Dedupe(s) ==> x in s
    ensures InFirstSeenOrder(s, Dedupe(s))
  {
    DedupeElements(s);
    if s != [] {
      var p, y := s[..|s| - 1], s[|s| - 1];
      assert s == p + [y];
      DedupeOrder(p);
      DedupeElements(p);
      if y in Dedupe(p) {
        FirstSeenOrderKeep(p, y, Dedupe(p));
      } else {
        FirstSeenOrderNew(p, y, Dedupe(p));
      }
    }
  }

  // ---------------------------------------------------------------------
  // The batched lookup

  /** The ids sent, batch by batch. */
  function ChannelBatches(channelIds: seq<string>): seq<seq<string>> {
    Chunks(Dedupe(channelIds), BatchSize)
  }

  /** The inner loop: `result[cid] = {...}` for each item of one response,
      on top of what the earlier responses stored. */
  method StoreItems(stored: map<string, ChannelMeta>, ghost earlier: seq<ChannelItem>, items: seq<ChannelItem>)
    returns (result: map<string, ChannelMeta>)
    requires stored == AssocBy(earlier, ChannelKey, MetaOf)
    ensures result == AssocBy(earlier + items, ChannelKey, MetaOf)
  {
    result := stored;
    var j := 0;
    assert earlier + items[..0] == earlier;
    while j < |items|
      invariant 0 <= j <= |items|
      invariant result == AssocBy(earlier + items[..j], ChannelKey, MetaOf)
    {
      AssocByStep(earlier, items, j, ChannelKey, MetaOf);
      result := result[ChannelKey(items[j]) := MetaOf(items[j])];
      j := j + 1;
    }
    assert items[..j] == items;
  }

  /** Loops over the slices of 50 distinct ids; for every item of every
      response, `result[id]` is overwritten with the item's record, so an id
      returned twice keeps its last record. The endpoint is a function from
      the batch of ids to the items it returns. */
  method FetchChannelsInfo(api: seq<string> -> seq<ChannelItem>, channelIds: seq<string>)
    returns (result: map<string, ChannelMeta>, batches: seq<seq<string>>)
    ensures batches == ChannelBatches(channelIds)
    ensures result == AssocBy(FlatMap(api, batches), ChannelKey, MetaOf)
  {
    result, batches := map[], [];
    var unique := Dedupe(channelIds);
    ghost var fetched: seq<ChannelItem> := [];
    var i := 0;
    while i < |unique|
      invariant 0 <= i
      invariant batches + Chunks(unique[Min(i, |unique|)..], BatchSize) == Chunks(unique, BatchSize)
      invariant fetched == FlatMap(api, batches)
      invariant result == AssocBy(fetched, ChannelKey, MetaOf)
      decreases |unique| - i
    {
      var batchIds := unique[i..Min(i + BatchSize, |unique|)];
      ChunksLoopStep(unique, i, BatchSize, batches);
      var items := api(batchIds);
      result := StoreItems(result, fetched, items);
      FlatMapAppend(api, batches, batchIds);
      fetched := fetched + items;
      batches := batches + [batchIds];
      i := i + BatchSize;
    }
    assert unique[|unique|..] == [];
  }

  /** Each distinct id is asked for exactly once: the batches concatenate to
      the deduplicated ids, no id is in two batches, each batch has 1 to 50
      ids, and there are ceil(n / 50) batches for n distinct ids. */
  lemma ChannelBatchesSpec(channelIds: seq<string>)
    ensures Flatten(ChannelBatches(channelIds)) == Dedupe(channelIds)
    ensures forall i, j, x :: 0 <= i < j < |ChannelBatches(channelIds)| && x in ChannelBatches(channelIds)[i] ==>
      x !in ChannelBatches(channelIds)[j]
    ensures forall i :: 0 <= i < |ChannelBatches(channelIds)| ==> 1 <= |ChannelBatches(channelIds)[i]| <= BatchSize
    ensures |ChannelBatches(channelIds)| == CeilDiv(|Dedupe(channelIds)|, BatchSize)
  {
    var u := Dedupe(channelIds);
    ChunksFlatten(u, BatchSize);
    DedupeElements(channelIds);
    DisjointParts(Chunks(u, BatchSize));
    ChunksSizes(u, BatchSize);
    ChunksCount(u, BatchSize);
  }

  /** The result has an entry for exactly the channels the endpoint returned,
      and a channel returned once carries the title and country of its
      item. */
  lemma ChannelResultSpec(items: seq<ChannelItem>)
    ensures forall id :: id in AssocBy(items, ChannelKey, MetaOf) ==>
      exists i :: 0 <= i < |items| && items[i].id == id
    ensures forall i :: 0 <= i < |items| ==> items[i].id in AssocBy(items, ChannelKey, MetaOf)
    ensures forall i :: 0 <= i < |items| && (forall j :: i < j < |items| ==> items[j].id != items[i].id) ==>
      AssocBy(items, ChannelKey, MetaOf)[items[i].id] == ChannelMeta(items[i].title.GetOr(""), ChannelCountry(items[i]))
  {
    AssocByKeys(items, ChannelKey, MetaOf);
    forall i | 0 <= i < |items| && (forall j :: i < j < |items| ==> items[j].id != items[i].id)
      ensures AssocBy(items, ChannelKey, MetaOf)[items[i].id] == MetaOf(items[i])
    {
      AssocByLastWins(items, ChannelKey, MetaOf, i);
    }
  }

  /** The items returned hold one for `id`. */
  predicate Answered(items: seq<ChannelItem>, id: string) {
    exists ch :: ch in items && ch.id == id
  }

  /** A returned item of a batch gets an entry in the result. */
  lemma ReturnedHasEntry(api: seq<string> -> seq<ChannelItem>, batches: seq<seq<string>>, b: seq<string>, ch: ChannelItem)
    requires b in batches && ch in api(b)
    ensures ch.id in AssocBy(FlatMap(api, batches), ChannelKey, MetaOf)
  {
    var items := FlatMap(api, batches);
    FlatMapMembers(api, batches);
    assert ch in items;
    var i :| 0 <= i < |items| && items[i] == ch;
    AssocByKeys(items, ChannelKey, MetaOf);
    assert ChannelKey(items[i]) in AssocBy(items, ChannelKey, MetaOf);
  }

  /** An entry of the result comes from an item some batch returned. */
  lemma EntryReturned(api: seq<string> -> seq<ChannelItem>, batches: seq<seq<string>>, id: string)
    requires id in AssocBy(FlatMap(api, batches), ChannelKey, MetaOf)
    ensures exists b :: b in batches && Answered(api(b), id)
  {
    var items := FlatMap(api, batches);
    AssocByKeys(items, ChannelKey, MetaOf);
    var i :| 0 <= i < |items| && ChannelKey(items[i]) == id;
    FlatMapMembers(api, batches);
    assert items[i] in items;
    var b :| b in batches && items[i] in api(b);
    assert Answered(api(b), id);
  }

  /** When the endpoint answers only for ids it was asked about, the result
      holds only ids of the input, at most one entry per distinct id. */
  lemma ChannelResultKeys(api: seq<string> -> seq<ChannelItem>, channelIds: seq<string>)
    requires forall b, ch :: b in ChannelBatches(channelIds) && ch in api(b) ==> ch.id in b
    ensures forall id :: id in AssocBy(FlatMap(api, ChannelBatches(channelIds)), ChannelKey, MetaOf) ==>
      id in Dedupe(channelIds)
    ensures |AssocBy(FlatMap(api, ChannelBatches(channelIds)), ChannelKey, MetaOf).Keys| <= |Dedupe(channelIds)|
  {
    var batches, u := ChannelBatches(channelIds), Dedupe(channelIds);
    var result := AssocBy(FlatMap(api, batches), ChannelKey, MetaOf);
    ChunksFlatten(u, BatchSize);
    forall id | id in result ensures id in u {
      EntryReturned(api, batches, id);
      var b :| b in batches && Answered(api(b), id);
      var ch :| ch in api(b) && ch.id == id;
      var j :| 0 <= j < |batches| && batches[j] == b;
      InFlatten(batches, j, id);
    }
    DedupeElements(channelIds);
    DistinctCard(u);
    SubsetCard(result.Keys, set x | x in u);
  }

  /** When the endpoint answers for every id it was asked about, every
      distinct input id gets an entry; with the lemma above, the entries are
      then exactly the distinct ids. */
  lemma ChannelResultComplete(api: seq<string> -> seq<ChannelItem>, channelIds: seq<string>)
    requires forall b, x :: b in ChannelBatches(channelIds) && x in b ==> Answered(api(b), x)
    ensures forall id :: id in Dedupe(channelIds) ==>
      id in AssocBy(FlatMap(api, ChannelBatches(channelIds)), ChannelKey, MetaOf)
  {
    var batches, u := ChannelBatches(channelIds), Dedupe(channelIds);
    ChunksFlatten(u, BatchSize);
    forall id | id in u ensures id in AssocBy(FlatMap(api, batches), ChannelKey, MetaOf) {
      InFlattenSome(batches, id);
      var b :| b in batches && id in b;
      var ch :| ch in api(b) && ch.id == id;
      ReturnedHasEntry(api, batches, b, ch);
    }
  }
}
