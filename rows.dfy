/** `videos_to_dataframe` and `save_to_csv`: one output row per fetched
    video. The two builders compute the same columns except the counts and
    the trailing `scraped_at`: the data frame converts the counts with
    `int(stats.get(..., 0) or 0)`, the CSV writes the raw text or "". The
    data frame and the CSV file themselves are sequences of row records. */
module Rows {
  import opened Prelude
  import opened Numerals
  import opened Api
  import opened Duration
  import opened Channels
  import opened Staleness

  /** The columns both builders share, in `fieldnames` order. */
  datatype Common = Common(
    videoId: string,
    videoTitle: string,
    videoPublishedAt: string,
    videoDuration: string,
    videoCategory: string,
    videoTags: string,
    channelId: string,
    channelTitle: string,
    channelCountry: string)

  /** A data-frame row: the shared columns and the two counts as integers. */
  datatype FrameRow = FrameRow(common: Common, viewCount: int, likeCount: int)

  /** A CSV row: the shared columns, the counts as text, and the write's time. */
  datatype CsvRow = CsvRow(common: Common, viewCount: string, likeCount: string, scrapedAt: ScrapeTime)

  // ---------------------------------------------------------------------
  // Tags: `"|".join(tags) if tags else ""`, read back by the dashboard with
  // `x.split("|") if x else []`.

  /** The cell is empty exactly for no tags or the single empty tag. */
  function JoinTags(tags: seq<string>): (cell: string)
    ensures cell == "" <==> tags == [] || tags == [""]
  {
    if tags == [] then "" else JoinWith(tags, '|')
  }

  /** An empty cell, and only an empty cell, gives no tags. */
  function SplitTags(cell: string): (tags: seq<string>)
    ensures tags == [] <==> cell == ""
  {
    if cell == "" then [] else SplitOn(cell, '|')
  }

  /** Tags survive the CSV when none contains '|' and the list is not the
      single empty tag. */
  lemma TagsRoundTrip(tags: seq<string>)
    requires forall t :: t in tags ==> '|' !in t
    requires tags != [""]
    ensures SplitTags(JoinTags(tags)) == tags
  {
    if tags != [] {
      SplitJoin(tags, '|');
    }
  }

  /** Reading a cell and writing it back gives the cell. */
  lemma TagCellRoundTrip(cell: string)
    ensures JoinTags(SplitTags(cell)) == cell
  {
    if cell != "" {
      JoinSplit(cell, '|');
    }
  }

  /** The two ways the round trip fails: the single empty tag comes back as
      no tags, and a tag holding '|' comes back as two. */
  lemma TagsLost()
    ensures SplitTags(JoinTags([""])) == []
    ensures SplitTags(JoinTags(["a|b"])) == ["a", "b"]
  {
    assert JoinTags(["a|b"]) == "a|b";
    SplitOnAtSeparator("a", "b", '|');
    SplitOnWhole("b", '|');
    assert "a" + ['|'] + "b" == "a|b";
  }

  // ---------------------------------------------------------------------
  // The columns

  /** `categories.get(snip.get("categoryId", ""), "")`. */
  function CategoryName(categories: map<string, string>, v: Video): (name: string)
    ensures name != "" ==> name in categories.Values
  {
    var id := v.snippet.categoryId.GetOr("");
    if id in categories then categories[id] else ""
  }

  /** `channel_info.get(ch_id, {})` and the two lookups in it: the channel
      lookup wins, the video's own `channelTitle` is the fallback for the
      title, "" for the country. */
  function ChannelColumns(channelInfo: map<string, ChannelMeta>, v: Video): (columns: (string, string))
    ensures columns.1 != "" ==> v.snippet.channelId.GetOr("") in channelInfo
  {
    var id := v.snippet.channelId.GetOr("");
    if id in channelInfo then (channelInfo[id].title, channelInfo[id].country)
    else (v.snippet.channelTitle.GetOr(""), "")
  }

  function CommonColumns(v: Video, categories: map<string, string>, channelInfo: map<string, ChannelMeta>): Common {
    var channel := ChannelColumns(channelInfo, v);
    Common(
      v.id,
      v.snippet.title.GetOr(""),
      v.snippet.publishedAt.GetOr(""),
      ParseDuration(v.duration.GetOr("")),
      CategoryName(categories, v),
      JoinTags(v.snippet.tags.GetOr([])),
      v.snippet.channelId.GetOr(""),
      channel.0,
      channel.1)
  }

  /** A video whose channel the lookup returned gets that channel's title
      and country (from the last item with that id). */
  lemma ChannelColumnsFromLookup(v: Video, categories: map<string, string>, items: seq<ChannelItem>, i: int)
    requires 0 <= i < |items| && items[i].id == v.snippet.channelId.GetOr("")
    requires forall j :: i < j < |items| ==> items[j].id != items[i].id
    ensures var c := CommonColumns(v, categories, AssocBy(items, ChannelKey, MetaOf));
      c.channelTitle == items[i].title.GetOr("") && c.channelCountry == ChannelCountry(items[i])
  {
    AssocByLastWins(items, ChannelKey, MetaOf, i);
  }

  /** A video whose channel the lookup did not return falls back to the
      video's own channel title and an empty country. */
  lemma ChannelColumnsFallback(v: Video, categories: map<string, string>, items: seq<ChannelItem>)
    requires forall j :: 0 <= j < |items| ==> items[j].id != v.snippet.channelId.GetOr("")
    ensures var c := CommonColumns(v, categories, AssocBy(items, ChannelKey, MetaOf));
      c.channelTitle == v.snippet.channelTitle.GetOr("") && c.channelCountry == ""
  {
    AssocByKeys(items, ChannelKey, MetaOf);
  }

  /** `int(stats.get(key, 0) or 0)`: an absent or empty count is 0; other
      text goes through `int`, whose failure (`None`) aborts the build. */
  function FrameCount(raw: Option<string>): (r: Option<int>)
    ensures raw.None? || raw.value == "" ==> r == Some(0)
    ensures r.None? ==> raw.Some? && raw.value != ""
  {
    if raw.None? || raw.value == "" then Some(0) else ParseInt(raw.value)
  }

  /** `stats.get(key, "")`. */
  function CsvCount(raw: Option<string>): (cell: string)
    ensures cell == "" <==> raw.None? || raw.value == ""
    ensures raw.Some? ==> cell == raw.value
  {
    raw.GetOr("")
  }

  function FrameRowOf(v: Video, categories: map<string, string>, channelInfo: map<string, ChannelMeta>): Option<FrameRow> {
    var views := FrameCount(v.statistics.viewCount);
    var likes := FrameCount(v.statistics.likeCount);
    if views.None? || likes.None? then None
    else Some(FrameRow(CommonColumns(v, categories, channelInfo), views.value, likes.value))
  }

  function CsvRowOf(v: Video, channelInfo: map<string, ChannelMeta>, categories: map<string, string>,
                    scrapedAt: ScrapeTime): CsvRow {
    CsvRow(CommonColumns(v, categories, channelInfo),
           CsvCount(v.statistics.viewCount), CsvCount(v.statistics.likeCount), scrapedAt)
  }

  // ---------------------------------------------------------------------
  // The builders

  function FrameRowFn(categories: map<string, string>, channelInfo: map<string, ChannelMeta>): Video -> Option<FrameRow> {
    v => FrameRowOf(v, categories, channelInfo)
  }

  /** The data frame's rows, in video order; `None` as soon as building one
      row raises. */
  function FrameRows(videos: seq<Video>, categories: map<string, string>, channelInfo: map<string, ChannelMeta>)
    : Option<seq<FrameRow>>
  {
    MapAll(FrameRowFn(categories, channelInfo), videos)
  }

  /** The frame exists exactly when every video's row can be built, and then
      it has one row per video, in order. */
  lemma FrameRowsSpec(videos: seq<Video>, categories: map<string, string>, channelInfo: map<string, ChannelMeta>)
    ensures FrameRows(videos, categories, channelInfo).Some? <==>
      forall i :: 0 <= i < |videos| ==> FrameRowOf(videos[i], categories, channelInfo).Some?
    ensures FrameRows(videos, categories, channelInfo).Some? ==>
      |FrameRows(videos, categories, channelInfo).value| == |videos| &&
      forall i :: 0 <= i < |videos| ==>
        Some(FrameRows(videos, categories, channelInfo).value[i]) == FrameRowOf(videos[i], categories, channelInfo)
  {
    MapAllSpec(FrameRowFn(categories, channelInfo), videos);
  }

  /** `videos_to_dataframe`, with a missing channel lookup taken as empty. */
  method VideosToFrame(videos: seq<Video>, categories: map<string, string>,
                       channelInfo: Option<map<string, ChannelMeta>>)
    returns (frame: Option<seq<FrameRow>>)
    ensures frame == FrameRows(videos, categories, channelInfo.GetOr(map[]))
  {
    var info := channelInfo.GetOr(map[]);
    frame := BuildRows(FrameRowFn(categories, info), videos);
  }

  /** The loop of `videos_to_dataframe`: builds the rows one video at a time
      and stops at the first row whose counts `int` cannot read. */
  method BuildRows(rowOf: Video -> Option<FrameRow>, videos: seq<Video>) returns (frame: Option<seq<FrameRow>>)
    ensures frame == MapAll(rowOf, videos)
  {
    var rows: seq<FrameRow> := [];
    var i := 0;
    while i < |videos|
      invariant 0 <= i <= |videos|
      invariant MapAll(rowOf, videos[..i]) == Some(rows)
    {
      var row := rowOf(videos[i]);
      MapAllAppend(rowOf, videos[..i], videos[i]);
      assert videos[..i + 1] == videos[..i] + [videos[i]];
      if row.None? {
        MapAllFailsOn(rowOf, videos, i + 1);
        return None;
      }
      rows := rows + [row.value];
      i := i + 1;
    }
    assert videos[..i] == videos;
    frame := Some(rows);
  }

  function CsvRowFn(channelInfo: map<string, ChannelMeta>, categories: map<string, string>, scrapedAt: ScrapeTime)
    : Video -> CsvRow
  {
    v => CsvRowOf(v, channelInfo, categories, scrapedAt)
  }

  /** The CSV file's data rows, in video order, all stamped with `scrapedAt`. */
  function CsvRows(videos: seq<Video>, channelInfo: map<string, ChannelMeta>, categories: map<string, string>,
                   scrapedAt: ScrapeTime): seq<CsvRow>
  {
    MapSeq(CsvRowFn(channelInfo, categories, scrapedAt), videos)
  }

  /** One CSV row per video, in order, every one carrying the same time. */
  lemma CsvRowsSpec(videos: seq<Video>, channelInfo: map<string, ChannelMeta>,
                    categories: map<string, string>, scrapedAt: ScrapeTime)
    ensures |CsvRows(videos, channelInfo, categories, scrapedAt)| == |videos|
    ensures forall i :: 0 <= i < |videos| ==>
      CsvRows(videos, channelInfo, categories, scrapedAt)[i] == CsvRowOf(videos[i], channelInfo, categories, scrapedAt)
    ensures forall i :: 0 <= i < |videos| ==> CsvRows(videos, channelInfo, categories, scrapedAt)[i].scrapedAt == scrapedAt
  {
    MapSeqSpec(CsvRowFn(channelInfo, categories, scrapedAt), videos);
  }

  /** `save_to_csv`: takes the clock once, as an aware UTC time, and writes
      the rows of `CsvRows` with that time. */
  method SaveToCsv(videos: seq<Video>, channelInfo: map<string, ChannelMeta>, categories: map<string, string>,
                   nowUtcMicros: int)
    returns (rows: seq<CsvRow>)
    ensures rows == CsvRows(videos, channelInfo, categories, ScrapeTime(nowUtcMicros, Some(0)))
  {
    var scrapedAt := ScrapeTime(nowUtcMicros, Some(0));
    rows := WriteRows(CsvRowFn(channelInfo, categories, scrapedAt), videos);
  }

  /** The loop of `save_to_csv`: one `writerow` per video, in order. */
  method WriteRows(rowOf: Video -> CsvRow, videos: seq<Video>) returns (rows: seq<CsvRow>)
    ensures rows == MapSeq(rowOf, videos)
  {
    rows := [];
    var i := 0;
    while i < |videos|
      invariant 0 <= i <= |videos|
      invariant rows == MapSeq(rowOf, videos[..i])
    {
      MapSeqAppend(rowOf, videos[..i], videos[i]);
      assert videos[..i + 1] == videos[..i] + [videos[i]];
      rows := rows + [rowOf(videos[i])];
      i := i + 1;
    }
    assert videos[..i] == videos;
  }

  // ---------------------------------------------------------------------
  // How the two outputs relate

  /** The frame and the CSV row of a video share every column but the
      counts. A count the API omitted is 0 in the frame but an empty cell
      in the CSV; a count that is there is the same number in both. */
  lemma FrameAgreesWithCsv(v: Video, categories: map<string, string>, channelInfo: map<string, ChannelMeta>,
                           t: ScrapeTime)
    requires FrameRowOf(v, categories, channelInfo).Some?
    ensures var f := FrameRowOf(v, categories, channelInfo).value;
      var c := CsvRowOf(v, channelInfo, categories, t);
      && f.common == c.common
      && (c.viewCount == "" <==> f.viewCount == 0 && (v.statistics.viewCount.None? || v.statistics.viewCount.value == ""))
      && (c.likeCount == "" <==> f.likeCount == 0 && (v.statistics.likeCount.None? || v.statistics.likeCount.value == ""))
      && (c.viewCount != "" ==> ParseInt(c.viewCount) == Some(f.viewCount))
      && (c.likeCount != "" ==> ParseInt(c.likeCount) == Some(f.likeCount))
  {
  }

  /** The CSV column of a count the frame holds as `n >= 0`, when the API
      sent `str(n)`, reads back as `n`. */
  lemma CountsReadBack(n: nat)
    ensures FrameCount(Some(Decimal(n))) == Some(n)
    ensures ParseInt(CsvCount(Some(Decimal(n)))) == Some(n)
  {
    ParseIntDecimal(n);
  }

  // ---------------------------------------------------------------------
  // Saving and then deciding whether to refresh

  /** The `scraped_at` column as the reader sees it. */
  function StampColumn(rows: seq<CsvRow>): (column: seq<Option<ScrapeTime>>)
    ensures |column| == |rows|
    ensures forall i :: 0 <= i < |rows| ==> column[i] == Some(rows[i].scrapedAt)
  {
    if rows == [] then [] else StampColumn(rows[..|rows| - 1]) + [Some(rows[|rows| - 1].scrapedAt)]
  }

  /** Right after a save at time `now`, data must be refreshed at time
      `later` exactly when no video was written or more than the interval
      has passed since `now`. */
  lemma RefreshAfterSave(videos: seq<Video>, channelInfo: map<string, ChannelMeta>, categories: map<string, string>,
                         now: int, rows: seq<CsvRow>, later: int, intervalMinutes: int)
    requires rows == CsvRows(videos, channelInfo, categories, ScrapeTime(now, Some(0)))
    ensures ShouldRefreshData(Some(StampColumn(rows)), later, intervalMinutes)
        <==> |videos| == 0 || later - now > intervalMinutes * MicrosPerMinute
  {
    CsvRowsSpec(videos, channelInfo, categories, ScrapeTime(now, Some(0)));
  }
}
