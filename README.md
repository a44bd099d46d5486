# Trending videos in Canada: a verified model of the data acquisition

The repository fetches the most popular YouTube videos for Canada with the YouTube Data API v3. It enriches them with channel metadata and video categories and writes one CSV row per video, which a dashboard reads back. This project models the acquisition core of `trending_videos_canada.py` in Dafny and proves properties of it. It also models the single line of the dashboard (`app.py`) that splits the tag column back into a list.

The modules are:

- `Prelude`: `Option`, slicing as Python does it, batching (`Chunks`), flattening, dictionary building by repeated assignment (`AssocBy`), split and join on a separator.
- `Numerals`: `str(n)`, `f"{n:02d}"` and `int(s)` on ASCII digit text.
- `Duration`: `parse_duration`, with the regular expression `PT(?:(\d+)H)?(?:(\d+)M)?(?:(\d+)S)?` matched group by group.
- `Api`: the parts of the API responses the code reads. A key read with a default is an `Option`.
- `Paging`: the token pagination loop. It is given as a predicate `IsRun` on the log of calls. The endpoint is a function from (page token, `maxResults`) to the page returned.
- `Trending`:
  - `fetch_video_categories`;
  - `fetch_top_videos`;
  - `fetch_top_videos_by_category`.
- `Search`: `search_videos`, in two phases. The first collects ids; the second fetches details 50 ids at a time.
- `Channels`: `fetch_channels_info`. It deduplicates the ids in first-seen order, asks for them in batches of 50, and keeps the last record per channel id.
- `Staleness`: `get_last_scrape_time` and `should_refresh_data`. Times are microsecond counts, and the clock reading is a parameter.
- `Rows`: the row builders of `videos_to_dataframe` and `save_to_csv`, and how the two outputs relate. It also covers the tag round trip through the dashboard.

Each loop of the source is a `while` loop in a method, and each such method is proved against a specification function:
- the pagination methods produce a log satisfying `IsRun`, and `IsRun` determines the log uniquely;
- the batch loops produce `Chunks` of the ids;
- the dictionary loops produce `AssocBy` of the items seen;
- the row loops produce the per-video row function mapped over the videos.

Behaviour of the code worth knowing, each stated by a lemma:
- **Missing counts.** A missing view or like count is 0 in the data frame (`trending_videos_canada.py`:284-285) but an empty cell in the CSV (:332-333). `Rows.FrameAgreesWithCsv` states the difference.
- **Missing country.** A channel without a country gets `""` in the acquisition code (:202, :291, :356). Only the dashboard shows "Unknown" (`app.py`:22).
- **`PT` durations.** The pattern at :112 matches every text starting with `PT`. So every such text is reformatted, for example `PTxyz` gives `0:00`, and only text not starting with `PT` is returned unchanged (`Duration.ParseDuration`, `Duration.LenientExamples`).
- **Number of requests.** The pagination loop makes at most ceil(`max_results` / `page_size`) requests only when every page is full (`Paging.FullPagesCallBound`). Short pages that still carry a token can cost up to one request per item (`Paging.RunBounds`).

## Model

| member | source | states |
|---|---|---|
| Duration.ParseDuration | trending_videos_canada.py:106-123 | empty text gives empty text; text the pattern cannot match (not starting with `PT`) is returned unchanged; any other text becomes a clock reading of at least four characters starting with a digit |
| Duration.MatchGroup | trending_videos_canada.py:112 | one optional group `(?:(\d+)U)?` at the start of a text: the greedy digit run and the text after the unit when the unit follows, else no capture and the text untouched |
| Duration.Clock | trending_videos_canada.py:120-123 | `h:mm:ss` when there are hours, else `m:ss`; at least four characters, starting with a digit |
| Duration.MatchGroupIsRegexGroup | trending_videos_canada.py:112 | one optional group `(?:(\d+)U)?` captures exactly when some digit run followed by the unit starts the text, and then captures that whole run (greedy `\d+`) |
| Duration.ParseDesignator | trending_videos_canada.py:112-123 | parsing `PT[hH][mM][sS]` followed by trailing text gives the clock of (h, m, s), an absent component read as 0 and the trailing text ignored, provided the trailing text does not start with a digit when the seconds are absent (`PT4M` then `5S` reads as `4:05`) |
| Duration.ClockFields | trending_videos_canada.py:120-123 | the clock text splits at ':' into three digit fields when there are hours and two otherwise; they hold hours, minutes, seconds, and minutes after hours and seconds have at least two digits |
| Duration.DocumentedExamples | trending_videos_canada.py:107 | `PT4M13S` gives `4:13`, `PT1H2M3S` gives `1:02:03`, `PT45S` gives `0:45` |
| Duration.LenientExamples | trending_videos_canada.py:112-123 | a bare `PT` gives `0:00`, minutes are not normalised (`PT90M` gives `90:00`), and groups out of order end the match (`PT3S4M` gives `0:03`) |
| Numerals.ZeroPad2 | trending_videos_canada.py:121 | `f"{n:02d}"` has at least two digits and is `str(n)` from 10 on |
| Numerals.ZeroPad2Value | trending_videos_canada.py:121 | the padded text reads back as n |
| Numerals.Decimal | trending_videos_canada.py:121 | `str(n)`: at least one digit, and no leading zero |
| Numerals.ParseInt | trending_videos_canada.py:284-285 | `int(s)` on an optional sign and ASCII digits; any other text fails |
| Numerals.DecimalRoundTrip | trending_videos_canada.py:121 | the digits of `str(n)` read back as n |
| Numerals.ParseIntDecimal | trending_videos_canada.py:284-285 | `int(str(n)) == n` and `int("-" + str(n)) == -n` |
| Trending.FetchVideoCategories | trending_videos_canada.py:89-103 | the map built by the loop is the items' ids assigned their titles in order |
| Trending.CategoryMapSpec | trending_videos_canada.py:97-101 | the map's keys are exactly the item ids, and an id maps to the title of its last item |
| Trending.FetchTopVideos | trending_videos_canada.py:126-155 | the calls made are the run of the pagination loop, and the result is the first `maxResults` videos received |
| Prelude.PyPrefix | trending_videos_canada.py:155 | Python's `s[:n]`: a prefix of `s` of length `min(n, len(s))`, counted from the end for negative `n` |
| Trending.TopVideosOutcome | trending_videos_canada.py:132-155 | never more than `maxResults` videos, always a prefix of what was received, and fewer only when the last page was empty or had no next token |
| Trending.TopVideosKeepAll | trending_videos_canada.py:137-155 | when the endpoint keeps to the sizes asked, the final slice drops nothing |
| Trending.ConfiguredCallBound | trending_videos_canada.py:25-26 | with `MAX_VIDEOS` = 200, `PAGE_SIZE` = 50 and full pages, the trending fetch makes at most four requests |
| Trending.CategoryRequestSize | trending_videos_canada.py:173 | the size sent is at most 50 and at most `max_results`, and equals one of them |
| Trending.FetchTopVideosByCategory | trending_videos_canada.py:158-176 | one call with the clamped size; its items are returned as they come |
| Paging.NextCall | trending_videos_canada.py:132-140 | a call made while short of the target, with the previous page's token, extends a well-formed log and adds its items to what was received |
| Paging.IsRun | trending_videos_canada.py:132-153 | the call logs the loop can produce: first call without a token, each later one with the previous page's token, a call only while short of the target, each asking for `min(page_size, target - received)`, and stopping on enough items, an empty page or a missing or empty token |
| Paging.RunBounds | trending_videos_canada.py:132-153 | no call when nothing is wanted and at least one otherwise, at most as many calls as items wanted (the only bound when pages can be short), each asking for 1 to `pageSize` items |
| Paging.NoOvershoot | trending_videos_canada.py:137 | asking for `min(page_size, max_results - len(all_videos))` means an endpoint that keeps to it never sends more than the target |
| Paging.FullPagesCallBound | trending_videos_canada.py:132-153 | when every page brings exactly what was asked, a run makes at most ceil(target / page size) calls |
| Paging.RunDeterministic | trending_videos_canada.py:132-153 | given the endpoint's answers, the loop's call log is unique |
| Search.CollectIds | trending_videos_canada.py:210-231 | the search calls are a run of the pagination loop with page size 50, and the ids are all the ids received, in order, not cut back |
| Search.FetchDetails | trending_videos_canada.py:237-247 | the detail calls are the consecutive slices of 50 ids, and the videos are their answers concatenated in order |
| Search.DetailBatches | trending_videos_canada.py:238-239 | the id slices `ids[i:i+50]` for `i` in `range(0, len(ids), 50)` |
| Search.SearchVideos | trending_videos_canada.py:208-247 | the two phases composed; no ids means no detail calls and no videos |
| Search.DetailBatchesSpec | trending_videos_canada.py:238-239 | the slices concatenate back to the ids, hold 1 to 50 ids each, all but the last exactly 50, and there are ceil(n/50) of them |
| Search.SearchCallsBound | trending_videos_canada.py:214-239 | every search call asks for 1 to 50 ids; when the endpoint keeps to it, at most `max_results` ids are found and at most ceil(max_results/50) detail calls follow; with full pages there are at most ceil(max_results/50) search calls too |
| Channels.ChannelCountry | trending_videos_canada.py:196-202 | the country is the snippet's when that is non-empty, otherwise the branding settings', otherwise "" |
| Channels.DedupeElements | trending_videos_canada.py:183 | `list(dict.fromkeys(ids))` holds every input id exactly once and nothing else |
| Channels.DedupeOrder | trending_videos_canada.py:183 | and in the order of first occurrence |
| Channels.Dedupe | trending_videos_canada.py:183 | `list(dict.fromkeys(ids))`: each id kept at its first occurrence |
| Channels.MetaOf | trending_videos_canada.py:196-203 | the record stored for a channel item: its title, "" when absent, and its country |
| Channels.ChannelBatches | trending_videos_canada.py:183-187 | the slices of 50 of the deduplicated ids |
| Channels.StoreItems | trending_videos_canada.py:194-203 | the inner loop assigns each item's record over the map built so far |
| Channels.FetchChannelsInfo | trending_videos_canada.py:179-205 | the batches sent are the slices of 50 of the deduplicated ids, and the result is every returned item's record assigned in order |
| Channels.ChannelBatchesSpec | trending_videos_canada.py:183-187 | each distinct id is asked for in exactly one batch; batches hold 1 to 50 ids and there are ceil(n/50) of them |
| Channels.ChannelResultSpec | trending_videos_canada.py:194-203 | the result has keys for exactly the returned channels, and a channel returned once maps to its title ("" when absent) and country |
| Channels.ChannelResultKeys | trending_videos_canada.py:183-205 | when the endpoint answers only for ids it was asked about, every key of the result is an input id, and there are at most as many keys as distinct input ids |
| Channels.ChannelResultComplete | trending_videos_canada.py:183-205 | when the endpoint answers for every id it was asked about, every distinct input id has an entry, so fewer keys than distinct ids means the endpoint omitted some |
| Staleness.LastScrapeTime | trending_videos_canada.py:34-50 | a time only from the first data row of a readable file; a missing, unreadable or empty file, or an empty or unparseable first cell, gives none |
| Staleness.ShouldRefresh | trending_videos_canada.py:57-73 | refresh when there is no last time or strictly more than the interval has passed, and not otherwise |
| Staleness.ShouldRefreshData | trending_videos_canada.py:53-73 | a missing file, no rows or an unusable first time stamp always means refresh |
| Staleness.StaleStaysStale | trending_videos_canada.py:65-70 | once data needs a refresh it keeps needing one as the clock moves on |
| Staleness.SameInstantSameDecision | trending_videos_canada.py:61-66 | the decision depends only on the instant, not the zone it was written in |
| Staleness.NaiveIsUtc | trending_videos_canada.py:62-63 | a naive time counts as UTC |
| Staleness.UtcMicros | trending_videos_canada.py:61-66 | the instant of a time stamp; a naive time is taken as UTC |
| Staleness.HourlyRefresh | trending_videos_canada.py:68 | with the default hour, data 59 or exactly 60 minutes old is fresh, and 60 minutes plus one microsecond is stale |
| Rows.TagsRoundTrip | trending_videos_canada.py:275-276 | the dashboard's split gives back the tags when no tag holds '\|' and the list is not the single empty tag |
| Rows.TagCellRoundTrip | app.py:90-92 | joining the dashboard's split of a cell gives the cell back |
| Rows.TagsLost | trending_videos_canada.py:341-342 | the single empty tag comes back as no tags, and a tag holding '\|' comes back as two |
| Rows.JoinTags | trending_videos_canada.py:275-276 | `"\|".join(tags) if tags else ""`; the cell is empty exactly for no tags or the single empty tag |
| Rows.SplitTags | app.py:90-92 | `x.split("\|") if x else []`; an empty cell, and only that, gives no tags |
| Rows.CategoryName | trending_videos_canada.py:269-270 | the category's title from the category map, "" for an unknown or missing id; a non-empty name is one of the map's titles |
| Rows.ChannelColumns | trending_videos_canada.py:278-291 | title and country from the channel lookup when it has the channel, else the video's `channelTitle` and ""; so a country comes only from the lookup |
| Rows.CommonColumns | trending_videos_canada.py:262-291 | the columns both builders share, each key read with its default: id, title, published time, parsed duration, category name, joined tags, channel id, channel title and country |
| Rows.ChannelColumnsFromLookup | trending_videos_canada.py:278-291 | a video whose channel the lookup returned gets that channel's title and country, from its last item |
| Rows.ChannelColumnsFallback | trending_videos_canada.py:278-291 | a video whose channel the lookup did not return gets its own `channelTitle` and an empty country |
| Rows.FrameCount | trending_videos_canada.py:284-285 | an absent or empty count is 0; only a present, non-empty count can make `int` fail |
| Rows.FrameRowOf | trending_videos_canada.py:280-292 | a data-frame row: the shared columns and both counts through `int`, failing when either count fails |
| Rows.CsvCount | trending_videos_canada.py:332-333 | `stats.get(key, "")`: the cell is empty exactly when the count is absent or empty, and is otherwise the API's text unchanged |
| Rows.CsvRowOf | trending_videos_canada.py:345-358 | a CSV row: the shared columns, the raw count texts ("" when absent) and the write's time stamp |
| Rows.BuildRows | trending_videos_canada.py:261-292 | the loop builds the rows in video order and fails exactly when some row fails |
| Rows.VideosToFrame | trending_videos_canada.py:250-294 | the frame is the row function mapped over the videos, with a missing channel lookup taken as empty |
| Rows.FrameRowsSpec | trending_videos_canada.py:261-292 | the frame exists exactly when every video's counts can be read, and then has one row per video, in order |
| Rows.WriteRows | trending_videos_canada.py:325-359 | the loop writes one row per video, in order |
| Rows.SaveToCsv | trending_videos_canada.py:297-359 | the rows written are the CSV rows of the videos, all stamped with the single UTC time taken at the start |
| Rows.CsvRowsSpec | trending_videos_canada.py:325-359 | one row per video, in order, every one with the same `scraped_at` |
| Rows.FrameAgreesWithCsv | trending_videos_canada.py:332-333 | frame and CSV agree on every column but the counts; an omitted count is 0 in the frame and an empty cell in the CSV, and a present one reads as the same number |
| Rows.CountsReadBack | trending_videos_canada.py:284 | a count sent as `str(n)` is n in the frame and reads back as n from the CSV |
| Rows.StampColumn | trending_videos_canada.py:41-46 | the `scraped_at` column as a reader sees it, one time per row |
| Rows.RefreshAfterSave | trending_videos_canada.py:304 | after a save at time `now`, a refresh is due later exactly when no video was written or more than the interval has passed |

## Left out

- Client construction and the API key (`get_youtube_client`): environment access and a network client, outside the model.
- Logging and `tqdm` progress bars: they have no effect on the results.
- Reading and writing files: the CSV file is the sequence of its data rows. The header, quoting, encoding and `os.path.exists` are not modelled.
- `datetime.now`: it is a parameter. `isoformat` and `fromisoformat` text is not modelled: a stored time is its value, and an unparseable time stamp is `None`.
- pandas: the data frame is a sequence of row records.
- `fetch_and_save_trending` and `main`: orchestration and logging over the modelled functions.
- The dashboard beyond the tag split (`app.py`): display code.
- Exceptions from `execute()` (network, quota, HTTP errors): every endpoint is a total function from request to response.
- Request parameters other than the page token, `maxResults`, the category id and the id batch (`part`, `chart`, `regionCode`, `q`, `type`, `order`): they are fixed for each endpoint function.
- `",".join(batch_ids)`: an endpoint takes the batch as a sequence.
- The extraction `item["id"]["videoId"]` in the search phase: search pages carry the ids directly.
- Missing required keys (`v["id"]`, `ch["id"]`, `item["snippet"]["title"]`) raise `KeyError` in the source; the model makes these fields mandatory.
- JSON `null` values: a key is either absent (`None`) or holds a value. A present null title, which Python would put in the row as `None`, is not modelled.
- Duration.ParseDuration: `\d` in Python also matches non-ASCII decimal digits; the model matches ASCII digits only. Python's `int` (since 3.11) also refuses text of more than 4300 digits, so a component that long makes line 116 raise and aborts the row builders; the model has no digit limit and returns a clock text.
- Rows.FrameCount: Python's `int` also accepts surrounding whitespace and digit-group underscores; the model's `ParseInt` accepts only an optional sign and ASCII digits, and fails on the rest. Python's `int` (since 3.11) also refuses more than 4300 digits, which the model reads as a number.
- Staleness.ShouldRefresh: `datetime` range limits and the `timedelta` normalisation of the interval are not modelled; times are unbounded microsecond counts.
