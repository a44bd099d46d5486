/** `get_last_scrape_time` and `should_refresh_data`: whether the saved data
    is older than the refresh interval. Times are microsecond counts, the
    resolution of Python's `datetime`; the clock reading is a parameter. */
module Staleness {
  import opened Prelude

  const MicrosPerMinute := 60_000_000

  /** `REFRESH_INTERVAL_MINUTES`. */
  const RefreshIntervalMinutes := 60

  /** A `datetime` as `fromisoformat` returns it: the wall-clock reading
      (microseconds since 1970-01-01T00:00 on that wall clock) and, for an
      aware time, its UTC offset in microseconds. `None` is a naive time. */
  datatype ScrapeTime = ScrapeTime(wallMicros: int, utcOffsetMicros: Option<int>)

  /** The instant, in microseconds since the Unix epoch; a naive time is
      taken to be UTC (`replace(tzinfo=timezone.utc)`). */
  function UtcMicros(t: ScrapeTime): int {
    t.wallMicros - t.utcOffsetMicros.GetOr(0)
  }

  /** `get_last_scrape_time`. The file is `None` when it does not exist or
      cannot be read; otherwise it holds the `scraped_at` cell of each data
      row, `None` for a cell that is empty or not an ISO 8601 time (the
      parse error is caught and logged). Only the first row is looked at. */
  function LastScrapeTime(file: Option<seq<Option<ScrapeTime>>>): (r: Option<ScrapeTime>)
    ensures r.Some? ==> file.Some? && |file.value| > 0 && file.value[0] == r
    ensures file.Some? && |file.value| > 0 ==> r == file.value[0]
  {
    if file.None? || |file.value| == 0 then None else file.value[0]
  }

  /** The decision: refresh when there is no last scrape time, or when
      strictly more than `intervalMinutes` have passed since it. */
  function ShouldRefresh(last: Option<ScrapeTime>, nowUtcMicros: int, intervalMinutes: int): (r: bool)
    ensures last.None? ==> r
    ensures last.Some? && nowUtcMicros - UtcMicros(last.value) <= intervalMinutes * MicrosPerMinute ==> !r
    ensures last.Some? && nowUtcMicros - UtcMicros(last.value) > intervalMinutes * MicrosPerMinute ==> r
  {
    last.None? || nowUtcMicros - UtcMicros(last.value) > intervalMinutes * MicrosPerMinute
  }

  /** `should_refresh_data`. */
  function ShouldRefreshData(file: Option<seq<Option<ScrapeTime>>>, nowUtcMicros: int, intervalMinutes: int): (r: bool)
    ensures file.None? || file.value == [] || file.value[0].None? ==> r
  {
    ShouldRefresh(LastScrapeTime(file), nowUtcMicros, intervalMinutes)
  }

  /** Once stale, the data stays stale as the clock moves on. */
  lemma StaleStaysStale(last: Option<ScrapeTime>, now: int, later: int, intervalMinutes: int)
    requires now <= later
    requires ShouldRefresh(last, now, intervalMinutes)
    ensures ShouldRefresh(last, later, intervalMinutes)
  {
  }

  /** The decision depends only on the instant: the same moment written in
      any time zone, or naive in UTC, gives the same answer. */
  lemma SameInstantSameDecision(a: ScrapeTime, b: ScrapeTime, now: int, intervalMinutes: int)
    requires UtcMicros(a) == UtcMicros(b)
    ensures ShouldRefresh(Some(a), now, intervalMinutes) == ShouldRefresh(Some(b), now, intervalMinutes)
  {
  }

  lemma NaiveIsUtc(wall: int, now: int, intervalMinutes: int)
    ensures ShouldRefresh(Some(ScrapeTime(wall, None)), now, intervalMinutes)
         == ShouldRefresh(Some(ScrapeTime(wall, Some(0))), now, intervalMinutes)
  {
  }

  /** With the default interval of an hour: data exactly 60 minutes old is
      still fresh (the comparison is strict), 59 minutes is fresh, 61
      minutes is stale, whatever the zone the time was written in. */
  lemma HourlyRefresh(wall: int, offset: Option<int>)
    ensures var t := ScrapeTime(wall, offset);
      && !ShouldRefresh(Some(t), UtcMicros(t) + 60 * MicrosPerMinute, RefreshIntervalMinutes)
      && !ShouldRefresh(Some(t), UtcMicros(t) + 59 * MicrosPerMinute, RefreshIntervalMinutes)
      && ShouldRefresh(Some(t), UtcMicros(t) + 61 * MicrosPerMinute, RefreshIntervalMinutes)
      && ShouldRefresh(Some(t), UtcMicros(t) + 60 * MicrosPerMinute + 1, RefreshIntervalMinutes)
  {
  }
}
