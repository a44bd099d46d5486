/** The parts of the YouTube Data API v3 responses that the acquisition code
    reads. A JSON key the code reads with a default is an `Option`, `None`
    standing for an absent key; a resource object that is missing altogether
    (`v.get("snippet", {})`) is one whose fields are all `None`. Counts are
    strings, as the API sends them. */
module Api {
  import opened Prelude

  datatype Snippet = Snippet(
    title: Option<string>,
    publishedAt: Option<string>,
    channelId: Option<string>,
    channelTitle: Option<string>,
    categoryId: Option<string>,
    tags: Option<seq<string>>)

  datatype Statistics = Statistics(viewCount: Option<string>, likeCount: Option<string>)

  /** A `videos.list` item: `id`, `snippet`, `statistics` and the
      `contentDetails.duration` text. */
  datatype Video = Video(id: string, snippet: Snippet, statistics: Statistics, duration: Option<string>)

  /** A `channels.list` item: `id`, `snippet.title`, `snippet.country` and
      `brandingSettings.channel.country`. */
  datatype ChannelItem = ChannelItem(
    id: string,
    title: Option<string>,
    snippetCountry: Option<string>,
    brandingCountry: Option<string>)

  /** A `videoCategories.list` item: `id` and `snippet.title`. */
  datatype CategoryItem = CategoryItem(id: string, title: string)

  /** The largest `maxResults` the list endpoints accept, and so the number
      of ids sent per detail or channel lookup. */
  const BatchSize := 50

  function CategoryKey(c: CategoryItem): string { c.id }
  function CategoryTitle(c: CategoryItem): string { c.title }
}
