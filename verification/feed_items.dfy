/**
 * The data model of api/rss.js: the item shapes the feed parser hands over,
 * the normalised item the handler builds, and the collaborators the code calls
 * but that are not modelled (URL resolution, the `<img>` regular expression,
 * date parsing and formatting, the clock).
 */
module FeedItems {
  import opened Wrappers

  /** `it["media:thumbnail"]`: absent, a bare URL string, or an object whose `url` may be absent */
  datatype Thumbnail =
    | NoThumbnail
    | ThumbnailText(text: string)
    | ThumbnailObject(url: Option<string>)

  /** The `$` attribute bag of a `media:content` element; `url` is `$?.url` (absent when `$` is) */
  datatype MediaAttrs = MediaAttrs(url: Option<string>)

  /** `it["media:content"]`: absent, an array of elements, or a single element */
  datatype MediaContent =
    | NoMediaContent
    | MediaArray(elems: seq<MediaAttrs>)
    | MediaObject(attrs: MediaAttrs)

  /** One item as the feed parser delivers it; every text field may be absent */
  datatype RawItem = RawItem(
    title: Option<string>,
    link: Option<string>,
    guid: Option<string>,
    contentSnippet: Option<string>,
    summary: Option<string>,
    content: Option<string>,
    contentEncoded: Option<string>,   // it["content:encoded"]
    isoDate: Option<string>,
    pubDate: Option<string>,
    dcDate: Option<string>,           // it["dc:date"]
    thumbnail: Thumbnail,
    mediaContent: MediaContent
  )

  /** The normalised item `{ title, link, guid, description, pubDate, image }` */
  datatype Item = Item(
    title: string,
    link: string,
    guid: string,
    description: string,
    pubDate: string,          // an RFC-822 style GMT string, or "Invalid Date"
    image: Option<string>     // `null` when no image was found or it did not resolve
  )

  /** The outcome of `parser.parseURL(url)`: the feed's own `link` and its items, or a throw */
  datatype Fetch = Fetched(link: Option<string>, items: seq<RawItem>) | FetchFailed

  /** One configured source feed */
  datatype Source = Source(url: string, fetch: Fetch)

  /**
   * The collaborators the code calls and that this model leaves abstract:
   * - `resolveUrl(u, base)`: `new URL(u, base).toString()`, `None` when it throws;
   * - `matchImg(html)`: the capture of `/<img[^>]+src=["']([^"']+)["']/i` in `html`, `None` when no match;
   * - `parseDate(s)`: the instant of `new Date(s)` in milliseconds, `None` for an invalid date;
   * - `formatDate(t)`: `toUTCString()` of the instant `t`;
   * - `now`: the instant `new Date()` reads while the request is handled.
   */
  datatype Env = Env(
    resolveUrl: (string, string) -> Option<string>,
    matchImg: string -> Option<string>,
    parseDate: string -> Option<int>,
    formatDate: int -> string,
    now: int
  )

  /** What `toUTCString()` returns for an invalid date */
  const InvalidDate: string := "Invalid Date"
}
