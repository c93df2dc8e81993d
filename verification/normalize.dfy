/**
 * Per-item normalisation of api/rss.js: `getPubDate` and the mapping of each
 * raw item to `{ title, link, guid, description, pubDate, image }`, plus the
 * per-source step that turns a fetched feed (or a failed one) into items.
 */
module Normalize {
  import opened Wrappers
  import opened Truthiness
  import opened FeedItems
  import opened Image

  /** `feed.link || url`: the base URL images are resolved against */
  function BaseUrl(feedLink: Option<string>, url: string): (r: string)
    ensures r == FirstTruthyText([feedLink, Some(url)])
  {
    var c := [feedLink, Some(url)];
    assert c[1..] == [Some(url)] && c[1..][1..] == [];
    assert FirstTruthyIndex(c[1..]) == if url != "" then 0 else 1;
    assert FirstTruthyIndex(c) == if Truthy(feedLink) then 0 else if url != "" then 1 else 2;
    if Truthy(feedLink) then feedLink.value else url
  }

  /** `toUTCString()` never writes a `<`, so its text is safe to insert unescaped */
  ghost predicate FormatIsPlain(env: Env) {
    forall t :: '<' !in env.formatDate(t)
  }

  /** The date fields `getPubDate` tries, in order: `isoDate`, `pubDate`, `dc:date` */
  function DateFields(it: RawItem): seq<Option<string>> {
    [it.isoDate, it.pubDate, it.dcDate]
  }

  /** `new Date(s).toUTCString()` */
  function FormatParsed(env: Env, s: string): string {
    match env.parseDate(s)
    case Some(t) => env.formatDate(t)
    case None => InvalidDate
  }

  /** `getPubDate(it)` */
  function GetPubDate(env: Env, it: RawItem): (r: string)
    ensures r == InvalidDate || exists t :: r == env.formatDate(t)
    ensures !Truthy(it.isoDate) && !Truthy(it.pubDate) && !Truthy(it.dcDate) ==> r == env.formatDate(env.now)
  {
    var iso := Or(it.isoDate, Or(it.pubDate, it.dcDate));
    if Truthy(iso) then FormatParsed(env, iso.value) else env.formatDate(env.now)
  }

  /** The date comes from the first truthy date field; with none, it is the current instant. */
  lemma GetPubDateSource(env: Env, it: RawItem)
    ensures var c := DateFields(it);
            var i := FirstTruthyIndex(c);
            GetPubDate(env, it) == if i < |c| then FormatParsed(env, c[i].value) else env.formatDate(env.now)
  {
    var c := DateFields(it);
    OrAllIsFirstTruthy(c);
    assert c[1..][1..] == [it.dcDate];
    assert OrAll(c[1..]) == Or(it.pubDate, it.dcDate);
  }

  /** With a plain formatter no normalised date holds a `<`: it is a formatted instant or
      `Invalid Date`. */
  lemma PubDateIsPlain(env: Env, it: RawItem)
    requires FormatIsPlain(env)
    ensures '<' !in GetPubDate(env, it)
  {
  }

  /** The description fields, in the order the source tries them */
  function DescriptionFields(it: RawItem): seq<Option<string>> {
    [it.contentSnippet, it.summary, it.content, it.contentEncoded]
  }

  /** The item-mapping lambda of the handler */
  function NormalizeItem(env: Env, it: RawItem, base: string): (r: Item)
    ensures r.guid == r.link
  {
    var title := OrEmpty(it.title);
    var link := OrEmpty(Or(it.link, it.guid));
    var guid := link;
    var description := OrEmpty(Or(it.contentSnippet, Or(it.summary, Or(it.content, it.contentEncoded))));
    Item(title, link, guid, description, GetPubDate(env, it), PickImage(env, it, base))
  }

  /** Each text field is its first truthy source (an empty string counts as absent), or empty. */
  lemma NormalizeItemFields(env: Env, it: RawItem, base: string)
    ensures var r := NormalizeItem(env, it, base);
            && r.title == FirstTruthyText([it.title])
            && r.link == FirstTruthyText([it.link, it.guid])
            && r.guid == r.link
            && r.description == FirstTruthyText(DescriptionFields(it))
            && (r.description == "" <==> forall j :: 0 <= j < 4 ==> !Truthy(DescriptionFields(it)[j]))
  {
    var d := DescriptionFields(it);
    OrEmptyIsFirstTruthy(d);
    assert d[1..][1..][1..] == [it.contentEncoded];
    assert OrAll(d[1..][1..]) == Or(it.content, it.contentEncoded);
    assert OrAll(d[1..]) == Or(it.summary, Or(it.content, it.contentEncoded));
    OrEmptyIsFirstTruthy([it.link, it.guid]);
    assert [it.link, it.guid][1..] == [it.guid];
    OrEmptyIsFirstTruthy([it.title]);
  }

  /** The items one source contributes: none when its fetch or parse failed, otherwise
      its items normalised against `feed.link || url`, in feed order. */
  function SourceItems(env: Env, src: Source): (r: seq<Item>)
    ensures src.fetch.FetchFailed? ==> r == []
    ensures src.fetch.Fetched? ==> |r| == |src.fetch.items|
    ensures src.fetch.Fetched? ==> forall i :: 0 <= i < |r| ==>
              r[i] == NormalizeItem(env, src.fetch.items[i], BaseUrl(src.fetch.link, src.url))
  {
    match src.fetch
    case FetchFailed => []
    case Fetched(link, items) =>
      var base := BaseUrl(link, src.url);
      seq(|items|, i requires 0 <= i < |items| => NormalizeItem(env, items[i], base))
  }
}
