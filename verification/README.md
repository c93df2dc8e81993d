# CURA unified RSS feed — a verified model

The system merges several RSS feeds into one. `api/rss.js` does four things:
- it fetches the source feeds;
- it normalises every item to `{ title, link, guid, description, pubDate, image }`;
- it merges all items, sorts them newest first and caps the list at 50;
- it writes one RSS 2.0 document by string concatenation, with every text field XML-escaped.

This project models that pipeline as pure Dafny functions over immutable datatypes and proves what it promises.

Modules, one per concern of the source:

| file | module | models |
|---|---|---|
| `wrappers.dfy` | `Wrappers` | `Option`, standing for `null`/`undefined` |
| `truthiness.dfy` | `Truthiness` | JavaScript `\|\|` over absent-or-string values (an empty string counts as absent) |
| `feed_items.dfy` | `FeedItems` | raw item shapes (string-or-object thumbnail, array-or-object media content), the normalised item, the abstract collaborators (`Env`) |
| `xml_escape.dfy` | `XmlEscape` | `xmlEscape`, its inverse, the shape of escaped text |
| `image.dfy` | `Image` | `toAbs`, `firstImgFromHtml`, `pickImageFromItem` |
| `normalize.dfy` | `Normalize` | `getPubDate`, the item-mapping lambda, the per-source `try/catch` |
| `merge.dfy` | `Ranking` | `flat()`, the stable newest-first sort, `slice(0, 50)` |
| `render.dfy` | `Render` | the XML assembly, plus a reader of the produced document |
| `feed.dfy` | `Feed` | the handler as one function from fetched sources to the response body |

Several collaborators are parameters, held in the `Env` datatype:
- URL resolution (`new URL(u, base)`);
- the `<img>` regular expression;
- `new Date(s)` and `toUTCString()`;
- the clock.

A fetched source is a value: either `Fetched(feed.link, items)` or `FetchFailed`.

The channel's title, link and description (lines 104-106) form a `Render.Channel` value. The document functions take it as a parameter, and `Feed.Aggregate` passes the configured `Render.Cura`. So the rendering lemmas hold for any channel texts, and the handler uses the three constants.

Facts about `api/rss.js` that shape the model:
- Image selection has four tiers: the thumbnail, the media content, the first `<img>` of `content:encoded`, then the first `<img>` of `content`.
- A date that is present but does not parse becomes `Invalid Date` (line 63); only an item with no date at all takes the current time.
- The code writes no enclosure, `dc:date`, `content:encoded` or atom self-link, and does no pretty-printing.

## Model

| member | source | states |
|---|---|---|
| `Truthiness.OrAllIsFirstTruthy` | api/rss.js:80-84 | an `\|\|` chain yields the first truthy candidate, and it is falsy exactly when no candidate is truthy |
| `Truthiness.OrEmptyIsFirstTruthy` | api/rss.js:79-84 | `a \|\| b \|\| ... \|\| ""` is the text of the first non-empty candidate, or `""` when there is none |
| `XmlEscape.EscapeOpt` | api/rss.js:25-31 | `null`/`undefined` escape to `""`; a string with none of the five special characters passes through unchanged |
| `XmlEscape.EscapeIsPerChar` | api/rss.js:25-31 | the five sequential global replaces, ampersand first, equal escaping each character on its own, so no entity produced by one pass is escaped again |
| `XmlEscape.EscapeIsWellEscaped` | api/rss.js:25-31 | the output holds no raw `<`, `>`, `"` or `'`, and every `&` in it starts one of `&amp; &lt; &gt; &quot; &apos;` |
| `XmlEscape.EscapeRoundTrip` | api/rss.js:25-31 | unescaping the output returns the original string |
| `XmlEscape.UnescapeThenEscape` | api/rss.js:25-31 | every well-escaped text is the escape of its decoding, so escaping is a bijection onto well-escaped text |
| `XmlEscape.FirstToken` | api/rss.js:25-31 | well-escaped text opens with one of the five entities or a plain character, which is the escape of the one character it decodes to |
| `XmlEscape.EscapeKeepsPlainText` | api/rss.js:25-31 | a string is left unchanged by escaping if and only if it has none of the five special characters |
| `XmlEscape.ReplaceAllChars` | api/rss.js:27-31 | one global replace leaves no copy of the replaced character unless the replacement holds it: every character of the result is kept from the input or comes from the replacement |
| `XmlEscape.Escape` | api/rss.js:25-31 | the five passes leave no raw `<`, `>`, `"` or `'` in the output, so escaped text cannot close an element or a double-quoted attribute |
| `XmlEscape.EscapeExample` | api/rss.js:25-31 | `A & B <tag>` becomes `A &amp; B &lt;tag&gt;`, and so does the same shape with any plain texts in place of `A `, ` B ` and `tag` |
| `Image.ToAbs` | api/rss.js:33-36 | a falsy URL gives `null`; any result is the resolution of the given non-empty URL against the base |
| `Image.PickImage` | api/rss.js:44-59 | any image picked is the resolution of some non-empty candidate URL against the base, so every image went through `toAbs` |
| `Image.FirstImgFromHtml` | api/rss.js:38-42 | absent or empty HTML yields no image |
| `Image.PickImageIsFirstCandidate` | api/rss.js:44-59 | the tiers are a non-empty string thumbnail, a thumbnail object's truthy `url`, the media content's `$.url` (an array's first element, or the object), the first `<img>` of `content:encoded`, then of `content`; the image is `toAbs` of the first tier that offers a candidate, and `null` when none does |
| `Image.NoFallThrough` | api/rss.js:33-36 | once tier k offers a candidate and no earlier tier does, the image is exactly the resolution of that candidate, which is `null` when resolution fails, whatever later tiers hold |
| `Image.NoFallThroughExample` | api/rss.js:46-54 | a thumbnail that fails to resolve gives no image even though the media array holds a resolvable URL |
| `Normalize.BaseUrl` | api/rss.js:76 | the base URL is the first non-empty of `feed.link` and the source URL (the reference `FirstTruthyText`) |
| `Normalize.GetPubDate` | api/rss.js:61-66 | the date text is always either some instant formatted by `toUTCString` or `Invalid Date`, and with no date field it is the current instant |
| `Normalize.GetPubDateSource` | api/rss.js:61-66 | the date comes from the first truthy of `isoDate`, `pubDate`, `dc:date`, parsed and formatted (or `Invalid Date`); with none it is the current instant |
| `Normalize.NormalizeItem` | api/rss.js:80-81 | `guid` always equals `link` |
| `Normalize.NormalizeItemFields` | api/rss.js:78-88 | `title` is the raw title or `""`; `link` is the first truthy of `link`, `guid`, else `""`; `description` is the first truthy of `contentSnippet`, `summary`, `content`, `content:encoded`, and is empty exactly when all four are falsy |
| `Ranking.FlattenLength` | api/rss.js:98-99 | flattening keeps every item: its length is the sum of the lists' lengths |
| `Ranking.FlattenMembers` | api/rss.js:98-99 | an item is in the flattened list exactly when it is in one of the lists |
| `Ranking.SortDesc` | api/rss.js:100 | the sort result is a permutation of its input and is non-increasing by timestamp |
| `Ranking.SortDescStable` | api/rss.js:100 | for every timestamp, the items carrying it keep their input order |
| `Ranking.SortedUnique` | api/rss.js:100 | two sorted sequences with the same items in the same order per timestamp are equal |
| `Ranking.SortDescCharacterization` | api/rss.js:100 | a sequence is the stable newest-first sort of the input if and only if it is sorted and keeps the input order among equal timestamps |
| `Ranking.Merge` | api/rss.js:98-101 | the merged list has length min(50, total items), is sorted newest first, takes items only from the input (counting copies), keeps concatenation order among equal timestamps, and an item with fewer copies kept than given is no newer than any item kept |
| `Ranking.MergeKeepsAllUnderCap` | api/rss.js:98-101 | with at most 50 items in all, the merged list holds every item |
| `Render.MediaXml` | api/rss.js:128-133 | the media tags are written exactly when the image is truthy, starting with `<media:content url="` |
| `Render.ItemXml` | api/rss.js:120-135 | each item's markup starts with `<item>` and ends with `</item>` |
| `Render.EmittedAll` | api/rss.js:119-136 | the items as the document shows them: one per item, in order, each with its image only when emitted |
| `Render.Document` | api/rss.js:108-138 | for any channel texts, the document starts with the XML declaration and ends with `</channel></rss>` |
| `Render.TextRoundTrip` | api/rss.js:122-126 | an escaped text element reads back as the original text |
| `Render.MediaRoundTrip` | api/rss.js:128-133 | the `media:content` and `media:thumbnail` tags are present exactly when the image is truthy, and both carry the same escaped URL, which reads back as the image |
| `Render.ItemRoundTrip` | api/rss.js:119-136 | an `<item>` holds the escaped title, link, guid, description and pubDate in that order, then the media tags, and reads back as the item |
| `Render.ItemsStep` | api/rss.js:119-136 | an emitted `<item>` reads back as its item, and reading continues right after its closing tag |
| `Render.ItemsThen` | api/rss.js:119-137 | the items written by the loop, followed by anything that ends the list, read back as exactly those items in order |
| `Render.ItemsRoundTrip` | api/rss.js:119-136 | the loop writes one `<item>` per entry, in order |
| `Render.DocumentRoundTrip` | api/rss.js:108-138 | for any channel texts, the document reads back as its `lastBuildDate` and exactly its items, in order, each with its image shown only when emitted |
| `Feed.Timestamp` | api/rss.js:100 | the sort key of an item is the instant its `pubDate` parses to |
| `Feed.MergedItems` | api/rss.js:98-101 | the merged list has min(50, fetched raw items) items, newest first, all drawn from the fetched sources; items of the same date keep their input order, and no copy left out is newer than an item kept |
| `Feed.BuildDateIsNewest` | api/rss.js:98-115 | when any source yields an item, the build date is the `pubDate` of the first merged item, and no fetched item is newer than it |
| `Feed.NewestKept` | api/rss.js:98-101 | a list taken newest first that leaves out nothing newer than what it keeps opens with an item no input item is newer than |
| `Feed.Aggregate` | api/rss.js:97-138 | the response body starts with the XML declaration |
| `Feed.AllFailedGivesEmptyChannel` | api/rss.js:72-115 | when every configured source fails the handler still answers: no item is merged and the build date is the current instant |
| `Feed.CollectedItems` | api/rss.js:72-99 | the merge input holds exactly the items of the sources whose fetch succeeded; a failed source contributes nothing |
| `Feed.CollectedCount` | api/rss.js:78-93 | the merge input holds one item per raw item of every fetched source |
| `Normalize.PubDateIsPlain` | api/rss.js:61-66 | when the formatter never writes `<`, no normalised date holds one (it is a formatted instant or `Invalid Date`) |
| `Feed.NewestDateIsPlain` | api/rss.js:97-115 | the unescaped `lastBuildDate` holds no `<`: it is the date of an item from a fetched source, or the current instant |
| `Feed.AggregateRoundTrip` | api/rss.js:97-138 | the response reads back as exactly the merged items, in order, each as rendered, with the build date of `Render.LastBuildDate`; the merged items number min(50, fetched items), are newest first, keep the input order per date and leave out nothing newer than what they keep |
| `Feed.AggregateReadsBack` | api/rss.js:97-138 | the response body, with the configured channel, reads back as the build date and exactly the merged items, each as rendered |

## Left out

- Fetching and parsing feeds (`parser.parseURL`, the parser's custom-field configuration, the `Promise.all` fan-out): a network library and concurrency. Each source is given as an already-parsed `Fetched` value or `FetchFailed`.
- HTTP plumbing and logging (headers, status codes, `res.send`, the 500 path, `console.error`): I/O.
- URL resolution (`new URL(url, base)`): a foreign call, modelled as the parameter `Env.resolveUrl`, whose `None` stands for a throw. URL syntax is not specified.
- The `<img>` regular expression of `firstImgFromHtml`: modelled as the parameter `Env.matchImg`. Backtracking and case-insensitivity are not modelled.
- Date parsing and formatting (`new Date(s)`, `toUTCString`): modelled as `Env.parseDate` and `Env.formatDate`. The clock is one instant, `Env.now`. The source reads the clock separately for each item without a date and again for `lastBuildDate`.
- Feed.MergedItems: requires every merged `pubDate` to parse. For `Invalid Date` the source's comparator returns NaN and the resulting order is implementation-defined, so the model does not describe it. `Feed.Aggregate` and `Feed.AggregateRoundTrip` carry the same requirement.
- Render.DocumentRoundTrip: requires the `lastBuildDate` text to hold no `<`. This is the one text the source inserts without escaping (line 115). The `toUTCString` format never contains `<`. `Feed.AggregateRoundTrip` assumes only that of the formatter (`Normalize.FormatIsPlain`), and `Feed.NewestDateIsPlain` derives the rest.
- JavaScript duck typing beyond the modelled shapes: non-string field values, a `$` bag that is not an object, and a `null` thumbnail are not modelled. A missing `$` and a `$` without `url` are one case, as the source treats them alike.
- Feed.Timestamp: for a date that does not parse the source's key is NaN; the model's key is 0 there, a value no contract relies on, because `Feed.MergedItems` requires every date to parse.
- Feed.Aggregate: its own contract states only the XML declaration at the start; the closing tags are stated by `Render.Document` and the content by `Feed.AggregateRoundTrip`. It is stated for any list of sources. The handler's own list is `Feed.Configured(fetches)`, the four configured URLs with their fetch outcomes.
