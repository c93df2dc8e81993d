/**
 * The handler of api/rss.js as one pure pipeline: every source contributes its
 * normalised items (none when its fetch failed), the lists are merged, ranked
 * and capped, and the result is rendered as one RSS document.
 */
module Feed {
  import opened Wrappers
  import opened FeedItems
  import opened Normalize
  import opened Ranking
  import opened Render
  import opened XmlEscape

  /** The configured source feeds, one per CMS collection */
  const SourceUrls: seq<string> := [
    "https://curaforthegamer.com/play/rss.xml",
    "https://curaforthegamer.com/optimize/rss.xml",
    "https://curaforthegamer.com/gear/rss.xml",
    "https://curaforthegamer.com/beyond/rss.xml"
  ]

  /** The configured URLs, each paired with the outcome of fetching it */
  function Configured(fetches: seq<Fetch>): (sources: seq<Source>)
    requires |fetches| == |SourceUrls|
    ensures |sources| == |SourceUrls|
    ensures forall i :: 0 <= i < |sources| ==> sources[i].url == SourceUrls[i] && sources[i].fetch == fetches[i]
  {
    seq(|fetches|, i requires 0 <= i < |fetches| => Source(SourceUrls[i], fetches[i]))
  }

  /** `Promise.all(SOURCES.map(...))`: the items of each source, in source order */
  function Collect(env: Env, sources: seq<Source>): (lists: seq<seq<Item>>)
    ensures |lists| == |sources|
    ensures forall i :: 0 <= i < |sources| ==> lists[i] == SourceItems(env, sources[i])
  {
    seq(|sources|, i requires 0 <= i < |sources| => SourceItems(env, sources[i]))
  }

  /** Reference definition: how many raw items the sources whose fetch succeeded hold */
  function FetchedCount(sources: seq<Source>): nat
    decreases |sources|
  {
    if |sources| == 0 then 0
    else
      var last := sources[|sources| - 1];
      FetchedCount(sources[..|sources| - 1]) + (if last.fetch.Fetched? then |last.fetch.items| else 0)
  }

  /** The numeric value of `new Date(it.pubDate)` the comparator sorts by */
  function Timestamp(env: Env, it: Item): (t: int)
    ensures env.parseDate(it.pubDate).Some? ==> env.parseDate(it.pubDate) == Some(t)
  {
    match env.parseDate(it.pubDate)
    case Some(t) => t
    case None => 0
  }

  /** Every date the comparator reads is a valid instant */
  predicate DatesParse(env: Env, items: seq<Item>) {
    forall i :: 0 <= i < |items| ==> env.parseDate(items[i].pubDate).Some?
  }

  /** Newest first: no item is older than one after it */
  ghost predicate NewestFirst(env: Env, items: seq<Item>) {
    forall i, j :: 0 <= i < j < |items| ==> Timestamp(env, items[i]) >= Timestamp(env, items[j])
  }

  /** The sort key as a function value, as the comparator reads it */
  function ByDate(env: Env): Item -> int {
    (it: Item) => Timestamp(env, it)
  }

  /** `lists.flat().sort((a, b) => new Date(b.pubDate) - new Date(a.pubDate)).slice(0, 50)`:
      the newest items, in the stable order, with no dropped copy newer than a kept item */
  function MergedItems(env: Env, sources: seq<Source>): (r: seq<Item>)
    requires DatesParse(env, Flatten(Collect(env, sources)))
    ensures |r| == Min(MaxItems, FetchedCount(sources))
    ensures NewestFirst(env, r)
    ensures multiset(r) <= multiset(Flatten(Collect(env, sources)))
    ensures forall k :: Filter(r, ByDate(env), k) <= Filter(Flatten(Collect(env, sources)), ByDate(env), k)
    ensures var all := Flatten(Collect(env, sources));
            forall x :: x in all && multiset(r)[x] < multiset(all)[x] ==>
              forall i :: 0 <= i < |r| ==> Timestamp(env, x) <= Timestamp(env, r[i])
  {
    CollectedCount(env, sources);
    Merge(Collect(env, sources), ByDate(env))
  }

  /** The response body of the handler. It is stated for any list of sources; the handler's
      own list is `Configured(fetches)`, the four configured URLs with their fetch outcomes. */
  function Aggregate(env: Env, sources: seq<Source>): (body: string)
    requires DatesParse(env, Flatten(Collect(env, sources)))
    ensures StartsWith(body, XmlDeclaration)
  {
    Document(env, Cura, MergedItems(env, sources))
  }

  /** The merge input holds exactly the items of the sources that were fetched; a source
      whose fetch or parse failed contributes nothing. */
  lemma CollectedItems(env: Env, sources: seq<Source>, x: Item)
    ensures x in Flatten(Collect(env, sources))
        <==> exists i :: 0 <= i < |sources| && sources[i].fetch.Fetched? && x in SourceItems(env, sources[i])
  {
    var lists := Collect(env, sources);
    FlattenMembers(lists, x);
    if x in Flatten(lists) {
      var i :| 0 <= i < |lists| && x in lists[i];
      assert sources[i].fetch.Fetched?;
    }
  }

  /** One normalised item per raw item of every fetched source. */
  lemma {:induction false} CollectedCount(env: Env, sources: seq<Source>)
    ensures TotalLength(Collect(env, sources)) == FetchedCount(sources)
    decreases |sources|
  {
    if |sources| > 0 {
      var n := |sources| - 1;
      assert Collect(env, sources)[..n] == Collect(env, sources[..n]);
      CollectedCount(env, sources[..n]);
    }
  }

  /** Every item a fetched source contributes has a date free of `<`. */
  lemma CollectedDatePlain(env: Env, sources: seq<Source>, x: Item)
    requires FormatIsPlain(env)
    requires x in Flatten(Collect(env, sources))
    ensures '<' !in x.pubDate
  {
    CollectedItems(env, sources, x);
    var i :| 0 <= i < |sources| && sources[i].fetch.Fetched? && x in SourceItems(env, sources[i]);
    var items := SourceItems(env, sources[i]);
    var j :| 0 <= j < |items| && items[j] == x;
    PubDateIsPlain(env, sources[i].fetch.items[j]);
  }

  /** The build date the document inserts unescaped holds no `<`: it is the date of an item
      some fetched source holds, or the current instant. */
  lemma NewestDateIsPlain(env: Env, sources: seq<Source>)
    requires DatesParse(env, Flatten(Collect(env, sources)))
    requires FormatIsPlain(env)
    ensures '<' !in LastBuildDate(env, MergedItems(env, sources))
  {
    var merged := MergedItems(env, sources);
    if |merged| > 0 {
      assert merged[0] in multiset(Flatten(Collect(env, sources)));
      CollectedDatePlain(env, sources, merged[0]);
    }
  }

  /** The document lists min(50, fetched items) items, newest first, in the stable order and
      with no dropped copy newer than a kept item, each read back as the merged item it
      renders; its `lastBuildDate` is the newest item's date, or now when there is none. */
  lemma AggregateRoundTrip(env: Env, sources: seq<Source>)
    requires DatesParse(env, Flatten(Collect(env, sources)))
    requires FormatIsPlain(env)
    ensures |MergedItems(env, sources)| == Min(MaxItems, FetchedCount(sources))
    ensures MergeKeepsOrder(env, Flatten(Collect(env, sources)), MergedItems(env, sources))
    ensures var merged := MergedItems(env, sources);
            ParseDocument(Cura, Aggregate(env, sources)) == Some(Parsed(LastBuildDate(env, merged), EmittedAll(merged)))
  {
    MergedOrder(env, sources);
    AggregateReadsBack(env, sources);
  }

  /** `r` is taken from `all` newest first, keeps the order of `all` among items of the same
      date, and leaves out no copy newer than an item it keeps. */
  ghost predicate MergeKeepsOrder(env: Env, all: seq<Item>, r: seq<Item>) {
    && NewestFirst(env, r)
    && (forall k :: Filter(r, ByDate(env), k) <= Filter(all, ByDate(env), k))
    && (forall x :: x in all && multiset(r)[x] < multiset(all)[x] ==>
          forall i :: 0 <= i < |r| ==> Timestamp(env, x) <= Timestamp(env, r[i]))
  }

  /** The merged list keeps the order facts of `Feed.MergedItems`. */
  lemma MergedOrder(env: Env, sources: seq<Source>)
    requires DatesParse(env, Flatten(Collect(env, sources)))
    ensures MergeKeepsOrder(env, Flatten(Collect(env, sources)), MergedItems(env, sources))
  {
  }

  /** The handler's body reads back as the build date and the merged items. */
  lemma AggregateReadsBack(env: Env, sources: seq<Source>)
    requires DatesParse(env, Flatten(Collect(env, sources)))
    requires FormatIsPlain(env)
    ensures var merged := MergedItems(env, sources);
            ParseDocument(Cura, Aggregate(env, sources)) == Some(Parsed(LastBuildDate(env, merged), EmittedAll(merged)))
  {
    var merged := MergedItems(env, sources);
    NewestDateIsPlain(env, sources);
    ReadsBack(env, Cura, merged, Aggregate(env, sources));
  }

  /** `Render.DocumentRoundTrip` for one given text: stating it apart from the merge keeps
      the solver from unfolding the handler's whole pipeline while it reads the document back. */
  lemma ReadsBack(env: Env, ch: Channel, merged: seq<Item>, doc: string)
    requires '<' !in LastBuildDate(env, merged)
    ensures doc == Document(env, ch, merged) ==>
              ParseDocument(ch, doc) == Some(Parsed(LastBuildDate(env, merged), EmittedAll(merged)))
  {
    DocumentRoundTrip(env, ch, merged);
  }

  /** Line 115 takes the date of `items[0]`: when any source yields an item, that is the date of
      the newest fetched item, since no item of any fetched source is newer than it. */
  lemma BuildDateIsNewest(env: Env, sources: seq<Source>)
    requires DatesParse(env, Flatten(Collect(env, sources)))
    requires FetchedCount(sources) > 0
    ensures |MergedItems(env, sources)| > 0
    ensures LastBuildDate(env, MergedItems(env, sources)) == MergedItems(env, sources)[0].pubDate
    ensures forall x :: x in Flatten(Collect(env, sources)) ==>
              Timestamp(env, x) <= Timestamp(env, MergedItems(env, sources)[0])
  {
    MergedOrder(env, sources);
    NewestKept(env, Flatten(Collect(env, sources)), MergedItems(env, sources));
  }

  /** A list kept in order from `all` opens with an item no item of `all` is newer than. */
  lemma NewestKept(env: Env, all: seq<Item>, r: seq<Item>)
    requires MergeKeepsOrder(env, all, r) && |r| > 0
    ensures forall x :: x in all ==> Timestamp(env, x) <= Timestamp(env, r[0])
  {
    forall x | x in all
      ensures Timestamp(env, x) <= Timestamp(env, r[0])
    {
      if multiset(r)[x] >= multiset(all)[x] {
        assert x in multiset(r);
        var i :| 0 <= i < |r| && r[i] == x;
        assert i == 0 || Timestamp(env, r[0]) >= Timestamp(env, r[i]);
      }
    }
  }

  /** When every configured source fails, the handler still answers: an empty channel
      built at the current instant. */
  lemma AllFailedGivesEmptyChannel(env: Env, fetches: seq<Fetch>)
    requires |fetches| == |SourceUrls|
    requires forall i :: 0 <= i < |fetches| ==> fetches[i].FetchFailed?
    ensures var sources := Configured(fetches);
            && DatesParse(env, Flatten(Collect(env, sources)))
            && MergedItems(env, sources) == []
            && LastBuildDate(env, MergedItems(env, sources)) == env.formatDate(env.now)
  {
    var sources := Configured(fetches);
    NothingFetched(env, sources);
    var merged := MergedItems(env, sources);
    assert multiset(merged) <= multiset(Flatten(Collect(env, sources)));
  }

  /** Sources that all failed contribute nothing to the merge. */
  lemma NothingFetched(env: Env, sources: seq<Source>)
    requires forall i :: 0 <= i < |sources| ==> sources[i].fetch.FetchFailed?
    ensures Flatten(Collect(env, sources)) == []
  {
    var all := Flatten(Collect(env, sources));
    if |all| > 0 {
      CollectedItems(env, sources, all[0]);
      assert false;
    }
  }
}
