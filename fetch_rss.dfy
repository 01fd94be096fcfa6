/**
 * fetch_rss.py: reads every feed of `RSS_FEEDS`, takes at most the first 50
 * entries of each, and numbers the resulting article records "1", "2", ...
 * across all feeds. Fetching and parsing a feed (feedparser) is the
 * parameter `parse`.
 */
module FetchRss {
  import opened Basics
  import opened Text
  import opened Json

  /** One parsed feed entry; `published` and `summary` may be absent. */
  datatype Entry = Entry(title: string, link: string, published: Option<string>, summary: Option<string>)

  /** One parsed feed: its channel title, if any, and its entries in feed order. */
  datatype Feed = Feed(title: Option<string>, entries: seq<Entry>)

  /** Entries taken from each feed (`feed.entries[:50]`). */
  const MaxPerFeed: nat := 50

  /**
   * The feed list exactly as written: there is no comma after the CNN URL,
   * so Python concatenates it with the Dow Jones URL and the list holds
   * seven strings.
   */
  const RssFeeds: seq<string> := [
    "http://feeds.bbci.co.uk/news/rss.xml",
    "https://rss.cnn.com/rss/edition.rss" + "https://feeds.a.dj.com/rss/RSSMarketsMain.xml",
    "https://www.investing.com/rss/news_25.rss",
    "https://www.moneycontrol.com/rss/MCtopnews.xml",
    "https://economictimes.indiatimes.com/markets/rssfeeds/1977021501.cms",
    "https://www.marketwatch.com/rss/topstories",
    "https://finance.yahoo.com/news/rssindex"
  ]

  /** The keys of an article record written by this stage. */
  const RssKeys: set<string> := {"id", "title", "url", "published", "source", "summary"}

  /** `feed.feed.get("title", "Unknown")`. */
  function SourceOf(feed: Feed): string {
    match feed.title
    case Some(t) => t
    case None => "Unknown"
  }

  /** `feed.entries[:50]`: the first 50 entries, or all of them when there are fewer. */
  function Taken(feed: Feed): (es: seq<Entry>)
    ensures |es| <= MaxPerFeed
    ensures es <= feed.entries
    ensures |feed.entries| <= MaxPerFeed ==> es == feed.entries
    ensures |feed.entries| > MaxPerFeed ==> |es| == MaxPerFeed
  {
    feed.entries[..Min(MaxPerFeed, |feed.entries|)]
  }

  /** The record appended for one entry with the numeric id `id`. */
  function EntryRecord(entry: Entry, source: string, id: nat): (r: Record)
    ensures r.Keys == RssKeys
  {
    map[
      "id" := Str(NatToString(id)),
      "title" := Str(entry.title),
      "url" := Str(entry.link),
      "published" := (match entry.published case Some(p) => Str(p) case None => Null),
      "source" := Str(source),
      "summary" := Str(match entry.summary case Some(s) => s case None => "")
    ]
  }

  /** The defaults: missing `published` is `None`, missing feed title is "Unknown", missing summary is "". */
  lemma EntryRecordDefaults(entry: Entry, feed: Feed, id: nat)
    ensures var r := EntryRecord(entry, SourceOf(feed), id);
      && r["id"] == Str(NatToString(id))
      && r["title"] == Str(entry.title)
      && r["url"] == Str(entry.link)
      && (entry.published.None? ==> r["published"] == Null)
      && (entry.published.Some? ==> r["published"] == Str(entry.published.value))
      && (feed.title.None? ==> r["source"] == Str("Unknown"))
      && (feed.title.Some? ==> r["source"] == Str(feed.title.value))
      && (entry.summary.None? ==> r["summary"] == Str(""))
      && (entry.summary.Some? ==> r["summary"] == Str(entry.summary.value))
  {
  }

  /** The number of entries taken over all feeds: the sum of `min(50, len(entries))`. */
  function TakenCount(feeds: seq<Feed>): nat {
    if feeds == [] then 0
    else TakenCount(feeds[..|feeds| - 1]) + |Taken(feeds[|feeds| - 1])|
  }

  /** The records of one feed, numbered from `firstId`. */
  function FeedRecords(feed: Feed, firstId: nat): (rs: seq<Record>)
    ensures |rs| == |Taken(feed)|
  {
    var es := Taken(feed);
    seq(|es|, i requires 0 <= i < |es| => EntryRecord(es[i], SourceOf(feed), firstId + i))
  }

  /** All records, feed by feed in list order and entry by entry within a feed, numbered from 1. */
  function Articles(feeds: seq<Feed>): (articles: seq<Record>)
    ensures |articles| == TakenCount(feeds)
  {
    if feeds == [] then []
    else
      var init := feeds[..|feeds| - 1];
      Articles(init) + FeedRecords(feeds[|feeds| - 1], 1 + TakenCount(init))
  }

  /** The feeds `parse` returns for `urls`, in list order. */
  function ParsedFeeds(urls: seq<string>, parse: string -> Feed): (feeds: seq<Feed>)
    ensures |feeds| == |urls|
  {
    seq(|urls|, i requires 0 <= i < |urls| => parse(urls[i]))
  }

  /** Appending one feed to the list appends its records, numbered after the earlier ones. */
  lemma ArticlesSnoc(feeds: seq<Feed>, f: nat)
    requires f < |feeds|
    ensures Articles(feeds[..f + 1]) == Articles(feeds[..f]) + FeedRecords(feeds[f], 1 + |Articles(feeds[..f])|)
  {
    assert feeds[..f + 1][..f] == feeds[..f];
  }

  /** The nested loop of `fetch_rss_articles()` over a list of feed URLs. */
  method FetchArticles(urls: seq<string>, parse: string -> Feed) returns (articles: seq<Record>)
    ensures articles == Articles(ParsedFeeds(urls, parse))
  {
    ghost var feeds := ParsedFeeds(urls, parse);
    articles := [];
    var articleId := 1;
    for f := 0 to |urls|
      invariant articles == Articles(feeds[..f])
      invariant articleId == 1 + |articles|
    {
      var feed := parse(urls[f]);
      articles, articleId := AppendFeed(articles, feed, articleId);
      ArticlesSnoc(feeds, f);
    }
    assert feeds[..|urls|] == feeds;
  }

  /**
   * The inner loop over `feed.entries[:50]`: appends one record per entry,
   * numbered from `firstId`, and returns the next free number.
   */
  method AppendFeed(articles: seq<Record>, feed: Feed, firstId: nat) returns (extended: seq<Record>, nextId: nat)
    ensures extended == articles + FeedRecords(feed, firstId)
    ensures nextId == firstId + |Taken(feed)|
  {
    var entries := feed.entries[..Min(MaxPerFeed, |feed.entries|)];
    ghost var records := FeedRecords(feed, firstId);
    extended, nextId := articles, firstId;
    for j := 0 to |entries|
      invariant nextId == firstId + j
      invariant extended == articles + records[..j]
    {
      assert records[..j + 1] == records[..j] + [records[j]];
      extended := extended + [EntryRecord(entries[j], SourceOf(feed), nextId)];
      nextId := nextId + 1;
    }
    assert records[..|entries|] == records;
  }

  /** `fetch_rss_articles()`: every feed of `RssFeeds`, in list order. */
  method FetchRssArticles(parse: string -> Feed) returns (articles: seq<Record>)
    ensures articles == Articles(ParsedFeeds(RssFeeds, parse))
  {
    articles := FetchArticles(RssFeeds, parse);
  }

  /** At most 50 records come from each feed. */
  lemma {:induction false} TakenCountBound(feeds: seq<Feed>)
    ensures TakenCount(feeds) <= MaxPerFeed * |feeds|
  {
    if feeds != [] {
      TakenCountBound(feeds[..|feeds| - 1]);
    }
  }

  /** The record at position `i` has the id `str(i + 1)`. */
  lemma {:induction false} ArticleIds(feeds: seq<Feed>, i: nat)
    requires i < |Articles(feeds)|
    ensures "id" in Articles(feeds)[i]
    ensures Articles(feeds)[i]["id"] == Str(NatToString(i + 1))
  {
    var init := feeds[..|feeds| - 1];
    var k := |Articles(init)|;
    if i < k {
      ArticleIds(init, i);
    } else {
      var es := Taken(feeds[|feeds| - 1]);
      assert Articles(feeds)[i] == EntryRecord(es[i - k], SourceOf(feeds[|feeds| - 1]), 1 + k + (i - k));
    }
  }

  /** Every record has exactly the keys id, title, url, published, source and summary. */
  lemma {:induction false} ArticlesKeys(feeds: seq<Feed>)
    ensures forall i :: 0 <= i < |Articles(feeds)| ==> Articles(feeds)[i].Keys == RssKeys
  {
    if feeds != [] {
      var init := feeds[..|feeds| - 1];
      ArticlesKeys(init);
      var k := |Articles(init)|;
      forall i | k <= i < |Articles(feeds)|
        ensures Articles(feeds)[i].Keys == RssKeys
      {
        assert Articles(feeds)[i] == FeedRecords(feeds[|feeds| - 1], 1 + k)[i - k];
      }
    }
  }

  /** The ids are pairwise distinct strings. */
  lemma ArticlesDistinctIds(feeds: seq<Feed>)
    ensures DistinctIds(Articles(feeds))
  {
    var arts: seq<Record> := Articles(feeds);
    forall i | 0 <= i < |arts|
      ensures "id" in arts[i] && arts[i]["id"].Str?
    {
      ArticleIds(feeds, i);
    }
    forall i, j | 0 <= i < j < |arts|
      ensures arts[i]["id"] != arts[j]["id"]
    {
      ArticleIds(feeds, i);
      ArticleIds(feeds, j);
      if arts[i]["id"] == arts[j]["id"] {
        NatToStringInjective(i + 1, j + 1);
      }
    }
  }

  /** The records of the first `m` feeds are a prefix of all records. */
  lemma {:induction false} ArticlesPrefix(feeds: seq<Feed>, m: nat)
    requires m <= |feeds|
    ensures Articles(feeds[..m]) <= Articles(feeds)
    ensures TakenCount(feeds[..m]) <= TakenCount(feeds)
    decreases |feeds|
  {
    if m < |feeds| {
      var init := feeds[..|feeds| - 1];
      assert init[..m] == feeds[..m];
      ArticlesPrefix(init, m);
    } else {
      assert feeds[..m] == feeds;
    }
  }

  /**
   * Order and provenance: entry `j` of feed `f` (necessarily one of the first
   * 50) becomes the record right after all records of the earlier feeds.
   */
  lemma ArticleAt(feeds: seq<Feed>, f: nat, j: nat)
    requires f < |feeds|
    requires j < |Taken(feeds[f])|
    ensures j < MaxPerFeed && j < |feeds[f].entries|
    ensures var pos := TakenCount(feeds[..f]) + j;
      && pos < |Articles(feeds)|
      && Articles(feeds)[pos] == EntryRecord(feeds[f].entries[j], SourceOf(feeds[f]), pos + 1)
  {
    var head := Articles(feeds[..f]);
    var records := FeedRecords(feeds[f], 1 + |head|);
    ArticlesSnoc(feeds, f);
    ArticlesPrefix(feeds, f + 1);
    PrefixIndex(Articles(feeds), head, records, j);
  }

  /**
   * The literal list has seven elements, and neither the CNN feed nor the
   * Dow Jones feed is among them on its own.
   */
  lemma RssFeedsAsWritten()
    ensures |RssFeeds| == 7
    ensures "https://rss.cnn.com/rss/edition.rss" !in RssFeeds
    ensures "https://feeds.a.dj.com/rss/RSSMarketsMain.xml" !in RssFeeds
  {
  }
}
