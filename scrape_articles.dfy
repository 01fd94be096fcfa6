/**
 * scrape_articles.py: fetches each RSS article's page, joins the texts of
 * its `<p>` elements with single spaces, and keeps only the articles whose
 * scraped text is non-empty, with that text stored under "text". The HTTP
 * fetch and the HTML parse are the parameter `fetch`: the paragraph texts
 * in document order, or `None` when any exception was raised.
 */
module ScrapeArticles {
  import opened Basics
  import opened Text
  import opened Json

  /** `scrape_article(url)`: the paragraph texts joined by one space, or `None` on failure. */
  function ScrapeArticle(url: Value, fetch: Value -> Option<seq<string>>): (text: Option<string>)
    ensures text.None? <==> fetch(url).None?
  {
    match fetch(url)
    case None => None
    case Some(paragraphs) => Some(Join(paragraphs, " "))
  }

  /**
   * The scraped text holds the page's paragraphs verbatim and in document
   * order: paragraph `i` starts at `PartStart(paragraphs, " ", i)`, and a
   * single space follows every paragraph but the last.
   */
  lemma ScrapedTextOrder(url: Value, fetch: Value -> Option<seq<string>>, i: nat)
    requires fetch(url).Some? && i < |fetch(url).value|
    ensures var ps, text := fetch(url).value, ScrapeArticle(url, fetch).value;
      && PartStart(ps, " ", i) + |ps[i]| <= |text|
      && text[PartStart(ps, " ", i)..PartStart(ps, " ", i) + |ps[i]|] == ps[i]
      && (i + 1 < |ps| ==> PartStart(ps, " ", i) + |ps[i]| < |text| && text[PartStart(ps, " ", i) + |ps[i]|] == ' ')
  {
    var ps := fetch(url).value;
    JoinOrder(ps, " ", i);
    if i + 1 < |ps| {
      var e := PartStart(ps, " ", i) + |ps[i]|;
      assert Join(ps, " ")[e..e + 1] == " ";
      assert Join(ps, " ")[e] == Join(ps, " ")[e..e + 1][0];
    }
  }

  /** Python truthiness of `scrape_article`'s result: neither `None` nor "". */
  predicate Truthy(text: Option<string>) {
    text.Some? && text.value != ""
  }

  /** Whether a page's paragraphs give a non-empty text. */
  predicate HasText(paragraphs: seq<string>) {
    |paragraphs| > 1 || (|paragraphs| == 1 && paragraphs[0] != "")
  }

  /**
   * An article survives exactly when its page was fetched and parsed and
   * has either two or more paragraphs or one non-empty paragraph.
   */
  lemma TruthyIff(url: Value, fetch: Value -> Option<seq<string>>)
    ensures Truthy(ScrapeArticle(url, fetch)) <==> fetch(url).Some? && HasText(fetch(url).value)
  {
    if fetch(url).Some? {
      var ps := fetch(url).value;
      if |ps| > 1 {
        JoinLength(ps, " ");
      }
    }
  }

  /** The article with its "text" set and every other key unchanged (`art["text"] = text`). */
  function WithText(art: Record, text: string): (r: Record)
    ensures r.Keys == art.Keys + {"text"}
    ensures r["text"] == Str(text)
    ensures forall k :: k in art && k != "text" ==> r[k] == art[k]
  {
    art["text" := Str(text)]
  }

  /** Every article has a "url" (the driver reads `art["url"]`). */
  predicate HasUrls(articles: seq<Record>) {
    forall i :: 0 <= i < |articles| ==> "url" in articles[i]
  }

  /** The scrape result of one article. */
  function ScrapeOf(art: Record, fetch: Value -> Option<seq<string>>): Option<string>
    requires "url" in art
  {
    ScrapeArticle(art["url"], fetch)
  }

  /** Positions of the kept articles, in increasing order. */
  function KeptIndices(articles: seq<Record>, fetch: Value -> Option<seq<string>>): (kept: seq<nat>)
    requires HasUrls(articles)
    ensures forall j :: 0 <= j < |kept| ==> kept[j] < |articles|
    ensures forall j, k :: 0 <= j < k < |kept| ==> kept[j] < kept[k]
    ensures forall i :: 0 <= i < |articles| ==> (i in kept <==> Truthy(ScrapeOf(articles[i], fetch)))
  {
    if articles == [] then []
    else
      var n := |articles| - 1;
      KeptIndices(articles[..n], fetch) + (if Truthy(ScrapeOf(articles[n], fetch)) then [n] else [])
  }

  /** The `processed` list: the kept articles in input order, each with its scraped text. */
  function Scraped(articles: seq<Record>, fetch: Value -> Option<seq<string>>): (kept: seq<Record>)
    requires HasUrls(articles)
    ensures |kept| == |KeptIndices(articles, fetch)|
  {
    if articles == [] then []
    else
      var n := |articles| - 1;
      var text := ScrapeOf(articles[n], fetch);
      Scraped(articles[..n], fetch) + (if Truthy(text) then [WithText(articles[n], text.value)] else [])
  }

  /** Kept record `j` is the article at the `j`-th kept position, with its scraped text. */
  lemma {:induction false} ScrapedContents(articles: seq<Record>, fetch: Value -> Option<seq<string>>)
    requires HasUrls(articles)
    ensures forall j :: 0 <= j < |Scraped(articles, fetch)| ==>
      Scraped(articles, fetch)[j]
        == WithText(articles[KeptIndices(articles, fetch)[j]], ScrapeOf(articles[KeptIndices(articles, fetch)[j]], fetch).value)
  {
    if articles != [] {
      var n := |articles| - 1;
      var init := articles[..n];
      assert HasUrls(init) by {
        forall i | 0 <= i < n ensures "url" in init[i] {
          assert init[i] == articles[i];
        }
      }
      ScrapedContents(init, fetch);
      var idx0 := KeptIndices(init, fetch);
      var idx := KeptIndices(articles, fetch);
      var kept := Scraped(articles, fetch);
      var text := ScrapeOf(articles[n], fetch);
      assert kept == Scraped(init, fetch) + (if Truthy(text) then [WithText(articles[n], text.value)] else []);
      assert idx == idx0 + (if Truthy(text) then [n] else []);
      forall j | 0 <= j < |kept|
        ensures kept[j] == WithText(articles[idx[j]], ScrapeOf(articles[idx[j]], fetch).value)
      {
        if j < |idx0| {
          assert idx[j] == idx0[j];
          assert articles[idx0[j]] == init[idx0[j]];
        } else {
          assert idx[j] == n;
        }
      }
    }
  }

  /** The driver loop of scrape_articles.py. */
  method ScrapeArticles(rssArticles: seq<Record>, fetch: Value -> Option<seq<string>>) returns (processed: seq<Record>)
    requires HasUrls(rssArticles)
    ensures processed == Scraped(rssArticles, fetch)
  {
    processed := [];
    for i := 0 to |rssArticles|
      invariant processed == Scraped(rssArticles[..i], fetch)
    {
      var text := ScrapeArticle(rssArticles[i]["url"], fetch);
      if Truthy(text) {
        processed := processed + [rssArticles[i]["text" := Str(text.value)]];
      }
      assert rssArticles[..i + 1][..i] == rssArticles[..i];
    }
    assert rssArticles[..|rssArticles|] == rssArticles;
  }

  /** Scraping keeps distinct ids distinct: the kept list is a subsequence and ids are untouched. */
  lemma ScrapedDistinctIds(articles: seq<Record>, fetch: Value -> Option<seq<string>>)
    requires HasUrls(articles)
    requires DistinctIds(articles)
    ensures DistinctIds(Scraped(articles, fetch))
  {
    var kept := Scraped(articles, fetch);
    var idx := KeptIndices(articles, fetch);
    ScrapedContents(articles, fetch);
    forall j | 0 <= j < |kept|
      ensures "id" in kept[j] && kept[j]["id"] == articles[idx[j]]["id"]
    {
    }
  }
}
