/**
 * The stages are chained by their data files: fetch_rss.py writes
 * raw/rss_articles.json, which scrape_articles.py reads to write
 * processed/articles.json; process_articles.py turns that into news.json,
 * chunk_articles.py that into news_chunks.json, and generate_embeddings.py
 * stores those chunks. These lemmas show that every stage's input demands
 * are met by the previous stage's output, so that, given one non-empty
 * embedding per chunk, no `KeyError` is raised along the way, and that the
 * collection then holds one entry per chunk.
 */
module Pipeline {
  import opened Basics
  import opened Json
  import FetchRss
  import ScrapeArticles
  import ProcessArticles
  import ChunkArticles
  import GenerateEmbeddings

  /** The articles after scraping and projection. */
  function Cleaned(feeds: seq<FetchRss.Feed>, fetch: Value -> Option<seq<string>>): (cleaned: seq<Record>)
    ensures ChunkArticles.AllChunkable(cleaned)
  {
    var articles := FetchRss.Articles(feeds);
    FetchRss.ArticlesKeys(feeds);
    var scraped := ScrapeArticles.Scraped(articles, fetch);
    ScrapedKeys(articles, fetch);
    ProcessArticles.ProjectAll(scraped)
  }

  /** Scraping keeps every key and adds "text". */
  lemma ScrapedKeys(articles: seq<Record>, fetch: Value -> Option<seq<string>>)
    requires forall i :: 0 <= i < |articles| ==> articles[i].Keys == FetchRss.RssKeys
    ensures ScrapeArticles.HasUrls(articles)
    ensures var scraped := ScrapeArticles.Scraped(articles, fetch);
      && ProcessArticles.AllHaveRequiredKeys(scraped)
      && forall j :: 0 <= j < |scraped| ==> scraped[j].Keys == FetchRss.RssKeys + {"text"} && scraped[j]["text"].Str?
  {
    var scraped := ScrapeArticles.Scraped(articles, fetch);
    var idx := ScrapeArticles.KeptIndices(articles, fetch);
    ScrapeArticles.ScrapedContents(articles, fetch);
    forall j | 0 <= j < |scraped|
      ensures scraped[j].Keys == FetchRss.RssKeys + {"text"} && scraped[j]["text"].Str?
    {
      assert idx[j] < |articles|;
    }
    forall j | 0 <= j < |scraped|
      ensures ProcessArticles.HasRequiredKeys(scraped[j])
    {
      assert "id" in FetchRss.RssKeys && "title" in FetchRss.RssKeys && "url" in FetchRss.RssKeys;
    }
  }

  /**
   * Every cleaned article can be chunked, and the chunk ids of the whole
   * run are pairwise distinct: the article ids `str(1)`, `str(2)`, ... stay
   * distinct through scraping and projection.
   */
  lemma CleanedChunkable(feeds: seq<FetchRss.Feed>, fetch: Value -> Option<seq<string>>)
    ensures ChunkArticles.AllChunkable(Cleaned(feeds, fetch))
    ensures DistinctIds(Cleaned(feeds, fetch))
    ensures var chunks := ChunkArticles.AllChunks(Cleaned(feeds, fetch));
      forall p, q :: 0 <= p < q < |chunks| ==> chunks[p].chunkId != chunks[q].chunkId
  {
    var articles := FetchRss.Articles(feeds);
    FetchRss.ArticlesKeys(feeds);
    FetchRss.ArticlesDistinctIds(feeds);
    ScrapedKeys(articles, fetch);
    var scraped := ScrapeArticles.Scraped(articles, fetch);
    ScrapeArticles.ScrapedDistinctIds(articles, fetch);
    ProcessArticles.ProjectAllDistinctIds(scraped);
    var cleaned := Cleaned(feeds, fetch);
    forall i | 0 <= i < |cleaned|
      ensures ChunkArticles.Chunkable(cleaned[i])
    {
      assert cleaned[i]["text"] == Get(scraped[i], "text", Null);
    }
    ChunkArticles.ChunkIdsDistinct(cleaned);
  }

  /** The chunk list as generate_embeddings.py loads it: no chunk has an embedding yet. */
  function Unembedded(chunks: seq<ChunkArticles.ChunkRecord>): (stored: seq<GenerateEmbeddings.StoredChunk>)
    ensures |stored| == |chunks|
  {
    seq(|chunks|, i requires 0 <= i < |chunks| => GenerateEmbeddings.StoredChunk(chunks[i], None))
  }

  /**
   * For chunk records with distinct ids and at least one non-empty
   * embedding each, attaching and storing leaves one entry per chunk, under
   * that chunk's id.
   */
  lemma {:induction false} StoredEveryChunk(chunks: seq<ChunkArticles.ChunkRecord>, embeddings: seq<GenerateEmbeddings.Embedding>)
    requires forall p, q :: 0 <= p < q < |chunks| ==> chunks[p].chunkId != chunks[q].chunkId
    requires |embeddings| >= |chunks| && GenerateEmbeddings.PairedNonEmpty(|chunks|, embeddings)
    ensures var paired := GenerateEmbeddings.Paired(Unembedded(chunks), embeddings);
      && GenerateEmbeddings.EmbeddedPrefix(paired) == |chunks|
      && |GenerateEmbeddings.IndexOf(paired[..|chunks|])| == |chunks|
      && GenerateEmbeddings.IndexOf(paired[..|chunks|]).Keys == (set p | 0 <= p < |chunks| :: chunks[p].chunkId)
      && forall p :: 0 <= p < |chunks| ==>
        GenerateEmbeddings.IndexOf(paired[..|chunks|])[chunks[p].chunkId]
          == GenerateEmbeddings.EntryOf(GenerateEmbeddings.StoredChunk(chunks[p], Some(GenerateEmbeddings.Normalize(embeddings[p]))))
  {
    var stored := Unembedded(chunks);
    var paired := GenerateEmbeddings.Paired(stored, embeddings);
    GenerateEmbeddings.PairedAllEmbedded(stored, embeddings);
    assert paired[..|chunks|] == paired;
    forall p | 0 <= p < |chunks|
      ensures paired[p] == GenerateEmbeddings.StoredChunk(chunks[p], Some(GenerateEmbeddings.Normalize(embeddings[p])))
    {
      GenerateEmbeddings.PairedAt(stored, embeddings, p);
    }
    GenerateEmbeddings.IndexOfContents(paired);
    assert GenerateEmbeddings.ChunkIds(paired) == (set p | 0 <= p < |chunks| :: chunks[p].chunkId);
  }

  /**
   * When the embedding service returns a non-empty embedding for every
   * chunk text, the rebuilt collection holds exactly one entry per chunk of
   * the run, under that chunk's id, with the chunk's normalised embedding,
   * its text as document, and its title and article id as metadata.
   */
  lemma CollectionHoldsEveryChunk(feeds: seq<FetchRss.Feed>, fetch: Value -> Option<seq<string>>,
                                  embeddings: seq<GenerateEmbeddings.Embedding>)
    requires var chunks := ChunkArticles.AllChunks(Cleaned(feeds, fetch));
      |embeddings| >= |chunks| && GenerateEmbeddings.PairedNonEmpty(|chunks|, embeddings)
    ensures var chunks := ChunkArticles.AllChunks(Cleaned(feeds, fetch));
      var paired := GenerateEmbeddings.Paired(Unembedded(chunks), embeddings);
      && GenerateEmbeddings.EmbeddedPrefix(paired) == |chunks|
      && |GenerateEmbeddings.IndexOf(paired[..|chunks|])| == |chunks|
      && GenerateEmbeddings.IndexOf(paired[..|chunks|]).Keys == (set p | 0 <= p < |chunks| :: chunks[p].chunkId)
      && forall p :: 0 <= p < |chunks| ==>
        GenerateEmbeddings.IndexOf(paired[..|chunks|])[chunks[p].chunkId]
          == GenerateEmbeddings.EntryOf(GenerateEmbeddings.StoredChunk(chunks[p], Some(GenerateEmbeddings.Normalize(embeddings[p]))))
  {
    CleanedChunkable(feeds, fetch);
    StoredEveryChunk(ChunkArticles.AllChunks(Cleaned(feeds, fetch)), embeddings);
  }
}
