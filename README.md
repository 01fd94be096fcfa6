# News RAG pipeline: the data-shaping core in Dafny

The rag-news-ingestion pipeline turns RSS feeds into a vector index for
question answering. It runs as five batch scripts, each reading the previous
one's JSON file, followed by an interactive chat script:

1. `fetch_rss.py` takes up to 50 entries from each feed of `RSS_FEEDS`. It
   numbers the article records "1", "2", … across all feeds, with defaults
   for a missing published date, feed title or summary.
2. `scrape_articles.py` fetches every article page and joins its `<p>` texts
   with single spaces. It keeps only the articles whose text is non-empty.
3. `process_articles.py` projects each article onto the schema
   `id, title, url, published, source, text`.
4. `chunk_articles.py` cuts each text into chunks of 200 whitespace-separated
   words. Each chunk gets the id `"{article id}_{position}"`.
5. `generate_embeddings.py` embeds every chunk and attaches the vector,
   flattening one level of nesting. It then rebuilds the `news_chunks`
   collection from scratch, with one entry per chunk.
6. `rag_chat.py` embeds a question and retrieves documents. It joins them
   with blank lines into a context and sends a fixed prompt to the model. Its
   loop stops on `exit` or `quit` in any case.

Each script is one Dafny module: `FetchRss`, `ScrapeArticles`,
`ProcessArticles`, `ChunkArticles`, `GenerateEmbeddings` and `RagChat`.
Shared modules support them:
- `Text` models Python's `str.split()`, `join`, `str(n)` and `lower()`.
- `Json` models records as maps from key to string-or-`None`.
- `Basics` holds `Option`, `Min` and two facts about slices.

The `Pipeline` module connects the stages. It proves that each stage's
output meets the next stage's input requirements, so that, given one
non-empty embedding per chunk, no `KeyError` is raised. It also proves that
chunk ids are unique over a whole run, and that the rebuilt collection holds
exactly one entry per chunk, under that chunk's id and with its contents.

Loops that build lists become methods with `for`/`while` loops. Each such
method is proved equal to a specification function:
- `FetchArticles` equals `Articles`;
- `ScrapeArticles` equals `Scraped`;
- `ProcessArticles` equals `ProjectAll`;
- `ChunkAll` equals `AllChunks`.

The in-place `chunk["embedding"] = emb` loop becomes a method over an
`array`. The vector store is a class whose `collections` field maps each
collection name to a map from entry id to entry. The network services are
function parameters:
- feedparser is `parse`;
- requests with BeautifulSoup is `fetch`;
- Jina is `embedDocuments` and `embedQuery`;
- the Chroma query is `retrieve`;
- Gemini is `generate`.

## Model

| member | source | states |
|---|---|---|
| Text.IsSpace | rag-news-ingestion/scripts/chunk_articles.py:5 | exactly the characters Python's `str.isspace` accepts, where `split()` with no argument cuts |
| Text.Split | rag-news-ingestion/scripts/chunk_articles.py:5 | every word `split()` returns is non-empty and free of whitespace |
| Text.SplitKeepsNonSpace | rag-news-ingestion/scripts/chunk_articles.py:5 | the words of `s.split()` put back together in order are exactly the non-whitespace characters of `s`, whatever the whitespace |
| Text.SplitCons | rag-news-ingestion/scripts/chunk_articles.py:5 | a word followed by whitespace or by nothing is split off whole, before the words of what follows |
| Text.SplitAtSpace | rag-news-ingestion/scripts/chunk_articles.py:5 | every whitespace character separates words: the split of `a + [c] + b` is the split of `a` followed by the split of `b` |
| Text.SplitEmptyIff | rag-news-ingestion/scripts/chunk_articles.py:5 | `text.split()` is empty exactly when the text is empty or whitespace only |
| Text.SplitJoin | rag-news-ingestion/scripts/chunk_articles.py:5-7 | splitting words joined by single spaces gives back exactly those words |
| Text.JoinSingleSpaced | rag-news-ingestion/scripts/chunk_articles.py:7 | a non-empty list of words joined by " " has no leading or trailing whitespace, and its only whitespace is single spaces between words |
| Text.Join | rag-news-ingestion/scripts/scrape_articles.py:12 | Python's `sep.join(parts)`; its length is given by `JoinLength` and its layout by `JoinOrder` |
| Text.JoinLength | rag-news-ingestion/scripts/rag_chat.py:54 | a join is as long as the parts together plus one separator per adjacent pair |
| Text.TotalLengthSnoc | rag-news-ingestion/scripts/rag_chat.py:54 | one more part adds its length to the total |
| Text.PartStartNext | rag-news-ingestion/scripts/rag_chat.py:54 | each part starts one separator after the end of the previous one |
| Text.PartStartShift | rag-news-ingestion/scripts/rag_chat.py:54 | past the first part and its separator, part positions are those in the remaining parts |
| Text.JoinOrder | rag-news-ingestion/scripts/scrape_articles.py:12 | for any separator, every part appears verbatim at its start position, in order, with the separator after all but the last |
| Text.NatToString | rag-news-ingestion/scripts/fetch_rss.py:25 | `str(n)` is a non-empty string of decimal digits that starts with "0" only for 0 itself |
| Text.ParseNatToString | rag-news-ingestion/scripts/fetch_rss.py:25 | reading the digits of `str(n)` back gives `n` |
| Text.NatToStringInjective | rag-news-ingestion/scripts/fetch_rss.py:25 | distinct counters give distinct id strings |
| Text.Lower | rag-news-ingestion/scripts/rag_chat.py:77 | `lower()` keeps the length and lower-cases each character |
| Json.Get | rag-news-ingestion/scripts/process_articles.py:21-22 | `get` returns the stored value when the key is present and the default otherwise |
| Json.Format | rag-news-ingestion/scripts/chunk_articles.py:25 | a string id is interpolated as itself |
| FetchRss.Taken | rag-news-ingestion/scripts/fetch_rss.py:23 | `entries[:50]` is a prefix of the entries: all of them when there are at most 50, otherwise exactly 50 |
| FetchRss.EntryRecord | rag-news-ingestion/scripts/fetch_rss.py:24-31 | every record has exactly the keys id, title, url, published, source, summary |
| FetchRss.SourceOf | rag-news-ingestion/scripts/fetch_rss.py:29 | `feed.feed.get("title", "Unknown")`: the feed's title when it has one, else "Unknown"; `EntryRecordDefaults` states it in the record |
| FetchRss.EntryRecordDefaults | rag-news-ingestion/scripts/fetch_rss.py:24-31 | the id is `str(n)`; title and url come from the entry; a missing published date is `None`, a missing feed title is "Unknown", a missing summary is "" |
| FetchRss.FeedRecords | rag-news-ingestion/scripts/fetch_rss.py:23-32 | one record per taken entry of the feed |
| FetchRss.Articles | rag-news-ingestion/scripts/fetch_rss.py:16-34 | the number of records is the sum over feeds of min(50, entries) |
| FetchRss.ParsedFeeds | rag-news-ingestion/scripts/fetch_rss.py:20-21 | one parsed feed per URL |
| FetchRss.ArticlesSnoc | rag-news-ingestion/scripts/fetch_rss.py:20-32 | processing one more feed appends its records, numbered right after the earlier ones |
| FetchRss.FetchArticles | rag-news-ingestion/scripts/fetch_rss.py:16-34 | the nested loop with its running counter produces exactly `Articles` of the parsed feeds |
| FetchRss.AppendFeed | rag-news-ingestion/scripts/fetch_rss.py:23-32 | the inner loop over one feed appends exactly that feed's records and advances the counter by the number taken |
| FetchRss.FetchRssArticles | rag-news-ingestion/scripts/fetch_rss.py:16-34 | `fetch_rss_articles()` is that loop over the literal feed list |
| FetchRss.TakenCountBound | rag-news-ingestion/scripts/fetch_rss.py:23 | at most 50 records per feed |
| FetchRss.ArticleIds | rag-news-ingestion/scripts/fetch_rss.py:18-32 | the record at position i has id `str(i + 1)`, so ids run 1, 2, … with no gap across feeds |
| FetchRss.ArticlesKeys | rag-news-ingestion/scripts/fetch_rss.py:24-31 | every produced record has exactly the six RSS keys |
| FetchRss.ArticlesDistinctIds | rag-news-ingestion/scripts/fetch_rss.py:18-32 | all article ids are distinct strings |
| FetchRss.ArticlesPrefix | rag-news-ingestion/scripts/fetch_rss.py:20-32 | the records of the first m feeds are a prefix of all records |
| FetchRss.ArticleAt | rag-news-ingestion/scripts/fetch_rss.py:20-32 | entry j of feed f lands right after the earlier feeds' records, with its own fields and that position's id |
| FetchRss.RssFeedsAsWritten | rag-news-ingestion/scripts/fetch_rss.py:5-14 | the literal has seven elements and holds neither the CNN nor the Dow Jones URL on its own |
| ScrapeArticles.ScrapeArticle | rag-news-ingestion/scripts/scrape_articles.py:6-15 | the result is `None` exactly when the fetch or parse failed |
| ScrapeArticles.ScrapedTextOrder | rag-news-ingestion/scripts/scrape_articles.py:11-12 | the scraped text holds every paragraph verbatim in document order, with a single space after all but the last |
| ScrapeArticles.Truthy | rag-news-ingestion/scripts/scrape_articles.py:30 | `if text:` holds for a result that is neither `None` nor the empty string; `TruthyIff` states when that happens |
| ScrapeArticles.TruthyIff | rag-news-ingestion/scripts/scrape_articles.py:6-15 | the scraped text is truthy exactly when the page was fetched and has two or more paragraphs or one non-empty one |
| ScrapeArticles.WithText | rag-news-ingestion/scripts/scrape_articles.py:31 | `art["text"] = text` adds or replaces "text" and keeps every other key and value |
| ScrapeArticles.KeptIndices | rag-news-ingestion/scripts/scrape_articles.py:27-32 | the kept positions are strictly increasing, and a position is kept exactly when its scrape is truthy |
| ScrapeArticles.Scraped | rag-news-ingestion/scripts/scrape_articles.py:27-32 | one output record per kept position |
| ScrapeArticles.ScrapedContents | rag-news-ingestion/scripts/scrape_articles.py:27-32 | output j is, in input order, the j-th kept article with its scraped text |
| ScrapeArticles.ScrapeArticles | rag-news-ingestion/scripts/scrape_articles.py:27-32 | the filter loop produces exactly `Scraped` |
| ScrapeArticles.ScrapedDistinctIds | rag-news-ingestion/scripts/scrape_articles.py:27-32 | filtering keeps article ids distinct |
| ProcessArticles.Project | rag-news-ingestion/scripts/process_articles.py:17-24 | the record has exactly the six schema keys, each holding the input's value or `None` |
| ProcessArticles.ProjectIdempotent | rag-news-ingestion/scripts/process_articles.py:17-24 | projecting a projected record changes nothing |
| ProcessArticles.ProjectAll | rag-news-ingestion/scripts/process_articles.py:15-24 | same length and order, record i being the projection of article i |
| ProcessArticles.ProcessArticles | rag-news-ingestion/scripts/process_articles.py:15-24 | the loop produces exactly `ProjectAll` |
| ProcessArticles.ProjectAllIdempotent | rag-news-ingestion/scripts/process_articles.py:15-24 | re-running the stage on its own output changes nothing |
| ProcessArticles.ProjectAllDistinctIds | rag-news-ingestion/scripts/process_articles.py:15-24 | projection keeps article ids distinct |
| ChunkArticles.ChunkText | rag-news-ingestion/scripts/chunk_articles.py:4-7 | a zero size is the `ValueError` (`None`), a negative size gives no chunks, and a positive size gives one chunk per word group |
| ChunkArticles.Groups | rag-news-ingestion/scripts/chunk_articles.py:5-7 | each word group has 1 to `chunk_size` words, all but the last exactly `chunk_size`, and there are none exactly when there are no words |
| ChunkArticles.GroupsFlatten | rag-news-ingestion/scripts/chunk_articles.py:5-7 | the groups concatenated in order are the word list |
| ChunkArticles.GroupCount | rag-news-ingestion/scripts/chunk_articles.py:6 | there are ceil(words / size) groups |
| ChunkArticles.GroupAt | rag-news-ingestion/scripts/chunk_articles.py:6-7 | group i is `words[i*size : i*size+size]` |
| ChunkArticles.GroupsOfWords | rag-news-ingestion/scripts/chunk_articles.py:5-7 | every element of every group is a word |
| ChunkArticles.Chunks | rag-news-ingestion/scripts/chunk_articles.py:6-7 | one chunk text per word group |
| ChunkArticles.ChunkTextRoundTrip | rag-news-ingestion/scripts/chunk_articles.py:4-7 | re-splitting each chunk gives its word group, and the chunks' words in order are `text.split()` |
| ChunkArticles.ChunkCount | rag-news-ingestion/scripts/chunk_articles.py:5-6 | ceil(words / size) chunks, none exactly when the text is empty or whitespace only |
| ChunkArticles.ChunkSizes | rag-news-ingestion/scripts/chunk_articles.py:6-7 | each chunk holds 1 to `size` words, all but the last exactly `size` |
| ChunkArticles.ChunkTextSpacing | rag-news-ingestion/scripts/chunk_articles.py:7 | each chunk's only whitespace is single spaces between words, with none leading or trailing |
| ChunkArticles.ChunkId | rag-news-ingestion/scripts/chunk_articles.py:25 | the id is the formatted article id, then "_", then exactly `str(idx)` (no leading zeros), which reads back as the position |
| ChunkArticles.ChunkIdInjective | rag-news-ingestion/scripts/chunk_articles.py:25 | a chunk id determines the article id string and the position |
| ChunkArticles.Numbered | rag-news-ingestion/scripts/chunk_articles.py:22-28 | one record per chunk of the article |
| ChunkArticles.ArticleChunks | rag-news-ingestion/scripts/chunk_articles.py:22-28 | one record per chunk text of the article, each with the article's id and title |
| ChunkArticles.AllChunksSnoc | rag-news-ingestion/scripts/chunk_articles.py:21-28 | one more article appends its records after the earlier ones |
| ChunkArticles.AllChunks | rag-news-ingestion/scripts/chunk_articles.py:20-28 | the records of all articles in input order; positions are given by `ChunkAt` and `ChunkOwner` |
| ChunkArticles.ChunkAll | rag-news-ingestion/scripts/chunk_articles.py:20-28 | the nested loop produces exactly `AllChunks` |
| ChunkArticles.AppendNumbered | rag-news-ingestion/scripts/chunk_articles.py:22-28 | the `enumerate` loop appends the article's records numbered from 0 |
| ChunkArticles.AllChunksPrefix | rag-news-ingestion/scripts/chunk_articles.py:21-28 | the records of the first m articles are a prefix of all records |
| ChunkArticles.ArticleChunksAt | rag-news-ingestion/scripts/chunk_articles.py:22-28 | record idx of one article keeps the article's id and title, has id `"{id}_{idx}"` and chunk text idx |
| ChunkArticles.ChunkAt | rag-news-ingestion/scripts/chunk_articles.py:21-28 | record idx of article a sits right after the earlier articles' records |
| ChunkArticles.ChunkOwner | rag-news-ingestion/scripts/chunk_articles.py:21-28 | every output record is record idx of some article a, with idx within that article's chunks and the record equal to that article's record idx (so it has the article's id and title, and the id `"{id}_{idx}"`) |
| ChunkArticles.ChunkIdsDistinct | rag-news-ingestion/scripts/chunk_articles.py:21-28 | articles with distinct ids give chunks with distinct chunk ids |
| GenerateEmbeddings.Normalize | rag-news-ingestion/scripts/generate_embeddings.py:44-45 | `emb[0]` when that is a list, otherwise the embedding itself; its meaning is stated by `NormalizeFlat`, `NormalizeNested` and `NormalizeOneLevel` |
| GenerateEmbeddings.NormalizeFlat | rag-news-ingestion/scripts/generate_embeddings.py:44-46 | a flat vector is stored unchanged |
| GenerateEmbeddings.NormalizeNested | rag-news-ingestion/scripts/generate_embeddings.py:44-45 | a list whose first element is a list becomes that inner list, and everything after it is dropped |
| GenerateEmbeddings.NormalizeOneLevel | rag-news-ingestion/scripts/generate_embeddings.py:44-46 | `[[x, …]]` becomes flat, and normalising that result again changes nothing |
| GenerateEmbeddings.Texts | rag-news-ingestion/scripts/generate_embeddings.py:39 | same length and order as the chunks, text i being chunk i's `text_chunk` |
| GenerateEmbeddings.Paired | rag-news-ingestion/scripts/generate_embeddings.py:42-46 | the chunk list keeps its length |
| GenerateEmbeddings.PairedAt | rag-news-ingestion/scripts/generate_embeddings.py:42-46 | pairing is positional: chunk i gets normalised embedding i when one exists, and is otherwise unchanged |
| GenerateEmbeddings.AttachEmbeddings | rag-news-ingestion/scripts/generate_embeddings.py:42-46 | the in-place loop leaves the array equal to `Paired` of its old contents |
| GenerateEmbeddings.EntryOf | rag-news-ingestion/scripts/generate_embeddings.py:64-72 | the entry one `add` call stores for a chunk: its embedding, its text as document, and title and article id as metadata |
| GenerateEmbeddings.IndexOf | rag-news-ingestion/scripts/generate_embeddings.py:63-72 | the collection after adding the chunks one by one to an empty one; its keys and entries are stated by `IndexOfKeys` and `IndexOfContents` |
| GenerateEmbeddings.EmbeddedPrefix | rag-news-ingestion/scripts/generate_embeddings.py:63-72 | the add loop reaches the first chunk without an embedding, or the end |
| GenerateEmbeddings.EmbeddedPrefixAt | rag-news-ingestion/scripts/generate_embeddings.py:63-72 | an all-embedded prefix followed by an unembedded chunk or the end is that position |
| GenerateEmbeddings.IndexOfKeys | rag-news-ingestion/scripts/generate_embeddings.py:63-72 | the stored ids are exactly the chunks' ids |
| GenerateEmbeddings.IndexOfContents | rag-news-ingestion/scripts/generate_embeddings.py:63-72 | with unique ids: one entry per chunk under its chunk id, with its embedding, its text as document, and title and article id as metadata |
| GenerateEmbeddings.AddNext | rag-news-ingestion/scripts/generate_embeddings.py:63-72 | each added chunk id is new to the collection |
| GenerateEmbeddings.Client.constructor | rag-news-ingestion/scripts/generate_embeddings.py:53 | `chromadb.PersistentClient(...)` opens the store with the collections it already holds |
| GenerateEmbeddings.Client.DeleteCollection | rag-news-ingestion/scripts/generate_embeddings.py:58-59 | only the named collection is removed |
| GenerateEmbeddings.Client.CreateCollection | rag-news-ingestion/scripts/generate_embeddings.py:61 | the named collection now exists and is empty |
| GenerateEmbeddings.Client.Add | rag-news-ingestion/scripts/generate_embeddings.py:64-72 | one new entry in the named collection, nothing else changes |
| GenerateEmbeddings.StoreChunks | rag-news-ingestion/scripts/generate_embeddings.py:57-72 | "news_chunks" ends up as the index of the embedded prefix of the chunks, whatever it held before, and other collections are untouched; re-running gives the same collection |
| GenerateEmbeddings.GenerateEmbeddings | rag-news-ingestion/scripts/generate_embeddings.py:39-72 | the array is paired with the embeddings of its texts, and the collection is rebuilt from it |
| GenerateEmbeddings.PairedAllEmbedded | rag-news-ingestion/scripts/generate_embeddings.py:42-72 | with at least one embedding per chunk, every chunk is embedded and stored |
| GenerateEmbeddings.PairedShort | rag-news-ingestion/scripts/generate_embeddings.py:42-72 | with fewer embeddings than chunks, exactly as many chunks as embeddings are stored before the `KeyError` |
| RagChat.Context | rag-news-ingestion/scripts/rag_chat.py:54 | `"\n\n".join(documents)`; its length and layout are stated by `ContextLength` and `ContextOrder` |
| RagChat.ContextEmpty | rag-news-ingestion/scripts/rag_chat.py:54 | no documents give the empty context |
| RagChat.ContextLength | rag-news-ingestion/scripts/rag_chat.py:54 | the context's length is the documents' total length plus 2·(n−1) |
| RagChat.DocumentStartNext | rag-news-ingestion/scripts/rag_chat.py:54 | each document starts two characters after the previous one ends |
| RagChat.ContextOrder | rag-news-ingestion/scripts/rag_chat.py:54 | each document appears verbatim in retrieval order, with "\n\n" after all but the last |
| RagChat.Prompt | rag-news-ingestion/scripts/rag_chat.py:57-65 | the prompt template filled with the question and the context; its layout is stated by `PromptLayout` |
| RagChat.PromptLayout | rag-news-ingestion/scripts/rag_chat.py:57-65 | the prompt is the two instruction lines, "Question: " and the query, "Context:" and the context, then "Answer:"; the question precedes the context |
| RagChat.RagQuery | rag-news-ingestion/scripts/rag_chat.py:41-68 | the answer is the model's text for the prompt built from the first query's documents; `n_results` defaults to 10 |
| RagChat.IsExitCommand | rag-news-ingestion/scripts/rag_chat.py:77 | `query.lower() in ["exit", "quit"]`; `ExitCommandIff` states which inputs pass |
| RagChat.ExitCommandIff | rag-news-ingestion/scripts/rag_chat.py:77 | the exit test holds exactly for the four letters of "exit" or of "quit", each in either case, and for nothing else |
| RagChat.Repl | rag-news-ingestion/scripts/rag_chat.py:75-80 | each input before the first exit command is answered in order; the loop stops at that command |
| Pipeline.Cleaned | rag-news-ingestion/scripts/process_articles.py:15-24 | the articles after fetching, scraping and projection all have the keys the chunker reads |
| Pipeline.ScrapedKeys | rag-news-ingestion/scripts/scrape_articles.py:27-32 | RSS records have the "url" the scraper reads; kept records have the RSS keys plus a string "text" |
| Pipeline.CleanedChunkable | rag-news-ingestion/scripts/chunk_articles.py:21-28 | after fetch, scrape and projection, every article has the keys the chunker reads, and the run's chunk ids are distinct |
| Pipeline.Unembedded | rag-news-ingestion/scripts/generate_embeddings.py:26-27 | one unembedded chunk per loaded record |
| Pipeline.StoredEveryChunk | rag-news-ingestion/scripts/generate_embeddings.py:39-72 | chunks with distinct ids and one non-empty embedding each end up as exactly one entry each, under their ids, with their normalised embedding, text, title and article id |
| Pipeline.CollectionHoldsEveryChunk | rag-news-ingestion/scripts/generate_embeddings.py:39-72 | over a whole run with full embeddings, the collection has exactly one entry per chunk of the run, under that chunk's id, holding that chunk's embedding, text, title and article id |

## Left out

- I/O: JSON files, directories, `print`, `.env` loading and the API-key checks are not modelled. Values pass directly between the stages.
- Network services become function parameters: feedparser, requests with BeautifulSoup, Jina embeddings, Chroma and Gemini. Their internal behaviour is not modelled: parsing, HTML extraction, timeouts, similarity search and model output.
- Chroma: only the collection-level effects of `list_collections`, `delete_collection`, `create_collection` and `add` are modelled. Persistence, embedding-dimension checks and metadata validation are not.
- Json.Value: JSON values are limited to strings and `None`, since those are the only values the pipeline writes. Floats in embeddings are Dafny `real`.
- FetchRss.Entry: `entry.title` and `entry.link` are always present. feedparser raises or substitutes for them in ways that are not modelled.
- ScrapeArticles.ScrapeArticle: the `print` in the failure branch is dropped. The scraper assigns `text` into the same dict it appends, so the input list is mutated too. The model returns new records and does not show that aliasing, which nothing later observes.
- Text.Lower: only ASCII letters are lowered. This is exact for the exit test: no non-ASCII character lowers to exactly one ASCII letter of "exit" or "quit" (U+0130 lowers to two characters, which makes the string longer than the word).
- ChunkArticles.ChunkText: `chunk_size = 0` raises `ValueError` and is `None`; a negative size gives no chunks. The driver always passes 200.
- Missing dictionary keys (`KeyError`) and `emb[0]` on an empty embedding (`IndexError`) are preconditions. The exception is the `KeyError` on a missing `chunk["embedding"]`, which is modelled as the add loop stopping there.
- Chroma's behaviour on adding an id that is already stored is not modelled: `Client.Add` requires a new id. The driver meets this with unique chunk ids, which `Pipeline` proves for a whole run.
- RagChat.Repl: the console prompt, the printing of answers and `EOFError` at the end of input are not modelled. Running out of input ends the loop without quitting.
- RagChat.RagQuery: `collection.query` returns one document list per query embedding. The model requires that the list for the single query is present.
- The Express server, the Flask app, `rag_chat_api.py` and the Redis session store are not part of this model.
