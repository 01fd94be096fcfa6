/**
 * generate_embeddings.py: embeds the text of every chunk, attaches the
 * (one level flattened) embedding to the chunk in place, then deletes and
 * recreates the "news_chunks" collection and adds one entry per chunk.
 * The embedding service (`embed_documents`) is the parameter
 * `embedDocuments`; the vector store is the class `Client`, holding its
 * collections as maps from entry id to entry.
 */
module GenerateEmbeddings {
  import opened Basics
  import opened Json
  import opened ChunkArticles

  /** One element of an embedding as the service returns it: a number or a nested list. */
  datatype Component = Num(x: real) | Nested(items: seq<Component>)

  /** An embedding: a list whose elements should be numbers, but may be lists. */
  type Embedding = seq<Component>

  /** A vector of numbers only. */
  predicate IsFlat(e: Embedding) {
    forall i :: 0 <= i < |e| ==> e[i].Num?
  }

  /** `if isinstance(emb[0], list): emb = emb[0]` (`emb[0]` requires a non-empty list). */
  function Normalize(emb: Embedding): Embedding
    requires |emb| > 0
  {
    if emb[0].Nested? then emb[0].items else emb
  }

  /** A flat vector is stored unchanged. */
  lemma NormalizeFlat(emb: Embedding)
    requires |emb| > 0 && IsFlat(emb)
    ensures Normalize(emb) == emb
  {
  }

  /**
   * A list whose first element is a list is replaced by that inner list:
   * everything after the first element is dropped.
   */
  lemma NormalizeNested(inner: Embedding, rest: Embedding)
    ensures Normalize([Nested(inner)] + rest) == inner
  {
  }

  /**
   * One level only: `[[x, ...]]` with a flat inner list becomes flat, and
   * normalising that result again changes nothing.
   */
  lemma NormalizeOneLevel(emb: Embedding)
    requires |emb| > 0 && emb[0].Nested? && IsFlat(emb[0].items)
    ensures IsFlat(Normalize(emb))
    ensures |Normalize(emb)| > 0 ==> Normalize(Normalize(emb)) == Normalize(emb)
  {
  }

  /** A chunk dictionary as generate_embeddings.py holds it: the record and, once set, its "embedding". */
  datatype StoredChunk = StoredChunk(record: ChunkRecord, embedding: Option<Embedding>)

  /** `[chunk["text_chunk"] for chunk in chunks]`. */
  function Texts(chunks: seq<StoredChunk>): (texts: seq<string>)
    ensures |texts| == |chunks|
    ensures forall i :: 0 <= i < |chunks| ==> texts[i] == chunks[i].record.textChunk
  {
    if chunks == [] then [] else [chunks[0].record.textChunk] + Texts(chunks[1..])
  }

  /** `emb[0]` can be read for every embedding that `zip` pairs with a chunk. */
  predicate PairedNonEmpty(n: nat, embeddings: seq<Embedding>) {
    forall i :: 0 <= i < Min(n, |embeddings|) ==> |embeddings[i]| > 0
  }

  /** The chunks after the `zip` loop: the first min(len(chunks), len(embeddings)) carry their normalised embedding. */
  function Paired(chunks: seq<StoredChunk>, embeddings: seq<Embedding>): (r: seq<StoredChunk>)
    requires PairedNonEmpty(|chunks|, embeddings)
    ensures |r| == |chunks|
  {
    if chunks == [] || embeddings == [] then chunks
    else
      [chunks[0].(embedding := Some(Normalize(embeddings[0])))] + Paired(chunks[1..], embeddings[1..])
  }

  /** Positional pairing: chunk `i` gets embedding `i` when there is one, and is unchanged otherwise. */
  lemma {:induction false} PairedAt(chunks: seq<StoredChunk>, embeddings: seq<Embedding>, i: nat)
    requires PairedNonEmpty(|chunks|, embeddings)
    requires i < |chunks|
    ensures Paired(chunks, embeddings)[i].record == chunks[i].record
    ensures i < |embeddings| ==> Paired(chunks, embeddings)[i].embedding == Some(Normalize(embeddings[i]))
    ensures i >= |embeddings| ==> Paired(chunks, embeddings)[i] == chunks[i]
  {
    if i > 0 && embeddings != [] {
      PairedAt(chunks[1..], embeddings[1..], i - 1);
    }
  }

  /** The `for chunk, emb in zip(chunks, embeddings)` loop, mutating the chunk list in place. */
  method AttachEmbeddings(chunks: array<StoredChunk>, embeddings: seq<Embedding>)
    requires PairedNonEmpty(chunks.Length, embeddings)
    modifies chunks
    ensures chunks[..] == Paired(old(chunks[..]), embeddings)
  {
    var n := Min(chunks.Length, |embeddings|);
    for i := 0 to n
      invariant forall k :: 0 <= k < i ==>
        chunks[k] == old(chunks[k]).(embedding := Some(Normalize(embeddings[k])))
      invariant forall k :: i <= k < chunks.Length ==> chunks[k] == old(chunks[k])
    {
      var emb := embeddings[i];
      if emb[0].Nested? {
        emb := emb[0].items;
      }
      chunks[i] := chunks[i].(embedding := Some(emb));
    }
    ghost var before := old(chunks[..]);
    forall k | 0 <= k < chunks.Length
      ensures chunks[..][k] == Paired(before, embeddings)[k]
    {
      PairedAt(before, embeddings, k);
    }
  }

  /** The name of the collection the script rebuilds. */
  const CollectionName := "news_chunks"

  /** One stored entry: the vector, the document text and the metadata dictionary. */
  datatype IndexEntry = IndexEntry(embedding: Embedding, document: string, metadata: map<string, Value>)

  /** The entry `collection.add` stores for a chunk that has an embedding. */
  function EntryOf(chunk: StoredChunk): IndexEntry
    requires chunk.embedding.Some?
  {
    IndexEntry(chunk.embedding.value, chunk.record.textChunk,
               map["title" := chunk.record.title, "article_id" := chunk.record.articleId])
  }

  /**
   * How many leading chunks carry an embedding: `chunk["embedding"]` raises
   * `KeyError` at the first chunk that has none, ending the add loop there.
   */
  function EmbeddedPrefix(chunks: seq<StoredChunk>): (n: nat)
    ensures n <= |chunks|
    ensures forall j :: 0 <= j < n ==> chunks[j].embedding.Some?
    ensures n < |chunks| ==> chunks[n].embedding.None?
  {
    if chunks == [] || chunks[0].embedding.None? then 0 else 1 + EmbeddedPrefix(chunks[1..])
  }

  predicate AllEmbedded(chunks: seq<StoredChunk>) {
    forall i :: 0 <= i < |chunks| ==> chunks[i].embedding.Some?
  }

  predicate UniqueChunkIds(chunks: seq<StoredChunk>) {
    forall i, j :: 0 <= i < j < |chunks| ==> chunks[i].record.chunkId != chunks[j].record.chunkId
  }

  /** The ids of the chunks. */
  function ChunkIds(chunks: seq<StoredChunk>): set<string> {
    set i | 0 <= i < |chunks| :: chunks[i].record.chunkId
  }

  /** The collection after adding the chunks one by one to an empty collection. */
  function IndexOf(chunks: seq<StoredChunk>): map<string, IndexEntry>
    requires AllEmbedded(chunks)
  {
    if chunks == [] then map[]
    else
      var n := |chunks| - 1;
      IndexOf(chunks[..n])[chunks[n].record.chunkId := EntryOf(chunks[n])]
  }

  /** The stored ids are the chunks' ids. */
  lemma {:induction false} IndexOfKeys(chunks: seq<StoredChunk>)
    requires AllEmbedded(chunks)
    ensures IndexOf(chunks).Keys == ChunkIds(chunks)
  {
    if chunks != [] {
      var n := |chunks| - 1;
      var init := chunks[..n];
      var last := chunks[n];
      assert AllEmbedded(init) by {
        forall i | 0 <= i < |init| ensures init[i].embedding.Some? {
          assert init[i] == chunks[i];
        }
      }
      IndexOfKeys(init);
      assert chunks == init + [last];
      ChunkIdsSnoc(init, last);
    }
  }

  /** An embedded prefix of chunks with unique ids is still embedded and unique. */
  lemma InitStaysValid(chunks: seq<StoredChunk>, n: nat)
    requires n <= |chunks|
    requires AllEmbedded(chunks) && UniqueChunkIds(chunks)
    ensures AllEmbedded(chunks[..n]) && UniqueChunkIds(chunks[..n])
  {
    var init := chunks[..n];
    forall i | 0 <= i < |init| ensures init[i].embedding.Some? {
      assert init[i] == chunks[i];
    }
    forall i, j | 0 <= i < j < |init|
      ensures init[i].record.chunkId != init[j].record.chunkId
    {
      assert init[i] == chunks[i] && init[j] == chunks[j];
    }
  }

  /**
   * With unique ids the collection holds exactly one entry per chunk, under
   * the chunk's id, with its text, embedding and metadata.
   */
  lemma {:induction false} IndexOfContents(chunks: seq<StoredChunk>)
    requires AllEmbedded(chunks)
    requires UniqueChunkIds(chunks)
    ensures IndexOf(chunks).Keys == ChunkIds(chunks)
    ensures |IndexOf(chunks)| == |chunks|
    ensures forall i :: 0 <= i < |chunks| ==> IndexOf(chunks)[chunks[i].record.chunkId] == EntryOf(chunks[i])
  {
    IndexOfKeys(chunks);
    if chunks != [] {
      var n := |chunks| - 1;
      var init := chunks[..n];
      var last := chunks[n];
      InitStaysValid(chunks, n);
      IndexOfContents(init);
      var m := IndexOf(init);
      forall i | 0 <= i < |init|
        ensures init[i].record.chunkId != last.record.chunkId
      {
        assert init[i] == chunks[i];
      }
      assert last.record.chunkId !in m;
      forall i | 0 <= i < n
        ensures IndexOf(chunks)[chunks[i].record.chunkId] == EntryOf(chunks[i])
      {
        assert init[i] == chunks[i];
      }
    }
  }

  lemma ChunkIdsSnoc(init: seq<StoredChunk>, last: StoredChunk)
    ensures ChunkIds(init + [last]) == ChunkIds(init) + {last.record.chunkId}
  {
    var chunks := init + [last];
    forall x | x in ChunkIds(chunks) ensures x in ChunkIds(init) + {last.record.chunkId} {
      var i :| 0 <= i < |chunks| && chunks[i].record.chunkId == x;
      if i < |init| { assert init[i] == chunks[i]; }
    }
    forall x | x in ChunkIds(init) ensures x in ChunkIds(chunks) {
      var i :| 0 <= i < |init| && init[i].record.chunkId == x;
      assert chunks[i] == init[i];
    }
    assert chunks[|init|] == last;
  }

  /** The vector store: named collections, each a map from entry id to entry. */
  class Client {
    var collections: map<string, map<string, IndexEntry>>

    constructor (existing: map<string, map<string, IndexEntry>>)
      ensures collections == existing
    {
      collections := existing;
    }

    /** `client.delete_collection(name=name)`. */
    method DeleteCollection(name: string)
      requires name in collections
      modifies this
      ensures collections == old(collections) - {name}
    {
      collections := collections - {name};
    }

    /** `client.create_collection(name=name)`: a new, empty collection. */
    method CreateCollection(name: string)
      requires name !in collections
      modifies this
      ensures collections == old(collections)[name := map[]]
    {
      collections := collections[name := map[]];
    }

    /** `collection.add(...)` with one id that the collection does not hold yet. */
    method Add(name: string, id: string, entry: IndexEntry)
      requires name in collections && id !in collections[name]
      modifies this
      ensures collections == old(collections)[name := old(collections)[name][id := entry]]
    {
      collections := collections[name := collections[name][id := entry]];
    }
  }

  /**
   * Lines 57-72: drop "news_chunks" if it exists, create it empty, and add
   * the chunks in order until one lacks an embedding. The other collections
   * are untouched, and nothing of the old "news_chunks" survives.
   */
  method StoreChunks(client: Client, chunks: seq<StoredChunk>) returns (stored: nat)
    requires UniqueChunkIds(chunks)
    modifies client
    ensures stored == EmbeddedPrefix(chunks)
    ensures client.collections == old(client.collections)[CollectionName := IndexOf(chunks[..stored])]
  {
    if CollectionName in client.collections {
      client.DeleteCollection(CollectionName);
    }
    client.CreateCollection(CollectionName);
    stored := 0;
    while stored < |chunks| && chunks[stored].embedding.Some?
      invariant stored <= |chunks|
      invariant AllEmbedded(chunks[..stored])
      invariant client.collections == old(client.collections)[CollectionName := IndexOf(chunks[..stored])]
    {
      AddNext(chunks, stored);
      ghost var next := IndexOf(chunks[..stored + 1]);
      client.Add(CollectionName, chunks[stored].record.chunkId, EntryOf(chunks[stored]));
      assert client.collections == old(client.collections)[CollectionName := next];
      stored := stored + 1;
    }
    EmbeddedPrefixAt(chunks, stored);
  }

  /** Adding chunk `k` after the first `k`: its id is new, and the collection grows by its entry. */
  lemma AddNext(chunks: seq<StoredChunk>, k: nat)
    requires UniqueChunkIds(chunks)
    requires k < |chunks| && chunks[k].embedding.Some?
    requires AllEmbedded(chunks[..k])
    ensures chunks[k].record.chunkId !in IndexOf(chunks[..k])
    ensures AllEmbedded(chunks[..k + 1])
    ensures IndexOf(chunks[..k + 1]) == IndexOf(chunks[..k])[chunks[k].record.chunkId := EntryOf(chunks[k])]
  {
    var prefix := chunks[..k];
    IndexOfKeys(prefix);
    forall i | 0 <= i < k
      ensures prefix[i].record.chunkId != chunks[k].record.chunkId
    {
      assert prefix[i] == chunks[i];
    }
    assert chunks[k].record.chunkId !in ChunkIds(prefix);
    assert chunks[..k + 1][..k] == prefix;
  }

  /** A prefix that is all embedded and is followed by an unembedded chunk or the end is the embedded prefix. */
  lemma {:induction false} EmbeddedPrefixAt(chunks: seq<StoredChunk>, k: nat)
    requires k <= |chunks|
    requires forall j :: 0 <= j < k ==> chunks[j].embedding.Some?
    requires k < |chunks| ==> chunks[k].embedding.None?
    ensures EmbeddedPrefix(chunks) == k
  {
    if k > 0 {
      EmbeddedPrefixAt(chunks[1..], k - 1);
    }
  }

  /** The whole script after the chunks are loaded: embed, attach, rebuild the collection. */
  method GenerateEmbeddings(client: Client, chunks: array<StoredChunk>, embedDocuments: seq<string> -> seq<Embedding>)
    returns (stored: nat)
    requires PairedNonEmpty(chunks.Length, embedDocuments(Texts(chunks[..])))
    requires UniqueChunkIds(chunks[..])
    modifies chunks, client
    ensures chunks[..] == Paired(old(chunks[..]), embedDocuments(Texts(old(chunks[..]))))
    ensures stored == EmbeddedPrefix(chunks[..])
    ensures client.collections == old(client.collections)[CollectionName := IndexOf(chunks[..][..stored])]
  {
    var texts := Texts(chunks[..]);
    var embeddings := embedDocuments(texts);
    AttachEmbeddings(chunks, embeddings);
    forall i, j | 0 <= i < j < chunks.Length
      ensures chunks[..][i].record.chunkId != chunks[..][j].record.chunkId
    {
      PairedAt(old(chunks[..]), embeddings, i);
      PairedAt(old(chunks[..]), embeddings, j);
    }
    stored := StoreChunks(client, chunks[..]);
  }

  /**
   * When the service returns at least one embedding per text, every chunk
   * gets one, so the collection ends up with exactly one entry per chunk.
   */
  lemma {:induction false} PairedAllEmbedded(chunks: seq<StoredChunk>, embeddings: seq<Embedding>)
    requires PairedNonEmpty(|chunks|, embeddings)
    requires |embeddings| >= |chunks|
    ensures AllEmbedded(Paired(chunks, embeddings))
    ensures EmbeddedPrefix(Paired(chunks, embeddings)) == |chunks|
  {
    var r := Paired(chunks, embeddings);
    forall i | 0 <= i < |chunks|
      ensures r[i].embedding.Some?
    {
      PairedAt(chunks, embeddings, i);
    }
    EmbeddedPrefixAt(r, |chunks|);
  }

  /**
   * When the service returns fewer embeddings than chunks (and no chunk had
   * one before), exactly the first `len(embeddings)` chunks are stored
   * before the `KeyError`.
   */
  lemma PairedShort(chunks: seq<StoredChunk>, embeddings: seq<Embedding>)
    requires PairedNonEmpty(|chunks|, embeddings)
    requires |embeddings| < |chunks|
    requires forall i :: 0 <= i < |chunks| ==> chunks[i].embedding.None?
    ensures EmbeddedPrefix(Paired(chunks, embeddings)) == |embeddings|
  {
    var r := Paired(chunks, embeddings);
    forall i | 0 <= i < |chunks|
      ensures (i < |embeddings|) == r[i].embedding.Some?
    {
      PairedAt(chunks, embeddings, i);
    }
    EmbeddedPrefixAt(r, |embeddings|);
  }
}
