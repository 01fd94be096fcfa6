/**
 * chunk_articles.py: `chunk_text` cuts an article's words into consecutive
 * groups of `chunk_size` words and joins each group with single spaces; the
 * driver turns every article of news.json into chunk records whose id is
 * the article id, "_", and the chunk's position.
 */
module ChunkArticles {
  import opened Basics
  import opened Text
  import opened Json

  /** The chunk size the driver passes (also `chunk_text`'s default). */
  const ChunkSize: nat := 200

  /**
   * The word groups of `range(0, len(words), size)`: consecutive slices of
   * `size` words, the last one possibly shorter.
   */
  function Groups(words: seq<string>, size: nat): (groups: seq<seq<string>>)
    requires size > 0
    ensures forall i :: 0 <= i < |groups| ==> 1 <= |groups[i]| <= size
    ensures forall i :: 0 <= i < |groups| - 1 ==> |groups[i]| == size
    ensures words == [] <==> groups == []
    decreases |words|
  {
    if words == [] then []
    else
      var k := Min(size, |words|);
      [words[..k]] + Groups(words[k..], size)
  }

  /** Concatenating the groups gives back the word list. */
  lemma {:induction false} GroupsFlatten(words: seq<string>, size: nat)
    requires size > 0
    ensures Flatten(Groups(words, size)) == words
    decreases |words|
  {
    if words != [] {
      var k := Min(size, |words|);
      GroupsFlatten(words[k..], size);
      assert words[..k] + words[k..] == words;
    }
  }

  /** ceil(n / d) for positive `d`, in integer arithmetic. */
  function CeilDiv(n: nat, d: nat): nat
    requires d > 0
  {
    (n + d - 1) / d
  }

  /** `range(0, n, size)` has ceil(n / size) elements. */
  lemma {:induction false} GroupCount(words: seq<string>, size: nat)
    requires size > 0
    ensures |Groups(words, size)| == CeilDiv(|words|, size)
    decreases |words|
  {
    if words != [] {
      var k := Min(size, |words|);
      var g := |Groups(words[k..], size)|;
      GroupCount(words[k..], size);
      assert g == (|words| - k + size - 1) / size;
      if |words| <= size {
        assert g == 0;
        DivIsOne(|words| + size - 1, size);
      } else {
        assert |words| + size - 1 == (|words| - size + size - 1) + size;
        DivPlusOne(|words| - size + size - 1, size);
      }
    }
  }

  lemma DivIsOne(x: int, d: int)
    requires 0 < d <= x < 2 * d
    ensures x / d == 1
  {
    DivUnique(x, d, 1);
  }

  lemma DivPlusOne(x: int, d: int)
    requires 0 <= x && 0 < d
    ensures (x + d) / d == x / d + 1
  {
    var q, r := x / d, x % d;
    assert x == d * q + r;
    assert x + d == d * (q + 1) + r;
    DivUnique(x + d, d, q + 1);
  }

  /** The quotient is the unique `q` with `d * q <= x < d * q + d`. */
  lemma DivUnique(x: int, d: int, q: int)
    requires 0 < d
    requires d * q <= x < d * q + d
    ensures x / d == q
  {
    var q' := x / d;
    assert d * q' <= x < d * q' + d;
    if q' < q {
      MulMonotone(d, q' + 1, q);
    } else if q < q' {
      MulMonotone(d, q + 1, q');
    }
  }

  lemma MulMonotone(d: int, a: int, b: int)
    requires 0 < d && a <= b
    ensures d * a <= d * b
  {
    assert d * b == d * a + d * (b - a);
  }

  /**
   * Group `i` is the Python slice `words[i * size : i * size + size]`,
   * clipped to the end of the list.
   */
  lemma {:induction false} GroupAt(words: seq<string>, size: nat, i: nat)
    requires size > 0
    requires i < |Groups(words, size)|
    ensures i * size < |words|
    ensures Groups(words, size)[i] == words[i * size .. Min(i * size + size, |words|)]
    decreases |words|
  {
    if i == 0 {
      assert Groups(words, size)[0] == words[..Min(size, |words|)];
    } else {
      GroupStep(words, size, i);
      var rest := words[size..];
      GroupAt(rest, size, i - 1);
      SuffixSlice(words, size, i);
    }
  }

  /** Past the first group, the groups are those of the words after the first `size`. */
  lemma GroupStep(words: seq<string>, size: nat, i: nat)
    requires size > 0
    requires 0 < i < |Groups(words, size)|
    ensures |words| > size
    ensures i - 1 < |Groups(words[size..], size)|
    ensures Groups(words, size)[i] == Groups(words[size..], size)[i - 1]
  {
    assert Groups(words, size) == [words[..Min(size, |words|)]] + Groups(words[Min(size, |words|)..], size);
  }

  /** Slice `i - 1` of the words after the first `size` is slice `i` of the words. */
  lemma SuffixSlice(words: seq<string>, size: nat, i: nat)
    requires size > 0 && i > 0 && |words| > size
    requires (i - 1) * size < |words| - size
    ensures i * size < |words|
    ensures words[size..][(i - 1) * size .. Min((i - 1) * size + size, |words| - size)]
         == words[i * size .. Min(i * size + size, |words|)]
  {
    var lo := (i - 1) * size;
    assert lo + size == i * size;
    var hi := Min(lo + size, |words| - size);
    assert size + hi == Min(i * size + size, |words|);
    SliceOfSuffix(words, size, lo, hi);
  }

  /** The groups consist of the list's own elements. */
  lemma {:induction false} GroupsOfWords(words: seq<string>, size: nat)
    requires size > 0
    requires forall k :: 0 <= k < |words| ==> IsWord(words[k])
    ensures forall i, j :: 0 <= i < |Groups(words, size)| && 0 <= j < |Groups(words, size)[i]| ==>
      IsWord(Groups(words, size)[i][j])
    decreases |words|
  {
    if words != [] {
      GroupsOfWords(words[Min(size, |words|)..], size);
    }
  }

  /** The chunk texts of a word list: each group joined with single spaces. */
  function Chunks(words: seq<string>, size: nat): (chunks: seq<string>)
    requires size > 0
    ensures |chunks| == |Groups(words, size)|
  {
    var groups := Groups(words, size);
    seq(|groups|, i requires 0 <= i < |groups| => Join(groups[i], " "))
  }

  /**
   * `list(chunk_text(text, size))`. A zero size is Python's `ValueError`
   * from `range` (`None` here); a negative size makes the range empty.
   */
  function ChunkText(text: string, size: int): (chunks: Option<seq<string>>)
    ensures chunks.None? <==> size == 0
    ensures size < 0 ==> chunks == Some([])
    ensures size > 0 ==> |chunks.value| == |Groups(Split(text), size)|
  {
    if size == 0 then None
    else if size < 0 then Some([])
    else Some(Chunks(Split(text), size))
  }

  /** Re-splitting every chunk. */
  function SplitEach(chunks: seq<string>): (words: seq<seq<string>>)
    ensures |words| == |chunks|
  {
    seq(|chunks|, i requires 0 <= i < |chunks| => Split(chunks[i]))
  }

  /**
   * Round trip: re-splitting the chunks gives back the word groups, and
   * their concatenation is `text.split()`.
   */
  lemma ChunkTextRoundTrip(text: string, size: int)
    requires size > 0
    ensures SplitEach(ChunkText(text, size).value) == Groups(Split(text), size)
    ensures Flatten(SplitEach(ChunkText(text, size).value)) == Split(text)
  {
    var groups := Groups(Split(text), size);
    var chunks := ChunkText(text, size).value;
    GroupsOfWords(Split(text), size);
    GroupsFlatten(Split(text), size);
    forall i | 0 <= i < |groups|
      ensures Split(chunks[i]) == groups[i]
    {
      SplitJoin(groups[i]);
    }
  }

  /**
   * Chunk count: ceil(words / size) chunks, and none exactly when the text
   * is empty or whitespace only.
   */
  lemma ChunkCount(text: string, size: int)
    requires size > 0
    ensures |ChunkText(text, size).value| == CeilDiv(|Split(text)|, size)
    ensures ChunkText(text, size).value == [] <==> forall i :: 0 <= i < |text| ==> IsSpace(text[i])
  {
    var words := Split(text);
    assert |ChunkText(text, size).value| == |Groups(words, size)|;
    GroupCount(words, size);
    SplitEmptyIff(text);
  }

  /** Every chunk has 1 to `size` words, and every chunk but the last exactly `size`. */
  lemma ChunkSizes(text: string, size: int, i: nat)
    requires size > 0
    requires i < |ChunkText(text, size).value|
    ensures 1 <= |Split(ChunkText(text, size).value[i])| <= size
    ensures i < |ChunkText(text, size).value| - 1 ==> |Split(ChunkText(text, size).value[i])| == size
  {
    var chunks := ChunkText(text, size).value;
    ChunkTextRoundTrip(text, size);
    assert SplitEach(chunks)[i] == Split(chunks[i]);
  }

  /** Every chunk is its words separated by single spaces, with no leading or trailing space. */
  lemma ChunkTextSpacing(text: string, size: int, i: nat)
    requires size > 0
    requires i < |ChunkText(text, size).value|
    ensures SingleSpaced(ChunkText(text, size).value[i])
  {
    var groups := Groups(Split(text), size);
    GroupsOfWords(Split(text), size);
    JoinSingleSpaced(groups[i]);
  }

  /** A record of news_chunks.json. */
  datatype ChunkRecord = ChunkRecord(articleId: Value, chunkId: string, title: Value, textChunk: string)

  /** `f"{art['id']}_{idx}"`. */
  function ChunkId(articleId: Value, idx: nat): (id: string)
    ensures |id| > |Format(articleId)| + 1
    ensures id[..|Format(articleId)|] == Format(articleId) && id[|Format(articleId)|] == '_'
    ensures forall k :: |Format(articleId)| < k < |id| ==> '0' <= id[k] <= '9'
    ensures id[|Format(articleId)| + 1..] == NatToString(idx)
    ensures ParseNat(id[|Format(articleId)| + 1..]) == idx
  {
    var prefix := Format(articleId) + "_";
    var digits := NatToString(idx);
    ParseNatToString(idx);
    assert (prefix + digits)[|prefix|..] == digits;
    prefix + digits
  }

  /**
   * A chunk id determines the formatted article id and the position: the
   * position is all digits, so the last "_" separates the two.
   */
  lemma ChunkIdInjective(a: Value, i: nat, b: Value, j: nat)
    ensures ChunkId(a, i) == ChunkId(b, j) ==> Format(a) == Format(b) && i == j
  {
    if ChunkId(a, i) == ChunkId(b, j) {
      UnderscoreThenDigits(Format(a), NatToString(i), Format(b), NatToString(j));
      NatToStringInjective(i, j);
    }
  }

  /** `p + "_" + d` with `d` all digits determines `p` and `d`: the last "_" separates them. */
  lemma UnderscoreThenDigits(p: string, d: string, q: string, e: string)
    requires forall k :: 0 <= k < |d| ==> '0' <= d[k] <= '9'
    requires forall k :: 0 <= k < |e| ==> '0' <= e[k] <= '9'
    requires p + "_" + d == q + "_" + e
    ensures p == q && d == e
  {
    var s := p + "_" + d;
    if |d| != |e| {
      UnderscoreLayout(p, d);
      UnderscoreLayout(q, e);
      assert false;
    } else {
      assert p == s[..|p|] == q;
      assert d == s[|p| + 1..] == e;
    }
  }

  /** Where the "_" and the characters after it sit in `p + "_" + d`. */
  lemma UnderscoreLayout(p: string, d: string)
    ensures |p + "_" + d| == |p| + 1 + |d|
    ensures (p + "_" + d)[|p|] == '_'
    ensures forall k :: 0 <= k < |d| ==> (p + "_" + d)[|p| + 1 + k] == d[k]
  {
  }

  /** What the driver reads of an article: `id`, `title`, and a string `text` to split. */
  predicate Chunkable(art: Record) {
    "id" in art && "title" in art && "text" in art && art["text"].Str?
  }

  predicate AllChunkable(articles: seq<Record>) {
    forall i :: 0 <= i < |articles| ==> Chunkable(articles[i])
  }

  /** The records of one article whose chunk texts are `texts`, numbered from 0. */
  function Numbered(id: Value, title: Value, texts: seq<string>): (records: seq<ChunkRecord>)
    ensures |records| == |texts|
  {
    seq(|texts|, i requires 0 <= i < |texts| => ChunkRecord(id, ChunkId(id, i), title, texts[i]))
  }

  /** The records of one article. */
  function ArticleChunks(art: Record): (records: seq<ChunkRecord>)
    requires Chunkable(art)
    ensures |records| == |ChunkText(art["text"].s, ChunkSize).value|
    ensures forall i :: 0 <= i < |records| ==> records[i].articleId == art["id"] && records[i].title == art["title"]
  {
    Numbered(art["id"], art["title"], ChunkText(art["text"].s, ChunkSize).value)
  }

  /** All records, article by article in input order. */
  function AllChunks(articles: seq<Record>): seq<ChunkRecord>
    requires AllChunkable(articles)
  {
    if articles == [] then []
    else AllChunks(articles[..|articles| - 1]) + ArticleChunks(articles[|articles| - 1])
  }

  /** Appending one article appends its records. */
  lemma AllChunksSnoc(articles: seq<Record>, a: nat)
    requires AllChunkable(articles)
    requires a < |articles|
    ensures AllChunks(articles[..a + 1]) == AllChunks(articles[..a]) + ArticleChunks(articles[a])
  {
    assert articles[..a + 1][..a] == articles[..a];
  }

  /** The driver loop of chunk_articles.py. */
  method ChunkAll(articles: seq<Record>) returns (chunks: seq<ChunkRecord>)
    requires AllChunkable(articles)
    ensures chunks == AllChunks(articles)
  {
    chunks := [];
    for a := 0 to |articles|
      invariant chunks == AllChunks(articles[..a])
    {
      var art := articles[a];
      var texts := ChunkText(art["text"].s, ChunkSize).value;
      var numbered := AppendNumbered(chunks, art["id"], art["title"], texts);
      chunks := numbered;
      AllChunksSnoc(articles, a);
    }
    assert articles[..|articles|] == articles;
  }

  /** The inner `enumerate` loop: appends the records of one article to `chunks`. */
  method AppendNumbered(chunks: seq<ChunkRecord>, id: Value, title: Value, texts: seq<string>)
    returns (extended: seq<ChunkRecord>)
    ensures extended == chunks + Numbered(id, title, texts)
  {
    extended := chunks;
    ghost var records := Numbered(id, title, texts);
    for idx := 0 to |texts|
      invariant extended == chunks + records[..idx]
    {
      NumberedStep(id, title, texts, idx);
      extended := extended + [ChunkRecord(id, ChunkId(id, idx), title, texts[idx])];
    }
    assert records[..|texts|] == records;
  }

  /** The records numbered up to `idx` are those before it and record `idx`. */
  lemma NumberedStep(id: Value, title: Value, texts: seq<string>, idx: nat)
    requires idx < |texts|
    ensures Numbered(id, title, texts)[..idx + 1]
      == Numbered(id, title, texts)[..idx] + [ChunkRecord(id, ChunkId(id, idx), title, texts[idx])]
  {
    var records := Numbered(id, title, texts);
    assert records[..idx + 1] == records[..idx] + [records[idx]];
  }

  /** The records of the first `m` articles are a prefix of all records. */
  lemma {:induction false} AllChunksPrefix(articles: seq<Record>, m: nat)
    requires AllChunkable(articles)
    requires m <= |articles|
    ensures AllChunks(articles[..m]) <= AllChunks(articles)
    decreases |articles|
  {
    if m < |articles| {
      var init := articles[..|articles| - 1];
      assert init[..m] == articles[..m];
      AllChunksPrefix(init, m);
    } else {
      assert articles[..m] == articles;
    }
  }

  /** Position of the first record of article `a`. */
  function Offset(articles: seq<Record>, a: nat): nat
    requires AllChunkable(articles)
    requires a <= |articles|
  {
    |AllChunks(articles[..a])|
  }

  /**
   * Numbering within an article: its record `idx` carries the article's id
   * and title unchanged, has the id `"{id}_{idx}"`, and holds chunk text `idx`.
   */
  lemma ArticleChunksAt(art: Record, idx: nat)
    requires Chunkable(art)
    requires idx < |ChunkText(art["text"].s, ChunkSize).value|
    ensures |ArticleChunks(art)| == |ChunkText(art["text"].s, ChunkSize).value|
    ensures ArticleChunks(art)[idx]
      == ChunkRecord(art["id"], ChunkId(art["id"], idx), art["title"], ChunkText(art["text"].s, ChunkSize).value[idx])
  {
    var texts := ChunkText(art["text"].s, ChunkSize).value;
    assert ArticleChunks(art) == Numbered(art["id"], art["title"], texts);
  }

  /**
   * Grouping: record `idx` of article `a` comes right after the records of
   * all earlier articles, in article order.
   */
  lemma ChunkAt(articles: seq<Record>, a: nat, idx: nat)
    requires AllChunkable(articles)
    requires a < |articles|
    requires idx < |ArticleChunks(articles[a])|
    ensures Offset(articles, a) + idx < |AllChunks(articles)|
    ensures AllChunks(articles)[Offset(articles, a) + idx] == ArticleChunks(articles[a])[idx]
  {
    var records := ArticleChunks(articles[a]);
    var head := AllChunks(articles[..a]);
    var upto := AllChunks(articles[..a + 1]);
    AllChunksSnoc(articles, a);
    AllChunksPrefix(articles, a + 1);
    PrefixIndex(AllChunks(articles), head, records, idx);
    assert Offset(articles, a) == |head|;
  }


  /**
   * Which article, and which of its chunks, a record position belongs to:
   * every output record is one of its article's records, so it carries
   * that article's id and title unchanged.
   */
  lemma {:induction false} ChunkOwner(articles: seq<Record>, p: nat) returns (a: nat, idx: nat)
    requires AllChunkable(articles)
    requires p < |AllChunks(articles)|
    ensures a < |articles|
    ensures idx < |ArticleChunks(articles[a])|
    ensures p == Offset(articles, a) + idx
    ensures AllChunks(articles)[p] == ArticleChunks(articles[a])[idx]
    ensures AllChunks(articles)[p].chunkId == ChunkId(articles[a]["id"], idx)
    decreases |articles|
  {
    var n := |articles| - 1;
    var init := articles[..n];
    assert AllChunkable(init);
    var head := AllChunks(init);
    assert AllChunks(articles) == head + ArticleChunks(articles[n]);
    if p < |head| {
      a, idx := ChunkOwner(init, p);
      assert init[..a] == articles[..a];
      assert init[a] == articles[a];
    } else {
      a, idx := n, p - |head|;
      assert articles[..a] == init;
    }
  }

  /** Articles with distinct string ids give chunks with distinct chunk ids. */
  lemma ChunkIdsDistinct(articles: seq<Record>)
    requires AllChunkable(articles)
    requires DistinctIds(articles)
    ensures var chunks := AllChunks(articles);
      forall p, q :: 0 <= p < q < |chunks| ==> chunks[p].chunkId != chunks[q].chunkId
  {
    var chunks := AllChunks(articles);
    forall p, q | 0 <= p < q < |chunks|
      ensures chunks[p].chunkId != chunks[q].chunkId
    {
      var a1, i1 := ChunkOwner(articles, p);
      var a2, i2 := ChunkOwner(articles, q);
      ChunkIdInjective(articles[a1]["id"], i1, articles[a2]["id"], i2);
      if a1 < a2 {
        assert articles[a1]["id"] != articles[a2]["id"];
      } else if a2 < a1 {
        assert articles[a2]["id"] != articles[a1]["id"];
      }
    }
  }
}
