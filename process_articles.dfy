/**
 * process_articles.py: projects every scraped article onto the fixed schema
 * `id, title, url, published, source, text`, with `None` for a missing
 * `published` or `source`, dropping every other key.
 */
module ProcessArticles {
  import opened Json

  /** The keys of a record in news.json. */
  const Schema: set<string> := {"id", "title", "url", "published", "source", "text"}

  /** The keys read with `art[...]`, whose absence raises `KeyError`. */
  predicate HasRequiredKeys(art: Record) {
    "id" in art && "title" in art && "url" in art && "text" in art
  }

  /**
   * The dictionary built for one article: exactly the schema keys, each
   * holding the article's value, or `None` when the article lacks it.
   */
  function Project(art: Record): (r: Record)
    requires HasRequiredKeys(art)
    ensures r.Keys == Schema
    ensures forall k :: k in Schema ==> r[k] == Get(art, k, Null)
  {
    map[
      "id" := art["id"],
      "title" := art["title"],
      "url" := art["url"],
      "published" := Get(art, "published", Null),
      "source" := Get(art, "source", Null),
      "text" := art["text"]
    ]
  }

  /** Projecting a projected record changes nothing. */
  lemma ProjectIdempotent(art: Record)
    requires HasRequiredKeys(art)
    ensures HasRequiredKeys(Project(art))
    ensures Project(Project(art)) == Project(art)
  {
    var p := Project(art);
    assert Project(p).Keys == p.Keys;
  }

  /** Every article has the required keys. */
  predicate AllHaveRequiredKeys(articles: seq<Record>) {
    forall i :: 0 <= i < |articles| ==> HasRequiredKeys(articles[i])
  }

  /** The `cleaned` list: one projected record per article, in input order. */
  function ProjectAll(articles: seq<Record>): (cleaned: seq<Record>)
    requires AllHaveRequiredKeys(articles)
    ensures |cleaned| == |articles|
    ensures forall i :: 0 <= i < |articles| ==> cleaned[i] == Project(articles[i])
  {
    if articles == [] then []
    else ProjectAll(articles[..|articles| - 1]) + [Project(articles[|articles| - 1])]
  }

  /** The loop of process_articles.py. */
  method ProcessArticles(articles: seq<Record>) returns (cleaned: seq<Record>)
    requires AllHaveRequiredKeys(articles)
    ensures cleaned == ProjectAll(articles)
  {
    cleaned := [];
    for i := 0 to |articles|
      invariant cleaned == ProjectAll(articles[..i])
    {
      cleaned := cleaned + [Project(articles[i])];
      assert articles[..i + 1][..i] == articles[..i];
    }
    assert articles[..|articles|] == articles;
  }

  /** Running the stage on its own output returns the same list. */
  lemma ProjectAllIdempotent(articles: seq<Record>)
    requires AllHaveRequiredKeys(articles)
    ensures AllHaveRequiredKeys(ProjectAll(articles))
    ensures ProjectAll(ProjectAll(articles)) == ProjectAll(articles)
  {
    var cleaned := ProjectAll(articles);
    forall i | 0 <= i < |cleaned|
      ensures HasRequiredKeys(cleaned[i]) && Project(cleaned[i]) == cleaned[i]
    {
      ProjectIdempotent(articles[i]);
    }
  }

  /** Ids are copied unchanged, so distinct ids stay distinct. */
  lemma ProjectAllDistinctIds(articles: seq<Record>)
    requires AllHaveRequiredKeys(articles)
    requires DistinctIds(articles)
    ensures DistinctIds(ProjectAll(articles))
  {
  }
}
