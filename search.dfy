/** The hybrid search of `SearchOrchestrator`: synonym expansion of the
    query, keyword search over the `movies` table, semantic search over the
    vector index with a similarity threshold and a popularity blend, and the
    merge of the two by `tmdb_id`. The embedding model and the FAISS
    nearest-neighbour search are one abstract function, `nearest`. */
module SearchOrchestrator {
  import opened Wrappers
  import opened Text
  import opened Ranking
  import opened Records
  import opened VectorIndex

  // ------------------------------------------------------ query expansion

  /** The expansion table of `_expand_query`, in dictionary order. */
  const Expansions: seq<(string, string)> := [
    ("nolan", "christopher nolan director filmmaker"),
    ("tarantino", "quentin tarantino director filmmaker"),
    ("spielberg", "steven spielberg director filmmaker"),
    ("scorsese", "martin scorsese director filmmaker"),
    ("kubrick", "stanley kubrick director filmmaker"),
    ("fincher", "david fincher director filmmaker"),
    ("villeneuve", "denis villeneuve director filmmaker"),
    ("dicaprio", "leonardo dicaprio actor"),
    ("denzel", "denzel washington actor"),
    ("morgan freeman", "morgan freeman actor"),
    ("sci-fi", "science fiction space futuristic technology"),
    ("scifi", "science fiction space futuristic technology"),
    ("action", "action adventure thriller exciting"),
    ("horror", "horror scary terror frightening suspense"),
    ("comedy", "comedy funny humor amusing hilarious"),
    ("drama", "drama emotional story character"),
    ("romance", "romance love relationship romantic"),
    ("space", "space cosmos universe galaxy planets astronomy"),
    ("war", "war military combat battle soldier"),
    ("love", "love romance relationship romantic affection"),
    ("crime", "crime criminal heist robbery detective"),
    ("time travel", "time travel temporal paradox future past"),
    ("marvel", "marvel cinematic universe mcu superhero avengers"),
    ("mcu", "marvel cinematic universe mcu superhero"),
    ("dc", "dc comics superhero batman superman wonder woman"),
    ("star wars", "star wars jedi sith force galaxy")
  ]

  /** The first table entry from position `i` on whose key occurs in
      `lowered`. */
  function FirstKeyFrom(lowered: string, i: nat): (r: Option<nat>)
    requires i <= |Expansions|
    ensures r.Some? ==> i <= r.value < |Expansions| && Contains(lowered, Expansions[r.value].0)
    ensures forall j :: i <= j < (if r.Some? then r.value else |Expansions|) ==> !Contains(lowered, Expansions[j].0)
    decreases |Expansions| - i
  {
    if i == |Expansions| then None
    else if Contains(lowered, Expansions[i].0) then Some(i)
    else FirstKeyFrom(lowered, i + 1)
  }

  /** Scanning from `i` finds `k` when `k` is the first matching entry at
      or after `i`. */
  lemma FirstKeyFromIs(lowered: string, i: nat, k: nat)
    requires i <= k < |Expansions| && Contains(lowered, Expansions[k].0)
    requires forall j :: i <= j < k ==> !Contains(lowered, Expansions[j].0)
    ensures FirstKeyFrom(lowered, i) == Some(k)
  {
  }

  /** `_expand_query`: the query, plus the expansion of the first key that
      occurs in the lower-cased query. */
  function ExpandQuery(query: string): (r: string)
    ensures StartsWith(r, query)
    ensures r == query || exists k :: 0 <= k < |Expansions| && r == query + " " + Expansions[k].1
  {
    match FirstKeyFrom(Lower(query), 0)
    case None => query
    case Some(k) => query + " " + Expansions[k].1
  }

  /** The first key in table order decides the expansion. */
  lemma ExpandFirstMatch(query: string, k: nat)
    requires k < |Expansions| && Contains(Lower(query), Expansions[k].0)
    requires forall j :: 0 <= j < k ==> !Contains(Lower(query), Expansions[j].0)
    ensures ExpandQuery(query) == query + " " + Expansions[k].1
  {
    FirstKeyFromIs(Lower(query), 0, k);
  }

  /** With no key in the lower-cased query, the query is unchanged. */
  lemma ExpandNoMatch(query: string)
    requires forall j :: 0 <= j < |Expansions| ==> !Contains(Lower(query), Expansions[j].0)
    ensures ExpandQuery(query) == query
  {
  }

  /** "Star Wars", in any capitalisation, is expanded by the earlier `war`
      entry, not by `star wars`. */
  lemma ExpandStarWars(q: string)
    requires Lower(q) == "star wars"
    ensures ExpandQuery(q) == q + " " + "war military combat battle soldier"
  {
    assert OccursAt(Lower(q), "war", 5);
    StarWarsMisses0();
    StarWarsMisses1();
    StarWarsMisses2();
    ExpandFirstMatch(q, 18);
  }

  lemma StarWarsMisses0()
    ensures forall j :: 0 <= j < 6 ==> !Contains("star wars", Expansions[j].0)
  {
    AbsentChar("star wars", Expansions[0].0, 'n');
    AbsentChar("star wars", Expansions[1].0, 'n');
    AbsentChar("star wars", Expansions[2].0, 'p');
    AbsentChar("star wars", Expansions[3].0, 'c');
    AbsentChar("star wars", Expansions[4].0, 'k');
    AbsentChar("star wars", Expansions[5].0, 'f');
  }

  lemma StarWarsMisses1()
    ensures forall j :: 6 <= j < 12 ==> !Contains("star wars", Expansions[j].0)
  {
    AbsentChar("star wars", Expansions[6].0, 'v');
    AbsentChar("star wars", Expansions[7].0, 'd');
    AbsentChar("star wars", Expansions[8].0, 'd');
    AbsentChar("star wars", Expansions[9].0, 'm');
    AbsentChar("star wars", Expansions[10].0, 'c');
    AbsentChar("star wars", Expansions[11].0, 'c');
  }

  lemma StarWarsMisses2()
    ensures forall j :: 12 <= j < 18 ==> !Contains("star wars", Expansions[j].0)
  {
    AbsentChar("star wars", Expansions[12].0, 'c');
    AbsentChar("star wars", Expansions[13].0, 'h');
    AbsentChar("star wars", Expansions[14].0, 'c');
    AbsentChar("star wars", Expansions[15].0, 'd');
    AbsentChar("star wars", Expansions[16].0, 'o');
    AbsentChar("star wars", Expansions[17].0, 'p');
  }

  /** "sci-fi action", in any capitalisation, is expanded by `sci-fi`, which
      precedes `action`. */
  lemma ExpandSciFiAction(q: string)
    requires Lower(q) == "sci-fi action"
    ensures ExpandQuery(q) == q + " " + "science fiction space futuristic technology"
  {
    assert OccursAt(Lower(q), "sci-fi", 0);
    SciFiMisses0();
    SciFiMisses1();
    ExpandFirstMatch(q, 10);
  }

  lemma SciFiMisses0()
    ensures forall j :: 0 <= j < 5 ==> !Contains("sci-fi action", Expansions[j].0)
  {
    AbsentChar("sci-fi action", Expansions[0].0, 'l');
    AbsentChar("sci-fi action", Expansions[1].0, 'r');
    AbsentChar("sci-fi action", Expansions[2].0, 'p');
    AbsentChar("sci-fi action", Expansions[3].0, 'r');
    AbsentChar("sci-fi action", Expansions[4].0, 'k');
  }

  lemma SciFiMisses1()
    ensures forall j :: 5 <= j < 10 ==> !Contains("sci-fi action", Expansions[j].0)
  {
    AbsentChar("sci-fi action", Expansions[5].0, 'h');
    AbsentChar("sci-fi action", Expansions[6].0, 'v');
    AbsentChar("sci-fi action", Expansions[7].0, 'd');
    AbsentChar("sci-fi action", Expansions[8].0, 'd');
    AbsentChar("sci-fi action", Expansions[9].0, 'm');
  }

  // -------------------------------------------------------------- scoring

  /** An L2 distance reported by the index. */
  type Distance = d: real | d >= 0.0

  /** The similarity of a hit at distance `d`: `1 / (1 + d)`. */
  function Similarity(d: Distance): (s: real)
    ensures 0.0 < s <= 1.0
    ensures s == 1.0 <==> d == 0.0
  {
    1.0 / (1.0 + d)
  }

  /** Hits whose similarity is below this are dropped. */
  const MinSimilarity: real := 0.4

  /** The similarity threshold is a distance threshold of 1.5. */
  lemma SimilarityThreshold(d: Distance)
    ensures Similarity(d) >= MinSimilarity <==> d <= 1.5
  {
    var s := Similarity(d);
    assert s * (1.0 + d) == 1.0;
    if s >= MinSimilarity {
      assert MinSimilarity * (1.0 + d) <= s * (1.0 + d);
    }
    if d <= 1.5 {
      assert s * 2.5 >= s * (1.0 + d);
    }
  }

  /** Nearer hits are at least as similar. */
  lemma SimilarityAntitone(d1: Distance, d2: Distance)
    requires d1 <= d2
    ensures Similarity(d1) >= Similarity(d2)
  {
    var s1, s2 := Similarity(d1), Similarity(d2);
    assert s1 * (1.0 + d1) == 1.0 && s2 * (1.0 + d2) == 1.0;
    assert s2 * (1.0 + d1) <= 1.0;
  }

  /** Popularity divided by 100, capped at 1. */
  function NormalizedPopularity(p: real): (n: real)
    ensures n <= 1.0
    ensures p >= 0.0 ==> n >= 0.0
    ensures p <= 100.0 ==> n * 100.0 == p
  {
    if p / 100.0 <= 1.0 then p / 100.0 else 1.0
  }

  /** The re-ranking score: 70% similarity, 30% normalised popularity. */
  function FinalScore(similarity: real, popularity: real): (f: real)
    ensures 0.0 < similarity <= 1.0 && popularity >= 0.0 ==> 0.0 < f <= 1.0
  {
    0.7 * similarity + 0.3 * NormalizedPopularity(popularity)
  }

  /** The score grows with similarity and with popularity. */
  lemma FinalScoreMonotone(s1: real, s2: real, p1: real, p2: real)
    requires s1 <= s2 && p1 <= p2
    ensures FinalScore(s1, p1) <= FinalScore(s2, p2)
  {
  }

  /** Popularity beyond 100 adds nothing to the score. */
  lemma FinalScorePopularityCap(s: real, p: real)
    requires p >= 100.0
    ensures FinalScore(s, p) == FinalScore(s, 100.0)
  {
  }

  // -------------------------------------------------------------- results

  datatype Source = Keyword | Semantic

  /** A search result: a movie's fields plus the scores and the origin
      tag the searches add. */
  datatype SearchResult = SearchResult(
    tmdbId: int,
    title: Option<string>,
    year: Option<int>,
    overview: Option<string>,
    popularity: Option<real>,
    similarity: Option<real>,
    finalScore: Option<real>,
    source: Source)

  function Ids(s: seq<SearchResult>): set<int> {
    set i | 0 <= i < |s| :: s[i].tmdbId
  }

  // ------------------------------------------------------------ re-ranking

  /** A result with its `final_score` set; absent scores count as 0. */
  function Scored(r: SearchResult): (s: SearchResult)
    ensures s.finalScore.Some?
    ensures s.(finalScore := r.finalScore) == r
  {
    r.(finalScore := Some(FinalScore(r.similarity.GetOr(0.0), r.popularity.GetOr(0.0))))
  }

  /** Highest score first; a missing score counts as 0. */
  predicate ScoreFirst(a: SearchResult, b: SearchResult) {
    a.finalScore.GetOr(0.0) >= b.finalScore.GetOr(0.0)
  }

  lemma ScoreFirstTotal()
    ensures TotalPreorder(ScoreFirst)
  {
  }

  function ScoredAll(rs: seq<SearchResult>): (r: seq<SearchResult>)
    ensures |r| == |rs|
    ensures forall i :: 0 <= i < |r| ==> r[i] == Scored(rs[i])
  {
    seq(|rs|, i requires 0 <= i < |rs| => Scored(rs[i]))
  }

  /** `_rerank_results`: scores every result, then sorts by score, highest
      first, keeping the input order among equal scores. */
  method Rerank(results: seq<SearchResult>) returns (ranked: seq<SearchResult>)
    ensures ranked == StableSort(ScoredAll(results), ScoreFirst)
    ensures Sorted(ranked, ScoreFirst)
    ensures multiset(ranked) == multiset(ScoredAll(results))
    ensures forall t :: Tied(ranked, ScoreFirst, t) == Tied(ScoredAll(results), ScoreFirst, t)
  {
    var scored: seq<SearchResult> := [];
    for i := 0 to |results|
      invariant scored == ScoredAll(results[..i])
    {
      scored := scored + [Scored(results[i])];
    }
    assert results[..|results|] == results;
    ScoreFirstTotal();
    SortSortedPermutation(scored, ScoreFirst);
    forall t {
      SortStable(scored, ScoreFirst, t);
    }
    ranked := StableSort(scored, ScoreFirst);
  }

  // --------------------------------------------------------- keyword search

  /** `title ILIKE '%query%'`: the title contains the query, ignoring case;
      a null title never matches. */
  predicate TitleMatches(r: MovieRow, query: string) {
    r.title.Some? && Contains(Lower(r.title.value), Lower(query))
  }

  /** `LOWER(title) = LOWER(query)`. */
  predicate ExactTitle(r: MovieRow, query: string) {
    r.title.Some? && Lower(r.title.value) == Lower(query)
  }

  /** An exact title is also a keyword match. */
  lemma ExactTitleMatches(r: MovieRow, query: string)
    requires ExactTitle(r, query)
    ensures TitleMatches(r, query)
  {
    assert OccursAt(Lower(r.title.value), Lower(query), 0);
  }

  /** `popularity DESC NULLS LAST`. */
  predicate PopularityFirst(a: Option<real>, b: Option<real>) {
    match a
    case None => b.None?
    case Some(x) => b.None? || x >= b.value
  }

  /** The keyword ordering: exact title matches first, then by popularity,
      highest first, nulls last. */
  predicate KeywordBefore(query: string, a: MovieRow, b: MovieRow) {
    if ExactTitle(a, query) != ExactTitle(b, query) then ExactTitle(a, query)
    else PopularityFirst(a.popularity, b.popularity)
  }

  function KeywordOrder(query: string): (MovieRow, MovieRow) -> bool {
    (a, b) => KeywordBefore(query, a, b)
  }

  lemma KeywordOrderTotal(query: string)
    ensures TotalPreorder(KeywordOrder(query))
  {
    var le := KeywordOrder(query);
    forall a, b, c | le(a, b) && le(b, c) ensures le(a, c) {
      assert KeywordBefore(query, a, b) && KeywordBefore(query, b, c);
    }
  }

  /** The rows the `WHERE` clause keeps, in table order. */
  function Matching(rows: seq<MovieRow>, query: string): (r: seq<MovieRow>)
    ensures forall x :: x in r <==> x in rows && TitleMatches(x, query)
    ensures multiset(r) <= multiset(rows)
  {
    if rows == [] then []
    else
      assert rows == [rows[0]] + rows[1..];
      (if TitleMatches(rows[0], query) then [rows[0]] else []) + Matching(rows[1..], query)
  }

  /** The rows the keyword query returns: the matches in keyword order, at
      most `limit` of them. Rows that tie keep their table order, one of the
      orders the database may return. */
  function KeywordRows(rows: seq<MovieRow>, query: string, limit: nat): seq<MovieRow> {
    Take(StableSort(Matching(rows, query), KeywordOrder(query)), limit)
  }

  /** What an answer to the keyword query must be: at most `limit` matching
      rows in keyword order, all of them when there are fewer than `limit`,
      and none of the matching rows left out ranks before one returned. */
  ghost predicate IsKeywordAnswer(rows: seq<MovieRow>, query: string, limit: nat, answer: seq<MovieRow>) {
    var matching := Matching(rows, query);
    && |answer| <= limit
    && multiset(answer) <= multiset(matching)
    && (|answer| < limit ==> multiset(answer) == multiset(matching))
    && Sorted(answer, KeywordOrder(query))
    && (forall r, i :: r in matching && r !in answer && 0 <= i < |answer| ==> KeywordBefore(query, answer[i], r))
  }

  lemma KeywordRowsAnswer(rows: seq<MovieRow>, query: string, limit: nat)
    ensures IsKeywordAnswer(rows, query, limit, KeywordRows(rows, query, limit))
  {
    var matching := Matching(rows, query);
    var le := KeywordOrder(query);
    var sorted := StableSort(matching, le);
    KeywordOrderTotal(query);
    SortSortedPermutation(matching, le);
    var answer := KeywordRows(rows, query, limit);
    assert answer == sorted[..|answer|];
    assert multiset(sorted) == multiset(answer) + multiset(sorted[|answer|..]) by {
      assert sorted == answer + sorted[|answer|..];
    }
    forall r | r in matching && r !in answer
      ensures forall i :: 0 <= i < |answer| ==> KeywordBefore(query, answer[i], r)
    {
      assert r in multiset(sorted);
      SortedPrefixBefore(sorted, |answer|, le, r);
    }
  }

  /** In a sorted sequence, an element beyond the first `n` may follow each
      of them. */
  lemma SortedPrefixBefore<T>(s: seq<T>, n: nat, le: (T, T) -> bool, r: T)
    requires Sorted(s, le) && n <= |s| && r in s && r !in s[..n]
    ensures forall i :: 0 <= i < n ==> le(s[i], r)
  {
    assert s == s[..n] + s[n..];
    assert r in s[n..];
    var j :| 0 <= j < |s| - n && s[n..][j] == r;
    assert s[n + j] == r;
  }

  /** One keyword result: the row's fields tagged `keyword`. */
  function KeywordResult(r: MovieRow): SearchResult {
    SearchResult(r.tmdbId, r.title, r.year, r.overview, r.popularity, None, None, Keyword)
  }

  function KeywordResults(rows: seq<MovieRow>, query: string, limit: nat): (rs: seq<SearchResult>)
    ensures |rs| == |KeywordRows(rows, query, limit)| <= limit
    ensures forall i :: 0 <= i < |rs| ==> rs[i] == KeywordResult(KeywordRows(rows, query, limit)[i])
  {
    var kr := KeywordRows(rows, query, limit);
    seq(|kr|, i requires 0 <= i < |kr| => KeywordResult(kr[i]))
  }

  /** `search_keyword`: runs the keyword query over the table and turns each
      returned row into a result tagged `keyword`. */
  method SearchKeyword(rows: seq<MovieRow>, query: string, limit: nat) returns (results: seq<SearchResult>)
    ensures results == KeywordResults(rows, query, limit)
    ensures |results| <= limit
    ensures forall i :: 0 <= i < |results| ==> results[i].source == Keyword
  {
    var fetched := KeywordRows(rows, query, limit);
    results := [];
    for i := 0 to |fetched|
      invariant |results| == i
      invariant forall j :: 0 <= j < i ==> results[j] == KeywordResult(fetched[j])
    {
      results := results + [KeywordResult(fetched[i])];
    }
  }

  // -------------------------------------------------------- semantic search

  /** One neighbour reported by the index: a metadata position (`-1` for a
      missing neighbour) and its distance. */
  datatype IndexHit = IndexHit(ordinal: int, distance: Distance)

  /** The state `_load_faiss_index` leaves behind. `nearest(text, k)` stands
      for embedding `text` and asking the index for `k` neighbours; `None`
      is a failure of either step. */
  datatype Orchestrator = Orchestrator(
    embedderLoaded: bool,
    indexLoaded: bool,
    metadata: Option<seq<MetaEntry>>,
    nearest: (string, nat) -> Option<seq<IndexHit>>)

  predicate SemanticReady(o: Orchestrator) {
    o.indexLoaded && o.metadata.Some? && o.embedderLoaded
  }

  /** `_load_faiss_index`: both files must exist; then the embedding model,
      the index and the metadata are loaded in that order, and a failure
      keeps what was loaded before it. `metadataRead` is `None` when the
      metadata file cannot be parsed. */
  function Load(indexFileExists: bool, metadataFileExists: bool, embedderOk: bool, indexReadOk: bool,
                metadataRead: Option<seq<MetaEntry>>, nearest: (string, nat) -> Option<seq<IndexHit>>): (o: Orchestrator)
    ensures SemanticReady(o) <==> indexFileExists && metadataFileExists && embedderOk && indexReadOk && metadataRead.Some?
    ensures SemanticReady(o) ==> o.metadata == metadataRead
    ensures o.indexLoaded ==> o.embedderLoaded
  {
    if !indexFileExists || !metadataFileExists || !embedderOk then Orchestrator(false, false, None, nearest)
    else if !indexReadOk then Orchestrator(true, false, None, nearest)
    else Orchestrator(true, true, metadataRead, nearest)
  }

  /** The hit survives the filter: a real metadata position and enough
      similarity. */
  predicate Survives(h: IndexHit, metadata: seq<MetaEntry>) {
    0 <= h.ordinal < |metadata| && Similarity(h.distance) >= MinSimilarity
  }

  /** A copy of the hit's metadata entry with its similarity and the tag
      `semantic`. */
  function Candidate(h: IndexHit, metadata: seq<MetaEntry>): (r: SearchResult)
    requires 0 <= h.ordinal < |metadata|
    ensures r.tmdbId == metadata[h.ordinal].tmdbId && r.source == Semantic
  {
    var e := metadata[h.ordinal];
    SearchResult(e.tmdbId, e.title, e.year, e.overview, e.popularity, Some(Similarity(h.distance)), None, Semantic)
  }

  /** The surviving hits, in the order the index reported them. */
  function Candidates(hits: seq<IndexHit>, metadata: seq<MetaEntry>): (r: seq<SearchResult>)
    ensures |r| <= |hits|
    ensures forall i :: 0 <= i < |r| ==>
      r[i].source == Semantic && r[i].similarity.Some? && MinSimilarity <= r[i].similarity.value <= 1.0
    decreases |hits|
  {
    if hits == [] then []
    else
      var last := hits[|hits| - 1];
      Candidates(hits[..|hits| - 1], metadata) + (if Survives(last, metadata) then [Candidate(last, metadata)] else [])
  }

  /** No surviving hit is lost. */
  lemma {:induction false} CandidatesComplete(hits: seq<IndexHit>, metadata: seq<MetaEntry>, j: nat)
    requires j < |hits| && Survives(hits[j], metadata)
    ensures Candidate(hits[j], metadata) in Candidates(hits, metadata)
    decreases |hits|
  {
    if j < |hits| - 1 {
      assert hits[..|hits| - 1][j] == hits[j];
      CandidatesComplete(hits[..|hits| - 1], metadata, j);
    }
  }

  /** Every candidate comes from a surviving hit. */
  lemma {:induction false} CandidatesSound(hits: seq<IndexHit>, metadata: seq<MetaEntry>, r: SearchResult)
    requires r in Candidates(hits, metadata)
    ensures exists j :: 0 <= j < |hits| && Survives(hits[j], metadata) && r == Candidate(hits[j], metadata)
    decreases |hits|
  {
    var init := hits[..|hits| - 1];
    var last := hits[|hits| - 1];
    if r in Candidates(init, metadata) {
      CandidatesSound(init, metadata, r);
      var j :| 0 <= j < |init| && Survives(init[j], metadata) && r == Candidate(init[j], metadata);
      assert hits[j] == init[j];
    } else {
      assert Survives(last, metadata) && r == Candidate(last, metadata);
    }
  }

  /** At most this many semantic results are returned. */
  const SemanticLimit: nat := 5

  /** `search_semantic` as a value: nothing unless the model, the index and
      the metadata are loaded and the neighbour search succeeds; otherwise
      the best five re-ranked survivors of the expanded query's
      neighbours. */
  function SemanticResults(o: Orchestrator, query: string, k: nat): seq<SearchResult> {
    if !SemanticReady(o) then []
    else match o.nearest(ExpandQuery(query), k)
      case None => []
      case Some(hits) => Take(StableSort(ScoredAll(Candidates(hits, o.metadata.value)), ScoreFirst), SemanticLimit)
  }

  /** What a semantic search returns: at most five results, all tagged
      `semantic`, each with similarity of at least 0.4 and a final score,
      ordered by final score, highest first. */
  lemma SemanticResultsShape(o: Orchestrator, query: string, k: nat)
    ensures var rs := SemanticResults(o, query, k);
      && |rs| <= SemanticLimit
      && Sorted(rs, ScoreFirst)
      && forall i :: 0 <= i < |rs| ==>
           && rs[i].source == Semantic
           && rs[i].similarity.Some? && rs[i].similarity.value >= MinSimilarity
           && rs[i].finalScore.Some?
  {
    if SemanticReady(o) && o.nearest(ExpandQuery(query), k).Some? {
      var cs := ScoredAll(Candidates(o.nearest(ExpandQuery(query), k).value, o.metadata.value));
      var sorted := StableSort(cs, ScoreFirst);
      ScoreFirstTotal();
      SortSortedPermutation(cs, ScoreFirst);
      var rs := SemanticResults(o, query, k);
      assert rs <= sorted;
      forall i | 0 <= i < |rs|
        ensures rs[i].source == Semantic && rs[i].similarity.Some? && rs[i].similarity.value >= MinSimilarity
        ensures rs[i].finalScore.Some?
      {
        assert rs[i] in multiset(cs);
      }
    }
  }

  /** Each semantic result is a surviving neighbour of the expanded query,
      with its score. */
  lemma SemanticResultsFromIndex(o: Orchestrator, query: string, k: nat, r: SearchResult)
    requires r in SemanticResults(o, query, k)
    ensures SemanticReady(o) && o.nearest(ExpandQuery(query), k).Some?
    ensures var hits := o.nearest(ExpandQuery(query), k).value;
      exists j :: 0 <= j < |hits| && Survives(hits[j], o.metadata.value) && r == Scored(Candidate(hits[j], o.metadata.value))
  {
    var hits := o.nearest(ExpandQuery(query), k).value;
    var cands := Candidates(hits, o.metadata.value);
    var cs := ScoredAll(cands);
    ScoreFirstTotal();
    SortSortedPermutation(cs, ScoreFirst);
    assert r in multiset(cs);
    var i :| 0 <= i < |cs| && cs[i] == r;
    CandidatesSound(hits, o.metadata.value, cands[i]);
  }

  /** `search_semantic`: filters the neighbours of the expanded query,
      re-ranks the survivors and keeps the best five. */
  method SearchSemantic(o: Orchestrator, query: string, k: nat) returns (results: seq<SearchResult>)
    ensures results == SemanticResults(o, query, k)
  {
    if !o.indexLoaded || o.metadata.None? || !o.embedderLoaded {
      return [];
    }
    var metadata := o.metadata.value;
    var expanded := ExpandQuery(query);
    var found := o.nearest(expanded, k);
    if found.None? {
      return [];
    }
    var hits := found.value;
    var filtered: seq<SearchResult> := [];
    for i := 0 to |hits|
      invariant filtered == Candidates(hits[..i], metadata)
    {
      assert hits[..i + 1][..i] == hits[..i];
      var h := hits[i];
      if h.ordinal >= 0 && h.ordinal < |metadata| && Similarity(h.distance) >= MinSimilarity {
        filtered := filtered + [Candidate(h, metadata)];
      }
    }
    assert hits[..|hits|] == hits;
    var reranked := Rerank(filtered);
    results := Take(reranked, SemanticLimit);
  }

  // ---------------------------------------------------------- hybrid search

  /** The results of `s` whose `tmdb_id` is neither in `seen` nor taken
      earlier, in order. */
  function FreshById(seen: set<int>, s: seq<SearchResult>): (r: seq<SearchResult>)
    ensures |r| <= |s|
    decreases |s|
  {
    if s == [] then []
    else
      var f := FreshById(seen, s[..|s| - 1]);
      var last := s[|s| - 1];
      if last.tmdbId in seen || last.tmdbId in Ids(f) then f else f + [last]
  }

  lemma IdsAppend(a: seq<SearchResult>, b: seq<SearchResult>)
    ensures Ids(a + b) == Ids(a) + Ids(b)
  {
    forall id | id in Ids(a) + Ids(b) ensures id in Ids(a + b) {
      if id in Ids(a) {
        var i :| 0 <= i < |a| && a[i].tmdbId == id;
        assert (a + b)[i] == a[i];
      } else {
        var i :| 0 <= i < |b| && b[i].tmdbId == id;
        assert (a + b)[|a| + i] == b[i];
      }
    }
  }

  /** The fresh results have distinct ids, none of them in `seen`, and
      come from `s`. */
  lemma {:induction false} FreshDistinct(seen: set<int>, s: seq<SearchResult>)
    ensures forall i, j :: 0 <= i < j < |FreshById(seen, s)| ==>
      FreshById(seen, s)[i].tmdbId != FreshById(seen, s)[j].tmdbId
    ensures forall i :: 0 <= i < |FreshById(seen, s)| ==>
      FreshById(seen, s)[i].tmdbId !in seen && FreshById(seen, s)[i] in s
    decreases |s|
  {
    if s != [] {
      var init, last := s[..|s| - 1], s[|s| - 1];
      FreshDistinct(seen, init);
      var f := FreshById(seen, init);
      assert s == init + [last];
      assert forall i :: 0 <= i < |f| ==> f[i].tmdbId in Ids(f);
    }
  }

  /** One more step of the scan. */
  lemma FreshStep(seen: set<int>, s: seq<SearchResult>, i: nat)
    requires i < |s|
    ensures FreshById(seen, s[..i + 1]) ==
      if s[i].tmdbId in seen + Ids(FreshById(seen, s[..i])) then FreshById(seen, s[..i])
      else FreshById(seen, s[..i]) + [s[i]]
  {
    assert s[..i + 1][..i] == s[..i];
  }

  /** Scanning a prefix of `s` yields a prefix of the fresh results. */
  lemma {:induction false} FreshPrefix(seen: set<int>, s: seq<SearchResult>, n: nat)
    requires n <= |s|
    ensures FreshById(seen, s[..n]) <= FreshById(seen, s)
    decreases |s| - n
  {
    if n < |s| {
      FreshPrefix(seen, s[..|s| - 1], n);
      assert s[..|s| - 1][..n] == s[..n];
    } else {
      assert s[..n] == s;
    }
  }

  /** `s[i]` is the first result of `s` with its id, and that id is not in
      `seen`: exactly the results the merge keeps. */
  predicate FirstFresh(seen: set<int>, s: seq<SearchResult>, i: nat)
    requires i < |s|
  {
    s[i].tmdbId !in seen && forall j :: 0 <= j < i ==> s[j].tmdbId != s[i].tmdbId
  }

  /** The positions of `s` that hold a first fresh result, in increasing
      order. */
  function FreshPositions(seen: set<int>, s: seq<SearchResult>): seq<nat>
    decreases |s|
  {
    if s == [] then []
    else FreshPositions(seen, s[..|s| - 1]) + (if FirstFresh(seen, s, |s| - 1) then [|s| - 1] else [])
  }

  /** The ids the fresh results carry are the ids of `s` not in `seen`. */
  lemma {:induction false} FreshIds(seen: set<int>, s: seq<SearchResult>)
    ensures Ids(FreshById(seen, s)) == Ids(s) - seen
    decreases |s|
  {
    if s != [] {
      var init, last := s[..|s| - 1], s[|s| - 1];
      FreshIds(seen, init);
      assert s == init + [last];
      IdsAppend(init, [last]);
      var f := FreshById(seen, init);
      if !(last.tmdbId in seen || last.tmdbId in Ids(f)) {
        IdsAppend(f, [last]);
      }
    }
  }

  /** The merge keeps exactly the first result of each id not yet seen,
      in the order of `s`: the fresh results are the results at the fresh
      positions, and those positions increase. */
  lemma FreshPositionsExact(seen: set<int>, s: seq<SearchResult>)
    ensures var ps := FreshPositions(seen, s);
      && |ps| == |FreshById(seen, s)|
      && (forall k :: 0 <= k < |ps| ==> ps[k] < |s| && FreshById(seen, s)[k] == s[ps[k]])
      && (forall a, b :: 0 <= a < b < |ps| ==> ps[a] < ps[b])
      && (forall i :: 0 <= i < |s| ==> (FirstFresh(seen, s, i) <==> i in ps))
  {
    FreshAligned(seen, s);
    FreshPositionsFirst(seen, s);
  }

  /** The fresh results are the results at the fresh positions, and those
      positions increase. */
  lemma {:induction false} FreshAligned(seen: set<int>, s: seq<SearchResult>)
    ensures var ps := FreshPositions(seen, s);
      && |ps| == |FreshById(seen, s)|
      && (forall k :: 0 <= k < |ps| ==> ps[k] < |s| && FreshById(seen, s)[k] == s[ps[k]])
      && (forall a, b :: 0 <= a < b < |ps| ==> ps[a] < ps[b])
    decreases |s|
  {
    if s != [] {
      var n := |s| - 1;
      var init := s[..n];
      FreshAligned(seen, init);
      FreshLast(seen, s);
      var f, p0 := FreshById(seen, init), FreshPositions(seen, init);
      var r, ps := FreshById(seen, s), FreshPositions(seen, s);
      if FirstFresh(seen, s, n) {
        assert r == f + [s[n]] && ps == p0 + [n];
        forall k | 0 <= k < |ps| ensures ps[k] < |s| && r[k] == s[ps[k]] {
          if k < |p0| {
            assert ps[k] == p0[k] && r[k] == f[k] == init[p0[k]];
          }
        }
        forall a, b | 0 <= a < b < |ps| ensures ps[a] < ps[b] {
          assert ps[a] == p0[a];
          if b < |p0| {
            assert ps[b] == p0[b];
          }
        }
      } else {
        assert r == f && ps == p0;
        forall k | 0 <= k < |ps| ensures ps[k] < |s| && r[k] == s[ps[k]] {
          assert r[k] == init[p0[k]];
        }
      }
    }
  }

  /** A position is a fresh position exactly when it holds the first
      result of an id not yet seen. */
  lemma {:induction false} FreshPositionsFirst(seen: set<int>, s: seq<SearchResult>)
    ensures forall i :: 0 <= i < |s| ==> (FirstFresh(seen, s, i) <==> i in FreshPositions(seen, s))
    decreases |s|
  {
    if s != [] {
      var n := |s| - 1;
      var init := s[..n];
      FreshPositionsFirst(seen, init);
      FreshAligned(seen, init);
      var p0, ps := FreshPositions(seen, init), FreshPositions(seen, s);
      assert ps == if FirstFresh(seen, s, n) then p0 + [n] else p0;
      forall i | 0 <= i < n ensures FirstFresh(seen, s, i) <==> i in ps {
        assert forall j :: 0 <= j <= i ==> s[j] == init[j];
        assert FirstFresh(seen, s, i) <==> FirstFresh(seen, init, i);
      }
      assert n !in p0;
    }
  }

  /** The last result is kept, at the end, exactly when it is a first
      fresh result. */
  lemma FreshLast(seen: set<int>, s: seq<SearchResult>)
    requires s != []
    ensures var n := |s| - 1;
      var f, p := FreshById(seen, s[..n]), FreshPositions(seen, s[..n]);
      && FreshById(seen, s) == (if FirstFresh(seen, s, n) then f + [s[n]] else f)
      && FreshPositions(seen, s) == (if FirstFresh(seen, s, n) then p + [n] else p)
  {
    var n := |s| - 1;
    var init, last := s[..n], s[n];
    FreshIds(seen, init);
    assert last.tmdbId in Ids(init) <==> exists j :: 0 <= j < n && s[j].tmdbId == last.tmdbId by {
      if last.tmdbId in Ids(init) {
        var j :| 0 <= j < |init| && init[j].tmdbId == last.tmdbId;
        assert s[j] == init[j];
      }
      if exists j :: 0 <= j < n && s[j].tmdbId == last.tmdbId {
        var j :| 0 <= j < n && s[j].tmdbId == last.tmdbId;
        assert init[j] == s[j];
      }
    }
  }

  /** Every result whose id is new is kept. */
  lemma FreshComplete(seen: set<int>, s: seq<SearchResult>, i: nat)
    requires i < |s| && FirstFresh(seen, s, i)
    ensures s[i] in FreshById(seen, s)
  {
    FreshPositionsExact(seen, s);
    var ps := FreshPositions(seen, s);
    var k :| 0 <= k < |ps| && ps[k] == i;
    assert FreshById(seen, s)[k] == s[i];
  }

  /** `search_hybrid` as a value: the keyword results when there are enough
      of them, otherwise the keyword results followed by the semantic
      results with new ids, cut at `limit`. */
  function HybridResults(o: Orchestrator, rows: seq<MovieRow>, query: string, limit: nat): seq<SearchResult> {
    Merge(KeywordResults(rows, query, limit), SemanticResults(o, query, HybridCandidates), limit)
  }

  /** The merge step of the hybrid search. */
  function Merge(keyword: seq<SearchResult>, semantic: seq<SearchResult>, limit: nat): seq<SearchResult> {
    if |keyword| >= limit then keyword[..limit]
    else Take(keyword + FreshById(Ids(keyword), semantic), limit)
  }

  /** How many neighbours the hybrid search asks the semantic search for. */
  const HybridCandidates: nat := 20

  /** The hybrid results: at most `limit`, every keyword result first and in
      keyword order, then semantic results that repeat no id. */
  lemma HybridShape(o: Orchestrator, rows: seq<MovieRow>, query: string, limit: nat)
    ensures var kw := KeywordResults(rows, query, limit);
      var rs := HybridResults(o, rows, query, limit);
      && |rs| <= limit
      && kw <= rs
      && (forall i, j :: 0 <= i < j < |rs| && rs[j].source == Semantic ==> rs[i].tmdbId != rs[j].tmdbId)
      && (forall i :: |kw| <= i < |rs| ==> rs[i] in SemanticResults(o, query, HybridCandidates))
  {
    var kw := KeywordResults(rows, query, limit);
    var sem := SemanticResults(o, query, HybridCandidates);
    var rs := HybridResults(o, rows, query, limit);
    if |kw| < limit {
      var f := FreshById(Ids(kw), sem);
      FreshDistinct(Ids(kw), sem);
      var all := kw + f;
      assert rs <= all;
      forall i | |kw| <= i < |rs| ensures rs[i] == f[i - |kw|] {
      }
      forall i | 0 <= i < |kw| ensures rs[i] == kw[i] && kw[i].source == Keyword && kw[i].tmdbId in Ids(kw) {
      }
      forall i, j | 0 <= i < j < |rs| && rs[j].source == Semantic
        ensures rs[i].tmdbId != rs[j].tmdbId
      {
        assert j >= |kw|;
      }
    }
  }

  /** The hybrid results in full: the first `limit` keyword results when
      there are that many; otherwise the keyword results, then the
      semantic results at the fresh positions, in semantic order, as many
      as fit under `limit`. */
  lemma HybridMerge(o: Orchestrator, rows: seq<MovieRow>, query: string, limit: nat)
    ensures var kw := KeywordResults(rows, query, limit);
      var sem := SemanticResults(o, query, HybridCandidates);
      var rs := HybridResults(o, rows, query, limit);
      var ps := FreshPositions(Ids(kw), sem);
      && (|kw| >= limit ==> rs == kw[..limit])
      && (|kw| < limit ==>
            && kw <= rs
            && |rs| == (if |kw| + |ps| < limit then |kw| + |ps| else limit)
            && forall i :: |kw| <= i < |rs| ==> ps[i - |kw|] < |sem| && rs[i] == sem[ps[i - |kw|]])
  {
    var kw := KeywordResults(rows, query, limit);
    var sem := SemanticResults(o, query, HybridCandidates);
    FreshPositionsExact(Ids(kw), sem);
  }

  /** `search_hybrid`: keyword search first; if it falls short, semantic
      results with ids not seen yet are appended until `limit` is reached. */
  method SearchHybrid(o: Orchestrator, rows: seq<MovieRow>, query: string, limit: nat) returns (combined: seq<SearchResult>)
    ensures combined == HybridResults(o, rows, query, limit)
  {
    var keyword := SearchKeyword(rows, query, limit);
    if |keyword| >= limit {
      return keyword[..limit];
    }
    var semantic := SearchSemantic(o, query, HybridCandidates);
    combined := AppendFresh(keyword, semantic, limit);
  }

  /** The merge loop of `search_hybrid`: appends each semantic result whose
      id is not seen yet and stops once `limit` results are collected. */
  method AppendFresh(keyword: seq<SearchResult>, semantic: seq<SearchResult>, limit: nat) returns (combined: seq<SearchResult>)
    requires |keyword| < limit
    ensures combined == Merge(keyword, semantic, limit)
  {
    var seen := Ids(keyword);
    combined := keyword;
    var i := 0;
    while i < |semantic|
      invariant 0 <= i <= |semantic|
      invariant combined == keyword + FreshById(Ids(keyword), semantic[..i])
      invariant seen == Ids(keyword) + Ids(FreshById(Ids(keyword), semantic[..i]))
      invariant |combined| < limit
      decreases |semantic| - i
    {
      var r := semantic[i];
      SeenStep(Ids(keyword), semantic, i);
      if r.tmdbId !in seen {
        combined := combined + [r];
        seen := seen + {r.tmdbId};
        if |combined| >= limit {
          MergeFull(keyword, semantic, limit, i + 1);
          return combined[..limit];
        }
      }
      i := i + 1;
    }
    assert semantic[..i] == semantic;
    assert Take(combined, limit) == combined;
  }

  /** One step of the merge loop: the next result is taken exactly when its
      id is unseen, and the seen ids grow by it. */
  lemma SeenStep(seen: set<int>, s: seq<SearchResult>, i: nat)
    requires i < |s|
    ensures var p := FreshById(seen, s[..i]);
            var q := FreshById(seen, s[..i + 1]);
      && (s[i].tmdbId in seen + Ids(p) ==> q == p)
      && (s[i].tmdbId !in seen + Ids(p) ==> q == p + [s[i]] && seen + Ids(q) == seen + Ids(p) + {s[i].tmdbId})
  {
    var p := FreshById(seen, s[..i]);
    FreshStep(seen, s, i);
    IdsAppend(p, [s[i]]);
    assert Ids([s[i]]) == {s[i].tmdbId} by {
      assert [s[i]][0].tmdbId in Ids([s[i]]);
    }
  }

  /** Once the fresh results of a prefix of `semantic` fill the limit, the
      rest of `semantic` no longer matters. */
  lemma MergeFull(keyword: seq<SearchResult>, semantic: seq<SearchResult>, limit: nat, n: nat)
    requires |keyword| < limit && n <= |semantic|
    requires |keyword + FreshById(Ids(keyword), semantic[..n])| >= limit
    ensures Merge(keyword, semantic, limit) == (keyword + FreshById(Ids(keyword), semantic[..n]))[..limit]
  {
    var p := keyword + FreshById(Ids(keyword), semantic[..n]);
    var a := keyword + FreshById(Ids(keyword), semantic);
    FreshPrefix(Ids(keyword), semantic, n);
    assert p <= a;
    assert a[..limit] == p[..limit];
  }
}
