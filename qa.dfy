/** The text shaping of the question-answering service: the search query
    taken from a question for the TMDb fallback, the movie record built from
    TMDb's answers, the context handed to the language model, and the
    conversation-history window. The TMDb client is a set of function
    parameters. */
module QaService {
  import opened Wrappers
  import opened Text
  import opened Ranking
  import opened Records

  // ----------------------------------------------------------- quoted span

  /** The first `"` at or after `from`. */
  function NextQuote(s: string, from: nat): (r: Option<nat>)
    ensures r.Some? ==> from <= r.value < |s| && s[r.value] == '"'
    ensures forall k :: from <= k < (if r.Some? then r.value else |s|) ==> s[k] != '"'
    decreases |s| - from
  {
    if from >= |s| then None
    else if s[from] == '"' then Some(from)
    else NextQuote(s, from + 1)
  }

  /** The capture of the leftmost match of `"([^"]+)"` that starts at or
      after `i`: a quote whose next quote is not adjacent. */
  function QuotedFrom(s: string, i: nat): (r: Option<string>)
    ensures r.Some? ==> |r.value| > 0 && '"' !in r.value
    ensures r.Some? ==> exists k :: i < k <= |s| - |r.value| && OccursAt(s, r.value, k)
    decreases |s| - i
  {
    if i >= |s| then None
    else if s[i] != '"' then QuotedFrom(s, i + 1)
    else match NextQuote(s, i + 1)
      case None => None
      case Some(j) =>
        if j > i + 1 then
          assert OccursAt(s, s[i + 1..j], i + 1);
          Some(s[i + 1..j])
        else QuotedFrom(s, i + 1)
  }

  /** `re.findall(r'"([^"]+)"', s)[0]`, if there is a match. */
  function FirstQuoted(s: string): Option<string> {
    QuotedFrom(s, 0)
  }

  /** Scanning past characters that are not quotes changes nothing. */
  lemma {:induction false} QuotedSkip(s: string, i: nat, j: nat)
    requires i <= j <= |s|
    requires forall k :: i <= k < j ==> s[k] != '"'
    ensures QuotedFrom(s, i) == QuotedFrom(s, j)
    decreases j - i
  {
    if i < j {
      QuotedSkip(s, i + 1, j);
    }
  }

  /** A question without quotes has no quoted span. */
  lemma NoQuoteNoSpan(s: string)
    requires '"' !in s
    ensures FirstQuoted(s) == None
  {
    QuotedSkip(s, 0, |s|);
  }

  /** A quote followed, after a non-empty run without quotes, by another
      quote delimits the span found from the first. */
  lemma QuotedAt(s: string, i: nat, j: nat)
    requires i + 1 < j < |s| && s[i] == '"' && s[j] == '"'
    requires forall k :: i < k < j ==> s[k] != '"'
    ensures QuotedFrom(s, i) == Some(s[i + 1..j])
  {
    assert NextQuote(s, i + 1) == Some(j);
  }

  /** The first quoted non-empty span is found, whatever follows it. */
  lemma QuotedSpanFound(before: string, title: string, after: string)
    requires '"' !in before && '"' !in title && |title| > 0
    ensures FirstQuoted(before + "\"" + title + "\"" + after) == Some(title)
  {
    var s := before + "\"" + title + "\"" + after;
    var i := |before|;
    var j := i + 1 + |title|;
    assert s == before + ("\"" + title + "\"" + after);
    assert s[i] == '"' && s[j] == '"';
    assert s[i + 1..j] == title;
    forall k | 0 <= k < i ensures s[k] != '"' {
      assert s[k] == before[k];
    }
    QuotedSkip(s, 0, i);
    forall k | i < k < j ensures s[k] != '"' {
      assert s[k] == title[k - i - 1];
    }
    QuotedAt(s, i, j);
  }

  // -------------------------------------------------------------- patterns

  /** The three patterns of the fallback, in the order they are tried, each
      given by its keyword alternatives (lower case) before `(.+?)`. */
  const Patterns: seq<seq<string>> := [["about "], ["movie ", "film "], ["tell me about "]]

  /** `key` matches the lower-cased question at `p` and leaves at least one
      character for the lazy capture. */
  predicate KeyAt(low: string, key: string, p: nat) {
    p + |key| < |low| && low[p..p + |key|] == key
  }

  /** The first alternative of `keys`, from `k` on, that matches at `p`. */
  function FirstKeyAt(low: string, keys: seq<string>, p: nat, k: nat): (r: Option<nat>)
    requires k <= |keys|
    ensures r.Some? ==> k <= r.value < |keys| && KeyAt(low, keys[r.value], p)
    ensures r.None? ==> forall j :: k <= j < |keys| ==> !KeyAt(low, keys[j], p)
    decreases |keys| - k
  {
    if k == |keys| then None
    else if KeyAt(low, keys[k], p) then Some(k)
    else FirstKeyAt(low, keys, p, k + 1)
  }

  /** The leftmost position at or after `p` where an alternative matches,
      with that alternative: `re.search` scans left to right. */
  function MatchFrom(low: string, keys: seq<string>, p: nat): (r: Option<(nat, nat)>)
    ensures r.Some? ==> p <= r.value.0 && r.value.1 < |keys| && KeyAt(low, keys[r.value.1], r.value.0)
    ensures r.Some? ==> forall q, j :: p <= q < r.value.0 && 0 <= j < |keys| ==> !KeyAt(low, keys[j], q)
    ensures r.None? ==> forall q, j :: p <= q && 0 <= j < |keys| ==> !KeyAt(low, keys[j], q)
    decreases |low| - p
  {
    if p >= |low| then None
    else match FirstKeyAt(low, keys, p, 0)
      case Some(k) => Some((p, k))
      case None => MatchFrom(low, keys, p + 1)
  }

  /** Where the lazy capture may stop: before `?` or `(`, or at the end. */
  predicate Terminator(c: char) {
    c == '?' || c == '('
  }

  function CaptureEnd(s: string, e: nat): (r: nat)
    requires e <= |s|
    ensures e <= r <= |s| && (r == |s| || Terminator(s[r]))
    ensures forall k :: e <= k < r ==> !Terminator(s[k])
    decreases |s| - e
  {
    if e == |s| || Terminator(s[e]) then e else CaptureEnd(s, e + 1)
  }

  /** `(.+?)(?:\?|$|\()` from `q`: the shortest non-empty run that ends
      before a terminator or at the end. */
  function Capture(s: string, q: nat): (r: string)
    requires q < |s|
    ensures |r| > 0 && OccursAt(s, r, q)
    ensures q + |r| == |s| || Terminator(s[q + |r|])
    ensures forall k :: 1 <= k < |r| ==> !Terminator(r[k])
  {
    s[q..CaptureEnd(s, q + 1)]
  }

  /** `re.search(pattern, s, re.IGNORECASE).group(1)`: no capture when no
      alternative matches anywhere; otherwise the lazy capture right after
      the leftmost match. */
  function PatternCapture(s: string, keys: seq<string>): (r: Option<string>)
    ensures r.Some? ==> |r.value| > 0 && Contains(s, r.value)
    ensures var m := MatchFrom(Lower(s), keys, 0);
      && (r.None? <==> m.None?)
      && (m.Some? ==> m.value.0 + |keys[m.value.1]| < |s| && r == Some(Capture(s, m.value.0 + |keys[m.value.1]|)))
  {
    match MatchFrom(Lower(s), keys, 0)
    case None => None
    case Some((p, k)) =>
      var c := Capture(s, p + |keys[k]|);
      assert OccursAt(s, c, p + |keys[k]|);
      Some(c)
  }

  /** The capture of the first pattern, from the `i`-th on, that matches. */
  function FirstPatternCapture(s: string, i: nat): (r: Option<string>)
    requires i <= |Patterns|
    ensures r.Some? ==> Contains(s, r.value)
    decreases |Patterns| - i
  {
    if i == |Patterns| then None
    else match PatternCapture(s, Patterns[i])
      case Some(c) => Some(c)
      case None => FirstPatternCapture(s, i + 1)
  }

  /** The first pattern, from the `i`-th on, that matches decides the
      capture; the later ones are not consulted. */
  lemma {:induction false} FirstPatternDecides(s: string, i: nat, k: nat)
    requires i <= k < |Patterns| && PatternCapture(s, Patterns[k]).Some?
    requires forall j :: i <= j < k ==> PatternCapture(s, Patterns[j]).None?
    ensures FirstPatternCapture(s, i) == PatternCapture(s, Patterns[k])
    decreases k - i
  {
    if i < k {
      FirstPatternDecides(s, i + 1, k);
    }
  }

  /** `p` occurs in a string that occurs in `s`. */
  lemma OccursWithin(s: string, t: string, p: string, i: int, j: int)
    requires OccursAt(s, t, i) && OccursAt(t, p, j)
    ensures OccursAt(s, p, i + j)
  {
    forall k | 0 <= k < |p| ensures s[i + j + k] == p[k] {
      assert s[i + j + k] == t[j + k];
    }
  }

  /** The search query of the fallback: the first quoted span; otherwise
      the stripped capture of the first matching pattern, unless it is
      empty; otherwise the whole question. */
  function ExtractSearchQuery(question: string): (r: string)
    ensures r == question || (|r| > 0 && Contains(question, r))
  {
    match FirstQuoted(question)
    case Some(q) => q
    case None =>
      var c := FirstPatternCapture(question, 0);
      if c.Some? && Strip(c.value) != "" then
        StrippedWithin(question, c.value);
        Strip(c.value)
      else question
  }

  /** Stripping a part of the question leaves a part of the question. */
  lemma StrippedWithin(question: string, c: string)
    requires Contains(question, c) && Strip(c) != ""
    ensures Contains(question, Strip(c))
  {
    var i :| 0 <= i <= |question| - |c| && OccursAt(question, c, i);
    StripInfix(c);
    OccursWithin(question, c, Strip(c), i, |c| - |StripLeft(c)|);
  }

  /** Without a quote, the first matching pattern decides: its capture,
      stripped, is the query, unless the strip is empty, in which case the
      whole question is. */
  lemma ExtractPattern(question: string, k: nat)
    requires FirstQuoted(question).None?
    requires k < |Patterns| && PatternCapture(question, Patterns[k]).Some?
    requires forall j :: 0 <= j < k ==> PatternCapture(question, Patterns[j]).None?
    ensures var c := PatternCapture(question, Patterns[k]).value;
      ExtractSearchQuery(question) == if Strip(c) != "" then Strip(c) else question
  {
    FirstPatternDecides(question, 0, k);
  }

  /** A quoted span decides the query, whatever the patterns would say. */
  lemma ExtractQuoted(before: string, title: string, after: string)
    requires '"' !in before && '"' !in title && |title| > 0
    ensures ExtractSearchQuery(before + "\"" + title + "\"" + after) == title
  {
    QuotedSpanFound(before, title, after);
  }

  /** Without quotes and without a pattern match the question is the
      query. */
  lemma ExtractWholeQuestion(question: string)
    requires '"' !in question
    requires forall i :: 0 <= i < |Patterns| ==> PatternCapture(question, Patterns[i]).None?
    ensures ExtractSearchQuery(question) == question
  {
    NoQuoteNoSpan(question);
    assert FirstPatternCapture(question, 2) == None;
    assert FirstPatternCapture(question, 1) == None;
  }

  /** A key that matches after position `p` makes the scan from `p`
      succeed. */
  lemma {:induction false} MatchFromFinds(low: string, keys: seq<string>, p: nat, q: nat, j: nat)
    requires p <= q && j < |keys| && KeyAt(low, keys[j], q)
    ensures MatchFrom(low, keys, p).Some?
    decreases q - p
  {
    if p < q && FirstKeyAt(low, keys, p, 0).None? {
      MatchFromFinds(low, keys, p + 1, q, j);
    }
  }

  /** The third pattern never decides: wherever `tell me about ` matches,
      `about ` matches too, and it is tried first. */
  lemma ThirdPatternRedundant(s: string)
    ensures PatternCapture(s, Patterns[2]).Some? ==> PatternCapture(s, Patterns[0]).Some?
    ensures FirstPatternCapture(s, 0) ==
      if PatternCapture(s, Patterns[0]).Some? then PatternCapture(s, Patterns[0]) else PatternCapture(s, Patterns[1])
  {
    var low := Lower(s);
    var m := MatchFrom(low, Patterns[2], 0);
    if m.Some? {
      var p := m.value.0;
      var key := "tell me about ";
      assert Patterns[2][m.value.1] == key;
      assert low[p + 8..p + 14] == low[p..p + 14][8..14];
      assert KeyAt(low, "about ", p + 8);
      assert Patterns[0][0] == "about ";
      MatchFromFinds(low, Patterns[0], 0, p + 8, 0);
    }
    assert FirstPatternCapture(s, 3) == None;
  }

  /** The scan stops at the first position where an alternative matches. */
  lemma {:induction false} MatchFromAt(low: string, keys: seq<string>, p: nat, q: nat, k: nat)
    requires p <= q && FirstKeyAt(low, keys, q, 0) == Some(k)
    requires forall r, j :: p <= r < q && 0 <= j < |keys| ==> !KeyAt(low, keys[j], r)
    ensures MatchFrom(low, keys, p) == Some((q, k))
    decreases q - p
  {
    if p < q {
      assert FirstKeyAt(low, keys, p, 0) == None;
      MatchFromAt(low, keys, p + 1, q, k);
    }
  }

  /** A worked case: "Tell me about Inception?", in any capitalisation,
      asks TMDb for "Inception" as written, found by the first pattern. */
  lemma ExtractTellMeAbout(question: string)
    requires Lower(question) == "tell me about inception?"
    ensures ExtractSearchQuery(question) == question[14..23]
  {
    TellMeAboutNoQuote(question);
    TellMeAboutCapture(question);
    TellMeAboutStrip(question);
  }

  lemma TellMeAboutNoQuote(question: string)
    requires Lower(question) == "tell me about inception?"
    ensures FirstQuoted(question) == None
  {
    var low := Lower(question);
    forall k | 0 <= k < |question| ensures question[k] != '"' {
      assert low[k] == LowerChar(question[k]);
    }
    NoQuoteNoSpan(question);
  }

  lemma TellMeAboutCapture(question: string)
    requires Lower(question) == "tell me about inception?"
    ensures PatternCapture(question, Patterns[0]) == Some(question[14..23])
  {
    var low := Lower(question);
    var keys := Patterns[0];
    assert keys == ["about "];
    assert KeyAt(low, "about ", 8);
    forall r, j | 0 <= r < 8 && 0 <= j < |keys| ensures !KeyAt(low, keys[j], r) {
      assert low[r] != 'a';
    }
    MatchFromAt(low, keys, 0, 8, 0);
    assert low[23] == '?' && question[23] == '?';
    forall k | 15 <= k < 23 ensures !Terminator(question[k]) {
      assert low[k] == LowerChar(question[k]);
    }
    assert CaptureEnd(question, 15) == 23;
  }

  lemma TellMeAboutStrip(question: string)
    requires Lower(question) == "tell me about inception?"
    ensures Strip(question[14..23]) == question[14..23] != ""
  {
    var low := Lower(question);
    var c := question[14..23];
    assert low[14] == 'i' && low[22] == 'n';
    assert LowerChar(c[0]) == 'i' && LowerChar(c[|c| - 1]) == 'n';
    StripNoSpace(c);
  }

  // ------------------------------------------------------ TMDb result shape

  /** The first element of TMDb's search results. */
  datatype SearchHit = SearchHit(id: int, title: Option<string>, overview: Option<string>,
                                 popularity: Option<real>, voteAverage: Option<real>)

  /** TMDb's movie details; `None` is an absent key. */
  datatype Details = Details(
    title: Option<string>,
    releaseDate: Option<string>,
    overview: Option<string>,
    popularity: Option<real>,
    voteAverage: Option<real>,
    genres: Option<seq<string>>,
    runtime: Option<int>)

  datatype CrewMember = CrewMember(name: string, job: Option<string>)

  /** TMDb's credits: crew members and the cast's names, in billing
      order. */
  datatype Credits = Credits(crew: Option<seq<CrewMember>>, cast: Option<seq<string>>)

  /** The movie record the fallback returns. */
  datatype FallbackMovie = FallbackMovie(
    tmdbId: int,
    title: string,
    year: Option<int>,
    overview: string,
    popularity: real,
    voteAverage: real,
    genresCsv: string,
    directors: seq<string>,
    cast: seq<string>,
    runtime: int)

  /** The names of the crew members whose job is `Director`, in order. */
  function Directors(crew: seq<CrewMember>): (r: seq<string>)
    ensures |r| <= |crew|
    ensures forall c :: c in crew && c.job == Some("Director") ==> c.name in r
    ensures forall n :: n in r ==> exists c :: c in crew && c.job == Some("Director") && c.name == n
  {
    if crew == [] then []
    else
      assert crew == [crew[0]] + crew[1..];
      (if crew[0].job == Some("Director") then [crew[0].name] else []) + Directors(crew[1..])
  }

  /** Directors are listed in crew order: the list of a crew is the lists
      of its parts, one after the other. */
  lemma {:induction false} DirectorsAppend(a: seq<CrewMember>, b: seq<CrewMember>)
    ensures Directors(a + b) == Directors(a) + Directors(b)
    decreases |a|
  {
    if a != [] {
      assert (a + b)[1..] == a[1..] + b;
      DirectorsAppend(a[1..], b);
    } else {
      assert a + b == b;
    }
  }

  /** A single crew member contributes its name exactly when its job is
      `Director`. */
  lemma DirectorsOne(c: CrewMember)
    ensures Directors([c]) == if c.job == Some("Director") then [c.name] else []
  {
  }

  /** The record built from the first search hit, its details and its
      credits. Missing details make `details.get` fail, which the fallback
      turns into no result. */
  function ShapeFallback(hit: SearchHit, details: Option<Details>, credits: Option<Credits>): (r: Option<FallbackMovie>)
    ensures r.Some? <==> details.Some?
    ensures r.Some? ==> r.value.tmdbId == hit.id && |r.value.cast| <= 10
    ensures r.Some? ==>
      r.value.year == (if details.value.releaseDate.Some? then ReleaseYear(details.value.releaseDate.value) else None)
    ensures r.Some? ==>
      r.value.cast == (if credits.Some? && credits.value.cast.Some? then Take(credits.value.cast.value, 10) else [])
    ensures r.Some? ==>
      r.value.directors == (if credits.Some? && credits.value.crew.Some? then Directors(credits.value.crew.value) else [])
  {
    match details
    case None => None
    case Some(d) =>
      var year := if d.releaseDate.Some? then ReleaseYear(d.releaseDate.value) else None;
      var genres := d.genres.GetOr([]);
      var directors := if credits.Some? && credits.value.crew.Some? then Directors(credits.value.crew.value) else [];
      var cast := if credits.Some? && credits.value.cast.Some? then Take(credits.value.cast.value, 10) else [];
      Some(FallbackMovie(
        hit.id,
        d.title.GetOr(hit.title.GetOr("Unknown")),
        year,
        d.overview.GetOr(hit.overview.GetOr("")),
        d.popularity.GetOr(hit.popularity.GetOr(0.0)),
        d.voteAverage.GetOr(hit.voteAverage.GetOr(0.0)),
        Join(genres, ", "),
        directors,
        cast,
        d.runtime.GetOr(0)))
  }

  /** `_search_tmdb_fallback`: searches TMDb for the extracted query and
      shapes the first hit; `None` when the search finds nothing or fails.
      `search` stands for the client's search call. */
  function TmdbFallback(question: string, search: string -> Option<seq<SearchHit>>,
                        details: int -> Option<Details>, credits: int -> Option<Credits>): (r: Option<FallbackMovie>)
  {
    match search(ExtractSearchQuery(question))
    case None => None
    case Some(hits) =>
      if hits == [] then None else ShapeFallback(hits[0], details(hits[0].id), credits(hits[0].id))
  }

  /** The fallback describes the first hit of the search for the extracted
      query, and only when its details are available. */
  lemma TmdbFallbackFirstHit(question: string, search: string -> Option<seq<SearchHit>>,
                             details: int -> Option<Details>, credits: int -> Option<Credits>)
    ensures var r := TmdbFallback(question, search, details, credits);
      var hits := search(ExtractSearchQuery(question));
      r.Some? <==> hits.Some? && hits.value != [] && details(hits.value[0].id).Some?
    ensures var r := TmdbFallback(question, search, details, credits);
      var hits := search(ExtractSearchQuery(question));
      r.Some? ==> r.value.tmdbId == hits.value[0].id
  {
  }

  /** Without a fallback result the movie list stays empty; a non-empty list
      from the search is kept with its source. */
  function SelectMovies<M>(movies: seq<M>, source: string, fallback: Option<M>): (r: (seq<M>, string))
    ensures r.0 == [] <==> movies == [] && fallback.None?
    ensures movies != [] ==> r == (movies, source)
    ensures movies == [] && fallback.Some? ==> r == ([fallback.value], "tmdb_api")
  {
    if movies == [] then
      match fallback
      case Some(m) => ([m], "tmdb_api")
      case None => (movies, source)
    else (movies, source)
  }

  // --------------------------------------------------------------- context

  /** The fields `_build_context` reads from one movie, already rendered as
      text; `None` is an absent key. */
  datatype MovieInfo = MovieInfo(
    title: Option<string>,
    year: Option<string>,
    overview: Option<string>,
    popularity: Option<string>,
    rating: Option<string>,
    genres: Option<string>,
    directors: seq<string>,
    cast: seq<string>)

  function Header(i: nat, m: MovieInfo): string {
    "Movie " + IntToString(i) + ": " + m.title.GetOr("Unknown") + " (" + m.year.GetOr("N/A") + ")"
  }

  /** The lines after the heading: genres, rating, overview, and the
      director and cast lines when there are names to show. */
  function BlockLines(m: MovieInfo): string {
    "\n"
    + "Genres: " + m.genres.GetOr("Unknown") + "\n"
    + "Rating: " + m.rating.GetOr("0") + "/10 (Popularity: " + m.popularity.GetOr("0") + ")\n"
    + "Overview: " + m.overview.GetOr("No overview available") + "\n"
    + (if m.directors != [] then "Director(s): " + Join(Take(m.directors, 3), ", ") + "\n" else "")
    + (if m.cast != [] then "Cast: " + Join(Take(m.cast, 5), ", ") + "\n" else "")
  }

  /** The text block of the `i`-th movie, before stripping. */
  function Block(i: nat, m: MovieInfo): string {
    "\n" + Header(i, m) + BlockLines(m)
  }

  const NoMovies: string := "No movie information available."

  /** At most this many movies are described. */
  const ContextMovies: nat := 3

  /** The stripped blocks of the shown movies, numbered from 1. */
  function Blocks(shown: seq<MovieInfo>): (r: seq<string>)
    ensures |r| == |shown|
  {
    if shown == [] then [] else Blocks(shown[..|shown| - 1]) + [Strip(Block(|shown|, shown[|shown| - 1]))]
  }

  /** Block `i` describes movie `i` under the number `i + 1`. */
  lemma {:induction false} BlocksNumbered(shown: seq<MovieInfo>, i: nat)
    requires i < |shown|
    ensures Blocks(shown)[i] == Strip(Block(i + 1, shown[i]))
    decreases |shown|
  {
    if i < |shown| - 1 {
      BlocksNumbered(shown[..|shown| - 1], i);
    }
  }

  /** `_build_context` as a value. */
  function ContextText(movies: seq<MovieInfo>): string {
    if movies == [] then NoMovies else Join(Blocks(Take(movies, ContextMovies)), "\n\n")
  }

  /** `_build_context`: one stripped block per movie among the first three,
      numbered from 1, joined by blank lines. */
  method BuildContext(movies: seq<MovieInfo>) returns (context: string)
    ensures context == ContextText(movies)
  {
    if movies == [] {
      return NoMovies;
    }
    var parts := BlockTexts(Take(movies, ContextMovies));
    context := Join(parts, "\n\n");
  }

  /** The loop of `_build_context` over the shown movies. */
  method BlockTexts(shown: seq<MovieInfo>) returns (parts: seq<string>)
    ensures parts == Blocks(shown)
  {
    parts := [];
    for i := 0 to |shown|
      invariant parts == Blocks(shown[..i])
    {
      BlocksSnoc(shown, i);
      parts := parts + [Strip(Block(i + 1, shown[i]))];
    }
    assert shown[..|shown|] == shown;
  }

  /** One more movie adds its block at the end. */
  lemma BlocksSnoc(shown: seq<MovieInfo>, i: nat)
    requires i < |shown|
    ensures Blocks(shown[..i + 1]) == Blocks(shown[..i]) + [Strip(Block(i + 1, shown[i]))]
  {
    assert shown[..i + 1][..i] == shown[..i];
  }

  /** Each block begins with its number, the title and the year. */
  lemma BlockStartsWithHeader(i: nat, m: MovieInfo)
    ensures StartsWith(Strip(Block(i, m)), Header(i, m))
  {
    var h := Header(i, m);
    assert h[0] == 'M' && h[|h| - 1] == ')';
    StripKeepsHeading(h, BlockLines(m));
  }

  /** Only the first three directors and the first five cast members are
      shown. */
  lemma BlockShowsFewNames(i: nat, m: MovieInfo)
    ensures Block(i, m) == Block(i, m.(directors := Take(m.directors, 3), cast := Take(m.cast, 5)))
  {
    assert BlockLines(m) == BlockLines(m.(directors := Take(m.directors, 3), cast := Take(m.cast, 5)));
  }

  /** Movies after the third do not change the context. */
  lemma ContextFirstThree(movies: seq<MovieInfo>)
    requires |movies| > ContextMovies
    ensures ContextText(movies) == ContextText(movies[..ContextMovies])
  {
    assert Take(movies, ContextMovies) == Take(movies[..ContextMovies], ContextMovies);
  }

  // --------------------------------------------------------------- history

  /** One message of the conversation; `None` is an absent key. */
  datatype Message = Message(role: Option<string>, content: Option<string>)

  function HistoryLine(m: Message): string {
    Capitalize(m.role.GetOr("user")) + ": " + m.content.GetOr("") + "\n"
  }

  function HistoryLines(msgs: seq<Message>): (r: seq<string>)
    ensures |r| == |msgs| && forall i :: 0 <= i < |msgs| ==> r[i] == HistoryLine(msgs[i])
  {
    seq(|msgs|, i requires 0 <= i < |msgs| => HistoryLine(msgs[i]))
  }

  /** The lines of the messages, one after another. */
  function HistoryText(msgs: seq<Message>): string {
    Concat(HistoryLines(msgs))
  }

  /** At most this many recent messages are shown to the model. */
  const HistoryWindow: nat := 5

  /** `conversation_history[-5:]`. */
  function Recent(history: seq<Message>): (r: seq<Message>)
    ensures |r| <= HistoryWindow && |r| <= |history| && r == history[|history| - |r|..]
    ensures |history| <= HistoryWindow ==> r == history
  {
    if |history| <= HistoryWindow then history else history[|history| - HistoryWindow..]
  }

  /** The history string of `answer_question_with_llm`. */
  method HistoryString(history: seq<Message>) returns (h: string)
    ensures h == HistoryText(Recent(history))
  {
    h := "";
    if history != [] {
      var window := Recent(history);
      ghost var lines := HistoryLines(window);
      for i := 0 to |window|
        invariant h == Concat(lines[..i])
      {
        assert lines[..i + 1][..i] == lines[..i];
        h := h + HistoryLine(window[i]);
      }
      assert lines[..|window|] == lines;
    }
  }

  /** The history text of two runs of messages is the two texts in turn. */
  lemma HistoryTextAppend(a: seq<Message>, b: seq<Message>)
    ensures HistoryText(a + b) == HistoryText(a) + HistoryText(b)
  {
    assert HistoryLines(a + b) == HistoryLines(a) + HistoryLines(b);
    ConcatAppend(HistoryLines(a), HistoryLines(b));
  }

  /** Messages older than the last five never reach the model. */
  lemma HistoryOnlyRecent(older: seq<Message>, recent: seq<Message>)
    requires |recent| == HistoryWindow
    ensures HistoryText(Recent(older + recent)) == HistoryText(recent)
  {
    assert (older + recent)[|older|..] == recent;
  }

  /** A message without a role is shown as the user's. */
  lemma HistoryDefaultRole(content: string)
    ensures HistoryLine(Message(None, Some(content))) == "User: " + content + "\n"
  {
    assert Capitalize("user") == "User";
  }
}
