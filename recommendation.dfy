/** Recommending one movie from preferences: a filtered query against the
    record store first, TMDb's discover listing when that finds nothing.
    The database, TMDb and the random pick are inputs. */
module Recommendation {
  import opened Wrappers
  import opened Text
  import opened Ranking
  import opened Records

  // ------------------------------------------------------ placeholder text

  /** The number of `%s` placeholders in `s`. */
  function Placeholders(s: string): nat
    decreases |s|
  {
    if |s| < 2 then 0 else (if s[0] == '%' && s[1] == 's' then 1 else 0) + Placeholders(s[1..])
  }

  /** `s` does not end in `%`, so nothing appended to it can complete a
      placeholder across the seam. */
  predicate Closed(s: string) {
    s == [] || s[|s| - 1] != '%'
  }

  predicate NoPercent(s: string) {
    forall i :: 0 <= i < |s| ==> s[i] != '%'
  }

  lemma {:induction false} NoPercentCount(s: string)
    requires NoPercent(s)
    ensures Placeholders(s) == 0
    decreases |s|
  {
    if |s| >= 2 {
      NoPercentCount(s[1..]);
    }
  }

  lemma {:induction false} CountAppend(a: string, b: string)
    requires Closed(a)
    ensures Placeholders(a + b) == Placeholders(a) + Placeholders(b)
    ensures Closed(b) ==> Closed(a + b)
    decreases |a|
  {
    if a == [] {
      assert a + b == b;
    } else {
      assert (a + b)[1..] == a[1..] + b;
      CountAppend(a[1..], b);
    }
  }

  lemma {:induction false} NoPercentJoin(parts: seq<string>, sep: string)
    requires NoPercent(sep) && forall i :: 0 <= i < |parts| ==> NoPercent(parts[i])
    ensures NoPercent(Join(parts, sep))
    decreases |parts|
  {
    if |parts| > 1 {
      NoPercentJoin(parts[1..], sep);
    }
  }

  function Repeat<T>(x: T, n: nat): (r: seq<T>)
    ensures |r| == n && forall i :: 0 <= i < n ==> r[i] == x
  {
    seq(n, _ => x)
  }

  lemma {:induction false} JoinRepeatCount(x: string, n: nat, sep: string)
    requires x != [] && Closed(x) && Closed(sep) && Placeholders(sep) == 0
    ensures Placeholders(Join(Repeat(x, n), sep)) == n * Placeholders(x)
    ensures n > 0 ==> Closed(Join(Repeat(x, n), sep))
    decreases n
  {
    if n > 1 {
      var rest := Repeat(x, n)[1..];
      assert rest == Repeat(x, n - 1);
      JoinRepeatCount(x, n - 1, sep);
      CountAppend(x, sep);
      CountAppend(x + sep, Join(rest, sep));
    }
  }

  // --------------------------------------------------- the database query

  const Slot: string := "%s"

  const SelectColumns: seq<string> :=
    ["m.tmdb_id", "m.title", "m.release_date", "m.overview", "m.popularity", "m.vote_average", "m.genres_csv", "m.year"]

  /** The query before any filter: only rated movies. */
  const BaseQuery: string := "SELECT DISTINCT " + Join(SelectColumns, ", ") + " FROM movies m WHERE m.vote_average > 0"

  const GenreTest: string := "m.genres_csv ILIKE " + Slot

  const YearFilter: string := " AND m.year = ANY(" + Slot + ")"

  const Ordering: string := " ORDER BY " + Join(["m.popularity DESC", "m.vote_average DESC"], ", ")

  const Limit: string := " LIMIT 20"

  /** A query parameter: a text, or the integer list bound to `ANY`. */
  datatype Param = Str(s: string) | IntList(values: seq<int>)

  /** The years that `int()` accepts, in order; the others are skipped. */
  function ParsedYears(years: seq<string>): seq<int>
    decreases |years|
  {
    if years == [] then []
    else
      var y := ParseInt(years[|years| - 1]);
      ParsedYears(years[..|years| - 1]) + (if y.Some? then [y.value] else [])
  }

  function GenreFilter(genres: seq<string>): string {
    if genres == [] then "" else " AND (" + Join(Repeat(GenreTest, |genres|), " OR ") + ")"
  }

  function YearFilterFor(parsed: seq<int>): string {
    if parsed == [] then "" else YearFilter
  }

  function ExcludeFilter(exclude: seq<string>): string {
    if exclude == [] then "" else " AND m.title NOT IN (" + Join(Repeat(Slot, |exclude|), ",") + ")"
  }

  /** One `%genre%` pattern per genre. */
  function GenreParams(genres: seq<string>): seq<Param> {
    seq(|genres|, i requires 0 <= i < |genres| => Str("%" + genres[i] + "%"))
  }

  function YearParams(parsed: seq<int>): seq<Param> {
    if parsed == [] then [] else [IntList(parsed)]
  }

  function ExcludeParams(exclude: seq<string>): seq<Param> {
    seq(|exclude|, i requires 0 <= i < |exclude| => Str(exclude[i]))
  }

  /** The query text and its parameters for the given genres, parsed
      years and excluded titles. */
  function DbQueryText(genres: seq<string>, parsed: seq<int>, exclude: seq<string>): string {
    BaseQuery + GenreFilter(genres) + YearFilterFor(parsed) + ExcludeFilter(exclude) + (Ordering + Limit)
  }

  function DbQueryArgs(genres: seq<string>, parsed: seq<int>, exclude: seq<string>): seq<Param> {
    GenreParams(genres) + YearParams(parsed) + ExcludeParams(exclude)
  }

  /** Every year in the list comes from a text of the input that parses. */
  lemma {:induction false} ParsedYearsSound(years: seq<string>)
    ensures forall v :: v in ParsedYears(years) ==> exists y :: y in years && ParseInt(y) == Some(v)
    decreases |years|
  {
    if years != [] {
      var init, last := years[..|years| - 1], years[|years| - 1];
      ParsedYearsSound(init);
      assert years == init + [last];
    }
  }

  /** Every text of the input that parses contributes its year. */
  lemma {:induction false} ParsedYearsComplete(years: seq<string>)
    ensures forall y :: y in years && ParseInt(y).Some? ==> ParseInt(y).value in ParsedYears(years)
    decreases |years|
  {
    if years != [] {
      var init, last := years[..|years| - 1], years[|years| - 1];
      ParsedYearsComplete(init);
      assert years == init + [last];
    }
  }

  /** The year filter is dropped exactly when no text parses. */
  lemma {:induction false} ParsedYearsEmpty(years: seq<string>)
    ensures ParsedYears(years) == [] <==> forall y :: y in years ==> ParseInt(y).None?
    decreases |years|
  {
    if years != [] {
      var init, last := years[..|years| - 1], years[|years| - 1];
      ParsedYearsEmpty(init);
      assert years == init + [last];
      assert ParsedYears(years) == ParsedYears(init) + (if ParseInt(last).Some? then [ParseInt(last).value] else []);
      assert (forall y :: y in years ==> ParseInt(y).None?) <==>
        (forall y :: y in init ==> ParseInt(y).None?) && ParseInt(last).None?;
    }
  }

  lemma BaseQueryPlain()
    ensures NoPercent(BaseQuery) && Closed(BaseQuery) && BaseQuery != []
  {
    forall i | 0 <= i < |SelectColumns| ensures NoPercent(SelectColumns[i]) {
    }
    NoPercentJoin(SelectColumns, ", ");
    assert NoPercent(" FROM movies m WHERE m.vote_average > 0");
  }

  lemma TailPlain()
    ensures NoPercent(Ordering + Limit)
  {
    var keys := ["m.popularity DESC", "m.vote_average DESC"];
    forall i | 0 <= i < |keys| ensures NoPercent(keys[i]) {
    }
    NoPercentJoin(keys, ", ");
  }

  lemma SlotCount()
    ensures Placeholders(Slot) == 1 && Closed(Slot)
  {
    assert Slot[1..] == "s";
  }

  /** A plain text followed by one placeholder. */
  lemma SlotAfter(pre: string)
    requires NoPercent(pre)
    ensures Placeholders(pre + Slot) == 1 && Closed(pre + Slot)
  {
    SlotCount();
    NoPercentCount(pre);
    CountAppend(pre, Slot);
  }

  /** Plain text around `mid` adds no placeholder. */
  lemma Enclosed(pre: string, mid: string, post: string)
    requires NoPercent(pre) && NoPercent(post) && post != [] && Closed(mid)
    ensures Placeholders(pre + mid + post) == Placeholders(mid) && Closed(pre + mid + post)
  {
    NoPercentCount(pre);
    NoPercentCount(post);
    CountAppend(pre, mid);
    CountAppend(pre + mid, post);
  }

  lemma GenreTestCount()
    ensures Placeholders(GenreTest) == 1 && Closed(GenreTest) && GenreTest != []
  {
    SlotAfter("m.genres_csv ILIKE ");
  }

  lemma YearFilterCount()
    ensures Placeholders(YearFilter) == 1 && Closed(YearFilter)
  {
    SlotCount();
    Enclosed(" AND m.year = ANY(", Slot, ")");
  }

  lemma GenreFilterCount(genres: seq<string>)
    ensures Placeholders(GenreFilter(genres)) == |genres| && Closed(GenreFilter(genres))
  {
    if genres != [] {
      GenreTestCount();
      NoPercentCount(" OR ");
      JoinRepeatCount(GenreTest, |genres|, " OR ");
      Enclosed(" AND (", Join(Repeat(GenreTest, |genres|), " OR "), ")");
    }
  }

  lemma ExcludeFilterCount(exclude: seq<string>)
    ensures Placeholders(ExcludeFilter(exclude)) == |exclude| && Closed(ExcludeFilter(exclude))
  {
    if exclude != [] {
      SlotCount();
      NoPercentCount(",");
      JoinRepeatCount(Slot, |exclude|, ",");
      Enclosed(" AND m.title NOT IN (", Join(Repeat(Slot, |exclude|), ","), ")");
    }
  }

  /** Placeholders add up over closed pieces between plain ones. */
  lemma QueryCount(b: string, g: string, y: string, e: string, tail: string)
    requires NoPercent(b) && Closed(g) && Closed(y) && Closed(e) && NoPercent(tail)
    ensures Placeholders(b + g + y + e + tail) == Placeholders(g) + Placeholders(y) + Placeholders(e)
  {
    NoPercentCount(b);
    NoPercentCount(tail);
    CountAppend(b, g);
    CountAppend(b + g, y);
    CountAppend(b + g + y, e);
    CountAppend(b + g + y + e, tail);
  }

  lemma QueryFrame(b: string, g: string, y: string, e: string, tail: string)
    ensures StartsWith(b + g + y + e + tail, b)
    ensures var q := b + g + y + e + tail; |tail| <= |q| && q[|q| - |tail|..] == tail
  {
    assert b + g + y + e + tail == b + (g + y + e + tail);
    assert b + g + y + e + tail == (b + g + y + e) + tail;
  }

  /** The parameters are the genre patterns, the parsed year list and the
      excluded titles, in that order. */
  lemma DbQueryParams(genres: seq<string>, parsed: seq<int>, exclude: seq<string>)
    ensures var ps := DbQueryArgs(genres, parsed, exclude);
      && |ps| == |genres| + (if parsed == [] then 0 else 1) + |exclude|
      && (forall i :: 0 <= i < |genres| ==> ps[i] == Str("%" + genres[i] + "%"))
      && (parsed != [] ==> ps[|genres|] == IntList(parsed))
      && (forall j :: 0 <= j < |exclude| ==> ps[|ps| - |exclude| + j] == Str(exclude[j]))
  {
  }

  /** The query has exactly one placeholder per parameter. */
  lemma DbQueryPlaceholders(genres: seq<string>, parsed: seq<int>, exclude: seq<string>)
    ensures Placeholders(DbQueryText(genres, parsed, exclude)) == |DbQueryArgs(genres, parsed, exclude)|
  {
    BaseQueryPlain();
    TailPlain();
    YearFilterCount();
    GenreFilterCount(genres);
    ExcludeFilterCount(exclude);
    DbQueryParams(genres, parsed, exclude);
    QueryCount(BaseQuery, GenreFilter(genres), YearFilterFor(parsed), ExcludeFilter(exclude), Ordering + Limit);
  }

  /** Every query keeps the rating filter in front and ends with the
      ordering and the limit of twenty. */
  lemma DbQueryFrame(genres: seq<string>, parsed: seq<int>, exclude: seq<string>)
    ensures var q := DbQueryText(genres, parsed, exclude);
      && StartsWith(q, BaseQuery)
      && |Ordering + Limit| <= |q| && q[|q| - |Ordering + Limit|..] == Ordering + Limit
  {
    QueryFrame(BaseQuery, GenreFilter(genres), YearFilterFor(parsed), ExcludeFilter(exclude), Ordering + Limit);
  }

  /** The genre loop of `_search_from_db`: one condition and one pattern
      per genre. */
  method GenreConditions(genres: seq<string>) returns (conditions: seq<string>, params: seq<Param>)
    ensures conditions == Repeat(GenreTest, |genres|)
    ensures params == GenreParams(genres)
  {
    conditions, params := [], [];
    for i := 0 to |genres|
      invariant conditions == Repeat(GenreTest, i)
      invariant params == GenreParams(genres[..i])
    {
      conditions := conditions + [GenreTest];
      params := params + [Str("%" + genres[i] + "%")];
    }
    assert genres[..|genres|] == genres;
  }

  /** The year loop of `_search_from_db`: the years that parse, in order. */
  method ParseYears(years: seq<string>) returns (values: seq<int>)
    ensures values == ParsedYears(years)
  {
    values := [];
    for i := 0 to |years|
      invariant values == ParsedYears(years[..i])
    {
      assert years[..i + 1][..i] == years[..i];
      var v := ParseInt(years[i]);
      if v.Some? {
        values := values + [v.value];
      }
    }
    assert years[..|years|] == years;
  }

  /** `_search_from_db`'s query building: the genre conditions, the parsed
      years, a placeholder per excluded title, then ordering and limit. */
  method BuildDbQuery(genres: seq<string>, years: seq<string>, exclude: seq<string>)
    returns (query: string, params: seq<Param>)
    ensures query == DbQueryText(genres, ParsedYears(years), exclude)
    ensures params == DbQueryArgs(genres, ParsedYears(years), exclude)
  {
    query, params := AddFilters(BaseQuery, genres, years, exclude);
    query := query + (Ordering + Limit);
  }

  /** The genre, year and exclusion filters appended, in that order, to
      the query `base`, with their parameters. */
  method AddFilters(base: string, genres: seq<string>, years: seq<string>, exclude: seq<string>)
    returns (query: string, params: seq<Param>)
    ensures query == base + GenreFilter(genres) + YearFilterFor(ParsedYears(years)) + ExcludeFilter(exclude)
    ensures params == DbQueryArgs(genres, ParsedYears(years), exclude)
  {
    query, params := base, [];
    var genreFilter, genreParams := GenreClause(genres);
    query, params := query + genreFilter, params + genreParams;
    assert params == genreParams;
    var yearFilter, yearParams := YearClause(years);
    query, params := query + yearFilter, params + yearParams;
    var excludeFilter, excludeParams := ExcludeClause(exclude);
    query, params := query + excludeFilter, params + excludeParams;
  }

  /** The genre step: nothing without genres, otherwise the conditions
      joined by `OR` and one pattern per genre. */
  method GenreClause(genres: seq<string>) returns (filter: string, params: seq<Param>)
    ensures filter == GenreFilter(genres) && params == GenreParams(genres)
  {
    filter, params := "", [];
    if |genres| > 0 {
      var conditions;
      conditions, params := GenreConditions(genres);
      filter := " AND (" + Join(conditions, " OR ") + ")";
    } else {
      assert params == GenreParams(genres);
    }
  }

  /** The year step: the year filter and the list of years when some year
      parses, otherwise nothing. */
  method YearClause(years: seq<string>) returns (filter: string, params: seq<Param>)
    ensures filter == YearFilterFor(ParsedYears(years)) && params == YearParams(ParsedYears(years))
  {
    filter, params := "", [];
    if |years| > 0 {
      var values := ParseYears(years);
      if |values| > 0 {
        filter := YearFilter;
        params := [IntList(values)];
      }
    } else {
      assert ParsedYears(years) == [];
    }
  }

  /** The exclusion step: one placeholder and one parameter per excluded
      title. */
  method ExcludeClause(exclude: seq<string>) returns (filter: string, params: seq<Param>)
    ensures filter == ExcludeFilter(exclude) && params == ExcludeParams(exclude)
  {
    filter, params := "", [];
    if |exclude| > 0 {
      filter := " AND m.title NOT IN (" + Join(Repeat(Slot, |exclude|), ",") + ")";
      params := ExcludeParams(exclude);
    } else {
      assert params == ExcludeParams(exclude);
    }
  }

  // ------------------------------------------------------ genre mapping

  /** TMDb's genre ids by exact genre name. */
  const GenreIds: map<string, int> := map[
    "Action" := 28, "Adventure" := 12, "Animation" := 16, "Comedy" := 35, "Crime" := 80,
    "Documentary" := 99, "Drama" := 18, "Family" := 10751, "Fantasy" := 14, "History" := 36,
    "Horror" := 27, "Music" := 10402, "Mystery" := 9648, "Romance" := 10749,
    "Science Fiction" := 878, "Sci-Fi" := 878, "TV Movie" := 10770, "Thriller" := 53,
    "War" := 10752, "Western" := 37]

  /** The id texts of the recognised genres, in input order; each name is
      stripped and matched case-sensitively, unknown names dropped. */
  function GenreIdTexts(genres: seq<string>): seq<string> {
    IdTexts(genres, GenreIds)
  }

  /** The id texts that `table` gives the stripped names, skipping names
      it lacks or maps to zero. */
  function IdTexts(names: seq<string>, table: map<string, int>): seq<string>
    decreases |names|
  {
    if names == [] then []
    else
      var g := Strip(names[|names| - 1]);
      IdTexts(names[..|names| - 1], table)
      + (if g in table && table[g] != 0 then [IntToString(table[g])] else [])
  }

  /** The genre loop of `_search_from_tmdb`. */
  method MapGenres(genres: seq<string>) returns (ids: seq<string>)
    ensures ids == GenreIdTexts(genres)
  {
    ids := [];
    for i := 0 to |genres|
      invariant ids == IdTexts(genres[..i], GenreIds)
    {
      assert genres[..i + 1][..i] == genres[..i];
      var name := Strip(genres[i]);
      if name in GenreIds && GenreIds[name] != 0 {
        ids := ids + [IntToString(GenreIds[name])];
      }
    }
    assert genres[..|genres|] == genres;
  }

  /** Every id text belongs to a recognised name of the input, and every
      recognised name contributes its id. */
  lemma {:induction false} IdTextsExact(names: seq<string>, table: map<string, int>)
    ensures forall t :: t in IdTexts(names, table) ==>
      exists g :: g in names && Strip(g) in table && table[Strip(g)] != 0 && t == IntToString(table[Strip(g)])
    ensures forall g :: g in names && Strip(g) in table && table[Strip(g)] != 0 ==>
      IntToString(table[Strip(g)]) in IdTexts(names, table)
    ensures |IdTexts(names, table)| <= |names|
    decreases |names|
  {
    if names != [] {
      var init := names[..|names| - 1];
      IdTextsExact(init, table);
      assert names == init + [names[|names| - 1]];
    }
  }

  /** Every recognised genre name starts with a capital letter. */
  lemma GenreNamesCapitalised()
    ensures forall k :: k in GenreIds ==> |k| > 0 && 'A' <= k[0] <= 'Z'
  {
  }

  /** Genre names are matched exactly: a name whose stripped form starts
      with a lower-case letter, such as "action", is not recognised. */
  lemma GenreCaseSensitive(g: string)
    requires |Strip(g)| > 0 && 'a' <= Strip(g)[0] <= 'z'
    ensures GenreIdTexts([g]) == []
  {
    GenreNamesCapitalised();
    var names := [g];
    assert names[..|names| - 1] == [] && names[|names| - 1] == g;
    assert IdTexts([], GenreIds) == [];
  }

  /** TMDb's discover arguments. */
  datatype Discover = Discover(sortBy: string, page: nat, withGenres: Option<string>, primaryReleaseYear: Option<int>)

  /** The discover arguments: genres by id when any is recognised, and the
      first year when it parses. */
  function DiscoverArgs(genres: seq<string>, years: seq<string>): Discover {
    var ids := GenreIdTexts(genres);
    Discover("popularity.desc", 1,
             if ids == [] then None else Some(Join(ids, ",")),
             if years == [] then None else ParseInt(years[0]))
  }

  /** Only the first year is used: the later ones never change the
      arguments. */
  lemma DiscoverFirstYearOnly(genres: seq<string>, y: string, rest1: seq<string>, rest2: seq<string>)
    ensures DiscoverArgs(genres, [y] + rest1) == DiscoverArgs(genres, [y] + rest2)
    ensures DiscoverArgs(genres, [y] + rest1).primaryReleaseYear == ParseInt(y)
  {
  }

  /** No genre filter unless some name is recognised. */
  lemma DiscoverGenres(genres: seq<string>)
    ensures DiscoverArgs(genres, []).withGenres.Some? <==>
      exists g :: g in genres && Strip(g) in GenreIds && GenreIds[Strip(g)] != 0
  {
    IdTextsExact(genres, GenreIds);
    if DiscoverArgs(genres, []).withGenres.Some? {
      var t := GenreIdTexts(genres)[0];
      assert t in GenreIdTexts(genres);
    }
  }

  // ------------------------------------------------------ result shaping

  /** The recommendation returned to the caller. */
  datatype Recommended = Recommended(
    tmdbId: int,
    title: string,
    genre: string,
    duration: int,
    cast: seq<string>,
    rating: real,
    region: string,
    overview: Option<string>)

  /** `random.choice`: the `choice`-th candidate, counted round. */
  function Pick<T>(candidates: seq<T>, choice: nat): (r: T)
    requires candidates != []
    ensures r in candidates
  {
    candidates[choice % |candidates|]
  }

  /** Every candidate can be the pick. */
  lemma PickReachesAll<T>(candidates: seq<T>, i: nat)
    requires i < |candidates|
    ensures Pick(candidates, i) == candidates[i]
  {
    assert i % |candidates| == i;
  }

  /** One row of the database query. */
  datatype DbRow = DbRow(
    tmdbId: int,
    title: Option<string>,
    releaseDate: Option<string>,
    overview: Option<string>,
    popularity: Option<real>,
    voteAverage: Option<real>,
    genresCsv: Option<string>,
    year: Option<int>)

  const UnknownMovie: string := "Unknown Movie"

  function DbRecommended(row: DbRow, cast: seq<string>): Recommended {
    var year := if row.year.Some? then row.year.value else 0;
    Recommended(
      row.tmdbId,
      if Truthy(row.title) then row.title.value + " (" + IntToString(year) + ")" else UnknownMovie,
      if Truthy(row.genresCsv) then row.genresCsv.value else "N/A",
      0, cast, row.voteAverage.GetOr(0.0), "Unknown", row.overview)
  }

  /** `_search_from_db`. `run` is the database answering a query (`None`
      when it raises) and `castOf` the names the cast query returns. */
  function SearchFromDb(genres: seq<string>, years: seq<string>, exclude: seq<string>,
                        run: (string, seq<Param>) -> Option<seq<DbRow>>,
                        castOf: int -> Option<seq<string>>, choice: nat): Option<Recommended>
  {
    var parsed := ParsedYears(years);
    match run(DbQueryText(genres, parsed, exclude), DbQueryArgs(genres, parsed, exclude))
    case None => None
    case Some(rows) =>
      if rows == [] then None
      else
        var row := Pick(rows, choice);
        match castOf(row.tmdbId)
        case None => None
        case Some(cast) => Some(DbRecommended(row, cast))
  }

  /** A database recommendation describes one row the query returned and
      the cast found for it: the title with the year in parentheses (0 for
      a missing year), or "Unknown Movie" without a title; "N/A" without
      genres; a rating of 0 when missing; no runtime and no region. */
  lemma SearchFromDbPicksRow(genres: seq<string>, years: seq<string>, exclude: seq<string>,
                             run: (string, seq<Param>) -> Option<seq<DbRow>>,
                             castOf: int -> Option<seq<string>>, choice: nat)
    requires SearchFromDb(genres, years, exclude, run, castOf, choice).Some?
    ensures var r := SearchFromDb(genres, years, exclude, run, castOf, choice).value;
            var parsed := ParsedYears(years);
            var rows := run(DbQueryText(genres, parsed, exclude), DbQueryArgs(genres, parsed, exclude));
      && rows.Some?
      && exists row :: row in rows.value && castOf(row.tmdbId).Some?
           && r.tmdbId == row.tmdbId && r.overview == row.overview
           && r.title == (if Truthy(row.title) then row.title.value + " (" + IntToString(row.year.GetOr(0)) + ")" else UnknownMovie)
           && r.genre == (if Truthy(row.genresCsv) then row.genresCsv.value else "N/A")
           && r.rating == row.voteAverage.GetOr(0.0)
           && r.cast == castOf(row.tmdbId).value
           && r.duration == 0 && r.region == "Unknown"
  {
    var parsed := ParsedYears(years);
    var rows := run(DbQueryText(genres, parsed, exclude), DbQueryArgs(genres, parsed, exclude)).value;
    var row := Pick(rows, choice);
    assert row in rows;
  }

  /** One hit of TMDb's discover listing. */
  datatype DiscoverHit = DiscoverHit(id: int, title: Option<string>, releaseDate: Option<string>,
                                     voteAverage: Option<real>, overview: Option<string>)

  /** TMDb's credits reply; `None` is an absent `cast` key. */
  datatype CastReply = CastReply(cast: Option<seq<string>>)

  datatype Country = Country(name: Option<string>)

  /** TMDb's details reply; `None` is an absent key. */
  datatype DetailsReply = DetailsReply(productionCountries: Option<seq<Country>>,
                                       genres: Option<seq<string>>, runtime: Option<int>)

  /** Only this many of the discover hits are candidates. */
  const TmdbCandidates: nat := 10

  function Region(d: DetailsReply): string {
    match d.productionCountries
    case Some(cs) => if cs != [] then cs[0].name.GetOr("Unknown") else "Unknown"
    case None => "Unknown"
  }

  function TmdbRecommended(m: DiscoverHit, credits: Option<CastReply>, d: DetailsReply): Recommended {
    var names := d.genres.GetOr([]);
    Recommended(
      m.id,
      if Truthy(m.title) then m.title.value + " (" + Take(m.releaseDate.GetOr(""), 4) + ")" else UnknownMovie,
      if names != [] then Join(names, ", ") else "N/A",
      d.runtime.GetOr(0),
      if credits.Some? && credits.value.cast.Some? then Take(credits.value.cast.value, 5) else [],
      m.voteAverage.GetOr(0.0),
      Region(d),
      Some(m.overview.GetOr("")))
  }

  /** `_search_from_tmdb`. `discover`, `creditsOf` and `detailsOf` are the
      TMDb client's replies (`None` when it returns nothing). Missing
      details end the search: the genres check then raises. */
  function SearchFromTmdb(genres: seq<string>, years: seq<string>,
                          discover: Discover -> Option<seq<DiscoverHit>>,
                          creditsOf: int -> Option<CastReply>,
                          detailsOf: int -> Option<DetailsReply>, choice: nat): Option<Recommended>
  {
    match discover(DiscoverArgs(genres, years))
    case None => None
    case Some(movies) =>
      if movies == [] then None
      else
        var m := Pick(Take(movies, TmdbCandidates), choice);
        match detailsOf(m.id)
        case None => None
        case Some(d) => Some(TmdbRecommended(m, creditsOf(m.id), d))
  }

  /** A TMDb recommendation is one of the first ten discover hits and
      lists at most five cast members. */
  lemma SearchFromTmdbTopTen(genres: seq<string>, years: seq<string>,
                             discover: Discover -> Option<seq<DiscoverHit>>,
                             creditsOf: int -> Option<CastReply>,
                             detailsOf: int -> Option<DetailsReply>, choice: nat)
    requires SearchFromTmdb(genres, years, discover, creditsOf, detailsOf, choice).Some?
    ensures var r := SearchFromTmdb(genres, years, discover, creditsOf, detailsOf, choice).value;
            var movies := discover(DiscoverArgs(genres, years));
      && movies.Some?
      && (exists i :: 0 <= i < |movies.value| && i < TmdbCandidates && movies.value[i].id == r.tmdbId)
      && |r.cast| <= 5
  {
    var movies := discover(DiscoverArgs(genres, years)).value;
    var top := Take(movies, TmdbCandidates);
    var m := Pick(top, choice);
    var i :| 0 <= i < |top| && top[i] == m;
    assert movies[i] == m;
  }

  /** `recommend_movie`: the database first, TMDb only when it has
      nothing, `None` when both fail. */
  function Recommend(genres: seq<string>, years: seq<string>, exclude: seq<string>,
                     run: (string, seq<Param>) -> Option<seq<DbRow>>,
                     castOf: int -> Option<seq<string>>,
                     discover: Discover -> Option<seq<DiscoverHit>>,
                     creditsOf: int -> Option<CastReply>,
                     detailsOf: int -> Option<DetailsReply>, choice: nat): (r: Option<Recommended>)
    ensures r.Some? <==> SearchFromDb(genres, years, exclude, run, castOf, choice).Some?
                         || SearchFromTmdb(genres, years, discover, creditsOf, detailsOf, choice).Some?
    ensures SearchFromDb(genres, years, exclude, run, castOf, choice).Some? ==>
              r == SearchFromDb(genres, years, exclude, run, castOf, choice)
    ensures SearchFromDb(genres, years, exclude, run, castOf, choice).None? ==>
              r == SearchFromTmdb(genres, years, discover, creditsOf, detailsOf, choice)
  {
    var db := SearchFromDb(genres, years, exclude, run, castOf, choice);
    if db.Some? then db else SearchFromTmdb(genres, years, discover, creditsOf, detailsOf, choice)
  }
}
