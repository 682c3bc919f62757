/** The `movies` table of the record store, shared by every module that
    reads or writes it. Nullable columns are `Option`s. */
module Records {
  import opened Wrappers
  import opened Text
  import opened Ranking

  datatype Genre = Genre(id: int, name: string)

  /** One row of `movies`; `rowId` is the surrogate `id` column and
      `tmdbId` the unique external identifier. */
  datatype MovieRow = MovieRow(
    rowId: int,
    tmdbId: int,
    title: Option<string>,
    originalTitle: Option<string>,
    releaseDate: Option<string>,
    year: Option<int>,
    overview: Option<string>,
    genresCsv: Option<string>,
    genresJson: Option<seq<Genre>>,
    popularity: Option<real>,
    voteAverage: Option<real>,
    voteCount: Option<int>,
    runtime: Option<int>,
    posterPath: Option<string>,
    backdropPath: Option<string>)

  /** The table keyed by `tmdb_id` (its unique constraint). */
  type Table = map<int, MovieRow>

  ghost predicate Keyed(t: Table) {
    forall k :: k in t ==> t[k].tmdbId == k
  }

  /** How an f-string renders a possibly-null text value. */
  function Render(o: Option<string>): string {
    match o
    case Some(s) => s
    case None => "None"
  }

  /** Python truthiness of a nullable string. */
  predicate Truthy(o: Option<string>) {
    o.Some? && o.value != ""
  }

  /** `int(release_date[:4])`, or nothing when that does not parse. */
  function ReleaseYear(releaseDate: string): Option<int> {
    ParseInt(Take(releaseDate, 4))
  }

  lemma FourDigits(y: int)
    requires 1000 <= y <= 9999
    ensures |IntToString(y)| == 4
  {
    assert NatToString(y) == NatToString(y / 10) + [DigitChar(y % 10)];
    assert NatToString(y / 10) == NatToString(y / 100) + [DigitChar((y / 10) % 10)];
    assert NatToString(y / 100) == NatToString(y / 1000) + [DigitChar((y / 100) % 10)];
  }

  /** A date that starts with a four-digit year yields that year. */
  lemma ReleaseYearOfDate(y: int, rest: string)
    requires 1000 <= y <= 9999
    ensures ReleaseYear(IntToString(y) + rest) == Some(y)
  {
    FourDigits(y);
    assert Take(IntToString(y) + rest, 4) == IntToString(y);
    IntToStringRoundTrip(y);
  }
}
