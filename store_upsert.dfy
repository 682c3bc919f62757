/** Inserting or updating one movie row by its TMDb id, the last write
    winning on every column the statement lists. */
module MovieUpsert {
  import opened Wrappers
  import opened Text
  import opened Ranking
  import opened Records

  /** The `movie_data` dict; `None` is an absent key. */
  datatype MovieData = MovieData(
    id: Option<int>,
    tmdbId: Option<int>,
    title: Option<string>,
    originalTitle: Option<string>,
    releaseDate: Option<string>,
    overview: Option<string>,
    genres: Option<seq<Genre>>,
    popularity: Option<real>,
    voteAverage: Option<real>,
    voteCount: Option<int>,
    posterPath: Option<string>,
    backdropPath: Option<string>)

  /** What an upsert returns: the row's surrogate id, or the reason it
      raised. */
  datatype Upserted =
    | Stored(rowId: int)
    | MissingId       // neither `id` nor `tmdb_id` is a non-zero number
    | BadYear         // the database refuses the year text as an integer

  /** The key: `id`, or `tmdb_id` when `id` is absent or zero. */
  function Key(d: MovieData): Option<int> {
    if d.id.Some? && d.id.value != 0 then d.id
    else if d.tmdbId.Some? && d.tmdbId.value != 0 then d.tmdbId
    else None
  }

  /** The year text sent: the first four characters of a non-empty release
      date. */
  function YearText(d: MovieData): Option<string> {
    if Truthy(d.releaseDate) then Some(Take(d.releaseDate.value, 4)) else None
  }

  /** The text's coercion to the integer `year` column, which fails on text
      that is not a number. */
  predicate YearAccepted(d: MovieData) {
    YearText(d).None? || ParseInt(YearText(d).value).Some?
  }

  function YearValue(d: MovieData): Option<int>
    requires YearAccepted(d)
  {
    if YearText(d).None? then None else ParseInt(YearText(d).value)
  }

  /** The columns the statement writes, both on insert and on update. */
  datatype Columns = Columns(
    title: Option<string>,
    originalTitle: Option<string>,
    releaseDate: Option<string>,
    year: Option<int>,
    overview: Option<string>,
    genresJson: Option<seq<Genre>>,
    popularity: Option<real>,
    voteAverage: Option<real>,
    voteCount: Option<int>,
    posterPath: Option<string>,
    backdropPath: Option<string>)

  function ColumnsOf(r: MovieRow): Columns {
    Columns(r.title, r.originalTitle, r.releaseDate, r.year, r.overview, r.genresJson,
            r.popularity, r.voteAverage, r.voteCount, r.posterPath, r.backdropPath)
  }

  function DataColumns(d: MovieData): Columns
    requires YearAccepted(d)
  {
    Columns(d.title, d.originalTitle, d.releaseDate, YearValue(d), d.overview, d.genres,
            d.popularity, d.voteAverage, d.voteCount, d.posterPath, d.backdropPath)
  }

  /** `r` with the listed columns taken from `c`; `id`, `tmdb_id`,
      `genres_csv` and `runtime` stay. */
  function Overwrite(r: MovieRow, c: Columns): (r': MovieRow)
    ensures ColumnsOf(r') == c
    ensures r'.rowId == r.rowId && r'.tmdbId == r.tmdbId
    ensures r'.genresCsv == r.genresCsv && r'.runtime == r.runtime
  {
    r.(title := c.title, originalTitle := c.originalTitle, releaseDate := c.releaseDate, year := c.year,
       overview := c.overview, genresJson := c.genresJson, popularity := c.popularity,
       voteAverage := c.voteAverage, voteCount := c.voteCount, posterPath := c.posterPath,
       backdropPath := c.backdropPath)
  }

  /** Writing the columns a row already holds leaves it as it is. */
  lemma OverwriteSame(r: MovieRow, c: Columns)
    requires ColumnsOf(r) == c
    ensures Overwrite(r, c) == r
  {
  }

  /** A new row: the listed columns, the serial `id`, and nulls elsewhere. */
  function Inserted(rowId: int, key: int, c: Columns): MovieRow {
    Overwrite(MovieRow(rowId, key, None, None, None, None, None, None, None, None, None, None, None, None, None), c)
  }

  /** The result, the table and the serial counter after an upsert. */
  function Upsert(t: Table, nextId: int, d: MovieData): (Upserted, Table, int) {
    match Key(d)
    case None => (MissingId, t, nextId)
    case Some(k) =>
      if !YearAccepted(d) then (BadYear, t, nextId)
      else Write(t, nextId, k, DataColumns(d))
  }

  /** The statement once the key and the columns are known: update the row
      under `k`, or insert one with the next serial id. */
  function Write(t: Table, nextId: int, k: int, c: Columns): (Upserted, Table, int) {
    if k in t then (Stored(t[k].rowId), t[k := Overwrite(t[k], c)], nextId)
    else (Stored(nextId), t[k := Inserted(nextId, k, c)], nextId + 1)
  }

  // ------------------------------------------------------------- properties

  /** Without a usable id the upsert raises and the table is unchanged. */
  lemma UpsertMissingId(t: Table, nextId: int, d: MovieData)
    requires d.id.None? || d.id.value == 0
    requires d.tmdbId.None? || d.tmdbId.value == 0
    ensures Upsert(t, nextId, d) == (MissingId, t, nextId)
  {
  }

  /** After a successful upsert the row under the key holds exactly the
      listed columns of the data, with the year read from the release
      date; every other row is untouched. */
  lemma UpsertWrites(t: Table, nextId: int, d: MovieData)
    ensures var (r, t1, _) := Upsert(t, nextId, d);
      && (r.Stored? <==> Key(d).Some? && YearAccepted(d))
      && (r.Stored? ==>
            && var k := Key(d).value;
            && k in t1 && t1[k].rowId == r.rowId
            && ColumnsOf(t1[k]) == DataColumns(d)
            && t1[k].year == (if Truthy(d.releaseDate) then ParseInt(Take(d.releaseDate.value, 4)) else None)
            && (k in t ==> t1[k].rowId == t[k].rowId && t1[k].genresCsv == t[k].genresCsv && t1[k].runtime == t[k].runtime)
            && t1.Keys == t.Keys + {k}
            && forall j :: j in t && j != k ==> t1[j] == t[j])
      && (!r.Stored? ==> t1 == t)
  {
    if Key(d).Some? && YearAccepted(d) {
      var k, c := Key(d).value, DataColumns(d);
      assert Upsert(t, nextId, d) == Write(t, nextId, k, c);
      assert c.year == (if Truthy(d.releaseDate) then ParseInt(Take(d.releaseDate.value, 4)) else None);
    }
  }

  /** Upserting the same data twice leaves the table as once, and returns
      the same row id. */
  lemma UpsertIdempotent(t: Table, nextId: int, d: MovieData)
    ensures var (r1, t1, n1) := Upsert(t, nextId, d);
            var (r2, t2, _) := Upsert(t1, n1, d);
            t2 == t1 && r2 == r1
  {
    if Key(d).Some? && YearAccepted(d) {
      WriteIdempotent(t, nextId, Key(d).value, DataColumns(d));
    }
  }

  lemma WriteIdempotent(t: Table, nextId: int, k: int, c: Columns)
    ensures var (r1, t1, n1) := Write(t, nextId, k, c);
            var (r2, t2, _) := Write(t1, n1, k, c);
            t2 == t1 && r2 == r1
  {
    var (r1, t1, n1) := Write(t, nextId, k, c);
    var row := t1[k];
    OverwriteSame(row, c);
    assert t1[k := row] == t1;
  }

  /** Last write wins: after two upserts for the same key the listed
      columns are those of the second, and the row keeps its id. */
  lemma UpsertLastWriteWins(t: Table, nextId: int, d1: MovieData, d2: MovieData)
    requires Key(d1).Some? && Key(d1) == Key(d2)
    requires YearAccepted(d1) && YearAccepted(d2)
    ensures var (r1, t1, n1) := Upsert(t, nextId, d1);
            var (r2, t2, _) := Upsert(t1, n1, d2);
            r2 == r1 && ColumnsOf(t2[Key(d2).value]) == DataColumns(d2)
  {
  }

  /** The table stays keyed by `tmdb_id`. */
  lemma UpsertKeyed(t: Table, nextId: int, d: MovieData)
    requires Keyed(t)
    ensures Keyed(Upsert(t, nextId, d).1)
  {
  }

  // ----------------------------------------------------------- the table

  /** The `movies` table with its serial counter. */
  class MovieTable {
    var rows: Table
    var nextId: int

    constructor (t: Table, next: int)
      ensures rows == t && nextId == next
    {
      rows, nextId := t, next;
    }

    /** `upsert_movie`: one `INSERT … ON CONFLICT (tmdb_id) DO UPDATE`,
        committed, or rolled back when it raises. */
    method UpsertMovie(d: MovieData) returns (r: Upserted)
      modifies this
      ensures (r, rows, nextId) == Upsert(old(rows), old(nextId), d)
    {
      var key := if d.id.Some? && d.id.value != 0 then d.id else d.tmdbId;
      if key.None? || key.value == 0 {
        return MissingId;
      }
      var k := key.value;
      if !YearAccepted(d) {
        return BadYear;
      }
      var c := DataColumns(d);
      if k in rows {
        r := Stored(rows[k].rowId);
        rows := rows[k := Overwrite(rows[k], c)];
      } else {
        r := Stored(nextId);
        rows := rows[k := Inserted(nextId, k, c)];
        nextId := nextId + 1;
      }
    }
  }
}
