/** Saving one TMDb movie with its credits into the record store: the
    movie row, then the people and credit rows of the first twenty cast
    members and of the directors, all committed together. The TMDb replies
    are inputs; a failing TMDb or database call is the flag `fails`. */
module MovieSave {
  import opened Wrappers
  import opened Text
  import opened Ranking
  import opened Records

  /** TMDb's movie details as the save reads them; `None` is an absent key. */
  datatype MovieDetails = MovieDetails(
    title: Option<string>,
    releaseDate: Option<string>,
    overview: Option<string>,
    popularity: Option<real>,
    voteAverage: Option<real>,
    voteCount: Option<int>,
    runtime: Option<int>,
    posterPath: Option<string>,
    backdropPath: Option<string>,
    genres: seq<Genre>)

  datatype CastEntry = CastEntry(id: Option<int>, name: Option<string>, character: Option<string>)

  datatype CrewEntry = CrewEntry(id: Option<int>, name: Option<string>, job: Option<string>)

  /** TMDb's credits; `None` is an absent `cast` or `crew` key. */
  datatype MovieCredits = MovieCredits(cast: Option<seq<CastEntry>>, crew: Option<seq<CrewEntry>>)

  /** One row of `credits`: a cast credit carries a character and its
      billing position, a crew credit a job. */
  datatype Credit = Credit(
    movie: int,
    person: int,
    creditType: string,
    character: Option<string>,
    castOrder: Option<int>,
    job: Option<string>)

  /** The three tables the save writes: `movies` keyed by `tmdb_id`,
      `people` from `tmdb_person_id` to name, and `credits`. */
  datatype Db = Db(movies: Table, people: map<int, string>, credits: set<Credit>)

  /** One credit to record, with the person row it needs. */
  datatype Write = Write(person: int, name: string, credit: Credit)

  /** Only this many cast members are saved. */
  const CastSaved: nat := 20

  /** A person is saved only with a non-zero id and a non-empty name. */
  predicate Identified(id: Option<int>, name: Option<string>) {
    id.Some? && id.value != 0 && Truthy(name)
  }

  function CastWrite(movie: int, e: CastEntry, position: nat): Write
    requires Identified(e.id, e.name)
  {
    Write(e.id.value, e.name.value, Credit(movie, e.id.value, "cast", Some(e.character.GetOr("")), Some(position), None))
  }

  function DirectorWrite(movie: int, e: CrewEntry): Write
    requires Identified(e.id, e.name)
  {
    Write(e.id.value, e.name.value, Credit(movie, e.id.value, "crew", None, None, Some("Director")))
  }

  /** The writes for the identified members of `cast`, each credited with
      its position in `cast`. */
  function CastWrites(movie: int, cast: seq<CastEntry>): seq<Write>
    decreases |cast|
  {
    if cast == [] then []
    else
      var e := cast[|cast| - 1];
      CastWrites(movie, cast[..|cast| - 1])
      + (if Identified(e.id, e.name) then [CastWrite(movie, e, |cast| - 1)] else [])
  }

  predicate IsDirector(e: CrewEntry) {
    e.job == Some("Director") && Identified(e.id, e.name)
  }

  /** The writes for the identified directors of `crew`, in crew order. */
  function DirectorWrites(movie: int, crew: seq<CrewEntry>): seq<Write>
    decreases |crew|
  {
    if crew == [] then []
    else
      var e := crew[|crew| - 1];
      DirectorWrites(movie, crew[..|crew| - 1]) + (if IsDirector(e) then [DirectorWrite(movie, e)] else [])
  }

  /** Every credit write of a save, cast first, then directors. */
  function CreditWrites(movie: int, credits: Option<MovieCredits>): seq<Write> {
    match credits
    case None => []
    case Some(c) =>
      CastWrites(movie, Take(c.cast.GetOr([]), CastSaved)) + DirectorWrites(movie, c.crew.GetOr([]))
  }

  /** The `people` table after the person inserts of `ws`, each of which
      does nothing when the person is already there. */
  function PeopleAfter(people: map<int, string>, ws: seq<Write>): map<int, string>
    decreases |ws|
  {
    if ws == [] then people
    else
      var p := PeopleAfter(people, ws[..|ws| - 1]);
      var w := ws[|ws| - 1];
      if w.person in p then p else p[w.person := w.name]
  }

  function CreditsAfter(credits: set<Credit>, ws: seq<Write>): set<Credit> {
    credits + set w | w in ws :: w.credit
  }

  /** The genre names, comma separated (`''` when there are none). */
  function GenresCsv(genres: seq<Genre>): string {
    Join(seq(|genres|, i requires 0 <= i < |genres| => genres[i].name), ", ")
  }

  /** The year column: the leading year of a non-empty release date. */
  function YearOf(releaseDate: Option<string>): Option<int> {
    if Truthy(releaseDate) then ReleaseYear(releaseDate.value) else None
  }

  /** The inserted movie row; `rowId` is the value the table's serial
      column assigns. */
  function NewRow(tmdbId: int, rowId: int, d: MovieDetails): MovieRow {
    MovieRow(rowId, tmdbId,
      Some(d.title.GetOr("Unknown")), None, d.releaseDate, YearOf(d.releaseDate),
      Some(d.overview.GetOr("")), Some(GenresCsv(d.genres)), None,
      Some(d.popularity.GetOr(0.0)), Some(d.voteAverage.GetOr(0.0)), Some(d.voteCount.GetOr(0)),
      Some(d.runtime.GetOr(0)), d.posterPath, d.backdropPath)
  }

  /** What a save returns and the tables it leaves behind. */
  function Save(db: Db, tmdbId: int, details: Option<MovieDetails>, credits: Option<MovieCredits>,
                rowId: int, fails: bool): (bool, Db)
  {
    if fails || details.None? then (false, db)
    else if tmdbId in db.movies then (true, db)
    else
      var ws := CreditWrites(tmdbId, credits);
      (true, Db(db.movies[tmdbId := NewRow(tmdbId, rowId, details.value)],
                PeopleAfter(db.people, ws), CreditsAfter(db.credits, ws)))
  }

  // ------------------------------------------------------------- properties

  /** Without details, or when a call fails, nothing is written. */
  lemma SaveRefused(db: Db, tmdbId: int, details: Option<MovieDetails>, credits: Option<MovieCredits>,
                    rowId: int, fails: bool)
    requires fails || details.None?
    ensures Save(db, tmdbId, details, credits, rowId, fails) == (false, db)
  {
  }

  /** Saving a movie that is already stored succeeds and writes nothing; in
      particular a second save of the same movie is a no-op. */
  lemma SaveTwice(db: Db, tmdbId: int, details: Option<MovieDetails>, credits: Option<MovieCredits>,
                  rowId: int, rowId2: int)
    ensures var (ok, db1) := Save(db, tmdbId, details, credits, rowId, false);
            ok ==> Save(db1, tmdbId, details, credits, rowId2, false) == (true, db1)
  {
  }

  lemma {:induction false} PeopleAfterKeeps(people: map<int, string>, ws: seq<Write>)
    ensures forall p :: p in people ==> p in PeopleAfter(people, ws) && PeopleAfter(people, ws)[p] == people[p]
    ensures PeopleAfter(people, ws).Keys == people.Keys + set w | w in ws :: w.person
    decreases |ws|
  {
    if ws != [] {
      var init := ws[..|ws| - 1];
      PeopleAfterKeeps(people, init);
      assert ws == init + [ws[|ws| - 1]];
    }
  }

  /** A successful save of a new movie inserts its row, keeps every other
      movie row and never renames a person already stored. */
  lemma SaveInserts(db: Db, tmdbId: int, d: MovieDetails, credits: Option<MovieCredits>, rowId: int)
    requires tmdbId !in db.movies
    ensures var (ok, db1) := Save(db, tmdbId, Some(d), credits, rowId, false);
      && ok
      && db1.movies == db.movies[tmdbId := NewRow(tmdbId, rowId, d)]
      && db1.movies[tmdbId].year == (if Truthy(d.releaseDate) then ReleaseYear(d.releaseDate.value) else None)
      && (forall p :: p in db.people ==> p in db1.people && db1.people[p] == db.people[p])
      && db.credits <= db1.credits
  {
    PeopleAfterKeeps(db.people, CreditWrites(tmdbId, credits));
  }

  /** Every cast write comes from an identified member of `cast` and is
      credited with that member's position; every identified member has
      one. */
  lemma {:induction false} CastWritesPositions(movie: int, cast: seq<CastEntry>)
    ensures forall w :: w in CastWrites(movie, cast) ==>
      exists i :: 0 <= i < |cast| && Identified(cast[i].id, cast[i].name) && w == CastWrite(movie, cast[i], i)
    ensures forall i :: 0 <= i < |cast| && Identified(cast[i].id, cast[i].name) ==>
      CastWrite(movie, cast[i], i) in CastWrites(movie, cast)
    decreases |cast|
  {
    if cast != [] {
      var init := cast[..|cast| - 1];
      CastWritesPositions(movie, init);
      forall w | w in CastWrites(movie, cast)
        ensures exists i :: 0 <= i < |cast| && Identified(cast[i].id, cast[i].name) && w == CastWrite(movie, cast[i], i)
      {
        if w in CastWrites(movie, init) {
          var i :| 0 <= i < |init| && Identified(init[i].id, init[i].name) && w == CastWrite(movie, init[i], i);
          assert cast[i] == init[i];
        }
      }
      forall i | 0 <= i < |cast| && Identified(cast[i].id, cast[i].name)
        ensures CastWrite(movie, cast[i], i) in CastWrites(movie, cast)
      {
        if i < |init| {
          assert cast[i] == init[i];
        }
      }
    }
  }

  /** Every crew write is a director of `crew`; every identified director
      has one. */
  lemma {:induction false} DirectorWritesFromDirectors(movie: int, crew: seq<CrewEntry>)
    ensures forall w :: w in DirectorWrites(movie, crew) ==>
      exists e :: e in crew && IsDirector(e) && w == DirectorWrite(movie, e)
    ensures forall e :: e in crew && IsDirector(e) ==> DirectorWrite(movie, e) in DirectorWrites(movie, crew)
    decreases |crew|
  {
    if crew != [] {
      var init := crew[..|crew| - 1];
      DirectorWritesFromDirectors(movie, init);
      assert crew == init + [crew[|crew| - 1]];
    }
  }

  /** The credits a save adds: cast credits at positions below twenty, each
      for an identified member listed at that position, and crew credits
      only for directors. */
  lemma SaveCredits(db: Db, tmdbId: int, d: MovieDetails, c: MovieCredits, rowId: int, k: Credit)
    requires tmdbId !in db.movies
    requires k in Save(db, tmdbId, Some(d), Some(c), rowId, false).1.credits - db.credits
    ensures k.movie == tmdbId
    ensures k.creditType == "cast" ==>
      var cast := c.cast.GetOr([]);
      exists i :: 0 <= i < |cast| && i < CastSaved && k.castOrder == Some(i)
        && cast[i].id == Some(k.person) && Identified(cast[i].id, cast[i].name)
    ensures k.creditType != "cast" ==>
      k.creditType == "crew" && k.job == Some("Director")
      && exists e :: e in c.crew.GetOr([]) && IsDirector(e) && e.id == Some(k.person)
  {
    var cast := Take(c.cast.GetOr([]), CastSaved);
    var crew := c.crew.GetOr([]);
    CastWritesPositions(tmdbId, cast);
    DirectorWritesFromDirectors(tmdbId, crew);
    var ws := CreditWrites(tmdbId, Some(c));
    var w :| w in ws && w.credit == k;
    if w in CastWrites(tmdbId, cast) {
      var i :| 0 <= i < |cast| && Identified(cast[i].id, cast[i].name) && w == CastWrite(tmdbId, cast[i], i);
      assert c.cast.GetOr([])[i] == cast[i];
    } else {
      assert w in DirectorWrites(tmdbId, crew);
    }
  }

  /** Referential integrity: every credit names a stored movie and a stored
      person. */
  ghost predicate Consistent(db: Db) {
    && Keyed(db.movies)
    && forall k :: k in db.credits ==> k.movie in db.movies && k.person in db.people
  }

  lemma SaveConsistent(db: Db, tmdbId: int, details: Option<MovieDetails>, credits: Option<MovieCredits>,
                       rowId: int, fails: bool)
    requires Consistent(db)
    ensures Consistent(Save(db, tmdbId, details, credits, rowId, fails).1)
  {
    if !fails && details.Some? && tmdbId !in db.movies {
      var ws := CreditWrites(tmdbId, credits);
      PeopleAfterKeeps(db.people, ws);
      if credits.Some? {
        CastWritesPositions(tmdbId, Take(credits.value.cast.GetOr([]), CastSaved));
        DirectorWritesFromDirectors(tmdbId, credits.value.crew.GetOr([]));
      }
      var db1 := Save(db, tmdbId, details, credits, rowId, fails).1;
      forall k | k in db1.credits ensures k.movie in db1.movies && k.person in db1.people {
        if k !in db.credits {
          var w :| w in ws && w.credit == k;
        }
      }
    }
  }

  // ----------------------------------------------------------- the store

  /** The record store the save writes to. */
  class MovieStore {
    var movies: Table
    var people: map<int, string>
    var credits: set<Credit>

    function Snapshot(): Db
      reads this
    {
      Db(movies, people, credits)
    }

    constructor (db: Db)
      ensures Snapshot() == db
    {
      movies, people, credits := db.movies, db.people, db.credits;
    }

    /** `save_movie_to_db`: the person and credit rows are gathered in a
        transaction and committed together with the movie row. */
    method SaveMovie(tmdbId: int, details: Option<MovieDetails>, tmdbCredits: Option<MovieCredits>,
                     rowId: int, fails: bool) returns (ok: bool)
      modifies this
      ensures (ok, Snapshot()) == Save(old(Snapshot()), tmdbId, details, tmdbCredits, rowId, fails)
    {
      if fails || details.None? {
        return false;
      }
      if tmdbId in movies {
        return true;
      }
      var row := NewRow(tmdbId, rowId, details.value);
      ghost var ws := CreditWrites(tmdbId, tmdbCredits);
      var txPeople, txCredits := people, credits;
      if tmdbCredits.None? {
        assert ws == [];
        assert CreditsAfter(credits, ws) == credits;
      } else {
        var cast := Take(tmdbCredits.value.cast.GetOr([]), CastSaved);
        var crew := tmdbCredits.value.crew.GetOr([]);
        txPeople, txCredits := SaveCast(tmdbId, cast, people, credits);
        txPeople, txCredits := SaveDirectors(tmdbId, crew, people, credits, CastWrites(tmdbId, cast), txPeople, txCredits);
      }
      movies, people, credits := movies[tmdbId := row], txPeople, txCredits;
      return true;
    }
  }

  /** The cast loop of a save: one person insert and one credit insert per
      identified member, on the transaction's copies of the tables. */
  method SaveCast(movie: int, cast: seq<CastEntry>, people: map<int, string>, credits: set<Credit>)
    returns (txPeople: map<int, string>, txCredits: set<Credit>)
    ensures txPeople == PeopleAfter(people, CastWrites(movie, cast))
    ensures txCredits == CreditsAfter(credits, CastWrites(movie, cast))
  {
    txPeople, txCredits := people, credits;
    ghost var done: seq<Write> := [];
    var i := 0;
    while i < |cast|
      invariant 0 <= i <= |cast|
      invariant done == CastWrites(movie, cast[..i])
      invariant txPeople == PeopleAfter(people, done)
      invariant txCredits == CreditsAfter(credits, done)
    {
      var e := cast[i];
      assert cast[..i + 1][..i] == cast[..i];
      if Identified(e.id, e.name) {
        var w := CastWrite(movie, e, i);
        if w.person !in txPeople {
          txPeople := txPeople[w.person := w.name];
        }
        txCredits := txCredits + {w.credit};
        assert (done + [w])[..|done|] == done;
        done := done + [w];
      }
      i := i + 1;
    }
    assert cast[..i] == cast;
  }

  /** The crew loop of a save, continuing the transaction after the writes
      `prior`. */
  method SaveDirectors(movie: int, crew: seq<CrewEntry>, people: map<int, string>, credits: set<Credit>,
                       ghost prior: seq<Write>, p0: map<int, string>, c0: set<Credit>)
    returns (txPeople: map<int, string>, txCredits: set<Credit>)
    requires p0 == PeopleAfter(people, prior) && c0 == CreditsAfter(credits, prior)
    ensures txPeople == PeopleAfter(people, prior + DirectorWrites(movie, crew))
    ensures txCredits == CreditsAfter(credits, prior + DirectorWrites(movie, crew))
  {
    txPeople, txCredits := p0, c0;
    ghost var done := prior;
    var j := 0;
    while j < |crew|
      invariant 0 <= j <= |crew|
      invariant done == prior + DirectorWrites(movie, crew[..j])
      invariant txPeople == PeopleAfter(people, done)
      invariant txCredits == CreditsAfter(credits, done)
    {
      var e := crew[j];
      assert crew[..j + 1][..j] == crew[..j];
      if IsDirector(e) {
        var w := DirectorWrite(movie, e);
        if w.person !in txPeople {
          txPeople := txPeople[w.person := w.name];
        }
        txCredits := txCredits + {w.credit};
        assert (done + [w])[..|done|] == done;
        done := done + [w];
      }
      j := j + 1;
    }
    assert crew[..j] == crew;
  }
}
