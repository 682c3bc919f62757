/** The FAISS vector index and its parallel metadata list, as kept on disk:
    the batch build of both lists and the append of one movie. Vector i and
    metadata entry i describe the same movie. The embedding model is a
    function parameter; nearest-neighbour search lives in the orchestrator. */
module VectorIndex {
  import opened Wrappers
  import opened Text
  import opened Ranking
  import opened Records

  type Vector = seq<real>

  /** One element of `faiss_metadata.json`. `overview` and `popularity` are
      `None` where the entry has no such key. */
  datatype MetaEntry = MetaEntry(
    tmdbId: int,
    title: Option<string>,
    year: Option<int>,
    overview: Option<string>,
    popularity: Option<real>)

  // ---------------------------------------------------------------- build

  /** The builder's SELECT keeps rows with a non-empty overview ... */
  predicate HasOverview(r: MovieRow) {
    Truthy(r.overview)
  }

  function WithOverview(rows: seq<MovieRow>): (r: seq<MovieRow>)
    ensures forall i :: 0 <= i < |r| ==> HasOverview(r[i])
    ensures multiset(r) <= multiset(rows)
    decreases |rows|
  {
    if rows == [] then []
    else
      assert rows == [rows[0]] + rows[1..];
      (if HasOverview(rows[0]) then [rows[0]] else []) + WithOverview(rows[1..])
  }

  predicate ByTmdbId(a: MovieRow, b: MovieRow) {
    a.tmdbId <= b.tmdbId
  }

  /** ... and returns them `ORDER BY tmdb_id` (`rows` is the table in
      storage order). */
  function IndexableRows(rows: seq<MovieRow>): seq<MovieRow> {
    StableSort(WithOverview(rows), ByTmdbId)
  }

  lemma IndexableRowsOrdered(rows: seq<MovieRow>)
    ensures forall i, j :: 0 <= i < j < |IndexableRows(rows)| ==> IndexableRows(rows)[i].tmdbId <= IndexableRows(rows)[j].tmdbId
    ensures forall r :: r in IndexableRows(rows) ==> HasOverview(r) && r in rows
  {
    SortSortedPermutation(WithOverview(rows), ByTmdbId);
    forall r | r in IndexableRows(rows) ensures HasOverview(r) && r in rows {
      assert r in multiset(WithOverview(rows));
    }
  }

  /** `f"{title} {overview}".strip()`, the text embedded for a movie. */
  function BuildText(r: MovieRow): string {
    Strip(Render(r.title) + " " + Render(r.overview))
  }

  /** A movie is indexed only when its text is non-empty, that is when
      title and overview are not both white space. */
  predicate Indexed(r: MovieRow) {
    !AllSpace(Render(r.title) + " " + Render(r.overview))
  }

  /** The metadata entry the builder stores; a null or zero popularity
      becomes 0.0. */
  function BuildEntry(r: MovieRow): (e: MetaEntry)
    ensures e.tmdbId == r.tmdbId && e.popularity.Some?
    ensures e.popularity.value == 0.0 <==> (r.popularity.None? || r.popularity.value == 0.0)
  {
    MetaEntry(r.tmdbId, r.title, r.year, r.overview,
      Some(if r.popularity.Some? && r.popularity.value != 0.0 then r.popularity.value else 0.0))
  }

  /** The movies that get a vector, in query order. */
  function IndexedRows(rows: seq<MovieRow>): (r: seq<MovieRow>)
    ensures forall i :: 0 <= i < |r| ==> Indexed(r[i])
    decreases |rows|
  {
    if rows == [] then []
    else IndexedRows(rows[..|rows| - 1]) + (if Indexed(rows[|rows| - 1]) then [rows[|rows| - 1]] else [])
  }

  /** The loop of `build_faiss_index`: for every queried movie with a
      non-empty text, one vector and one metadata entry are appended in
      lockstep. */
  method BuildEntries(rows: seq<MovieRow>, embed: string -> Vector)
    returns (vectors: seq<Vector>, metadata: seq<MetaEntry>)
    ensures |vectors| == |metadata| == |IndexedRows(rows)|
    ensures forall i :: 0 <= i < |metadata| ==>
      vectors[i] == embed(BuildText(IndexedRows(rows)[i])) && metadata[i] == BuildEntry(IndexedRows(rows)[i])
  {
    vectors, metadata := [], [];
    for i := 0 to |rows|
      invariant Lockstep(IndexedRows(rows[..i]), vectors, metadata, embed)
    {
      var r := rows[i];
      IndexedRowsNext(rows, i);
      var text := BuildText(r);
      if text != "" {
        LockstepAppend(IndexedRows(rows[..i]), vectors, metadata, embed, r);
        vectors := vectors + [embed(text)];
        metadata := metadata + [BuildEntry(r)];
      }
    }
    assert rows[..|rows|] == rows;
  }

  /** Vector `j` and metadata entry `j` both describe movie `j` of
      `shown`. */
  predicate Lockstep(shown: seq<MovieRow>, vectors: seq<Vector>, metadata: seq<MetaEntry>, embed: string -> Vector) {
    && |vectors| == |metadata| == |shown|
    && forall j :: 0 <= j < |metadata| ==>
      vectors[j] == embed(BuildText(shown[j])) && metadata[j] == BuildEntry(shown[j])
  }

  lemma LockstepAppend(shown: seq<MovieRow>, vectors: seq<Vector>, metadata: seq<MetaEntry>, embed: string -> Vector, r: MovieRow)
    requires Lockstep(shown, vectors, metadata, embed)
    ensures Lockstep(shown + [r], vectors + [embed(BuildText(r))], metadata + [BuildEntry(r)], embed)
  {
  }

  /** The next queried movie is indexed exactly when its text is
      non-empty, and then it comes last. */
  lemma IndexedRowsNext(rows: seq<MovieRow>, i: nat)
    requires i < |rows|
    ensures Indexed(rows[i]) <==> BuildText(rows[i]) != ""
    ensures IndexedRows(rows[..i + 1]) == IndexedRows(rows[..i]) + (if Indexed(rows[i]) then [rows[i]] else [])
  {
    assert rows[..i + 1][..i] == rows[..i];
    StripEmpty(Render(rows[i].title) + " " + Render(rows[i].overview));
  }

  /** The indexed movies are a sub-multiset of the queried ones and keep
      their ascending `tmdb_id` order. */
  lemma {:induction false} IndexedRowsOrder(rows: seq<MovieRow>)
    ensures multiset(IndexedRows(rows)) <= multiset(rows)
    decreases |rows|
  {
    if rows != [] {
      var init, last := rows[..|rows| - 1], rows[|rows| - 1];
      IndexedRowsOrder(init);
      assert rows == init + [last];
    }
  }

  lemma {:induction false} IndexedRowsSorted(rows: seq<MovieRow>)
    requires Sorted(rows, ByTmdbId)
    ensures Sorted(IndexedRows(rows), ByTmdbId)
    decreases |rows|
  {
    if rows != [] {
      var init, last := rows[..|rows| - 1], rows[|rows| - 1];
      assert Sorted(init, ByTmdbId);
      IndexedRowsSorted(init);
      IndexedRowsOrder(init);
      var ri := IndexedRows(init);
      if Indexed(last) {
        var r := ri + [last];
        assert IndexedRows(rows) == r;
        forall i, j | 0 <= i < j < |r| ensures ByTmdbId(r[i], r[j]) {
          if j == |ri| {
            assert r[i] in multiset(init);
            var a :| 0 <= a < |init| && init[a] == r[i];
            assert ByTmdbId(rows[a], rows[|rows| - 1]);
          } else {
            assert ByTmdbId(ri[i], ri[j]);
          }
        }
      } else {
        assert IndexedRows(rows) == ri;
      }
    }
  }

  /** The metadata a rebuild writes follows ascending `tmdb_id`. */
  lemma BuildOrderAscending(table: seq<MovieRow>)
    ensures Sorted(IndexedRows(IndexableRows(table)), ByTmdbId)
  {
    SortSortedPermutation(WithOverview(table), ByTmdbId);
    IndexedRowsSorted(IndexableRows(table));
  }

  // ------------------------------------------------------ files on disk

  /** The two files, `faiss_movies.index` and `faiss_metadata.json`;
      `None` where the file does not exist. */
  class IndexFiles {
    var indexFile: Option<seq<Vector>>
    var metadataFile: Option<seq<MetaEntry>>

    constructor (indexFile: Option<seq<Vector>>, metadataFile: Option<seq<MetaEntry>>)
      ensures this.indexFile == indexFile && this.metadataFile == metadataFile
    {
      this.indexFile := indexFile;
      this.metadataFile := metadataFile;
    }

    /** The two files exist and have one metadata entry per vector. */
    predicate Aligned()
      reads this
    {
      indexFile.Some? && metadataFile.Some? && |indexFile.value| == |metadataFile.value|
    }

    /** `build_faiss_index` after its loop: with no qualifying movie,
        `shape[1]` of the empty array raises and nothing is written;
        otherwise the index is written, then the metadata, and a failed
        write stops the script there. */
    method Rebuild(table: seq<MovieRow>, embed: string -> Vector, writeIndexOk: bool, writeMetadataOk: bool)
      returns (ok: bool)
      modifies this
      ensures var built := IndexedRows(IndexableRows(table));
        ok <==> |built| > 0 && writeIndexOk && writeMetadataOk
      ensures var built := IndexedRows(IndexableRows(table));
        |built| == 0 || !writeIndexOk ==> indexFile == old(indexFile) && metadataFile == old(metadataFile)
      ensures var built := IndexedRows(IndexableRows(table));
        |built| > 0 && writeIndexOk ==>
          && indexFile.Some? && |indexFile.value| == |built|
          && forall i :: 0 <= i < |built| ==> indexFile.value[i] == embed(BuildText(built[i]))
      ensures var built := IndexedRows(IndexableRows(table));
        |built| > 0 && writeIndexOk && !writeMetadataOk ==> metadataFile == old(metadataFile)
      ensures ok ==> Aligned() && |metadataFile.value| == |IndexedRows(IndexableRows(table))|
      ensures ok ==> forall i :: 0 <= i < |metadataFile.value| ==>
        metadataFile.value[i] == BuildEntry(IndexedRows(IndexableRows(table))[i])
    {
      var vectors, metadata := BuildEntries(IndexableRows(table), embed);
      if |vectors| == 0 {
        return false;
      }
      if !writeIndexOk {
        return false;
      }
      indexFile := Some(vectors);
      if !writeMetadataOk {
        return false;
      }
      metadataFile := Some(metadata);
      return true;
    }

    /** `add_movie_to_faiss`: load both files, append the movie's vector
        and metadata entry unless its id is already listed, then write the
        index file and after it the metadata file. */
    method AddMovie(table: Table, tmdbId: int, embed: string -> Option<Vector>,
                    writeIndexOk: bool, writeMetadataOk: bool) returns (ok: bool)
      modifies this
      ensures AddOutcome(indexFile, metadataFile, ok)
        == AfterAdd(old(indexFile), old(metadataFile), table, tmdbId, embed, writeIndexOk, writeMetadataOk)
    {
      if tmdbId !in table {
        return false;
      }
      var movie := table[tmdbId];
      var text := AddText(movie, [], []);
      var embedding := embed(text);
      if embedding.None? {
        return false;
      }
      if indexFile.None? || metadataFile.None? {
        return false;
      }
      var vectors := indexFile.value;
      var metadata := metadataFile.value;
      var i := 0;
      while i < |metadata|
        invariant 0 <= i <= |metadata|
        invariant forall j :: 0 <= j < i ==> metadata[j].tmdbId != tmdbId
      {
        if metadata[i].tmdbId == tmdbId {
          return true;
        }
        i := i + 1;
      }
      vectors := vectors + [embedding.value];
      metadata := metadata + [AddedEntry(tmdbId, movie)];
      if !writeIndexOk {
        return false;
      }
      indexFile := Some(vectors);
      if !writeMetadataOk {
        return false;
      }
      metadataFile := Some(metadata);
      return true;
    }
  }

  // ------------------------------------------------- add one movie

  /** The text `add_movie_to_faiss` embeds:
      `"{title}. {overview}. Genres: {genres}. Director: {directors}. Cast: {first 5 cast}"`. */
  function AddText(r: MovieRow, directors: seq<string>, cast: seq<string>): (t: string)
    ensures StartsWith(t, Render(r.title) + ". " + Render(r.overview) + ". Genres: ")
  {
    Render(r.title) + ". " + Render(r.overview) + ". Genres: " + Render(r.genresCsv)
    + ". Director: " + Join(directors, ", ") + ". Cast: " + Join(cast[..if |cast| < 5 then |cast| else 5], ", ")
  }

  /** The metadata entry an added movie receives (no overview, no popularity). */
  function AddedEntry(tmdbId: int, r: MovieRow): MetaEntry {
    MetaEntry(tmdbId, r.title, r.year, None, None)
  }

  predicate HasId(metadata: seq<MetaEntry>, tmdbId: int) {
    exists i :: 0 <= i < |metadata| && metadata[i].tmdbId == tmdbId
  }

  /** What the files hold after `add_movie_to_faiss`, and what it returns.
      `embed` is the embedding model (`None` where the call raises);
      `writeIndexOk` and `writeMetadataOk` say whether each file write
      succeeds. The movie comes from the record store, which has no
      directors or cast for it. */
  datatype AddOutcome = AddOutcome(indexFile: Option<seq<Vector>>, metadataFile: Option<seq<MetaEntry>>, ok: bool)

  function AfterAdd(indexFile: Option<seq<Vector>>, metadataFile: Option<seq<MetaEntry>>,
                    table: Table, tmdbId: int, embed: string -> Option<Vector>,
                    writeIndexOk: bool, writeMetadataOk: bool): AddOutcome
  {
    if tmdbId !in table then AddOutcome(indexFile, metadataFile, false)
    else if embed(AddText(table[tmdbId], [], [])).None? then AddOutcome(indexFile, metadataFile, false)
    else if indexFile.None? || metadataFile.None? then AddOutcome(indexFile, metadataFile, false)
    else if HasId(metadataFile.value, tmdbId) then AddOutcome(indexFile, metadataFile, true)
    else
      var vectors := indexFile.value + [embed(AddText(table[tmdbId], [], [])).value];
      var metadata := metadataFile.value + [AddedEntry(tmdbId, table[tmdbId])];
      if !writeIndexOk then AddOutcome(indexFile, metadataFile, false)
      else if !writeMetadataOk then AddOutcome(Some(vectors), metadataFile, false)
      else AddOutcome(Some(vectors), Some(metadata), true)
  }

  /** The update is append-only: whatever the outcome, the files that
      existed keep their old contents as a prefix, growing by at most one. */
  lemma AddAppendOnly(indexFile: Option<seq<Vector>>, metadataFile: Option<seq<MetaEntry>>,
                      table: Table, tmdbId: int, embed: string -> Option<Vector>,
                      writeIndexOk: bool, writeMetadataOk: bool)
    ensures var o := AfterAdd(indexFile, metadataFile, table, tmdbId, embed, writeIndexOk, writeMetadataOk);
      && o.indexFile.Some? == indexFile.Some? && o.metadataFile.Some? == metadataFile.Some?
      && (indexFile.Some? ==> indexFile.value <= o.indexFile.value && |o.indexFile.value| <= |indexFile.value| + 1)
      && (metadataFile.Some? ==> metadataFile.value <= o.metadataFile.value && |o.metadataFile.value| <= |metadataFile.value| + 1)
  {
  }

  /** A movie is appended exactly when it is in the record store, its
      embedding succeeds, both files exist, its id is not yet in the
      metadata and both writes succeed; the new entry names it. */
  lemma AddAppendsNewMovie(indexFile: Option<seq<Vector>>, metadataFile: Option<seq<MetaEntry>>,
                           table: Table, tmdbId: int, embed: string -> Option<Vector>)
    requires indexFile.Some? && metadataFile.Some? && tmdbId in table
    requires embed(AddText(table[tmdbId], [], [])).Some?
    requires !HasId(metadataFile.value, tmdbId)
    ensures var o := AfterAdd(indexFile, metadataFile, table, tmdbId, embed, true, true);
      && o.ok
      && |o.indexFile.value| == |indexFile.value| + 1
      && o.metadataFile.value == metadataFile.value + [AddedEntry(tmdbId, table[tmdbId])]
      && HasId(o.metadataFile.value, tmdbId)
  {
    var o := AfterAdd(indexFile, metadataFile, table, tmdbId, embed, true, true);
    assert o.metadataFile.value[|metadataFile.value|].tmdbId == tmdbId;
  }

  /** Re-adding is idempotent: after a successful add, adding the same
      movie again returns True and changes neither file. */
  lemma AddIdempotent(indexFile: Option<seq<Vector>>, metadataFile: Option<seq<MetaEntry>>,
                      table: Table, tmdbId: int, embed: string -> Option<Vector>,
                      writeIndexOk: bool, writeMetadataOk: bool)
    requires AfterAdd(indexFile, metadataFile, table, tmdbId, embed, true, true).ok
    ensures var o := AfterAdd(indexFile, metadataFile, table, tmdbId, embed, true, true);
      AfterAdd(o.indexFile, o.metadataFile, table, tmdbId, embed, writeIndexOk, writeMetadataOk) == o
  {
    var o := AfterAdd(indexFile, metadataFile, table, tmdbId, embed, true, true);
    if !HasId(metadataFile.value, tmdbId) {
      assert o.metadataFile.value[|metadataFile.value|].tmdbId == tmdbId;
    }
  }

  /** Aligned files stay aligned when both writes succeed; when only the
      metadata write fails, the index file ends one vector longer than the
      metadata file. */
  lemma AddAlignment(indexFile: Option<seq<Vector>>, metadataFile: Option<seq<MetaEntry>>,
                     table: Table, tmdbId: int, embed: string -> Option<Vector>, writeMetadataOk: bool)
    requires indexFile.Some? && metadataFile.Some? && |indexFile.value| == |metadataFile.value|
    ensures var o := AfterAdd(indexFile, metadataFile, table, tmdbId, embed, true, writeMetadataOk);
      && (writeMetadataOk ==> |o.indexFile.value| == |o.metadataFile.value|)
      && ((!writeMetadataOk && tmdbId in table && embed(AddText(table[tmdbId], [], [])).Some?
           && !HasId(metadataFile.value, tmdbId)) ==> |o.indexFile.value| == |o.metadataFile.value| + 1)
  {
  }
}
