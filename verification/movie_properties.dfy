/**
 What the movie handlers promise across calls and about the content of
 their replies: the genre listing returns exactly the matching rows of the
 requested page, each with a matching genre; the catalogue listing maps its
 rows one to one; every handler follows the status ladder.
 */
module MovieProperties {
  import opened Wrappers
  import opened JsValues
  import opened JsParseInt
  import opened Store
  import opened CellConversions
  import opened Responses
  import opened Paging
  import opened ArrayOps
  import opened GenreMatch
  import opened Movies

  /** The results of a successful genre listing are the projections of the
      requested page of the matching rows, in store order; from page 1 on
      that page is `filtered[offset .. offset + 50]`, so at most 50 rows. */
  lemma GenreResultsAreThePage(rt: Runtime, genre: Option<string>, page: Option<string>, db: Db)
    requires GetMoviesByGenre(rt, genre, page, db).reply.Sent?
    requires GetMoviesByGenre(rt, genre, page, db).reply.response.status == 200
    ensures genre.Some? && db(AllMovies).Rows?
    ensures GetMoviesByGenre(rt, genre, page, db).reply.response.body.Listing?
    ensures ProjectAll(rt, PageOf(GenreFiltered(rt, db(AllMovies).rows, genre.value), CoercePage(page))).Some?
    ensures var filtered := GenreFiltered(rt, db(AllMovies).rows, genre.value);
      var p := CoercePage(page);
      var results := GetMoviesByGenre(rt, genre, page, db).reply.response.body.results;
      && |results| == |PageOf(filtered, p)| <= PageSize
      && (forall i :: 0 <= i < |results| ==> results[i] == Project(rt, PageOf(filtered, p)[i]).value)
      && (p >= 1 ==>
            var lo, hi := Min(Offset(p), |filtered|), Min(Offset(p) + PageSize, |filtered|);
            0 <= lo <= hi <= |filtered| && PageOf(filtered, p) == filtered[lo..hi])
  {
    var p := CoercePage(page);
    var filtered := GenreFiltered(rt, db(AllMovies).rows, genre.value);
    FilteredPageProjects(rt, db(AllMovies).rows, genre.value, p);
    if p >= 1 {
      PageBounds(filtered, p);
    }
  }

  /** Soundness of the genre filter: every movie a genre listing returns has
      a genre whose lower-cased name equals the lower-cased query. */
  lemma GenreResultsMatch(rt: Runtime, genre: Option<string>, page: Option<string>, db: Db)
    requires GetMoviesByGenre(rt, genre, page, db).reply.Sent?
    requires GetMoviesByGenre(rt, genre, page, db).reply.response.status == 200
    ensures genre.Some?
    ensures GetMoviesByGenre(rt, genre, page, db).reply.response.body.Listing?
    ensures forall m :: m in GetMoviesByGenre(rt, genre, page, db).reply.response.body.results ==>
      m.genres.JArray? && exists i :: 0 <= i < |m.genres.items| && NameMatches(rt, m.genres.items[i], genre.value)
  {
    GenreResultsAreThePage(rt, genre, page, db);
    var p := CoercePage(page);
    var paged := PageOf(GenreFiltered(rt, db(AllMovies).rows, genre.value), p);
    var results := GetMoviesByGenre(rt, genre, page, db).reply.response.body.results;
    forall m | m in results
      ensures m.genres.JArray? && exists i :: 0 <= i < |m.genres.items| && NameMatches(rt, m.genres.items[i], genre.value)
    {
      var k :| 0 <= k < |results| && results[k] == m;
      assert paged[k] in GenreFiltered(rt, db(AllMovies).rows, genre.value);
      assert RowMatchesGenre(rt, paged[k], genre.value);
      AnyEntryMatchesSpec(rt, m.genres.items, genre.value);
    }
  }

  /** Completeness of the genre filter: a row whose genres are a well-formed
      list holding the genre, in any letter case the runtime folds, is among
      the filtered rows; and a filtered row with a well-formed list holds it. */
  lemma GenreFilterExact(rt: Runtime, rows: seq<Row>, row: Row, query: string, genres: Json, gs: seq<Genre>)
    requires row in rows
    requires JsonOf(rt, Column(row, "genres")) == Some(genres) && DecodeGenres(genres) == Some(gs)
    ensures row in GenreFiltered(rt, rows, query) <==>
      exists g :: g in gs && rt.toLowerCase(g.name) == rt.toLowerCase(query)
  {
    DecodedGenresMatch(rt, genres, gs, query);
  }

  /** A row whose `genres` does not parse, or is no array, never reaches a
      genre listing, and never turns it into an error. */
  lemma UnparsableRowsAreDropped(rt: Runtime, rows: seq<Row>, row: Row, query: string)
    requires JsonOf(rt, Column(row, "genres")).None? || !JsonOf(rt, Column(row, "genres")).value.JArray?
    ensures row !in GenreFiltered(rt, rows, query)
  {
    UnparsableGenresNeverMatch(rt, row, query);
  }

  /** The status ladder of the genre listing: 400 exactly when the genre is
      missing or empty, 500 exactly when the scan fails, 404 exactly when the
      page of matching rows is empty, 200 otherwise; it never crashes. */
  lemma GenreStatusLadder(rt: Runtime, genre: Option<string>, page: Option<string>, db: Db)
    ensures var x := GetMoviesByGenre(rt, genre, page, db);
      && x.reply.Sent?
      && (x.reply.response.status == 400 <==> genre.None? || genre == Some(""))
      && (x.reply.response.status == 500 <==> x.issued.Some? && db(AllMovies).Failed?)
      && (x.reply.response.status == 404 <==>
            x.issued.Some? && db(AllMovies).Rows? &&
            |PageOf(GenreFiltered(rt, db(AllMovies).rows, genre.value), CoercePage(page))| == 0)
      && x.reply.response.status in {200, 400, 404, 500}
  {
  }

  /** A page past the last matching row is a 404, even when matching rows exist. */
  lemma GenrePagePastEndIsNotFound(rt: Runtime, genre: string, page: Option<string>, db: Db)
    requires genre != "" && db(AllMovies).Rows?
    requires CoercePage(page) >= 1
    requires Offset(CoercePage(page)) >= |GenreFiltered(rt, db(AllMovies).rows, genre)|
    ensures GetMoviesByGenre(rt, Some(genre), page, db).reply ==
      Sent(Response(404, MessageObject("No movies found for the specified genre")))
  {
    PageBounds(GenreFiltered(rt, db(AllMovies).rows, genre), CoercePage(page));
  }

  /** The catalogue listing's results follow the store rows one to one, in
      order, each carrying just the five projected fields. */
  lemma AllMoviesFollowRows(rt: Runtime, page: Option<string>, db: Db)
    requires GetAllMovies(rt, page, db).reply.Sent?
    requires GetAllMovies(rt, page, db).reply.response.status == 200
    ensures var rows := db(MoviesPage(PageSize, Offset(CoercePage(page)))).rows;
      var results := GetAllMovies(rt, page, db).reply.response.body.results;
      && |results| == |rows|
      && forall i :: 0 <= i < |rows| ==>
        && results[i].imdbId == Column(rows[i], "imdb_id")
        && results[i].title == Column(rows[i], "title")
        && Some(results[i].genres) == JsonOf(rt, Column(rows[i], "genres"))
        && results[i].releaseDate == Column(rows[i], "release_date")
        && results[i].budget == ListingBudget(rt, Column(rows[i], "budget"))
  {
  }

  /** When the store answers with rows whose genres all parse, the
      catalogue listing is a 200 holding exactly their projections. */
  lemma AllMoviesListsRows(rt: Runtime, page: Option<string>, db: Db, rows: seq<Row>)
    requires db(MoviesPage(PageSize, Offset(CoercePage(page)))) == Rows(rows)
    requires |rows| > 0
    requires forall i :: 0 <= i < |rows| ==> Project(rt, rows[i]).Some?
    ensures GetAllMovies(rt, page, db).reply ==
      Sent(Response(200, Listing(CoercePage(page), |rows|, ProjectAll(rt, rows).value)))
  {
  }

  /** The by-year listing sorts descending exactly for `order=desc`. */
  lemma YearOrder(rt: Runtime, year: string, page: Option<string>, order: Option<string>, db: Db)
    ensures GetMoviesByYear(rt, year, page, order, db).issued.value.order == Desc <==> order == Some("desc")
  {
  }

  /** A budget given as a plain decimal numeral is formatted from its value
      in the listing by year. */
  lemma YearBudgetReadsNumerals(rt: Runtime, n: int)
    ensures YearBudget(rt, Some(Text(IntToDecimal(n)))) == "$" + rt.toLocaleString(Finite(n as real))
  {
    ParseIntRoundTrip(n);
  }

  /** A missing or NULL budget is formatted from NaN in the listing by year. */
  lemma YearBudgetOfNothingIsNaN(rt: Runtime, budget: Option<Cell>)
    requires budget.None? || budget == Some(Null)
    ensures YearBudget(rt, budget) == "$" + rt.toLocaleString(NaN)
  {
    if budget.None? {
      assert ToText(rt, budget) == "undefined";
      WordIsNaN("undefined");
    } else {
      assert ToText(rt, budget) == "null";
      WordIsNaN("null");
    }
  }
}
