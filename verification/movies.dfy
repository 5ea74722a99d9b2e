/**
 The four movie handlers. Each takes the runtime's library calls, the
 request's parameters and the store, and returns the query it issued and
 its reply. They share one status ladder: 400 for a missing required
 parameter (before any query), then 500 for a store error, then 404 for an
 empty result, then 200.
 */
module Movies {
  import opened Wrappers
  import opened JsValues
  import opened Store
  import opened CellConversions
  import opened Responses
  import opened Paging
  import opened ArrayOps
  import opened GenreMatch
  import opened JsParseInt

  /** `$${Number(row.budget).toLocaleString()}`, as the paginated listings
      format a budget. */
  function ListingBudget(rt: Runtime, budget: Option<Cell>): (r: string)
    ensures |r| > 0 && r[0] == '$'
    ensures budget.Some? && budget.value.Number? ==> r[1..] == rt.toLocaleString(Finite(budget.value.value))
    ensures budget == Some(Null) ==> r[1..] == rt.toLocaleString(Finite(0.0))
    ensures budget.None? ==> r[1..] == rt.toLocaleString(NaN)
  {
    "$" + rt.toLocaleString(ToNumber(rt, budget))
  }

  /** `$${parseInt(row.budget).toLocaleString()}`, as the listing by year
      formats a budget. */
  function YearBudget(rt: Runtime, budget: Option<Cell>): (r: string)
    ensures |r| > 0 && r[0] == '$'
    ensures budget.None? || budget == Some(Null) ==> r[1..] == rt.toLocaleString(NaN)
  {
    UndefinedAndNullAreNaN();
    "$" + rt.toLocaleString(ParseIntOf(rt, budget))
  }

  /** The projection of one row onto the five listed fields; None when
      `JSON.parse(row.genres)` throws. */
  function Project(rt: Runtime, row: Row): (r: Option<ListedMovie>)
    ensures r.Some? <==> JsonOf(rt, Column(row, "genres")).Some?
    ensures r.Some? ==>
      && r.value.imdbId == Column(row, "imdb_id")
      && r.value.genres == JsonOf(rt, Column(row, "genres")).value
      && r.value.budget == ListingBudget(rt, Column(row, "budget"))
  {
    match JsonOf(rt, Column(row, "genres"))
    case None => None
    case Some(genres) =>
      Some(ListedMovie(
        Column(row, "imdb_id"),
        Column(row, "title"),
        genres,
        Column(row, "release_date"),
        ListingBudget(rt, Column(row, "budget"))))
  }

  /** `rows.map(project)`: one listed movie per row, in order, unless some
      row's `genres` does not parse, which throws out of the map. */
  function ProjectAll(rt: Runtime, rows: seq<Row>): (r: Option<seq<ListedMovie>>)
    ensures r.Some? <==> forall i :: 0 <= i < |rows| ==> Project(rt, rows[i]).Some?
    ensures r.Some? ==> |r.value| == |rows|
    ensures r.Some? ==> forall i :: 0 <= i < |rows| ==> r.value[i] == Project(rt, rows[i]).value
    decreases |rows|
  {
    if |rows| == 0 then Some([])
    else
      match Project(rt, rows[0])
      case None => None
      case Some(m) =>
        match ProjectAll(rt, rows[1..])
        case None => None
        case Some(ms) => Some([m] + ms)
  }

  /** `{ ...row, budget: … }`: the row with its budget replaced by the
      formatted text. */
  function WithYearBudget(rt: Runtime, row: Row): Row {
    row["budget" := Text(YearBudget(rt, Column(row, "budget")))]
  }

  /** `rows.map(row => ({ ...row, budget: … }))`: each row keeps every other
      column unchanged and gains or replaces only `budget`. */
  function FormatYearRows(rt: Runtime, rows: seq<Row>): (r: seq<Row>)
    ensures |r| == |rows|
    ensures forall i :: 0 <= i < |rows| ==> r[i].Keys == rows[i].Keys + {"budget"}
    ensures forall i, c :: 0 <= i < |rows| && c in rows[i] && c != "budget" ==> r[i][c] == rows[i][c]
    ensures forall i :: 0 <= i < |rows| ==> r[i]["budget"] == Text(YearBudget(rt, Column(rows[i], "budget")))
  {
    seq(|rows|, i requires 0 <= i < |rows| => WithYearBudget(rt, rows[i]))
  }

  /** The filter callback of the genre listing. */
  function GenreTest(rt: Runtime, query: string): Row -> bool {
    row => RowMatchesGenre(rt, row, query)
  }

  /** The rows of the full scan that pass the genre test, in store order. */
  function GenreFiltered(rt: Runtime, rows: seq<Row>, query: string): (r: seq<Row>)
    ensures |r| <= |rows|
    ensures forall row :: row in r <==> row in rows && RowMatchesGenre(rt, row, query)
  {
    Filter(rows, GenreTest(rt, query))
  }

  /** `getAllMovies`: one page of the catalogue in store order. */
  function GetAllMovies(rt: Runtime, page: Option<string>, db: Db): (x: Exchange)
    ensures x.issued == Some(MoviesPage(PageSize, Offset(CoercePage(page))))
    ensures db(MoviesPage(PageSize, Offset(CoercePage(page)))).Failed? ==>
      x.reply == Sent(Response(500, ErrorObject(db(MoviesPage(PageSize, Offset(CoercePage(page)))).error.message)))
    ensures db(MoviesPage(PageSize, Offset(CoercePage(page)))) == Rows([]) ==>
      x.reply == Sent(Response(404, MessageObject("No movies found")))
    ensures x.reply == Crashed <==>
      var res := db(MoviesPage(PageSize, Offset(CoercePage(page))));
      res.Rows? && exists i :: 0 <= i < |res.rows| && JsonOf(rt, Column(res.rows[i], "genres")).None?
    ensures x.reply.Sent? && x.reply.response.status == 200 ==>
      var res := db(MoviesPage(PageSize, Offset(CoercePage(page))));
      && res.Rows? && |res.rows| > 0
      && x.reply.response.body.Listing?
      && x.reply.response.body.page == CoercePage(page)
      && x.reply.response.body.count == |x.reply.response.body.results| == |res.rows|
    ensures x.reply.Sent? ==> x.reply.response.status in {200, 404, 500}
  {
    var p := CoercePage(page);
    var q := MoviesPage(PageSize, Offset(p));
    match db(q)
    case Failed(e) => Exchange(Some(q), Sent(Response(500, ErrorObject(e.message))))
    case Rows(rows) =>
      if |rows| == 0 then Exchange(Some(q), Sent(Response(404, MessageObject("No movies found"))))
      else
        match ProjectAll(rt, rows)
        case None => Exchange(Some(q), Crashed)
        case Some(results) => Exchange(Some(q), Sent(Response(200, Listing(p, |results|, results))))
  }

  /** `getMoviesByYear`: one page of the movies of a year, in release order. */
  function GetMoviesByYear(rt: Runtime, year: string, page: Option<string>, order: Option<string>, db: Db): (x: Exchange)
    ensures x.issued == Some(MoviesOfYear(year, SortOrder(order), PageSize, Offset(CoercePage(page))))
    ensures x.reply.Sent?
    ensures var res := db(MoviesOfYear(year, SortOrder(order), PageSize, Offset(CoercePage(page))));
      res.Failed? ==> x.reply == Sent(Response(500, PlainText(res.error.serialized)))
    ensures db(MoviesOfYear(year, SortOrder(order), PageSize, Offset(CoercePage(page)))) == Rows([]) ==>
      x.reply == Sent(Response(404, PlainText("No movies found for the specified year")))
    ensures var res := db(MoviesOfYear(year, SortOrder(order), PageSize, Offset(CoercePage(page))));
      res.Rows? && |res.rows| > 0 ==> x.reply == Sent(Response(200, RowArray(FormatYearRows(rt, res.rows))))
  {
    var q := MoviesOfYear(year, SortOrder(order), PageSize, Offset(CoercePage(page)));
    match db(q)
    case Failed(e) => Exchange(Some(q), Sent(Response(500, PlainText(e.serialized))))
    case Rows(rows) =>
      if |rows| == 0 then Exchange(Some(q), Sent(Response(404, PlainText("No movies found for the specified year"))))
      else Exchange(Some(q), Sent(Response(200, RowArray(FormatYearRows(rt, rows)))))
  }

  /** Every row on a page of the genre-filtered rows has a `genres` column
      that parses, so projecting the page cannot throw. */
  lemma FilteredPageProjects(rt: Runtime, rows: seq<Row>, query: string, page: int)
    ensures ProjectAll(rt, PageOf(GenreFiltered(rt, rows, query), page)).Some?
  {
    var paged := PageOf(GenreFiltered(rt, rows, query), page);
    forall i | 0 <= i < |paged|
      ensures Project(rt, paged[i]).Some?
    {
      assert paged[i] in GenreFiltered(rt, rows, query);
      assert RowMatchesGenre(rt, paged[i], query);
    }
  }

  /** The genre listing's callback after a successful scan: filter, take the
      page, project it, then 404 for an empty page or 200. */
  function GenrePage(rt: Runtime, rows: seq<Row>, query: string, p: int): (r: Reply)
    ensures r.Sent?
    ensures var matching := PageOf(GenreFiltered(rt, rows, query), p);
      && (r.response.status == 404 <==> |matching| == 0)
      && (|matching| == 0 ==> r.response.body == MessageObject("No movies found for the specified genre"))
      && (|matching| > 0 ==>
            && r.response.status == 200
            && r.response.body.Listing?
            && r.response.body.page == p
            && r.response.body.count == |r.response.body.results| == |matching|)
  {
    var paged := PageOf(GenreFiltered(rt, rows, query), p);
    FilteredPageProjects(rt, rows, query, p);
    match ProjectAll(rt, paged)
    case None => Crashed
    case Some(results) =>
      if |results| == 0 then Sent(Response(404, MessageObject("No movies found for the specified genre")))
      else Sent(Response(200, Listing(p, |results|, results)))
  }

  /** `getMoviesByGenre`: the movies with a given genre, filtered from a full
      scan and then paginated. */
  function GetMoviesByGenre(rt: Runtime, genre: Option<string>, page: Option<string>, db: Db): (x: Exchange)
    ensures x.issued.None? <==> genre.None? || genre == Some("")
    ensures x.issued.None? ==> x.reply == Sent(Response(400, ErrorObject("Genre query parameter is required")))
    ensures x.issued.Some? ==> x.issued.value == AllMovies
    ensures x.issued.Some? && db(AllMovies).Failed? ==>
      x.reply == Sent(Response(500, ErrorObject(db(AllMovies).error.message)))
    ensures x.issued.Some? && db(AllMovies).Rows? ==>
      x.reply == GenrePage(rt, db(AllMovies).rows, genre.value, CoercePage(page))
  {
    match RequiredGenre(genre)
    case None => Exchange(None, Sent(Response(400, ErrorObject("Genre query parameter is required"))))
    case Some(g) =>
      match db(AllMovies)
      case Failed(e) => Exchange(Some(AllMovies), Sent(Response(500, ErrorObject(e.message))))
      case Rows(rows) => Exchange(Some(AllMovies), GenrePage(rt, rows, g, CoercePage(page)))
  }

  /** `getMovie`: the rows with a given movie id, sent as they are. */
  function GetMovie(movieId: string, db: Db): (x: Exchange)
    ensures x.issued == Some(MovieById(movieId))
    ensures x.reply.Sent?
    ensures var res := db(MovieById(movieId));
      && (res.Failed? ==> x.reply.response == Response(500, PlainText(res.error.serialized)))
      && (res == Rows([]) ==> x.reply.response == Response(404, PlainText("Movie not found")))
      && (res.Rows? && |res.rows| > 0 ==> x.reply.response == Response(200, RowArray(res.rows)))
  {
    var q := MovieById(movieId);
    match db(q)
    case Failed(e) => Exchange(Some(q), Sent(Response(500, PlainText(e.serialized))))
    case Rows(rows) =>
      if |rows| == 0 then Exchange(Some(q), Sent(Response(404, PlainText("Movie not found"))))
      else Exchange(Some(q), Sent(Response(200, RowArray(rows))))
  }
}
