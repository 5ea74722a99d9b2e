/**
 Worked requests against small concrete stores, with a concrete runtime
 whose lower-casing folds ASCII letters and whose JSON parser knows the two
 genre texts these stores hold.
 */
module Scenarios {
  import opened Wrappers
  import opened JsValues
  import opened JsParseInt
  import opened Store
  import opened CellConversions
  import opened Responses
  import opened Paging
  import opened ArrayOps
  import opened GenreMatch
  import opened Movies
  import opened MovieProperties

  /** `c` lower-cased when it is an ASCII capital. */
  function LowerChar(c: char): char {
    if 'A' <= c <= 'Z' then (c as int + 32) as char else c
  }

  /** Lower-casing of the ASCII letters only. */
  function AsciiLower(s: string): string {
    seq(|s|, i requires 0 <= i < |s| => LowerChar(s[i]))
  }

  const DramaText: string := "[{\"name\":\"Drama\"}]"
  const NoGenresText: string := "[]"
  const DramaEntry: Json := JObject(map["name" := JString("Drama")])

  /** A runtime that parses the two genre texts of the stores below and
      rejects every other text. */
  function TestRuntime(): Runtime {
    Runtime(
      AsciiLower,
      t => if t == DramaText then Some(JArray([DramaEntry])) else if t == NoGenresText then Some(JArray([])) else None,
      x => "",
      t => NaN,
      n => "")
  }

  /** `genre=comedy` matches a stored `{"name":"Comedy"}`. */
  lemma QueryCaseDoesNotMatter()
    ensures NameMatches(TestRuntime(), JObject(map["name" := JString("Comedy")]), "comedy")
  {
    assert AsciiLower("Comedy") == AsciiLower("comedy");
  }

  /** LIMIT/OFFSET as sqlite applies them to a table in its natural order:
      a negative offset counts as zero and a negative limit as no limit. */
  function SqliteWindow(table: seq<Row>, limit: int, offset: int): (r: seq<Row>)
    ensures 0 <= offset && 0 <= limit ==> r == table[Min(offset, |table|)..Min(offset + limit, |table|)]
  {
    var from := if offset < 0 then 0 else Min(offset, |table|);
    var to := if limit < 0 then |table| else Min(from + limit, |table|);
    table[from..to]
  }

  /** A store holding `table` that answers the catalogue listing's query. */
  function CatalogueDb(table: seq<Row>): Db {
    (q: Query) => match q
         case MoviesPage(limit, offset) => Rows(SqliteWindow(table, limit, offset))
         case _ => Rows(table)
  }

  /** Row `i` of the 120-row table: its number as `imdb_id`, and no genres. */
  function NumberedRow(i: nat): Row {
    map["imdb_id" := Number(i as real), "genres" := Text(NoGenresText)]
  }

  /** A table of 120 rows, numbered from 0. */
  function HundredTwenty(): (t: seq<Row>)
    ensures |t| == 120 && forall i :: 0 <= i < 120 ==> t[i] == NumberedRow(i)
  {
    seq(120, i requires 0 <= i < 120 => NumberedRow(i))
  }

  /** Against a store that applies LIMIT and OFFSET as sqlite does, the
      page `k` of the catalogue listing, asked for as a decimal numeral, is
      the window of at most 50 rows after the first `(k - 1) * 50`, in
      order, when that window holds rows. */
  lemma CataloguePageWindow(rt: Runtime, table: seq<Row>, k: int)
    requires k >= 1 && |Window(table, k)| > 0
    requires forall i :: 0 <= i < |table| ==> JsonOf(rt, Column(table[i], "genres")).Some?
    ensures |Window(table, k)| <= PageSize
    ensures ProjectAll(rt, Window(table, k)).Some?
    ensures GetAllMovies(rt, Some(IntToDecimal(k)), CatalogueDb(table)).reply ==
      Sent(Response(200, Listing(k, |Window(table, k)|, ProjectAll(rt, Window(table, k)).value)))
  {
    NumeralPage(k);
    PageWindow(rt, table, Some(IntToDecimal(k)), k);
  }

  /** `page=k`, written as the bare numeral of `k`, selects page `k`. */
  lemma NumeralPage(k: int)
    requires k >= 1
    ensures CoercePage(Some(IntToDecimal(k))) == k
  {
    ParseIntRoundTrip(k);
  }

  /** `page=2` selects page 2. */
  lemma LiteralPage2()
    ensures CoercePage(Some("2")) == 2
  {
    assert IntToDecimal(2) == "2";
    NumeralPage(2);
  }

  /** `page=3` selects page 3. */
  lemma LiteralPage3()
    ensures CoercePage(Some("3")) == 3
  {
    assert IntToDecimal(3) == "3";
    NumeralPage(3);
  }

  /** The same, for any `page` text that coerces to `k`. */
  lemma PageWindow(rt: Runtime, table: seq<Row>, page: Option<string>, k: int)
    requires k >= 1 && CoercePage(page) == k && |Window(table, k)| > 0
    requires forall i :: 0 <= i < |table| ==> JsonOf(rt, Column(table[i], "genres")).Some?
    ensures ProjectAll(rt, Window(table, k)).Some?
    ensures GetAllMovies(rt, page, CatalogueDb(table)).reply ==
      Sent(Response(200, Listing(k, |Window(table, k)|, ProjectAll(rt, Window(table, k)).value)))
  {
    WindowAnswer(table, k);
    WindowProjects(rt, table, k);
    AllMoviesListsRows(rt, page, CatalogueDb(table), Window(table, k));
  }

  /** A page past the end of the table is a 404. */
  lemma CataloguePagePastEnd(rt: Runtime, table: seq<Row>, k: int)
    requires k >= 1 && Offset(k) >= |table|
    ensures GetAllMovies(rt, Some(IntToDecimal(k)), CatalogueDb(table)).reply ==
      Sent(Response(404, MessageObject("No movies found")))
  {
    NumeralPage(k);
    PagePastEnd(rt, table, Some(IntToDecimal(k)), k);
  }

  /** The same, for any `page` text that coerces to `k`. */
  lemma PagePastEnd(rt: Runtime, table: seq<Row>, page: Option<string>, k: int)
    requires k >= 1 && CoercePage(page) == k && Offset(k) >= |table|
    ensures GetAllMovies(rt, page, CatalogueDb(table)).reply ==
      Sent(Response(404, MessageObject("No movies found")))
  {
    WindowAnswer(table, k);
    assert Window(table, k) == [];
  }

  /** The rows page `k` covers in `table`. */
  function Window(table: seq<Row>, k: int): seq<Row>
    requires k >= 1
  {
    table[Min(Offset(k), |table|)..Min(Offset(k) + PageSize, |table|)]
  }

  /** The sqlite store answers the catalogue query for page `k` with its window. */
  lemma WindowAnswer(table: seq<Row>, k: int)
    requires k >= 1
    ensures CatalogueDb(table)(MoviesPage(PageSize, Offset(k))) == Rows(Window(table, k))
  {
  }

  /** Rows whose genres parse project, in any window. */
  lemma WindowProjects(rt: Runtime, table: seq<Row>, k: int)
    requires k >= 1
    requires forall i :: 0 <= i < |table| ==> JsonOf(rt, Column(table[i], "genres")).Some?
    ensures forall i :: 0 <= i < |Window(table, k)| ==> Project(rt, Window(table, k)[i]).Some?
  {
    var window := Window(table, k);
    forall i | 0 <= i < |window|
      ensures Project(rt, window[i]).Some?
    {
      assert window[i] == table[Min(Offset(k), |table|) + i];
    }
  }

  /** `page=2` against 120 rows lists 50 of them, rows 51 to 100. */
  lemma SecondPageOfHundredTwenty(page: Option<string>)
    requires page == Some("2")
    ensures var x := GetAllMovies(TestRuntime(), page, CatalogueDb(HundredTwenty()));
      && x.reply.Sent? && x.reply.response.status == 200
      && x.reply.response.body.count == 50
      && forall i :: 0 <= i < 50 ==> x.reply.response.body.results[i].imdbId == Some(Number((50 + i) as real))
  {
    LiteralPage2();
    SecondPage(page);
  }

  /** Any `page` text that coerces to 2 lists rows 51 to 100 of the 120. */
  lemma SecondPage(page: Option<string>)
    requires CoercePage(page) == 2
    ensures var x := GetAllMovies(TestRuntime(), page, CatalogueDb(HundredTwenty()));
      && x.reply.Sent? && x.reply.response.status == 200
      && x.reply.response.body.count == 50
      && forall i :: 0 <= i < 50 ==> x.reply.response.body.results[i].imdbId == Some(Number((50 + i) as real))
  {
    var table := HundredTwenty();
    AllRowsParse();
    PageWindow(TestRuntime(), table, page, 2);
    assert Window(table, 2) == table[50..100];
    SecondWindowIds();
  }

  /** The rows 51 to 100 of the 120 project to the ids 50 to 99. */
  lemma SecondWindowIds()
    ensures ProjectAll(TestRuntime(), HundredTwenty()[50..100]).Some?
    ensures forall i :: 0 <= i < 50 ==>
      ProjectAll(TestRuntime(), HundredTwenty()[50..100]).value[i].imdbId == Some(Number((50 + i) as real))
  {
    var window := HundredTwenty()[50..100];
    AllRowsParse();
    assert forall i :: 0 <= i < |window| ==> window[i] == HundredTwenty()[50 + i];
    forall i | 0 <= i < 50
      ensures ProjectAll(TestRuntime(), window).value[i].imdbId == Some(Number((50 + i) as real))
    {
      assert window[i] == NumberedRow(50 + i);
    }
  }

  /** `page=3` against 120 rows lists the last 20. */
  lemma ThirdPageOfHundredTwenty(page: Option<string>)
    requires page == Some("3")
    ensures var x := GetAllMovies(TestRuntime(), page, CatalogueDb(HundredTwenty()));
      x.reply.Sent? && x.reply.response.status == 200 && x.reply.response.body.count == 20
  {
    LiteralPage3();
    ThirdPage(page);
  }

  /** Any `page` text that coerces to 3 lists the last 20 of the 120 rows. */
  lemma ThirdPage(page: Option<string>)
    requires CoercePage(page) == 3
    ensures var x := GetAllMovies(TestRuntime(), page, CatalogueDb(HundredTwenty()));
      x.reply.Sent? && x.reply.response.status == 200 && x.reply.response.body.count == 20
  {
    var table := HundredTwenty();
    assert |Window(table, 3)| == 20;
    AllRowsParse();
    PageWindow(TestRuntime(), table, page, 3);
  }

  /** The genres of every numbered row parse under the test runtime. */
  lemma AllRowsParse()
    ensures forall i :: 0 <= i < |HundredTwenty()| ==> JsonOf(TestRuntime(), Column(HundredTwenty()[i], "genres")).Some?
  {
  }

  /** `GET /movies/9999` against a store with no such movie is a 404. */
  lemma UnknownMovieIsNotFound()
    ensures GetMovie("9999", q => Rows([])).reply == Sent(Response(404, PlainText("Movie not found")))
  {
  }

  /** A row holding only a `genres` column. */
  function GenreRow(text: string): Row {
    map["genres" := Text(text)]
  }

  /** Ten movies, three of them with the genre "Drama". */
  function TenMovies(): seq<Row> {
    var d := GenreRow(DramaText);
    var n := GenreRow(NoGenresText);
    [n, d, n, n, d, n, n, d, n, n]
  }

  /** Filtering a suffix tests its first element, then the shorter suffix. */
  lemma FilterFrom<T>(s: seq<T>, k: nat, keep: T -> bool)
    requires k < |s|
    ensures Filter(s[k..], keep) == (if keep(s[k]) then [s[k]] else []) + Filter(s[k + 1..], keep)
  {
    assert s[k..][1..] == s[k + 1..];
  }

  /** One drama between two other movies. */
  lemma FilterTriple<T>(n: T, d: T, keep: T -> bool)
    requires keep(d) && !keep(n)
    ensures Filter([n, d, n], keep) == [d]
  {
    var s := [n, d, n];
    assert s[3..] == [];
    FilterFrom(s, 2, keep);
    FilterFrom(s, 1, keep);
    FilterFrom(s, 0, keep);
    assert s[0..] == s;
  }

  /** Filtering the pattern of the ten movies below keeps the three `d`. */
  lemma FilterPattern<T>(n: T, d: T, keep: T -> bool)
    requires keep(d) && !keep(n)
    ensures Filter([n, d, n, n, d, n, n, d, n, n], keep) == [d, d, d]
  {
    var t := [n, d, n];
    FilterTriple(n, d, keep);
    assert Filter([n], keep) == [];
    FilterAppend(t, [n], keep);
    FilterAppend(t, t + [n], keep);
    FilterAppend(t, t + (t + [n]), keep);
    assert [n, d, n, n, d, n, n, d, n, n] == t + (t + (t + [n]));
  }

  /** The genre test of the test runtime keeps the drama rows only. */
  lemma DramaTest()
    ensures GenreTest(TestRuntime(), "Drama")(GenreRow(DramaText))
    ensures !GenreTest(TestRuntime(), "Drama")(GenreRow(NoGenresText))
  {
    var rt := TestRuntime();
    assert JsonOf(rt, Column(GenreRow(DramaText), "genres")) == Some(JArray([DramaEntry]));
    assert NameMatches(rt, DramaEntry, "Drama");
    assert JsonOf(rt, Column(GenreRow(NoGenresText), "genres")) == Some(JArray([]));
  }

  /** `genre=Drama` against ten movies of which three are dramas lists three. */
  lemma ThreeDramasOfTen()
    ensures var x := GetMoviesByGenre(TestRuntime(), Some("Drama"), None, (q: Query) => Rows(TenMovies()));
      x.reply.Sent? && x.reply.response.status == 200 && x.reply.response.body.count == 3
  {
    var d := GenreRow(DramaText);
    DramaTest();
    FilterPattern(GenreRow(NoGenresText), d, GenreTest(TestRuntime(), "Drama"));
    assert CoercePage(None) == 1;
    PageBounds([d, d, d], 1);
  }
}
