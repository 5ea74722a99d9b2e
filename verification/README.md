# Movie catalogue API: the movie handlers

This project models the four movie handlers of the movie catalogue API in
`movie-services/movie-services/movies_api/routes/movies.ts`: `getAllMovies`,
`getMoviesByYear`, `getMoviesByGenre` and `getMovie`. It then proves what
they promise about paging, genre matching and status codes.

Each handler is a pure function. It takes three inputs:

- the runtime's library calls, a `Runtime`. These are lower-casing, `JSON.parse`,
  number/string conversion and `toLocaleString`, left abstract.
- the request's parameters. A parameter missing from the request is `None`.
- the store, a `Db`. This is any function from the handler's `Query` to a
  `StoreResult`: either the driver's error or the rows it calls back with.

The handler returns an `Exchange`: the query it issued (if any) and its
`Reply`. A reply is either a `Response` (status and body) or `Crashed`.
`Crashed` means an exception escaped the driver's callback, so no response
was sent. What the database does with a query (LIMIT/OFFSET, the year
filter, ORDER BY, natural row order) belongs to the store and is not
modelled.

The modules follow the handlers' logic:

- `JsParseInt` implements JavaScript's `parseInt` as section 19.2.5 of
  ECMA-262 defines it. It skips white space, reads a sign, handles a `0x`
  prefix, and reads the longest run of digits, with NaN as `None`. It is
  proved to read back every integer's decimal numeral.
- `ArrayOps` holds `Array.prototype.filter` and `slice`. In `slice`, negative
  bounds count back from the end.
- `Paging` holds `parseInt(page) || 1`, the offset `(page - 1) * 50`, the
  `order === 'desc'` test, the required-genre test, and which rows a page
  covers.
- `Store` and `Responses` hold the store's queries and results, the column
  values as the driver hands them over, and response bodies.
- `CellConversions` holds `String(v)`, `Number(v)`, `parseInt(v)` and
  `JSON.parse(v)` applied to a column value.
- `GenreMatch` holds the genre test of the genre listing. It is
  `genres.some(g => g.name.toLowerCase() === query.toLowerCase())` inside a
  try/catch. It also has a typed decoder of the `genres` column into
  `seq<Genre>`.
- `Movies` holds the four handlers. `MovieProperties` holds the properties
  that relate them to their inputs.
- `Scenarios` replays worked requests against small concrete stores. It uses
  an ASCII lower-casing runtime and a store that applies LIMIT/OFFSET as
  sqlite does.

The handlers behave as follows in these corner cases:

- The year listing and `getMovie` answer a store error with
  `JSON.stringify(err)`, not with the error's message. The other two
  handlers send `{ error: err.message }`.
- The genre listing answers 400 for an empty `genre` as well as a missing one.
- A row is dropped by the genre test when its `genres` does not parse or is
  not an array. It is also dropped when an entry without a string `name`
  comes before every matching entry. Such an entry AFTER a match is never
  reached, so the row is kept. It is listed with that entry in its parsed
  genres.
- `getAllMovies` parses every row's `genres` outside any try/catch. One
  unparsable row throws inside the callback and no response is sent: the
  model's `Crashed`, never a 500. The genre listing cannot crash this way,
  because it only re-parses rows that already parsed.
- The listings format a budget from `Number(budget)`. The year listing
  formats it from `parseInt(budget)`. So a budget of `12.7` or `"1,000"`
  reaches the formatter differently in the two.
- A negative `page` is kept as it is: `parseInt("-1")` is truthy. The genre
  listing then slices from the end of the filtered rows. For example, page
  -1 takes the rows from 100 to 50 before the end.

## Model

| member | source | states |
|---|---|---|
| JsParseInt.ParseInt | movie-services/movie-services/movies_api/routes/movies.ts:8 | `parseInt` is NaN unless the text, after its leading white space, starts with a sign or a decimal digit, and negative only after a minus sign; `ParseIntRoundTrip` ties it to the decimal numerals |
| JsParseInt.ParseIntRoundTrip | movie-services/movie-services/movies_api/routes/movies.ts:8 | `parseInt` reads back the decimal numeral of every integer, negative ones included |
| JsParseInt.ParseIntReadsDecimal | movie-services/movie-services/movies_api/routes/movies.ts:8 | leading white space is skipped and text after the numeral is ignored when it starts with a non-digit; after the numeral `0` that non-digit must also not be `x`/`X`, which would make a hex prefix |
| JsParseInt.NonNumericIsNaN | movie-services/movie-services/movies_api/routes/movies.ts:8 | a text that starts with neither white space, a sign nor a digit (the empty text included) is NaN |
| JsParseInt.UndefinedAndNullAreNaN | movie-services/movie-services/movies_api/routes/movies.ts:79 | `parseInt` of `undefined` and of `null` is NaN |
| JsParseInt.TrimStart | movie-services/movie-services/movies_api/routes/movies.ts:8 | the white space `parseInt` skips is exactly the leading run of white-space characters, and what remains starts with something else |
| Paging.CoercePage | movie-services/movie-services/movies_api/routes/movies.ts:8 | the coerced page is never 0, and a missing page is page 1 |
| Paging.DecimalPage | movie-services/movie-services/movies_api/routes/movies.ts:53 | a page holding the numeral of n, after any white space and before any text that does not continue it (`page=2`, `page= 2`, `page=2abc`), gives page n for every integer n except 0, which falls back to page 1 |
| Paging.NonNumericPage | movie-services/movie-services/movies_api/routes/movies.ts:89 | a page with no decimal digit after its white space and optional sign (`abc`, ` abc`, blank, `-abc`, `+`, empty) gives page 1 |
| Paging.SortOrder | movie-services/movie-services/movies_api/routes/movies.ts:54 | descending order exactly when `order` is the text `desc`; any other value, or none, is ascending |
| Paging.RequiredGenre | movie-services/movie-services/movies_api/routes/movies.ts:88-93 | the genre is accepted exactly when it is present and non-empty, and is then passed on unchanged |
| Paging.Offset | movie-services/movie-services/movies_api/routes/movies.ts:10 | the offset is a multiple of 50; it is 0 exactly for page 1 and non-negative exactly for pages from 1 on |
| Paging.PageOf | movie-services/movie-services/movies_api/routes/movies.ts:115 | a page never holds more than 50 rows, and only rows of the sequence it is cut from; `PageBounds` gives its exact extent |
| Paging.PageBounds | movie-services/movie-services/movies_api/routes/movies.ts:115 | for page >= 1 the page is the rows after the first `(page - 1) * 50`, in order, and there are at most 50 of them |
| Paging.FirstPagesArePrefix | movie-services/movie-services/movies_api/routes/movies.ts:115 | pages 1 to k together are exactly the first 50k rows, so no row is skipped or repeated across pages |
| ArrayOps.Filter | movie-services/movie-services/movies_api/routes/movies.ts:106 | every kept element passes the test, every element that passes is kept, and nothing else appears |
| ArrayOps.FilterAppend | movie-services/movie-services/movies_api/routes/movies.ts:106 | filtering distributes over concatenation, so kept elements stay in their original order |
| ArrayOps.Slice | movie-services/movie-services/movies_api/routes/movies.ts:115 | with non-negative bounds a slice is the clamped sub-sequence; negative bounds count from the end; a slice never holds more elements than its bounds are apart |
| GenreMatch.AnyEntryMatches | movie-services/movie-services/movies_api/routes/movies.ts:109-111 | the scan is true only when some entry matches the query; `AnyEntryMatchesSpec` gives the exact condition |
| GenreMatch.AnyEntryMatchesSpec | movie-services/movie-services/movies_api/routes/movies.ts:109-111 | the test holds exactly when some entry's lower-cased name equals the lower-cased query and every entry before it has a string name |
| GenreMatch.DecodeEntries | movie-services/movie-services/movies_api/routes/movies.ts:108 | decoding succeeds exactly when every entry has a string name, and then yields one genre per entry with that name |
| GenreMatch.DecodedGenresMatch | movie-services/movie-services/movies_api/routes/movies.ts:108-109 | on a well-formed genre list the test is membership: some genre's lower-cased name equals the lower-cased query |
| GenreMatch.UnparsableGenresNeverMatch | movie-services/movie-services/movies_api/routes/movies.ts:106-112 | a `genres` column that fails to parse, or is not an array, fails the test |
| GenreMatch.MalformedEntryFirstNeverMatches | movie-services/movie-services/movies_api/routes/movies.ts:109-111 | an entry without a string name before every matching entry makes the row fail the test |
| GenreMatch.MalformedEntryAfterMatchIsIgnored | movie-services/movie-services/movies_api/routes/movies.ts:109 | an entry without a string name after a matching entry does not stop the row from passing |
| Movies.Project | movie-services/movie-services/movies_api/routes/movies.ts:34-40 | a row projects exactly when its `genres` parses, keeping its `imdb_id`, the parsed genres and the listing budget; `AllMoviesFollowRows` states the rest |
| Movies.ListingBudget | movie-services/movie-services/movies_api/routes/movies.ts:39 | the budget text is `$` before the localised `Number(budget)`: the number itself for a numeric column, 0 for NULL, NaN for a missing column |
| Movies.YearBudget | movie-services/movie-services/movies_api/routes/movies.ts:79 | the budget text is `$` before the localised `parseInt(budget)`, which is NaN for a missing or NULL column; `YearBudgetReadsNumerals` gives the numeral case |
| Movies.GenreFiltered | movie-services/movie-services/movies_api/routes/movies.ts:106-113 | the filtered rows are exactly the scanned rows that pass the genre test, and never more than were scanned |
| Movies.ProjectAll | movie-services/movie-services/movies_api/routes/movies.ts:34-40 | the projection succeeds exactly when every row's genres parse, and then gives one listed movie per row, in order |
| Movies.FormatYearRows | movie-services/movie-services/movies_api/routes/movies.ts:77-80 | each output row has the input row's columns plus `budget`; every other column is unchanged, and `budget` is the formatted `parseInt` of the old value |
| Movies.GetAllMovies | movie-services/movie-services/movies_api/routes/movies.ts:7-47 | issues LIMIT 50 at offset `(page - 1) * 50`; store error gives 500 with the message; no rows gives 404; crashes exactly when some row's genres fail to parse; a 200 echoes the page and counts as many results as rows |
| Movies.GetMoviesByYear | movie-services/movie-services/movies_api/routes/movies.ts:51-83 | issues the year query with the chosen order and page window; store error gives 500 with the serialised error; no rows gives 404; otherwise 200 with the budget-reformatted rows; never crashes |
| Movies.GetMoviesByGenre | movie-services/movie-services/movies_api/routes/movies.ts:87-104 | a missing or empty genre gives 400 and issues no query; otherwise one full scan; a scan error gives 500 with the message |
| Movies.GenrePage | movie-services/movie-services/movies_api/routes/movies.ts:106-132 | after a scan the reply is always sent; 404 exactly when the requested page of matching rows is empty; otherwise 200 echoing the page, with one result per row of that page |
| Movies.FilteredPageProjects | movie-services/movie-services/movies_api/routes/movies.ts:115-121 | re-parsing the genres of a page of matching rows cannot throw |
| Movies.GetMovie | movie-services/movie-services/movies_api/routes/movies.ts:137-152 | queries by id; store error gives 500 with the serialised error; no rows gives 404 "Movie not found"; otherwise 200 with the rows unchanged |
| MovieProperties.GenreResultsAreThePage | movie-services/movie-services/movies_api/routes/movies.ts:106-131 | the results are the projections of the requested page of the filtered rows, in store order, at most 50; from page 1 on that page is `filtered[offset .. offset + 50]` |
| MovieProperties.GenreResultsMatch | movie-services/movie-services/movies_api/routes/movies.ts:106-131 | every returned movie has a genre whose lower-cased name equals the lower-cased query |
| MovieProperties.GenreFilterExact | movie-services/movie-services/movies_api/routes/movies.ts:106-113 | a row with a well-formed genre list is among the filtered rows exactly when one of its genres matches the query case-insensitively |
| MovieProperties.UnparsableRowsAreDropped | movie-services/movie-services/movies_api/routes/movies.ts:106-113 | a row whose genres do not parse, or are not an array, is never among the filtered rows |
| MovieProperties.GenreStatusLadder | movie-services/movie-services/movies_api/routes/movies.ts:93-131 | 400 exactly for a missing or empty genre, 500 exactly for a scan error, 404 exactly for an empty page of matches, else 200; never a crash |
| MovieProperties.GenrePagePastEndIsNotFound | movie-services/movie-services/movies_api/routes/movies.ts:115-126 | a page past the last matching row is a 404 even when matching rows exist |
| MovieProperties.AllMoviesFollowRows | movie-services/movie-services/movies_api/routes/movies.ts:34-46 | the results follow the store rows one to one, in order, each with just the five projected fields |
| MovieProperties.AllMoviesListsRows | movie-services/movie-services/movies_api/routes/movies.ts:29-46 | when the rows are non-empty and all parse, the listing is a 200 holding exactly their projections |
| MovieProperties.YearOrder | movie-services/movie-services/movies_api/routes/movies.ts:54-62 | the year query sorts descending exactly for `order=desc` |
| MovieProperties.YearBudgetReadsNumerals | movie-services/movie-services/movies_api/routes/movies.ts:79 | a budget stored as a decimal numeral reaches the formatter as its integer value |
| MovieProperties.YearBudgetOfNothingIsNaN | movie-services/movie-services/movies_api/routes/movies.ts:79 | a missing or NULL budget reaches the formatter as NaN |
| Scenarios.QueryCaseDoesNotMatter | movie-services/movie-services/movies_api/routes/movies.ts:109 | with ASCII lower-casing, the query `comedy` matches a stored `{"name":"Comedy"}` |
| Scenarios.CataloguePageWindow | movie-services/movie-services/movies_api/routes/movies.ts:8-46 | against a store that applies LIMIT/OFFSET as sqlite does, `page=k` lists the window of at most 50 rows after the first `(k - 1) * 50`, in order |
| Scenarios.CataloguePagePastEnd | movie-services/movie-services/movies_api/routes/movies.ts:29-32 | against the same store a page past the end of the table is a 404 |
| Scenarios.PageWindow | movie-services/movie-services/movies_api/routes/movies.ts:8-46 | against the same store, any `page` text that coerces to k lists that window |
| Scenarios.PagePastEnd | movie-services/movie-services/movies_api/routes/movies.ts:8-32 | against the same store, any `page` text that coerces to a page past the end of the table gives 404 |
| Scenarios.SecondPageOfHundredTwenty | movie-services/movie-services/movies_api/routes/movies.ts:8-46 | `page=2` against 120 rows gives count 50, rows 51 to 100 |
| Scenarios.ThirdPageOfHundredTwenty | movie-services/movie-services/movies_api/routes/movies.ts:8-46 | `page=3` against 120 rows gives count 20 |
| Scenarios.ThreeDramasOfTen | movie-services/movie-services/movies_api/routes/movies.ts:106-131 | `genre=Drama` against ten movies of which three are dramas gives count 3 |
| Scenarios.UnknownMovieIsNotFound | movie-services/movie-services/movies_api/routes/movies.ts:146-148 | an id with no row gives 404 "Movie not found" |

## Left out

- `movies_api/index.ts`: Express routing, the listening port, and opening the two sqlite files are I/O plumbing with nothing to state.
- `movies_api/routes/movies.ts` (the older variant with `LIMIT 100`): it passes rows straight through. Its only behaviour is the error/empty/non-empty split, which `Movies.GetMovie` already covers.
- The genre-list and rating handlers: their route files are not part of this model.
- SQL semantics: LIMIT/OFFSET, `strftime('%Y', …)`, ORDER BY and natural row order belong to the store, which is any function from queries to results. `Scenarios.SqliteWindow` is one example of such a store, not a claim about the engine.
- Library calls: `JSON.parse`, Unicode `toLowerCase`, `Number(string)`, `String(number)` and locale-dependent `toLocaleString` are fields of `Runtime`. So `$1,000,000` for a budget of 1000000 depends on the host locale and is not proved.
- JavaScript numbers: `parseInt` gives an exact integer, while JavaScript rounds very long numerals to a double. `(page - 1) * 50` is exact as well, and negative zero is folded into zero.
- Query parameters given more than once (`?page=1&page=2`), which Express turns into arrays: every parameter is a single text.
- JSON serialisation of responses: `res.json`/`res.send` are modelled as body values. Fields that are `undefined` appear as `None` rather than being dropped.
- Asynchrony: the driver's callback is applied at once, so interleaving of in-flight requests is not modelled. `Crashed` stands for the uncaught exception but not for what it does to the process.
- Binary (BLOB) column values: the driver's numbers, texts and NULL are modelled.
