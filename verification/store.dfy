/**
 The movie store as the handlers see it: the queries they issue, and the
 rows or the error the sqlite driver calls back with. What the database does
 with a query (filtering, ordering, LIMIT and OFFSET) is not modelled: a
 store is any function from queries to results.
 */
module Store {
  import opened Wrappers

  /** A column value as the sqlite driver hands it to JavaScript: integers
      and reals both arrive as numbers. */
  datatype Cell = Null | Number(value: real) | Text(text: string)

  /** A result row: column name to value. */
  type Row = map<string, Cell>

  /** `row[name]`; None is `undefined`, for a column the row does not have. */
  function Column(row: Row, name: string): Option<Cell> {
    if name in row then Some(row[name]) else None
  }

  /** The direction of an ORDER BY. */
  datatype Order = Asc | Desc

  /** The queries the handlers issue, with their bound parameters. */
  datatype Query =
    | MoviesPage(limit: int, offset: int)
      // SELECT imdb_id, title, genres, release_date, budget FROM movies LIMIT ? OFFSET ?
    | MoviesOfYear(year: string, order: Order, limit: int, offset: int)
      // ... WHERE strftime('%Y', release_date) = ? ORDER BY release_date <order> LIMIT ? OFFSET ?
    | AllMovies
      // SELECT imdb_id, title, genres, release_date, budget FROM movies
    | MovieById(movieId: string)
      // SELECT * FROM movies WHERE movieId = ?

  /** An error from the driver: its `message`, and the text
      `JSON.stringify(err)` makes of it. */
  datatype DbError = DbError(message: string, serialized: string)

  /** What the driver's callback receives: an error, or the rows. */
  datatype StoreResult = Failed(error: DbError) | Rows(rows: seq<Row>)

  /** A store answers every query. */
  type Db = Query -> StoreResult
}
