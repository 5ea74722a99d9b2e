/**
 What a handler sends back, and the record of one request: the query it
 issued, if any, and its reply.
 */
module Responses {
  import opened Wrappers
  import opened JsValues
  import opened Store

  /** A movie as the paginated listings send it: five fields, with `genres`
      parsed and `budget` formatted. A None field is `undefined`, which
      `res.json` leaves out. */
  datatype ListedMovie = ListedMovie(
    imdbId: Option<Cell>,
    title: Option<Cell>,
    genres: Json,
    releaseDate: Option<Cell>,
    budget: string)

  /** The body of a response. */
  datatype Body =
    | ErrorObject(error: string)       // res.json({ error })
    | MessageObject(message: string)   // res.json({ message })
    | PlainText(text: string)          // res.send(text)
    | Listing(page: int, count: int, results: seq<ListedMovie>)  // res.json({ page, count, results })
    | RowArray(rows: seq<Row>)         // res.send(rows)

  datatype Response = Response(status: int, body: Body)

  /** A response, or an exception thrown inside the driver's callback,
      after which no response is sent. */
  datatype Reply = Sent(response: Response) | Crashed

  /** One request: the query issued to the store, if any, and the reply. */
  datatype Exchange = Exchange(issued: Option<Query>, reply: Reply)
}
