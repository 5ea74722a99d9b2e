/**
 The genre test of the genre listing: a row is kept when its `genres`
 column parses as a JSON array and `some` entry's `name`, lower-cased,
 equals the lower-cased query. The test runs inside try/catch, so anything
 that throws (an unparsable column, a column that is no array, an entry
 without a string `name` reached before a match) makes it false.
 */
module GenreMatch {
  import opened Wrappers
  import opened JsValues
  import opened Store
  import opened CellConversions

  /** `g.name` when it is a string. For any other entry `g.name.toLowerCase()`
      throws: the entry is no object, has no `name`, or its `name` is no string. */
  function EntryName(g: Json): Option<string> {
    match g
    case JObject(fields) =>
      if "name" in fields && fields["name"].JString? then Some(fields["name"].s) else None
    case _ => None
  }

  /** Entry `g` has a name that lower-cases to the lower-cased `query`. */
  predicate NameMatches(rt: Runtime, g: Json, query: string) {
    EntryName(g).Some? && rt.toLowerCase(EntryName(g).value) == rt.toLowerCase(query)
  }

  /** `entries.some(g => g.name.toLowerCase() === query.toLowerCase())` with a
      thrown error read as false: the entries are tried in order, and the
      first one without a string name ends the scan with false. */
  function AnyEntryMatches(rt: Runtime, entries: seq<Json>, query: string): (r: bool)
    ensures r ==> exists i :: 0 <= i < |entries| && NameMatches(rt, entries[i], query)
    decreases |entries|
  {
    if |entries| == 0 then false
    else
      match EntryName(entries[0])
      case None => false
      case Some(name) =>
        rt.toLowerCase(name) == rt.toLowerCase(query) || AnyEntryMatches(rt, entries[1..], query)
  }

  /** Every entry before position `i` has a string name, so the scan reaches `i`. */
  predicate NamedUpTo(entries: seq<Json>, i: int)
    requires 0 <= i <= |entries|
  {
    forall j :: 0 <= j < i ==> EntryName(entries[j]).Some?
  }

  /** The genre test on a parsed `genres` value: it must be an array with a
      matching entry that the scan reaches. */
  predicate GenresMatch(rt: Runtime, genres: Option<Json>, query: string) {
    genres.Some? && genres.value.JArray? && AnyEntryMatches(rt, genres.value.items, query)
  }

  /** The filter callback of the genre listing, on one row. */
  predicate RowMatchesGenre(rt: Runtime, row: Row, query: string) {
    GenresMatch(rt, JsonOf(rt, Column(row, "genres")), query)
  }

  /** The scan answers true exactly when some entry matches and every entry
      before it has a string name. */
  lemma {:induction false} AnyEntryMatchesSpec(rt: Runtime, entries: seq<Json>, query: string)
    ensures AnyEntryMatches(rt, entries, query) <==>
      exists i :: 0 <= i < |entries| && NameMatches(rt, entries[i], query) && NamedUpTo(entries, i)
    decreases |entries|
  {
    if |entries| > 0 {
      AnyEntryMatchesSpec(rt, entries[1..], query);
      var tail := entries[1..];
      if AnyEntryMatches(rt, entries, query) {
        if !NameMatches(rt, entries[0], query) {
          var i :| 0 <= i < |tail| && NameMatches(rt, tail[i], query) && NamedUpTo(tail, i);
          assert NameMatches(rt, entries[i + 1], query) && NamedUpTo(entries, i + 1);
        } else {
          assert NamedUpTo(entries, 0);
        }
      } else {
        forall i | 0 <= i < |entries| && NameMatches(rt, entries[i], query)
          ensures !NamedUpTo(entries, i)
        {
          if EntryName(entries[0]).Some? {
            assert i > 0;
            assert !NamedUpTo(tail, i - 1);
          }
        }
      }
    }
  }

  /** A genre as the well-formed `genres` column lists it: `{"name": …}`. */
  datatype Genre = Genre(name: string)

  /** The entries as genres, or None when one of them has no string name. */
  function DecodeEntries(entries: seq<Json>): (r: Option<seq<Genre>>)
    ensures r.Some? <==> NamedUpTo(entries, |entries|)
    ensures r.Some? ==> |r.value| == |entries|
    ensures r.Some? ==> forall k :: 0 <= k < |entries| ==> EntryName(entries[k]) == Some(r.value[k].name)
    decreases |entries|
  {
    if |entries| == 0 then Some([])
    else
      match EntryName(entries[0])
      case None => None
      case Some(name) =>
        match DecodeEntries(entries[1..])
        case None => None
        case Some(rest) => Some([Genre(name)] + rest)
  }

  /** The typed reading of a parsed `genres` value: a list of genres when it
      is an array of objects that all have a string name. */
  function DecodeGenres(genres: Json): Option<seq<Genre>> {
    if genres.JArray? then DecodeEntries(genres.items) else None
  }

  /** On a well-formed genre list the test is plain membership: some genre's
      lower-cased name equals the lower-cased query. */
  lemma DecodedGenresMatch(rt: Runtime, genres: Json, gs: seq<Genre>, query: string)
    requires DecodeGenres(genres) == Some(gs)
    ensures GenresMatch(rt, Some(genres), query) <==>
      exists g :: g in gs && rt.toLowerCase(g.name) == rt.toLowerCase(query)
  {
    var entries := genres.items;
    AnyEntryMatchesSpec(rt, entries, query);
    if GenresMatch(rt, Some(genres), query) {
      var i :| 0 <= i < |entries| && NameMatches(rt, entries[i], query) && NamedUpTo(entries, i);
      assert gs[i] in gs;
    }
    if exists g :: g in gs && rt.toLowerCase(g.name) == rt.toLowerCase(query) {
      var g :| g in gs && rt.toLowerCase(g.name) == rt.toLowerCase(query);
      var i :| 0 <= i < |gs| && gs[i] == g;
      assert NameMatches(rt, entries[i], query) && NamedUpTo(entries, i);
    }
  }

  /** A `genres` column that does not parse, or parses to something other
      than an array, never matches: the row is dropped, not reported. */
  lemma UnparsableGenresNeverMatch(rt: Runtime, row: Row, query: string)
    requires JsonOf(rt, Column(row, "genres")).None? || !JsonOf(rt, Column(row, "genres")).value.JArray?
    ensures !RowMatchesGenre(rt, row, query)
  {
  }

  /** An entry without a string name that comes before every matching entry
      makes the row fail the test. */
  lemma MalformedEntryFirstNeverMatches(rt: Runtime, entries: seq<Json>, query: string, k: int)
    requires 0 <= k < |entries| && EntryName(entries[k]).None?
    requires forall j :: 0 <= j < k ==> !NameMatches(rt, entries[j], query)
    ensures !AnyEntryMatches(rt, entries, query)
  {
    AnyEntryMatchesSpec(rt, entries, query);
  }

  /** An entry without a string name that comes after a matching entry is
      never reached: the row still passes the test. */
  lemma MalformedEntryAfterMatchIsIgnored(rt: Runtime, entries: seq<Json>, query: string, i: int, k: int)
    requires 0 <= i < k < |entries| && EntryName(entries[k]).None?
    requires NameMatches(rt, entries[i], query) && NamedUpTo(entries, i)
    ensures AnyEntryMatches(rt, entries, query)
  {
    AnyEntryMatchesSpec(rt, entries, query);
  }
}
