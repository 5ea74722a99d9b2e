/**
 How the listing handlers read their `page`, `order` and `genre` query
 parameters, and which rows a page covers. A parameter is None when the
 request does not carry it.
 */
module Paging {
  import opened Wrappers
  import opened JsParseInt
  import opened ArrayOps
  import opened Store

  /** The fixed page size of every listing. */
  const PageSize: nat := 50

  /** `parseInt(page) || 1`: NaN and zero both fall back to the first page.
      A missing parameter is the value `undefined`, which `parseInt` reads
      as the text "undefined". */
  function CoercePage(page: Option<string>): (p: int)
    ensures p != 0
    ensures page.None? ==> p == 1
  {
    var parsed := ParseInt(page.GetOr("undefined"));
    assert page.None? ==> parsed.None? by {
      UndefinedAndNullAreNaN();
    }
    if parsed.Some? && parsed.value != 0 then parsed.value else 1
  }

  /** The number of rows before page `page`: `(page - 1) * limit`. */
  function Offset(page: int): (o: int)
    ensures o % PageSize == 0
    ensures o >= 0 <==> page >= 1
    ensures o == 0 <==> page == 1
  {
    (page - 1) * PageSize
  }

  /** `order === 'desc' ? 'DESC' : 'ASC'`: only the exact text "desc"
      selects descending order. */
  function SortOrder(order: Option<string>): (o: Order)
    ensures o == Desc <==> order == Some("desc")
  {
    match order
    case Some(text) => if text == "desc" then Desc else Asc
    case None => Asc
  }

  /** `req.query.genre?.toString()` followed by the `!genreQuery` test: the
      genre to filter on, or None when it is missing or empty. */
  function RequiredGenre(genre: Option<string>): (g: Option<string>)
    ensures g.Some? <==> genre.Some? && genre.value != ""
    ensures g.Some? ==> g == genre
  {
    match genre
    case Some(text) => if text == "" then None else genre
    case None => None
  }

  /** The rows of page `page`: `s.slice(offset, offset + limit)`. */
  function PageOf<T>(s: seq<T>, page: int): (r: seq<T>)
    ensures |r| <= PageSize
    ensures forall x :: x in r ==> x in s
  {
    Slice(s, Offset(page), Offset(page) + PageSize)
  }

  /** A page value holding the decimal numeral of `n`, after any white
      space and before any text that does not continue it, selects page
      `n`, except that page 0 falls back to page 1. */
  lemma DecimalPage(ws: string, n: int, rest: string)
    requires forall i :: 0 <= i < |ws| ==> IsStrWhiteSpaceChar(ws[i])
    requires EndsNumeral(n, rest)
    ensures CoercePage(Some(ws + IntToDecimal(n) + rest)) == if n == 0 then 1 else n
  {
    ParseIntReadsDecimal(ws, n, rest);
  }

  /** A page value that holds no digit after its white space and an
      optional sign, the empty and all-blank ones included, selects page 1. */
  lemma NonNumericPage(page: string)
    requires var t := TrimStart(page);
      var u := if |t| > 0 && (t[0] == '+' || t[0] == '-') then t[1..] else t;
      |u| == 0 || DigitValue(u[0]) >= 10
    ensures CoercePage(Some(page)) == 1
  {
  }

  /** Every page from the first one on holds at most `PageSize` rows, and
      those rows are the ones after the first `Offset(page)`, in order. */
  lemma PageBounds<T>(s: seq<T>, page: int)
    requires page >= 1
    ensures PageOf(s, page) == s[Min(Offset(page), |s|)..Min(Offset(page) + PageSize, |s|)]
    ensures |PageOf(s, page)| <= PageSize
  {
  }

  /** Pages 1 to `k`, one after the other. */
  function FirstPages<T>(s: seq<T>, k: nat): seq<T>
    decreases k
  {
    if k == 0 then [] else FirstPages(s, k - 1) + PageOf(s, k)
  }

  /** Pages 1 to `k` together are the first `k * PageSize` rows: no row is
      skipped and none appears on two pages. */
  lemma {:induction false} FirstPagesArePrefix<T>(s: seq<T>, k: nat)
    ensures FirstPages(s, k) == s[..Min(k * PageSize, |s|)]
    decreases k
  {
    if k > 0 {
      FirstPagesArePrefix(s, k - 1);
      PageBounds(s, k);
      var before := (k - 1) * PageSize;
      assert Offset(k) == before && k * PageSize == before + PageSize;
      var a := Min(before, |s|);
      var b := Min(before + PageSize, |s|);
      assert s[..a] + s[a..b] == s[..b];
    }
  }
}
