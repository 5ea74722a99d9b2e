/**
 The JavaScript conversions the handlers apply to column values:
 `String(v)`, `Number(v)`, `parseInt(v)` and `JSON.parse(v)`. A missing
 column is `undefined`.
 */
module CellConversions {
  import opened Wrappers
  import opened JsValues
  import opened JsParseInt
  import opened Store

  /** `String(v)` for a column value, `undefined` included. */
  function ToText(rt: Runtime, v: Option<Cell>): string {
    match v
    case None => "undefined"
    case Some(Null) => "null"
    case Some(Number(x)) => rt.numberToString(x)
    case Some(Text(t)) => t
  }

  /** `Number(v)` for a column value. */
  function ToNumber(rt: Runtime, v: Option<Cell>): JsNumber {
    match v
    case None => NaN
    case Some(Null) => Finite(0.0)
    case Some(Number(x)) => Finite(x)
    case Some(Text(t)) => rt.stringToNumber(t)
  }

  /** `parseInt(v)` for a column value: `parseInt` of `String(v)`. */
  function ParseIntOf(rt: Runtime, v: Option<Cell>): JsNumber {
    match ParseInt(ToText(rt, v))
    case None => NaN
    case Some(n) => Finite(n as real)
  }

  /** `JSON.parse(v)` for a column value: the parse of `String(v)`; None
      when it throws. */
  function JsonOf(rt: Runtime, v: Option<Cell>): Option<Json> {
    rt.jsonParse(ToText(rt, v))
  }
}
