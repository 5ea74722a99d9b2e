/**
 The JavaScript values that the movie handlers touch, and the library calls
 they make. The calls are not defined here: a `Runtime` carries them as
 function values, so every handler is proved for every runtime behaviour.
 */
module JsValues {
  import opened Wrappers

  /** A JavaScript number. Negative zero is folded into zero: the page test
      `|| 1` treats both alike; a budget of -0, which `toLocaleString` prints
      as "-0", is formatted like 0. */
  datatype JsNumber = NaN | Finite(value: real) | Infinity(negative: bool)

  /** A value produced by `JSON.parse`. */
  datatype Json =
    | JNull
    | JBool(b: bool)
    | JNumber(n: real)
    | JString(s: string)
    | JArray(items: seq<Json>)
    | JObject(fields: map<string, Json>)

  /** The library calls the handlers make:
      - `toLowerCase`: `String.prototype.toLowerCase` (full Unicode case mapping);
      - `jsonParse`: `JSON.parse` on a text, None when it throws;
      - `numberToString`: `String(x)` for a finite number;
      - `stringToNumber`: `Number(s)` for a string;
      - `toLocaleString`: `Number.prototype.toLocaleString()` in the host locale. */
  datatype Runtime = Runtime(
    toLowerCase: string -> string,
    jsonParse: string -> Option<Json>,
    numberToString: real -> string,
    stringToNumber: string -> JsNumber,
    toLocaleString: JsNumber -> string)
}
