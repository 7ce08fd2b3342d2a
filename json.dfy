/** The JSON values a calibration file can hold, as Python's json module loads them. */
module Json {

  /** A Python float: finite, NaN, or an infinity (json.load accepts NaN and Infinity). */
  datatype Float = Finite(v: real) | NaN | Inf(negative: bool)

  datatype Json =
    | JNull
    | JBool(b: bool)
    | JInt(i: int)
    | JFloat(f: Float)
    | JStr(s: string)
    | JList(items: seq<Json>)
    | JObject(fields: map<string, Json>)
}
