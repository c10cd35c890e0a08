/** Loosely typed records as the MongoDB driver hands them to the report code (`bson.M`). */
module Documents {
  import opened Decimal

  /** A field value: a string, an integer (BSON int32 or int64), or anything else. The last
      carries the text `fmt.Sprintf("%v", v)` would print for it (a float, a date, a nested
      document, `<nil>` for a BSON null), which only the dialer collector reads. */
  datatype Value = VStr(s: string) | VInt(i: int) | VOther(shown: string)

  /** One record: field name to value. A field the record lacks is absent from the map. */
  type Doc = map<string, Value>

  /** `fmt.Sprintf("%v", v)`. */
  function Shown(v: Value): string {
    match v
    case VStr(s) => s
    case VInt(i) => FormatInt(i)
    case VOther(shown) => shown
  }
}
