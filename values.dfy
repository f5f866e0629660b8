/** Values that flow through the event-entry script: optional values, the JSON
    values `json.loads` can produce, and the column values of an event row. */
module Values {

  datatype Option<+T> = None | Some(value: T)

  /** A decoded JSON value, simplified: `JNull` is Python's `None`; every number is
      one `real` (so `1` and `1.0` are the same, and `NaN`/`Infinity` are absent);
      an object keeps its members as written, duplicate keys included. */
  datatype Json =
    | JNull
    | JBool(b: bool)
    | JNumber(n: real)
    | JString(s: string)
    | JArray(items: seq<Json>)
    | JObject(members: seq<(string, Json)>)

  /** Python truthiness of a decoded JSON value (`json_data or "N/A"`). */
  function Truthy(j: Json): (b: bool)
    ensures !b <==> j in {JNull, JBool(false), JNumber(0.0), JString(""), JArray([]), JObject([])}
  {
    match j
    case JNull => false
    case JBool(b) => b
    case JNumber(n) => n != 0.0
    case JString(s) => s != ""
    case JArray(items) => items != []
    case JObject(members) => members != []
  }

  /** A column value of a row sent to or returned by the data service. */
  datatype Value = VInt(i: int) | VStr(s: string) | VJson(j: Json)

  /** A column name of the `event` table as a dict key: `id`, `category_id`,
      `occurred_at`, `comment`, `data`, or any other column the service returns. */
  datatype Column = Id | CategoryId | OccurredAt | Comment | Data | OtherColumn(name: string)

  /** A row as a Python dict from column name to value. */
  type Record = map<Column, Value>
}
