/**
 * JSON documents as Python's `json` module hands them to the handlers:
 * request bodies, query results of the analytics engine, and the
 * metadata files kept under `metadata/`.
 */
module JsonValues {

  /** A decoded JSON value; `Real` stands for a number with a fraction or exponent. */
  datatype Json =
    | Null
    | Bool(b: bool)
    | Int(i: int)
    | Real(r: real)
    | Str(s: string)
    | Arr(items: seq<Json>)
    | Obj(fields: map<string, Json>)

  /** A file under `metadata/`: either `json.load` fails on it, or it decodes to a document. */
  datatype MetadataFile = Unreadable | Parsed(doc: Json)

  /** `dict.get(key)`: the value stored under `key`, or `None` (JSON null) when there is none. */
  function Get(fields: map<string, Json>, key: string): Json {
    if key in fields then fields[key] else Null
  }
}
