/**
 * The JSON records the scripts pass to each other through files. Every value
 * the pipeline stores in a record is a string or `None`, so a value is one of
 * those two and a record is a dictionary from key to value.
 */
module Json {

  /** A JSON value as the pipeline produces it: `None` (JSON null) or a string. */
  datatype Value = Null | Str(s: string)

  /** A JSON object (a Python `dict` read by `json.load`). */
  type Record = map<string, Value>

  /** Python's `d.get(key, default)`. */
  function Get(r: Record, key: string, default: Value): (v: Value)
    ensures key in r ==> v == r[key]
    ensures key !in r ==> v == default
  {
    if key in r then r[key] else default
  }

  /** Python's `f"{v}"`: a string is itself, `None` prints as `None`. */
  function Format(v: Value): (s: string)
    ensures v.Str? ==> s == v.s
  {
    match v
    case Null => "None"
    case Str(s) => s
  }

  /** Every record has a string `id`, and no two records share one. */
  predicate DistinctIds(records: seq<Record>) {
    && (forall i :: 0 <= i < |records| ==> "id" in records[i] && records[i]["id"].Str?)
    && (forall i, j :: 0 <= i < j < |records| ==> records[i]["id"] != records[j]["id"])
  }
}
