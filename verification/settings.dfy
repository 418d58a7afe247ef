/** The configuration dictionaries the upload manager reads (`cfg`,
    `base_cfg`, `creds`, `pix_data`): string keys mapped to loosely typed
    values, read with `d[k]` (which raises `KeyError` when `k` is absent) or
    `d.get(k, default)`, and tested by Python truthiness. */
module Settings {
  datatype Value =
    | Text(s: string)
    | Flag(b: bool)
    | Count(n: int)
    | Table(entries: map<string, Value>)
    | Null

  type Dict = map<string, Value>

  /** Python's `bool(v)`. */
  predicate Truthy(v: Value) {
    match v
    case Text(s) => s != []
    case Flag(b) => b
    case Count(n) => n != 0
    case Table(entries) => entries != map[]
    case Null => false
  }

  /** `d.get(k, default)`. */
  function Get(d: Dict, k: string, default: Value): (v: Value)
    ensures k in d ==> v == d[k]
    ensures k !in d ==> v == default
  {
    if k in d then d[k] else default
  }

  /** `d` agrees with `e` wherever `d` has a key. */
  predicate SubDict(d: Dict, e: Dict) {
    forall k :: k in d ==> k in e && e[k] == d[k]
  }
}
