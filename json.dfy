/** The JSON values the cursor file holds, Python's truthiness of the value
    `json.loads` returns, and the encoder/decoder pair as an abstract codec. */
module Json {
  import opened Util

  /** A decoded JSON document (numbers are integers only). */
  datatype Json =
    | Null
    | Bool(b: bool)
    | Number(n: int)
    | Str(s: string)
    | Array(items: seq<Json>)
    | Object(fields: map<string, Json>)

  /** Python's truth value of the decoded document: `None`, `False`, `0`,
      the empty string, the empty list and the empty dict are falsy. */
  predicate Truthy(j: Json)
  {
    match j
    case Null => false
    case Bool(b) => b
    case Number(n) => n != 0
    case Str(s) => s != ""
    case Array(items) => items != []
    case Object(fields) => fields != map[]
  }

  /** Exactly six documents are falsy; every other document is truthy. */
  lemma FalsyExactly(j: Json)
    ensures !Truthy(j) <==> || j == Null || j == Bool(false) || j == Number(0)
                            || j == Str("") || j == Array([]) || j == Object(map[])
  {
  }

  /** `json.dumps` and `json.loads`; a failed parse (a `JSONDecodeError`)
      is `None`. */
  datatype Codec = Codec(dumps: Json -> string, loads: string -> Option<Json>)

  /** Whether an optional state read from disk selects the incremental
      branch of the fetch (`not min_id` is false). */
  predicate IsSet(state: Option<Json>)
  {
    state.Some? && Truthy(state.value)
  }

  /** The full fetch is chosen exactly when no state was read or the state
      read is one of the falsy documents. */
  lemma UnsetExactly(state: Option<Json>)
    ensures !IsSet(state) <==> || state == None || state == Some(Null) || state == Some(Bool(false))
                               || state == Some(Number(0)) || state == Some(Str(""))
                               || state == Some(Array([])) || state == Some(Object(map[]))
  {
    if state.Some? {
      FalsyExactly(state.value);
    }
  }
}
