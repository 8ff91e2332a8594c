/** The hosted record store, seen from the pages only through the requests
    they send to it and the outcomes they receive. Nothing here persists
    anything: a write is a value the page emits, and the store's answer is an
    input to the page's next transition. */
module Store {
  import opened JsValue

  /** One column value of a row sent to the store. `ParseInt(src)` and
      `ParseFloat(src)` stand for `parseInt(src, 10)` and `parseFloat(src)`,
      kept symbolic because number parsing is outside this model. */
  datatype Cell = Val(v: Value) | ParseInt(src: Value) | ParseFloat(src: Value)

  /** A row or a set of column updates, keyed by column name. */
  type Payload = map<string, Cell>

  /** The writes of the CRUD pages:
      `from(table).insert(rows)`, `from(table).update(values).eq('id', id)`
      and `from(table).delete().eq('id', id)`. */
  datatype Request =
    | InsertRows(table: string, rows: seq<Payload>)
    | UpdateById(table: string, values: Payload, id: Value)
    | DeleteById(table: string, id: Value)

  /** The store's answer to a write: success, or an error whose message the
      page shows verbatim. */
  datatype Outcome = Ok | Failed(message: string)

  /** The page's JavaScript object spread `{...obj}` of a record of plain
      values: every field becomes a plain cell. */
  function Spread(fields: map<string, Value>): (p: Payload)
    ensures p.Keys == fields.Keys
    ensures forall k :: k in p ==> p[k] == Val(fields[k])
  {
    map k | k in fields :: Val(fields[k])
  }
}
