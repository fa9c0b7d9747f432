/** The `db:query` message the renderer sends to the main process, and the
    `{ data, error }` reply. Absent optional properties are `Undefined`. */
module Ipc {
  import opened Wrappers
  import opened JsValues

  /** `orderBy: { column, direction }` as sent over IPC. */
  datatype OrderSpec = OrderSpec(column: string, direction: string)

  datatype Query = Query(
    table: string,
    operation: string,
    data: Value,
    where: Value,
    orderBy: Option<OrderSpec>,
    limit: Value,
    offset: Value)

  /** `{ data, error }` where `error` is a message or `null`. */
  datatype Response = Response(data: Value, error: Option<string>)

  /** The `where: { [column]: value }` object of the builder methods. */
  function WhereEq(column: string, value: Value): Value {
    Obj([Field(column, value)])
  }
}
