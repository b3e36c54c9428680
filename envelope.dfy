/** The response a handler writes: status code, message, and either the
    payload or the error detail (`response.BuildSuccessResponse` and
    `response.BuildFailedResponse`), or an empty 204. */
module Envelope {
  import Store
  import Validator

  const StatusOK := 200
  const StatusNoContent := 204
  const StatusBadRequest := 400
  const StatusNotFound := 404
  const StatusInternalServerError := 500

  /** The `errors` field of a failure envelope: the text of a database or
      binding error, or a fixed note. */
  datatype Detail = DbCause(dbError: Store.DbError) | BindCause(bindError: Validator.BindError) | Note(text: string)

  datatype Response<T> =
    | Succeeded(message: string, data: T)
    | Failed(status: int, message: string, errors: Detail)
    | NoContent
  {
    function Code(): int {
      match this
      case Succeeded(_, _) => StatusOK
      case Failed(status, _, _) => status
      case NoContent => StatusNoContent
    }
  }

  /** The outcomes injected for a handler's two database calls: the lookup
      by id, and the write (create, save or delete) that may follow it. */
  datatype Faults = Faults(lookup: Store.Fault, write: Store.Fault)
}
