/** Optional values and refusable operations, shared by all components. */
module Outcomes {

  datatype Option<+T> = None | Some(value: T)

  /** The source's early exits: `abort(400)`, `abort(409)`, a raised
      `ApprovalRouteError`, `ValueError`, `BusinessCalendarError` or `RuntimeError`. */
  datatype Refusal =
    | BadRequest
    | Conflict
    | NoSuchRecord
    | NoRoute
    | NoApprover
    | BadCalendar
    | BadDuration
    | BadIntegrity

  datatype Result<+T> = Ok(value: T) | Err(error: Refusal)
}
