/** Option and Result, as the rest of the model uses them for JavaScript's
    `null`/`undefined`/`NaN` and for exceptions. */
module Wrappers {

  datatype Option<+T> = None | Some(value: T) {
    function GetOr(default: T): T {
      match this
      case Some(v) => v
      case None => default
    }
  }

  /** The exceptions the planner's core can raise (each a `TypeError` in the
      source): calling the step function of a recurrence key that has none,
      and mapping over the rows of a section key the state does not hold. */
  datatype Error = NoStepFor(key: string) | NoSection(key: string)

  datatype Result<+T> = Ok(value: T) | Err(error: Error)
}
