/** Outcome types shared by the tracker model.

    The tracker never catches an exception inside its loop: a Python exception
    raised by an operation ends the whole process.  The model therefore returns
    a `Result` whose `Err` side names the exception the source would raise.
 */
module Outcomes {

  datatype Option<+T> = None | Some(value: T)

  /** The two exceptions the core can raise on its own. */
  datatype PyError =
    | ZeroDivisionError  // integer or float division by zero
    | NameError          // reference to a name that is not bound

  datatype Result<+T> = Ok(value: T) | Err(error: PyError)
}
