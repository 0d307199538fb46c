/** Option and Result, the failure-carrying values the model returns where the
    checker would return None or raise an exception. */
module Wrappers {

  datatype Option<+T> = None | Some(value: T)

  datatype Result<+T, +E> = Ok(value: T) | Err(error: E)
}

/** The Python exceptions the core can raise on the paths the model keeps. */
module Faults {

  datatype Fault =
    /** `date_to_weekday` could not turn the remote date into a calendar date
        (`ValueError` from `int` or `datetime.date`, `TypeError` for a wrong
        number of parts). */
    | InvalidDate(date: string)
    /** A schedule string without a `/`: `split('/')[1]` raises `IndexError`. */
    | MissingHourList(entry: string)
    /** A name that is not bound at the point of use (`NameError`). */
    | NameError(name: string)
}
