/** Option and Result types, and the Python exceptions that the harness can
    raise, as values.  Every Python `raise` on the modelled paths becomes an
    `Err` carrying one of the `Error` cases below. */
module Outcomes {

  datatype Option<+T> = None | Some(value: T)

  /** The exceptions the modelled code can raise. */
  datatype Error =
    | ValueNotInList(item: string)                   // ValueError of `list.index`
    | IndexOutOfRange                                // IndexError of `seq[i]`
    | AssertionFailed                                // a failed `assert`
    | NotAFloat(token: string)                       // ValueError of `float(token)`
    | KeyNotFound(key: string)                       // KeyError of `dict[key]`
    | LaunchFailed(trace: string, diagnostic: string) // raised by `future.result()`

  /** Either a value or the exception that was raised instead; usable with `:-`. */
  datatype Result<+T> = Ok(value: T) | Err(error: Error) {

    predicate IsFailure() {
      Err?
    }

    function PropagateFailure<U>(): Result<U>
      requires Err?
    {
      Err(error)
    }

    function Extract(): T
      requires Ok?
    {
      value
    }
  }
}
