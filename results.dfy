/** The exceptions the sorter can raise once parsing has succeeded, and the
    success-or-exception values that carry them. */
module Results {

  /** RecursionError: the depth-first sort re-enters a method whose call is
      still on the interpreter's stack, so the recursion never ends.
      IndexError: `methods[0]` on a class that has no (non-async) methods. */
  datatype Error = RecursionError | IndexError

  datatype Result<T> = Ok(value: T) | Err(error: Error)

  /** What a procedure that only changes state returns: it finished, or it raised. */
  datatype Outcome = Pass | Fail(error: Error)

  datatype Option<T> = None | Some(value: T)
}
