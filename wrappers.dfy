/** Option and Result, the failure-compatible wrappers the rest of the model returns. */
module Wrappers {

  datatype Option<+T> = None | Some(value: T)

  datatype Result<+T, +E> = Success(value: T) | Failure(error: E) {
    predicate IsFailure() { Failure? }

    function PropagateFailure<U>(): Result<U, E>
      requires Failure?
    {
      Failure(error)
    }

    function Extract(): T
      requires Success?
    {
      value
    }
  }

  datatype Outcome<+E> = Pass | Fail(error: E)
}

/** The fatal conditions of the configuration engine. In gb.c each of them ends the
    process (an `assert(0)` or an `exit(-1)`); here they are values. */
module Errors {

  datatype Error =
    | UndefinedToken(name: string)      // getTokenVal / setTokenVal on a key outside the table
    | MalformedTemplate(template: string) // a `%` without a closing `%`
    | TooDeep(name: string)             // reference nesting beyond the expansion fuel
    | UnknownPort(arg: string)          // `-mPORT[/PLAT]` that no class matches
}
