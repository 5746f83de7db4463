/** Outcomes of compiler passes. An error keeps its kind, not its text. Divergence is no error of the compiler:
    it is the outcome of reading a comment that is never left. */
module Results {
  datatype Error = SyntaxError | NameError | TypeError | SemanticError | Unimplemented | InternalError | UncaughtError
    | Divergence

  datatype Result<+T> = Ok(value: T) | Err(error: Error) {
    predicate IsFailure() { Err? }

    function PropagateFailure<U>(): Result<U>
      requires Err?
    {
      Err(error)
    }

    function Extract(): T
      requires Ok?
    {
      value
    }
  }

  datatype Option<+T> = None | Some(value: T)
}
