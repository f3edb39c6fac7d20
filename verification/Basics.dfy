/** Optional values, results and the ways a call of the engine is refused. */
module Basics {
  datatype Option<+T> = None | Some(value: T)

  datatype Result<+T> = Ok(value: T) | Err(error: Error)

  datatype Error =
    | InvalidGraph
    | DependencyCycle
    | UnknownUnit
    | NotReady
    | NotFailed
    | ConvergenceFailed
    | BadParallelism
    | UnverifiedConstraint
    | DuplicateConstraint
}
