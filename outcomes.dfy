/** The failures the channel model and the lumping can report, in place of raised exceptions. */
module Outcomes {

  datatype Error =
    | NotRateMatrix          // the generator check after building a rate matrix failed
    | NotTransitionMatrix    // the stochasticity check after exponentiating failed
    | UnknownIndex(idx: int) // the state table has no entry for idx
    | DegenerateCluster      // a coarse state has zero stationary weight

  datatype Result<T> = Ok(value: T) | Err(error: Error)
}
