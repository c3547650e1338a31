/** Failure-carrying values shared by both copies of the filler. */
module Outcomes {

  /** The ways a configuration or fill call can fail. */
  datatype FillError =
    | InvalidParameters      // the radius/side-count assertion of set_params
    | NotConfigured          // the "set parameters first" assertion of run / fill
    | MissingTileGenerator   // the guard passed but no tile generator was ever built

  /** A Python attribute that may still hold `None`. */
  datatype Option<+T> = None | Some(value: T)

  /** Success or the error a call raised; used for calls that return nothing. */
  datatype Outcome = Pass | Fail(error: FillError)

  /** A value or the error a call raised. */
  datatype Result<+R> = Ok(value: R) | Err(error: FillError)
}
