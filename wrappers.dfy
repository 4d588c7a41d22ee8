/** Option, Result and Outcome: absent results and the exceptions the mapper throws. */
module Wrappers {

  datatype Option<+T> = None | Some(value: T)

  /** The ways building or registering a mapping fails. */
  datatype Error =
    /** `ToDictionary` met a second readable property of this name. */
    | DuplicateProperty(name: string)
    /** Building the binding of the destination property of this name throws. */
    | InvalidBinding(name: string)
    /** `Dictionary.Add` met a pair that is already registered. */
    | DuplicateKey

  datatype Result<+T> = Ok(value: T) | Err(error: Error)

  datatype Outcome = Pass | Fail(error: Error)
}
