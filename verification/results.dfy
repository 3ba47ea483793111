/** Failure-carrying return values shared by every module of the model.

    Swift's `Optional` becomes `Option`, and a function marked `throws` becomes
    a function returning `Result`, whose `Err` carries the thrown message.
 */
module Results {

  datatype Option<+T> = None | Some(value: T)

  datatype Result<+T, +E> = Ok(value: T) | Err(error: E)
}
