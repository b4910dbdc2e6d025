/** Option and Result: "undefined" results and thrown errors of the source, as data. */
module Options {

  datatype Option<+T> = None | Some(value: T)

  datatype Result<+R, +E> = Success(value: R) | Failure(error: E)
}
