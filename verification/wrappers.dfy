/** Optional values and success/failure results shared by every module.
    `None` stands for a C# or JavaScript `null`; `Failure` for a thrown exception. */
module Wrappers {

  datatype Option<+T> = None | Some(value: T)

  datatype Result<+R, +E> = Success(value: R) | Failure(error: E)
}
