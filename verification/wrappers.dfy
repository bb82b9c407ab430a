/** Plain optional and outcome types shared by the whole model: the
    source's Swift optionals become `Option`, its throwing calls become
    `Result`. */
module Wrappers {

  datatype Option<+T> = None | Some(value: T)

  datatype Result<+T, +E> = Success(value: T) | Failure(error: E)
}
