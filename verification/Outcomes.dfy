/** The result types shared by the models: absent values and thrown errors. */
module Outcomes {

  datatype Option<+T> = None | Some(value: T)

  /** `Err` stands for a thrown exception; its argument says which one. */
  datatype Result<+T, +E> = Ok(value: T) | Err(error: E)
}
