/** Small failure-carrying datatypes shared by the whole model. */
module Basics {

  /** Python's `None` or a present value. */
  datatype Option<+T> = None | Some(value: T)

  /**
    The outcome of calling Python code that may raise: either it returned
    `value`, or it raised an exception whose `str(...)` is `message`.
  */
  datatype Try<+T> = Ok(value: T) | Raised(message: string)
}
