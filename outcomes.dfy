/** Values and failures shared by every part of the salary report model. */
module Outcomes {

  /** Python's `None`, or a value. */
  datatype Option<+T> = None | Some(value: T)

  /** The exceptions that end a run of the report script. */
  datatype Error =
    | NoneTimesFloat  // `None * 1.2` in predict_salary raises a TypeError
    | HttpError       // `raise_for_status` rejected a page request

  /** The value of a call, or the exception it raised. */
  datatype Result<+T> = Ok(value: T) | Failure(error: Error)
}
