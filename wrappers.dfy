/** Option, Result and the Python exception classes the pipeline raises. */
module Wrappers {

  datatype Option<+T> = None | Some(value: T)

  /** The exception classes raised by the modelled code. */
  datatype ErrorKind =
    | ValueError         // bad calibration record, empty log, numpy shape mismatch, ...
    | RuntimeError       // insufficient matches, homography failure, sample-rate mismatch, ...
    | FileNotFoundError  // missing log, unreadable image, video that cannot be opened
    | TypeError          // arithmetic or int() on a value of the wrong type (None, a list)
    | KeyError           // a dict lookup with [] on a missing key
    | OpenCvError        // cv2.error raised inside an OpenCV call
    | ZeroDivisionError  // a division by a zero sample rate or frame rate

  datatype Result<+T> = Ok(value: T) | Err(error: ErrorKind)

  /** Success or failure of a procedure that returns nothing. */
  datatype Outcome = Pass | Fail(error: ErrorKind)
}
